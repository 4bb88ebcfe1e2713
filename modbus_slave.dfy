/**
 * The Modbus RTU slave engine of the hub firmware: a receive buffer filled byte by byte from the
 * UART interrupt, closed into a frame after a silence on the bus (MODBUS over Serial Line V1.02,
 * section 2.5.1.1), then checked (length, address, CRC) and dispatched to the two supported
 * functions, Read Holding Registers (0x03) and Write Single Register (0x06), or answered with an
 * exception (MODBUS Application Protocol V1.1b3, sections 6.3, 6.6 and 7).
 *
 * `React` is the specification of one received frame: the reply (if any), the new register
 * contents and the write-callback invocation. The `Slave` class is the handle with its buffers,
 * proved to behave as `React` says.
 */
module ModbusSlave {
  import opened Wrappers
  import opened Bytes
  import opened ModbusCrc

  const RxBufferSize: nat := 256
  const TxBufferSize: nat := 256
  /** Silence, in milliseconds, after which the received bytes form a frame. */
  const FrameTimeoutMs: nat := 5

  const FcReadHoldingRegs: byte := 0x03
  const FcWriteSingleReg: byte := 0x06

  const ExIllegalFunction: byte := 0x01
  const ExIllegalAddress: byte := 0x02
  const ExIllegalValue: byte := 0x03

  const BroadcastAddress: byte := 0
  /** Address, function code and two CRC bytes. */
  const MinFrameLength: nat := 4
  /** Address, function code, two 16-bit fields and two CRC bytes. */
  const RequestLength: nat := 8
  const MaxReadQuantity: nat := 125

  /** `function | 0x80`: the function code with its exception flag set. */
  function WithErrorBit(f: byte): (r: byte)
    ensures r >= 0x80 && r % 0x80 == f % 0x80
  {
    if f < 0x80 then f + 0x80 else f
  }

  /** `HAL_GetTick() - last_rx_time` in `uint32_t` arithmetic. */
  function Elapsed(last: u32, now: u32): u32
  {
    Trunc32(now - last)
  }

  /** The elapsed time is measured correctly even when the millisecond counter wrapped around in between. */
  lemma ElapsedAcrossWrap(last: u32, d: u32)
    ensures Elapsed(last, Trunc32(last + d)) == d
  {
    if last + d >= 0x1_0000_0000 {
      assert Trunc32(last + d) == last + d - 0x1_0000_0000;
    }
  }

  /** What the transceiver sees: the DE pin driven high (transmit) or low (receive), or a frame sent. */
  datatype BusEvent = DriverEnable(transmit: bool) | Transmit(frame: seq<byte>)

  /** The level the DE pin was last driven to (receive if it was never driven). */
  function Transmitting(trace: seq<BusEvent>): bool
  {
    if |trace| == 0 then false
    else match trace[|trace| - 1]
      case DriverEnable(on) => on
      case Transmit(_) => Transmitting(trace[..|trace| - 1])
  }

  /** `Modbus_SendResponse`: DE high, the frame, DE low. */
  function ResponseEvents(frame: seq<byte>): (events: seq<BusEvent>)
    ensures !Transmitting(events)
  {
    [DriverEnable(true), Transmit(frame), DriverEnable(false)]
  }

  /** The bus events of an optional reply. */
  function ReplyEvents(reply: Option<seq<byte>>): seq<BusEvent>
  {
    match reply
    case None => []
    case Some(frame) => ResponseEvents(frame)
  }

  /** Sending a reply leaves the transceiver in receive mode, whatever it was before. */
  lemma {:induction false} ReplyLeavesReceiveMode(trace: seq<BusEvent>, reply: Option<seq<byte>>)
    requires !Transmitting(trace)
    ensures !Transmitting(trace + ReplyEvents(reply))
  {
    if reply.Some? {
      var t := trace + ReplyEvents(reply);
      assert t[|t| - 1] == DriverEnable(false);
    } else {
      assert trace + ReplyEvents(reply) == trace;
    }
  }

  /** `Modbus_SendException`: `[slave, fc | 0x80, code]` and its CRC. */
  function ExceptionReply(slave: byte, fc: byte, code: byte): seq<byte>
  {
    var body := [slave, WithErrorBit(fc), code];
    body + Trailer(body)
  }

  /** Register values on the wire: high byte first. */
  function RegisterBytes(values: seq<u16>): (r: seq<byte>)
    ensures |r| == 2 * |values|
  {
    if |values| == 0 then []
    else RegisterBytes(values[..|values| - 1]) + [HighByte(values[|values| - 1]), LowByte(values[|values| - 1])]
  }

  /** Register `j` sits at bytes `2j` (high) and `2j + 1` (low) of the data field. */
  lemma {:induction false} RegisterBytesAt(values: seq<u16>, j: nat)
    requires j < |values|
    ensures RegisterBytes(values)[2 * j] == HighByte(values[j])
    ensures RegisterBytes(values)[2 * j + 1] == LowByte(values[j])
  {
    if j < |values| - 1 {
      RegisterBytesAt(values[..|values| - 1], j);
    }
  }

  /** How a master reads the register values back out of a reply's data field. */
  function DecodeRegisters(data: seq<byte>): (values: seq<u16>)
    requires |data| % 2 == 0
    ensures |values| == |data| / 2
  {
    if |data| == 0 then []
    else DecodeRegisters(data[..|data| - 2]) + [Word(data[|data| - 2], data[|data| - 1])]
  }

  /** The data field of a Read Holding Registers reply decodes to exactly the registers read. */
  lemma {:induction false} RegisterBytesRoundTrip(values: seq<u16>)
    ensures DecodeRegisters(RegisterBytes(values)) == values
  {
    if |values| > 0 {
      var init := values[..|values| - 1];
      RegisterBytesRoundTrip(init);
      var r := RegisterBytes(values);
      assert r[..|r| - 2] == RegisterBytes(init);
      WordRoundTrip(values[|values| - 1]);
    }
  }

  /** The normal Read Holding Registers reply: `[slave, 0x03, 2 * n, hi0, lo0, …]` and its CRC. */
  function ReadReply(slave: byte, values: seq<u16>): seq<byte>
    requires |values| <= MaxReadQuantity
  {
    var body := [slave, FcReadHoldingRegs, 2 * |values|] + RegisterBytes(values);
    body + Trailer(body)
  }

  /** The normal Write Single Register reply: `[slave, 0x06, reg hi, reg lo, value hi, value lo]` and its CRC. */
  function WriteReply(slave: byte, reg: u16, value: u16): seq<byte>
  {
    var body := [slave, FcWriteSingleReg, HighByte(reg), LowByte(reg), HighByte(value), LowByte(value)];
    body + Trailer(body)
  }

  /** The 16-bit field at bytes `i` and `i + 1` of a request, high byte first. */
  function Field(frame: seq<byte>, i: nat): u16
    requires i + 1 < |frame|
  {
    Word(frame[i], frame[i + 1])
  }

  /** The reply to a Read Holding Registers request (which always gets one). */
  function ReadHoldingReply(frame: seq<byte>, slave: byte, regs: seq<u16>): seq<byte>
  {
    if |frame| < RequestLength then ExceptionReply(slave, FcReadHoldingRegs, ExIllegalValue)
    else
      var start, quantity := Field(frame, 2), Field(frame, 4);
      if quantity == 0 || quantity > MaxReadQuantity then ExceptionReply(slave, FcReadHoldingRegs, ExIllegalValue)
      else if start + quantity > |regs| then ExceptionReply(slave, FcReadHoldingRegs, ExIllegalAddress)
      else ReadReply(slave, regs[start..start + quantity])
  }

  /** What one frame makes the slave do: the reply, the new registers, the write reported to the callback. */
  datatype Reaction = Reaction(reply: Option<seq<byte>>, regs: seq<u16>, write: Option<(u16, u16)>)

  /** The effect of a Write Single Register request. */
  function WriteSingleReaction(frame: seq<byte>, slave: byte, regs: seq<u16>): Reaction
  {
    if |frame| < RequestLength then Reaction(Some(ExceptionReply(slave, FcWriteSingleReg, ExIllegalValue)), regs, None)
    else
      var reg, value := Field(frame, 2), Field(frame, 4);
      if reg >= |regs| then Reaction(Some(ExceptionReply(slave, FcWriteSingleReg, ExIllegalAddress)), regs, None)
      else Reaction(Some(WriteReply(slave, reg, value)), regs[reg := value], Some((reg, value)))
  }

  /** The frame is dropped before dispatch: too short, addressed to another slave, or with a bad CRC. */
  predicate Discarded(frame: seq<byte>, slave: byte)
  {
    |frame| < MinFrameLength || (frame[0] != slave && frame[0] != BroadcastAddress) || !TrailerMatches(frame)
  }

  /** `Modbus_ProcessFrame` on a frame `frame`, for slave address `slave` and registers `regs`. */
  function React(frame: seq<byte>, slave: byte, regs: seq<u16>): Reaction
  {
    if Discarded(frame, slave) then Reaction(None, regs, None)
    else if frame[1] == FcReadHoldingRegs then Reaction(Some(ReadHoldingReply(frame, slave, regs)), regs, None)
    else if frame[1] == FcWriteSingleReg then WriteSingleReaction(frame, slave, regs)
    else if frame[0] != BroadcastAddress then Reaction(Some(ExceptionReply(slave, frame[1], ExIllegalFunction)), regs, None)
    else Reaction(None, regs, None)
  }

  /**
   * The slave stays silent exactly on noise (too short, another slave's address, bad CRC) and on
   * broadcast frames with an unsupported function; silence never changes a register.
   */
  lemma SilentIff(frame: seq<byte>, slave: byte, regs: seq<u16>)
    ensures React(frame, slave, regs).reply.None? <==>
      Discarded(frame, slave) ||
      (frame[0] == BroadcastAddress && frame[1] != FcReadHoldingRegs && frame[1] != FcWriteSingleReg)
    ensures React(frame, slave, regs).reply.None? ==> React(frame, slave, regs).regs == regs
    ensures Discarded(frame, slave) ==> React(frame, slave, regs) == Reaction(None, regs, None)
  {
  }

  /** An exception reply: 5 bytes, the slave's address, the flagged function code, the exception code, a valid CRC. */
  lemma ExceptionReplyLayout(slave: byte, fc: byte, code: byte)
    ensures var r := ExceptionReply(slave, fc, code);
      |r| == 5 && r[0] == slave && r[1] == WithErrorBit(fc) && r[1] >= 0x80 && r[2] == code && TrailerMatches(r)
  {
    FrameLayout([slave, WithErrorBit(fc), code]);
  }

  /**
   * A normal Read Holding Registers reply: `5 + 2n` bytes (at most 255 for `n <= 125`), the byte
   * count `2n` in byte 2, a data field that decodes to the values read, and a valid CRC.
   */
  lemma ReadReplyLayout(slave: byte, values: seq<u16>)
    requires |values| <= MaxReadQuantity
    ensures var r := ReadReply(slave, values);
      |r| == 5 + 2 * |values| && |r| < TxBufferSize &&
      r[0] == slave && r[1] == FcReadHoldingRegs && r[2] == 2 * |values| &&
      DecodeRegisters(r[3..3 + 2 * |values|]) == values && TrailerMatches(r)
  {
    var data := RegisterBytes(values);
    var body := [slave, FcReadHoldingRegs, 2 * |values|] + data;
    var r := ReadReply(slave, values);
    FrameLayout(body);
    assert r[..|body|] == body;
    assert body[3..] == data;
    assert r[3..3 + 2 * |values|] == data;
    RegisterBytesRoundTrip(values);
  }

  /** A normal Write Single Register reply: 8 bytes echoing the register address and value, with a valid CRC. */
  lemma WriteReplyLayout(slave: byte, reg: u16, value: u16)
    ensures var r := WriteReply(slave, reg, value);
      |r| == 8 && r[0] == slave && r[1] == FcWriteSingleReg &&
      Word(r[2], r[3]) == reg && Word(r[4], r[5]) == value && TrailerMatches(r)
  {
    FrameLayout([slave, FcWriteSingleReg, HighByte(reg), LowByte(reg), HighByte(value), LowByte(value)]);
    WordRoundTrip(reg);
    WordRoundTrip(value);
  }

  /**
   * Every reply the slave sends starts with its own address (also for broadcast requests),
   * passes the CRC check, is at least 5 bytes long and fits the 256-byte transmit buffer.
   */
  lemma RepliesAreWellFormed(frame: seq<byte>, slave: byte, regs: seq<u16>)
    requires React(frame, slave, regs).reply.Some?
    ensures var r := React(frame, slave, regs).reply.value;
      5 <= |r| < TxBufferSize && r[0] == slave && TrailerMatches(r)
  {
    if frame[1] == FcReadHoldingRegs {
      ReadReplyCases(frame, slave, regs);
    } else if frame[1] == FcWriteSingleReg {
      WriteReplyCases(frame, slave, regs);
    } else {
      ExceptionReplyLayout(slave, frame[1], ExIllegalFunction);
    }
  }

  lemma ReadReplyCases(frame: seq<byte>, slave: byte, regs: seq<u16>)
    ensures var r := ReadHoldingReply(frame, slave, regs);
      5 <= |r| < TxBufferSize && r[0] == slave && TrailerMatches(r)
  {
    if |frame| < RequestLength {
      ExceptionReplyLayout(slave, FcReadHoldingRegs, ExIllegalValue);
    } else {
      var start, quantity := Field(frame, 2), Field(frame, 4);
      if quantity == 0 || quantity > MaxReadQuantity {
        ExceptionReplyLayout(slave, FcReadHoldingRegs, ExIllegalValue);
      } else if start + quantity > |regs| {
        ExceptionReplyLayout(slave, FcReadHoldingRegs, ExIllegalAddress);
      } else {
        ReadReplyLayout(slave, regs[start..start + quantity]);
      }
    }
  }

  lemma WriteReplyCases(frame: seq<byte>, slave: byte, regs: seq<u16>)
    ensures var r := WriteSingleReaction(frame, slave, regs).reply;
      r.Some? && 5 <= |r.value| < TxBufferSize && r.value[0] == slave && TrailerMatches(r.value)
  {
    if |frame| < RequestLength {
      ExceptionReplyLayout(slave, FcWriteSingleReg, ExIllegalValue);
    } else if Field(frame, 2) >= |regs| {
      ExceptionReplyLayout(slave, FcWriteSingleReg, ExIllegalAddress);
    } else {
      WriteReplyLayout(slave, Field(frame, 2), Field(frame, 4));
    }
  }

  /** The request fields of a well-formed Read Holding Registers request that the slave can serve. */
  predicate ServableRead(frame: seq<byte>, regs: seq<u16>)
  {
    |frame| >= RequestLength && 1 <= Field(frame, 4) <= MaxReadQuantity && Field(frame, 2) + Field(frame, 4) <= |regs|
  }

  /**
   * Read Holding Registers: a servable request is answered with `2q` data bytes that decode to
   * registers `start .. start + q - 1`; any other request with exception 0x03 (short frame or
   * quantity outside 1..125) or 0x02 (range past the last register), never both.
   */
  lemma ReadHoldingAnswers(frame: seq<byte>, slave: byte, regs: seq<u16>)
    ensures var r := ReadHoldingReply(frame, slave, regs);
      5 <= |r| && r[0] == slave &&
      (ServableRead(frame, regs) <==> r[1] == FcReadHoldingRegs) &&
      (ServableRead(frame, regs) ==>
        var start, quantity := Field(frame, 2), Field(frame, 4);
        |r| == 5 + 2 * quantity && r[2] == 2 * quantity &&
        DecodeRegisters(r[3..3 + 2 * quantity]) == regs[start..start + quantity]) &&
      (!ServableRead(frame, regs) ==>
        |r| == 5 && r[1] == WithErrorBit(FcReadHoldingRegs) &&
        (r[2] == ExIllegalValue <==> (|frame| < RequestLength || Field(frame, 4) == 0 || Field(frame, 4) > MaxReadQuantity)) &&
        (r[2] == ExIllegalAddress <==> (|frame| >= RequestLength && 1 <= Field(frame, 4) <= MaxReadQuantity)))
  {
    if ServableRead(frame, regs) {
      ReadReplyLayout(slave, regs[Field(frame, 2)..Field(frame, 2) + Field(frame, 4)]);
    } else if |frame| < RequestLength || Field(frame, 4) == 0 || Field(frame, 4) > MaxReadQuantity {
      ExceptionReplyLayout(slave, FcReadHoldingRegs, ExIllegalValue);
    } else {
      ExceptionReplyLayout(slave, FcReadHoldingRegs, ExIllegalAddress);
    }
  }

  /** A Write Single Register request the slave performs: full length, register in range. */
  predicate ServableWrite(frame: seq<byte>, regs: seq<u16>)
  {
    |frame| >= RequestLength && Field(frame, 2) < |regs|
  }

  /**
   * A frame changes the registers only by a performed Write Single Register, and then exactly
   * register `reg` becomes `value`, the callback is handed `(reg, value)`, and no other register
   * moves. Every other frame leaves all registers and the callback alone.
   */
  lemma WriteFootprint(frame: seq<byte>, slave: byte, regs: seq<u16>)
    ensures var x := React(frame, slave, regs);
      |x.regs| == |regs| &&
      (x.write.Some? <==> !Discarded(frame, slave) && frame[1] == FcWriteSingleReg && ServableWrite(frame, regs)) &&
      (x.write.Some? ==>
        x.write.value == (Field(frame, 2), Field(frame, 4)) &&
        x.regs[Field(frame, 2)] == Field(frame, 4) &&
        forall i :: 0 <= i < |regs| && i != Field(frame, 2) ==> x.regs[i] == regs[i]) &&
      (x.write.None? ==> x.regs == regs)
  {
  }

  /**
   * A performed write addressed to this slave is answered with an exact echo of the 8-byte
   * request (the CRC recomputed over the same bytes comes out equal).
   */
  lemma WriteEchoesRequest(frame: seq<byte>, slave: byte, regs: seq<u16>)
    requires |frame| == RequestLength && frame[0] == slave && frame[1] == FcWriteSingleReg
    requires TrailerMatches(frame) && Field(frame, 2) < |regs|
    ensures React(frame, slave, regs).reply == Some(frame)
  {
    var body := frame[..6];
    TrailerMatchesIff(frame);
    assert frame == body + Trailer(body);
    var reg, value := Field(frame, 2), Field(frame, 4);
    WordBytes(frame[2], frame[3]);
    WordBytes(frame[4], frame[5]);
    assert [slave, FcWriteSingleReg, HighByte(reg), LowByte(reg), HighByte(value), LowByte(value)] == body;
    assert !Discarded(frame, slave);
    assert WriteSingleReaction(frame, slave, regs).reply == Some(WriteReply(slave, reg, value));
  }

  /**
   * The two supported functions are served even for a broadcast (address 0) request, and the
   * reply carries the slave's own address; only an unsupported function is left unanswered.
   */
  lemma BroadcastIsAnswered(frame: seq<byte>, slave: byte, regs: seq<u16>)
    requires !Discarded(frame, slave) && frame[0] == BroadcastAddress
    ensures var r := React(frame, slave, regs).reply;
      (r.Some? <==> frame[1] == FcReadHoldingRegs || frame[1] == FcWriteSingleReg) &&
      (r.Some? ==> r.value[0] == slave)
  {
    if frame[1] == FcReadHoldingRegs || frame[1] == FcWriteSingleReg {
      RepliesAreWellFormed(frame, slave, regs);
    }
  }

  /**
   * An unsupported function code from a unicast request is answered with exception 0x01:
   * `[slave, fc | 0x80, 0x01]` and a valid CRC.
   */
  lemma UnsupportedFunction(frame: seq<byte>, slave: byte, regs: seq<u16>)
    requires !Discarded(frame, slave) && frame[0] != BroadcastAddress
    requires frame[1] != FcReadHoldingRegs && frame[1] != FcWriteSingleReg
    ensures var x := React(frame, slave, regs);
      x.regs == regs && x.write.None? && x.reply.Some? &&
      |x.reply.value| == 5 && x.reply.value[0] == slave && x.reply.value[1] == WithErrorBit(frame[1]) &&
      x.reply.value[2] == ExIllegalFunction && TrailerMatches(x.reply.value)
  {
    ExceptionReplyLayout(slave, frame[1], ExIllegalFunction);
  }
}
