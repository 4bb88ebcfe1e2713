/**
 * The Modbus handle and its event procedures: the receive buffer filled by the UART interrupt,
 * the 1 ms timer that closes a frame after a silence, and the main-loop poll that processes the
 * frame and transmits the reply through the RS-485 driver (DE pin).
 *
 * Each procedure is proved to do what `ModbusSlave.React` says for the frame received so far. The
 * ghost `trace` records the DE levels and the transmitted frames; the ghost `writes` records the
 * calls of the write callback.
 */
module ModbusEngine {
  import opened Wrappers
  import opened Bytes
  import opened ModbusCrc
  import opened ModbusSlave

  class Slave {
    const slaveAddress: byte
    /** The holding registers, owned by the application and shared with it. */
    const regs: array<u16>
    const rx: array<byte>
    const tx: array<byte>

    var rxIndex: nat
    var lastRxTime: u32
    var frameReady: bool
    /** Whether a write callback is registered (`write_callback != NULL`). */
    var hasWriteCallback: bool

    ghost var trace: seq<BusEvent>
    ghost var writes: seq<(u16, u16)>

    /**
     * Buffer sizes of the handle, a register count that fits `uint16_t`, an index inside the
     * receive buffer, a ready frame never empty, and the transceiver in receive mode between
     * events.
     */
    ghost predicate Valid()
      reads this
    {
      rx.Length == RxBufferSize && tx.Length == TxBufferSize && regs.Length < 0x1_0000 &&
      rxIndex <= RxBufferSize && (frameReady ==> rxIndex > 0) && !Transmitting(trace)
    }

    /** The bytes received since the last poll. */
    ghost function Received(): seq<byte>
      reads this, rx
      requires Valid()
    {
      rx[..rxIndex]
    }

    /** The callback calls a frame's reaction causes: none when no callback is registered. */
    ghost function CallbackCalls(write: Option<(u16, u16)>): seq<(u16, u16)>
      reads this
    {
      if hasWriteCallback && write.Some? then [write.value] else []
    }

    /** The receiver's fields and the callback registration are as they were. */
    twostate predicate ReceiverUnchanged()
      reads this
    {
      rxIndex == old(rxIndex) && lastRxTime == old(lastRxTime) && frameReady == old(frameReady) &&
      hasWriteCallback == old(hasWriteCallback)
    }

    /** `Modbus_Init`: empty receiver, no callback, and the driver put into receive mode. */
    constructor Init(address: byte, holding: array<u16>)
      requires holding.Length < 0x1_0000
      ensures Valid() && fresh(rx) && fresh(tx)
      ensures slaveAddress == address && regs == holding
      ensures rxIndex == 0 && lastRxTime == 0 && !frameReady && !hasWriteCallback
      ensures trace == [DriverEnable(false)] && writes == []
    {
      slaveAddress := address;
      regs := holding;
      rx := new byte[RxBufferSize];
      tx := new byte[TxBufferSize];
      rxIndex := 0;
      lastRxTime := 0;
      frameReady := false;
      hasWriteCallback := false;
      writes := [];
      trace := [DriverEnable(false)];
    }

    /** `Modbus_SetWriteCallback`: register (`true`) or clear (`false`) the callback. */
    method SetWriteCallback(present: bool)
      requires Valid()
      modifies this
      ensures Valid() && hasWriteCallback == present
      ensures rxIndex == old(rxIndex) && lastRxTime == old(lastRxTime) && frameReady == old(frameReady)
      ensures trace == old(trace) && writes == old(writes)
    {
      hasWriteCallback := present;
    }

    /**
     * `Modbus_RxCallback`: a byte arriving at time `now` is appended and refreshes the time of
     * the last byte, unless the buffer is full, in which case nothing changes. A ready frame
     * does not stop the append.
     */
    method RxByte(b: byte, now: u32)
      requires Valid()
      modifies this, rx
      ensures Valid() && frameReady == old(frameReady) && hasWriteCallback == old(hasWriteCallback)
      ensures trace == old(trace) && writes == old(writes)
      ensures old(rxIndex) < RxBufferSize ==> Received() == old(Received()) + [b] && lastRxTime == now
      ensures old(rxIndex) == RxBufferSize ==> Received() == old(Received()) && lastRxTime == old(lastRxTime)
    {
      if rxIndex < RxBufferSize {
        rx[rxIndex] := b;
        rxIndex := rxIndex + 1;
        lastRxTime := now;
      }
    }

    /**
     * `Modbus_TimerCallback` at time `now`: the frame becomes ready once at least one byte is
     * buffered and 5 ms or more have passed since the last one, counted modulo 2^32. The flag
     * is never cleared here and the buffer is not touched.
     */
    method Tick(now: u32)
      requires Valid()
      modifies this`frameReady
      ensures Valid()
      ensures frameReady == (old(frameReady) || (rxIndex > 0 && Elapsed(lastRxTime, now) >= FrameTimeoutMs))
    {
      if rxIndex > 0 && !frameReady {
        var elapsed := Elapsed(lastRxTime, now);
        if elapsed >= FrameTimeoutMs {
          frameReady := true;
        }
      }
    }

    /**
     * `Modbus_Poll`: nothing happens while no frame is ready; otherwise the frame is processed
     * and the receiver is emptied, whatever the frame held.
     */
    method Poll()
      requires Valid()
      modifies this, tx, regs
      ensures Valid() && hasWriteCallback == old(hasWriteCallback) && lastRxTime == old(lastRxTime)
      ensures !old(frameReady) ==>
        rxIndex == old(rxIndex) && !frameReady &&
        regs[..] == old(regs[..]) && trace == old(trace) && writes == old(writes)
      ensures old(frameReady) ==>
        var x := React(old(Received()), slaveAddress, old(regs[..]));
        rxIndex == 0 && !frameReady &&
        regs[..] == x.regs && trace == old(trace) + ReplyEvents(x.reply) && writes == old(writes) + CallbackCalls(x.write)
    {
      if frameReady {
        ProcessFrame();
        rxIndex := 0;
        frameReady := false;
      }
    }

    /** `Modbus_ProcessFrame`: the gates (length, address, CRC) in that order, then dispatch. */
    method ProcessFrame()
      requires Valid()
      modifies this, tx, regs
      ensures Valid() && ReceiverUnchanged()
      ensures var x := React(old(Received()), slaveAddress, old(regs[..]));
        regs[..] == x.regs && trace == old(trace) + ReplyEvents(x.reply) && writes == old(writes) + CallbackCalls(x.write)
    {
      if rxIndex < MinFrameLength {
        return;
      }
      var address := rx[0];
      if address != slaveAddress && address != BroadcastAddress {
        return;
      }
      var crcOk := FrameCrcOk();
      if !crcOk {
        return;
      }
      var fc := rx[1];
      if fc == FcReadHoldingRegs {
        HandleReadHoldingRegisters();
      } else if fc == FcWriteSingleReg {
        HandleWriteSingleRegister();
      } else if address != BroadcastAddress {
        SendException(fc, ExIllegalFunction);
      }
    }

    /**
     * The CRC gate of `Modbus_ProcessFrame`: the received trailer, `lo | hi << 8`, against the
     * CRC computed over the bytes before it.
     */
    method FrameCrcOk() returns (ok: bool)
      requires Valid() && rxIndex >= MinFrameLength
      ensures ok <==> TrailerMatches(Received())
    {
      var received := Word(rx[rxIndex - 1], rx[rxIndex - 2]);
      var calculated := ComputeCrc16(rx, rxIndex - 2);
      assert Received()[..rxIndex - 2] == rx[..rxIndex - 2];
      ok := received == calculated;
    }

    /** `Modbus_HandleReadHoldingRegisters`: validation, then the reply built in `tx`. */
    method HandleReadHoldingRegisters()
      requires Valid()
      modifies this, tx
      ensures Valid() && ReceiverUnchanged() && writes == old(writes)
      ensures trace == old(trace) + ResponseEvents(ReadHoldingReply(old(Received()), slaveAddress, regs[..]))
    {
      ghost var frame, held := Received(), regs[..];
      if rxIndex < RequestLength {
        assert ReadHoldingReply(frame, slaveAddress, held) == ExceptionReply(slaveAddress, FcReadHoldingRegs, ExIllegalValue);
        SendException(FcReadHoldingRegs, ExIllegalValue);
        return;
      }
      var start := Word(rx[2], rx[3]);
      var quantity := Word(rx[4], rx[5]);
      assert start == Field(frame, 2) && quantity == Field(frame, 4);
      if quantity == 0 || quantity > MaxReadQuantity {
        assert ReadHoldingReply(frame, slaveAddress, held) == ExceptionReply(slaveAddress, FcReadHoldingRegs, ExIllegalValue);
        SendException(FcReadHoldingRegs, ExIllegalValue);
        return;
      }
      if start + quantity > regs.Length {
        assert ReadHoldingReply(frame, slaveAddress, held) == ExceptionReply(slaveAddress, FcReadHoldingRegs, ExIllegalAddress);
        SendException(FcReadHoldingRegs, ExIllegalAddress);
        return;
      }
      assert ReadHoldingReply(frame, slaveAddress, held) == ReadReply(slaveAddress, held[start..start + quantity]);
      var n := FillReadReply(start, quantity);
      SendResponse(n);
    }

    /** The normal reply to a read of `quantity` registers from `start`, built in `tx`. */
    method FillReadReply(start: nat, quantity: nat) returns (n: nat)
      requires Valid() && 1 <= quantity <= MaxReadQuantity && start + quantity <= regs.Length
      modifies tx
      ensures n <= tx.Length && tx[..n] == ReadReply(slaveAddress, regs[start..start + quantity])
    {
      var m := FillReadBody(start, quantity);
      AppendCrc(m);
      n := m + 2;
    }

    /** The header and data field of a read reply, built in `tx`. */
    method FillReadBody(start: nat, quantity: nat) returns (n: nat)
      requires Valid() && 1 <= quantity <= MaxReadQuantity && start + quantity <= regs.Length
      modifies tx
      ensures n == 3 + 2 * quantity && n + 2 <= tx.Length
      ensures tx[..n] == [slaveAddress, FcReadHoldingRegs, 2 * quantity] + RegisterBytes(regs[start..start + quantity])
    {
      tx[0] := slaveAddress;
      tx[1] := FcReadHoldingRegs;
      tx[2] := 2 * quantity;
      ghost var header := tx[..3];
      assert header == [slaveAddress, FcReadHoldingRegs, 2 * quantity];
      FillRegisterBytes(start, quantity);
      assert tx[..3] == header;
      n := 3 + 2 * quantity;
      ghost var values := regs[start..start + quantity];
      ReadDataLayout(tx[..], values);
      assert tx[3..n] == RegisterBytes(values);
      assert tx[..n] == header + tx[3..n];
    }

    /** `Modbus_HandleWriteSingleRegister`: validation, the store, the callback, the echo. */
    method HandleWriteSingleRegister()
      requires Valid()
      modifies this, tx, regs
      ensures Valid() && ReceiverUnchanged()
      ensures var x := WriteSingleReaction(old(Received()), slaveAddress, old(regs[..]));
        regs[..] == x.regs && trace == old(trace) + ReplyEvents(x.reply) && writes == old(writes) + CallbackCalls(x.write)
    {
      if rxIndex < RequestLength {
        SendException(FcWriteSingleReg, ExIllegalValue);
        return;
      }
      var reg := Word(rx[2], rx[3]);
      var value := Word(rx[4], rx[5]);
      assert reg == Field(Received(), 2) && value == Field(Received(), 4);
      if reg >= regs.Length {
        SendException(FcWriteSingleReg, ExIllegalAddress);
        return;
      }
      regs[reg] := value;
      if hasWriteCallback {
        writes := writes + [(reg, value)];
      }
      FillWriteReply(reg, value);
      SendResponse(8);
    }

    /** The data field of a read reply, register by register from `start`, after the 3 header bytes. */
    method FillRegisterBytes(start: nat, quantity: nat)
      requires Valid() && quantity <= MaxReadQuantity && start + quantity <= regs.Length
      modifies tx
      ensures forall k :: 0 <= k < 3 ==> tx[k] == old(tx[k])
      ensures forall j :: 0 <= j < quantity ==>
        tx[3 + 2 * j] == HighByte(regs[start + j]) && tx[4 + 2 * j] == LowByte(regs[start + j])
    {
      var i := 0;
      while i < quantity
        invariant 0 <= i <= quantity
        invariant forall k :: 0 <= k < 3 ==> tx[k] == old(tx[k])
        invariant forall j :: 0 <= j < i ==>
          tx[3 + 2 * j] == HighByte(regs[start + j]) && tx[4 + 2 * j] == LowByte(regs[start + j])
      {
        var value := regs[start + i];
        tx[3 + 2 * i] := HighByte(value);
        tx[4 + 2 * i] := LowByte(value);
        i := i + 1;
      }
    }

    /** The echo reply of a performed write, built in `tx`. */
    method FillWriteReply(reg: u16, value: u16)
      requires Valid()
      modifies tx
      ensures tx[..8] == WriteReply(slaveAddress, reg, value)
    {
      tx[0] := slaveAddress;
      tx[1] := FcWriteSingleReg;
      tx[2] := HighByte(reg);
      tx[3] := LowByte(reg);
      tx[4] := HighByte(value);
      tx[5] := LowByte(value);
      assert tx[..6] == [slaveAddress, FcWriteSingleReg, HighByte(reg), LowByte(reg), HighByte(value), LowByte(value)];
      AppendCrc(6);
    }

    /** `Modbus_SendException`: `[slave, fc | 0x80, code]` and its CRC, 5 bytes. */
    method SendException(fc: byte, code: byte)
      requires Valid()
      modifies this, tx
      ensures Valid() && ReceiverUnchanged() && writes == old(writes)
      ensures trace == old(trace) + ResponseEvents(ExceptionReply(slaveAddress, fc, code))
    {
      FillException(fc, code);
      SendResponse(5);
    }

    /** The exception reply, built in `tx`. */
    method FillException(fc: byte, code: byte)
      requires Valid()
      modifies tx
      ensures tx[..5] == ExceptionReply(slaveAddress, fc, code)
    {
      tx[0] := slaveAddress;
      tx[1] := WithErrorBit(fc);
      tx[2] := code;
      assert tx[..3] == [slaveAddress, WithErrorBit(fc), code];
      AppendCrc(3);
    }

    /** The CRC of the first `n` bytes of `tx` stored after them, low byte first. */
    method AppendCrc(n: nat)
      requires n + 2 <= tx.Length
      modifies tx
      ensures tx[..n + 2] == old(tx[..n]) + Trailer(old(tx[..n]))
    {
      var crc := ComputeCrc16(tx, n);
      tx[n] := LowByte(crc);
      tx[n + 1] := HighByte(crc);
      assert tx[..n + 2] == old(tx[..n]) + TrailerOf(crc);
    }

    /** `Modbus_SendResponse`: DE high, the first `length` bytes of `tx` sent, DE low. */
    method SendResponse(length: nat)
      requires Valid() && length <= tx.Length
      modifies this
      ensures Valid() && ReceiverUnchanged() && writes == old(writes)
      ensures trace == old(trace) + ResponseEvents(tx[..length])
    {
      SetDriverEnable(true);
      trace := trace + [Transmit(tx[..length])];
      SetDriverEnable(false);
    }

    /** `Modbus_SetDE`: drive the DE/RE pin (true = transmit). */
    method SetDriverEnable(transmit: bool)
      modifies this
      ensures ReceiverUnchanged() && writes == old(writes)
      ensures trace == old(trace) + [DriverEnable(transmit)]
    {
      trace := trace + [DriverEnable(transmit)];
    }
  }

  /** A buffer holding each value's two bytes in turn from byte 3 holds the reply's data field there. */
  lemma {:induction false} ReadDataLayout(buf: seq<byte>, values: seq<u16>)
    requires 3 + 2 * |values| <= |buf|
    requires forall j :: 0 <= j < |values| ==> buf[3 + 2 * j] == HighByte(values[j]) && buf[4 + 2 * j] == LowByte(values[j])
    ensures buf[3..3 + 2 * |values|] == RegisterBytes(values)
  {
    if |values| > 0 {
      var n := |values|;
      ReadDataLayout(buf, values[..n - 1]);
      assert buf[3..3 + 2 * n] == buf[3..3 + 2 * (n - 1)] + [buf[3 + 2 * (n - 1)], buf[4 + 2 * (n - 1)]];
    }
  }
}
