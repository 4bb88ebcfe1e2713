/**
 * The host-side Modbus helpers of the RS-485 timing test: a bit-by-bit CRC-16, the three request
 * frames it sends, and the CRC check of a reply. They are proved to agree with the firmware's
 * table-driven CRC, and every frame built passes the check.
 */
module ModbusHostTest {
  import opened Wrappers
  import opened Bytes
  import opened ModbusCrc

  /** One shift of the host loop: `(crc >> 1) ^ 0xA001 if (crc & 1) else crc >> 1`. */
  function HostShift(crc: bv16): bv16
  {
    if crc & 1 != 0 then (crc >> 1) ^ 0xA001 else crc >> 1
  }

  /** The host's branching shift is the shift of the standard. */
  lemma HostShiftIsStep(x: bv16, k: nat)
    ensures Steps(x, k + 1) == HostShift(Steps(x, k))
  {
    var p := Steps(x, k);
    if p & 1 != 0 {
      assert 0 - (p & 1) == 0xFFFF;
    } else {
      assert 0 - (p & 1) == 0;
    }
  }

  /** The body of the outer loop: `crc ^= byte`, then the eight shifts of `for _ in range(8)`. */
  method ShiftInByte(prev: bv16, b: byte) returns (crc: bv16)
    ensures crc == BitStep(prev, b as bv8)
  {
    var x := prev ^ (b as bv8 as bv16);
    crc := x;
    var k := 0;
    while k < 8
      invariant 0 <= k <= 8
      invariant crc == Steps(x, k)
    {
      HostShiftIsStep(x, k);
      crc := HostShift(crc);
      k := k + 1;
    }
  }

  /**
   * `crc16(data)`: from 0xFFFF, each byte XORed in and shifted eight times; the result as two
   * bytes, little-endian. It is the trailer the firmware computes with its table.
   */
  method HostCrc16(data: seq<byte>) returns (r: seq<byte>)
    ensures r == Trailer(data)
  {
    var crc: bv16 := 0xFFFF;
    var i := 0;
    while i < |data|
      invariant 0 <= i <= |data|
      invariant crc == BitCrc(data[..i])
    {
      assert data[..i + 1][..i] == data[..i];
      crc := ShiftInByte(crc, data[i]);
      i := i + 1;
    }
    assert data[..|data|] == data;
    Crc16Def(data);
    r := LittleEndian(crc);
  }

  /** `crc.to_bytes(2, 'little')` */
  method LittleEndian(crc: bv16) returns (r: seq<byte>)
    ensures r == TrailerOf(crc as int)
  {
    var value: u16 := crc as int;
    r := [value % 256, value / 256];
  }

  /** What `validate_crc` accepts: at least 4 bytes, and the last two are the CRC of the rest. */
  predicate CrcValid(response: seq<byte>)
  {
    |response| >= 4 && TrailerMatches(response)
  }

  /**
   * `validate_crc(response)`: false below 4 bytes; otherwise `response[-2] | response[-1] << 8`
   * compared with the bitwise CRC of `response[:-2]`.
   */
  method ValidateCrc(response: seq<byte>) returns (ok: bool)
    ensures ok <==> CrcValid(response)
  {
    if |response| < 4 {
      return false;
    }
    var n := |response|;
    var received := Word(response[n - 1], response[n - 2]);
    var body := response[..n - 2];
    var computed: bv16 := 0xFFFF;
    var i := 0;
    while i < |body|
      invariant 0 <= i <= |body|
      invariant computed == BitCrc(body[..i])
    {
      assert body[..i + 1][..i] == body[..i];
      computed := ShiftInByte(computed, body[i]);
      i := i + 1;
    }
    assert body[..|body|] == body;
    Crc16Def(body);
    ok := computed as int == received;
  }

  /**
   * The request payload of `build_command(cmd_type, relay, state)` before its CRC, or `None`
   * where Python raises: an unknown `cmd_type` leaves `cmd` unbound, and `bytes()` rejects a
   * relay number outside 0..255.
   */
  function CommandPayload(cmdType: string, relay: int, state: bool): Option<seq<byte>>
  {
    if cmdType == "write_single" then
      if 0 <= relay < 0x100 then Some([0x01, 0x05, 0x00, relay, if state then 0xFF else 0x00, 0x00]) else None
    else if cmdType == "read_coils" then Some([0x01, 0x01, 0x00, 0x00, 0x00, 0x08])
    else if cmdType == "write_all" then Some([0x01, 0x0F, 0x00, 0x00, 0x00, 0x08, 0x01, if state then 0xFF else 0x00])
    else None
  }

  /** `build_command`: the payload followed by its CRC, low byte first. */
  function BuildCommand(cmdType: string, relay: int, state: bool): Option<seq<byte>>
  {
    match CommandPayload(cmdType, relay, state)
    case None => None
    case Some(cmd) => Some(cmd + Trailer(cmd))
  }

  /**
   * Every command `build_command` returns passes `validate_crc`; write_single and read_coils are
   * 8 bytes and write_all 10; write_single switches coil `relay` on (0xFF00) or off (0x0000).
   */
  lemma BuildCommandValidates(cmdType: string, relay: int, state: bool)
    requires BuildCommand(cmdType, relay, state).Some?
    ensures var f := BuildCommand(cmdType, relay, state).value;
      CrcValid(f) &&
      |f| == (if cmdType == "write_all" then 10 else 8) &&
      (cmdType == "write_single" ==> f[..6] == [0x01, 0x05, 0x00, relay, if state then 0xFF else 0x00, 0x00])
  {
    FrameLayout(CommandPayload(cmdType, relay, state).value);
  }

  /** `build_command` fails exactly for an unknown command type or a relay number that is not a byte. */
  lemma BuildCommandFails(cmdType: string, relay: int, state: bool)
    ensures BuildCommand(cmdType, relay, state).None? <==>
      (cmdType != "write_single" && cmdType != "read_coils" && cmdType != "write_all") ||
      (cmdType == "write_single" && !(0 <= relay < 0x100))
  {
  }
}
