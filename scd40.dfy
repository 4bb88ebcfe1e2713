/**
 * The SCD40 CO2 sensor driver: Sensirion's CRC-8, the I2C frames of commands and their 16-bit
 * arguments, the checked decoding of the words the sensor returns, the unit conversions of a
 * measurement, and the handle that keeps the last reading and the measuring flag. Bus
 * acknowledgements and the bytes the sensor returns are inputs; the frames written are kept in a
 * ghost log.
 */
module Scd40 {
  import opened Wrappers
  import opened Bytes
  import opened Arithmetic

  const Address: byte := 0x62
  const CmdStartPeriodic: u16 := 0x21B1
  const CmdReadMeasurement: u16 := 0xEC05
  const CmdStopPeriodic: u16 := 0x3F86
  const CmdSetTemperatureOffset: u16 := 0x241D
  const CmdGetTemperatureOffset: u16 := 0x2318
  const CmdPerformForcedRecalibration: u16 := 0x362F
  const CmdStartLowPowerPeriodic: u16 := 0x21AC
  const CmdGetDataReadyStatus: u16 := 0xE4B8
  const CmdMeasureSingleShot: u16 := 0x219D
  const CmdSetSensorAltitude: u16 := 0x2427
  const CmdGetSensorAltitude: u16 := 0x2322
  const CmdSetAmbientPressure: u16 := 0xE000
  const CmdSetAutomaticSelfCalibration: u16 := 0x2416
  const CmdGetAutomaticSelfCalibration: u16 := 0x2313
  const CmdPersistSettings: u16 := 0x3615
  const CmdGetSerialNumber: u16 := 0x3682
  const CmdPerformSelfTest: u16 := 0x3639
  const CmdPerformFactoryReset: u16 := 0x3632
  const CmdReinit: u16 := 0x3646

  /** One shift of the CRC register, MSB first, polynomial x^8 + x^5 + x^4 + 1. */
  function Crc8Shift(c: bv8): bv8
  {
    if c & 0x80 != 0 then (c << 1) ^ 0x31 else c << 1
  }

  /** `k` shifts of the CRC register. */
  function Crc8Shifts(c: bv8, k: nat): bv8
  {
    if k == 0 then c else Crc8Shift(Crc8Shifts(c, k - 1))
  }

  /** One byte folded into the CRC: XOR it in, then eight shifts. */
  function Crc8Byte(c: bv8, b: byte): bv8
  {
    Crc8Shifts(c ^ (b as bv8), 8)
  }

  /** The CRC-8 of Sensirion's sensors: initial value 0xFF, no final XOR. */
  function Crc8Bits(data: seq<byte>): bv8
  {
    if data == [] then 0xFF else Crc8Byte(Crc8Bits(data[..|data| - 1]), data[|data| - 1])
  }

  /**
   * `Crc8Bits` behind a few levels of recursion, so that proofs about frames treat the CRC as a
   * value and do not unfold it; `Crc8Def` opens it.
   */
  function SealedCrc8(data: seq<byte>, depth: nat): bv8
  {
    if depth == 0 then Crc8Bits(data) else SealedCrc8(data, depth - 1)
  }

  /** The CRC-8 of a byte string. */
  function Crc8(data: seq<byte>): bv8
  {
    SealedCrc8(data, 3)
  }

  /** Opens the sealed `Crc8` to its definition `Crc8Bits`; a helper for the proofs below. */
  lemma Crc8Def(data: seq<byte>)
    ensures Crc8(data) == Crc8Bits(data)
  {
    assert SealedCrc8(data, 3) == SealedCrc8(data, 2);
    assert SealedCrc8(data, 2) == SealedCrc8(data, 1);
    assert SealedCrc8(data, 1) == SealedCrc8(data, 0);
  }

  /** The check value of section 3.11 of the SCD4x datasheet: the CRC of 0xBEEF is 0x92. */
  lemma Crc8CheckValue()
    ensures Crc8([0xBE, 0xEF]) == 0x92
  {
    Crc8Def([0xBE, 0xEF]);
    ShiftsTrace(0xFF ^ (0xBE as bv8), [0x41, 0x82, 0x35, 0x6A, 0xD4, 0x99, 0x03, 0x06, 0x0C]);
    ShiftsTrace(0x0C ^ (0xEF as bv8), [0xE3, 0xF7, 0xDF, 0x8F, 0x2F, 0x5E, 0xBC, 0x49, 0x92]);
    assert [0xBE, 0xEF][..1] == [0xBE];
    assert [0xBE][..0] == [];
  }

  /** Eight shifts that follow a worked trace of register values end at its last value. */
  lemma ShiftsTrace(x: bv8, trace: seq<bv8>)
    requires |trace| == 9 && trace[0] == x
    requires forall k :: 0 <= k < 8 ==> Crc8Shift(trace[k]) == trace[k + 1]
    ensures Crc8Shifts(x, 8) == trace[8]
  {
    var k := 0;
    while k < 8
      invariant 0 <= k <= 8 && Crc8Shifts(x, k) == trace[k]
    {
      k := k + 1;
    }
  }

  /** The inner loop of `SCD40_CalcCRC` for one byte. */
  method ShiftInByte(prev: bv8, b: byte) returns (crc: bv8)
    ensures crc == Crc8Byte(prev, b)
  {
    crc := prev ^ (b as bv8);
    ghost var x := crc;
    var bit := 0;
    while bit < 8
      invariant 0 <= bit <= 8
      invariant crc == Crc8Shifts(x, bit)
    {
      crc := Crc8Shift(crc);
      bit := bit + 1;
    }
  }

  /** `SCD40_CalcCRC`: the CRC-8 of `data`, one byte at a time. */
  method CalcCrc(data: seq<byte>) returns (crc: byte)
    ensures crc == Crc8(data) as int
  {
    var c: bv8 := 0xFF;
    var i := 0;
    while i < |data|
      invariant 0 <= i <= |data|
      invariant c == Crc8Bits(data[..i])
    {
      assert data[..i + 1][..i] == data[..i];
      c := ShiftInByte(c, data[i]);
      i := i + 1;
    }
    assert data[..|data|] == data;
    Crc8Def(data);
    crc := c as int;
  }

  /** A 16-bit command as it goes on the bus, high byte first. */
  function CommandBytes(cmd: u16): seq<byte>
  {
    [HighByte(cmd), LowByte(cmd)]
  }

  /** A 16-bit word as the sensor frames it: high byte, low byte, CRC-8 of the two. */
  function WordFrame(w: u16): (f: seq<byte>)
    ensures |f| == 3
  {
    [HighByte(w), LowByte(w), Crc8([HighByte(w), LowByte(w)]) as int]
  }

  /** The frame of `SCD40_SendCommandWithArg`: the command, then the argument word with its CRC. */
  function CommandWithArg(cmd: u16, arg: u16): (f: seq<byte>)
    ensures |f| == 5 && f[..2] == CommandBytes(cmd) && f[2..] == WordFrame(arg)
  {
    CommandBytes(cmd) + WordFrame(arg)
  }

  /** Group `i` of a reply (bytes `3i .. 3i+2`) carries the right CRC. */
  predicate GroupOk(buf: seq<byte>, i: nat)
    requires 3 * i + 2 < |buf|
  {
    Crc8(buf[3 * i..3 * i + 2]) as int == buf[3 * i + 2]
  }

  /** The big-endian word of group `i`. */
  function GroupWord(buf: seq<byte>, i: nat): u16
    requires 3 * i + 2 < |buf|
  {
    Word(buf[3 * i], buf[3 * i + 1])
  }

  /** How many groups from the front of an `n`-group reply carry the right CRC. */
  function GoodPrefix(buf: seq<byte>, n: nat, from: nat): (k: nat)
    requires |buf| == 3 * n && from <= n
    decreases n - from
    ensures from <= k <= n
    ensures forall j :: from <= j < k ==> GroupOk(buf, j)
    ensures k < n ==> !GroupOk(buf, k)
  {
    if from == n || !GroupOk(buf, from) then from else GoodPrefix(buf, n, from + 1)
  }

  /** The reply a sensor sends for a sequence of words. */
  function EncodeWords(ws: seq<u16>): (buf: seq<byte>)
    ensures |buf| == 3 * |ws|
  {
    if ws == [] then [] else EncodeWords(ws[..|ws| - 1]) + WordFrame(ws[|ws| - 1])
  }

  /** Each group of an encoded reply is the frame of the corresponding word. */
  lemma {:induction false} EncodeWordsGroups(ws: seq<u16>, i: nat)
    requires i < |ws|
    ensures EncodeWords(ws)[3 * i..3 * i + 3] == WordFrame(ws[i])
    decreases |ws|
  {
    var init := ws[..|ws| - 1];
    if i < |ws| - 1 {
      EncodeWordsGroups(init, i);
      assert init[i] == ws[i];
      assert EncodeWords(ws)[3 * i..3 * i + 3] == EncodeWords(init)[3 * i..3 * i + 3];
    } else {
      assert EncodeWords(ws)[3 * i..] == WordFrame(ws[i]);
    }
  }

  /** A reply the sensor encodes passes every CRC check and decodes to the words it carries. */
  lemma EncodeDecode(ws: seq<u16>)
    ensures GoodPrefix(EncodeWords(ws), |ws|, 0) == |ws|
    ensures forall i :: 0 <= i < |ws| ==> GroupWord(EncodeWords(ws), i) == ws[i]
  {
    forall i | 0 <= i < |ws|
      ensures GroupOk(EncodeWords(ws), i) && GroupWord(EncodeWords(ws), i) == ws[i]
    {
      EncodedGroup(ws, i);
    }
    GoodPrefixAll(EncodeWords(ws), |ws|, 0);
  }

  /** One group of an encoded reply. */
  lemma EncodedGroup(ws: seq<u16>, i: nat)
    requires i < |ws|
    ensures GroupOk(EncodeWords(ws), i) && GroupWord(EncodeWords(ws), i) == ws[i]
  {
    var buf := EncodeWords(ws);
    EncodeWordsGroups(ws, i);
    FrameGroup(buf[3 * i..3 * i + 3], ws[i]);
    SliceGroup(buf, i, ws[i]);
  }

  /** A group whose three bytes check and carry `w` is a good group with word `w`. */
  lemma SliceGroup(buf: seq<byte>, i: nat, w: u16)
    requires 3 * i + 3 <= |buf|
    requires Crc8(buf[3 * i..3 * i + 3][..2]) as int == buf[3 * i..3 * i + 3][2]
    requires Word(buf[3 * i..3 * i + 3][0], buf[3 * i..3 * i + 3][1]) == w
    ensures GroupOk(buf, i) && GroupWord(buf, i) == w
  {
    assert buf[3 * i..3 * i + 3][..2] == buf[3 * i..3 * i + 2];
  }

  /** The frame of a word carries the right CRC and gives the word back. */
  lemma FrameGroup(g: seq<byte>, w: u16)
    requires g == WordFrame(w)
    ensures Crc8(g[..2]) as int == g[2] && Word(g[0], g[1]) == w
  {
    assert g[..2] == [HighByte(w), LowByte(w)];
    WordRoundTrip(w);
  }

  /** When every group from `from` on is good, the good prefix runs to the end. */
  lemma {:induction false} GoodPrefixAll(buf: seq<byte>, n: nat, from: nat)
    requires |buf| == 3 * n && from <= n
    requires forall j :: from <= j < n ==> GroupOk(buf, j)
    ensures GoodPrefix(buf, n, from) == n
    decreases n - from
  {
    if from < n {
      GoodPrefixAll(buf, n, from + 1);
    }
  }

  /** The words of an all-good reply. */
  function DecodeWords(buf: seq<byte>, n: nat): (ws: seq<u16>)
    requires |buf| == 3 * n
    ensures |ws| == n && forall i :: 0 <= i < n ==> ws[i] == GroupWord(buf, i)
  {
    seq(n, i requires 0 <= i < n => GroupWord(buf, i))
  }

  /** `SCD40_ReadMeasurement` temperature: -45 + 175 * raw / 65535 degrees, in hundredths. */
  function TemperatureX100(raw: u16): int
  {
    Int16(-4500 + (raw * 17500) / 65535)
  }

  /** `SCD40_ReadMeasurement` humidity: 100 * raw / 65535 percent, in hundredths. */
  function HumidityX100(raw: u16): u16
  {
    Trunc16((raw * 10000) / 65535)
  }

  /**
   * The conversions cover the sensor's range exactly: -45.00 to 130.00 degrees and 0.00 to
   * 100.00 percent, both rising with the raw value, so neither 16-bit cast loses anything.
   */
  lemma ConversionRanges(raw: u16, raw': u16)
    requires raw <= raw'
    ensures -4500 <= TemperatureX100(raw) <= TemperatureX100(raw') <= 13000
    ensures 0 <= HumidityX100(raw) <= HumidityX100(raw') <= 10000
    ensures TemperatureX100(0) == -4500 && TemperatureX100(0xFFFF) == 13000
    ensures HumidityX100(0) == 0 && HumidityX100(0xFFFF) == 10000
  {
    ScaleMonotone(raw, raw', 17500);
    ScaleMonotone(raw, raw', 10000);
    DivMonotone(raw * 17500, raw' * 17500, 65535, 65535);
    DivMonotone(raw * 10000, raw' * 10000, 65535, 65535);
    ScaledBounded(raw', 17500, 65535);
    ScaledBounded(raw', 10000, 65535);
    ScaledBounded(65535, 17500, 65535);
    ScaledBounded(65535, 10000, 65535);
  }

  /** `SCD40_SetTemperatureOffset`: hundredths of a degree to the sensor's 175/65535 steps. */
  function OffsetToRaw(offsetX100: u16): u16
  {
    Trunc16((offsetX100 * 65535) / 17500)
  }

  /** `SCD40_GetTemperatureOffset`: the sensor's steps back to hundredths of a degree. */
  function RawToOffset(raw: u16): u16
  {
    Trunc16((raw * 17500) / 65535)
  }

  /**
   * Writing an offset of up to 175 degrees and reading it back loses at most a hundredth of a
   * degree, to the two truncating divisions.
   */
  lemma OffsetRoundTrip(offsetX100: u16)
    requires offsetX100 <= 17500
    ensures OffsetToRaw(offsetX100) == (offsetX100 * 65535) / 17500
    ensures offsetX100 - 1 <= RawToOffset(OffsetToRaw(offsetX100)) <= offsetX100
  {
    var o := offsetX100;
    ScaledBounded(o, 65535, 17500);
    var raw: int := (o * 65535) / 17500;
    var back: int := (raw * 17500) / 65535;
    var r: int := (o * 65535) % 17500;
    assert raw * 17500 == o * 65535 - r;
    ScaledBounded(raw, 17500, 65535);
    // back * 65535 <= raw * 17500 <= o * 65535, so back <= o
    assert back * 65535 <= raw * 17500;
    // raw * 17500 > o * 65535 - 17500 > (o - 1) * 65535, so back >= o - 1
    assert raw * 17500 < back * 65535 + 65535;
  }

  /**
   * `SCD40_PerformForcedRecalibration`'s result word: 0xFFFF means the recalibration failed;
   * otherwise the correction is the word minus 0x8000, in 16 bits.
   */
  function FrcCorrection(result: u16): (c: Option<u16>)
    ensures c.None? <==> result == 0xFFFF
    ensures c.Some? ==> Int16(c.value) == result - 0x8000
  {
    if result == 0xFFFF then None else Some(Trunc16(result as int - 0x8000))
  }

  /** `(status & 0x07FF) != 0` of `SCD40_IsDataReady`: some of the low eleven bits is set. */
  predicate DataReadyBits(status: u16)
  {
    status % 0x800 != 0
  }

  /** The handle of the SCD40. */
  class Sensor {
    var measuring: bool
    var rawCo2: u16
    var rawTemp: u16
    var rawHum: u16
    var co2Ppm: u16
    var temperatureX100: int
    var humidityX100: u16
    /** The frames written to the sensor, in order. */
    ghost var sent: seq<seq<byte>>

    /** The field part of `SCD40_Init`: not measuring, no reading. */
    constructor Init()
      ensures !measuring && co2Ppm == 0 && temperatureX100 == 0 && humidityX100 == 0 && sent == []
    {
      measuring := false;
      co2Ppm := 0;
      temperatureX100 := 0;
      humidityX100 := 0;
      sent := [];
    }

    /** `SCD40_SendCommand`: the command's two bytes. */
    method SendCommand(cmd: u16, acked: bool) returns (ok: bool)
      modifies this`sent
      ensures ok == acked && sent == old(sent) + [CommandBytes(cmd)]
    {
      sent := sent + [CommandBytes(cmd)];
      ok := acked;
    }

    /** `SCD40_SendCommandWithArg`: the command, the argument and the argument's CRC. */
    method SendCommandWithArg(cmd: u16, arg: u16, acked: bool) returns (ok: bool)
      modifies this`sent
      ensures ok == acked && sent == old(sent) + [CommandWithArg(cmd, arg)]
    {
      var hi := HighByte(arg);
      var lo := LowByte(arg);
      var crc := CalcCrc([hi, lo]);
      sent := sent + [CommandBytes(cmd) + [hi, lo, crc]];
      ok := acked;
    }

    /** `SCD40_StartPeriodicMeasurement`: measuring once the command was acknowledged. */
    method StartPeriodicMeasurement(acked: bool) returns (ok: bool)
      modifies this`sent, this`measuring
      ensures ok == acked && sent == old(sent) + [CommandBytes(CmdStartPeriodic)]
      ensures measuring == (ok || old(measuring))
    {
      ok := SendCommand(CmdStartPeriodic, acked);
      if ok {
        measuring := true;
      }
    }

    /** `SCD40_StartLowPowerPeriodicMeasurement`: as above, with the 30-second command. */
    method StartLowPowerPeriodicMeasurement(acked: bool) returns (ok: bool)
      modifies this`sent, this`measuring
      ensures ok == acked && sent == old(sent) + [CommandBytes(CmdStartLowPowerPeriodic)]
      ensures measuring == (ok || old(measuring))
    {
      ok := SendCommand(CmdStartLowPowerPeriodic, acked);
      if ok {
        measuring := true;
      }
    }

    /** `SCD40_StopPeriodicMeasurement`: not measuring once the command was acknowledged. */
    method StopPeriodicMeasurement(acked: bool) returns (ok: bool)
      modifies this`sent, this`measuring
      ensures ok == acked && sent == old(sent) + [CommandBytes(CmdStopPeriodic)]
      ensures measuring == (!ok && old(measuring))
    {
      ok := SendCommand(CmdStopPeriodic, acked);
      if ok {
        measuring := false;
      }
    }

    /** `SCD40_MeasureSingleShot`: the command only; the measuring flag is left alone. */
    method MeasureSingleShot(acked: bool) returns (ok: bool)
      modifies this`sent
      ensures ok == acked && sent == old(sent) + [CommandBytes(CmdMeasureSingleShot)]
    {
      ok := SendCommand(CmdMeasureSingleShot, acked);
    }

    /**
     * `SCD40_IsDataReady`: the status word is read after the command; ready when the command and
     * the read succeeded, the word's CRC is right and its low eleven bits are not all zero.
     */
    method IsDataReady(acked: bool, received: bool, reply: seq<byte>) returns (ready: bool)
      requires |reply| == 3
      modifies this`sent
      ensures sent == old(sent) + [CommandBytes(CmdGetDataReadyStatus)]
      ensures ready <==> acked && received && GroupOk(reply, 0) && DataReadyBits(GroupWord(reply, 0))
    {
      var sentOk := SendCommand(CmdGetDataReadyStatus, acked);
      if !sentOk {
        return false;
      }
      var status := new u16[1];
      var ok := ReadResponse(received, reply, status, 1);
      if !ok {
        return false;
      }
      ready := DataReadyBits(status[0]);
    }

    /**
     * `SCD40_ReadMeasurement`: after the command, three checked words; on success the raw values
     * are stored and converted, on any failure nothing but the frame log changes.
     */
    method ReadMeasurement(acked: bool, received: bool, reply: seq<byte>) returns (ok: bool)
      requires |reply| == 9
      modifies this`sent, this`rawCo2, this`rawTemp, this`rawHum, this`co2Ppm, this`temperatureX100, this`humidityX100
      ensures sent == old(sent) + [CommandBytes(CmdReadMeasurement)]
      ensures ok <==> acked && received && GoodPrefix(reply, 3, 0) == 3
      ensures ok ==> rawCo2 == GroupWord(reply, 0) && rawTemp == GroupWord(reply, 1) && rawHum == GroupWord(reply, 2)
      ensures ok ==> co2Ppm == rawCo2 && temperatureX100 == TemperatureX100(rawTemp) && humidityX100 == HumidityX100(rawHum)
      ensures !ok ==> rawCo2 == old(rawCo2) && rawTemp == old(rawTemp) && rawHum == old(rawHum)
      ensures !ok ==> co2Ppm == old(co2Ppm) && temperatureX100 == old(temperatureX100) && humidityX100 == old(humidityX100)
    {
      ok := SendCommand(CmdReadMeasurement, acked);
      if !ok {
        return;
      }
      var data := new u16[3];
      ok := ReadResponse(received, reply, data, 3);
      if !ok {
        return;
      }
      rawCo2 := data[0];
      rawTemp := data[1];
      rawHum := data[2];
      co2Ppm := rawCo2;
      temperatureX100 := Int16(-4500 + (rawTemp * 17500) / 65535);
      humidityX100 := Trunc16((rawHum * 10000) / 65535);
    }

    /** `SCD40_SetTemperatureOffset`: the offset converted to sensor steps, sent as the argument. */
    method SetTemperatureOffset(offsetX100: u16, acked: bool) returns (ok: bool)
      modifies this`sent
      ensures ok == acked && sent == old(sent) + [CommandWithArg(CmdSetTemperatureOffset, OffsetToRaw(offsetX100))]
    {
      var raw := Trunc16((offsetX100 * 65535) / 17500);
      ok := SendCommandWithArg(CmdSetTemperatureOffset, raw, acked);
    }

    /** `SCD40_GetTemperatureOffset`: the checked word converted back to hundredths of a degree. */
    method GetTemperatureOffset(acked: bool, received: bool, reply: seq<byte>) returns (offsetX100: Option<u16>)
      requires |reply| == 3
      modifies this`sent
      ensures sent == old(sent) + [CommandBytes(CmdGetTemperatureOffset)]
      ensures offsetX100 == if acked && received && GroupOk(reply, 0) then Some(RawToOffset(GroupWord(reply, 0))) else None
    {
      var ok := SendCommand(CmdGetTemperatureOffset, acked);
      if !ok {
        return None;
      }
      var raw := new u16[1];
      ok := ReadResponse(received, reply, raw, 1);
      if !ok {
        return None;
      }
      offsetX100 := Some(Trunc16((raw[0] as int * 17500) / 65535));
    }

    /**
     * `SCD40_PerformForcedRecalibration`: the target concentration is sent; the checked result
     * word gives the correction, except 0xFFFF, which reports a failed recalibration.
     */
    method PerformForcedRecalibration(targetPpm: u16, acked: bool, received: bool, reply: seq<byte>)
      returns (correction: Option<u16>)
      requires |reply| == 3
      modifies this`sent
      ensures sent == old(sent) + [CommandWithArg(CmdPerformForcedRecalibration, targetPpm)]
      ensures correction == if acked && received && GroupOk(reply, 0) then FrcCorrection(GroupWord(reply, 0)) else None
    {
      var ok := SendCommandWithArg(CmdPerformForcedRecalibration, targetPpm, acked);
      if !ok {
        return None;
      }
      var result := new u16[1];
      ok := ReadResponse(received, reply, result, 1);
      if !ok {
        return None;
      }
      if result[0] == 0xFFFF {
        return None;
      }
      correction := Some(Trunc16(result[0] as int - 0x8000));
    }

    /**
     * The bus part of `SCD40_Init`: a stop command whose outcome is ignored, then the serial
     * number read, which decides the result.
     */
    method Start(stopAcked: bool, serialAcked: bool, received: bool, reply: seq<byte>) returns (ok: bool)
      requires |reply| == 9
      modifies this`sent, this`measuring
      ensures sent == old(sent) + [CommandBytes(CmdStopPeriodic), CommandBytes(CmdGetSerialNumber)]
      ensures measuring == (!stopAcked && old(measuring))
      ensures ok <==> serialAcked && received && GoodPrefix(reply, 3, 0) == 3
    {
      var _ := StopPeriodicMeasurement(stopAcked);
      var serial := new u16[3];
      ok := GetSerialNumber(serialAcked, received, reply, serial);
    }

    /** `SCD40_SetSensorAltitude`: the altitude in metres as the argument. */
    method SetSensorAltitude(altitudeM: u16, acked: bool) returns (ok: bool)
      modifies this`sent
      ensures ok == acked && sent == old(sent) + [CommandWithArg(CmdSetSensorAltitude, altitudeM)]
    {
      ok := SendCommandWithArg(CmdSetSensorAltitude, altitudeM, acked);
    }

    /** `SCD40_GetSensorAltitude`: the checked word, in metres. */
    method GetSensorAltitude(acked: bool, received: bool, reply: seq<byte>) returns (altitudeM: Option<u16>)
      requires |reply| == 3
      modifies this`sent
      ensures sent == old(sent) + [CommandBytes(CmdGetSensorAltitude)]
      ensures altitudeM == if acked && received && GroupOk(reply, 0) then Some(GroupWord(reply, 0)) else None
    {
      var ok := SendCommand(CmdGetSensorAltitude, acked);
      if !ok {
        return None;
      }
      var word := new u16[1];
      ok := ReadResponse(received, reply, word, 1);
      if !ok {
        return None;
      }
      altitudeM := Some(word[0]);
    }

    /** `SCD40_SetAmbientPressure`: the pressure in hPa as the argument. */
    method SetAmbientPressure(pressureHpa: u16, acked: bool) returns (ok: bool)
      modifies this`sent
      ensures ok == acked && sent == old(sent) + [CommandWithArg(CmdSetAmbientPressure, pressureHpa)]
    {
      ok := SendCommandWithArg(CmdSetAmbientPressure, pressureHpa, acked);
    }

    /** `SCD40_SetAutomaticSelfCalibration`: argument 1 to enable, 0 to disable. */
    method SetAutomaticSelfCalibration(enabled: bool, acked: bool) returns (ok: bool)
      modifies this`sent
      ensures ok == acked && sent == old(sent) + [CommandWithArg(CmdSetAutomaticSelfCalibration, if enabled then 1 else 0)]
    {
      ok := SendCommandWithArg(CmdSetAutomaticSelfCalibration, if enabled then 1 else 0, acked);
    }

    /** `SCD40_GetAutomaticSelfCalibration`: enabled when the checked status word is not zero. */
    method GetAutomaticSelfCalibration(acked: bool, received: bool, reply: seq<byte>) returns (enabled: Option<bool>)
      requires |reply| == 3
      modifies this`sent
      ensures sent == old(sent) + [CommandBytes(CmdGetAutomaticSelfCalibration)]
      ensures enabled == if acked && received && GroupOk(reply, 0) then Some(GroupWord(reply, 0) != 0) else None
    {
      var ok := SendCommand(CmdGetAutomaticSelfCalibration, acked);
      if !ok {
        return None;
      }
      var status := new u16[1];
      ok := ReadResponse(received, reply, status, 1);
      if !ok {
        return None;
      }
      enabled := Some(status[0] != 0);
    }

    /** `SCD40_PersistSettings`: the command only. */
    method PersistSettings(acked: bool) returns (ok: bool)
      modifies this`sent
      ensures ok == acked && sent == old(sent) + [CommandBytes(CmdPersistSettings)]
    {
      ok := SendCommand(CmdPersistSettings, acked);
    }

    /**
     * `SCD40_GetSerialNumber`: three checked words into the caller's array, which keeps the words
     * of the groups before a bad CRC.
     */
    method GetSerialNumber(acked: bool, received: bool, reply: seq<byte>, serial: array<u16>) returns (ok: bool)
      requires |reply| == 9 && serial.Length == 3
      modifies this`sent, serial
      ensures sent == old(sent) + [CommandBytes(CmdGetSerialNumber)]
      ensures ok <==> acked && received && GoodPrefix(reply, 3, 0) == 3
      ensures ok ==> serial[..] == DecodeWords(reply, 3)
      ensures forall j :: 0 <= j < 3 ==>
        serial[j] == if acked && received && j < GoodPrefix(reply, 3, 0) then GroupWord(reply, j) else old(serial[j])
    {
      ok := SendCommand(CmdGetSerialNumber, acked);
      if !ok {
        return;
      }
      ok := ReadResponse(received, reply, serial, 3);
    }

    /** `SCD40_PerformSelfTest`: passed when the checked result word is zero. */
    method PerformSelfTest(acked: bool, received: bool, reply: seq<byte>) returns (passed: Option<bool>)
      requires |reply| == 3
      modifies this`sent
      ensures sent == old(sent) + [CommandBytes(CmdPerformSelfTest)]
      ensures passed == if acked && received && GroupOk(reply, 0) then Some(GroupWord(reply, 0) == 0) else None
    {
      var ok := SendCommand(CmdPerformSelfTest, acked);
      if !ok {
        return None;
      }
      var result := new u16[1];
      ok := ReadResponse(received, reply, result, 1);
      if !ok {
        return None;
      }
      passed := Some(result[0] == 0);
    }

    /** `SCD40_PerformFactoryReset`: the command only. */
    method PerformFactoryReset(acked: bool) returns (ok: bool)
      modifies this`sent
      ensures ok == acked && sent == old(sent) + [CommandBytes(CmdPerformFactoryReset)]
    {
      ok := SendCommand(CmdPerformFactoryReset, acked);
    }

    /** `SCD40_Reinit`: the command only. */
    method Reinit(acked: bool) returns (ok: bool)
      modifies this`sent
      ensures ok == acked && sent == old(sent) + [CommandBytes(CmdReinit)]
    {
      ok := SendCommand(CmdReinit, acked);
    }
  }

  /**
   * `SCD40_ReadResponse`: the reply is checked group by group; each good group's word is stored
   * before the next is checked, so a bad CRC leaves the words before it written and the rest of
   * `data` untouched. A failed bus read writes nothing.
   */
  method ReadResponse(received: bool, buf: seq<byte>, data: array<u16>, numWords: nat) returns (ok: bool)
    requires |buf| == 3 * numWords && numWords <= data.Length
    modifies data
    ensures ok <==> received && GoodPrefix(buf, numWords, 0) == numWords
    ensures ok ==> data[..numWords] == DecodeWords(buf, numWords)
    ensures forall j :: 0 <= j < data.Length ==>
      data[j] == if received && j < GoodPrefix(buf, numWords, 0) then GroupWord(buf, j) else old(data[j])
  {
    if !received {
      return false;
    }
    var i := 0;
    while i < numWords
      invariant 0 <= i <= numWords
      invariant GoodPrefix(buf, numWords, 0) == GoodPrefix(buf, numWords, i)
      invariant forall j :: 0 <= j < i ==> data[j] == GroupWord(buf, j)
      invariant forall j :: i <= j < data.Length ==> data[j] == old(data[j])
    {
      var crc := CalcCrc(buf[3 * i..3 * i + 2]);
      if crc != buf[3 * i + 2] {
        return false;
      }
      data[i] := Word(buf[3 * i], buf[3 * i + 1]);
      i := i + 1;
    }
    ok := true;
  }
}
