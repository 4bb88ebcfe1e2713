/**
 * The BME280 temperature, pressure and humidity driver: the unpacking of the calibration bytes,
 * the packing of the control registers, the assembly of the raw readings, the compensation
 * formulas with their guard and clamp, and the handle that keeps calibration and results.
 * Register reads are inputs (`None` for a failed read); register writes are kept in a ghost log of
 * (register, value) pairs.
 */
module Bme280 {
  import opened Wrappers
  import opened Bytes
  import opened Arithmetic
  import opened Bus

  const ChipId: byte := 0x60
  const RegId: byte := 0xD0
  const RegReset: byte := 0xE0
  const RegCtrlHum: byte := 0xF2
  const RegStatus: byte := 0xF3
  const RegCtrlMeas: byte := 0xF4
  const RegConfig: byte := 0xF5
  const ResetWord: byte := 0xB6
  const ModeForced: byte := 0x01
  const ModeNormal: byte := 0x03
  const Os1x: byte := 0x01
  const Os2x: byte := 0x02
  const Os16x: byte := 0x05
  const Filter16: byte := 0x04
  const Standby1000: byte := 0x05
  /** 100 %RH in the 1/1024 steps of the compensated humidity, before the final `>> 12`. */
  const HumidityCeiling: nat := 419430400

  /** The trimming parameters of one sensor. */
  datatype Calib = Calib(
    t1: u16, t2: int, t3: int,
    p1: u16, p2: int, p3: int, p4: int, p5: int, p6: int, p7: int, p8: int, p9: int,
    h1: byte, h2: int, h3: byte, h4: int, h5: int, h6: int)

  /**
   * `(int16_t)(hi << 8) | lo`: the cast applies to the shifted high byte, whose low eight bits are
   * zero, so OR-ing the low byte in adds it.
   */
  function SignedWord(hi: byte, lo: byte): int
  {
    Int16(hi * 256) + lo
  }

  /** The cast-then-OR reads the little-endian byte pair as one two's-complement word. */
  lemma SignedWordIsInt16(hi: byte, lo: byte)
    ensures SignedWord(hi, lo) == Int16(Word(hi, lo))
    ensures -0x8000 <= SignedWord(hi, lo) < 0x8000
  {
  }

  /** `dig_H4 = (int16_t)(h[3] << 4) | (h[4] & 0x0F)` */
  function CalibH4(b3: byte, b4: byte): int
  {
    Int16(b3 * 16) + b4 % 16
  }

  /** `dig_H5 = (int16_t)(h[5] << 4) | (h[4] >> 4)` */
  function CalibH5(b4: byte, b5: byte): int
  {
    Int16(b5 * 16) + b4 / 16
  }

  /**
   * The two 12-bit humidity parameters share byte 0xE5: H4 takes its low nibble and H5 its high
   * nibble. Both come out in 0..4095 (the cast never makes them negative), and the three bytes
   * can be recovered from them.
   */
  lemma HumidityNibbles(b3: byte, b4: byte, b5: byte)
    ensures 0 <= CalibH4(b3, b4) < 4096 && 0 <= CalibH5(b4, b5) < 4096
    ensures CalibH4(b3, b4) / 16 == b3 && CalibH5(b4, b5) / 16 == b5
    ensures (CalibH5(b4, b5) % 16) * 16 + CalibH4(b3, b4) % 16 == b4
  {
  }

  /**
   * `BME280_ReadCalibration`'s unpacking: T1..P9 are little-endian pairs of the 26 bytes from
   * 0x88 (T1 and P1 unsigned), H1 is the last of them, and H2..H6 come from the 7 bytes from 0xE1.
   */
  function UnpackCalibration(c: seq<byte>, h: seq<byte>): (cal: Calib)
    requires |c| == 26 && |h| == 7
    ensures cal.t1 == Word(c[1], c[0]) && cal.p1 == Word(c[7], c[6])
    ensures cal.t2 == Int16(Word(c[3], c[2])) && cal.p9 == Int16(Word(c[23], c[22]))
    ensures cal.h1 == c[25] && cal.h3 == h[2] && cal.h6 == Int8(h[6])
    ensures 0 <= cal.h4 < 4096 && 0 <= cal.h5 < 4096
  {
    SignedWordIsInt16(c[3], c[2]);
    SignedWordIsInt16(c[23], c[22]);
    HumidityNibbles(h[3], h[4], h[5]);
    Calib(
      Word(c[1], c[0]), SignedWord(c[3], c[2]), SignedWord(c[5], c[4]),
      Word(c[7], c[6]), SignedWord(c[9], c[8]), SignedWord(c[11], c[10]), SignedWord(c[13], c[12]),
      SignedWord(c[15], c[14]), SignedWord(c[17], c[16]), SignedWord(c[19], c[18]),
      SignedWord(c[21], c[20]), SignedWord(c[23], c[22]),
      c[25], SignedWord(h[1], h[0]), h[2], CalibH4(h[3], h[4]), CalibH5(h[4], h[5]), Int8(h[6]))
  }

  /** `hum_os & 0x07` */
  function CtrlHum(humOs: byte): byte
  {
    humOs % 8
  }

  /** `((standby & 0x07) << 5) | ((filter & 0x07) << 2)`: disjoint fields, so the OR is a sum. */
  function ConfigByte(standby: byte, filter: byte): byte
  {
    (standby % 8) * 32 + (filter % 8) * 4
  }

  /** `((temp_os & 0x07) << 5) | ((press_os & 0x07) << 2) | (mode & 0x03)` */
  function CtrlMeas(tempOs: byte, pressOs: byte, mode: byte): byte
  {
    (tempOs % 8) * 32 + (pressOs % 8) * 4 + mode % 4
  }

  /**
   * Each packed field reads back as the low bits of the value given for it: bits 7..5, 4..2 and
   * 1..0 of `ctrl_meas`, bits 7..5 and 4..2 of `config` (bits 1..0 of which stay clear).
   */
  lemma ControlFieldsRoundTrip(tempOs: byte, pressOs: byte, mode: byte, standby: byte, filter: byte)
    ensures CtrlMeas(tempOs, pressOs, mode) / 32 == tempOs % 8
    ensures (CtrlMeas(tempOs, pressOs, mode) / 4) % 8 == pressOs % 8
    ensures CtrlMeas(tempOs, pressOs, mode) % 4 == mode % 4
    ensures ConfigByte(standby, filter) / 32 == standby % 8
    ensures (ConfigByte(standby, filter) / 4) % 8 == filter % 8 && ConfigByte(standby, filter) % 4 == 0
  {
    var t, p, m, s, f := tempOs % 8, pressOs % 8, mode % 4, standby % 8, filter % 8;
    DivUnique(CtrlMeas(tempOs, pressOs, mode), 32, t, p * 4 + m);
    DivUnique(CtrlMeas(tempOs, pressOs, mode), 4, t * 8 + p, m);
    DivUnique(t * 8 + p, 8, t, p);
    DivUnique(ConfigByte(standby, filter), 32, s, f * 4);
    DivUnique(ConfigByte(standby, filter), 4, s * 8 + f, 0);
    DivUnique(s * 8 + f, 8, s, f);
  }

  /** `(ctrl_meas & 0xFC) | BME280_MODE_FORCED` */
  function ForcedMode(ctrlMeas: byte): byte
  {
    (ctrlMeas / 4) * 4 + ModeForced
  }

  /** Triggering keeps both oversampling fields and only sets the mode bits to 01. */
  lemma ForcedModeKeepsOversampling(ctrlMeas: byte)
    ensures ForcedMode(ctrlMeas) / 4 == ctrlMeas / 4 && ForcedMode(ctrlMeas) % 4 == 1
  {
  }

  /**
   * `BME280_IsMeasuring`: bit 3 (`measuring`) of the status register; a failed read reports not
   * measuring.
   */
  method IsMeasuring(status: Option<byte>) returns (busy: bool)
    ensures busy <==> status.Some? && (status.value / 8) % 2 == 1
  {
    if status.None? {
      return false;
    }
    var bits := status.value as bv8;
    busy := bits & 0x08 != 0;
    assert busy <==> (bits >> 3) & 1 == 1;
  }

  /** A 20-bit reading: `(msb << 12) | (lsb << 4) | (xlsb >> 4)`. */
  function Raw20(msb: byte, lsb: byte, xlsb: byte): nat
  {
    msb * 4096 + lsb * 16 + xlsb / 16
  }

  /** The three register bytes land in disjoint bit ranges of a 20-bit value. */
  lemma Raw20Fields(msb: byte, lsb: byte, xlsb: byte)
    ensures Raw20(msb, lsb, xlsb) < 0x10_0000
    ensures Raw20(msb, lsb, xlsb) / 4096 == msb
    ensures (Raw20(msb, lsb, xlsb) / 16) % 256 == lsb
    ensures Raw20(msb, lsb, xlsb) % 16 == xlsb / 16
  {
    var r := Raw20(msb, lsb, xlsb);
    DivUnique(r, 4096, msb, lsb * 16 + xlsb / 16);
    DivUnique(r, 16, msb * 256 + lsb, xlsb / 16);
    DivUnique(msb * 256 + lsb, 256, msb, lsb);
  }

  /**
   * `t_fine` of `BME280_CompensateTemp`; the arithmetic shifts are floor divisions by powers of
   * two.
   */
  function TFine(c: Calib, adcT: int): int
  {
    var var1 := ((adcT / 8 - c.t1 * 2) * c.t2) / 2048;
    var var2 := (((adcT / 16 - c.t1) * (adcT / 16 - c.t1)) / 4096 * c.t3) / 16384;
    var1 + var2
  }

  /** The temperature in hundredths of a degree from `t_fine`: `(t_fine * 5 + 128) >> 8`. */
  function TemperatureOf(tFine: int): int
  {
    (tFine * 5 + 128) / 256
  }

  /** The divisor `var1` of `BME280_CompensatePress`. */
  function PressureDivisor(c: Calib, tFine: int): int
  {
    var v1 := tFine - 128000;
    var v1' := (v1 * v1 * c.p3) / 256 + v1 * c.p2 * 4096;
    ((0x8000_0000_0000 + v1') * c.p1) / 0x2_0000_0000
  }

  /** `BME280_CompensatePress`: pascals, or 0 when the divisor is 0. */
  function PressureOf(c: Calib, tFine: int, adcP: int): (pa: u32)
    ensures PressureDivisor(c, tFine) == 0 ==> pa == 0
  {
    var v1 := tFine - 128000;
    var v2 := v1 * v1 * c.p6 + v1 * c.p5 * 0x2_0000 + c.p4 * 0x8_0000_0000;
    var d := PressureDivisor(c, tFine);
    if d == 0 then 0
    else
      var p := CDiv(((1048576 - adcP) * 0x8000_0000 - v2) * 3125, d);
      var w1 := (c.p9 * (p / 8192) * (p / 8192)) / 0x200_0000;
      var w2 := (c.p8 * p) / 0x8_0000;
      Trunc32(((p + w1 + w2) / 256 + c.p7 * 16) / 256)
  }

  /** The humidity before the clamp, in 1/1024 %RH shifted left by 12. */
  function HumidityUnclamped(c: Calib, tFine: int, adcH: int): int
  {
    var v := tFine - 76800;
    var v' := (((adcH * 16384 - c.h4 * 1048576 - c.h5 * v) + 16384) / 32768) *
      ((((((v * c.h6) / 1024) * ((v * c.h3) / 2048 + 32768)) / 1024 + 2097152) * c.h2 + 8192) / 16384);
    v' - ((((v' / 32768) * (v' / 32768)) / 128) * c.h1) / 16
  }

  /**
   * `BME280_CompensateHum`: the value clamped to 0..419430400, then `>> 12`, so never above
   * 102400 (100 %RH in 1/1024 steps).
   */
  function HumidityOf(c: Calib, tFine: int, adcH: int): (h: u32)
    ensures h <= 102400
    ensures 0 <= HumidityUnclamped(c, tFine, adcH) <= HumidityCeiling ==> h == HumidityUnclamped(c, tFine, adcH) / 4096
    ensures HumidityUnclamped(c, tFine, adcH) < 0 ==> h == 0
    ensures HumidityUnclamped(c, tFine, adcH) > HumidityCeiling ==> h == 102400
  {
    var v := HumidityUnclamped(c, tFine, adcH);
    var clamped := if v < 0 then 0 else if v > HumidityCeiling then HumidityCeiling else v;
    Trunc32(clamped / 4096)
  }

  /** The handle of one BME280. */
  class Sensor {
    const address: byte
    var calib: Calib
    var tFine: int
    var rawTemp: int
    var rawPress: int
    var rawHum: int
    var temperature: int
    var pressure: u32
    var humidity: u32
    /** The (register, value) writes sent to the sensor, in order. */
    ghost var writes: seq<(byte, byte)>

    /** The compensated humidity never exceeds 100 %RH. */
    ghost predicate Valid()
      reads this
    {
      humidity <= 102400
    }

    /** The field part of `BME280_Init` on a zero-initialised handle. */
    constructor Init(addr: byte, initial: Calib)
      ensures Valid() && address == addr && calib == initial && tFine == 0 && humidity == 0 && writes == []
    {
      address := addr;
      calib := initial;
      tFine := 0;
      rawTemp, rawPress, rawHum := 0, 0, 0;
      temperature, pressure, humidity := 0, 0, 0;
      writes := [];
    }

    /** `BME280_WriteReg` */
    method WriteReg(reg: byte, value: byte, acked: bool) returns (ok: bool)
      modifies this`writes
      ensures ok == acked && writes == old(writes) + [(reg, value)]
    {
      writes := writes + [(reg, value)];
      ok := acked;
    }

    /**
     * The bus part of `BME280_Init`: the chip id must read 0x60; then the soft reset, the
     * calibration, and the default configuration (temperature x2, pressure x16, humidity x1,
     * normal mode, filter 16, 1000 ms standby). `acks[0]` answers the reset, the rest the three
     * configuration writes.
     */
    method Begin(id: Option<byte>, calibBytes: Option<seq<byte>>, humBytes: Option<seq<byte>>, acks: seq<bool>)
      returns (ok: bool)
      requires calibBytes.Some? ==> |calibBytes.value| == 26
      requires humBytes.Some? ==> |humBytes.value| == 7
      requires Valid()
      modifies this`writes, this`calib
      ensures Valid()
      ensures ok <==> id == Some(ChipId) && Ack(acks, 0) && calibBytes.Some? && humBytes.Some? && AllAcked(acks[1..], 3)
      ensures id != Some(ChipId) ==> writes == old(writes) && calib == old(calib)
      ensures id == Some(ChipId) && !Ack(acks, 0) ==>
        writes == old(writes) + [(RegReset, ResetWord)] && calib == old(calib)
      ensures id == Some(ChipId) && Ack(acks, 0) && (calibBytes.None? || humBytes.None?) ==>
        writes == old(writes) + [(RegReset, ResetWord)] && calib == old(calib)
      ensures id == Some(ChipId) && Ack(acks, 0) && calibBytes.Some? && humBytes.Some? ==>
        calib == UnpackCalibration(calibBytes.value, humBytes.value) &&
        writes == old(writes) + [(RegReset, ResetWord)] +
          Attempted([(RegCtrlHum, CtrlHum(Os1x)), (RegConfig, ConfigByte(Standby1000, Filter16)),
            (RegCtrlMeas, CtrlMeas(Os2x, Os16x, ModeNormal))], acks[1..])
    {
      if id.None? || id.value != ChipId {
        return false;
      }
      ok := WriteReg(RegReset, ResetWord, Ack(acks, 0));
      if !ok {
        return;
      }
      ok := ReadCalibration(calibBytes, humBytes);
      if !ok {
        return;
      }
      ok := Configure(Os2x, Os16x, Os1x, ModeNormal, Filter16, Standby1000, acks[1..]);
    }

    /** `BME280_ReadCalibration`: both reads must succeed before the handle's calibration changes. */
    method ReadCalibration(calibBytes: Option<seq<byte>>, humBytes: Option<seq<byte>>) returns (ok: bool)
      requires calibBytes.Some? ==> |calibBytes.value| == 26
      requires humBytes.Some? ==> |humBytes.value| == 7
      modifies this`calib
      ensures ok <==> calibBytes.Some? && humBytes.Some?
      ensures calib == if ok then UnpackCalibration(calibBytes.value, humBytes.value) else old(calib)
    {
      if calibBytes.None? || humBytes.None? {
        return false;
      }
      calib := UnpackCalibration(calibBytes.value, humBytes.value);
      ok := true;
    }

    /**
     * `BME280_Configure`: `ctrl_hum` first (it only takes effect with the following `ctrl_meas`
     * write), then `config`, then `ctrl_meas`, stopping at the first failed write.
     */
    method Configure(tempOs: byte, pressOs: byte, humOs: byte, mode: byte, filter: byte, standby: byte, acks: seq<bool>)
      returns (ok: bool)
      modifies this`writes
      ensures ok <==> AllAcked(acks, 3)
      ensures writes == old(writes) + Attempted([(RegCtrlHum, CtrlHum(humOs)), (RegConfig, ConfigByte(standby, filter)),
        (RegCtrlMeas, CtrlMeas(tempOs, pressOs, mode))], acks)
    {
      AttemptedThree((RegCtrlHum, CtrlHum(humOs)), (RegConfig, ConfigByte(standby, filter)),
        (RegCtrlMeas, CtrlMeas(tempOs, pressOs, mode)), acks);
      ok := WriteReg(RegCtrlHum, CtrlHum(humOs), Ack(acks, 0));
      if !ok {
        return;
      }
      ok := WriteReg(RegConfig, ConfigByte(standby, filter), Ack(acks, 1));
      if !ok {
        return;
      }
      ok := WriteReg(RegCtrlMeas, CtrlMeas(tempOs, pressOs, mode), Ack(acks, 2));
    }

    /** `BME280_TriggerMeasurement`: read `ctrl_meas`, write it back in forced mode. */
    method TriggerMeasurement(ctrlMeas: Option<byte>, acked: bool) returns (ok: bool)
      modifies this`writes
      ensures ok <==> ctrlMeas.Some? && acked
      ensures writes == old(writes) + if ctrlMeas.Some? then [(RegCtrlMeas, ForcedMode(ctrlMeas.value))] else []
    {
      if ctrlMeas.None? {
        return false;
      }
      ok := WriteReg(RegCtrlMeas, (ctrlMeas.value / 4) * 4 + ModeForced, acked);
    }

    /**
     * `BME280_ReadAll`: the eight data bytes are split into the 20-bit pressure and temperature
     * and the 16-bit humidity; the temperature is compensated first, and the pressure and
     * humidity use the `t_fine` it leaves. A failed read changes nothing.
     */
    method ReadAll(data: Option<seq<byte>>) returns (ok: bool)
      requires data.Some? ==> |data.value| == 8
      requires Valid()
      modifies this`rawTemp, this`rawPress, this`rawHum, this`tFine, this`temperature, this`pressure, this`humidity
      ensures Valid() && (ok <==> data.Some?)
      ensures !ok ==> rawTemp == old(rawTemp) && rawPress == old(rawPress) && rawHum == old(rawHum) && tFine == old(tFine)
      ensures !ok ==> temperature == old(temperature) && pressure == old(pressure) && humidity == old(humidity)
      ensures ok ==> var d := data.value;
        rawPress == Raw20(d[0], d[1], d[2]) && rawTemp == Raw20(d[3], d[4], d[5]) && rawHum == Word(d[6], d[7])
      ensures ok ==> tFine == TFine(calib, rawTemp) && temperature == TemperatureOf(tFine)
      ensures ok ==> pressure == PressureOf(calib, tFine, rawPress) && humidity == HumidityOf(calib, tFine, rawHum)
    {
      if data.None? {
        return false;
      }
      var d := data.value;
      rawPress := Raw20(d[0], d[1], d[2]);
      rawTemp := Raw20(d[3], d[4], d[5]);
      rawHum := Word(d[6], d[7]);
      temperature := CompensateTemp(rawTemp);
      pressure := PressureOf(calib, tFine, rawPress);
      humidity := HumidityOf(calib, tFine, rawHum);
      ok := true;
    }

    /** `BME280_CompensateTemp`: sets `t_fine` and returns the temperature in hundredths of a degree. */
    method CompensateTemp(adcT: int) returns (t: int)
      modifies this`tFine
      ensures tFine == TFine(calib, adcT) && t == TemperatureOf(tFine)
    {
      tFine := TFine(calib, adcT);
      t := TemperatureOf(tFine);
    }

    /** `BME280_GetHumidity_x100`: `(humidity * 100) >> 10`, at most 100.00 %RH. */
    function GetHumidityX100(): (h: u16)
      requires Valid()
      reads this
      ensures h <= 10000
      ensures h * 1024 <= humidity * 100 < h * 1024 + 1024
    {
      ScaleMonotone(humidity, 102400, 100);
      DivMonotone(humidity * 100, 102400 * 100, 1024, 1024);
      Trunc16((humidity * 100) / 1024)
    }

    /** `BME280_GetTemperature_x100`: the temperature cast to 16 bits. */
    function GetTemperatureX100(): int
      reads this
    {
      Int16(temperature)
    }
  }
}
