/**
 * The BME680 temperature, pressure, humidity and gas driver: calibration unpacking, the control
 * register packing and read-modify-write edits, the heater set-points, the parsing of the data
 * block with its gas flags, and the humidity clamp. Register reads are inputs (`None` for a failed
 * read); register writes are kept in a ghost log of (register, value) pairs. The register layout of
 * `ctrl_hum`, `config` and `ctrl_meas` and the forced-mode edit are those of the BME280.
 */
module Bme680 {
  import opened Wrappers
  import opened Bytes
  import opened Arithmetic
  import opened Bus
  import Bme280

  const ChipId: byte := 0x61
  const RegResHeat0: byte := 0x5A
  const RegGasWait0: byte := 0x64
  const RegCtrlGas1: byte := 0x71
  const RegCtrlHum: byte := 0x72
  const RegCtrlMeas: byte := 0x74
  const RegConfig: byte := 0x75
  const RegReset: byte := 0xE0
  const ResetWord: byte := 0xB6
  const ModeSleep: byte := 0x00
  const Os1x: byte := 0x01
  const Os2x: byte := 0x02
  const Os16x: byte := 0x05
  const Filter16: byte := 0x04
  const HeaterProfile0: byte := 0x00
  /** The heater set-point `BME680_Init` programs into profile 0: 300 degrees Celsius for 100 ms. */
  const DefaultHeaterTemp: u16 := 300
  const DefaultHeaterDuration: u16 := 100
  /** The hottest heater target accepted, in degrees Celsius. */
  const MaxHeaterTemp: nat := 400
  /** Durations from this many milliseconds on get the largest code, 0xFF. */
  const MaxHeaterDuration: nat := 0xFC0
  /** 100 %RH in the thousandths the compensated humidity uses. */
  const HumidityCeiling: nat := 100000

  /** The trimming parameters of one sensor. */
  datatype Calib = Calib(
    t1: u16, t2: int, t3: int,
    p1: u16, p2: int, p3: int, p4: int, p5: int, p6: int, p7: int, p8: int, p9: int, p10: byte,
    h1: u16, h2: u16, h3: int, h4: int, h5: int, h6: byte, h7: int,
    gh1: int, gh2: int, gh3: int,
    resHeatRange: nat, resHeatVal: int, rangeSwErr: int)

  /**
   * The parameters in the two coefficient blocks (25 bytes from 0x89, 16 bytes from 0xE1); the
   * three heater parameters read afterwards are kept from `cal`. Words are little-endian, signed
   * ones with the BME280's cast-then-OR, and H1/H2 share the nibbles of byte 0xE2.
   */
  function WithCoefficients(cal: Calib, c1: seq<byte>, c2: seq<byte>): (r: Calib)
    requires |c1| == 25 && |c2| == 16
    ensures r.resHeatRange == cal.resHeatRange && r.resHeatVal == cal.resHeatVal && r.rangeSwErr == cal.rangeSwErr
    ensures r.t1 == Word(c2[9], c2[8]) && r.t2 == Int16(Word(c1[2], c1[1])) && r.t3 == Int8(c1[3])
    ensures r.h1 / 16 == c2[2] && r.h2 / 16 == c2[0] && (r.h2 % 16) * 16 + r.h1 % 16 == c2[1]
  {
    Bme280.SignedWordIsInt16(c1[2], c1[1]);
    HumidityNibbles(c2[0], c2[1], c2[2]);
    cal.(t1 := Word(c2[9], c2[8]), t2 := Bme280.SignedWord(c1[2], c1[1]), t3 := Int8(c1[3]),
      p1 := Word(c1[6], c1[5]), p2 := Bme280.SignedWord(c1[8], c1[7]), p3 := Int8(c1[9]),
      p4 := Bme280.SignedWord(c1[12], c1[11]), p5 := Bme280.SignedWord(c1[14], c1[13]),
      p6 := Int8(c1[16]), p7 := Int8(c1[15]),
      p8 := Bme280.SignedWord(c1[20], c1[19]), p9 := Bme280.SignedWord(c1[22], c1[21]), p10 := c1[23],
      h1 := (c2[2] as int) * 16 + c2[1] % 16, h2 := (c2[0] as int) * 16 + c2[1] / 16,
      h3 := Int8(c2[3]), h4 := Int8(c2[4]), h5 := Int8(c2[5]), h6 := c2[6], h7 := Int8(c2[7]),
      gh1 := Int8(c2[14]), gh2 := Bme280.SignedWord(c2[13], c2[12]), gh3 := Int8(c2[15]))
  }

  /** H1 takes the low nibble of the shared byte and H2 its high nibble; both stay below 4096. */
  lemma HumidityNibbles(e1: byte, e2: byte, e3: byte)
    ensures e3 * 16 + e2 % 16 < 4096 && e1 * 16 + e2 / 16 < 4096
    ensures (e3 * 16 + e2 % 16) / 16 == e3 && (e3 * 16 + e2 % 16) % 16 == e2 % 16
    ensures (e1 * 16 + e2 / 16) / 16 == e1 && (e1 * 16 + e2 / 16) % 16 == e2 / 16
  {
    DivUnique(e3 * 16 + e2 % 16, 16, e3, e2 % 16);
    DivUnique(e1 * 16 + e2 / 16, 16, e1, e2 / 16);
  }

  /** `res_heat_range = (reg 0x02 >> 4) & 0x03` */
  function HeatRange(reg: byte): (r: nat)
    ensures r <= 3
  {
    (reg / 16) % 4
  }

  /** `range_sw_err = ((int8_t)reg 0x04) / 16`, a C division that truncates toward zero. */
  function SwitchingError(reg: byte): (e: int)
    ensures -8 <= e <= 7
    ensures reg < 0x80 ==> e == reg / 16
  {
    CDivMeaning(Int8(reg), 16);
    CDiv(Int8(reg), 16)
  }

  /** The heater target actually used: at most 400 degrees Celsius. */
  function HeaterTarget(targetC: u16): (t: nat)
    ensures t <= MaxHeaterTemp && (t == targetC <==> targetC <= MaxHeaterTemp)
  {
    if targetC > MaxHeaterTemp then MaxHeaterTemp else targetC
  }

  /**
   * `BME680_CalcHeaterRes`: the `res_heat` code for a target, from the calibration and the last
   * ambient temperature (hundredths of a degree), truncated to 8 bits.
   */
  function HeaterRes(c: Calib, ambientX100: int, targetC: u16): byte
  {
    HeaterResCode(c, ambientX100, HeaterTarget(targetC), 2)
  }

  /**
   * The heater resistance arithmetic for a target already clamped. The arithmetic sits under a
   * `depth` that is counted down first, so that the verifier does not expand it where only the
   * code's identity matters.
   */
  function HeaterResCode(c: Calib, ambientX100: int, target: nat, depth: nat): byte
  {
    if depth > 0 then HeaterResCode(c, ambientX100, target, depth - 1)
    else
      var var1 := CDiv(c.gh1 * 1000, 16);
      var var2 := CDiv((c.gh2 + CDiv(c.gh3 * ambientX100, 1000)) * 1000, 256000);
      var var3 := target * 1000 - ambientX100 * 10;
      var var4 := c.resHeatVal * 10000 + var1 + CDiv(var2 * var3, 10);
      var var5 := CDiv(var4, (4 * c.resHeatRange + 1) * 256);
      CDiv(var5 * 31 + 50, 100) % 0x100
  }

  /** Every target above 400 degrees gives the code of 400 degrees. */
  lemma HeaterResClamped(c: Calib, ambientX100: int, targetC: u16)
    requires targetC >= MaxHeaterTemp
    ensures HeaterRes(c, ambientX100, targetC) == HeaterRes(c, ambientX100, MaxHeaterTemp as u16)
  {
    assert HeaterTarget(targetC) == HeaterTarget(MaxHeaterTemp as u16);
  }

  /** 4 to the power `f`. */
  function Pow4(f: nat): (p: nat)
    ensures p >= 1
  {
    if f == 0 then 1 else 4 * Pow4(f - 1)
  }

  /**
   * The `gas_wait` code for a duration in milliseconds: six bits of mantissa and two of a
   * multiplier 4^f, chosen as the smallest multiplier whose mantissa fits; 0xFF (the longest) from
   * 0xFC0 ms on.
   */
  function HeaterDur(durationMs: u16): (code: byte)
  {
    if durationMs >= MaxHeaterDuration then 0xFF
    else if durationMs <= 0x3F then durationMs
    else if durationMs < 0x100 then durationMs / 4 + 64
    else if durationMs < 0x400 then durationMs / 16 + 128
    else durationMs / 64 + 192
  }

  /** The shift-and-count loop from a step `f` on: divide by four until the value fits 6 bits. */
  function Encode(d: nat, f: nat): nat
    decreases d
  {
    if d <= 0x3F then d + 64 * f else Encode(d / 4, f + 1)
  }

  /** Below 0xFC0 the loop takes at most three steps and gives the code. */
  lemma {:induction false} EncodeSteps(d: u16)
    requires d < MaxHeaterDuration
    ensures Encode(d, 0) == HeaterDur(d)
  {
    if d > 0x3F {
      if d / 4 > 0x3F {
        DivUnique(d, 16, (d / 4) / 4, (d / 4) % 4 * 4 + d % 4);
        if d / 16 > 0x3F {
          DivUnique(d, 64, (d / 16) / 4, (d / 16) % 4 * 16 + d % 16);
          assert Encode(d / 16, 2) == Encode(d / 64, 3);
        }
        assert Encode(d / 4, 1) == Encode(d / 16, 2);
      }
    }
  }

  /** The wait a `gas_wait` code stands for: mantissa times 4 to the multiplier. */
  function DecodeDur(code: byte): nat
  {
    (code % 64) * Pow4(code / 64)
  }

  /**
   * The code never asks for a longer wait than requested; below 0xFC0 ms it is the longest wait
   * its multiplier can express, within one mantissa step of the request, and exact up to 63 ms.
   */
  lemma HeaterDurMeaning(durationMs: u16)
    ensures DecodeDur(HeaterDur(durationMs)) <= durationMs
    ensures durationMs < MaxHeaterDuration ==>
      durationMs < DecodeDur(HeaterDur(durationMs)) + Pow4(HeaterDur(durationMs) / 64)
    ensures durationMs <= 0x3F ==> HeaterDur(durationMs) == durationMs
  {
    var d := durationMs;
    var code := HeaterDur(d);
    assert Pow4(1) == 4 && Pow4(2) == 16 && Pow4(3) == 64;
    if d < MaxHeaterDuration {
      if d <= 0x3F {
      } else if d < 0x100 {
        DivUnique(code, 64, 1, d / 4);
      } else if d < 0x400 {
        DivUnique(code, 64, 2, d / 16);
      } else {
        DivUnique(code, 64, 3, d / 64);
      }
    } else {
      DivUnique(0xFF, 64, 3, 63);
    }
  }

  /** `BME680_CalcHeaterDur`: the shift-and-count loop. */
  method CalcHeaterDur(durationMs: u16) returns (dur: byte)
    ensures dur == HeaterDur(durationMs)
  {
    if durationMs >= 0xFC0 {
      dur := 0xFF;
    } else {
      EncodeSteps(durationMs);
      var d: nat := durationMs;
      var factor: nat := 0;
      while d > 0x3F
        invariant Encode(d, factor) == Encode(durationMs, 0)
        decreases d
      {
        d := d / 4;
        factor := factor + 1;
      }
      dur := d + factor * 64;
    }
  }

  /** `ctrl_gas_1` with the heater profile selected: `(old & 0xF0) | (profile & 0x0F)`. */
  function ProfileBits(ctrlGas1: byte, profile: byte): byte
  {
    (ctrlGas1 / 16) * 16 + profile % 16
  }

  /** `ctrl_gas_1` with `run_gas` (bit 4) set or cleared. */
  function GasRunBits(ctrlGas1: byte, enable: bool): byte
  {
    (ctrlGas1 / 32) * 32 + (if enable then 16 else 0) + ctrlGas1 % 16
  }

  /**
   * Both edits are read-modify-writes: selecting a profile keeps the upper nibble and puts the
   * profile in the lower one; switching the gas run sets bit 4 as asked and keeps every other bit.
   */
  lemma ControlEditsKeepOtherBits(ctrlGas1: byte, profile: byte, enable: bool)
    ensures ProfileBits(ctrlGas1, profile) / 16 == ctrlGas1 / 16
    ensures ProfileBits(ctrlGas1, profile) % 16 == profile % 16
    ensures GasRunBits(ctrlGas1, enable) / 32 == ctrlGas1 / 32
    ensures GasRunBits(ctrlGas1, enable) % 16 == ctrlGas1 % 16
    ensures (GasRunBits(ctrlGas1, enable) / 16) % 2 == if enable then 1 else 0
    ensures (enable <==> (ctrlGas1 / 16) % 2 == 1) ==> GasRunBits(ctrlGas1, enable) == ctrlGas1
  {
    var g := GasRunBits(ctrlGas1, enable);
    var bit := if enable then 1 else 0;
    DivUnique(ProfileBits(ctrlGas1, profile), 16, ctrlGas1 / 16, profile % 16);
    DivUnique(g, 32, ctrlGas1 / 32, bit * 16 + ctrlGas1 % 16);
    DivUnique(g, 16, (ctrlGas1 / 32) * 2 + bit, ctrlGas1 % 16);
    DivUnique((ctrlGas1 / 32) * 2 + bit, 2, ctrlGas1 / 32, bit);
    DivUnique(ctrlGas1 / 16, 2, ctrlGas1 / 32, (ctrlGas1 / 16) % 2);
    DivUnique(ctrlGas1, 16, ctrlGas1 / 16, ctrlGas1 % 16);
  }

  /** `t_fine` of `BME680_CompensateTemp`; arithmetic shifts are floor divisions. */
  function TFine(c: Calib, adcT: int): int
  {
    var var1 := adcT / 8 - c.t1 * 2;
    var var2 := (var1 * c.t2) / 2048;
    var var3 := ((var1 / 2) * (var1 / 2)) / 4096;
    var2 + (var3 * (c.t3 * 16)) / 16384
  }

  /** The humidity of `BME680_CompensateHum` before the clamp, in thousandths of a percent. */
  function HumidityUnclamped(c: Calib, tFine: int, adcH: int): int
  {
    var ts := Bme280.TemperatureOf(tFine);
    var var1 := (adcH - c.h1 * 16) - CDiv(ts * c.h3, 100) / 2;
    var var2 := (c.h2 * (CDiv(ts * c.h4, 100) + CDiv((ts * CDiv(ts * c.h5, 100)) / 64, 100) + 16384)) / 1024;
    var var3 := var1 * var2;
    var var4 := (c.h6 * 128 + CDiv(ts * c.h7, 100)) / 16;
    var var5 := ((var3 / 16384) * (var3 / 16384)) / 1024;
    var var6 := (var4 * var5) / 2;
    (((var3 + var6) / 1024) * 1000) / 4096
  }

  /** `BME680_CompensateHum`: the humidity clamped to 0..100000 (0 to 100 %RH). */
  function HumidityOf(c: Calib, tFine: int, adcH: int): (h: u32)
    ensures h <= HumidityCeiling
    ensures 0 <= HumidityUnclamped(c, tFine, adcH) <= HumidityCeiling ==> h == HumidityUnclamped(c, tFine, adcH)
    ensures HumidityUnclamped(c, tFine, adcH) > HumidityCeiling ==> h == HumidityCeiling
    ensures HumidityUnclamped(c, tFine, adcH) < 0 ==> h == 0
  {
    var v := HumidityUnclamped(c, tFine, adcH);
    if v > HumidityCeiling then HumidityCeiling else if v < 0 then 0 else v
  }

  /** The 10-bit gas reading: `(b13 << 2) | (b14 >> 6)`. */
  function GasAdc(msb: byte, lsb: byte): nat
  {
    msb * 4 + lsb / 64
  }

  /** The gas reading keeps all eight bits of its first byte and the top two of its second. */
  lemma GasAdcFields(msb: byte, lsb: byte)
    ensures GasAdc(msb, lsb) < 1024
    ensures GasAdc(msb, lsb) / 4 == msb && GasAdc(msb, lsb) % 4 == lsb / 64
  {
    DivUnique(GasAdc(msb, lsb), 4, msb, lsb / 64);
  }

  /** `BME680_IsMeasuring`: bit 5 of the status register; a failed read reports not measuring. */
  method IsMeasuring(status: Option<byte>) returns (busy: bool)
    ensures busy <==> status.Some? && (status.value / 32) % 2 == 1
  {
    if status.None? {
      return false;
    }
    var bits := status.value as bv8;
    busy := bits & 0x20 != 0;
    assert busy <==> (bits >> 5) & 1 == 1;
  }

  /** Every write of the default configuration was acknowledged and `ctrl_gas_1` was read. */
  predicate DefaultsAcked(acks: seq<bool>, ctrlGas1: Option<byte>)
  {
    AllAcked(acks, 3) && Ack(acks, 3) && Ack(acks, 4) && ctrlGas1.Some? && Ack(acks, 5)
  }

  /** The six writes of the default configuration and heater profile 0, in order. */
  function DefaultWrites(c: Calib, ambientX100: int, ctrlGas1: byte): seq<(byte, byte)>
  {
    [(RegCtrlHum, Bme280.CtrlHum(Os1x)), (RegConfig, Bme280.ConfigByte(0, Filter16)),
      (RegCtrlMeas, Bme280.CtrlMeas(Os2x, Os16x, ModeSleep))] +
    HeaterWrites(c, ambientX100, DefaultHeaterTemp, DefaultHeaterDuration, HeaterProfile0, ctrlGas1)
  }

  /** The three writes that set up a heater profile, in order. */
  function HeaterWrites(c: Calib, ambientX100: int, targetC: u16, durationMs: u16, profile: byte, ctrlGas1: byte)
    : seq<(byte, byte)>
  {
    [((RegResHeat0 + profile) % 0x100, HeaterRes(c, ambientX100, targetC)),
      ((RegGasWait0 + profile) % 0x100, HeaterDur(durationMs)), (RegCtrlGas1, ProfileBits(ctrlGas1, profile))]
  }

  /**
   * The writes `ConfigureGasHeater` puts on the bus: the resistance code always, the wait code once
   * the first write is acknowledged, and the profile bits once the second is and `ctrl_gas_1` was read.
   */
  function HeaterMade(c: Calib, ambientX100: int, targetC: u16, durationMs: u16, profile: byte, ctrlGas1: Option<byte>,
                      acks: seq<bool>): seq<(byte, byte)>
  {
    var all := HeaterWrites(c, ambientX100, targetC, durationMs, profile, if ctrlGas1.Some? then ctrlGas1.value else 0);
    if !Ack(acks, 0) then all[..1] else if !Ack(acks, 1) || ctrlGas1.None? then all[..2] else all
  }

  /**
   * The writes of the default configuration and heater profile 0 as they reach the bus: a
   * non-empty prefix of the six, ending at the first failure, and all six when everything succeeds.
   */
  function DefaultsMade(c: Calib, ambientX100: int, ctrlGas1: Option<byte>, acks: seq<bool>): (r: seq<(byte, byte)>)
    ensures 0 < |r| <= 6
    ensures ctrlGas1.Some? ==> r == DefaultWrites(c, ambientX100, ctrlGas1.value)[..|r|]
    ensures DefaultsAcked(acks, ctrlGas1) ==> r == DefaultWrites(c, ambientX100, ctrlGas1.value)
    ensures !AllAcked(acks, 3) ==> |r| <= 3
  {
    var config := [(RegCtrlHum, Bme280.CtrlHum(Os1x)), (RegConfig, Bme280.ConfigByte(0, Filter16)),
      (RegCtrlMeas, Bme280.CtrlMeas(Os2x, Os16x, ModeSleep))];
    if AllAcked(acks, 3) then
      assert Ack(acks, 2);
      config + HeaterMade(c, ambientX100, DefaultHeaterTemp, DefaultHeaterDuration, HeaterProfile0, ctrlGas1, acks[3..])
    else Attempted(config, acks)
  }

  /**
   * The calibration `ReadCalibration` leaves behind: the fields of each read stored as it succeeds,
   * up to the first read that fails.
   */
  function CalibrationRead(cal: Calib, c1: Option<seq<byte>>, c2: Option<seq<byte>>, reg02: Option<byte>,
                           reg00: Option<byte>, reg04: Option<byte>): Calib
    requires c1.Some? ==> |c1.value| == 25
    requires c2.Some? ==> |c2.value| == 16
  {
    if c1.None? || c2.None? then cal
    else
      var blocks := WithCoefficients(cal, c1.value, c2.value);
      if reg02.None? then blocks
      else if reg00.None? then blocks.(resHeatRange := HeatRange(reg02.value))
      else if reg04.None? then blocks.(resHeatRange := HeatRange(reg02.value), resHeatVal := Int8(reg00.value))
      else blocks.(resHeatRange := HeatRange(reg02.value), resHeatVal := Int8(reg00.value),
        rangeSwErr := SwitchingError(reg04.value))
  }

  /** The handle of one BME680. */
  class Sensor {
    const address: byte
    var calib: Calib
    var tFine: int
    var rawTemp: int
    var rawPress: int
    var rawHum: int
    var rawGas: nat
    var gasRange: nat
    var temperature: int
    var pressure: u32
    var humidity: u32
    var gasResistance: u32
    var gasValid: bool
    var heatStable: bool
    /** The (register, value) writes sent to the sensor, in order. */
    ghost var writes: seq<(byte, byte)>

    /** Humidity within 100 %RH and the gas fields within their bit widths. */
    ghost predicate Valid()
      reads this
    {
      humidity <= HumidityCeiling && rawGas < 1024 && gasRange < 16
    }

    /** The field part of `BME680_Init` on a zero-initialised handle. */
    constructor Init(addr: byte, initial: Calib)
      ensures Valid() && address == addr && calib == initial && writes == []
      ensures tFine == 0 && temperature == 0 && !gasValid && !heatStable && gasResistance == 0
    {
      address := addr;
      calib := initial;
      tFine := 0;
      rawTemp, rawPress, rawHum, rawGas, gasRange := 0, 0, 0, 0, 0;
      temperature, pressure, humidity, gasResistance := 0, 0, 0, 0;
      gasValid, heatStable := false, false;
      writes := [];
    }

    /** `BME680_WriteReg` */
    method WriteReg(reg: byte, value: byte, acked: bool) returns (ok: bool)
      modifies this`writes
      ensures ok == acked && writes == old(writes) + [(reg, value)]
    {
      writes := writes + [(reg, value)];
      ok := acked;
    }

    /**
     * The bus part of `BME680_Init`: the chip id must read 0x61; then the soft reset, the
     * calibration, and the defaults of `ApplyDefaults`. `acks[0]` answers the reset, the rest the
     * writes of the defaults.
     */
    method Begin(id: Option<byte>, c1: Option<seq<byte>>, c2: Option<seq<byte>>, reg02: Option<byte>, reg00: Option<byte>,
                 reg04: Option<byte>, ctrlGas1: Option<byte>, acks: seq<bool>)
      returns (ok: bool)
      requires c1.Some? ==> |c1.value| == 25
      requires c2.Some? ==> |c2.value| == 16
      modifies this`writes, this`calib
      ensures id != Some(ChipId) ==> !ok && writes == old(writes) && calib == old(calib)
      ensures ok <==> (id == Some(ChipId) && Ack(acks, 0) && c1.Some? && c2.Some? && reg02.Some? && reg00.Some? &&
        reg04.Some? && DefaultsAcked(acks[1..], ctrlGas1))
      ensures ok ==> calib == WithCoefficients(old(calib), c1.value, c2.value).(resHeatRange := HeatRange(reg02.value),
        resHeatVal := Int8(reg00.value), rangeSwErr := SwitchingError(reg04.value))
      ensures ok ==> writes == old(writes) + [(RegReset, ResetWord)] + DefaultWrites(calib, temperature, ctrlGas1.value)
      ensures calib == if id == Some(ChipId) && Ack(acks, 0) then CalibrationRead(old(calib), c1, c2, reg02, reg00, reg04)
        else old(calib)
      ensures var after := if Ack(acks, 0) && c1.Some? && c2.Some? && reg02.Some? && reg00.Some? && reg04.Some?
          then DefaultsMade(calib, temperature, ctrlGas1, acks[1..]) else [];
        writes == old(writes) + if id == Some(ChipId) then [(RegReset, ResetWord)] + after else []
    {
      if id.None? || id.value != ChipId {
        return false;
      }
      ok := WriteReg(RegReset, ResetWord, Ack(acks, 0));
      if !ok {
        return;
      }
      ok := ReadCalibration(c1, c2, reg02, reg00, reg04);
      if !ok {
        return;
      }
      ok := ApplyDefaults(ctrlGas1, acks[1..]);
    }

    /**
     * The configuration part of `BME680_Init`: temperature x2, pressure x16, humidity x1, filter
     * 16, then heater profile 0 at 300 degrees for 100 ms. `acks[0..3]` answer the configuration
     * and `acks[3..6]` the heater writes.
     */
    method ApplyDefaults(ctrlGas1: Option<byte>, acks: seq<bool>) returns (ok: bool)
      modifies this`writes
      ensures ok <==> DefaultsAcked(acks, ctrlGas1)
      ensures ok ==> writes == old(writes) + DefaultWrites(calib, temperature, ctrlGas1.value)
      ensures writes == old(writes) + DefaultsMade(calib, temperature, ctrlGas1, acks)
    {
      ok := Configure(Os2x, Os16x, Os1x, Filter16, acks);
      if !ok {
        return;
      }
      assert Ack(acks, 0) && Ack(acks, 1) && Ack(acks, 2);
      var heaterAcks := acks[3..];
      assert Ack(heaterAcks, 0) == Ack(acks, 3) && Ack(heaterAcks, 1) == Ack(acks, 4) && Ack(heaterAcks, 2) == Ack(acks, 5);
      ok := ConfigureGasHeater(DefaultHeaterTemp, DefaultHeaterDuration, HeaterProfile0, ctrlGas1, heaterAcks);
      if ok {
        ghost var config := [(RegCtrlHum, Bme280.CtrlHum(Os1x)), (RegConfig, Bme280.ConfigByte(0, Filter16)),
          (RegCtrlMeas, Bme280.CtrlMeas(Os2x, Os16x, ModeSleep))];
        ghost var heater := HeaterWrites(calib, temperature, DefaultHeaterTemp, DefaultHeaterDuration, HeaterProfile0, ctrlGas1.value);
        assert writes == old(writes) + config + heater;
        assert writes == old(writes) + (config + heater);
      }
    }

    /**
     * `BME680_ReadCalibration`: the two coefficient blocks, then the heater range, the heater
     * resistance correction and the switching error, one register each. The fields already
     * unpacked stay in the handle when a later read fails.
     */
    method ReadCalibration(c1: Option<seq<byte>>, c2: Option<seq<byte>>, reg02: Option<byte>, reg00: Option<byte>, reg04: Option<byte>)
      returns (ok: bool)
      requires c1.Some? ==> |c1.value| == 25
      requires c2.Some? ==> |c2.value| == 16
      modifies this`calib
      ensures ok <==> c1.Some? && c2.Some? && reg02.Some? && reg00.Some? && reg04.Some?
      ensures !(c1.Some? && c2.Some?) ==> calib == old(calib)
      ensures c1.Some? && c2.Some? ==>
        var blocks := WithCoefficients(old(calib), c1.value, c2.value);
        calib == if reg02.None? then blocks
          else if reg00.None? then blocks.(resHeatRange := HeatRange(reg02.value))
          else if reg04.None? then blocks.(resHeatRange := HeatRange(reg02.value), resHeatVal := Int8(reg00.value))
          else blocks.(resHeatRange := HeatRange(reg02.value), resHeatVal := Int8(reg00.value),
            rangeSwErr := SwitchingError(reg04.value))
    {
      if c1.None? || c2.None? {
        return false;
      }
      calib := WithCoefficients(calib, c1.value, c2.value);
      if reg02.None? {
        return false;
      }
      calib := calib.(resHeatRange := HeatRange(reg02.value));
      if reg00.None? {
        return false;
      }
      calib := calib.(resHeatVal := Int8(reg00.value));
      if reg04.None? {
        return false;
      }
      calib := calib.(rangeSwErr := SwitchingError(reg04.value));
      ok := true;
    }

    /**
     * `BME680_Configure`: humidity oversampling, the filter, then temperature and pressure
     * oversampling in sleep mode, stopping at the first failed write.
     */
    method Configure(tempOs: byte, pressOs: byte, humOs: byte, filter: byte, acks: seq<bool>) returns (ok: bool)
      modifies this`writes
      ensures ok <==> AllAcked(acks, 3)
      ensures writes == old(writes) + Attempted([(RegCtrlHum, Bme280.CtrlHum(humOs)),
        (RegConfig, Bme280.ConfigByte(0, filter)), (RegCtrlMeas, Bme280.CtrlMeas(tempOs, pressOs, ModeSleep))], acks)
      ensures ok ==> writes == old(writes) + [(RegCtrlHum, Bme280.CtrlHum(humOs)),
        (RegConfig, Bme280.ConfigByte(0, filter)), (RegCtrlMeas, Bme280.CtrlMeas(tempOs, pressOs, ModeSleep))]
    {
      AttemptedThree((RegCtrlHum, Bme280.CtrlHum(humOs)), (RegConfig, Bme280.ConfigByte(0, filter)),
        (RegCtrlMeas, Bme280.CtrlMeas(tempOs, pressOs, ModeSleep)), acks);
      ok := WriteReg(RegCtrlHum, Bme280.CtrlHum(humOs), Ack(acks, 0));
      if !ok {
        return;
      }
      ok := WriteReg(RegConfig, Bme280.ConfigByte(0, filter), Ack(acks, 1));
      if !ok {
        return;
      }
      ok := WriteReg(RegCtrlMeas, Bme280.CtrlMeas(tempOs, pressOs, ModeSleep), Ack(acks, 2));
    }

    /**
     * `BME680_ConfigureGasHeater`: the heater resistance and wait codes of the profile, then the
     * profile selected in `ctrl_gas_1` by a read-modify-write. The register of a profile is the
     * base register plus the profile number, in 8 bits.
     */
    method ConfigureGasHeater(targetC: u16, durationMs: u16, profile: byte, ctrlGas1: Option<byte>, acks: seq<bool>)
      returns (ok: bool)
      modifies this`writes
      ensures ok <==> Ack(acks, 0) && Ack(acks, 1) && ctrlGas1.Some? && Ack(acks, 2)
      ensures !Ack(acks, 0) ==>
        writes == old(writes) + [((RegResHeat0 + profile) % 0x100, HeaterRes(calib, temperature, targetC))]
      ensures Ack(acks, 0) && (!Ack(acks, 1) || ctrlGas1.None?) ==>
        writes == old(writes) + [((RegResHeat0 + profile) % 0x100, HeaterRes(calib, temperature, targetC)),
          ((RegGasWait0 + profile) % 0x100, HeaterDur(durationMs))]
      ensures Ack(acks, 0) && Ack(acks, 1) && ctrlGas1.Some? ==>
        writes == old(writes) + HeaterWrites(calib, temperature, targetC, durationMs, profile, ctrlGas1.value)
      ensures writes == old(writes) + HeaterMade(calib, temperature, targetC, durationMs, profile, ctrlGas1, acks)
    {
      var heatrRes := HeaterRes(calib, temperature, targetC);
      ok := WriteReg((RegResHeat0 + profile) % 0x100, heatrRes, Ack(acks, 0));
      if !ok {
        return;
      }
      var heatrDur := CalcHeaterDur(durationMs);
      ok := WriteReg((RegGasWait0 + profile) % 0x100, heatrDur, Ack(acks, 1));
      if !ok {
        return;
      }
      if ctrlGas1.None? {
        return false;
      }
      ok := WriteReg(RegCtrlGas1, (ctrlGas1.value / 16) * 16 + profile % 16, Ack(acks, 2));
    }

    /**
     * `BME680_TriggerMeasurement`: `run_gas` switched as asked in `ctrl_gas_1`, then forced mode
     * in `ctrl_meas`, each a read-modify-write that stops at the first failure.
     */
    method TriggerMeasurement(enableGas: bool, ctrlGas1: Option<byte>, ctrlMeas: Option<byte>, acks: seq<bool>)
      returns (ok: bool)
      modifies this`writes
      ensures ok <==> ctrlGas1.Some? && Ack(acks, 0) && ctrlMeas.Some? && Ack(acks, 1)
      ensures ctrlGas1.None? ==> writes == old(writes)
      ensures ctrlGas1.Some? ==> (writes == old(writes) + [(RegCtrlGas1, GasRunBits(ctrlGas1.value, enableGas))] +
        if Ack(acks, 0) && ctrlMeas.Some? then [(RegCtrlMeas, Bme280.ForcedMode(ctrlMeas.value))] else [])
    {
      if ctrlGas1.None? {
        return false;
      }
      ok := WriteReg(RegCtrlGas1, GasRunBits(ctrlGas1.value, enableGas), Ack(acks, 0));
      if !ok {
        return;
      }
      if ctrlMeas.None? {
        return false;
      }
      ok := WriteReg(RegCtrlMeas, Bme280.ForcedMode(ctrlMeas.value), Ack(acks, 1));
    }

    /** `BME680_CompensateTemp`: sets `t_fine` and returns the temperature in hundredths of a degree. */
    method CompensateTemp(adcT: int) returns (t: int)
      modifies this`tFine
      ensures tFine == TFine(calib, adcT) && t == Bme280.TemperatureOf(tFine)
    {
      tFine := TFine(calib, adcT);
      t := Bme280.TemperatureOf(tFine);
    }

    /** The raw-value and gas-flag part of `BME680_ReadAll`, from a block whose status is fresh. */
    method StoreRaw(d: seq<byte>)
      requires |d| == 15
      modifies this`rawTemp, this`rawPress, this`rawHum, this`rawGas, this`gasRange, this`gasValid, this`heatStable
      ensures rawPress == Bme280.Raw20(d[2], d[3], d[4]) && rawTemp == Bme280.Raw20(d[5], d[6], d[7])
      ensures rawHum == Word(d[8], d[9]) && rawGas == GasAdc(d[13], d[14]) && gasRange == d[14] % 16
      ensures rawGas < 1024 && gasRange < 16
      ensures (gasValid <==> (d[14] / 32) % 2 == 1) && (heatStable <==> (d[14] / 16) % 2 == 1)
    {
      rawPress := Bme280.Raw20(d[2], d[3], d[4]);
      rawTemp := Bme280.Raw20(d[5], d[6], d[7]);
      rawHum := Word(d[8], d[9]);
      GasAdcFields(d[13], d[14]);
      rawGas := GasAdc(d[13], d[14]);
      gasRange := d[14] % 16;
      gasValid := (d[14] / 32) % 2 == 1;
      heatStable := (d[14] / 16) % 2 == 1;
    }

    /**
     * The compensation part of `BME680_ReadAll`: the temperature first, since it sets `t_fine`,
     * then the pressure (given) and the clamped humidity.
     */
    method Compensate(pressurePa: u32)
      modifies this`tFine, this`temperature, this`pressure, this`humidity
      ensures tFine == TFine(calib, rawTemp) && temperature == Bme280.TemperatureOf(tFine)
      ensures pressure == pressurePa && humidity == HumidityOf(calib, tFine, rawHum)
      ensures humidity <= HumidityCeiling
    {
      temperature := CompensateTemp(rawTemp);
      pressure := pressurePa;
      humidity := HumidityOf(calib, tFine, rawHum);
    }

    /**
     * `BME680_ReadAll`: nothing changes unless the 15-byte block was read and its status byte has
     * `new_data` (bit 7) set. Then the raw fields are split out, the gas flags taken from byte 14
     * (`gas_valid` bit 5, `heat_stab` bit 4), the temperature compensated first, and the gas
     * resistance is 0 unless both flags are set. `pressurePa` and `gasOhms` stand for the results
     * of the pressure and gas compensation.
     */
    method ReadAll(data: Option<seq<byte>>, pressurePa: u32, gasOhms: u32) returns (ok: bool)
      requires data.Some? ==> |data.value| == 15
      requires Valid()
      modifies this`rawTemp, this`rawPress, this`rawHum, this`rawGas, this`gasRange, this`gasValid, this`heatStable
      modifies this`tFine, this`temperature, this`pressure, this`humidity, this`gasResistance
      ensures Valid()
      ensures ok <==> data.Some? && data.value[0] >= 0x80
      ensures !ok ==> (rawTemp == old(rawTemp) && rawPress == old(rawPress) && rawHum == old(rawHum) &&
        rawGas == old(rawGas) && gasRange == old(gasRange) && gasValid == old(gasValid) && heatStable == old(heatStable))
      ensures !ok ==> (tFine == old(tFine) && temperature == old(temperature) && pressure == old(pressure) &&
        humidity == old(humidity) && gasResistance == old(gasResistance))
      ensures ok ==> var d := data.value;
        rawPress == Bme280.Raw20(d[2], d[3], d[4]) && rawTemp == Bme280.Raw20(d[5], d[6], d[7]) &&
        rawHum == Word(d[8], d[9]) && rawGas == GasAdc(d[13], d[14]) && gasRange == d[14] % 16 &&
        (gasValid <==> (d[14] / 32) % 2 == 1) && (heatStable <==> (d[14] / 16) % 2 == 1)
      ensures ok ==> (tFine == TFine(calib, rawTemp) && temperature == Bme280.TemperatureOf(tFine) &&
        pressure == pressurePa && humidity == HumidityOf(calib, tFine, rawHum))
      ensures ok ==> gasResistance == if gasValid && heatStable then gasOhms else 0
    {
      if data.None? {
        return false;
      }
      var d := data.value;
      if d[0] < 0x80 {
        return false;
      }
      StoreRaw(d);
      Compensate(pressurePa);
      gasResistance := if gasValid && heatStable then gasOhms else 0;
      ok := true;
    }

    /** `BME680_GetHumidity_x100`: thousandths to hundredths, at most 100.00 %RH. */
    function GetHumidityX100(): (h: u16)
      requires Valid()
      reads this
      ensures h <= 10000 && h == humidity / 10
    {
      DivMonotone(humidity, HumidityCeiling, 10, 10);
      humidity / 10
    }

    /** `BME680_IsGasValid` */
    predicate IsGasValid()
      reads this
    {
      gasValid && heatStable
    }
  }
}
