/**
 * The application side of the hub: the holding-register store the Modbus slave serves, the ADC
 * conversions, the DIP-switch address, the digital inputs, and the analog outputs driven from
 * register writes. Pin levels, ADC readings and sensor readings are inputs; DAC settings are
 * results.
 */
module SensorHub {
  import opened Wrappers
  import opened Bytes
  import opened Arithmetic

  /** ADC reading at 4 mA and at 20 mA through the 150 ohm shunt (12-bit ADC, 3.3 V reference). */
  const Adc4mA: nat := 745
  const Adc20mA: nat := 3723
  const AdcCurrentSpan: nat := Adc20mA - Adc4mA
  /** ADC reading at 10 V behind the 22k/10k divider. */
  const Adc10V: nat := 3878
  const DacMax: nat := 4095

  const HoldingRegCount: nat := 32
  const RegChannel1: nat := 0
  const RegChannel5: nat := 4
  const RegDiStatus: nat := 8
  const RegHubId: nat := 9
  const RegFwVersion: nat := 10
  const RegAout1: nat := 11
  const RegAout2: nat := 12
  /** "RH" */
  const HubId: u16 := 0x5248
  /** Major 1, minor 0: `(1 << 8) | 0`. */
  const FwVersion: u16 := 0x0100

  /**
   * `SensorHub_ConvertCurrent_mA_x100`: the reading clamped to the 4..20 mA range, then
   * interpolated to hundredths of a milliampere.
   */
  function ConvertCurrent(adc: u16): u16
  {
    var clamped := if adc < Adc4mA then Adc4mA else if adc > Adc20mA then Adc20mA else adc;
    Trunc16(400 + ((clamped - Adc4mA) * 1600) / AdcCurrentSpan)
  }

  /** The current is always within 4.00..20.00 mA, with the end points exact. */
  lemma CurrentRange(adc: u16)
    ensures 400 <= ConvertCurrent(adc) <= 2000
    ensures adc <= Adc4mA ==> ConvertCurrent(adc) == 400
    ensures adc >= Adc20mA ==> ConvertCurrent(adc) == 2000
  {
    var clamped := if adc < Adc4mA then Adc4mA else if adc > Adc20mA then Adc20mA else adc;
    ScaledBounded(clamped - Adc4mA, 1600, AdcCurrentSpan);
  }

  /** A higher reading never gives a lower current. */
  lemma CurrentMonotone(a: u16, b: u16)
    requires a <= b
    ensures ConvertCurrent(a) <= ConvertCurrent(b)
  {
    var ca := if a < Adc4mA then Adc4mA else if a > Adc20mA then Adc20mA else a;
    var cb := if b < Adc4mA then Adc4mA else if b > Adc20mA then Adc20mA else b;
    ScaledBounded(ca - Adc4mA, 1600, AdcCurrentSpan);
    ScaledBounded(cb - Adc4mA, 1600, AdcCurrentSpan);
    ScaleMonotone(ca - Adc4mA, cb - Adc4mA, 1600);
    DivMonotone((ca - Adc4mA) * 1600, (cb - Adc4mA) * 1600, AdcCurrentSpan, AdcCurrentSpan);
  }

  /** `SensorHub_ConvertVoltage_mV`: the reading scaled to millivolts, capped at 10 V. */
  function ConvertVoltage(adc: u16): u16
  {
    var mv := (adc * 10000) / Adc10V;
    Trunc16(if mv > 10000 then 10000 else mv)
  }

  /** The voltage never exceeds 10 V, the 10 V reading gives exactly 10000 mV, and it rises with the reading. */
  lemma VoltageRange(a: u16, b: u16)
    requires a <= b
    ensures ConvertVoltage(a) <= ConvertVoltage(b) <= 10000
    ensures ConvertVoltage(Adc10V) == 10000
    ensures a <= Adc10V ==> ConvertVoltage(a) == (a * 10000) / Adc10V
  {
    ScaleMonotone(a, b, 10000);
    DivMonotone(a * 10000, b * 10000, Adc10V, Adc10V);
    ScaledBounded(Adc10V, 10000, Adc10V);
    if a <= Adc10V {
      ScaledBounded(a, 10000, Adc10V);
    }
  }

  /** A DAC setting: the channel (0 or 1) and the 12-bit code written. */
  datatype DacWrite = DacWrite(channel: nat, code: nat)

  /**
   * `SensorHub_SetAnalogOutput`: nothing without a DAC or for a channel other than 0 and 1;
   * otherwise the value, clamped to 4095, goes to that channel.
   */
  function SetAnalogOutput(dacPresent: bool, channel: byte, value: u16): (w: Option<DacWrite>)
    ensures w.Some? <==> dacPresent && channel <= 1
    ensures w.Some? ==> w.value.channel == channel && w.value.code <= DacMax
    ensures w.Some? ==> (w.value.code == value <==> value <= DacMax)
    ensures w.Some? && value > DacMax ==> w.value.code == DacMax
  {
    if !dacPresent then None
    else
      var code := if value > DacMax then DacMax else value;
      if channel == 0 || channel == 1 then Some(DacWrite(channel, code)) else None
  }

  /** `SensorHub_OnRegisterWrite`: register 11 drives output 0, register 12 output 1. */
  function OnRegisterWrite(dacPresent: bool, reg: u16, value: u16): Option<DacWrite>
  {
    if reg == RegAout1 then SetAnalogOutput(dacPresent, 0, value)
    else if reg == RegAout2 then SetAnalogOutput(dacPresent, 1, value)
    else None
  }

  /** Only writes to registers 11 and 12 reach the DAC, on outputs 0 and 1 respectively. */
  lemma RegisterWriteTargets(dacPresent: bool, reg: u16, value: u16)
    ensures var w := OnRegisterWrite(dacPresent, reg, value);
      (w.Some? <==> dacPresent && (reg == RegAout1 || reg == RegAout2)) &&
      (w.Some? ==> w.value.channel == reg - RegAout1 && w.value.code == (if value > DacMax then DacMax else value))
  {
  }

  /**
   * The 4-bit mask of active-low inputs: bit `i` is set exactly when input `i + 1` reads low
   * (`high` false).
   */
  function ActiveLowMask(high1: bool, high2: bool, high3: bool, high4: bool): (m: nat)
    ensures m < 16
    ensures (m % 2 == 1 <==> !high1) && ((m / 2) % 2 == 1 <==> !high2)
    ensures ((m / 4) % 2 == 1 <==> !high3) && ((m / 8) % 2 == 1 <==> !high4)
    ensures m == 0 <==> high1 && high2 && high3 && high4
    ensures m == 15 <==> !high1 && !high2 && !high3 && !high4
  {
    (if high1 then 0 else 1) + (if high2 then 0 else 2) + (if high3 then 0 else 4) + (if high4 then 0 else 8)
  }

  /** The four `if (... == GPIO_PIN_RESET) mask |= bit;` tests shared by the switch and input readers. */
  method CollectActiveLow(high1: bool, high2: bool, high3: bool, high4: bool) returns (mask: byte)
    ensures mask == ActiveLowMask(high1, high2, high3, high4)
  {
    var bits: bv8 := 0;
    if !high1 {
      bits := bits | 0x01;
    }
    if !high2 {
      bits := bits | 0x02;
    }
    if !high3 {
      bits := bits | 0x04;
    }
    if !high4 {
      bits := bits | 0x08;
    }
    mask := BitsValue(bits, high1, high2, high3, high4);
  }

  /** The value of the OR-ed bits: distinct bits, so the OR is the sum of the bits set. */
  function BitsValue(bits: bv8, high1: bool, high2: bool, high3: bool, high4: bool): (v: byte)
    requires bits == (if high1 then 0 else 1) | (if high2 then 0 else 2) | (if high3 then 0 else 4) | (if high4 then 0 else 8)
    ensures v == ActiveLowMask(high1, high2, high3, high4)
  {
    bits as int
  }

  /**
   * `SensorHub_ReadAddress`: the four DIP switches (closed = low) as a binary number plus one,
   * so the address is 1 with all switches open and 16 with all closed.
   */
  method ReadAddress(sw1High: bool, sw2High: bool, sw3High: bool, sw4High: bool) returns (address: byte)
    ensures 1 <= address <= 16
    ensures address == ActiveLowMask(sw1High, sw2High, sw3High, sw4High) + 1
  {
    var mask := CollectActiveLow(sw1High, sw2High, sw3High, sw4High);
    address := mask + 1;
  }

  /** `SensorHub_ReadDigitalInputs`: bit `i` set exactly when input `i + 1` reads low. */
  method ReadDigitalInputs(di1High: bool, di2High: bool, di3High: bool, di4High: bool) returns (inputs: byte)
    ensures inputs <= 0x0F
    ensures inputs == ActiveLowMask(di1High, di2High, di3High, di4High)
  {
    inputs := CollectActiveLow(di1High, di2High, di3High, di4High);
  }

  /** One BME280's contribution to an update: `None` when absent or its read failed. */
  datatype ClimateReading = ClimateReading(temperatureX100: int, humidityX100: u16)

  /** The register store of the hub and the presence of its two BME280 sensors. */
  class Hub {
    /** `holding_registers`: the array the Modbus slave serves. */
    const regs: array<u16>
    var bme1Present: bool
    var bme2Present: bool

    ghost predicate Valid()
      reads this
    {
      regs.Length == HoldingRegCount
    }

    /**
     * `SensorHub_Init`: every register cleared, then the hub id and firmware version set; each
     * BME280 is present when it answered at either address.
     */
    constructor Init(bme1Found: bool, bme2Found: bool)
      ensures Valid() && fresh(regs)
      ensures forall i :: 0 <= i < HoldingRegCount ==>
        regs[i] == (if i == RegHubId then HubId else if i == RegFwVersion then FwVersion else 0)
      ensures bme1Present == bme1Found && bme2Present == bme2Found
    {
      var a := new u16[HoldingRegCount];
      var i := 0;
      while i < HoldingRegCount
        invariant 0 <= i <= HoldingRegCount
        invariant forall j :: 0 <= j < i ==> a[j] == 0
      {
        a[i] := 0;
        i := i + 1;
      }
      a[RegHubId] := HubId;
      a[RegFwVersion] := FwVersion;
      regs := a;
      bme1Present := bme1Found;
      bme2Present := bme2Found;
    }

    /**
     * `SensorHub_Update`: the four ADC readings into registers 0..3, each present BME280 whose
     * read succeeded into its temperature/humidity pair (temperature truncated to 16 bits),
     * the digital inputs into register 8. Registers 9 and above are never touched.
     */
    method Update(adc: seq<u16>, climate1: Option<ClimateReading>, climate2: Option<ClimateReading>, inputs: byte)
      requires Valid() && |adc| == 4
      modifies regs
      ensures forall i :: 0 <= i < 4 ==> regs[RegChannel1 + i] == adc[i]
      ensures bme1Present && climate1.Some? ==>
        regs[4] == Trunc16(climate1.value.temperatureX100) && regs[5] == climate1.value.humidityX100
      ensures !(bme1Present && climate1.Some?) ==> regs[4] == old(regs[4]) && regs[5] == old(regs[5])
      ensures bme2Present && climate2.Some? ==>
        regs[6] == Trunc16(climate2.value.temperatureX100) && regs[7] == climate2.value.humidityX100
      ensures !(bme2Present && climate2.Some?) ==> regs[6] == old(regs[6]) && regs[7] == old(regs[7])
      ensures regs[RegDiStatus] == inputs
      ensures forall i :: RegHubId <= i < HoldingRegCount ==> regs[i] == old(regs[i])
    {
      regs[0] := adc[0];
      regs[1] := adc[1];
      regs[2] := adc[2];
      regs[3] := adc[3];
      if bme1Present {
        if climate1.Some? {
          regs[4] := Trunc16(climate1.value.temperatureX100);
          regs[5] := climate1.value.humidityX100;
        }
      }
      if bme2Present {
        if climate2.Some? {
          regs[6] := Trunc16(climate2.value.temperatureX100);
          regs[7] := climate2.value.humidityX100;
        }
      }
      regs[RegDiStatus] := inputs;
    }
  }
}
