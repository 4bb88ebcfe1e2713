/**
 * The BH1750 ambient-light driver: the handle's mode, measurement-time register (MTreg) and last
 * reading, and the one-byte commands it writes on the I2C bus. Whether the sensor acknowledges
 * each write is an input (`acks[i]` for the i-th write of the call; a missing entry is a failed
 * write); the commands written are kept in a ghost log.
 */
module Bh1750 {
  import opened Wrappers
  import opened Bytes
  import opened Arithmetic
  import opened Bus

  const PowerDown: byte := 0x00
  const PowerOn: byte := 0x01
  const Reset: byte := 0x07
  const ContHRes: byte := 0x10
  const ContHRes2: byte := 0x11
  const ContLRes: byte := 0x13
  const OneHRes: byte := 0x20
  const OneHRes2: byte := 0x21
  const OneLRes: byte := 0x23
  const MtRegDefault: byte := 69
  const MtRegMin: byte := 31
  const MtRegMax: byte := 254

  /** The first MTreg command, `0x40 | (mt >> 5)`: the fields do not overlap, so the OR is a sum. */
  function MtHighCommand(mt: byte): byte
  {
    0x40 + mt / 32
  }

  /** The second MTreg command, `0x60 | (mt & 0x1F)`. */
  function MtLowCommand(mt: byte): byte
  {
    0x60 + mt % 32
  }

  /**
   * The two commands carry the whole register value: their opcodes are fixed (0x40..0x47 and
   * 0x60..0x7F) and their payload bits put back together give `mt`.
   */
  lemma MtCommandsCarryValue(mt: byte)
    ensures 0x40 <= MtHighCommand(mt) <= 0x47 && 0x60 <= MtLowCommand(mt) <= 0x7F
    ensures (MtHighCommand(mt) - 0x40) * 32 + (MtLowCommand(mt) - 0x60) == mt
  {
  }

  /** The one-time mode `TriggerMeasurement` sends: each continuous mode's one-shot twin. */
  function OneShotMode(mode: byte): (cmd: byte)
    ensures mode == ContHRes ==> cmd == OneHRes
    ensures mode == ContHRes2 ==> cmd == OneHRes2
    ensures mode == ContLRes ==> cmd == OneLRes
    ensures mode != ContHRes && mode != ContHRes2 && mode != ContLRes ==> cmd == mode
  {
    match mode
    case 0x10 => OneHRes
    case 0x11 => OneHRes2
    case 0x13 => OneLRes
    case _ => mode
  }

  /** Triggering twice sends the same command: one-shot modes are left as they are. */
  lemma OneShotIdempotent(mode: byte)
    ensures OneShotMode(OneShotMode(mode)) == OneShotMode(mode)
  {
  }

  /** Either H-resolution mode 2, whose counts are half a lux. */
  predicate HalfLuxMode(mode: byte)
  {
    mode == ContHRes2 || mode == OneHRes2
  }

  /** The reading in hundredths of a lux: `raw * 5750 / mtreg`, halved in mode 2. */
  function LuxX100(raw: u16, mtreg: byte, mode: byte): nat
    requires mtreg > 0
  {
    var lux := (raw * 5750) / mtreg;
    if HalfLuxMode(mode) then lux / 2 else lux
  }

  /**
   * At the default MTreg the reading is `raw / 1.2` lux, in hundredths and rounded down; in any
   * mode it grows with the count and shrinks with the MTreg, and it fits 32 bits.
   */
  lemma LuxScale(raw: u16, raw': u16, mtreg: byte, mtreg': byte, mode: byte)
    requires 0 < mtreg <= mtreg' && raw <= raw'
    ensures mtreg == MtRegDefault && !HalfLuxMode(mode) ==> LuxX100(raw, mtreg, mode) == (raw * 250) / 3
    ensures LuxX100(raw, mtreg', mode) <= LuxX100(raw', mtreg, mode)
    ensures LuxX100(raw', mtreg, mode) < 0x1_0000_0000
  {
    ScaleMonotone(raw, raw', 5750);
    DivMonotone(raw * 5750, raw' * 5750, mtreg, mtreg');
    DivMonotone(raw * 5750 / mtreg', raw' * 5750 / mtreg, 2, 2);
    DivMonotone(raw' * 5750, 0xFFFF * 5750, 1, mtreg);
    if mtreg == MtRegDefault {
      CancelFactor(raw * 250, 3, 23);
    }
  }

  /** The handle of one BH1750. */
  class Sensor {
    const address: byte
    var mode: byte
    var mtreg: byte
    var rawValue: u16
    var luxX100: nat
    /** The commands written to the sensor, in order. */
    ghost var sent: seq<byte>

    /** The MTreg is always within the sensor's range, so the lux division is defined. */
    ghost predicate Valid()
      reads this
    {
      MtRegMin <= mtreg <= MtRegMax
    }

    /** The field part of `BH1750_Init`: continuous H-resolution, the default MTreg, no reading. */
    constructor Init(addr: byte)
      ensures Valid()
      ensures address == addr && mode == ContHRes && mtreg == MtRegDefault
      ensures rawValue == 0 && luxX100 == 0 && sent == []
    {
      address := addr;
      mode := ContHRes;
      mtreg := MtRegDefault;
      rawValue := 0;
      luxX100 := 0;
      sent := [];
    }

    /** One command byte on the bus. */
    method WriteCmd(cmd: byte, acked: bool) returns (ok: bool)
      modifies this`sent
      ensures sent == old(sent) + [cmd] && ok == acked
    {
      sent := sent + [cmd];
      ok := acked;
    }

    /** `BH1750_Reset`: the reset command alone. */
    method ResetRegister(acked: bool) returns (ok: bool)
      modifies this`sent
      ensures sent == old(sent) + [Reset] && ok == acked
    {
      ok := WriteCmd(Reset, acked);
    }

    /** `BH1750_PowerOn`: the power-on command alone. */
    method PowerUp(acked: bool) returns (ok: bool)
      modifies this`sent
      ensures sent == old(sent) + [PowerOn] && ok == acked
    {
      ok := WriteCmd(PowerOn, acked);
    }

    /** `BH1750_PowerDown`: the power-down command alone; the stored mode is kept. */
    method PowerOff(acked: bool) returns (ok: bool)
      modifies this`sent
      ensures sent == old(sent) + [PowerDown] && ok == acked
    {
      ok := WriteCmd(PowerDown, acked);
    }

    /** The bus part of `BH1750_Init`: power on, reset, continuous H-resolution, stopping at the first failure. */
    method Start(acks: seq<bool>) returns (ok: bool)
      requires Valid()
      modifies this`sent, this`mode
      ensures Valid()
      ensures ok <==> AllAcked(acks, 3)
      ensures sent == old(sent) + Attempted([PowerOn, Reset, ContHRes], acks)
      ensures mode == (if ok then ContHRes else old(mode))
    {
      AttemptedThree(PowerOn, Reset, ContHRes, acks);
      ok := PowerUp(Ack(acks, 0));
      if !ok {
        return;
      }
      ok := ResetRegister(Ack(acks, 1));
      if !ok {
        return;
      }
      ok := SetMode(ContHRes, Ack(acks, 2));
    }

    /** `BH1750_SetMode`: the mode is stored only when the sensor acknowledged it. */
    method SetMode(newMode: byte, acked: bool) returns (ok: bool)
      modifies this`sent, this`mode
      ensures ok == acked && sent == old(sent) + [newMode]
      ensures mode == (if ok then newMode else old(mode))
    {
      ok := WriteCmd(newMode, acked);
      if ok {
        mode := newMode;
      }
    }

    /**
     * `BH1750_SetMTReg`: a value outside 31..254 is refused with nothing sent; otherwise the two
     * MTreg commands, then the current mode again. The MTreg is stored once both commands were
     * acknowledged.
     */
    method SetMTReg(mt: byte, acks: seq<bool>) returns (ok: bool)
      requires Valid()
      modifies this`sent, this`mtreg, this`mode
      ensures Valid() && mode == old(mode)
      ensures !(MtRegMin <= mt <= MtRegMax) ==> !ok && sent == old(sent) && mtreg == old(mtreg)
      ensures MtRegMin <= mt <= MtRegMax ==>
        sent == old(sent) + Attempted([MtHighCommand(mt), MtLowCommand(mt), old(mode)], acks) &&
        mtreg == (if AllAcked(acks, 2) then mt else old(mtreg)) &&
        (ok <==> AllAcked(acks, 3))
    {
      if mt < MtRegMin || mt > MtRegMax {
        return false;
      }
      AttemptedThree(MtHighCommand(mt), MtLowCommand(mt), mode, acks);
      ok := WriteCmd(MtHighCommand(mt), Ack(acks, 0));
      if !ok {
        return;
      }
      ok := WriteCmd(MtLowCommand(mt), Ack(acks, 1));
      if !ok {
        return;
      }
      mtreg := mt;
      ok := SetMode(mode, Ack(acks, 2));
    }

    /** `BH1750_TriggerMeasurement`: a continuous mode is sent as its one-time twin. */
    method TriggerMeasurement(acked: bool) returns (ok: bool)
      modifies this`sent
      ensures ok == acked && sent == old(sent) + [OneShotMode(mode)]
    {
      var cmd := OneShotMode(mode);
      ok := WriteCmd(cmd, acked);
    }

    /**
     * `BH1750_ReadLight`: on a failed read nothing changes; otherwise the big-endian count is
     * stored and converted to hundredths of a lux with the current MTreg and mode.
     */
    method ReadLight(reply: Option<(byte, byte)>) returns (ok: bool)
      requires Valid()
      modifies this`rawValue, this`luxX100
      ensures ok <==> reply.Some?
      ensures !ok ==> rawValue == old(rawValue) && luxX100 == old(luxX100)
      ensures ok ==> (rawValue == Word(reply.value.0, reply.value.1) &&
        luxX100 == LuxX100(rawValue, mtreg, mode) && luxX100 < 0x1_0000_0000)
    {
      if reply.None? {
        return false;
      }
      var raw := Word(reply.value.0, reply.value.1);
      var lux := (raw * 5750) / mtreg;
      if mode == ContHRes2 || mode == OneHRes2 {
        lux := lux / 2;
      }
      assert lux == LuxX100(raw, mtreg, mode);
      LuxScale(raw, raw, mtreg, mtreg, mode);
      rawValue := raw;
      luxX100 := lux;
      ok := true;
    }

    /** `BH1750_GetLux` as written: whole lux, cast to 16 bits. */
    function GetLux(): (lux: u16)
      reads this
      ensures luxX100 / 100 < 0x10000 ==> lux == luxX100 / 100
      ensures (luxX100 / 100 - lux) % 0x10000 == 0
    {
      Trunc16(luxX100 / 100)
    }

    /** Whole lux, saturating at the largest 16-bit value instead of wrapping. */
    function GetLuxSaturating(): (lux: u16)
      reads this
      ensures lux <= luxX100 / 100
      ensures lux < 0xFFFF ==> lux == luxX100 / 100
      ensures luxX100 / 100 >= 0xFFFF ==> lux == 0xFFFF
    {
      var whole := luxX100 / 100;
      if whole < 0x10000 then whole else 0xFFFF
    }
  }

  /**
   * With the smallest MTreg a full-scale count is 121556 lux, which `GetLux` reports as 56020:
   * the cast wraps instead of saturating.
   */
  lemma GetLuxWraps(s: Sensor)
    requires s.mtreg == MtRegMin && s.mode == ContHRes && s.luxX100 == LuxX100(0xFFFF, MtRegMin, ContHRes)
    ensures s.luxX100 / 100 == 121556
    ensures s.GetLux() == 56020 && s.GetLuxSaturating() == 0xFFFF
  {
  }

  /** The saturating reading never decreases as the light grows, unlike the wrapping one. */
  lemma SaturatingMonotone(s: Sensor, t: Sensor)
    requires s.luxX100 <= t.luxX100
    ensures s.GetLuxSaturating() <= t.GetLuxSaturating()
  {
    DivMonotone(s.luxX100, t.luxX100, 100, 100);
  }
}
