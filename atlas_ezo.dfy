/**
 * The Atlas Scientific EZO driver (pH, EC, ORP, DO and RTD circuits on I2C): the handle with its
 * 32-byte response buffer, the copy of a reply into it, the parsing of readings and of the
 * answers to queries, and the command texts. Whether the circuit acknowledges a command, whether
 * the read of its answer succeeds and the 32 bytes it answers with are inputs; the commands sent
 * are kept in a ghost log. The waits between command and answer are left out.
 */
module AtlasEzo {
  import opened Wrappers
  import opened Bytes
  import opened AtlasText

  const PhAddress: byte := 0x63
  const EcAddress: byte := 0x64
  const OrpAddress: byte := 0x62
  const DoAddress: byte := 0x61
  const RtdAddress: byte := 0x66

  /** The first byte of an answer. */
  const Success: byte := 1
  const Failed: byte := 2
  const Pending: byte := 254
  const NoData: byte := 255

  /** The size of an answer and of the response buffer. */
  const ResponseSize: nat := 32

  datatype SensorType = PH | EC | ORP | DO | RTD

  function Abs(x: int): nat
  {
    if x < 0 then -x else x
  }

  // ---------------------------------------------------------------- readings

  /** How many thousandths of a parsed reading make one unit of the value the handle keeps. */
  function Divisor(kind: SensorType): (d: nat)
    ensures d == 1 || d == 10 || d == 1000
  {
    match kind
    case PH => 1
    case EC => 1000
    case ORP => 1000
    case DO => 10
    case RTD => 10
  }

  /**
   * The reading of a circuit from its parsed value in thousandths: pH stays in thousandths, EC
   * and ORP become whole units, DO and temperature hundredths. The division truncates toward
   * zero, so the result has the sign of the input and is off by less than one unit.
   */
  function Scaled(kind: SensorType, x: int): (r: int)
    ensures kind == PH ==> r == x
    ensures x >= 0 ==> r == x / Divisor(kind)
    ensures Abs(r) == Abs(x) / Divisor(kind)
    ensures x >= 0 ==> r >= 0
    ensures x <= 0 ==> r <= 0
  {
    CDiv(x, Divisor(kind))
  }

  /** The value `ParseResponse` stores from the text of an answer: its first number, scaled. */
  function Reading(kind: SensorType, t: string): int
  {
    Scaled(kind, ParseX1000(t))
  }

  /** The number that starts just after the (k+1)-th comma of a reply, if it has that many. */
  function FieldValue(t: string, k: nat): (r: Option<int>)
    ensures r.Some? <==> AfterComma(t, k).Some?
  {
    var p := AfterComma(t, k);
    if p.Some? then Some(ParseX1000(t[p.value..])) else None
  }

  /**
   * An EC extra (TDS, salinity or specific gravity) from field k+1 of a reply, divided and cast to
   * 32 bits; when the reply has no such field the previous value is kept.
   */
  function ExtraField(t: string, k: nat, divisor: nat, prev: u32): (r: u32)
    requires divisor > 0
    ensures FieldValue(t, k).None? ==> r == prev
  {
    var v := FieldValue(t, k);
    if v.Some? then Trunc32(CDiv(v.value, divisor)) else prev
  }

  /** A field exists exactly when the reply has more commas than fields before it. */
  lemma FieldPresent(t: string, k: nat)
    ensures FieldValue(t, k).Some? <==> Commas(t, 0, |t|) > k
  {
    AfterCommaCounts(t, k);
    if AfterComma(t, k).Some? {
      CommasSplit(t, 0, AfterComma(t, k).value, |t|);
    }
  }

  /** The fields of a reply stop at the first one that is missing. */
  lemma FieldsStop(t: string, k: nat)
    ensures FieldValue(t, k).None? ==> FieldValue(t, k + 1).None?
  {
    FieldPresent(t, k);
    FieldPresent(t, k + 1);
  }

  /** A text with none of the characters that end a number. */
  predicate Plain(f: string)
  {
    forall i :: 0 <= i < |f| ==> !IsTerminator(f[i])
  }

  /** The first number of fields joined with commas is read from the first field alone. */
  lemma JoinHead(fs: seq<string>)
    requires |fs| > 0 && forall i :: 0 <= i < |fs| ==> Plain(fs[i])
    ensures ParseX1000(Join(fs)) == ParseX1000(fs[0])
  {
    if |fs| > 1 {
      assert Join(fs) == fs[0] + [','] + Join(fs[1..]);
      ParseStopsAtTerminator(fs[0], ',', Join(fs[1..]));
    }
  }

  /**
   * Fields joined with commas are read back: the first number from the first field, field k+1
   * from the (k+1)-th field after it, and no field past the last one.
   */
  lemma FieldValueJoin(fs: seq<string>, k: nat)
    requires |fs| > 0 && forall i :: 0 <= i < |fs| ==> Plain(fs[i])
    ensures ParseX1000(Join(fs)) == ParseX1000(fs[0])
    ensures k + 1 < |fs| ==> FieldValue(Join(fs), k) == Some(ParseX1000(fs[k + 1]))
    ensures k + 1 >= |fs| ==> FieldValue(Join(fs), k).None?
  {
    JoinHead(fs);
    assert forall i :: 0 <= i < |fs| ==> CommaFree(fs[i]) by {
      forall i | 0 <= i < |fs|
        ensures CommaFree(fs[i])
      {
        assert Plain(fs[i]);
      }
    }
    JoinFields(fs, k);
    if k + 1 < |fs| {
      var rest := fs[k + 1..];
      assert forall i :: 0 <= i < |rest| ==> Plain(rest[i]) by {
        forall i | 0 <= i < |rest|
          ensures Plain(rest[i])
        {
          assert rest[i] == fs[k + 1 + i];
        }
      }
      JoinHead(rest);
    }
  }

  /** Behind a comma-free prefix, the first field of `p + "," + a` is read from `a`. */
  lemma FirstFieldValue(p: string, a: string)
    requires CommaFree(p)
    ensures FieldValue(p + "," + a, 0) == Some(ParseX1000(a))
  {
    var s := p + "," + a;
    CommaAfterFree(p, a, 0);
    assert AfterComma(s, 0) == Some(|p| + 1);
    assert s[|p| + 1..] == a;
  }

  // ---------------------------------------------------------------- answers to queries

  /** `GetLED`: "on" when the character after the first comma is `1`; no comma, no answer. */
  function LedReply(t: string): (r: Option<bool>)
    ensures r.Some? <==> CommaFrom(t, 0).Some?
  {
    var c := CommaFrom(t, 0);
    if c.Some? then Some(c.value + 1 < |t| && t[c.value + 1] == '1') else None
  }

  /** `GetTemperature`: the first field, in hundredths of a degree, cast to 16 bits. */
  function TemperatureReply(t: string): (r: Option<int>)
    ensures r.Some? ==> -0x8000 <= r.value < 0x8000
    ensures r.Some? <==> FieldValue(t, 0).Some?
  {
    var v := FieldValue(t, 0);
    if v.Some? then Some(Int16(CDiv(v.value, 10))) else None
  }

  /** `EC_GetProbeType`: the first field, in hundredths, cast to 16 bits unsigned. */
  function ProbeTypeReply(t: string): (r: Option<u16>)
    ensures r.Some? <==> FieldValue(t, 0).Some?
  {
    var v := FieldValue(t, 0);
    if v.Some? then Some(Trunc16(CDiv(v.value, 10))) else None
  }

  /** `pH_CalQuery` and `EC_CalQuery`: `atoi` of the text after the first comma, cast to a byte. */
  function CalPointsReply(t: string): (r: Option<byte>)
    ensures r.Some? <==> CommaFrom(t, 0).Some?
  {
    var c := CommaFrom(t, 0);
    if c.Some? then Some(Trunc8(Atoi(t[c.value + 1..], 0))) else None
  }

  /** A slope field: hundredths of a percent or of a millivolt, cast to 16 bits. */
  function SlopeField(t: string, k: nat): (r: Option<int>)
    ensures r.Some? <==> FieldValue(t, k).Some?
    ensures r.Some? ==> -0x8000 <= r.value < 0x8000
  {
    var v := FieldValue(t, k);
    if v.Some? then Some(Int16(CDiv(v.value, 10))) else None
  }

  /** `pH_GetSlope` succeeds when the reply has all three fields: acid slope, base slope, zero point. */
  function SlopeReply(t: string): (r: Option<(int, int, int)>)
    ensures r.Some? <==> Commas(t, 0, |t|) >= 3
  {
    FieldPresent(t, 2);
    FieldsStop(t, 0);
    FieldsStop(t, 1);
    var a, b, z := SlopeField(t, 0), SlopeField(t, 1), SlopeField(t, 2);
    if a.Some? && b.Some? && z.Some? then Some((a.value, b.value, z.value)) else None
  }

  /**
   * `GetStatus`: the character after the first comma (why the circuit last restarted) and the
   * number after the second comma (its supply voltage), in thousandths of a volt.
   */
  function StatusReply(t: string): (r: (Option<char>, Option<int>))
    ensures r.0.Some? <==> CommaFrom(t, 0).Some?
    ensures r.1.Some? <==> FieldValue(t, 1).Some?
  {
    AfterCommaNext(t, 0);
    match CommaFrom(t, 0)
    case None => (None, None)
    case Some(c) => (Some(if c + 1 < |t| then t[c + 1] else '\0'), FieldValue(t, 1))
  }

  // ---------------------------------------------------------------- commands

  /**
   * What a buffer of `size` bytes holds after `snprintf` or `strncpy` plus a final NUL: the text,
   * cut to `size - 1` characters when it is longer.
   */
  function Bounded(size: nat, text: string): (r: string)
    requires size > 0
    ensures |r| < size && |r| <= |text| && r == text[..|r|]
    ensures |text| < size ==> r == text
  {
    if |text| < size then text else text[..size - 1]
  }

  /** A signed value in hundredths as `[-]<whole>.<two digits>`. */
  function SignedHundredths(x: int): string
  {
    (if x < 0 then "-" else "") + Hundredths(Abs(x))
  }

  /** The argument of `SetTemperature` as written: `%d.%02d` of `t / 100` and `abs(t % 100)`. */
  function TemperatureArgAsWritten(t: int): string
  {
    IntString(CDiv(t, 100)) + "." + TwoDigits(Abs(CMod(t, 100)))
  }

  /** `T,<temperature>` with the temperature's sign kept. */
  function TemperatureCommand(t: int): string
  {
    "T," + SignedHundredths(t)
  }

  datatype CalPoint = Mid | Low | High

  function PointName(p: CalPoint): string
  {
    match p
    case Mid => "MID"
    case Low => "LOW"
    case High => "HIGH"
  }

  /** `pH_CalMid`, `pH_CalLow`, `pH_CalHigh`: `CAL,<point>,%d.%02d` of the pH in hundredths. */
  function PhCalCommand(p: CalPoint, x: u16): string
  {
    "CAL," + PointName(p) + "," + Hundredths(x)
  }

  /** `EC_SetProbeType`: `K,%d.%02d` of the cell constant in hundredths. */
  function ProbeTypeCommand(k: u16): string
  {
    "K," + Hundredths(k)
  }

  datatype EcCalPoint = Single | EcLow | EcHigh

  /** `EC_CalSingle`, `EC_CalLow`, `EC_CalHigh`: `CAL,[LOW,|HIGH,]%lu` of the conductivity. */
  function EcCalCommand(p: EcCalPoint, v: u32): string
  {
    "CAL," + (match p case Single => "" case EcLow => "LOW," case EcHigh => "HIGH,") + DecimalString(v)
  }

  /** `SetI2CAddress`: `I2C,%d` of the new address. */
  function I2CCommand(a: byte): string
  {
    "I2C," + DecimalString(a)
  }

  function Flag(on: bool): string
  {
    if on then "1" else "0"
  }

  /** `EC_SetOutput`: which of EC, TDS, salinity and specific gravity the readings carry. */
  function OutputCommands(ec: bool, tds: bool, sal: bool, sg: bool): seq<string>
  {
    ["O,EC," + Flag(ec), "O,TDS," + Flag(tds), "O,S," + Flag(sal), "O,SG," + Flag(sg)]
  }

  /** `SetLED`. */
  function LedCommand(on: bool): string
  {
    if on then "L,1" else "L,0"
  }

  // ---------------------------------------------------------------- round trips

  /** A signed `%d.%02d` text is read back as ten times the value in hundredths. */
  lemma SignedHundredthsValue(x: int)
    ensures ParseX1000(SignedHundredths(x)) == 10 * x
  {
    ParseHundredths(x < 0, Abs(x));
  }

  /** A signed `%d.%02d` text has no character that would end a number early. */
  lemma SignedHundredthsPlain(x: int)
    ensures Plain(SignedHundredths(x))
  {
    var sign := if x < 0 then "-" else "";
    var d := DecimalString(Abs(x) / 100);
    var f := TwoDigits(Abs(x) % 100);
    var s := SignedHundredths(x);
    assert s == sign + d + "." + f;
    forall i | 0 <= i < |s|
      ensures !IsTerminator(s[i])
    {
      if i < |sign| {
        assert s[i] == '-';
      } else if i < |sign| + |d| {
        assert s[i] == d[i - |sign|];
      } else if i == |sign| + |d| {
        assert s[i] == '.';
      } else {
        assert s[i] == f[i - |sign| - |d| - 1];
      }
    }
  }

  /** A decimal string is all digits, so it never ends a number early. */
  lemma DecimalPlain(n: nat)
    ensures Plain(DecimalString(n))
  {
    var d := DecimalString(n);
    assert forall i :: 0 <= i < |d| ==> IsDigit(d[i]);
  }

  /** Reading back ten times a value in hundredths and dividing by ten gives the value. */
  lemma TenthsBack(x: int)
    ensures CDiv(10 * x, 10) == x
  {
    if x < 0 {
      assert (-(10 * x)) / 10 == -x;
    }
  }

  /** The temperature a circuit reports in `?T,<t>` is read back as it was written. */
  lemma TemperatureRoundTrip(t: int, p: string)
    requires -0x8000 <= t < 0x8000 && CommaFree(p)
    ensures TemperatureReply(p + "," + SignedHundredths(t)) == Some(t)
  {
    var a := SignedHundredths(t);
    FirstFieldValue(p, a);
    SignedHundredthsValue(t);
    TenthsBack(t);
    var v := ParseX1000(a);
    assert FieldValue(p + "," + a, 0) == Some(v);
    assert TemperatureReply(p + "," + a) == Some(Int16(CDiv(v, 10)));
  }

  /** The cell constant in `?K,<k>` is read back as it was written. */
  lemma ProbeTypeRoundTrip(k: u16, p: string)
    requires CommaFree(p)
    ensures ProbeTypeReply(p + "," + Hundredths(k)) == Some(k)
  {
    var a := Hundredths(k);
    FirstFieldValue(p, a);
    assert SignedHundredths(k) == a;
    SignedHundredthsValue(k);
    TenthsBack(k);
    var v := ParseX1000(a);
    assert FieldValue(p + "," + a, 0) == Some(v);
    assert ProbeTypeReply(p + "," + a) == Some(Trunc16(CDiv(v, 10)));
  }

  /** The number of calibration points in `?CAL,<n>` is read back as it was written. */
  lemma CalPointsRoundTrip(n: byte, p: string)
    requires CommaFree(p)
    ensures CalPointsReply(p + "," + DecimalString(n)) == Some(n)
  {
    var s := p + "," + DecimalString(n);
    CommaAfterFree(p, DecimalString(n), 0);
    assert s[|p| + 1..] == DecimalString(n);
    AtoiDecimal(n);
  }

  /** The LED state in `?L,1` or `?L,0` is read back as it was written. */
  lemma LedRoundTrip(on: bool, p: string)
    requires CommaFree(p)
    ensures LedReply(p + "," + (if on then "1" else "0")) == Some(on)
  {
    CommaAfterFree(p, if on then "1" else "0", 0);
  }

  /** A status answer `<prefix>,<reason>,<volts>` is read back as the reason and the voltage. */
  lemma StatusRoundTrip(p: string, reason: char, v: nat)
    requires Plain(p) && !IsTerminator(reason)
    ensures StatusReply(Join([p, [reason], Hundredths(v)])) == (Some(reason), Some(10 * v))
  {
    var h := Hundredths(v);
    var fs := [p, [reason], h];
    SignedHundredthsPlain(v);
    assert SignedHundredths(v) == h;
    assert Plain([reason]);
    FieldValueJoin(fs, 1);
    UnsignedValue(v);
    StatusReason(p, reason, h);
  }

  /** The character after the first comma of `<prefix>,<reason>,<rest>` is the reason. */
  lemma StatusReason(p: string, reason: char, h: string)
    requires Plain(p)
    ensures var t := Join([p, [reason], h]);
      CommaFrom(t, 0) == Some(|p|) && |p| + 1 < |t| && t[|p| + 1] == reason
  {
    var fs := [p, [reason], h];
    assert fs[1..] == [[reason], h];
    assert fs[1..][1..] == [h];
    var t := Join(fs);
    assert Join(fs[1..]) == [reason] + "," + Join([h]);
    assert t == p + "," + ([reason] + "," + h);
    assert CommaFree(p);
    CommaAfterFree(p, [reason] + "," + h, 0);
  }

  /** A status answer whose first comma is at `c`: the character after it, and field 1. */
  lemma StatusAt(t: string, c: nat, next: Option<nat>, y: int)
    requires CommaFrom(t, 0) == Some(c) && next == NextField(t, c + 1)
    requires next.Some? ==> y == ParseX1000(t[next.value..])
    ensures StatusReply(t) == (Some(if c + 1 < |t| then t[c + 1] else '\0'), if next.Some? then Some(y) else None)
  {
    assert NextField(t, 0) == Some(c + 1);
    assert AfterComma(t, 0) == Some(c + 1);
    AfterCommaNext(t, 0);
    assert AfterComma(t, 1) == next;
    assert FieldValue(t, 1) == if next.Some? then Some(y) else None;
  }

  /** The three slopes in `?SLOPE,<acid>,<base>,<zero>` are read back as they were written. */
  lemma SlopeRoundTrip(p: string, a: int, b: int, z: int)
    requires Plain(p)
    requires -0x8000 <= a < 0x8000 && -0x8000 <= b < 0x8000 && -0x8000 <= z < 0x8000
    ensures SlopeReply(Join([p, SignedHundredths(a), SignedHundredths(b), SignedHundredths(z)])) == Some((a, b, z))
  {
    var fs := [p, SignedHundredths(a), SignedHundredths(b), SignedHundredths(z)];
    SignedHundredthsPlain(a);
    SignedHundredthsPlain(b);
    SignedHundredthsPlain(z);
    SlopeFieldBack(fs, 0, a);
    SlopeFieldBack(fs, 1, b);
    SlopeFieldBack(fs, 2, z);
  }

  /** One slope field of joined fields, written as signed hundredths, is read back. */
  lemma SlopeFieldBack(fs: seq<string>, k: nat, x: int)
    requires k + 1 < |fs| && forall i :: 0 <= i < |fs| ==> Plain(fs[i])
    requires -0x8000 <= x < 0x8000 && fs[k + 1] == SignedHundredths(x)
    ensures SlopeField(Join(fs), k) == Some(x)
  {
    FieldValueJoin(fs, k);
    SignedHundredthsValue(x);
    TenthsBack(x);
  }

  /**
   * An EC reading that reports only conductivity and TDS, `<ec>,<tds>`, sets both, and leaves
   * salinity and specific gravity as they were: the fields stop at the first missing comma.
   */
  lemma EcTwoFields(ec: nat, tds: u32, salinity: u32, gravity: u32)
    ensures var t := Join([DecimalString(ec), DecimalString(tds)]);
      Reading(EC, t) == ec && ExtraField(t, 0, 1000, 0) == tds &&
      ExtraField(t, 1, 10, salinity) == salinity && ExtraField(t, 2, 1, gravity) == gravity
  {
    var fs := [DecimalString(ec), DecimalString(tds)];
    var t := Join(fs);
    DecimalPlain(ec);
    DecimalPlain(tds);
    assert forall i :: 0 <= i < |fs| ==> Plain(fs[i]);
    FieldValueJoin(fs, 0);
    FieldValueJoin(fs, 1);
    FieldValueJoin(fs, 2);
    ParseWhole(ec);
    ParseWhole(tds);
    assert Reading(EC, t) == CDiv(ec * 1000, 1000) == ec;
    assert FieldValue(t, 0) == Some(tds * 1000);
    assert CDiv(tds * 1000, 1000) == tds;
  }

  // ---------------------------------------------------------------- command sizes

  /** Every command fits its buffer with its NUL: `snprintf` never cuts one short. */
  lemma CommandsFit(t: int, p: CalPoint, x: u16, e: EcCalPoint, v: u32, a: byte)
    requires -0x8000 <= t < 0x8000
    ensures |TemperatureCommand(t)| < 16 && |TemperatureArgAsWritten(t)| + 2 < 16
    ensures |PhCalCommand(p, x)| < 16 && |ProbeTypeCommand(x)| < 16
    ensures |EcCalCommand(e, v)| < 20 && |I2CCommand(a)| < 16
  {
    assert Pow10(3) == 1000;
    DecimalLength(Abs(t) / 100, 3);
    DecimalLength(Abs(CDiv(t, 100)), 3);
    DecimalLength(x / 100, 3);
    DecimalLength(a, 3);
    assert Pow10(10) == 10000000000;
    DecimalLength(v, 10);
  }

  // ---------------------------------------------------------------- the temperature sign

  /** Away from (-1, 0) degrees the command as written is the signed text. */
  lemma TemperatureArgAgrees(t: int)
    requires t >= 0 || t <= -100
    ensures TemperatureArgAsWritten(t) == SignedHundredths(t)
  {
    CDivMeaning(-t, 100);
    if t < 0 {
      assert CDiv(t, 100) == -(Abs(t) / 100) && Abs(CMod(t, 100)) == Abs(t) % 100;
      assert IntString(CDiv(t, 100)) == "-" + DecimalString(Abs(t) / 100);
    }
  }

  /**
   * Between -0.99 and -0.01 degrees the command as written drops the sign: `t / 100` is 0, which
   * `%d` prints without a `-`, so -50 is sent as `T,0.50` and the circuit reads +0.50 degrees.
   */
  lemma TemperatureArgLosesSign(t: int)
    requires -100 < t < 0
    ensures TemperatureArgAsWritten(t) == Hundredths(-t)
    ensures ParseX1000(TemperatureArgAsWritten(t)) == -10 * t != 10 * t
  {
    var h := -t;
    assert CDiv(t, 100) == 0 && Abs(CMod(t, 100)) == h;
    assert h / 100 == 0 && h % 100 == h;
    assert IntString(0) == DecimalString(0);
    assert TemperatureArgAsWritten(t) == Hundredths(h);
    UnsignedValue(h);
  }

  /** An unsigned `%d.%02d` text is read back as ten times the value in hundredths. */
  lemma UnsignedValue(x: nat)
    ensures ParseX1000(Hundredths(x)) == 10 * x
  {
    ParseHundredths(false, x);
    assert "" + Hundredths(x) == Hundredths(x);
  }

  // ---------------------------------------------------------------- the handle

  /** The read of an answer succeeded and its first byte reports success. */
  predicate Answered(acked: bool, received: bool, reply: seq<byte>)
    requires |reply| == ResponseSize
  {
    acked && received && reply[0] == Success
  }

  /** Whether each of the four exchanges of `SetOutput` was answered with success. */
  function Answers(acks: seq<bool>, received: seq<bool>, replies: seq<seq<byte>>): (a: seq<bool>)
    requires |acks| == 4 && |received| == 4 && |replies| == 4
    requires forall i :: 0 <= i < 4 ==> |replies[i]| == ResponseSize
    ensures |a| == 4 && forall i :: 0 <= i < 4 ==> (a[i] <==> Answered(acks[i], received[i], replies[i]))
  {
    [Answered(acks[0], received[0], replies[0]), Answered(acks[1], received[1], replies[1]),
     Answered(acks[2], received[2], replies[2]), Answered(acks[3], received[3], replies[3])]
  }

  /** How many of the four exchanges of `SetOutput` are made: up to and including the first that fails. */
  function Made(answers: seq<bool>): (n: nat)
    requires |answers| == 4
    ensures 1 <= n <= 4
    ensures forall i :: 0 <= i < n - 1 ==> answers[i]
    ensures n < 4 ==> !answers[n - 1]
  {
    if !answers[0] then 1 else if !answers[1] then 2 else if !answers[2] then 3 else 4
  }

  /** The text of an answer: its bytes after the code, up to the first NUL. */
  function ReplyText(reply: seq<byte>): (t: string)
    requires |reply| == ResponseSize
    ensures |t| < ResponseSize && forall k :: 0 <= k < |t| ==> t[k] != '\0'
  {
    CString(ToChars(reply[1..]))
  }

  /** The handle of one EZO circuit. */
  class Ezo {
    var address: byte
    const kind: SensorType
    /** The text of the last successful answer, NUL-terminated. */
    const response: array<char>
    var responseLen: nat
    var responseCode: byte
    /** The reading, in the unit of the circuit's kind (the C union). */
    var value: int
    var tds: u32
    var salinity: u32
    var specificGravity: u32
    /** The commands written to the circuit, in order. */
    ghost var sent: seq<string>

    /** The response holds a C string of `responseLen` characters and its NUL. */
    ghost predicate Valid()
      reads this, response
    {
      response.Length == ResponseSize && responseLen < ResponseSize && response[responseLen] == '\0' &&
      forall k :: 0 <= k < responseLen ==> response[k] != '\0'
    }

    /** The text in the response buffer, which is exactly what `responseLen` says it is. */
    function Text(): (t: string)
      reads this, response
      requires Valid()
      ensures t == CString(response[..]) && |t| == responseLen
    {
      CStringAt(response[..], responseLen);
      response[..responseLen]
    }

    /**
     * One exchange: `cmd` was written, and the answer, when it was read and reports success, is
     * now the response; otherwise the response is as it was. The code of an answer that was read
     * is kept whatever it is.
     */
    twostate predicate Exchanged(cmd: string, acked: bool, received: bool, reply: seq<byte>, ok: bool)
      reads this, response
      requires |reply| == ResponseSize
    {
      Valid() && sent == old(sent) + [cmd] &&
      responseCode == (if acked && received then reply[0] else old(responseCode)) &&
      (ok <==> Answered(acked, received, reply)) &&
      (ok ==> Text() == ReplyText(reply)) &&
      (!ok ==> responseLen == old(responseLen) && response[..] == old(response[..]))
    }

    /** The field part of `AtlasEZO_Init`: the buffer cleared, no answer yet, nothing sent. */
    constructor Init(addr: byte, kind: SensorType)
      ensures Valid() && fresh(response) && Text() == ""
      ensures address == addr && this.kind == kind && responseLen == 0 && responseCode == 0 && sent == []
      ensures forall k :: 0 <= k < ResponseSize ==> response[k] == '\0'
    {
      address := addr;
      this.kind := kind;
      response := new char[ResponseSize](_ => '\0');
      responseLen := 0;
      responseCode := 0;
      sent := [];
    }

    /**
     * The bus part of `AtlasEZO_Init`: the wake-up read, whose outcome is ignored, then `GetInfo`
     * into a 32-byte buffer, whose success is the result.
     */
    method Start(acked: bool, received: bool, reply: seq<byte>) returns (ok: bool)
      requires Valid() && |reply| == ResponseSize
      modifies this`sent, this`responseCode, this`responseLen, response
      ensures Exchanged("I", acked, received, reply, ok)
    {
      var info := GetInfo(32, acked, received, reply);
      ok := info.Some?;
    }

    /** `AtlasEZO_SendCommand`. */
    method SendCommand(cmd: string, acked: bool) returns (ok: bool)
      modifies this`sent
      ensures sent == old(sent) + [cmd] && ok == acked
    {
      sent := sent + [cmd];
      ok := acked;
    }

    /**
     * `AtlasEZO_ReadResponse`: the code is stored; on success the bytes after it are copied up
     * to the first NUL or 31 of them, and NUL-terminated.
     */
    method ReadResponse(received: bool, reply: seq<byte>) returns (ok: bool)
      requires Valid() && |reply| == ResponseSize
      modifies this`responseCode, this`responseLen, response
      ensures Valid()
      ensures responseCode == (if received then reply[0] else old(responseCode))
      ensures ok <==> received && reply[0] == Success
      ensures ok ==> Text() == ReplyText(reply)
      ensures !ok ==> responseLen == old(responseLen) && response[..] == old(response[..])
    {
      if !received {
        return false;
      }
      responseCode := reply[0];
      if responseCode != Success {
        return false;
      }
      ghost var s := ToChars(reply[1..]);
      var i := 0;
      while i < 31 && reply[i + 1] != 0
        invariant 0 <= i <= 31
        invariant forall k :: 0 <= k < i ==> response[k] == s[k] && s[k] != '\0'
        modifies response
      {
        response[i] := reply[i + 1] as char;
        i := i + 1;
      }
      response[i] := '\0';
      responseLen := i;
      ok := true;
      CStringAt(s, i);
      assert response[..i] == s[..i];
    }

    /** `AtlasEZO_SendAndWait`: the answer is read only when the command was acknowledged. */
    method SendAndWait(cmd: string, acked: bool, received: bool, reply: seq<byte>) returns (ok: bool)
      requires Valid() && |reply| == ResponseSize
      modifies this`sent, this`responseCode, this`responseLen, response
      ensures Exchanged(cmd, acked, received, reply, ok)
    {
      ok := SendCommand(cmd, acked);
      if !ok {
        return;
      }
      ok := ReadResponse(received, reply);
    }

    /**
     * `AtlasEZO_ParseResponse`: nothing happens unless the last code was success; then the first
     * number of the text is stored, scaled for the kind, and an EC circuit also fills TDS,
     * salinity and specific gravity from the following fields, as far as they go.
     */
    method ParseResponse() returns (ok: bool)
      requires Valid()
      modifies this`value, this`tds, this`salinity, this`specificGravity
      ensures ok <==> responseCode == Success
      ensures value == (if ok then Reading(kind, Text()) else old(value))
      ensures tds == (if ok && kind == EC then ExtraField(Text(), 0, 1000, old(tds)) else old(tds))
      ensures salinity == (if ok && kind == EC then ExtraField(Text(), 1, 10, old(salinity)) else old(salinity))
      ensures specificGravity ==
        (if ok && kind == EC then ExtraField(Text(), 2, 1, old(specificGravity)) else old(specificGravity))
    {
      if responseCode != Success {
        return false;
      }
      var t := response[..responseLen];
      var x := ParseFloatX1000(t, 0);
      ok := true;
      value := Scaled(kind, x);
      if kind == EC {
        ParseEcExtras(t);
      }
    }

    /** The EC part of `ParseResponse`: each extra from the field after the next comma, if any. */
    method ParseEcExtras(t: string)
      modifies this`tds, this`salinity, this`specificGravity
      ensures tds == ExtraField(t, 0, 1000, old(tds))
      ensures salinity == ExtraField(t, 1, 10, old(salinity))
      ensures specificGravity == ExtraField(t, 2, 1, old(specificGravity))
    {
      AfterCommaNext(t, 0);
      AfterCommaNext(t, 1);
      assert AfterComma(t, 0) == NextField(t, 0);
      var f, y := NextNumber(t, 0);
      if f.None? {
        return;
      }
      ExtraFieldAt(t, 0, 1000, tds, f.value, y);
      tds := Trunc32(CDiv(y, 1000));
      f, y := NextNumber(t, f.value);
      if f.None? {
        return;
      }
      ExtraFieldAt(t, 1, 10, salinity, f.value, y);
      salinity := Trunc32(CDiv(y, 10));
      f, y := NextNumber(t, f.value);
      if f.None? {
        return;
      }
      ExtraFieldAt(t, 2, 1, specificGravity, f.value, y);
      specificGravity := Trunc32(y);
    }

    /** `AtlasEZO_ReadValue`: `R`, then the answer, then `ParseResponse`. */
    method ReadValue(acked: bool, received: bool, reply: seq<byte>) returns (ok: bool)
      requires Valid() && |reply| == ResponseSize
      modifies this`sent, this`responseCode, this`responseLen, response
      modifies this`value, this`tds, this`salinity, this`specificGravity
      ensures Exchanged("R", acked, received, reply, ok)
      ensures value == (if ok then Reading(kind, ReplyText(reply)) else old(value))
      ensures tds == (if ok && kind == EC then ExtraField(ReplyText(reply), 0, 1000, old(tds)) else old(tds))
      ensures salinity ==
        (if ok && kind == EC then ExtraField(ReplyText(reply), 1, 10, old(salinity)) else old(salinity))
      ensures specificGravity ==
        (if ok && kind == EC then ExtraField(ReplyText(reply), 2, 1, old(specificGravity)) else old(specificGravity))
    {
      ok := SendCommand("R", acked);
      if !ok {
        return;
      }
      ok := ReadResponse(received, reply);
      if !ok {
        return;
      }
      ghost var text := Text();
      assert text == ReplyText(reply);
      ok := ParseResponse();
      assert Text() == text;
    }

    /** `AtlasEZO_GetInfo`: the answer to `I`, as much of it as a buffer of `maxLen` bytes keeps. */
    method GetInfo(maxLen: byte, acked: bool, received: bool, reply: seq<byte>) returns (info: Option<string>)
      requires Valid() && |reply| == ResponseSize && maxLen > 0
      modifies this`sent, this`responseCode, this`responseLen, response
      ensures Exchanged("I", acked, received, reply, info.Some?)
      ensures info.Some? ==> info.value == Bounded(maxLen, ReplyText(reply))
    {
      var ok := SendAndWait("I", acked, received, reply);
      if !ok {
        return None;
      }
      info := Some(Bounded(maxLen, response[..responseLen]));
    }

    /** `AtlasEZO_SetI2CAddress`: the handle moves to the new address once the circuit agreed. */
    method SetI2CAddress(a: byte, acked: bool, received: bool, reply: seq<byte>) returns (ok: bool)
      requires Valid() && |reply| == ResponseSize
      modifies this`sent, this`responseCode, this`responseLen, response, this`address
      ensures Exchanged(I2CCommand(a), acked, received, reply, ok)
      ensures address == (if ok then a else old(address))
    {
      CommandsFit(0, Mid, 0, Single, 0, a);
      ok := SendAndWait(Bounded(16, I2CCommand(a)), acked, received, reply);
      if ok {
        address := a;
      }
    }

    /** `AtlasEZO_SetTemperature`, with the sign of temperatures between -1 and 0 degrees kept. */
    method SetTemperature(t: int, acked: bool, received: bool, reply: seq<byte>) returns (ok: bool)
      requires Valid() && |reply| == ResponseSize && -0x8000 <= t < 0x8000
      modifies this`sent, this`responseCode, this`responseLen, response
      ensures Exchanged(TemperatureCommand(t), acked, received, reply, ok)
    {
      CommandsFit(t, Mid, 0, Single, 0, 0);
      ok := SendAndWait(Bounded(16, TemperatureCommand(t)), acked, received, reply);
    }

    /** `AtlasEZO_GetTemperature`: the first field of the answer to `T,?`. */
    method GetTemperature(acked: bool, received: bool, reply: seq<byte>) returns (t: Option<int>)
      requires Valid() && |reply| == ResponseSize
      modifies this`sent, this`responseCode, this`responseLen, response
      ensures Exchanged("T,?", acked, received, reply, Answered(acked, received, reply))
      ensures t == if Answered(acked, received, reply) then TemperatureReply(ReplyText(reply)) else None
    {
      var ok := SendAndWait("T,?", acked, received, reply);
      if !ok {
        return None;
      }
      var text := response[..responseLen];
      var c := CommaFrom(text, 0);
      assert AfterComma(text, 0) == NextField(text, 0);
      if c.None? {
        return None;
      }
      var x := ParseFloatX1000(text[c.value + 1..], 0);
      t := Some(Int16(CDiv(x, 10)));
    }

    /** `AtlasEZO_SetLED`. */
    method SetLed(on: bool, acked: bool, received: bool, reply: seq<byte>) returns (ok: bool)
      requires Valid() && |reply| == ResponseSize
      modifies this`sent, this`responseCode, this`responseLen, response
      ensures Exchanged(LedCommand(on), acked, received, reply, ok)
    {
      ok := SendAndWait(if on then "L,1" else "L,0", acked, received, reply);
    }

    /** `AtlasEZO_GetLED`: the character after the first comma of the answer to `L,?`. */
    method GetLed(acked: bool, received: bool, reply: seq<byte>) returns (on: Option<bool>)
      requires Valid() && |reply| == ResponseSize
      modifies this`sent, this`responseCode, this`responseLen, response
      ensures Exchanged("L,?", acked, received, reply, Answered(acked, received, reply))
      ensures on == if Answered(acked, received, reply) then LedReply(ReplyText(reply)) else None
    {
      var ok := SendAndWait("L,?", acked, received, reply);
      if !ok {
        return None;
      }
      var text := response[..responseLen];
      var c := CommaFrom(text, 0);
      if c.None? {
        return None;
      }
      on := Some(c.value + 1 < |text| && text[c.value + 1] == '1');
    }

    /** `AtlasEZO_pH_CalMid`, `pH_CalLow` and `pH_CalHigh`. */
    method PhCalibrate(p: CalPoint, x: u16, acked: bool, received: bool, reply: seq<byte>) returns (ok: bool)
      requires Valid() && |reply| == ResponseSize
      modifies this`sent, this`responseCode, this`responseLen, response
      ensures Exchanged(PhCalCommand(p, x), acked, received, reply, ok)
    {
      CommandsFit(0, p, x, Single, 0, 0);
      ok := SendAndWait(Bounded(16, PhCalCommand(p, x)), acked, received, reply);
    }

    /** `AtlasEZO_pH_CalQuery` and `AtlasEZO_EC_CalQuery`: `atoi` after the first comma of the answer to `CAL,?`. */
    method CalQuery(acked: bool, received: bool, reply: seq<byte>) returns (points: Option<byte>)
      requires Valid() && |reply| == ResponseSize
      modifies this`sent, this`responseCode, this`responseLen, response
      ensures Exchanged("CAL,?", acked, received, reply, Answered(acked, received, reply))
      ensures points == if Answered(acked, received, reply) then CalPointsReply(ReplyText(reply)) else None
    {
      var ok := SendAndWait("CAL,?", acked, received, reply);
      if !ok {
        return None;
      }
      var text := response[..responseLen];
      var c := CommaFrom(text, 0);
      if c.None? {
        return None;
      }
      points := Some(Trunc8(Atoi(text[c.value + 1..], 0)));
    }

    /**
     * `AtlasEZO_pH_GetSlope`: the three fields of the answer to `SLOPE,?`. Each output is written
     * as soon as its field is found, so a short answer fails with the first slopes already
     * overwritten; `acid0`, `base0` and `zero0` are the outputs' values before the call.
     */
    method GetSlope(acid0: int, base0: int, zero0: int, acked: bool, received: bool, reply: seq<byte>)
      returns (ok: bool, acid: int, base: int, zero: int)
      requires Valid() && |reply| == ResponseSize
      modifies this`sent, this`responseCode, this`responseLen, response
      ensures Exchanged("SLOPE,?", acked, received, reply, Answered(acked, received, reply))
      ensures ok <==> Answered(acked, received, reply) && SlopeReply(ReplyText(reply)).Some?
      ensures ok ==> (acid, base, zero) == SlopeReply(ReplyText(reply)).value
      ensures (acid, base, zero) ==
        if Answered(acked, received, reply) then SlopeOutputs(ReplyText(reply), acid0, base0, zero0)
        else (acid0, base0, zero0)
    {
      var answered := SendAndWait("SLOPE,?", acked, received, reply);
      if !answered {
        return false, acid0, base0, zero0;
      }
      ok, acid, base, zero := ReadSlopes(response[..responseLen], acid0, base0, zero0);
    }

    /** `AtlasEZO_EC_SetProbeType`. */
    method SetProbeType(k: u16, acked: bool, received: bool, reply: seq<byte>) returns (ok: bool)
      requires Valid() && |reply| == ResponseSize
      modifies this`sent, this`responseCode, this`responseLen, response
      ensures Exchanged(ProbeTypeCommand(k), acked, received, reply, ok)
    {
      CommandsFit(0, Mid, k, Single, 0, 0);
      ok := SendAndWait(Bounded(16, ProbeTypeCommand(k)), acked, received, reply);
    }

    /** `AtlasEZO_EC_GetProbeType`: the first field of the answer to `K,?`. */
    method GetProbeType(acked: bool, received: bool, reply: seq<byte>) returns (k: Option<u16>)
      requires Valid() && |reply| == ResponseSize
      modifies this`sent, this`responseCode, this`responseLen, response
      ensures Exchanged("K,?", acked, received, reply, Answered(acked, received, reply))
      ensures k == if Answered(acked, received, reply) then ProbeTypeReply(ReplyText(reply)) else None
    {
      var ok := SendAndWait("K,?", acked, received, reply);
      if !ok {
        return None;
      }
      var text := response[..responseLen];
      var c := CommaFrom(text, 0);
      assert AfterComma(text, 0) == NextField(text, 0);
      if c.None? {
        return None;
      }
      var x := ParseFloatX1000(text[c.value + 1..], 0);
      k := Some(Trunc16(CDiv(x, 10)));
    }

    /** `AtlasEZO_EC_CalSingle`, `EC_CalLow` and `EC_CalHigh`. */
    method EcCalibrate(p: EcCalPoint, v: u32, acked: bool, received: bool, reply: seq<byte>) returns (ok: bool)
      requires Valid() && |reply| == ResponseSize
      modifies this`sent, this`responseCode, this`responseLen, response
      ensures Exchanged(EcCalCommand(p, v), acked, received, reply, ok)
    {
      CommandsFit(0, Mid, 0, p, v, 0);
      ok := SendAndWait(Bounded(20, EcCalCommand(p, v)), acked, received, reply);
    }

    /** `AtlasEZO_Sleep`: `SLEEP`, with no answer read. */
    method Sleep(acked: bool) returns (ok: bool)
      modifies this`sent
      ensures sent == old(sent) + ["SLEEP"] && ok == acked
    {
      ok := SendCommand("SLEEP", acked);
    }

    /** `AtlasEZO_TriggerReading`: `R`, with the answer left for a later read. */
    method TriggerReading(acked: bool) returns (ok: bool)
      modifies this`sent
      ensures sent == old(sent) + ["R"] && ok == acked
    {
      ok := SendCommand("R", acked);
    }

    /** `AtlasEZO_FactoryReset`. */
    method FactoryReset(acked: bool, received: bool, reply: seq<byte>) returns (ok: bool)
      requires Valid() && |reply| == ResponseSize
      modifies this`sent, this`responseCode, this`responseLen, response
      ensures Exchanged("FACTORY", acked, received, reply, ok)
    {
      ok := SendAndWait("FACTORY", acked, received, reply);
    }

    /** `AtlasEZO_pH_CalClear` and `AtlasEZO_EC_CalClear`. */
    method CalClear(acked: bool, received: bool, reply: seq<byte>) returns (ok: bool)
      requires Valid() && |reply| == ResponseSize
      modifies this`sent, this`responseCode, this`responseLen, response
      ensures Exchanged("CAL,CLEAR", acked, received, reply, ok)
    {
      ok := SendAndWait("CAL,CLEAR", acked, received, reply);
    }

    /** `AtlasEZO_EC_CalDry`. */
    method CalDry(acked: bool, received: bool, reply: seq<byte>) returns (ok: bool)
      requires Valid() && |reply| == ResponseSize
      modifies this`sent, this`responseCode, this`responseLen, response
      ensures Exchanged("CAL,DRY", acked, received, reply, ok)
    {
      ok := SendAndWait("CAL,DRY", acked, received, reply);
    }

    /**
     * `AtlasEZO_GetStatus`: the reason and the voltage after the first and second commas of the
     * answer to `STATUS`, each given only when its field is there; the call succeeds whenever
     * the answer does.
     */
    method GetStatus(acked: bool, received: bool, reply: seq<byte>)
      returns (ok: bool, reason: Option<char>, voltageX1000: Option<int>)
      requires Valid() && |reply| == ResponseSize
      modifies this`sent, this`responseCode, this`responseLen, response
      ensures Exchanged("STATUS", acked, received, reply, ok)
      ensures (reason, voltageX1000) == if ok then StatusReply(ReplyText(reply)) else (None, None)
    {
      ok := SendAndWait("STATUS", acked, received, reply);
      if !ok {
        return ok, None, None;
      }
      var text := response[..responseLen];
      var c := CommaFrom(text, 0);
      if c.None? {
        return ok, None, None;
      }
      reason := Some(if c.value + 1 < |text| then text[c.value + 1] else '\0');
      var next, y := NextNumber(text, c.value + 1);
      voltageX1000 := if next.Some? then Some(y) else None;
      StatusAt(text, c.value, next, y);
    }

    /** One exchange of `SetOutput`, stated by what the later exchanges rely on. */
    method SwitchOutput(cmd: string, acked: bool, received: bool, reply: seq<byte>) returns (ok: bool)
      requires Valid() && |reply| == ResponseSize
      modifies this`sent, this`responseCode, this`responseLen, response
      ensures Valid() && sent == old(sent) + [cmd]
      ensures ok <==> Answered(acked, received, reply)
    {
      ok := SendAndWait(cmd, acked, received, reply);
    }

    /**
     * `AtlasEZO_EC_SetOutput`: the four output switches, one exchange each, stopping at the first
     * that is not answered with success.
     */
    method SetOutput(ec: bool, tds: bool, sal: bool, sg: bool,
                     acks: seq<bool>, received: seq<bool>, replies: seq<seq<byte>>) returns (ok: bool)
      requires Valid() && |acks| == 4 && |received| == 4 && |replies| == 4
      requires forall i :: 0 <= i < 4 ==> |replies[i]| == ResponseSize
      modifies this`sent, this`responseCode, this`responseLen, response
      ensures Valid()
      ensures sent == old(sent) + OutputCommands(ec, tds, sal, sg)[..Made(Answers(acks, received, replies))]
      ensures ok <==> forall i :: 0 <= i < 4 ==> Answered(acks[i], received[i], replies[i])
    {
      var cmds := OutputCommands(ec, tds, sal, sg);
      ghost var answers := Answers(acks, received, replies);
      ghost var sent0 := sent;
      ok := SwitchOutput(cmds[0], acks[0], received[0], replies[0]);
      if !ok {
        assert Made(answers) == 1 && cmds[..1] == [cmds[0]];
        return;
      }
      ok := SwitchOutput(cmds[1], acks[1], received[1], replies[1]);
      if !ok {
        assert Made(answers) == 2 && cmds[..2] == [cmds[0], cmds[1]];
        return;
      }
      ok := SwitchOutput(cmds[2], acks[2], received[2], replies[2]);
      if !ok {
        assert Made(answers) == 3 && cmds[..3] == [cmds[0], cmds[1], cmds[2]];
        return;
      }
      ok := SwitchOutput(cmds[3], acks[3], received[3], replies[3]);
      assert Made(answers) == 4 && cmds[..4] == [cmds[0], cmds[1], cmds[2], cmds[3]];
    }

    /** `AtlasEZO_pH_GetValue_x100`: the pH reading in hundredths, cast to 16 bits. */
    function PhX100(): (r: u16)
      reads this
      ensures 0 <= value < 655360 ==> r == value / 10
      ensures value < 0 ==> (r + (-value) / 10) % 0x1_0000 == 0
    {
      Trunc16(CDiv(value, 10))
    }
  }

  /** What `GetSlope` leaves in its outputs: each field's value once it was found, else the old value. */
  function SlopeOutputs(t: string, acid0: int, base0: int, zero0: int): (int, int, int)
  {
    var a, b, z := SlopeField(t, 0), SlopeField(t, 1), SlopeField(t, 2);
    (if a.Some? then a.value else acid0, if b.Some? then b.value else base0, if z.Some? then z.value else zero0)
  }

  /** The parsing part of `pH_GetSlope`, writing each output as soon as its field is found. */
  method ReadSlopes(text: string, acid0: int, base0: int, zero0: int) returns (ok: bool, acid: int, base: int, zero: int)
    ensures ok <==> SlopeReply(text).Some?
    ensures ok ==> (acid, base, zero) == SlopeReply(text).value
    ensures (acid, base, zero) == SlopeOutputs(text, acid0, base0, zero0)
  {
    acid, base, zero := acid0, base0, zero0;
    AfterCommaNext(text, 0);
    AfterCommaNext(text, 1);
    assert AfterComma(text, 0) == NextField(text, 0);
    var f, x := NextNumber(text, 0);
    if f.None? {
      return false, acid, base, zero;
    }
    SlopeFieldAt(text, 0, f.value, x);
    acid := Int16(CDiv(x, 10));
    f, x := NextNumber(text, f.value);
    if f.None? {
      return false, acid, base, zero;
    }
    SlopeFieldAt(text, 1, f.value, x);
    base := Int16(CDiv(x, 10));
    f, x := NextNumber(text, f.value);
    if f.None? {
      return false, acid, base, zero;
    }
    SlopeFieldAt(text, 2, f.value, x);
    zero := Int16(CDiv(x, 10));
    ok := true;
  }

  /** `strchr(s + from, ',')` and, when a comma is there, `ParseFloat_x1000` of the text after it. */
  method NextNumber(t: string, from: nat) returns (next: Option<nat>, y: int)
    requires from <= |t|
    ensures next == NextField(t, from)
    ensures next.Some? ==> y == ParseX1000(t[next.value..])
  {
    var c := CommaFrom(t, from);
    if c.None? {
      return None, 0;
    }
    next := Some(c.value + 1);
    y := ParseFloatX1000(t[c.value + 1..], 0);
  }

  /** An extra whose field starts at `p` is the number read there, divided and cast. */
  lemma ExtraFieldAt(t: string, k: nat, divisor: nat, prev: u32, p: nat, y: int)
    requires divisor > 0 && AfterComma(t, k) == Some(p) && y == ParseX1000(t[p..])
    ensures ExtraField(t, k, divisor, prev) == Trunc32(CDiv(y, divisor))
  {
    assert FieldValue(t, k) == Some(y);
  }

  /** A slope field that starts at `p` is the number read there, in hundredths, cast to 16 bits. */
  lemma SlopeFieldAt(t: string, k: nat, p: nat, y: int)
    requires AfterComma(t, k) == Some(p) && y == ParseX1000(t[p..])
    ensures SlopeField(t, k) == Some(Int16(CDiv(y, 10)))
  {
    assert FieldValue(t, k) == Some(y);
  }
}
