/**
 * The text layer of the Atlas Scientific EZO driver: NUL-terminated strings, the fixed-point
 * decimal reader `ParseFloat_x1000`, `strchr`-style comma search, `atoi`, and the `%d.%02d`
 * formatting the commands use. A C string is a `seq<char>` that ends at its first `'\0'` or at
 * the end of the sequence, whichever comes first.
 */
module AtlasText {
  import opened Wrappers
  import opened Bytes

  /** A decimal digit's value. */
  type digit = x: int | 0 <= x < 10

  predicate IsDigit(c: char)
  {
    '0' <= c <= '9'
  }

  function DigitVal(c: char): digit
    requires IsDigit(c)
  {
    c as int - '0' as int
  }

  function DigitChar(d: digit): (c: char)
    ensures IsDigit(c) && DigitVal(c) == d
  {
    ('0' as int + d) as char
  }

  /** A text made of digits only. */
  predicate AllDigits(t: string)
  {
    forall k :: 0 <= k < |t| ==> IsDigit(t[k])
  }

  /** The characters that end a number: NUL, `,`, CR and LF. */
  predicate IsTerminator(c: char)
  {
    c == '\0' || c == ',' || c == '\r' || c == '\n'
  }

  function Pow10(n: nat): (p: nat)
    ensures p >= 1
  {
    if n == 0 then 1 else 10 * Pow10(n - 1)
  }

  // ---------------------------------------------------------------- C strings

  /** The index of the first NUL at or after `i`, or the end of `s`. */
  function NulFrom(s: string, i: nat): (r: nat)
    requires i <= |s|
    ensures i <= r <= |s| && (r < |s| ==> s[r] == '\0')
    ensures forall k :: i <= k < r ==> s[k] != '\0'
    decreases |s| - i
  {
    if i == |s| || s[i] == '\0' then i else NulFrom(s, i + 1)
  }

  /** The string a NUL-terminated buffer holds. */
  function CString(s: string): (r: string)
    ensures |r| <= |s| && r == s[..|r|]
    ensures |r| < |s| ==> s[|r|] == '\0'
    ensures forall k :: 0 <= k < |r| ==> r[k] != '\0'
  {
    s[..NulFrom(s, 0)]
  }

  /** The C string of a buffer is fixed by where its first NUL is. */
  lemma CStringAt(s: string, j: nat)
    requires j <= |s| && (j < |s| ==> s[j] == '\0')
    requires forall k :: 0 <= k < j ==> s[k] != '\0'
    ensures CString(s) == s[..j]
  {
    NulFromIs(s, 0, j);
  }

  lemma {:induction false} NulFromIs(s: string, i: nat, j: nat)
    requires i <= j <= |s| && (j < |s| ==> s[j] == '\0')
    requires forall k :: i <= k < j ==> s[k] != '\0'
    ensures NulFrom(s, i) == j
    decreases j - i
  {
    if i < j {
      NulFromIs(s, i + 1, j);
    }
  }

  /** Bytes read as characters. */
  function ToChars(b: seq<byte>): (s: string)
    ensures |s| == |b| && forall k :: 0 <= k < |b| ==> s[k] as int == b[k]
  {
    seq(|b|, k requires 0 <= k < |b| => b[k] as char)
  }

  /** `strchr(s + i, ',')`: the first comma at or after `i`, if any. */
  function CommaFrom(s: string, i: nat): (r: Option<nat>)
    requires i <= |s|
    ensures r.Some? ==> i <= r.value < |s| && s[r.value] == ','
    decreases |s| - i
  {
    if i == |s| then None
    else if s[i] == ',' then Some(i)
    else CommaFrom(s, i + 1)
  }

  /** `CommaFrom` finds the first comma: there is none before it, and none at all when it fails. */
  lemma {:induction false} CommaFromMeaning(s: string, i: nat)
    requires i <= |s|
    ensures var r := CommaFrom(s, i);
      forall k :: i <= k < (if r.Some? then r.value else |s|) ==> s[k] != ','
    decreases |s| - i
  {
    if i < |s| && s[i] != ',' {
      CommaFromMeaning(s, i + 1);
    }
  }

  /** The number of commas in `s[lo..hi]`. */
  function Commas(s: string, lo: nat, hi: nat): nat
    requires lo <= hi <= |s|
    decreases hi - lo
  {
    if lo == hi then 0 else Commas(s, lo, hi - 1) + (if s[hi - 1] == ',' then 1 else 0)
  }

  lemma {:induction false} CommasSplit(s: string, lo: nat, mid: nat, hi: nat)
    requires lo <= mid <= hi <= |s|
    ensures Commas(s, lo, hi) == Commas(s, lo, mid) + Commas(s, mid, hi)
    decreases hi - mid
  {
    if mid < hi {
      CommasSplit(s, lo, mid, hi - 1);
    }
  }

  lemma {:induction false} NoCommas(s: string, lo: nat, hi: nat)
    requires lo <= hi <= |s| && forall k :: lo <= k < hi ==> s[k] != ','
    ensures Commas(s, lo, hi) == 0
    decreases hi - lo
  {
    if lo < hi {
      NoCommas(s, lo, hi - 1);
    }
  }

  /**
   * The position just past the (k+1)-th comma of `s`, if there is one: the start of field k+1
   * of a comma-separated reply. Field 1 is found with `strchr` from the start of the text and
   * each later one with `strchr` from the start of the one before.
   */
  function AfterComma(s: string, k: nat): (r: Option<nat>)
    ensures r.Some? ==> 0 < r.value <= |s| && s[r.value - 1] == ','
  {
    FieldAfter(s, 0, k)
  }

  /** The start of the (k+1)-th field after position `i`. */
  function FieldAfter(s: string, i: nat, k: nat): (r: Option<nat>)
    requires i <= |s|
    ensures r.Some? ==> i < r.value <= |s| && s[r.value - 1] == ','
    decreases k
  {
    match NextField(s, i)
    case None => None
    case Some(j) => if k == 0 then Some(j) else FieldAfter(s, j, k - 1)
  }

  /** Just past the first comma at or after `i`. */
  function NextField(s: string, i: nat): (r: Option<nat>)
    requires i <= |s|
    ensures r.Some? ==> i < r.value <= |s| && s[r.value - 1] == ','
  {
    match CommaFrom(s, i)
    case None => None
    case Some(c) => Some(c + 1)
  }

  /** Searching from `i` for a comma finds the next one, or shows there are no more. */
  lemma CommaStep(s: string, i: nat)
    requires i <= |s|
    ensures CommaFrom(s, i).Some? ==> Commas(s, 0, CommaFrom(s, i).value + 1) == Commas(s, 0, i) + 1
    ensures CommaFrom(s, i).None? ==> Commas(s, 0, |s|) == Commas(s, 0, i)
  {
    CommaFromMeaning(s, i);
    match CommaFrom(s, i)
    case None =>
      NoCommas(s, i, |s|);
      CommasSplit(s, 0, i, |s|);
    case Some(c) =>
      NoCommas(s, i, c);
      CommasSplit(s, 0, i, c);
  }

  /** `FieldAfter(s, i, k)` is just past the (k+1)-th comma from `i`, missing when there are fewer. */
  lemma {:induction false} FieldAfterCounts(s: string, i: nat, k: nat)
    requires i <= |s|
    ensures FieldAfter(s, i, k).Some? ==> Commas(s, 0, FieldAfter(s, i, k).value) == Commas(s, 0, i) + k + 1
    ensures FieldAfter(s, i, k).None? ==> Commas(s, 0, |s|) <= Commas(s, 0, i) + k
    decreases k
  {
    CommaStep(s, i);
    match NextField(s, i)
    case None =>
    case Some(j) =>
      if k > 0 {
        FieldAfterCounts(s, j, k - 1);
      }
  }

  /**
   * `AfterComma(s, k)` is just past the comma that makes k+1 of them, and it is missing only
   * when `s` has at most k commas.
   */
  lemma AfterCommaCounts(s: string, k: nat)
    ensures AfterComma(s, k).Some? ==> Commas(s, 0, AfterComma(s, k).value) == k + 1
    ensures AfterComma(s, k).None? ==> Commas(s, 0, |s|) <= k
  {
    FieldAfterCounts(s, 0, k);
  }

  /** Each field is found by searching on from the start of the one before. */
  lemma {:induction false} FieldAfterNext(s: string, i: nat, k: nat)
    requires i <= |s|
    ensures FieldAfter(s, i, k).None? ==> FieldAfter(s, i, k + 1).None?
    ensures FieldAfter(s, i, k).Some? ==> FieldAfter(s, i, k + 1) == NextField(s, FieldAfter(s, i, k).value)
    decreases k
  {
    match NextField(s, i)
    case None =>
    case Some(j) =>
      assert FieldAfter(s, i, k + 1) == FieldAfter(s, j, k);
      if k > 0 {
        FieldAfterNext(s, j, k - 1);
        assert FieldAfter(s, i, k) == FieldAfter(s, j, k - 1);
      }
  }

  /** `AfterComma(s, k + 1)` is `strchr` from the start of field k+1, as the driver searches. */
  lemma AfterCommaNext(s: string, k: nat)
    ensures AfterComma(s, k).None? ==> AfterComma(s, k + 1).None?
    ensures AfterComma(s, k).Some? ==> AfterComma(s, k + 1) == NextField(s, AfterComma(s, k).value)
  {
    FieldAfterNext(s, 0, k);
  }

  /** A text without commas. */
  predicate CommaFree(t: string)
  {
    forall k :: 0 <= k < |t| ==> t[k] != ','
  }

  /** Comma-separated fields, as the device lays out a reply. */
  function Join(fs: seq<string>): string
    requires |fs| > 0
  {
    if |fs| == 1 then fs[0] else fs[0] + "," + Join(fs[1..])
  }

  /** A position found in a text after its first `m` characters, as a position in the whole. */
  function Shift(r: Option<nat>, m: nat): Option<nat>
  {
    if r.Some? then Some(m + r.value) else None
  }

  /** `CommaFrom` from `p = m + i` finds what it finds from `i` in the text `b` after `m`, moved by `m`. */
  lemma {:induction false} CommaFromDrop(s: string, b: string, m: nat, i: nat, p: nat)
    requires p == m + i <= |s| && b == s[m..]
    ensures CommaFrom(s, p) == Shift(CommaFrom(b, i), m)
    decreases |s| - p
  {
    if p < |s| {
      assert b[i] == s[p];
      if s[p] != ',' {
        CommaFromDrop(s, b, m, i + 1, p + 1);
      }
    }
  }

  /** The same for `FieldAfter`: fields are found in the text after `m` as in the whole text. */
  lemma {:induction false} FieldAfterDrop(s: string, b: string, m: nat, i: nat, p: nat, k: nat)
    requires p == m + i <= |s| && b == s[m..]
    ensures FieldAfter(s, p, k) == Shift(FieldAfter(b, i, k), m)
    decreases k
  {
    CommaFromDrop(s, b, m, i, p);
    match NextField(b, i)
    case None =>
      assert NextField(s, p) == None;
      assert FieldAfter(s, p, k) == None;
      assert FieldAfter(b, i, k) == None;
    case Some(j) =>
      assert NextField(s, p) == Some(m + j);
      if k == 0 {
        assert FieldAfter(s, p, 0) == Some(m + j);
        assert FieldAfter(b, i, 0) == Some(j);
      } else {
        FieldAfterDrop(s, b, m, j, m + j, k - 1);
        assert FieldAfter(s, p, k) == FieldAfter(s, m + j, k - 1);
        assert FieldAfter(b, i, k) == FieldAfter(b, j, k - 1);
      }
  }

  /** The first comma of `a + "," + b` is the one after `a` when `a` has none. */
  lemma {:induction false} CommaAfterFree(a: string, b: string, i: nat)
    requires i <= |a| && CommaFree(a)
    ensures CommaFrom(a + "," + b, i) == Some(|a|)
    decreases |a| - i
  {
    var s := a + "," + b;
    if i < |a| {
      assert s[i] == a[i];
      CommaAfterFree(a, b, i + 1);
    } else {
      assert s[|a|] == ',';
    }
  }

  /** A comma-free text has no field after its first. */
  lemma NoFieldAfter(t: string, k: nat)
    requires CommaFree(t)
    ensures AfterComma(t, k).None?
  {
    AfterCommaCounts(t, k);
    NoCommas(t, 0, |t|);
  }

  /**
   * Fields joined with commas are found again: field k+1 starts just after the (k+1)-th comma,
   * the text from there is the rest of the fields, and there is no field past the last one.
   */
  lemma {:induction false} JoinFields(fs: seq<string>, k: nat)
    requires |fs| > 0 && forall i :: 0 <= i < |fs| ==> CommaFree(fs[i])
    ensures k + 1 < |fs| ==>
      AfterComma(Join(fs), k).Some? && Join(fs)[AfterComma(Join(fs), k).value..] == Join(fs[k + 1..])
    ensures k + 1 >= |fs| ==> AfterComma(Join(fs), k).None?
    decreases k
  {
    if |fs| == 1 {
      assert Join(fs) == fs[0];
      NoFieldAfter(fs[0], k);
    } else {
      var rest := fs[1..];
      assert Join(fs) == fs[0] + "," + Join(rest);
      if k > 0 {
        JoinFields(rest, k - 1);
      }
      if k < |rest| {
        assert rest[k..] == fs[k + 1..];
        if k == 0 {
          assert rest[0..] == rest;
        }
      }
      FieldsStep(fs[0], Join(rest), k, k < |rest|, if k < |rest| then Join(rest[k..]) else "");
    }
  }

  /**
   * `JoinFields` for a first field `a` in front of the text `b` of the other fields, from what
   * holds for `b`: `more` says whether field k+1 exists, and `tail` is the text from it on.
   */
  lemma FieldsStep(a: string, b: string, k: nat, more: bool, tail: string)
    requires CommaFree(a)
    requires k == 0 ==> more && tail == b
    requires k > 0 && more ==> AfterComma(b, k - 1).Some? && b[AfterComma(b, k - 1).value..] == tail
    requires k > 0 && !more ==> AfterComma(b, k - 1).None?
    ensures more ==> AfterComma(a + "," + b, k).Some? && (a + "," + b)[AfterComma(a + "," + b, k).value..] == tail
    ensures !more ==> AfterComma(a + "," + b, k).None?
  {
    var s := a + "," + b;
    var m := |a| + 1;
    CommaAfterFree(a, b, 0);
    assert NextField(s, 0) == Some(m);
    assert s[m..] == b;
    if k == 0 {
      assert AfterComma(s, 0) == Some(m);
    } else {
      LaterField(s, b, m, k);
      if more {
        var i := AfterComma(b, k - 1).value;
        assert s[m + i..] == b[i..];
      }
    }
  }

  /** Behind a first field ending at `m`, field k+1 is field k of the text `b` after it, moved by `m`. */
  lemma LaterField(s: string, b: string, m: nat, k: nat)
    requires m <= |s| && b == s[m..] && NextField(s, 0) == Some(m) && k > 0
    ensures AfterComma(s, k) == Shift(AfterComma(b, k - 1), m)
  {
    assert AfterComma(s, k) == FieldAfter(s, m, k - 1);
    FieldAfterDrop(s, b, m, 0, m, k - 1);
  }

  // ---------------------------------------------------------------- digits and numbers

  /** The digit a character contributes: one if it is a digit, none otherwise. */
  function DigitOf(c: char): seq<digit>
  {
    if IsDigit(c) then [DigitVal(c)] else []
  }

  /** The digits of `s[lo..hi]`, in order, every other character left out. */
  function DigitsIn(s: string, lo: nat, hi: nat): seq<digit>
    requires lo <= hi <= |s|
    decreases hi - lo
  {
    if hi == lo then [] else DigitsIn(s, lo, hi - 1) + DigitOf(s[hi - 1])
  }

  /** The value of the first `n` digits of a list, most significant first. */
  function NumberOf(ds: seq<digit>, n: nat): nat
    requires n <= |ds|
  {
    if n == 0 then 0 else NumberOf(ds, n - 1) * 10 + ds[n - 1]
  }

  /** The value of a list of decimal digits. */
  function Number(ds: seq<digit>): nat
  {
    NumberOf(ds, |ds|)
  }

  /** The value of the first `n` digits depends on those digits only. */
  lemma {:induction false} NumberPrefix(a: seq<digit>, b: seq<digit>, n: nat)
    requires n <= |a| && n <= |b| && forall k :: 0 <= k < n ==> a[k] == b[k]
    ensures NumberOf(a, n) == NumberOf(b, n)
  {
    if n > 0 {
      NumberPrefix(a, b, n - 1);
    }
  }

  /** One more digit on the right: ten times the value, plus the digit. */
  lemma NumberAppend(ds: seq<digit>, d: digit)
    ensures Number(ds + [d]) == Number(ds) * 10 + d
  {
    NumberPrefix(ds + [d], ds, |ds|);
  }

  /** `n` digits are worth less than 10^n. */
  lemma {:induction false} NumberBound(ds: seq<digit>, n: nat)
    requires n <= |ds|
    ensures NumberOf(ds, n) < Pow10(n)
  {
    if n > 0 {
      NumberBound(ds, n - 1);
    }
  }

  /** In a stretch of digits only, every character contributes one digit. */
  lemma {:induction false} AllDigitsCount(s: string, lo: nat, hi: nat)
    requires lo <= hi <= |s| && forall k :: lo <= k < hi ==> IsDigit(s[k])
    ensures |DigitsIn(s, lo, hi)| == hi - lo
    decreases hi - lo
  {
    if lo < hi {
      AllDigitsCount(s, lo, hi - 1);
    }
  }

  // ---------------------------------------------------------------- ParseFloat_x1000

  /** The first index at or after `i` that is not a space. */
  function LeadingSpaces(s: string, i: nat): (r: nat)
    requires i <= |s|
    ensures i <= r <= |s| && (r < |s| ==> s[r] != ' ')
    decreases |s| - i
  {
    if i < |s| && s[i] == ' ' then LeadingSpaces(s, i + 1) else i
  }

  /** The first terminator at or after `i`, or the end of `s`. */
  function FieldEnd(s: string, i: nat): (r: nat)
    requires i <= |s|
    ensures i <= r <= |s| && (r < |s| ==> IsTerminator(s[r]))
    decreases |s| - i
  {
    if i == |s| || IsTerminator(s[i]) then i else FieldEnd(s, i + 1)
  }

  /** The first `.` in `s[lo..hi]`, or `hi`. */
  function PointIn(s: string, lo: nat, hi: nat): (p: nat)
    requires lo <= hi <= |s|
    ensures lo <= p <= hi && (p < hi ==> s[p] == '.')
    decreases hi - lo
  {
    if hi == lo then lo
    else
      var p := PointIn(s, lo, hi - 1);
      if p < hi - 1 then p else if s[hi - 1] == '.' then hi - 1 else hi
  }

  /** A `-` directly after the leading spaces. */
  predicate Negative(s: string, at: nat)
    requires at <= |s|
  {
    var i := LeadingSpaces(s, at);
    i < |s| && s[i] == '-'
  }

  /** Where the digits of the number begin. */
  function NumberStart(s: string, at: nat): (r: nat)
    requires at <= |s|
    ensures at <= r <= |s|
  {
    LeadingSpaces(s, at) + (if Negative(s, at) then 1 else 0)
  }

  /** The integer part of the text `s[lo..hi]`: the digits before its first `.`. */
  function Whole(s: string, lo: nat, hi: nat): nat
    requires lo <= hi <= |s|
  {
    Number(DigitsIn(s, lo, PointIn(s, lo, hi)))
  }

  /** The digits after the first `.` of `s[lo..hi]`, none when there is no `.`. */
  function FracDigits(s: string, lo: nat, hi: nat): seq<digit>
    requires lo <= hi <= |s|
  {
    var p := PointIn(s, lo, hi);
    if p < hi then DigitsIn(s, p + 1, hi) else []
  }

  /** How many of the decimals count: at most three. */
  function Places(ds: seq<digit>): (n: nat)
    ensures n <= 3 && n <= |ds| && (n < 3 ==> n == |ds|)
  {
    if |ds| < 3 then |ds| else 3
  }

  /** Thousandths from the decimals: the first three, padded with zeros on the right. */
  function Frac3(ds: seq<digit>): nat
  {
    NumberOf(ds, Places(ds)) * Pow10(3 - Places(ds))
  }

  /** The thousandths never carry into the integer part. */
  lemma Frac3Bound(ds: seq<digit>)
    ensures Frac3(ds) < 1000
  {
    var n := Places(ds);
    NumberBound(ds, n);
    assert Pow10(n) * Pow10(3 - n) == 1000;
  }

  /** The text `s[lo..hi]` read as a number: integer part times 1000 plus the thousandths. */
  function Magnitude(s: string, lo: nat, hi: nat): nat
    requires lo <= hi <= |s|
  {
    Whole(s, lo, hi) * 1000 + Frac3(FracDigits(s, lo, hi))
  }

  /**
   * What `ParseFloat_x1000` returns for the text starting at `at`: the number read after the
   * leading spaces and the optional `-`, up to the first terminator, in thousandths and with its
   * sign.
   */
  function ParseAt(s: string, at: nat): int
    requires at <= |s|
  {
    var st := NumberStart(s, at);
    var m: int := Magnitude(s, st, FieldEnd(s, st));
    if Negative(s, at) then -m else m
  }

  /** `ParseFloat_x1000` of a whole string. */
  function ParseX1000(s: string): int
  {
    ParseAt(s, 0)
  }

  /** Past the point, one more character adds its digit to the decimals and nothing else. */
  lemma StepDecimal(s: string, lo: nat, i: nat)
    requires lo <= i < |s| && PointIn(s, lo, i) < i
    ensures PointIn(s, lo, i + 1) == PointIn(s, lo, i) && Whole(s, lo, i + 1) == Whole(s, lo, i)
    ensures FracDigits(s, lo, i + 1) == FracDigits(s, lo, i) + DigitOf(s[i])
  {
    var p := PointIn(s, lo, i);
    assert PointIn(s, lo, i + 1) == p;
    assert FracDigits(s, lo, i) == DigitsIn(s, p + 1, i);
    assert FracDigits(s, lo, i + 1) == DigitsIn(s, p + 1, i + 1);
    assert DigitsIn(s, p + 1, i + 1) == DigitsIn(s, p + 1, i) + DigitOf(s[i]);
  }

  /** The first point starts the decimals. */
  lemma StepPoint(s: string, lo: nat, i: nat)
    requires lo <= i < |s| && PointIn(s, lo, i) == i && s[i] == '.'
    ensures PointIn(s, lo, i + 1) == i && Whole(s, lo, i + 1) == Whole(s, lo, i) && FracDigits(s, lo, i + 1) == []
  {
  }

  /** Before the point, one more character adds its digit to the integer part. */
  lemma StepWhole(s: string, lo: nat, i: nat)
    requires lo <= i < |s| && PointIn(s, lo, i) == i && s[i] != '.'
    ensures PointIn(s, lo, i + 1) == i + 1 && FracDigits(s, lo, i + 1) == []
    ensures Whole(s, lo, i + 1) == if IsDigit(s[i]) then Whole(s, lo, i) * 10 + DigitVal(s[i]) else Whole(s, lo, i)
  {
    var ds := DigitsIn(s, lo, i);
    assert DigitsIn(s, lo, i + 1) == ds + DigitOf(s[i]);
    if IsDigit(s[i]) {
      NumberAppend(ds, DigitVal(s[i]));
    } else {
      assert ds + DigitOf(s[i]) == ds;
    }
  }

  /** The counted decimals grow by one digit until there are three. */
  lemma PlacesAppend(ds: seq<digit>, d: digit)
    ensures Places(ds) < 3 ==>
      Places(ds + [d]) == Places(ds) + 1 && NumberOf(ds + [d], Places(ds + [d])) == NumberOf(ds, Places(ds)) * 10 + d
    ensures Places(ds) == 3 ==> Places(ds + [d]) == 3 && NumberOf(ds + [d], 3) == NumberOf(ds, 3)
  {
    NumberPrefix(ds + [d], ds, Places(ds));
  }

  lemma {:induction false} LeadingSpacesIs(s: string, i: nat, j: nat)
    requires i <= j <= |s| && (j < |s| ==> s[j] != ' ')
    requires forall k :: i <= k < j ==> s[k] == ' '
    ensures LeadingSpaces(s, i) == j
    decreases j - i
  {
    if i < j {
      LeadingSpacesIs(s, i + 1, j);
    }
  }

  lemma {:induction false} FieldEndIs(s: string, i: nat, j: nat)
    requires i <= j <= |s| && (j < |s| ==> IsTerminator(s[j]))
    requires forall k :: i <= k < j ==> !IsTerminator(s[k])
    ensures FieldEnd(s, i) == j
    decreases j - i
  {
    if i < j {
      FieldEndIs(s, i + 1, j);
    }
  }

  /** The leading spaces are exactly the spaces before `LeadingSpaces`. */
  lemma {:induction false} LeadingSpacesMeaning(s: string, i: nat)
    requires i <= |s|
    ensures forall k :: i <= k < LeadingSpaces(s, i) ==> s[k] == ' '
    decreases |s| - i
  {
    if i < |s| && s[i] == ' ' {
      LeadingSpacesMeaning(s, i + 1);
    }
  }

  /** No terminator comes before `FieldEnd`. */
  lemma {:induction false} FieldEndMeaning(s: string, i: nat)
    requires i <= |s|
    ensures forall k :: i <= k < FieldEnd(s, i) ==> !IsTerminator(s[k])
    decreases |s| - i
  {
    if i < |s| && !IsTerminator(s[i]) {
      FieldEndMeaning(s, i + 1);
    }
  }

  /** No point comes before `PointIn`. */
  lemma {:induction false} PointInMeaning(s: string, lo: nat, hi: nat)
    requires lo <= hi <= |s|
    ensures forall k :: lo <= k < PointIn(s, lo, hi) ==> s[k] != '.'
    decreases hi - lo
  {
    if lo < hi {
      PointInMeaning(s, lo, hi - 1);
    }
  }

  /**
   * Two stretches of text with the same characters, `x[xlo..xhi]` being `s[lo..hi]` shifted by
   * `d`, have the same digits ...
   */
  lemma {:induction false} SameDigits(s: string, x: string, d: int, lo: nat, hi: nat, xlo: nat, xhi: nat)
    requires lo <= hi <= |s| && xhi <= |x| && xlo == lo + d && xhi == hi + d
    requires forall k :: lo <= k < hi ==> s[k] == x[k + d]
    ensures DigitsIn(s, lo, hi) == DigitsIn(x, xlo, xhi)
    decreases hi - lo
  {
    if lo < hi {
      SameDigits(s, x, d, lo, hi - 1, xlo, xhi - 1);
      var c := s[hi - 1];
      assert x[xhi - 1] == c;
      assert DigitsIn(s, lo, hi) == DigitsIn(s, lo, hi - 1) + DigitOf(c);
      assert DigitsIn(x, xlo, xhi) == DigitsIn(x, xlo, xhi - 1) + DigitOf(c);
    }
  }

  /** The digits of `s[lo..hi]` are those of any prefix of `s` that contains them ... */
  lemma {:induction false} DigitsInTake(s: string, n: nat, lo: nat, hi: nat)
    requires lo <= hi <= n <= |s|
    ensures DigitsIn(s[..n], lo, hi) == DigitsIn(s, lo, hi)
    decreases hi - lo
  {
    if lo < hi {
      DigitsInTake(s, n, lo, hi - 1);
      assert s[..n][hi - 1] == s[hi - 1];
    }
  }

  /** ... and so is the first point. */
  lemma {:induction false} PointInTake(s: string, n: nat, lo: nat, hi: nat)
    requires lo <= hi <= n <= |s|
    ensures PointIn(s[..n], lo, hi) == PointIn(s, lo, hi)
    decreases hi - lo
  {
    if lo < hi {
      PointInTake(s, n, lo, hi - 1);
      assert s[..n][hi - 1] == s[hi - 1];
    }
  }

  /**
   * `ParseFloat_x1000`: skip spaces, take an optional `-`, then read characters up to the first
   * terminator, accumulating the integer part before the first `.` and at most three decimals
   * after it; any other character is skipped. The decimals are padded to three places.
   */
  method ParseFloatX1000(s: string, at: nat) returns (v: int)
    requires at <= |s|
    ensures v == ParseAt(s, at)
  {
    var i := at;
    while i < |s| && s[i] == ' '
      invariant at <= i <= |s| && LeadingSpaces(s, i) == LeadingSpaces(s, at)
    {
      i := i + 1;
    }
    var negative := false;
    if i < |s| && s[i] == '-' {
      negative := true;
      i := i + 1;
    }
    assert i == NumberStart(s, at) && negative == Negative(s, at);
    var result, decimal, places := ReadDigits(s, i);
    decimal := PadDecimals(decimal, places);
    var magnitude: int := result * 1000 + decimal;
    v := if negative then -magnitude else magnitude;
  }

  /** The padding loop of `ParseFloat_x1000`: the decimals read, scaled to thousandths. */
  method PadDecimals(decimal: nat, places: nat) returns (r: nat)
    requires places <= 3
    ensures r == decimal * Pow10(3 - places)
  {
    r := decimal;
    var n := places;
    while n < 3
      invariant places <= n <= 3 && r == decimal * Pow10(n - places)
    {
      ghost var pad := Pow10(n - places);
      assert Pow10(n + 1 - places) == pad * 10;
      assert r * 10 == decimal * (pad * 10);
      r := r * 10;
      n := n + 1;
    }
  }

  /**
   * The reading loop of `ParseFloat_x1000`, from `start` to the first terminator: the integer
   * part, and the value and count of the decimals kept.
   */
  method ReadDigits(s: string, start: nat) returns (result: nat, decimal: nat, places: nat)
    requires start <= |s|
    ensures var fr := FracDigits(s, start, FieldEnd(s, start));
      result == Whole(s, start, FieldEnd(s, start)) && places == Places(fr) && decimal == NumberOf(fr, places)
  {
    var i := start;
    var inDecimal := false;
    result, decimal, places := 0, 0, 0;
    ghost var fr: seq<digit> := [];
    while i < |s| && !IsTerminator(s[i])
      invariant start <= i <= |s|
      invariant forall k :: start <= k < i ==> !IsTerminator(s[k])
      invariant result == Whole(s, start, i)
      invariant inDecimal == (PointIn(s, start, i) < i)
      invariant fr == FracDigits(s, start, i)
      invariant places == Places(fr) && decimal == NumberOf(fr, places)
    {
      var c := s[i];
      if inDecimal {
        StepDecimal(s, start, i);
        if IsDigit(c) {
          PlacesAppend(fr, DigitVal(c));
        } else {
          assert fr + DigitOf(c) == fr;
        }
      } else if c == '.' {
        StepPoint(s, start, i);
      } else {
        StepWhole(s, start, i);
      }
      if c == '.' {
        inDecimal := true;
      } else if '0' <= c <= '9' {
        if inDecimal {
          if places < 3 {
            decimal := decimal * 10 + (c as int - '0' as int);
            places := places + 1;
          }
        } else {
          result := result * 10 + (c as int - '0' as int);
        }
      }
      fr := FracDigits(s, start, i + 1);
      i := i + 1;
    }
    FieldEndIs(s, start, i);
  }

  /**
   * A text that starts with `s` has the same sign and number start, as long as the spaces and
   * the sign are decided within `s` or by a following character that is neither.
   */
  lemma SameStart(u: string, s: string)
    requires |s| <= |u| && u[..|s|] == s
    requires LeadingSpaces(s, 0) < |s| || (|s| < |u| && u[|s|] != ' ' && u[|s|] != '-')
    ensures NumberStart(u, 0) == NumberStart(s, 0) && Negative(u, 0) == Negative(s, 0)
  {
    var j := LeadingSpaces(s, 0);
    LeadingSpacesMeaning(s, 0);
    forall k | 0 <= k <= j && k < |s|
      ensures u[k] == s[k]
    {
      assert u[k] == u[..|s|][k];
    }
    LeadingSpacesIs(u, 0, j);
  }

  /** The number in `s[lo..n]` depends on the first `n` characters of `s` only. */
  lemma MagnitudeTake(s: string, n: nat, lo: nat)
    requires lo <= n <= |s|
    ensures PointIn(s[..n], lo, n) == PointIn(s, lo, n) && FracDigits(s[..n], lo, n) == FracDigits(s, lo, n)
    ensures Magnitude(s[..n], lo, n) == Magnitude(s, lo, n)
  {
    PointInTake(s, n, lo, n);
    var p := PointIn(s, lo, n);
    DigitsInTake(s, n, lo, p);
    assert Whole(s[..n], lo, n) == Whole(s, lo, n);
    if p < n {
      DigitsInTake(s, n, p + 1, n);
      assert FracDigits(s[..n], lo, n) == DigitsIn(s[..n], p + 1, n);
      assert FracDigits(s, lo, n) == DigitsIn(s, p + 1, n);
    }
  }

  /** Two texts that agree on their first `hi` characters read the same number in `lo..hi`. */
  lemma SameMagnitude(u: string, s: string, lo: nat, hi: nat)
    requires lo <= hi <= |s| && hi <= |u| && u[..hi] == s[..hi]
    ensures PointIn(u, lo, hi) == PointIn(s, lo, hi) && FracDigits(u, lo, hi) == FracDigits(s, lo, hi)
    ensures Magnitude(u, lo, hi) == Magnitude(s, lo, hi)
  {
    MagnitudeTake(u, hi, lo);
    MagnitudeTake(s, hi, lo);
  }

  /** No terminator in `s` means none in the first `|s|` characters of a text starting with `s`. */
  lemma NoTerminatorPrefix(u: string, s: string, i: nat)
    requires i <= |s| <= |u| && u[..|s|] == s && forall k :: i <= k < |s| ==> !IsTerminator(s[k])
    ensures forall k :: i <= k < |s| ==> !IsTerminator(u[k])
  {
    forall k | i <= k < |s|
      ensures !IsTerminator(u[k])
    {
      assert u[k] == u[..|s|][k];
    }
  }

  /** A text that starts with `s` and then has a terminator is read as `s`. */
  lemma ParsePrefix(u: string, s: string)
    requires |s| < |u| && u[..|s|] == s && IsTerminator(u[|s|])
    requires forall k :: 0 <= k < |s| ==> !IsTerminator(s[k])
    ensures ParseX1000(u) == ParseX1000(s)
  {
    SameStart(u, s);
    var st := NumberStart(s, 0);
    NoTerminatorPrefix(u, s, st);
    FieldEndIs(u, st, |s|);
    FieldEndIs(s, st, |s|);
    SameMagnitude(u, s, st, |s|);
  }

  /** Reading stops at the first terminator: whatever follows it is never looked at. */
  lemma ParseStopsAtTerminator(s: string, c: char, rest: string)
    requires forall k :: 0 <= k < |s| ==> !IsTerminator(s[k])
    requires IsTerminator(c)
    ensures ParseX1000(s + [c] + rest) == ParseX1000(s)
  {
    var u := s + [c] + rest;
    assert u[..|s|] == s;
    assert u[|s|] == c;
    ParsePrefix(u, s);
  }

  /**
   * Reading one more character leaves the number as it is when that character is neither a digit
   * nor a point, or when it is a digit after three decimals.
   */
  lemma MagnitudeSkip(u: string, lo: nat, i: nat, j: nat)
    requires lo <= i < |u| && j == i + 1
    requires (!IsDigit(u[i]) && u[i] != '.') || (PointIn(u, lo, i) < i && |FracDigits(u, lo, i)| >= 3)
    ensures Magnitude(u, lo, j) == Magnitude(u, lo, i)
  {
    var ds := FracDigits(u, lo, i);
    if PointIn(u, lo, i) < i {
      StepDecimal(u, lo, i);
      if IsDigit(u[i]) {
        PlacesAppend(ds, DigitVal(u[i]));
      } else {
        assert ds + DigitOf(u[i]) == ds;
      }
    } else {
      StepWhole(u, lo, i);
    }
  }

  /**
   * One more character `u[|s|]` after a started number `s`, before any terminator, that
   * `MagnitudeSkip` leaves out: `u` is read as `s`.
   */
  lemma ParseExtend(u: string, s: string)
    requires |u| == |s| + 1 && u[..|s|] == s && !IsTerminator(u[|s|]) && LeadingSpaces(s, 0) < |s|
    requires forall k :: 0 <= k < |s| ==> !IsTerminator(s[k])
    requires var st := NumberStart(s, 0);
      (!IsDigit(u[|s|]) && u[|s|] != '.') || (PointIn(s, st, |s|) < |s| && |FracDigits(s, st, |s|)| >= 3)
    ensures ParseX1000(u) == ParseX1000(s)
  {
    var st := NumberStart(s, 0);
    SkipKeepsMagnitude(u, s, st);
    var m: int := Magnitude(s, st, |s|);
    ParseIs(s, st, |s|, m);
    ParseIs(u, st, |u|, m);
  }

  /** The number of `u` starts, ends and is worth what that of `s` is, and has its sign. */
  lemma SkipKeepsMagnitude(u: string, s: string, st: nat)
    requires |u| == |s| + 1 && u[..|s|] == s && !IsTerminator(u[|s|]) && LeadingSpaces(s, 0) < |s|
    requires forall k :: 0 <= k < |s| ==> !IsTerminator(s[k])
    requires st == NumberStart(s, 0)
    requires (!IsDigit(u[|s|]) && u[|s|] != '.') || (PointIn(s, st, |s|) < |s| && |FracDigits(s, st, |s|)| >= 3)
    ensures NumberStart(u, 0) == st && Negative(u, 0) == Negative(s, 0)
    ensures st <= |s| && FieldEnd(u, st) == |u| && FieldEnd(s, st) == |s|
    ensures Magnitude(u, st, |u|) == Magnitude(s, st, |s|)
  {
    AgreeBeforeLast(u, s, st);
    assert (!IsDigit(u[|s|]) && u[|s|] != '.') || (PointIn(u, st, |s|) < |s| && |FracDigits(u, st, |s|)| >= 3);
    MagnitudeSkip(u, st, |s|, |u|);
  }

  /** `ParseX1000` in terms of where the number starts and ends and what its digits are worth. */
  lemma ParseIs(s: string, st: nat, e: nat, m: int)
    requires st == NumberStart(s, 0) && e == FieldEnd(s, st) && st <= e <= |s| && m == Magnitude(s, st, e)
    ensures ParseX1000(s) == if Negative(s, 0) then -m else m
  {
  }

  /** A text one character longer than `s` that agrees with it, before any terminator. */
  lemma AgreeBeforeLast(u: string, s: string, st: nat)
    requires |u| == |s| + 1 && u[..|s|] == s && !IsTerminator(u[|s|]) && LeadingSpaces(s, 0) < |s|
    requires forall k :: 0 <= k < |s| ==> !IsTerminator(s[k])
    requires st == NumberStart(s, 0)
    ensures st <= |s|
    ensures NumberStart(u, 0) == st && Negative(u, 0) == Negative(s, 0) && FieldEnd(u, st) == |u| && FieldEnd(s, st) == |s| &&
      PointIn(u, st, |s|) == PointIn(s, st, |s|) && FracDigits(u, st, |s|) == FracDigits(s, st, |s|) &&
      Magnitude(u, st, |s|) == Magnitude(s, st, |s|)
  {
    SameStart(u, s);
    NoTerminatorPrefix(u, s, st);
    FieldEndIs(u, st, |u|);
    FieldEndIs(s, st, |s|);
    SameMagnitude(u, s, st, |s|);
  }

  /** Characters other than digits, `.` and terminators are skipped. */
  lemma ParseSkips(s: string, c: char)
    requires forall k :: 0 <= k < |s| ==> !IsTerminator(s[k])
    requires LeadingSpaces(s, 0) < |s| && !IsTerminator(c) && !IsDigit(c) && c != '.'
    ensures ParseX1000(s + [c]) == ParseX1000(s)
  {
    var u := s + [c];
    assert u[..|s|] == s;
    ParseExtend(u, s);
  }

  /** Once three decimals have been read, further digits are dropped. */
  lemma ParseDropsFourthDecimal(s: string, c: char)
    requires forall k :: 0 <= k < |s| ==> !IsTerminator(s[k])
    requires LeadingSpaces(s, 0) < |s| && IsDigit(c)
    requires var st := NumberStart(s, 0); PointIn(s, st, |s|) < |s| && |FracDigits(s, st, |s|)| >= 3
    ensures ParseX1000(s + [c]) == ParseX1000(s)
  {
    var u := s + [c];
    assert u[..|s|] == s;
    ParseExtend(u, s);
  }

  // ---------------------------------------------------------------- formatting

  /** `%d` / `%u` of a non-negative number. */
  function DecimalString(n: nat): (r: string)
    ensures |r| >= 1 && AllDigits(r)
  {
    if n < 10 then [DigitChar(n)] else DecimalString(n / 10) + [DigitChar(n % 10)]
  }

  /** `%d` of any integer. */
  function IntString(i: int): string
  {
    if i < 0 then "-" + DecimalString(-i) else DecimalString(i)
  }

  /** `%02d` of a number below 100. */
  function TwoDigits(n: nat): (r: string)
    requires n < 100
    ensures |r| == 2 && IsDigit(r[0]) && IsDigit(r[1])
  {
    [DigitChar(n / 10), DigitChar(n % 10)]
  }

  /** `%d.%02d` of a non-negative number in hundredths. */
  function Hundredths(x: nat): string
  {
    DecimalString(x / 100) + "." + TwoDigits(x % 100)
  }

  /** The digits of a whole string read as one number. */
  function Value(t: string): nat
  {
    Number(DigitsIn(t, 0, |t|))
  }

  /** Reading the digits of a decimal string gives the number back. */
  lemma {:induction false} DecimalStringValue(n: nat)
    ensures Value(DecimalString(n)) == n
  {
    var d := DecimalString(n);
    if n < 10 {
      assert DigitsIn(d, 0, 1) == [] + [n];
      NumberAppend([], n);
    } else {
      var d' := DecimalString(n / 10);
      DecimalStringValue(n / 10);
      var c := DigitChar(n % 10);
      assert d == d' + [c];
      assert DigitsIn(d, 0, |d|) == DigitsIn(d, 0, |d'|) + DigitOf(d[|d'|]);
      assert DigitOf(d[|d'|]) == [n % 10];
      assert d[..|d'|] == d';
      DigitsInTake(d, |d'|, 0, |d'|);
      NumberAppend(DigitsIn(d', 0, |d'|), n % 10);
    }
  }

  /** A number below 10^k takes at most k characters. */
  lemma {:induction false} DecimalLength(n: nat, k: nat)
    requires 1 <= k && n < Pow10(k)
    ensures |DecimalString(n)| <= k
  {
    if n >= 10 {
      assert k >= 2;
      assert n / 10 < Pow10(k - 1);
      DecimalLength(n / 10, k - 1);
    }
  }

  lemma TwoDigitsValue(n: nat)
    requires n < 100
    ensures Value(TwoDigits(n)) == n
  {
    var t := TwoDigits(n);
    assert DigitsIn(t, 0, 2) == [] + [n / 10] + [n % 10];
    NumberAppend([], n / 10);
    NumberAppend([n / 10], n % 10);
    assert [] + [n / 10] == [n / 10];
  }

  /** The first point of `s[lo..hi]` is fixed by the points before it. */
  lemma {:induction false} PointInIs(s: string, lo: nat, hi: nat, p: nat)
    requires lo <= p <= hi <= |s| && (p < hi ==> s[p] == '.')
    requires forall k :: lo <= k < p ==> s[k] != '.'
    ensures PointIn(s, lo, hi) == p
    decreases hi - lo
  {
    if p < hi - 1 {
      PointInIs(s, lo, hi - 1, p);
    } else if p == hi && lo < hi {
      PointInIs(s, lo, hi - 1, hi - 1);
    }
  }

  /**
   * Digits, one point at `pt` and at most three digits from `lo` to the end are read as the
   * integer part times 1000 plus the decimals padded to thousandths.
   */
  lemma MagnitudeLaidOut(s: string, lo: nat, pt: nat)
    requires lo < pt < |s| && |s| - pt - 1 <= 3 && s[pt] == '.'
    requires forall k :: lo <= k < |s| && k != pt ==> IsDigit(s[k])
    ensures FieldEnd(s, lo) == |s|
    ensures Magnitude(s, lo, |s|) ==
      Number(DigitsIn(s, lo, pt)) * 1000 + Number(DigitsIn(s, pt + 1, |s|)) * Pow10(3 - (|s| - pt - 1))
  {
    FieldEndIs(s, lo, |s|);
    PointInIs(s, lo, |s|, pt);
    var fr := DigitsIn(s, pt + 1, |s|);
    assert |fr| == |s| - pt - 1 by {
      AllDigitsCount(s, pt + 1, |s|);
    }
    assert FracDigits(s, lo, |s|) == fr;
    FewPlaces(fr);
    MagnitudeParts(s, lo, |s|, Number(DigitsIn(s, lo, pt)), Number(fr) * Pow10(3 - |fr|));
  }

  /** Up to three decimals all count. */
  lemma FewPlaces(fr: seq<digit>)
    requires |fr| <= 3
    ensures Frac3(fr) == Number(fr) * Pow10(3 - |fr|)
  {
    assert Places(fr) == |fr|;
  }

  /** `Magnitude` from its two parts. */
  lemma MagnitudeParts(s: string, lo: nat, hi: nat, w: nat, f: nat)
    requires lo <= hi <= |s| && Whole(s, lo, hi) == w && Frac3(FracDigits(s, lo, hi)) == f
    ensures Magnitude(s, lo, hi) == w * 1000 + f
  {
  }

  /** The same text after an optional `-` (`st` is its length): the sign is applied to that number. */
  lemma ParseLaidOut(s: string, neg: bool, st: nat, pt: nat, n: nat, a: nat, b: nat)
    requires st == (if neg then 1 else 0) && st < pt < |s| && n == |s| - pt - 1 <= 3 && s[pt] == '.'
    requires neg ==> s[0] == '-'
    requires AllDigits(s[st..pt]) && AllDigits(s[pt + 1..])
    requires a == Number(DigitsIn(s, st, pt)) && b == Number(DigitsIn(s, pt + 1, |s|))
    ensures var m := a * 1000 + b * Pow10(3 - n);
      ParseX1000(s) == if neg then -m else m
  {
    forall k | st <= k < |s| && k != pt
      ensures IsDigit(s[k])
    {
      if k < pt {
        assert s[k] == s[st..pt][k - st];
      } else {
        assert s[k] == s[pt + 1..][k - pt - 1];
      }
    }
    assert NumberStart(s, 0) == st && Negative(s, 0) == neg by {
      assert s[0] != ' ';
      assert LeadingSpaces(s, 0) == 0;
    }
    MagnitudeLaidOut(s, st, pt);
    ParseIs(s, st, |s|, a * 1000 + b * Pow10(3 - n));
  }

  /** Where the parts of `sign + d + "." + f` sit in the joined text. */
  lemma FixedLayout(sign: string, d: string, f: string)
    ensures var s := sign + d + "." + f;
      var pt := |sign| + |d|;
      pt < |s| && s[|sign|..pt] == d && s[pt + 1..] == f && s[pt] == '.' && s[..|sign|] == sign
  {
  }

  /** `ParseLaidOut` with the digit strings named: the parts are worth their `Value`. */
  lemma ParseParts(s: string, neg: bool, st: nat, pt: nat, d: string, f: string)
    requires st == (if neg then 1 else 0) && st < pt < |s| && s[pt] == '.'
    requires neg ==> s[0] == '-'
    requires s[st..pt] == d && s[pt + 1..] == f && |f| <= 3 && AllDigits(d) && AllDigits(f)
    ensures var m := Value(d) * 1000 + Value(f) * Pow10(3 - |f|);
      ParseX1000(s) == if neg then -m else m
  {
    PartValues(s, st, pt, d, f);
    ParseLaidOut(s, neg, st, pt, |f|, Value(d), Value(f));
  }

  /** The two digit strings of a laid-out number are worth their `Value` in place. */
  lemma PartValues(s: string, st: nat, pt: nat, d: string, f: string)
    requires st < pt < |s| && s[st..pt] == d && s[pt + 1..] == f
    ensures Number(DigitsIn(s, st, pt)) == Value(d) && Number(DigitsIn(s, pt + 1, |s|)) == Value(f)
  {
    assert Number(DigitsIn(s, st, pt)) == Value(d) by {
      ValueAt(d, s, st, pt);
    }
    assert Number(DigitsIn(s, pt + 1, |s|)) == Value(f) by {
      ValueAt(f, s, pt + 1, |s|);
    }
  }

  /**
   * A number written as `[-]<digits>.<up to three digits>` is read back exactly: the integer
   * part times 1000 plus the decimals padded to thousandths, with the sign.
   */
  lemma ParseFixed(neg: bool, w: nat, f: string)
    requires |f| <= 3 && AllDigits(f)
    ensures var m := w * 1000 + Value(f) * Pow10(3 - |f|);
      ParseX1000((if neg then "-" else "") + DecimalString(w) + "." + f) == if neg then -m else m
  {
    var sign := if neg then "-" else "";
    var d := DecimalString(w);
    FixedLayout(sign, d, f);
    var s := sign + d + "." + f;
    var pt := |sign| + |d|;
    assert neg ==> s[0] == s[..|sign|][0];
    DecimalStringValue(w);
    ParseParts(s, neg, |sign|, pt, d, f);
  }

  /** A string of digits copied into `s` at `lo..hi` is worth the same there. */
  lemma ValueAt(t: string, s: string, lo: nat, hi: nat)
    requires lo <= hi <= |s| && s[lo..hi] == t
    ensures Number(DigitsIn(s, lo, hi)) == Value(t)
  {
    assert forall k :: 0 <= k < |t| ==> t[k] == s[k + lo];
    SameDigits(t, s, lo, 0, |t|, lo, hi);
  }

  /** `%d.%02d` of a hundredths value is read back as ten times that value. */
  lemma ParseHundredths(neg: bool, x: nat)
    ensures ParseX1000((if neg then "-" else "") + Hundredths(x)) == (if neg then -10 else 10) * x
  {
    var sign := if neg then "-" else "";
    var w, f := x / 100, TwoDigits(x % 100);
    assert sign + Hundredths(x) == sign + DecimalString(w) + "." + f;
    ParseFixed(neg, w, f);
    TwoDigitsValue(x % 100);
    assert Pow10(3 - |f|) == 10;
    assert w * 1000 + Value(f) * 10 == 10 * x;
  }

  /** A number with no decimal point reads as thousands. */
  lemma ParseWhole(w: nat)
    ensures ParseX1000(DecimalString(w)) == w * 1000
  {
    var s := DecimalString(w);
    assert !Negative(s, 0);
    FieldEndIs(s, 0, |s|);
    assert PointIn(s, 0, |s|) == |s|;
    DecimalStringValue(w);
  }

  /** "7.123" reads as 7123. */
  lemma ParseExampleDecimals(s: string)
    requires s == "7.123"
    ensures ParseX1000(s) == 7123
  {
    assert s == "" + DecimalString(7) + "." + "123";
    ParseFixed(false, 7, "123");
    DecimalsValue("123");
  }

  /** The decimals of the example above. */
  lemma DecimalsValue(f: string)
    requires f == "123"
    ensures Value(f) == 123
  {
    var ds: seq<digit> := [1, 2, 3];
    assert DigitsIn(f, 0, 1) == ds[..1];
    assert DigitsIn(f, 0, 2) == ds[..2];
    assert DigitsIn(f, 0, 3) == ds;
    assert NumberOf(ds, 2) == 12;
  }

  /** "25" reads as 25000. */
  lemma ParseExampleWhole()
    ensures ParseX1000("25") == 25000
  {
    assert DecimalString(25) == "25";
    ParseWhole(25);
  }

  /** "-0.5" reads as -500. */
  lemma ParseExampleNegative(s: string)
    requires s == "-0.5"
    ensures ParseX1000(s) == -500
  {
    assert s == "-" + DecimalString(0) + "." + "5";
    ParseFixed(true, 0, "5");
    var five: seq<digit> := [5];
    assert DigitsIn("5", 0, 1) == five;
    assert NumberOf(five, 1) == 5;
    assert Pow10(2) == 100;
  }

  // ---------------------------------------------------------------- atoi

  /** `isspace`: space, or tab, LF, VT, FF or CR (9 to 13). */
  predicate IsSpace(c: char)
  {
    c == ' ' || '\t' <= c <= '\r'
  }

  /** The first index at or after `i` that is not white space. */
  function SkipWhite(s: string, i: nat): (r: nat)
    requires i <= |s|
    ensures i <= r <= |s| && (r < |s| ==> !IsSpace(s[r]))
    ensures forall k :: i <= k < r ==> IsSpace(s[k])
    decreases |s| - i
  {
    if i < |s| && IsSpace(s[i]) then SkipWhite(s, i + 1) else i
  }

  /** The end of the run of digits starting at `i`. */
  function DigitRun(s: string, i: nat): (r: nat)
    requires i <= |s|
    ensures i <= r <= |s| && (r < |s| ==> !IsDigit(s[r]))
    ensures forall k :: i <= k < r ==> IsDigit(s[k])
    decreases |s| - i
  {
    if i < |s| && IsDigit(s[i]) then DigitRun(s, i + 1) else i
  }

  lemma {:induction false} DigitRunIs(s: string, i: nat, j: nat)
    requires i <= j <= |s| && (j < |s| ==> !IsDigit(s[j]))
    requires forall k :: i <= k < j ==> IsDigit(s[k])
    ensures DigitRun(s, i) == j
    decreases j - i
  {
    if i < j {
      DigitRunIs(s, i + 1, j);
    }
  }

  /** `atoi(s + at)`: white space, an optional sign, then the longest run of digits. */
  function Atoi(s: string, at: nat): int
    requires at <= |s|
  {
    var i := SkipWhite(s, at);
    var j := if i < |s| && (s[i] == '-' || s[i] == '+') then i + 1 else i;
    var n: int := Number(DigitsIn(s, j, DigitRun(s, j)));
    if i < |s| && s[i] == '-' then -n else n
  }

  /** `atoi` reads a decimal string back as its number. */
  lemma AtoiDecimal(n: nat)
    ensures Atoi(DecimalString(n), 0) == n
  {
    var s := DecimalString(n);
    assert !IsSpace(s[0]);
    DigitRunIs(s, 0, |s|);
    DecimalStringValue(n);
  }
}
