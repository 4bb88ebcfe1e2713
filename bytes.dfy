/** An optional value, for results the source reports through a success flag or a null pointer. */
module Wrappers {
  datatype Option<T> = None | Some(value: T)
}

/** Fixed-width unsigned integers of the firmware, as bounded mathematical integers. */
module Bytes {
  /** uint8_t */
  type byte = x: int | 0 <= x < 0x100
  /** uint16_t */
  type u16 = x: int | 0 <= x < 0x1_0000
  /** uint32_t */
  type u32 = x: int | 0 <= x < 0x1_0000_0000

  /** `(hi << 8) | lo` for two bytes: the bit fields do not overlap, so the OR is a sum. */
  function Word(hi: byte, lo: byte): u16
  {
    hi * 256 + lo
  }

  /** `(w >> 8) & 0xFF` */
  function HighByte(w: u16): (b: byte)
    ensures b * 256 <= w < b * 256 + 256
  {
    w / 256
  }

  /** `w & 0xFF` */
  function LowByte(w: u16): (b: byte)
    ensures (w - b) % 256 == 0
  {
    w % 256
  }

  /** Joining two bytes into a word and splitting it again gives the two bytes back. */
  lemma WordBytes(hi: byte, lo: byte)
    ensures HighByte(Word(hi, lo)) == hi && LowByte(Word(hi, lo)) == lo
  {
  }

  /** Splitting a word into its two bytes and joining them again gives the word back. */
  lemma WordRoundTrip(w: u16)
    ensures Word(HighByte(w), LowByte(w)) == w
  {
  }

  /** `(uint8_t)x`: truncation of any integer to 8 bits. */
  function Trunc8(x: int): (r: byte)
    ensures 0 <= x < 0x100 ==> r == x
    ensures (x - r) % 0x100 == 0
  {
    x % 0x100
  }

  /** `(uint16_t)x`: truncation of any integer to 16 bits. */
  function Trunc16(x: int): (r: u16)
    ensures 0 <= x < 0x1_0000 ==> r == x
    ensures (x - r) % 0x1_0000 == 0
  {
    x % 0x1_0000
  }

  /** `(uint32_t)x`: truncation of any integer to 32 bits. */
  function Trunc32(x: int): (r: u32)
    ensures 0 <= x < 0x1_0000_0000 ==> r == x
    ensures (x - r) % 0x1_0000_0000 == 0
  {
    x % 0x1_0000_0000
  }

  /** `(int8_t)x`: two's-complement truncation of any integer to 8 bits. */
  function Int8(x: int): (r: int)
    ensures -0x80 <= r < 0x80
    ensures -0x80 <= x < 0x80 ==> r == x
    ensures (x - r) % 0x100 == 0
  {
    (x + 0x80) % 0x100 - 0x80
  }

  /** `(int16_t)x`: two's-complement truncation of any integer to 16 bits. */
  function Int16(x: int): (r: int)
    ensures -0x8000 <= r < 0x8000
    ensures -0x8000 <= x < 0x8000 ==> r == x
    ensures (x - r) % 0x1_0000 == 0
  {
    (x + 0x8000) % 0x1_0000 - 0x8000
  }

  /** C division on `int`: truncates toward zero (Dafny's `/` is Euclidean). */
  function CDiv(a: int, b: int): int
    requires b != 0
  {
    if a >= 0 then a / b
    else if b > 0 then -((-a) / b)
    else -(a / (-b))
  }

  /** C remainder on `int`: has the sign of the dividend. */
  function CMod(a: int, b: int): int
    requires b != 0
  {
    a - CDiv(a, b) * b
  }

  /**
   * C division by a positive divisor rounds toward zero: it agrees with floor division on
   * non-negative dividends, is odd in the dividend, and leaves a remainder with the sign of the
   * dividend and smaller than the divisor.
   */
  lemma CDivMeaning(a: int, b: int)
    requires b > 0
    ensures a >= 0 ==> CDiv(a, b) == a / b
    ensures CDiv(-a, b) == -CDiv(a, b)
    ensures a == CDiv(a, b) * b + CMod(a, b)
    ensures a >= 0 ==> 0 <= CMod(a, b) < b
    ensures a < 0 ==> -b < CMod(a, b) <= 0
  {
  }
}

/** Facts about multiplication and division by positive numbers that the conversions rely on. */
module Arithmetic {
  /** Scaling by a non-negative factor keeps the order. */
  lemma ScaleMonotone(a: int, b: int, d: nat)
    requires a <= b
    ensures a * d <= b * d
  {
  }

  /** A quotient and remainder in range are the ones division computes. */
  lemma DivUnique(n: int, m: int, q: int, r: int)
    requires 0 < m && 0 <= r < m && n == q * m + r
    ensures n / m == q && n % m == r
  {
    var q0 := n / m;
    if q > q0 {
      ScaleMonotone(q0 + 1, q, m);
      assert false;
    }
    if q < q0 {
      ScaleMonotone(q + 1, q0, m);
      assert false;
    }
  }

  /** `x / d' <= y / d` when `x <= y` and `0 < d <= d'`. */
  lemma DivMonotone(x: nat, y: nat, d: nat, d': nat)
    requires x <= y && 0 < d <= d'
    ensures x / d' <= y / d
  {
    var q, r := x / d', y / d;
    assert q * d' <= x;
    ScaleMonotone(d, d', q);
    assert y < r * d + d;
    if q > r {
      ScaleMonotone(r + 1, q, d);
      assert false;
    }
  }

  /** `x * m / d` stays within `m` when `x <= d`, and is `m` when `x == d`. */
  lemma ScaledBounded(x: nat, m: nat, d: nat)
    requires 0 < d && x <= d
    ensures (x * m) / d <= m
    ensures x == d ==> (x * m) / d == m
  {
    ScaleMonotone(x, d, m);
    DivMonotone(x * m, d * m, d, d);
    DivUnique(d * m, d, m, 0);
  }

  /** A common factor cancels in a division. */
  lemma CancelFactor(x: nat, d: nat, k: nat)
    requires 0 < d && 0 < k
    ensures (x * k) / (d * k) == x / d
  {
    var q, r := x / d, x % d;
    assert x * k == q * (d * k) + r * k;
    ScaleMonotone(r, d - 1, k);
    DivUnique(x * k, d * k, q, r * k);
  }
}

/**
 * Writes on an I2C bus that each stop at the first one the device does not acknowledge. Whether
 * the device acknowledges the i-th write of a call is an input: `acks[i]`, a missing entry
 * counting as a failed write.
 */
module Bus {
  /** Whether the i-th write of a call is acknowledged. */
  function Ack(acks: seq<bool>, i: nat): bool
  {
    i < |acks| && acks[i]
  }

  /** Every one of the first `n` writes of a call was acknowledged. */
  predicate AllAcked(acks: seq<bool>, n: nat)
  {
    forall i :: 0 <= i < n ==> Ack(acks, i)
  }

  /**
   * The writes a call puts on the bus when each is attempted only after the previous one was
   * acknowledged: up to and including the first unacknowledged one.
   */
  function Attempted<T>(writes: seq<T>, acks: seq<bool>): (sent: seq<T>)
    ensures |sent| <= |writes| && sent == writes[..|sent|]
    ensures |writes| > 0 ==> |sent| > 0
  {
    if writes == [] then []
    else if Ack(acks, 0) then [writes[0]] + Attempted(writes[1..], acks[1..])
    else [writes[0]]
  }

  /** Three writes: all of them when all are acknowledged, otherwise up to the first failure. */
  lemma AttemptedThree<T>(a: T, b: T, c: T, acks: seq<bool>)
    ensures Attempted([a, b, c], acks) ==
      if !Ack(acks, 0) then [a] else if !Ack(acks, 1) then [a, b] else [a, b, c]
  {
    assert [a, b, c][1..] == [b, c];
    assert [b, c][1..] == [c];
    if Ack(acks, 0) {
      assert Ack(acks[1..], 0) == Ack(acks, 1);
      if Ack(acks, 1) {
        assert Attempted([c], acks[1..][1..]) == [c];
      }
    }
  }
}
