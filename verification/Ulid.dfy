/** The 26-character identifiers: 48 bits of milliseconds and 80 random bits in Crockford's base 32
    (ULID specification, sections "Encoding" and "Sorting"). */
module Ulid {
  import opened Text
  import opened Wrappers

  const CROCKFORD: string := "0123456789ABCDEFGHJKMNPQRSTVWXYZ"
  const TIME_SPAN: int := 0x1_0000_0000_0000
  const RANDOM_SPAN: int := 0x1_0000_0000_0000_0000_0000

  datatype UlidError = RandomFailed | Overflow

  type Byte = b: int | 0 <= b < 256

  // ------------------------------------------------------------------ values

  function BigEndian(bytes: seq<Byte>): nat {
    if bytes == [] then 0 else 256 * BigEndian(bytes[..|bytes| - 1]) + bytes[|bytes| - 1]
  }

  /** The last `k` base-32 digits of `n`. */
  function Digits(n: nat, k: nat): (s: string)
    ensures |s| == k
  {
    if k == 0 then [] else Digits(n / 32, k - 1) + [CROCKFORD[n % 32]]
  }

  function DigitOf(c: char, from: nat): (d: int)
    requires from <= 32
    ensures -1 <= d < 32
    ensures d >= 0 ==> CROCKFORD[d] == c
    decreases 32 - from
  {
    if from == 32 then -1 else if CROCKFORD[from] == c then from else DigitOf(c, from + 1)
  }

  /** The number a text writes in base 32, or nothing if some character is not a digit. */
  function Decode(s: string): Option<nat> {
    if s == [] then Some(0) else
      var front, d := Decode(s[..|s| - 1]), DigitOf(s[|s| - 1], 0);
      if front.None? || d < 0 then None else Some(32 * front.value + d)
  }

  function Pow32(k: nat): (p: nat)
    ensures p > 0
  {
    if k == 0 then 1 else 32 * Pow32(k - 1)
  }

  // ------------------------------------------------------------------ the encoder

  /** The sixteen bytes: six of time, big-endian, then the random ones. */
  function Bytes(unixMilli: int, random: seq<Byte>): seq<Byte>
    requires |random| == 10
  {
    var ms := unixMilli % 0x1_0000_0000_0000_0000;
    [ms / 0x100_0000_0000 % 256, ms / 0x1_0000_0000 % 256, ms / 0x100_0000 % 256,
     ms / 0x1_0000 % 256, ms / 0x100 % 256, ms % 256] + random
  }

  /** The encoder on a Unix time in milliseconds and what the random source returned. */
  method NewULID(unixMilli: int, random: Option<seq<Byte>>) returns (r: Result<string, UlidError>)
    requires random.Some? ==> |random.value| == 10
    ensures random.None? ==> r == Err(RandomFailed)
    ensures random.Some? ==>
      r == Ok(Digits(unixMilli % TIME_SPAN * RANDOM_SPAN + BigEndian(random.value), 26))
    ensures r.Ok? ==> IsIdentifier(r.value)
  {
    hide Digits, BigEndian;
    var b := new Byte[16](_ => 0);
    var ms := unixMilli % 0x1_0000_0000_0000_0000;
    b[0] := ms / 0x100_0000_0000 % 256;
    b[1] := ms / 0x1_0000_0000 % 256;
    b[2] := ms / 0x100_0000 % 256;
    b[3] := ms / 0x1_0000 % 256;
    b[4] := ms / 0x100 % 256;
    b[5] := ms % 256;
    if random.None? {
      return Err(RandomFailed);
    }
    forall i | 6 <= i < 16 {
      b[i] := random.value[i - 6];
    }
    assert b[..] == Bytes(unixMilli, random.value);
    hide Bytes;
    BytesValue(unixMilli, random.value);
    var chars := CrockfordDigits(BigEndian(b[..]));
    BigEndianBound(random.value);
    FirstDigitSmall(BigEndian(b[..]));
    if chars[0] > '7' {
      assert false;
      return Err(Overflow);
    }
    assert chars[..] == Identifier(unixMilli % TIME_SPAN, random.value);
    return Ok(chars[..]);
  }

  /** The countdown of divisions by 32. */
  method CrockfordDigits(value: nat) returns (chars: array<char>)
    ensures chars.Length == 26 && chars[..] == Digits(value, 26)
  {
    hide Digits;
    var n := value;
    chars := new char[26](_ => '0');
    var i := 25;
    while i >= 0
      invariant -1 <= i <= 25
      invariant n >= 0
      invariant Digits(n, i + 1) + chars[i + 1..] == Digits(value, 26)
    {
      DigitsAppend(n, i + 1);
      var mod := n % 32;
      n := n / 32;
      ghost var tail := chars[i + 1..];
      chars[i] := CROCKFORD[mod];
      assert chars[i..] == [CROCKFORD[mod]] + tail;
      i := i - 1;
    }
  }

  lemma {:induction false} BigEndianSplit(a: seq<Byte>, b: seq<Byte>)
    requires |b| == 10
    ensures BigEndian(a + b) == BigEndian(a) * RANDOM_SPAN + BigEndian(b)
  {
    BigEndianAppend(a, b[..5], b[5..]);
    BigEndianFive(a + b[..5], b[5..]);
    BigEndianFive(a, b[..5]);
    BigEndianFive(b[..5], b[5..]);
    assert b == b[..5] + b[5..];
  }

  lemma BigEndianAppend(a: seq<Byte>, b: seq<Byte>, c: seq<Byte>)
    ensures a + (b + c) == (a + b) + c
  {
  }

  lemma BigEndianOne(a: seq<Byte>, x: Byte)
    ensures BigEndian(a + [x]) == 256 * BigEndian(a) + x
  {
    assert (a + [x])[..|a|] == a;
  }

  lemma BigEndianFive(a: seq<Byte>, b: seq<Byte>)
    requires |b| == 5
    ensures BigEndian(a + b) == BigEndian(a) * 0x100_0000_0000 + BigEndian(b)
  {
    hide BigEndian;
    BigEndianTail(a, b);
    BigEndianTail([], b);
    assert [] + b == b;
    EmptyIsZero();
  }

  lemma EmptyIsZero()
    ensures BigEndian([]) == 0
  {
  }

  lemma BigEndianTail(a: seq<Byte>, b: seq<Byte>)
    requires |b| == 5
    ensures BigEndian(a + b) ==
      256 * (256 * (256 * (256 * (256 * BigEndian(a) + b[0]) + b[1]) + b[2]) + b[3]) + b[4]
  {
    hide BigEndian;
    BigEndianOne(a, b[0]);
    BigEndianOne(a + [b[0]], b[1]);
    BigEndianOne(a + [b[0]] + [b[1]], b[2]);
    BigEndianOne(a + [b[0]] + [b[1]] + [b[2]], b[3]);
    BigEndianOne(a + [b[0]] + [b[1]] + [b[2]] + [b[3]], b[4]);
    assert a + b == a + [b[0]] + [b[1]] + [b[2]] + [b[3]] + [b[4]];
  }

  lemma BytesValue(unixMilli: int, random: seq<Byte>)
    requires |random| == 10
    ensures BigEndian(Bytes(unixMilli, random)) == unixMilli % TIME_SPAN * RANDOM_SPAN + BigEndian(random)
  {
    var head := Bytes(unixMilli, random)[..6];
    assert Bytes(unixMilli, random) == head + random;
    hide Bytes, BigEndian;
    BigEndianSplit(head, random);
    HeadValue(unixMilli, random);
  }

  lemma HeadValue(unixMilli: int, random: seq<Byte>)
    requires |random| == 10
    ensures BigEndian(Bytes(unixMilli, random)[..6]) == unixMilli % TIME_SPAN
  {
    hide BigEndian;
    var head := Bytes(unixMilli, random)[..6];
    SixBytes(unixMilli % 0x1_0000_0000_0000_0000);
    assert head == [head[0]] + head[1..];
    BigEndianTail([head[0]], head[1..]);
    BigEndianOne([], head[0]);
    assert [] + [head[0]] == [head[0]];
    EmptyIsZero();
    WrapKeepsLowBits(unixMilli);
  }

  lemma WrapKeepsLowBits(x: int)
    ensures x % 0x1_0000_0000_0000_0000 % TIME_SPAN == x % TIME_SPAN
  {
  }

  lemma SixBytes(ms: nat)
    ensures 256 * (256 * (256 * (256 * (256 * (ms / 0x100_0000_0000 % 256) + ms / 0x1_0000_0000 % 256)
              + ms / 0x100_0000 % 256) + ms / 0x1_0000 % 256) + ms / 0x100 % 256) + ms % 256
            == ms % TIME_SPAN
  {
    var a, b, c, d, e := ms / 0x100, ms / 0x1_0000, ms / 0x100_0000, ms / 0x1_0000_0000, ms / 0x100_0000_0000;
    assert b == a / 256;
    assert c == b / 256;
    assert d == c / 256;
    assert e == d / 256;
    OneByte(ms, 0x100_0000_0000);
    OneByte(a, 0x1_0000_0000);
    OneByte(b, 0x100_0000);
    OneByte(c, 0x1_0000);
    OneByte(d, 0x100);
  }

  /** Taking the last byte off a remainder. */
  lemma OneByte(x: nat, m: nat)
    requires m > 0
    ensures x % (256 * m) == 256 * ((x / 256) % m) + x % 256
  {
    var q, r := x / 256, x % 256;
    var u, v := q / m, q % m;
    assert x == 256 * q + r && q == m * u + v;
    assert x == (256 * m) * u + (256 * v + r) by { Regroup(m, u); }
    assert 0 <= 256 * v + r < 256 * m;
    RemainderIs(x, 256 * m, u, 256 * v + r);
  }

  lemma Regroup(m: int, u: int)
    ensures 256 * (m * u) == (256 * m) * u && 32 * (m * u) == (32 * m) * u
  {
  }

  lemma RemainderIs(n: int, d: int, q: int, r: int)
    requires d > 0 && n == d * q + r && 0 <= r < d
    ensures n % d == r
  {
    QuotientIs(n, d, q, r);
    assert n == d * (n / d) + n % d;
  }

  lemma {:induction false} BigEndianBound(bytes: seq<Byte>)
    requires |bytes| == 10
    ensures BigEndian(bytes) < RANDOM_SPAN
  {
    BigEndianFive(bytes[..5], bytes[5..]);
    BigEndianTail([], bytes[..5]);
    BigEndianTail([], bytes[5..]);
    EmptyIsZero();
    assert [] + bytes[..5] == bytes[..5] && [] + bytes[5..] == bytes[5..];
    assert bytes == bytes[..5] + bytes[5..];
  }

  // ------------------------------------------------------------------ digits and order

  lemma DigitsAppend(n: nat, k: nat)
    requires k > 0
    ensures Digits(n, k)[..k - 1] == Digits(n / 32, k - 1)
    ensures Digits(n, k)[k - 1] == CROCKFORD[n % 32]
  {
  }

  lemma CrockfordAscends(i: nat, j: nat)
    requires i < j < 32
    ensures CROCKFORD[i] < CROCKFORD[j]
    decreases j - i
  {
    assert forall k :: 0 <= k < 31 ==> CROCKFORD[k] < CROCKFORD[k + 1];
    if i + 1 < j { CrockfordAscends(i + 1, j); }
  }

  lemma DigitOfDigit(d: nat)
    requires d < 32
    ensures DigitOf(CROCKFORD[d], 0) == d
  {
    var e := DigitOf(CROCKFORD[d], 0);
    FoundFrom(d, 0);
    if e < d { CrockfordAscends(e, d); } else if d < e { CrockfordAscends(d, e); }
  }

  lemma {:induction false} FoundFrom(d: nat, from: nat)
    requires from <= d < 32
    ensures DigitOf(CROCKFORD[d], from) >= 0
    decreases d - from
  {
    if from < d { FoundFrom(d, from + 1); }
  }

  /** Decoding the digits gives back the number. */
  lemma {:induction false} DecodeDigits(n: nat, k: nat)
    requires n < Pow32(k)
    ensures Decode(Digits(n, k)) == Some(n)
  {
    if k > 0 {
      hide Digits, DigitOf, Pow32;
      PowStep(k);
      DigitsAppend(n, k);
      DigitOfDigit(n % 32);
      LastDigit(n);
      assert n / 32 < Pow32(k - 1);
      DecodeDigits(n / 32, k - 1);
    } else {
      assert Digits(n, 0) == [];
    }
  }

  lemma LastDigit(n: nat)
    ensures n == 32 * (n / 32) + n % 32 && 0 <= n % 32 < 32
  {
  }

  function Quotient(n: nat, d: nat): (q: nat)
    requires d > 0
    ensures q == n / d
  {
    QuotientIsNat(n, d);
    n / d
  }

  lemma QuotientIsNat(n: nat, d: nat)
    requires d > 0
    ensures n / d >= 0
  {
  }

  lemma {:induction false} SplitDigits(n: nat, k: nat, low: nat)
    requires low <= k
    ensures Digits(n, k)[..k - low] == Digits(Quotient(n, Pow32(low)), k - low)
    decreases low
  {
    if low > 0 {
      hide Digits, Pow32;
      DigitsAppend(n, k);
      SplitDigits(n / 32, k - 1, low - 1);
      PowStep(low);
      DivideTwice(n, Pow32(low - 1));
      hide Quotient;
      assert Digits(n, k)[..k - low] == Digits(n, k)[..k - 1][..k - low];
    } else {
      QuotientIs(n, 1, n, 0);
    }
  }

  lemma PowStep(k: nat)
    requires k > 0
    ensures Pow32(k) == 32 * Pow32(k - 1)
  {
  }

  lemma DivideTwice(n: nat, p: nat)
    requires p > 0
    ensures n / 32 / p == n / (32 * p)
  {
    var a := n / 32;
    var b := a / p;
    assert n == 32 * a + n % 32 && a == p * b + a % p;
    var r := 32 * (a % p) + n % 32;
    assert n == (32 * p) * b + r by { Regroup(p, b); }
    assert 0 <= r < 32 * p;
    QuotientIs(n, 32 * p, b, r);
  }

  lemma QuotientIs(n: int, d: int, q: int, r: int)
    requires d > 0 && n == d * q + r && 0 <= r < d
    ensures n / d == q
  {
    var q', r' := n / d, n % d;
    assert n == d * q' + r';
    if q' > q { Wider(d, q + 1, q'); } else if q' < q { Wider(d, q' + 1, q); }
  }

  lemma Wider(d: int, a: int, b: int)
    requires d >= 0 && a <= b
    ensures d * a <= d * b
  {
  }

  lemma Powers()
    ensures Pow32(16) == RANDOM_SPAN
    ensures Pow32(10) > TIME_SPAN
    ensures Pow32(26) == 0x4_0000_0000_0000_0000_0000_0000_0000_0000
    ensures Pow32(25) == 0x2000_0000_0000_0000_0000_0000_0000_0000
  {
    assert Pow32(4) == 0x10_0000;
    assert Pow32(8) == 0x100_0000_0000;
    assert Pow32(12) == 0x1000_0000_0000_0000;
    assert Pow32(16) == RANDOM_SPAN;
    assert Pow32(20) == 0x10_0000_0000_0000_0000_0000_0000;
    assert Pow32(24) == 0x100_0000_0000_0000_0000_0000_0000_0000;
  }

  /** A value of 128 bits has a first digit of at most seven, so the overflow exit is dead. */
  lemma FirstDigitSmall(n: nat)
    requires n < TIME_SPAN * RANDOM_SPAN
    ensures '0' <= Digits(n, 26)[0] <= '7'
  {
    hide Digits, Pow32;
    Powers();
    SplitDigits(n, 26, 25);
    var d := Quotient(n, Pow32(25));
    assert d < 8 by { EighthOfSpan(n); }
    DigitsAppend(d, 1);
    CrockfordUpToSeven(d);
    assert Digits(n, 26)[0] == Digits(n, 26)[..1][0];
  }

  lemma EighthOfSpan(n: nat)
    requires n < 0x1_0000_0000_0000_0000_0000_0000_0000_0000
    ensures n / 0x2000_0000_0000_0000_0000_0000_0000_0000 < 8
  {
  }

  lemma CrockfordUpToSeven(d: nat)
    requires d < 8
    ensures '0' <= CROCKFORD[d % 32] <= '7'
  {
  }

  /** Text order on digits of one length is the order of the numbers. */
  lemma {:induction false} DigitsOrder(n: nat, n': nat, k: nat)
    requires n < n' < Pow32(k)
    ensures Less(Digits(n, k), Digits(n', k))
  {
    var a, a' := Digits(n, k)[..k - 1], Digits(n', k)[..k - 1];
    DigitsAppend(n, k);
    DigitsAppend(n', k);
    assert Digits(n, k) == a + [CROCKFORD[n % 32]] && Digits(n', k) == a' + [CROCKFORD[n' % 32]];
    if n / 32 == n' / 32 {
      CrockfordAscends(n % 32, n' % 32);
      LessLast(a, CROCKFORD[n % 32], CROCKFORD[n' % 32]);
    } else {
      DigitsOrder(n / 32, n' / 32, k - 1);
      LessExtended(a, a', [CROCKFORD[n % 32]], [CROCKFORD[n' % 32]]);
    }
  }

  lemma {:induction false} LessLast(s: string, c: char, d: char)
    requires c < d
    ensures Less(s + [c], s + [d])
  {
    if s != [] {
      LessLast(s[1..], c, d);
      assert (s + [c])[1..] == s[1..] + [c] && (s + [d])[1..] == s[1..] + [d];
    }
  }

  lemma {:induction false} LessExtended(a: string, b: string, x: string, y: string)
    requires |a| == |b| && Less(a, b)
    ensures Less(a + x, b + y)
  {
    if a[0] == b[0] {
      LessExtended(a[1..], b[1..], x, y);
      assert (a + x)[1..] == a[1..] + x && (b + y)[1..] == b[1..] + y;
    }
  }

  // ------------------------------------------------------------------ what the identifiers promise

  /** The text of an identifier with millisecond time `ms`. */
  function Identifier(ms: nat, random: seq<Byte>): string
    requires ms < TIME_SPAN && |random| == 10
  {
    Digits(ms * RANDOM_SPAN + BigEndian(random), 26)
  }

  /** The texts that the encoder can return. */
  ghost predicate IsIdentifier(id: string) {
    exists ms: nat, random: seq<Byte> :: ms < TIME_SPAN && |random| == 10 && id == Identifier(ms, random)
  }

  lemma {:induction false} DigitsHaveNoBar(n: nat, k: nat)
    ensures |Digits(n, k)| == k && '|' !in Digits(n, k)
    ensures forall c :: c in Digits(n, k) ==> c in "0123456789ABCDEFGHJKMNPQRSTVWXYZ"
  {
    if k > 0 { DigitsHaveNoBar(n / 32, k - 1); }
  }

  /** An identifier has 26 characters of Crockford's alphabet, which holds no I, L, O or U, and so never the separator
      of the store's counter keys. */
  lemma IdentifierHasNoBar(id: string)
    requires IsIdentifier(id)
    ensures '|' !in id
    ensures |id| == 26 && forall c :: c in id ==> c in "0123456789ABCDEFGHJKMNPQRSTVWXYZ"
  {
    hide Digits;
    var ms: nat, random: seq<Byte> :| ms < TIME_SPAN && |random| == 10 && id == Identifier(ms, random);
    DigitsHaveNoBar(ms * RANDOM_SPAN + BigEndian(random), 26);
  }

  /** Decoding the 26 characters gives back the 128-bit value. */
  lemma RoundTrip(ms: nat, random: seq<Byte>)
    requires ms < TIME_SPAN && |random| == 10
    ensures Decode(Identifier(ms, random)) == Some(ms * RANDOM_SPAN + BigEndian(random))
  {
    hide BigEndian, Digits, Decode, Pow32;
    Powers();
    BigEndianBound(random);
    DecodeDigits(ms * RANDOM_SPAN + BigEndian(random), 26);
  }

  /** The first ten characters depend only on the time, and write it. */
  lemma TimePrefix(ms: nat, random: seq<Byte>)
    requires ms < TIME_SPAN && |random| == 10
    ensures Identifier(ms, random)[..10] == Digits(ms, 10)
    ensures Decode(Digits(ms, 10)) == Some(ms)
  {
    hide Digits, Decode, Pow32, BigEndian;
    Powers();
    BigEndianBound(random);
    TopDigits(ms, BigEndian(random), 26, 16);
    DecodeDigits(ms, 10);
  }

  lemma TopDigits(high: nat, low: nat, k: nat, j: nat)
    requires low < Pow32(j) && j <= k
    ensures Digits(high * Pow32(j) + low, k)[..k - j] == Digits(high, k - j)
  {
    hide Digits, Pow32;
    SplitDigits(high * Pow32(j) + low, k, j);
    HighPart(high, low, Pow32(j));
  }

  lemma HighPart(high: nat, low: nat, span: nat)
    requires low < span
    ensures (high * span + low) / span == high
  {
    assert high * span + low == span * high + low;
    QuotientIs(high * span + low, span, high, low);
  }

  /** Text order of identifiers is the order of their 128-bit values. */
  lemma OrderIsNumeric(ms: nat, random: seq<Byte>, ms': nat, random': seq<Byte>)
    requires ms < TIME_SPAN && |random| == 10 && ms' < TIME_SPAN && |random'| == 10
    ensures Less(Identifier(ms, random), Identifier(ms', random'))
      <==> ms * RANDOM_SPAN + BigEndian(random) < ms' * RANDOM_SPAN + BigEndian(random')
  {
    hide BigEndian, Digits, Decode, Pow32, Less;
    var n, n' := ms * RANDOM_SPAN + BigEndian(random), ms' * RANDOM_SPAN + BigEndian(random');
    Powers();
    BigEndianBound(random);
    BigEndianBound(random');
    if n < n' {
      DigitsOrder(n, n', 26);
    } else {
      LessIrreflexive(Digits(n, 26));
      if n' < n {
        DigitsOrder(n', n, 26);
        if Less(Digits(n, 26), Digits(n', 26)) { LessTransitive(Digits(n, 26), Digits(n', 26), Digits(n, 26)); }
      }
    }
  }

  /** An earlier millisecond gives a smaller identifier, whatever the random bytes. */
  lemma EarlierSortsFirst(ms: nat, random: seq<Byte>, ms': nat, random': seq<Byte>)
    requires ms < ms' < TIME_SPAN && |random| == 10 && |random'| == 10
    ensures Less(Identifier(ms, random), Identifier(ms', random'))
  {
    BigEndianBound(random);
    OrderIsNumeric(ms, random, ms', random');
  }
}
