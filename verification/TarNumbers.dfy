/**
 The number readers of native/worker/tar_clocks.c: header number fields in octal
 or in two's complement, and decimal timestamps. 64-bit limits are written out;
 each reader is stated against what the bytes denote, not against its own loop.
 */
module TarNumbers {

  import opened NiaCommon
  import opened Bytes

  const INT64_MAX: int := 0x7fff_ffff_ffff_ffff
  const INT64_MIN: int := -0x8000_0000_0000_0000
  const BILLION: int := 1_000_000_000

  // ----- Digits -----

  predicate Digits(s: Data, base: nat) {
    forall i :: 0 <= i < |s| ==> 48 <= s[i] < 48 + base
  }

  /** The number that a run of ASCII digits writes in a base. */
  function Value(s: Data, base: nat): (v: int)
    ensures Digits(s, base) ==> v >= 0
  {
    if s == [] then 0 else Value(s[..|s| - 1], base) * base + s[|s| - 1] - 48
  }

  lemma ValueOneMore(s: Data, base: nat, i: nat)
    requires i < |s|
    ensures Value(s[..i + 1], base) == Value(s[..i], base) * base + s[i] - 48
  {
    assert s[..i + 1][..i] == s[..i];
  }

  lemma GrowsWith(a: int, b: int, base: int, digit: int)
    requires 0 <= a <= b && base >= 1 && digit >= 0
    ensures a <= b * base + digit
  {
    assert b * base >= b * 1;
  }

  /** A longer run of digits never writes a smaller number. */
  lemma {:induction false} ValueGrows(s: Data, base: nat, i: nat)
    requires Digits(s, base) && base >= 1 && i <= |s|
    ensures 0 <= Value(s[..i], base) <= Value(s, base)
    decreases |s| - i
  {
    if i == |s| {
      assert s[..i] == s;
    } else {
      ValueGrows(s, base, i + 1);
      ValueOneMore(s, base, i);
      assert Digits(s[..i], base);
      GrowsWith(Value(s[..i], base), Value(s[..i], base), base, s[i] - 48);
    }
  }

  lemma {:induction false} ValueConcat(a: Data, b: Data)
    ensures Value(a + b, 10) == Value(a, 10) * Power10(|b|) + Value(b, 10)
  {
    if b == [] {
      assert a + b == a;
    } else {
      var front := b[..|b| - 1];
      ValueConcat(a, front);
      assert (a + b)[..|a + b| - 1] == a + front;
      Shift(Value(a, 10), Power10(|front|));
    }
  }

  lemma Shift(x: int, power: int)
    ensures x * (10 * power) == 10 * (x * power)
  {
  }

  lemma {:induction false} ValueBound(s: Data)
    requires Digits(s, 10)
    ensures 0 <= Value(s, 10) < Power10(|s|)
    ensures Value(s, 10) == 0 <==> forall i :: 0 <= i < |s| ==> s[i] == 48
  {
    if s != [] {
      var front := s[..|s| - 1];
      ValueBound(front);
      assert forall i :: 0 <= i < |front| ==> s[i] == front[i];
    }
  }

  // ----- Header number fields -----

  function Complement(s: Data): (c: Data)
    ensures |c| == |s| && forall i :: 0 <= i < |s| ==> c[i] == 255 - s[i]
  {
    seq(|s|, (i: nat) requires i < |s| => 255 - s[i])
  }

  lemma {:induction false} ComplementNumber(s: Data)
    ensures Number(Complement(s)) + Number(s) + 1 == Power256(|s|)
  {
    if s != [] {
      ComplementNumber(s[..|s| - 1]);
      assert Complement(s)[..|s| - 1] == Complement(s[..|s| - 1]);
    }
  }

  lemma NumberOneMore(s: Data, i: nat)
    requires i < |s|
    ensures Number(s[..i + 1]) == Number(s[..i]) * 256 + s[i]
  {
    assert s[..i + 1][..i] == s[..i];
  }

  lemma {:induction false} NumberGrows(s: Data, i: nat)
    requires i <= |s|
    ensures Number(s[..i]) <= Number(s)
    decreases |s| - i
  {
    if i == |s| {
      assert s[..i] == s;
    } else {
      NumberGrows(s, i + 1);
      NumberOneMore(s, i);
    }
  }

  predicate Binary(p: Data, signed: bool) {
    |p| > 0 && (p[0] == 0x80 || (signed && p[0] == 0xff))
  }

  /** A base-256 field is a two's complement number whose first byte carries only the sign. */
  function TwosComplement(p: Data): int
    requires |p| > 0
  {
    Number(p[1..]) - (if p[0] == 0xff then Power256(|p| - 1) else 0)
  }

  predicate Run(p: Data, i: int, j: int, base: nat)
    requires 0 <= i <= j <= |p|
  {
    forall k :: i <= k < j ==> 48 <= p[k] < 48 + base
  }

  /** Leading blanks, octal digits, then blanks or NULs to the end of the field. */
  ghost predicate OctalAt(p: Data, i: int, j: int, v: int) {
    0 <= i <= j <= |p|
    && (forall k :: 0 <= k < i ==> p[k] == 32)
    && Run(p, i, j, 8)
    && (forall k :: j <= k < |p| ==> p[k] == 0 || p[k] == 32)
    && v == Value(p[i..j], 8)
  }

  /** The number a header field denotes, when a signed 64-bit integer can hold it. */
  ghost predicate Field(p: Data, signed: bool, v: int) {
    INT64_MIN <= v <= INT64_MAX
    && if Binary(p, signed) then v == TwosComplement(p) else exists i, j :: OctalAt(p, i, j, v)
  }

  method BinaryField(p: Data) returns (result: Option<int>)
    requires |p| > 0 && (p[0] == 0x80 || p[0] == 0xff)
    ensures result ==
            if INT64_MIN <= TwosComplement(p) <= INT64_MAX then Some(TwosComplement(p)) else None
  {
    hide Number, Power256;
    var negative := p[0] == 0xff;
    ghost var s := p[1..];
    ghost var t := if negative then Complement(s) else s;
    ComplementNumber(s);
    var value, at := 0, 1;
    assert t[..0] == [];
    NumberOfNothing();
    while at < |p|
      invariant 1 <= at <= |p|
      invariant 0 <= value <= INT64_MAX && value == Number(t[..at - 1])
    {
      var digit := if negative then 255 - p[at] else p[at];
      assert t[at - 1] == digit;
      NumberOneMore(t, at - 1);
      NumberGrows(t, at);
      if value > (INT64_MAX - digit) / 256 {
        return None;
      }
      value := value * 256 + digit;
      at := at + 1;
    }
    assert t[..at - 1] == t;
    return Some(if negative then -1 - value else value);
  }

  lemma NumberOfNothing()
    ensures Number([]) == 0
  {
  }

  method SkipBlanks(p: Data) returns (i: nat)
    ensures Leading(p, i)
  {
    i := 0;
    while i < |p| && p[i] == 32
      invariant i <= |p| && forall k :: 0 <= k < i ==> p[k] == 32
    {
      i := i + 1;
    }
  }

  ghost predicate Leading(p: Data, i: int) {
    0 <= i <= |p| && (forall k :: 0 <= k < i ==> p[k] == 32) && (i < |p| ==> p[i] != 32)
  }

  lemma NoOctal(p: Data, i: nat)
    requires i <= |p|
    ensures Value(p[i..i], 8) == 0
  {
  }

  lemma OctalGrows(p: Data, i: nat, j: nat)
    requires i <= j < |p|
    ensures Value(p[i..j + 1], 8) == Value(p[i..j], 8) * 8 + p[j] - 48
  {
    assert p[i..j + 1][..j - i] == p[i..j];
  }

  /** The octal digits from `i` on: their end and value, or no value when it leaves 63 bits. */
  method OctalDigits(p: Data, i: nat) returns (j: nat, value: Option<int>)
    requires i <= |p|
    ensures i <= j <= |p| && Run(p, i, j, 8)
    ensures value.Some? ==> value.value == Value(p[i..j], 8) && 0 <= value.value <= INT64_MAX
    ensures value.Some? ==> j == |p| || !(48 <= p[j] < 56)
    ensures value.None? ==> Value(p[i..j], 8) > INT64_MAX
  {
    hide Value;
    j := i;
    var v := 0;
    NoOctal(p, i);
    while j < |p| && 48 <= p[j] < 56
      invariant i <= j <= |p| && Run(p, i, j, 8)
      invariant 0 <= v <= INT64_MAX && v == Value(p[i..j], 8)
    {
      var digit := p[j] - 48;
      OctalGrows(p, i, j);
      j := j + 1;
      if v > (INT64_MAX - digit) / 8 {
        return j, None;
      }
      v := v * 8 + digit;
    }
    return j, Some(v);
  }

  /** A field with digits has them where a greedy reader finds them. */
  lemma OctalStart(p: Data, i: int, j: int, a: int, b: int, w: int)
    requires Leading(p, i) && i <= j <= |p| && Run(p, i, j, 8) && OctalAt(p, a, b, w)
    ensures i < j ==> a == i && j <= b
    ensures a < b ==> a == i
  {
    if i < j {
      assert p[i] >= 48 && p[j - 1] >= 48;
      assert a <= i < b && j - 1 < b;
    }
    if a < b {
      assert p[a] >= 48;
      assert i <= a;
    }
  }

  lemma OctalUnique(p: Data, i: int, j: int, v: int, a: int, b: int, w: int)
    requires Leading(p, i) && i <= j <= |p| && (j == |p| || !(48 <= p[j] < 56))
    requires OctalAt(p, i, j, v) && OctalAt(p, a, b, w)
    ensures v == w
  {
    OctalStart(p, i, j, a, b, w);
    if i < j {
      assert b == j;
    } else {
      assert a == b;
      assert p[i..j] == p[a..b] == [];
    }
  }

  lemma OctalOverflows(p: Data, i: int, j: int, a: int, b: int, w: int)
    requires Leading(p, i) && i <= j <= |p| && Run(p, i, j, 8) && OctalAt(p, a, b, w)
    requires Value(p[i..j], 8) > INT64_MAX
    ensures w > INT64_MAX
  {
    OctalStart(p, i, j, a, b, w);
    if i < j {
      assert p[a..b][..j - i] == p[i..j];
      assert Digits(p[a..b], 8);
      ValueGrows(p[a..b], 8, j - i);
    }
  }

  lemma OctalEndsBlank(p: Data, i: int, j: int, k: int, a: int, b: int, w: int)
    requires Leading(p, i) && i <= j <= |p| && Run(p, i, j, 8) && (j == |p| || !(48 <= p[j] < 56))
    requires j <= k < |p| && p[k] != 0 && p[k] != 32
    ensures !OctalAt(p, a, b, w)
  {
    if OctalAt(p, a, b, w) {
      OctalStart(p, i, j, a, b, w);
    }
  }

  method OctalField(p: Data) returns (result: Option<int>)
    ensures forall v :: result == Some(v) <==> v <= INT64_MAX && exists i, j :: OctalAt(p, i, j, v)
  {
    var i := SkipBlanks(p);
    var j, value := OctalDigits(p, i);
    if value.None? {
      forall v, a, b | OctalAt(p, a, b, v) ensures v > INT64_MAX {
        OctalOverflows(p, i, j, a, b, v);
      }
      return None;
    }
    var at := j;
    while at < |p|
      invariant j <= at <= |p| && forall k :: j <= k < at ==> p[k] == 0 || p[k] == 32
    {
      if p[at] != 0 && p[at] != 32 {
        forall v, a, b ensures !OctalAt(p, a, b, v) {
          OctalEndsBlank(p, i, j, at, a, b, v);
        }
        return None;
      }
      at := at + 1;
    }
    assert OctalAt(p, i, j, value.value);
    forall v, a, b | OctalAt(p, a, b, v) ensures v == value.value {
      OctalUnique(p, i, j, value.value, a, b, v);
    }
    return value;
  }

  /** Reads exactly the numbers that fit, in either notation, and nothing else. */
  method Integer(p: Data, signed: bool) returns (result: Option<int>)
    requires |p| > 0
    ensures forall v :: result == Some(v) <==> Field(p, signed, v)
  {
    if p[0] == 0x80 || (signed && p[0] == 0xff) {
      result := BinaryField(p);
    } else {
      result := OctalField(p);
      forall v, i, j | OctalAt(p, i, j, v) ensures v >= 0 {
        assert Digits(p[i..j], 8);
      }
    }
  }

  lemma DigitsAreNotBlank(p: Data, a: int, b: int, w: int)
    requires OctalAt(p, a, b, w)
    ensures a == b || exists k :: 0 <= k < |p| && p[k] != 0 && p[k] != 32
  {
    if a < b {
      assert p[a] >= 48;
    }
  }

  lemma FieldUnique(p: Data, signed: bool, v: int, w: int)
    requires Field(p, signed, v) && Field(p, signed, w)
    ensures v == w
  {
    if !Binary(p, signed) {
      var i, j :| OctalAt(p, i, j, v);
      var a, b :| OctalAt(p, a, b, w);
      if i < j {
        assert p[i] >= 48;
        OctalUnique(p, i, j, v, a, b, w);
      } else {
        DigitsAreNotBlank(p, a, b, w);
        assert p[i..j] == p[a..b] == [];
      }
    }
  }

  // ----- The printer -----

  function Power8(n: nat): (p: nat)
    ensures p > 0
  {
    if n == 0 then 1 else 8 * Power8(n - 1)
  }

  function Octal(n: nat, width: nat): (s: Data)
    ensures |s| == width && Digits(s, 8)
  {
    if width == 0 then [] else Octal(n / 8, width - 1) + [48 + n % 8]
  }

  lemma {:induction false} OctalValue(n: nat, width: nat)
    requires n < Power8(width)
    ensures Value(Octal(n, width), 8) == n
  {
    if width > 0 {
      OctalValue(n / 8, width - 1);
      assert Octal(n, width)[..width - 1] == Octal(n / 8, width - 1);
    }
  }

  /** Octal digits and a NUL when they fit, else the GNU base-256 form. */
  function NumberField(n: int, width: nat): (p: Data)
    requires width > 0
    ensures |p| == width
  {
    if 0 <= n < Power8(width - 1) then Octal(n, width - 1) + [0]
    else [if n >= 0 then 0x80 else 0xff] + Big(n % Power256(width - 1), width - 1)
  }

  /** Every 64-bit number reads back, whichever notation its field uses. */
  lemma NumberReadsBack(n: int, width: nat, signed: bool)
    requires width > 0 && INT64_MIN <= n <= INT64_MAX && (n >= 0 || signed)
    requires 0 <= n < Power8(width - 1) || 0 <= n + Power256(width - 1) < 2 * Power256(width - 1)
    ensures Field(NumberField(n, width), signed, n)
  {
    if 0 <= n < Power8(width - 1) {
      OctalReadsBack(n, width, signed);
    } else {
      BinaryReadsBack(n, width, signed);
    }
  }

  lemma OctalReadsBack(n: int, width: nat, signed: bool)
    requires width > 0 && n <= INT64_MAX && 0 <= n < Power8(width - 1)
    ensures Field(NumberField(n, width), signed, n)
  {
    hide Octal, Value, Power8;
    var p := NumberField(n, width);
    OctalValue(n, width - 1);
    var digits := Octal(n, width - 1);
    assert p[0..width - 1] == digits;
    assert forall k :: 0 <= k < width - 1 ==> p[k] == digits[k];
    assert OctalAt(p, 0, width - 1, n);
    if width > 1 {
      assert p[0] < 56;
    }
  }

  lemma BinaryReadsBack(n: int, width: nat, signed: bool)
    requires width > 0 && INT64_MIN <= n <= INT64_MAX && (n >= 0 || signed) && !(0 <= n < Power8(width - 1))
    requires 0 <= n + Power256(width - 1) < 2 * Power256(width - 1)
    ensures Field(NumberField(n, width), signed, n)
  {
    hide Power256, Power8, Big, Number, Octal;
    var p, power := NumberField(n, width), Power256(width - 1);
    Residue(n, power);
    NumberOfBig(n % power, width - 1);
    assert p[1..] == Big(n % power, width - 1);
  }

  lemma Residue(n: int, m: nat)
    requires m > 0 && 0 <= n + m && n < m
    ensures n % m == if n >= 0 then n else n + m
  {
    var q := n / m;
    assert n == q * m + n % m;
    if n >= 0 {
      assert q >= 0 && q * m < m;
      Quotient(q, m, 1);
      Quotient(0, m, q + 1);
    } else {
      Quotient(q, m, 0);
      Quotient(-2, m, q);
    }
  }

  lemma Quotient(a: int, m: nat, b: int)
    requires m > 0 && a * m < b * m
    ensures a < b
  {
    if a >= b {
      Scale(a, b, m);
    }
  }

  lemma Scale(a: int, b: int, m: nat)
    requires a >= b
    ensures a * m >= b * m
  {
    assert (a - b) * m >= 0;
  }
}
