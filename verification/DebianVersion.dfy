/**
 Debian version order: section 5.6.12 of the Debian Policy Manual, as
 tools/debian_semantics.py compares it.

 The two-cursor loop `Part` is proved against a canonical key: the string read as
 a sequence of integers (character weights, a zero ending each non-digit run, then
 the value of the digit run), compared lexicographically with zeros padding the
 shorter key. The order laws are then laws of that comparison.
 */
module DebianVersion {
  import opened NiaCommon
  import opened Ordering

  const MAX_VERSION := 512
  const MAX_EPOCH := 2147483647

  datatype Version = Version(epoch: string, upstream: string, revision: string)

  // ----- Syntax -----

  predicate IsDigit(c: char) {
    '0' <= c <= '9'
  }

  predicate IsLetter(c: char) {
    'A' <= c <= 'Z' || 'a' <= c <= 'z'
  }

  predicate RestChar(c: char) {
    IsDigit(c) || IsLetter(c) || c in ".+:~-"
  }

  predicate RevisionChar(c: char) {
    IsDigit(c) || IsLetter(c) || c in ".+~"
  }

  predicate AllDigits(s: string) {
    forall i :: 0 <= i < |s| ==> IsDigit(s[i])
  }

  /** The part of a version after an optional epoch. */
  predicate RestSyntax(s: string) {
    s != "" && IsDigit(s[0]) && forall i :: 0 <= i < |s| ==> RestChar(s[i])
  }

  predicate RevisionSyntax(s: string) {
    s != "" && forall i :: 0 <= i < |s| ==> RevisionChar(s[i])
  }

  /** Length of the leading digit run. */
  function DigitRun(s: string): (n: nat)
    ensures n <= |s| && AllDigits(s[..n])
    ensures n < |s| ==> !IsDigit(s[n])
    ensures s != "" && IsDigit(s[0]) ==> 0 < n
  {
    if s == "" || !IsDigit(s[0]) then 0 else 1 + DigitRun(s[1..])
  }

  /** The number a digit string writes; an empty run counts as zero. */
  function Value(s: string): nat
    requires AllDigits(s)
  {
    if s == "" then 0
    else
      var digit: nat := s[0] as int - '0' as int;
      digit * Power10(|s| - 1) + Value(s[1..])
  }

  function StripZeros(s: string): string {
    if s != "" && s[0] == '0' then StripZeros(s[1..]) else s
  }

  /** Position of the last hyphen. */
  function LastHyphen(s: string): (k: nat)
    requires '-' in s
    ensures k < |s| && s[k] == '-' && '-' !in s[k + 1..]
  {
    if s[|s| - 1] == '-' then |s| - 1
    else
      assert s == s[..|s| - 1] + [s[|s| - 1]];
      var k := LastHyphen(s[..|s| - 1]);
      assert s[k + 1..] == s[..|s| - 1][k + 1..] + [s[|s| - 1]];
      k
  }

  /** An epoch is present when digits and a colon leave a well-formed rest. */
  predicate HasEpoch(value: string) {
    var n := DigitRun(value);
    0 < n < |value| && value[n] == ':' && RestSyntax(value[n + 1..])
  }

  function SplitRest(epoch: string, rest: string): (r: Result<Version>)
    ensures r.Ok? ==> r.value.epoch == epoch
  {
    if '-' in rest then
      var k := LastHyphen(rest);
      if !RevisionSyntax(rest[k + 1..]) then Invalid("invalid revision")
      else if k == 0 then Invalid("empty upstream version")
      else Ok(Version(epoch, rest[..k], rest[k + 1..]))
    else if rest == "" then Invalid("empty upstream version")
    else Ok(Version(epoch, rest, "0"))
  }

  function Canonical(epoch: string): (r: string)
    requires AllDigits(epoch)
    ensures AllDigits(r)
  {
    StripKeepsValue(epoch);
    var s := StripZeros(epoch);
    if s == "" then "0" else s
  }

  function SplitVersion(value: string): (r: Result<Version>)
    ensures r.Ok? ==> AllDigits(r.value.epoch)
  {
    if !(1 <= |value| <= MAX_VERSION) then Invalid("version size")
    else if HasEpoch(value) then
      var n := DigitRun(value);
      if Value(value[..n]) > MAX_EPOCH then Invalid("epoch exceeds dpkg-compatible supported range")
      else SplitRest(Canonical(value[..n]), value[n + 1..])
    else if !RestSyntax(value) then Invalid("invalid Debian version")
    else if ':' in value then Invalid("colon without epoch")
    else SplitRest("0", value)
  }

  predicate ValidVersion(value: string) {
    SplitVersion(value).Ok?
  }

  // ----- Numeric runs -----

  /** `_digits`: drop leading zeros, compare lengths, then text. */
  function Digits(a: string, b: string): int {
    var x, y := StripZeros(a), StripZeros(b);
    if |x| != |y| then (if |x| > |y| then 1 else -1) else Lex(Codes(x), Codes(y))
  }

  lemma {:induction false} ValueBound(s: string)
    requires AllDigits(s)
    ensures Value(s) < Power10(|s|)
  {
    if s != "" {
      ValueBound(s[1..]);
      ScaleMonotone(s[0] as int - '0' as int, 9, Power10(|s| - 1));
    }
  }

  lemma ScaleMonotone(d: nat, e: nat, p: nat)
    requires d <= e
    ensures d * p <= e * p
  {
  }

  lemma {:induction false} StripKeepsValue(s: string)
    requires AllDigits(s)
    ensures AllDigits(StripZeros(s)) && Value(StripZeros(s)) == Value(s)
    ensures StripZeros(s) != "" ==> StripZeros(s)[0] != '0'
  {
    if s != "" && s[0] == '0' {
      StripKeepsValue(s[1..]);
    }
  }

  lemma {:induction false} EqualLengthDigits(a: string, b: string)
    requires AllDigits(a) && AllDigits(b) && |a| == |b|
    ensures Lex(Codes(a), Codes(b)) == Sign(Value(a) - Value(b))
  {
    hide Codes, Power10;
    if a != "" {
      CodesTail(a);
      CodesTail(b);
      ValueBound(a[1..]);
      ValueBound(b[1..]);
      if a[0] == b[0] {
        EqualLengthDigits(a[1..], b[1..]);
      } else {
        LeadingDecides(a[0] as int - '0' as int, b[0] as int - '0' as int, Value(a[1..]), Value(b[1..]),
          Power10(|a| - 1));
      }
    }
  }

  lemma CodesTail(s: string)
    requires s != ""
    ensures Codes(s)[0] == s[0] as int && Codes(s)[1..] == Codes(s[1..])
  {
  }

  lemma LeadingDecides(d: nat, e: nat, x: nat, y: nat, p: nat)
    requires d != e && x < p && y < p
    ensures Sign(d * p + x - (e * p + y)) == Sign(d - e)
  {
    if d < e {
      ScaleMonotone(d + 1, e, p);
      assert (d + 1) * p == d * p + p;
    } else {
      ScaleMonotone(e + 1, d, p);
      assert (e + 1) * p == e * p + p;
    }
  }

  lemma LongerIsLarger(a: string, b: string)
    requires AllDigits(a) && AllDigits(b) && |a| < |b| && b[0] != '0'
    ensures Value(a) < Value(b)
  {
    ValueBound(a);
    PowerMonotone(|a|, |b| - 1);
    ScaleMonotone(1, b[0] as int - '0' as int, Power10(|b| - 1));
  }

  /** `_digits` is the numeric comparison of unbounded digit runs. */
  lemma DigitsAreNumeric(a: string, b: string)
    requires AllDigits(a) && AllDigits(b)
    ensures Digits(a, b) == Sign(Value(a) - Value(b))
  {
    StripKeepsValue(a);
    StripKeepsValue(b);
    var x, y := StripZeros(a), StripZeros(b);
    if |x| == |y| {
      EqualLengthDigits(x, y);
    } else if |x| < |y| {
      LongerIsLarger(x, y);
    } else {
      LongerIsLarger(y, x);
    }
  }

  // ----- The canonical key -----

  /** `_order`, on a character that exists; the end of the string weighs 0. */
  function Order(c: char): int {
    if c == '~' then -1
    else if IsDigit(c) then 0
    else if IsLetter(c) then c as int
    else c as int + 256
  }

  function OrderAt(s: string, i: nat): int {
    if i < |s| then Order(s[i]) else 0
  }

  ghost function Key(s: string): seq<int>
    decreases |s|
  {
    if s == "" then []
    else if !IsDigit(s[0]) then [Order(s[0])] + Key(s[1..])
    else
      var n := DigitRun(s);
      [0, Value(s[..n])] + Key(s[n..])
  }

  function Head(k: seq<int>): int {
    if k == [] then 0 else k[0]
  }

  function Tail(k: seq<int>): seq<int> {
    if k == [] then [] else k[1..]
  }

  /** Lexicographic comparison with zeros after the end of either key. */
  function LexPadded(a: seq<int>, b: seq<int>): int
    decreases |a| + |b|
  {
    if a == [] && b == [] then 0
    else if Head(a) != Head(b) then Sign(Head(a) - Head(b))
    else LexPadded(Tail(a), Tail(b))
  }

  /** The order of two version parts. */
  ghost function PartOrder(a: string, b: string): int {
    LexPadded(Key(a), Key(b))
  }

  /** The order of what the two cursors have not crossed yet. */
  ghost function OrderFrom(a: string, b: string, i: nat, j: nat): int
    requires i <= |a| && j <= |b|
  {
    PartOrder(a[i..], b[j..])
  }

  /** Two cursors inside non-digit runs: equal weights move both, unequal decide. */
  lemma RunStep(a: string, b: string, i: nat, j: nat)
    requires i <= |a| && j <= |b|
    requires (i < |a| && !IsDigit(a[i])) || (j < |b| && !IsDigit(b[j]))
    ensures OrderAt(a, i) != OrderAt(b, j) ==>
              OrderFrom(a, b, i, j) == Sign(OrderAt(a, i) - OrderAt(b, j))
    ensures OrderAt(a, i) == OrderAt(b, j) ==>
              i < |a| && j < |b| && OrderFrom(a, b, i, j) == OrderFrom(a, b, i + 1, j + 1)
  {
    var s, t := a[i..], b[j..];
    assert s != "" ==> Head(Key(s)) == Order(s[0]);
    assert t != "" ==> Head(Key(t)) == Order(t[0]);
    if OrderAt(a, i) == OrderAt(b, j) {
      assert Tail(Key(s)) == Key(s[1..]) && Tail(Key(t)) == Key(t[1..]);
      assert s[1..] == a[i + 1..] && t[1..] == b[j + 1..];
    }
  }

  lemma KeyOfNumber(s: string)
    requires s == "" || IsDigit(s[0])
    ensures Head(Key(s)) == 0 && Head(Tail(Key(s))) == Value(s[..DigitRun(s)])
    ensures Tail(Tail(Key(s))) == Key(s[DigitRun(s)..])
  {
  }

  lemma PaddedStep(a: seq<int>, b: seq<int>)
    ensures LexPadded(a, b) == if Head(a) != Head(b) then Sign(Head(a) - Head(b)) else LexPadded(Tail(a), Tail(b))
  {
  }

  /** Two cursors at the ends of their non-digit runs: the numbers are compared next. */
  lemma NumbersFirst(s: string, t: string, x: string, y: string, restS: string, restT: string)
    requires x == s[..DigitRun(s)] && restS == s[DigitRun(s)..] && y == t[..DigitRun(t)] && restT == t[DigitRun(t)..]
    requires (s == "" || IsDigit(s[0])) && (t == "" || IsDigit(t[0]))
    ensures PartOrder(s, t) == if Digits(x, y) != 0 then Digits(x, y) else PartOrder(restS, restT)
  {
    hide Key, LexPadded, Head, Tail, Digits, DigitRun, Value;
    KeyOfNumber(s);
    KeyOfNumber(t);
    PaddedStep(Key(s), Key(t));
    PaddedStep(Tail(Key(s)), Tail(Key(t)));
    DigitsAreNumeric(x, y);
  }

  lemma SliceOfSuffix(s: string, i: nat, m: nat)
    requires i <= m <= |s|
    ensures s[i..][..m - i] == s[i..m] && s[i..][m - i..] == s[m..]
  {
  }

  lemma NumberStep(a: string, b: string, i: nat, j: nat, m: nat, n: nat)
    requires i <= m <= |a| && j <= n <= |b|
    requires m - i == DigitRun(a[i..]) && n - j == DigitRun(b[j..])
    requires (i == |a| || IsDigit(a[i])) && (j == |b| || IsDigit(b[j]))
    ensures OrderFrom(a, b, i, j) ==
            if Digits(a[i..m], b[j..n]) != 0 then Digits(a[i..m], b[j..n]) else OrderFrom(a, b, m, n)
  {
    hide PartOrder, Digits, DigitRun;
    SliceOfSuffix(a, i, m);
    SliceOfSuffix(b, j, n);
    NumbersFirst(a[i..], b[j..], a[i..m], b[j..n], a[m..], b[n..]);
  }

  lemma {:induction false} DigitRunIs(s: string, n: nat)
    requires n <= |s| && AllDigits(s[..n]) && (n < |s| ==> !IsDigit(s[n]))
    ensures DigitRun(s) == n
  {
    if n > 0 {
      assert s[0] == s[..n][0];
      assert s[1..][..n - 1] == s[..n][1..];
      DigitRunIs(s[1..], n - 1);
    }
  }

  /** End of the digit run that starts at `start`. */
  method SkipDigits(s: string, start: nat) returns (i: nat)
    requires start <= |s|
    ensures start <= i <= |s| && i - start == DigitRun(s[start..])
  {
    i := start;
    while i < |s| && IsDigit(s[i])
      invariant start <= i <= |s| && AllDigits(s[start..i])
    {
      assert s[start..i + 1] == s[start..i] + [s[i]];
      i := i + 1;
    }
    assert s[start..][..i - start] == s[start..i];
    DigitRunIs(s[start..], i - start);
  }

  /** `_part`: both cursors cross the non-digit runs together, then the digit runs. */
  method Part(a: string, b: string) returns (r: int)
    ensures r == PartOrder(a, b)
  {
    hide PartOrder, OrderFrom, Digits, DigitRun;
    var i, j := 0, 0;
    FromStart(a, b);
    while i < |a| || j < |b|
      invariant i <= |a| && j <= |b|
      invariant PartOrder(a, b) == OrderFrom(a, b, i, j)
      decreases |a| - i + |b| - j
    {
      ghost var before := |a| - i + |b| - j;
      while (i < |a| && !IsDigit(a[i])) || (j < |b| && !IsDigit(b[j]))
        invariant i <= |a| && j <= |b| && |a| - i + |b| - j <= before
        invariant PartOrder(a, b) == OrderFrom(a, b, i, j)
        decreases |a| - i + |b| - j
      {
        RunStep(a, b, i, j);
        var x, y := OrderAt(a, i), OrderAt(b, j);
        if x != y {
          return Sign(x - y);
        }
        if i < |a| { i := i + 1; }
        if j < |b| { j := j + 1; }
      }
      var startA, startB := i, j;
      i := SkipDigits(a, startA);
      j := SkipDigits(b, startB);
      NumberStep(a, b, startA, startB, i, j);
      var result := Digits(a[startA..i], b[startB..j]);
      if result != 0 {
        return result;
      }
    }
    FromEnd(a, b);
    return 0;
  }

  lemma FromStart(a: string, b: string)
    ensures OrderFrom(a, b, 0, 0) == PartOrder(a, b)
  {
    assert a[0..] == a && b[0..] == b;
  }

  lemma FromEnd(a: string, b: string)
    ensures OrderFrom(a, b, |a|, |b|) == 0
  {
    assert a[|a|..] == "" && b[|b|..] == "";
  }

  // ----- The order on whole versions -----

  function First(x: int, y: int, z: int): int {
    if x != 0 then x else if y != 0 then y else z
  }

  /** What a version is compared by: its epoch number and the keys of its two parts. */
  datatype VersionKey = VersionKey(epoch: nat, upstream: seq<int>, revision: seq<int>)

  ghost function KeyOfVersion(v: Version): VersionKey
    requires AllDigits(v.epoch)
  {
    VersionKey(Value(v.epoch), Key(v.upstream), Key(v.revision))
  }

  ghost function KeyOf(value: string): VersionKey
    requires ValidVersion(value)
  {
    KeyOfVersion(SplitVersion(value).value)
  }

  ghost function CompareKeys(k: VersionKey, l: VersionKey): int {
    First(Sign(k.epoch - l.epoch), LexPadded(k.upstream, l.upstream), LexPadded(k.revision, l.revision))
  }

  /** The order on version texts that are valid. */
  ghost function Comparison(a: string, b: string): int
    requires ValidVersion(a) && ValidVersion(b)
  {
    CompareKeys(KeyOf(a), KeyOf(b))
  }

  method ComparePieces(v: Version, w: Version) returns (r: int)
    requires AllDigits(v.epoch) && AllDigits(w.epoch)
    ensures r == CompareKeys(KeyOfVersion(v), KeyOfVersion(w))
  {
    r := Digits(v.epoch, w.epoch);
    DigitsAreNumeric(v.epoch, w.epoch);
    if r == 0 {
      r := Part(v.upstream, w.upstream);
      if r == 0 {
        r := Part(v.revision, w.revision);
      }
    }
  }

  method Compare(a: string, b: string) returns (r: Result<int>)
    ensures r.Ok? <==> ValidVersion(a) && ValidVersion(b)
    ensures r.Ok? ==> r.value == Comparison(a, b)
    ensures !ValidVersion(a) ==> r == Invalid(SplitVersion(a).reason)
  {
    var v :- SplitVersion(a);
    var w :- SplitVersion(b);
    var sign := ComparePieces(v, w);
    return Ok(sign);
  }

  // ----- Laws of the padded order -----

  lemma {:induction false} PaddedAntisymmetric(a: seq<int>, b: seq<int>)
    ensures LexPadded(a, b) == -LexPadded(b, a)
    decreases |a| + |b|
  {
    if (a != [] || b != []) && Head(a) == Head(b) {
      PaddedAntisymmetric(Tail(a), Tail(b));
    }
  }

  /** Sign laws that make a three-way comparison a total preorder. */
  predicate Chains(ab: int, bc: int, ac: int) {
    && (ab <= 0 && bc <= 0 ==> ac <= 0)
    && (ab < 0 && bc <= 0 ==> ac < 0)
    && (ab <= 0 && bc < 0 ==> ac < 0)
    && (ab == 0 && bc == 0 ==> ac == 0)
  }

  lemma {:induction false} PaddedChains(a: seq<int>, b: seq<int>, c: seq<int>)
    ensures Chains(LexPadded(a, b), LexPadded(b, c), LexPadded(a, c))
    decreases |a| + |b| + |c|
  {
    if (a != [] || b != [] || c != []) && Head(a) == Head(b) == Head(c) {
      PaddedChains(Tail(a), Tail(b), Tail(c));
    }
  }

  /** The key with its insignificant trailing zeros removed. */
  ghost function Trim(k: seq<int>): seq<int> {
    if k != [] && k[|k| - 1] == 0 then Trim(k[..|k| - 1]) else k
  }

  lemma {:induction false} PaddedTrim(a: seq<int>, b: seq<int>)
    ensures LexPadded(Trim(a), b) == LexPadded(a, b)
    decreases |a|
  {
    if a != [] && a[|a| - 1] == 0 {
      PaddedDropZero(a[..|a| - 1], b);
      assert a == a[..|a| - 1] + [0];
      PaddedTrim(a[..|a| - 1], b);
    }
  }

  lemma {:induction false} PaddedDropZero(a: seq<int>, b: seq<int>)
    ensures LexPadded(a + [0], b) == LexPadded(a, b)
    decreases |a| + |b|
  {
    var c := a + [0];
    assert Head(c) == Head(a);
    if a != [] {
      assert Tail(c) == Tail(a) + [0];
      PaddedDropZero(Tail(a), Tail(b));
    } else {
      assert Tail(c) == [];
    }
  }

  lemma {:induction false} TrimmedEqual(a: seq<int>, b: seq<int>)
    requires LexPadded(a, b) == 0
    requires a != [] ==> a[|a| - 1] != 0
    requires b != [] ==> b[|b| - 1] != 0
    ensures a == b
    decreases |a| + |b|
  {
    if a != [] && b != [] {
      TrimmedEqual(a[1..], b[1..]);
      assert a == [a[0]] + a[1..] && b == [b[0]] + b[1..];
    } else if a != [] {
      TrimmedEqual(a[1..], []);
    } else if b != [] {
      TrimmedEqual([], b[1..]);
    }
  }

  lemma {:induction false} TrimEnds(k: seq<int>)
    ensures Trim(k) != [] ==> Trim(k)[|Trim(k)| - 1] != 0
  {
    if k != [] && k[|k| - 1] == 0 { TrimEnds(k[..|k| - 1]); }
  }

  lemma {:induction false} PaddedReflexive(a: seq<int>)
    ensures LexPadded(a, a) == 0
  {
    if a != [] { PaddedReflexive(a[1..]); }
  }

  lemma PaddedZero(a: seq<int>, b: seq<int>)
    ensures LexPadded(a, b) == 0 <==> Trim(a) == Trim(b)
  {
    hide Trim, LexPadded;
    PaddedTrim(a, b);
    PaddedAntisymmetric(Trim(a), b);
    PaddedTrim(b, Trim(a));
    PaddedAntisymmetric(Trim(b), Trim(a));
    PaddedReflexive(Trim(a));
    if LexPadded(a, b) == 0 {
      TrimEnds(a);
      TrimEnds(b);
      TrimmedEqual(Trim(a), Trim(b));
    }
  }

  // ----- Main results -----

  /** compare(a,b) = -compare(b,a); in particular compare(a,a) = 0. */
  lemma ComparisonAntisymmetric(a: string, b: string)
    requires ValidVersion(a) && ValidVersion(b)
    ensures Comparison(a, b) == -Comparison(b, a)
    ensures Comparison(a, a) == 0
  {
    var k, l := KeyOf(a), KeyOf(b);
    PaddedAntisymmetric(k.upstream, l.upstream);
    PaddedAntisymmetric(k.revision, l.revision);
    PaddedReflexive(k.upstream);
    PaddedReflexive(k.revision);
  }

  /** Transitivity, strict and weak, on all valid versions. */
  lemma ComparisonTransitive(a: string, b: string, c: string)
    requires ValidVersion(a) && ValidVersion(b) && ValidVersion(c)
    ensures Comparison(a, b) <= 0 && Comparison(b, c) <= 0 ==> Comparison(a, c) <= 0
    ensures Comparison(a, b) < 0 && Comparison(b, c) <= 0 ==> Comparison(a, c) < 0
    ensures Comparison(a, b) <= 0 && Comparison(b, c) < 0 ==> Comparison(a, c) < 0
    ensures Comparison(a, b) == 0 && Comparison(b, c) == 0 ==> Comparison(a, c) == 0
  {
    var k, l, m := KeyOf(a), KeyOf(b), KeyOf(c);
    PaddedChains(k.upstream, l.upstream, m.upstream);
    PaddedChains(k.revision, l.revision, m.revision);
  }

  /** Two versions compare equal exactly when their normalised keys are equal. */
  lemma ComparisonZero(a: string, b: string)
    requires ValidVersion(a) && ValidVersion(b)
    ensures Comparison(a, b) == 0 <==>
            var k, l := KeyOf(a), KeyOf(b);
            k.epoch == l.epoch && Trim(k.upstream) == Trim(l.upstream) && Trim(k.revision) == Trim(l.revision)
  {
    var k, l := KeyOf(a), KeyOf(b);
    PaddedZero(k.upstream, l.upstream);
    PaddedZero(k.revision, l.revision);
  }

  // ----- What decides between two parts -----

  predicate StartsWithDigit(s: string) {
    s != "" && IsDigit(s[0])
  }

  predicate EndsWithDigit(s: string) {
    s != "" && IsDigit(s[|s| - 1])
  }

  lemma RunKept(s: string, t: string)
    requires DigitRun(s) < |s| || !StartsWithDigit(t)
    ensures DigitRun(s + t) == DigitRun(s)
    ensures (s + t)[..DigitRun(s)] == s[..DigitRun(s)] && (s + t)[DigitRun(s)..] == s[DigitRun(s)..] + t
  {
    var n := DigitRun(s);
    assert (s + t)[..n] == s[..n] && (s + t)[n..] == s[n..] + t;
    if n < |s| || t != "" {
      assert (s + t)[n] == (s[n..] + t)[0];
    }
    DigitRunIs(s + t, n);
  }

  /** A common beginning decides nothing, unless a number goes on differently after it. */
  lemma {:induction false} AfterPrefix(s: string, a: string, b: string)
    requires EndsWithDigit(s) ==> !StartsWithDigit(a) && !StartsWithDigit(b)
    ensures PartOrder(s + a, s + b) == PartOrder(a, b)
    decreases |s|
  {
    hide PartOrder, DigitRun;
    var c, d := s + a, s + b;
    if s == "" {
      assert c == a && d == b;
    } else if !IsDigit(s[0]) {
      assert c[1..] == s[1..] + a && d[1..] == s[1..] + b;
      RunStep(c, d, 0, 0);
      FromStart(c, d);
      AfterPrefix(s[1..], a, b);
    } else {
      var n := DigitRun(s);
      RunInside(s);
      RunKept(s, a);
      RunKept(s, b);
      DigitsAreNumeric(s[..n], s[..n]);
      NumbersFirst(c, d, s[..n], s[..n], c[n..], d[n..]);
      AfterPrefix(s[n..], a, b);
    }
  }

  lemma RunInside(s: string)
    requires s != "" && IsDigit(s[0])
    ensures 0 < DigitRun(s) <= |s| && (DigitRun(s) == |s| ==> IsDigit(s[|s| - 1]))
  {
    var n := DigitRun(s);
    assert n == |s| ==> s[..n] == s;
  }

  predicate Letter(c: char) {
    'A' <= c <= 'Z' || 'a' <= c <= 'z'
  }

  /** A place in a part: one character that is no digit, or the end. */
  predicate Place(x: string) {
    x == "" || (|x| == 1 && !IsDigit(x[0]))
  }

  /** A tilde is before the end, the end before a letter, a letter before the rest; each kind in code order. */
  predicate Before(x: string, y: string)
    requires Place(x) && Place(y)
  {
    if x == "" || y == "" || x == "~" || y == "~" then
      (x == "~" && y != "~") || (x == "" && y != "" && y != "~")
    else if Letter(x[0]) == Letter(y[0]) then x[0] < y[0]
    else Letter(x[0])
  }

  /** The first difference decides, whatever comes after it. */
  lemma FirstDifference(s: string, x: string, y: string, t: string, u: string)
    requires Place(x) && Place(y) && Before(x, y) && (x == "" ==> t == "") && (y == "" ==> u == "")
    ensures PartOrder(s + x + t, s + y + u) == -1
  {
    hide PartOrder;
    assert s + x + t == s + (x + t) && s + y + u == s + (y + u);
    AfterPrefix(s, x + t, y + u);
    FromStart(x + t, y + u);
    RunStep(x + t, y + u, 0, 0);
  }

  /** Numbers in the same place are compared as numbers; only equal ones leave the rest to decide. */
  lemma NumberDecides(s: string, x: string, y: string, t: string, u: string)
    requires AllDigits(x) && AllDigits(y) && !EndsWithDigit(s) && !StartsWithDigit(t) && !StartsWithDigit(u)
    requires (x == "" ==> t == "") && (y == "" ==> u == "")
    ensures PartOrder(s + x + t, s + y + u) ==
            if Value(x) < Value(y) then -1 else if Value(x) > Value(y) then 1 else PartOrder(t, u)
  {
    hide PartOrder;
    assert s + x + t == s + (x + t) && s + y + u == s + (y + u);
    AfterPrefix(s, x + t, y + u);
    WholeRun(x, t);
    WholeRun(y, u);
    DigitsAreNumeric(x, y);
    NumbersFirst(x + t, y + u, x, y, t, u);
  }

  lemma WholeRun(x: string, t: string)
    requires AllDigits(x) && !StartsWithDigit(t)
    ensures DigitRun(x + t) == |x| && (x + t)[..|x|] == x && (x + t)[|x|..] == t
  {
    DigitRunIs(x + t, |x|);
  }

  /** A tilde sorts before anything, even the end of a part. */
  lemma TildeBeforeEnd(s: string, t: string)
    ensures PartOrder(s + "~" + t, s) < 0
  {
    hide PartOrder;
    FirstDifference(s, "~", "", t, "");
    assert s + "" + "" == s;
  }

  // ----- What decides between two versions -----

  /** The epoch number first, then the upstream parts, and only a tie of both leaves it to the revisions. */
  lemma PiecesDecide(a: string, b: string, v: Version, w: Version)
    requires Spells(a, v) && Spells(b, w)
    ensures ValidVersion(a) && ValidVersion(b) && AllDigits(v.epoch) && AllDigits(w.epoch)
    ensures Value(v.epoch) < Value(w.epoch) ==> Comparison(a, b) == -1
    ensures Value(v.epoch) > Value(w.epoch) ==> Comparison(a, b) == 1
    ensures Value(v.epoch) == Value(w.epoch) ==>
              Comparison(a, b) == if PartOrder(v.upstream, w.upstream) != 0 then PartOrder(v.upstream, w.upstream)
                                  else PartOrder(v.revision, w.revision)
  {
    hide Spells, Key, LexPadded;
    SplitExactly(a, v);
    SplitExactly(b, w);
  }

  // ----- Splitting recovers what was written -----

  /** A version value in canonical form. */
  predicate CanonicalVersion(v: Version) {
    && v.epoch != "" && AllDigits(v.epoch) && Value(v.epoch) <= MAX_EPOCH
    && (v.epoch == "0" || v.epoch[0] != '0')
    && RestSyntax(v.upstream)
    && RevisionSyntax(v.revision)
  }

  function Render(v: Version): string {
    v.epoch + ":" + v.upstream + "-" + v.revision
  }

  lemma {:induction false} LastHyphenIs(front: string, back: string)
    requires '-' !in back
    ensures '-' in front + "-" + back
    ensures LastHyphen(front + "-" + back) == |front|
  {
    var s := front + "-" + back;
    assert s[|front|] == '-';
    if back != "" {
      var n := |back| - 1;
      assert back[n] != '-';
      assert s[..|s| - 1] == front + "-" + back[..n];
      LastHyphenIs(front, back[..n]);
    }
  }

  lemma RestRendered(v: Version)
    requires RestSyntax(v.upstream) && RevisionSyntax(v.revision)
    ensures RestSyntax(v.upstream + "-" + v.revision)
    ensures SplitRest(v.epoch, v.upstream + "-" + v.revision) == Ok(v)
  {
    var rest := v.upstream + "-" + v.revision;
    assert forall i :: 0 <= i < |v.revision| ==> RevisionChar(v.revision[i]);
    LastHyphenIs(v.upstream, v.revision);
    assert rest[|v.upstream| + 1..] == v.revision && rest[..|v.upstream|] == v.upstream;
  }

  lemma CanonicalEpoch(epoch: string)
    requires AllDigits(epoch) && epoch != "" && (epoch == "0" || epoch[0] != '0')
    ensures Canonical(epoch) == epoch
  {
    if epoch == "0" {
      assert StripZeros(epoch) == StripZeros("") == "";
    }
  }

  lemma EpochSplits(s: string, n: nat)
    requires |s| <= MAX_VERSION && n == DigitRun(s) && HasEpoch(s) && Value(s[..n]) <= MAX_EPOCH
    ensures SplitVersion(s) == SplitRest(Canonical(s[..n]), s[n + 1..])
  {
  }

  lemma RenderSlices(v: Version)
    ensures var s, n := Render(v), |v.epoch|;
            n < |s| && s[..n] == v.epoch && s[n] == ':' && s[n + 1..] == v.upstream + "-" + v.revision
  {
  }

  lemma RenderPieces(v: Version)
    requires CanonicalVersion(v)
    ensures DigitRun(Render(v)) == |v.epoch| && Render(v)[..|v.epoch|] == v.epoch
    ensures HasEpoch(Render(v)) && Render(v)[|v.epoch| + 1..] == v.upstream + "-" + v.revision
  {
    hide Render, SplitRest;
    RestRendered(v);
    RenderSlices(v);
    DigitRunIs(Render(v), |v.epoch|);
  }

  /** A canonical version, written out, splits back into its parts. */
  lemma SplitRendered(v: Version)
    requires CanonicalVersion(v) && |Render(v)| <= MAX_VERSION
    ensures SplitVersion(Render(v)) == Ok(v)
  {
    RenderPieces(v);
    EpochSplits(Render(v), |v.epoch|);
    CanonicalEpoch(v.epoch);
    RestRendered(v);
  }

  // ----- What a version text is -----

  /** `body` is written `upstream-revision`, or `upstream` alone with the revision 0 understood. */
  ghost predicate BodySpells(body: string, upstream: string, revision: string) {
    && RestSyntax(body) && upstream != ""
    && if '-' in body then RevisionSyntax(revision) && body == upstream + "-" + revision
       else body == upstream && revision == "0"
  }

  ghost predicate EpochSpells(value: string, digits: string, body: string, epoch: string) {
    && value == digits + ":" + body
    && digits != "" && AllDigits(digits) && Value(digits) <= MAX_EPOCH && epoch == Canonical(digits)
  }

  /** `value` is a Debian version of these three parts; only an epoch may bring colons. */
  ghost predicate Spells(value: string, v: Version) {
    && 1 <= |value| <= MAX_VERSION
    && (|| (':' !in value && v.epoch == "0" && BodySpells(value, v.upstream, v.revision))
        || exists digits, body :: EpochSpells(value, digits, body, v.epoch)
                                  && BodySpells(body, v.upstream, v.revision))
  }

  lemma RestExactly(epoch: string, body: string, v: Version)
    requires RestSyntax(body)
    ensures SplitRest(epoch, body) == Ok(v) <==> v.epoch == epoch && BodySpells(body, v.upstream, v.revision)
  {
    hide RestSyntax;
    if '-' in body {
      var k := LastHyphen(body);
      assert body == body[..k] + "-" + body[k + 1..];
      if RevisionSyntax(v.revision) && body == v.upstream + "-" + v.revision {
        LastHyphenIs(v.upstream, v.revision);
        assert body[..k] == v.upstream && body[k + 1..] == v.revision;
      }
    }
  }

  /** An epoch that spells the text is the leading digit run. */
  lemma EpochIsRun(value: string, digits: string, body: string, epoch: string)
    requires EpochSpells(value, digits, body, epoch)
    ensures var n := DigitRun(value);
            n == |digits| < |value| && value[..n] == digits && value[n] == ':' && value[n + 1..] == body
  {
    var n := |digits|;
    assert value[..n] == digits && value[n] == ':' && value[n + 1..] == body;
    assert forall i :: 0 <= i < n ==> value[i] == digits[i];
    DigitRunIs(value, n);
  }

  lemma WithoutEpoch(value: string, v: Version)
    requires 1 <= |value| <= MAX_VERSION && !HasEpoch(value)
    ensures SplitVersion(value) == Ok(v) <==> Spells(value, v)
  {
    hide RestSyntax, SplitRest, DigitRun, RevisionSyntax;
    if RestSyntax(value) { RestExactly("0", value, v); }
    forall digits, body | EpochSpells(value, digits, body, v.epoch)
      ensures !RestSyntax(body)
    {
      EpochIsRun(value, digits, body, v.epoch);
    }
  }

  lemma WithEpoch(value: string, v: Version)
    requires 1 <= |value| <= MAX_VERSION && HasEpoch(value)
    ensures SplitVersion(value) == Ok(v) <==> Spells(value, v)
  {
    hide RestSyntax, SplitRest, DigitRun, RevisionSyntax;
    var n := DigitRun(value);
    var digits, body := value[..n], value[n + 1..];
    assert value == digits + ":" + body;
    RestExactly(Canonical(digits), body, v);
    if Value(digits) <= MAX_EPOCH {
      assert EpochSpells(value, digits, body, Canonical(digits));
    }
    forall d, b | EpochSpells(value, d, b, v.epoch)
      ensures d == digits && b == body
    {
      EpochIsRun(value, d, b, v.epoch);
    }
  }

  /** `split_version` accepts exactly the texts that spell a version, and returns the version they spell. */
  lemma SplitExactly(value: string, v: Version)
    ensures SplitVersion(value) == Ok(v) <==> Spells(value, v)
  {
    hide Spells, SplitVersion, HasEpoch;
    if 1 <= |value| <= MAX_VERSION {
      if HasEpoch(value) { WithEpoch(value, v); } else { WithoutEpoch(value, v); }
    } else {
      TooLong(value, v);
    }
  }

  lemma TooLong(value: string, v: Version)
    requires !(1 <= |value| <= MAX_VERSION)
    ensures !SplitVersion(value).Ok? && !Spells(value, v)
  {
  }
}
