/**
 The decimal timestamp reader of native/worker/tar_clocks.c. A text is accepted
 exactly when the number it writes is a whole count of nanoseconds whose floor
 second is a signed 64-bit integer, and the clock is that number.
 */
module TarTimes {

  import opened NiaCommon
  import opened Bytes
  import opened TarNumbers

  datatype Clock = Clock(seconds: int, nanos: int)

  /** `-?digits` or `-?digits.digits`; an empty fraction stands for no point at all. */
  predicate Written(p: Data, negative: bool, whole: Data, fraction: Data) {
    && whole != [] && Digits(whole, 10) && Digits(fraction, 10)
    && p == (if negative then [45] else []) + whole + (if fraction == [] then [] else [46] + fraction)
  }

  /** The written rational, over `Power10(|fraction|)`. */
  function Numerator(negative: bool, whole: Data, fraction: Data): int {
    if negative then -Value(whole + fraction, 10) else Value(whole + fraction, 10)
  }

  predicate ClockFits(c: Clock) {
    INT64_MIN <= c.seconds <= INT64_MAX && 0 <= c.nanos < BILLION
  }

  predicate Equals(negative: bool, whole: Data, fraction: Data, c: Clock) {
    (c.seconds * BILLION + c.nanos) * Power10(|fraction|) == Numerator(negative, whole, fraction) * BILLION
  }

  /** The clock is the number the text writes, exactly. */
  ghost predicate Denotes(p: Data, c: Clock) {
    ClockFits(c)
    && exists negative, whole, fraction :: Written(p, negative, whole, fraction) && Equals(negative, whole, fraction, c)
  }

  // ----- The parts of a text -----

  /** The end of the digits that start at `i`. */
  function DigitEnd(p: Data, i: nat): (j: nat)
    requires i <= |p|
    ensures i <= j <= |p| && (forall k :: i <= k < j ==> 48 <= p[k] < 58)
    ensures j == |p| || !(48 <= p[j] < 58)
    decreases |p| - i
  {
    if i < |p| && 48 <= p[i] < 58 then DigitEnd(p, i + 1) else i
  }

  lemma DigitEndUnique(p: Data, i: nat, j: nat)
    requires i <= j <= |p| && (forall k :: i <= k < j ==> 48 <= p[k] < 58)
    ensures j <= DigitEnd(p, i)
    ensures (j == |p| || !(48 <= p[j] < 58)) ==> j == DigitEnd(p, i)
    decreases j - i
  {
    if i < j {
      DigitEndUnique(p, i + 1, j);
    }
  }

  datatype Parts = Parts(negative: bool, whole: Data, fraction: Data)

  function Start(p: Data): (i: nat)
    ensures i <= |p|
  {
    if p != [] && p[0] == 45 then 1 else 0
  }

  function Split(p: Data): Option<Parts> {
    var start := Start(p);
    var end := DigitEnd(p, start);
    if end == start then None
    else if end == |p| then Some(Parts(start == 1, p[start..end], []))
    else if p[end] != 46 || end + 1 == |p| || !Digits(p[end + 1..], 10) then None
    else Some(Parts(start == 1, p[start..end], p[end + 1..]))
  }

  lemma SplitWritten(p: Data)
    requires Split(p).Some?
    ensures var parts := Split(p).value; Written(p, parts.negative, parts.whole, parts.fraction)
    ensures Digits(Split(p).value.whole, 10) && Digits(Split(p).value.fraction, 10)
  {
    hide Digits;
    var parts := Split(p).value;
    var start, end := Start(p), DigitEnd(p, Start(p));
    assert p[..start] == if parts.negative then [45] else [];
    DigitsOfRun(p, start, end);
    Apart(p, start, end);
    if end == |p| {
      assert p[end..] == [] && Digits(parts.fraction, 10) by { DigitsOfRun(p, end, end); }
    }
  }

  lemma DigitsOfRun(p: Data, i: nat, j: nat)
    requires i <= j <= |p| && forall k :: i <= k < j ==> 48 <= p[k] < 58
    ensures Digits(p[i..j], 10) && (i == j ==> p[i..j] == [])
  {
  }

  lemma Apart(p: Data, start: nat, end: nat)
    requires start <= end <= |p|
    ensures p == p[..start] + p[start..end] + p[end..]
    ensures end < |p| ==> p[end..] == [p[end]] + p[end + 1..]
  {
  }

  lemma WrittenSplit(p: Data, negative: bool, whole: Data, fraction: Data)
    requires Written(p, negative, whole, fraction)
    ensures Split(p) == Some(Parts(negative, whole, fraction))
  {
    hide Written, DigitEnd;
    var start, end := WrittenAt(p, negative, whole, fraction);
    DigitEndUnique(p, start, end);
  }

  lemma Sliced(a: Data, b: Data, c: Data)
    ensures var p := a + b + c;
            |p| == |a| + |b| + |c| && p[..|a|] == a && p[|a|..|a| + |b|] == b && p[|a| + |b|..] == c
  {
  }

  /** Where the parts of a written text stand. */
  lemma WrittenAt(p: Data, negative: bool, whole: Data, fraction: Data) returns (start: nat, end: nat)
    requires Written(p, negative, whole, fraction)
    ensures start == Start(p) == (if negative then 1 else 0) && start < end <= |p| && p[start..end] == whole
    ensures forall k :: start <= k < end ==> 48 <= p[k] < 58
    ensures if fraction == [] then end == |p|
            else end + 1 < |p| && p[end] == 46 && p[end + 1..] == fraction && Digits(p[end + 1..], 10)
  {
    var sign, point: Data := if negative then [45] else [], if fraction == [] then [] else [46] + fraction;
    start, end := |sign|, |sign| + |whole|;
    Sliced(sign, whole, point);
    Numeric(p, start, end);
    FirstByte(p, sign, whole, point);
    AfterPoint(p, end, fraction);
  }

  lemma Numeric(p: Data, start: nat, end: nat)
    requires start <= end <= |p| && Digits(p[start..end], 10)
    ensures forall k :: start <= k < end ==> 48 <= p[k] < 58
  {
    assert forall k :: start <= k < end ==> p[k] == p[start..end][k - start];
  }

  lemma FirstByte(p: Data, sign: Data, whole: Data, rest: Data)
    requires p == sign + whole + rest && (sign == [] || sign == [45]) && whole != [] && Digits(whole, 10)
    ensures Start(p) == |sign|
  {
    assert p[0] == if sign == [] then whole[0] else 45;
  }

  lemma AfterPoint(p: Data, end: nat, fraction: Data)
    requires end <= |p| && p[end..] == (if fraction == [] then [] else [46] + fraction)
    ensures if fraction == [] then end == |p| else end + 1 < |p| && p[end] == 46 && p[end + 1..] == fraction
  {
    if fraction != [] {
      assert p[end] == p[end..][0];
      assert p[end + 1..] == p[end..][1..];
    }
  }

  // ----- The clock of a text -----

  function First9(f: Data): Data {
    if |f| <= 9 then f else f[..9]
  }

  /** Nanoseconds of a fraction: its first nine digits, padded on the right. */
  function Nanos(f: Data): int {
    Value(First9(f), 10) * Power10(9 - |First9(f)|)
  }

  predicate ExactNanos(f: Data) {
    forall i :: 9 <= i < |f| ==> f[i] == 48
  }

  /** The second at or below plus or minus `w` seconds and `m` nanoseconds, and what is above it. */
  function Floor(negative: bool, w: int, m: int): Clock {
    if !negative then Clock(w, m) else if m == 0 then Clock(-w, 0) else Clock(-w - 1, BILLION - m)
  }

  lemma FloorExact(negative: bool, w: int, m: int, c: Clock)
    requires 0 <= m < BILLION
    ensures 0 <= Floor(negative, w, m).nanos < BILLION
    ensures 0 <= c.nanos < BILLION ==>
              (c.seconds * BILLION + c.nanos == (if negative then -1 else 1) * (w * BILLION + m)
               <==> c == Floor(negative, w, m))
  {
  }

  function Reading(parts: Parts): Option<Clock> {
    var c := Floor(parts.negative, Value(parts.whole, 10), Nanos(parts.fraction));
    if ExactNanos(parts.fraction) && INT64_MIN <= c.seconds <= INT64_MAX then Some(c) else None
  }

  function ClockOf(p: Data): Option<Clock> {
    match Split(p)
    case None => None
    case Some(parts) => Reading(parts)
  }

  lemma PowerSplits(a: nat, b: nat)
    ensures Power10(a + b) == Power10(a) * Power10(b)
  {
    if b > 0 {
      PowerSplits(a, b - 1);
      assert Power10(a + b) == 10 * Power10(a + b - 1);
    }
  }

  lemma Powers()
    ensures Power10(9) == BILLION
  {
    assert Power10(3) == 1000;
    assert Power10(6) == 1_000_000;
  }

  lemma NanosRange(f: Data)
    requires Digits(f, 10)
    ensures 0 <= Nanos(f) < BILLION
  {
    var g := First9(f);
    Powers();
    ValueBound(g);
    PowerSplits(|g|, 9 - |g|);
    Scaled(Value(g, 10), Power10(|g|), Power10(9 - |g|));
  }

  lemma Scaled(v: int, p: int, q: int)
    requires 0 <= v < p && q > 0
    ensures 0 <= v * q < p * q
  {
    assert (p - v) * q > 0;
  }

  /** The fraction is its nanoseconds plus a remainder that is zero exactly when the later digits are. */
  lemma FractionValue(f: Data) returns (rest: int)
    requires Digits(f, 10)
    ensures Value(f, 10) * BILLION == Nanos(f) * Power10(|f|) + rest * BILLION
    ensures 0 <= rest && rest * BILLION < Power10(|f|)
    ensures rest == 0 <==> ExactNanos(f)
  {
    if |f| <= 9 {
      ShortFraction(f);
      rest := 0;
    } else {
      rest := LongFraction(f);
    }
  }

  lemma ShortFraction(f: Data)
    requires Digits(f, 10) && |f| <= 9
    ensures Value(f, 10) * BILLION == Nanos(f) * Power10(|f|) && 0 < Power10(|f|) && ExactNanos(f)
  {
    hide Value, Power10, Digits;
    Powers();
    PowerSplits(|f|, 9 - |f|);
    Rotate(Value(f, 10), Power10(|f|), Power10(9 - |f|));
  }

  lemma LongFraction(f: Data) returns (rest: int)
    requires Digits(f, 10) && |f| > 9
    ensures Value(f, 10) * BILLION == Nanos(f) * Power10(|f|) + rest * BILLION
    ensures 0 <= rest && rest * BILLION < Power10(|f|)
    ensures rest == 0 <==> ExactNanos(f)
  {
    hide Value, Power10;
    Powers();
    NoPower();
    var g, h := f[..9], f[9..];
    assert f == g + h;
    ValueConcat(g, h);
    PowerSplits(9, |h|);
    ValueBound(h);
    rest := Value(h, 10);
    GatherDigits(Value(g, 10), Power10(|h|), rest, Value(f, 10));
    LaterZeros(f, h);
  }

  lemma NoPower()
    ensures Power10(0) == 1
  {
  }

  lemma LaterZeros(f: Data, h: Data)
    requires |f| > 9 && h == f[9..]
    ensures ExactNanos(f) <==> forall i :: 0 <= i < |h| ==> h[i] == 48
  {
    assert forall i :: 9 <= i < |f| ==> f[i] == h[i - 9];
  }

  lemma Rotate(v: int, p: int, q: int)
    ensures v * (p * q) == (v * q) * p
  {
  }

  lemma GatherDigits(g: int, q: int, rest: int, f: int)
    requires f == g * q + rest && rest < q
    ensures f * BILLION == g * (BILLION * q) + rest * BILLION
    ensures rest * BILLION < BILLION * q
  {
    assert g * (BILLION * q) == BILLION * (g * q);
  }

  lemma Multiple(x: int, p: int, rest: int)
    requires p > 0 && 0 <= rest < p && x * p == rest
    ensures x == 0 && rest == 0
  {
    if x >= 1 {
      Scale(x, 1, p);
    } else if x <= -1 {
      Scale(-1, x, p);
    }
  }

  /** Over the same denominator, the clock and the text are compared by their numerators. */
  lemma SameNumber(negative: bool, whole: Data, f: Data, c: Clock, rest: int)
    requires Digits(f, 10)
    requires Value(f, 10) * BILLION == Nanos(f) * Power10(|f|) + rest * BILLION
    requires 0 <= rest && rest * BILLION < Power10(|f|)
    ensures Equals(negative, whole, f, c) <==>
            rest == 0 && c.seconds * BILLION + c.nanos
              == (if negative then -1 else 1) * (Value(whole, 10) * BILLION + Nanos(f))
  {
    hide Value, Nanos, Power10, Digits;
    var p := Power10(|f|);
    var w, m, v := Value(whole, 10), Nanos(f), Value(whole + f, 10);
    ValueConcat(whole, f);
    Distribute(w, m, p, Value(f, 10), rest);
    Signed(negative, c.seconds * BILLION + c.nanos, w * BILLION + m, p, rest * BILLION, v);
  }

  /** A sign on both sides changes nothing. */
  lemma Signed(negative: bool, x: int, y: int, p: int, rest: int, v: int)
    requires 0 <= rest < p && v * BILLION == y * p + rest
    ensures x * p == (if negative then -v else v) * BILLION <==> rest == 0 && x == (if negative then -1 else 1) * y
  {
    if negative {
      Compare(-x, y, p, rest);
      assert -x * p == -(x * p);
    } else {
      Compare(x, y, p, rest);
    }
  }

  lemma Distribute(w: int, m: int, p: int, v: int, rest: int)
    requires v * BILLION == m * p + rest * BILLION
    ensures (w * p + v) * BILLION == (w * BILLION + m) * p + rest * BILLION
  {
    assert (w * BILLION + m) * p == BILLION * (w * p) + m * p;
  }

  lemma Compare(x: int, y: int, p: int, rest: int)
    requires p > 0 && 0 <= rest < p
    ensures x * p == y * p + rest <==> x == y && rest == 0
  {
    assert (x - y) * p == x * p - y * p;
    if x * p == y * p + rest {
      Multiple(x - y, p, rest);
    }
  }

  lemma ReadingExact(parts: Parts, c: Clock)
    requires Digits(parts.whole, 10) && Digits(parts.fraction, 10)
    ensures ClockFits(c) && Equals(parts.negative, parts.whole, parts.fraction, c) <==> Reading(parts) == Some(c)
  {
    hide Value, Nanos, Power10, Digits, Floor, Equals;
    var f := parts.fraction;
    var rest := FractionValue(f);
    NanosRange(f);
    FloorExact(parts.negative, Value(parts.whole, 10), Nanos(f), c);
    SameNumber(parts.negative, parts.whole, f, c, rest);
  }

  /** The specification of the reader is the number the text writes. */
  lemma ClockOfExact(p: Data, c: Clock)
    ensures ClockOf(p) == Some(c) <==> Denotes(p, c)
  {
    hide Split, Written, Equals, Reading;
    if Split(p).Some? {
      var parts := Split(p).value;
      SplitWritten(p);
      ReadingExact(parts, c);
    }
    forall n, w, f | Written(p, n, w, f)
      ensures Split(p) == Some(Parts(n, w, f))
    {
      WrittenSplit(p, n, w, f);
    }
  }

  // ----- The reader -----

  /** Integer division that truncates toward zero, as C's. */
  function Truncated(n: int, d: nat): int
    requires d > 0
  {
    if n >= 0 then n / d else -(-n / d)
  }

  lemma SliceGrows(p: Data, i: nat, j: nat)
    requires i <= j < |p|
    ensures Value(p[i..j + 1], 10) == Value(p[i..j], 10) * 10 + p[j] - 48
    ensures p[i..j + 1] == p[i..j] + [p[j]]
  {
    assert p[i..j + 1][..j - i] == p[i..j];
  }

  /** The test before a digit is appended is exact: it fails just when the digit would not fit. */
  lemma OneDigitMore(s: int, digit: int)
    requires 0 <= digit <= 9
    ensures s < Truncated(INT64_MIN + digit, 10) <==> s * 10 - digit < INT64_MIN
  {
  }

  /** Seconds are kept negative, where one more value fits. */
  method WholeSeconds(p: Data, start: nat) returns (end: nat, seconds: Option<int>)
    requires start <= |p|
    ensures start <= end <= |p| && forall k :: start <= k < end ==> 48 <= p[k] < 58
    ensures seconds.Some? ==> end == DigitEnd(p, start) && INT64_MIN <= seconds.value == -Value(p[start..end], 10)
    ensures seconds.None? ==> -Value(p[start..end], 10) < INT64_MIN
  {
    hide Truncated, Value;
    NoDigits(p, start);
    end := start;
    var s := 0;
    while end < |p| && 48 <= p[end] < 58
      invariant start <= end <= |p| && forall k :: start <= k < end ==> 48 <= p[k] < 58
      invariant INT64_MIN <= s <= 0 && s == -Value(p[start..end], 10)
    {
      var digit := p[end] - 48;
      SliceGrows(p, start, end);
      end := end + 1;
      OneDigitMore(s, digit);
      if s < Truncated(INT64_MIN + digit, 10) {
        return end, None;
      }
      s := s * 10 - digit;
    }
    DigitEndUnique(p, start, end);
    return end, Some(s);
  }

  lemma NoDigits(p: Data, start: nat)
    requires start <= |p|
    ensures Value(p[start..start], 10) == 0
  {
  }

  lemma ReadingRange(parts: Parts)
    requires Digits(parts.whole, 10) && Digits(parts.fraction, 10)
    requires -Value(parts.whole, 10) < INT64_MIN || (!parts.negative && -Value(parts.whole, 10) == INT64_MIN)
    ensures Reading(parts) == None
  {
  }

  /** Digits that already leave the range are part of every reading. */
  lemma TooManySeconds(p: Data, j: nat)
    requires Start(p) <= j <= |p| && forall k :: Start(p) <= k < j ==> 48 <= p[k] < 58
    requires -Value(p[Start(p)..j], 10) < INT64_MIN
    ensures ClockOf(p) == None
  {
    hide Value, Digits, Reading, Split, DigitEnd, Start;
    var start, end := Start(p), DigitEnd(p, Start(p));
    DigitEndUnique(p, start, j);
    DigitsOfRun(p, start, end);
    RunPrefix(p, start, j, end);
    ValueGrows(p[start..end], 10, j - start);
    if Split(p).Some? {
      SplitWritten(p);
      WholeOf(p);
      ReadingRange(Split(p).value);
    }
  }

  lemma RunPrefix(p: Data, start: nat, j: nat, end: nat)
    requires start <= j <= end <= |p|
    ensures p[start..end][..j - start] == p[start..j]
  {
  }

  lemma WholeOf(p: Data)
    requires Split(p).Some?
    ensures Split(p).value.whole == p[Start(p)..DigitEnd(p, Start(p))]
  {
  }

  lemma FractionFails(p: Data, k: nat)
    requires var end := DigitEnd(p, Start(p));
             end < k < |p| && (!(48 <= p[k] < 58) || (k - end - 1 >= 9 && p[k] != 48))
    ensures ClockOf(p) == None
  {
    var end := DigitEnd(p, Start(p));
    assert p[end + 1..][k - end - 1] == p[k];
  }

  lemma First9Grows(f: Data, i: nat)
    requires i < |f|
    ensures First9(f[..i + 1]) == if i < 9 then First9(f[..i]) + [f[i]] else First9(f[..i])
    ensures Value(First9(f[..i + 1]), 10)
         == if i < 9 then Value(First9(f[..i]), 10) * 10 + f[i] - 48 else Value(First9(f[..i]), 10)
  {
    if i < 9 {
      assert f[..i + 1][..i] == f[..i];
    } else {
      assert f[..i + 1][..9] == f[..9];
      assert First9(f[..i]) == f[..9];
    }
  }

  predicate ReadSoFar(f: Data, i: nat, n: int)
    requires i <= |f|
  {
    Digits(f[..i], 10) && ExactNanos(f[..i]) && n == Value(First9(f[..i]), 10)
  }

  lemma ReadOneMore(f: Data, i: nat, n: int)
    requires i < |f| && ReadSoFar(f, i, n) && 48 <= f[i] < 58 && (i < 9 || f[i] == 48)
    ensures ReadSoFar(f, i + 1, if i < 9 then n * 10 + f[i] - 48 else n)
  {
    hide Value, First9;
    First9Grows(f, i);
    TakeOneMore(f, i);
  }

  /** The fraction after the point at `end`: its nanoseconds, unless it is refused. */
  method FractionNanos(p: Data, end: nat) returns (nanos: Option<int>)
    requires end == DigitEnd(p, Start(p)) && end + 1 < |p|
    ensures nanos.None? ==> ClockOf(p) == None
    ensures nanos.Some? ==> var f := p[end + 1..]; Digits(f, 10) && ExactNanos(f) && nanos.value == Nanos(f)
  {
    hide ReadSoFar, Value, ClockOf, Nanos, ExactNanos, Digits;
    ghost var f := p[end + 1..];
    var at: nat, digits: nat, n: int := end + 1, 0, 0;
    NothingRead(f);
    while at < |p|
      invariant end + 1 <= at <= |p| && digits == at - end - 1 && ReadSoFar(f, digits, n)
    {
      var c := p[at];
      if c < 48 || c > 57 || (digits >= 9 && c != 48) {
        FractionFails(p, at);
        return None;
      }
      ReadOneMore(f, digits, n);
      if digits < 9 {
        n := n * 10 + c - 48;
      }
      at, digits := at + 1, digits + 1;
    }
    AllRead(f, n);
    n := Pad(n, digits);
    return Some(n);
  }

  lemma NothingRead(f: Data)
    ensures ReadSoFar(f, 0, 0)
  {
  }

  lemma AllRead(f: Data, n: int)
    requires ReadSoFar(f, |f|, n)
    ensures Digits(f, 10) && ExactNanos(f) && Nanos(f) == n * Power10(if |f| < 9 then 9 - |f| else 0)
  {
    hide Value, Power10, Digits, ExactNanos;
    assert f[..|f|] == f;
  }

  method Pad(value: int, count: nat) returns (n: int)
    ensures n == value * Power10(if count < 9 then 9 - count else 0)
  {
    var digits := count;
    n := value;
    while digits < 9
      invariant count <= digits
                && n == value * Power10((if digits < 9 then digits else if count < 9 then 9 else count) - count)
      decreases 9 - digits
    {
      PadOnce(value, digits - count);
      n, digits := n * 10, digits + 1;
    }
  }

  lemma PadOnce(v: int, k: nat)
    ensures v * Power10(k) * 10 == v * Power10(k + 1)
  {
  }

  /** Accepts exactly the texts that write a representable clock, and returns that clock. */
  method ClockText(p: Data) returns (result: Option<Clock>)
    ensures result == ClockOf(p)
    ensures forall c :: result == Some(c) <==> Denotes(p, c)
  {
    forall c ensures ClockOf(p) == Some(c) <==> Denotes(p, c) {
      ClockOfExact(p, c);
    }
    result := ReadClock(p);
  }

  method ReadClock(p: Data) returns (result: Option<Clock>)
    ensures result == ClockOf(p)
  {
    hide Value, Nanos, ExactNanos, Power10;
    var negative := |p| > 0 && p[0] == 45;
    var start := if negative then 1 else 0;
    var end, whole := WholeSeconds(p, start);
    if whole.None? {
      TooManySeconds(p, end);
      return None;
    }
    var seconds, nanos := whole.value, 0;
    if end == start || (!negative && seconds == INT64_MIN) {
      UnreadableWhole(p);
      return None;
    }
    if end < |p| {
      if p[end] != 46 || end + 1 == |p| {
        return None;
      }
      var fraction := FractionNanos(p, end);
      if fraction.None? {
        return None;
      }
      nanos := fraction.value;
    }
    ReadingOf(p, nanos);
    if negative {
      if nanos != 0 {
        if seconds == INT64_MIN {
          return None;
        }
        seconds, nanos := seconds - 1, BILLION - nanos;
      }
    } else {
      seconds := -seconds;
    }
    return Some(Clock(seconds, nanos));
  }

  lemma UnreadableWhole(p: Data)
    requires var end := DigitEnd(p, Start(p));
             end == Start(p) || (Start(p) == 0 && -Value(p[..end], 10) == INT64_MIN)
    ensures ClockOf(p) == None
  {
    if Split(p).Some? {
      SplitWritten(p);
      assert p[0..DigitEnd(p, 0)] == p[..DigitEnd(p, 0)];
      ReadingRange(Split(p).value);
    }
  }

  /** Once both parts are read, only the range of the floor second is left to decide. */
  lemma ReadingOf(p: Data, nanos: int)
    requires var start, end := Start(p), DigitEnd(p, Start(p));
             && start < end
             && (end < |p| ==> p[end] == 46 && end + 1 < |p| && Digits(p[end + 1..], 10)
                               && ExactNanos(p[end + 1..]) && nanos == Nanos(p[end + 1..]))
             && (end == |p| ==> nanos == 0)
    ensures var c := Floor(Start(p) == 1, Value(p[Start(p)..DigitEnd(p, Start(p))], 10), nanos);
            ClockOf(p) == (if INT64_MIN <= c.seconds <= INT64_MAX then Some(c) else None)
    ensures 0 <= nanos < BILLION
  {
    hide Value, Nanos, ExactNanos, Floor, Digits, DigitEnd, Start;
    var start, end := Start(p), DigitEnd(p, Start(p));
    if end < |p| {
      NanosRange(p[end + 1..]);
    } else {
      NoFraction();
    }
  }

  lemma NoFraction()
    ensures Nanos([]) == 0 && ExactNanos([])
  {
  }
}
