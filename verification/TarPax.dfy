/**
 The pax extension reader of native/worker/tar_clocks.c and the record printer of
 native/worker/check_tar_clocks.py. A record is `length key=value` and a newline,
 where the decimal length counts the whole record, its own digits included.
 */
module TarPax {

  import opened NiaCommon
  import opened Bytes
  import opened TarNumbers
  import opened TarTimes

  const MAX_EXTENSION: nat := 1024 * 1024

  datatype Attribute = Attribute(key: Data, value: Data)

  /** What an extension has set so far: four clocks and the size override. */
  datatype Settings = Settings(clocks: seq<Option<Clock>>, size: Option<int>)

  const NOTHING := Settings([None, None, None, None], None)

  const SIZE_KEY: Data := [115, 105, 122, 101]
  const MTIME: Data := [109, 116, 105, 109, 101]
  const ATIME: Data := [97, 116, 105, 109, 101]
  const CTIME: Data := [99, 116, 105, 109, 101]
  const CREATION: Data :=
    [76, 73, 66, 65, 82, 67, 72, 73, 86, 69, 46, 99, 114, 101, 97, 116, 105, 111, 110, 116, 105, 109, 101]
  const KEYS: seq<Data> := [MTIME, ATIME, CTIME, CREATION]

  // ----- What a record is -----

  predicate KeyByte(c: Byte) {
    33 <= c <= 126 && c != 61
  }

  predicate KeyText(key: Data) {
    key != [] && forall i :: 0 <= i < |key| ==> KeyByte(key[i])
  }

  function Block(count: Data, a: Attribute): Data {
    count + [32] + a.key + [61] + a.value + [10]
  }

  /** `a` is the record from `start` to `next`, whatever zeros its length begins with. */
  ghost predicate RecordAt(p: Data, start: nat, a: Attribute, next: nat) {
    start < next <= |p| && KeyText(a.key) && next - start <= MAX_EXTENSION
    && exists count :: count != [] && Digits(count, 10)
                       && p[start..next] == Block(count, a) && Value(count, 10) == next - start
  }

  ghost predicate Records(p: Data, start: nat, attributes: seq<Attribute>)
    decreases |attributes|
  {
    if attributes == [] then start == |p|
    else exists next :: RecordAt(p, start, attributes[0], next) && Records(p, next, attributes[1..])
  }

  // ----- How the reader finds it -----

  /** The first byte from `i` that cannot belong to a key, or the limit. */
  function KeyEnd(p: Data, i: nat, limit: nat): (k: nat)
    requires i <= limit <= |p|
    ensures i <= k <= limit && (k == limit || !KeyByte(p[k]))
    ensures forall j :: i <= j < k ==> KeyByte(p[j])
    decreases limit - i
  {
    if i < limit && KeyByte(p[i]) then KeyEnd(p, i + 1, limit) else i
  }

  lemma KeyEndUnique(p: Data, i: nat, limit: nat, k: nat)
    requires i <= k < limit <= |p| && !KeyByte(p[k]) && forall j :: i <= j < k ==> KeyByte(p[j])
    ensures KeyEnd(p, i, limit) == k
    decreases k - i
  {
    if i < k {
      KeyEndUnique(p, i + 1, limit, k);
    }
  }

  function SplitRecord(p: Data, start: nat): Option<(Attribute, nat)>
    requires start <= |p|
  {
    var digits := DigitEnd(p, start);
    var length := Value(p[start..digits], 10);
    if digits == start || digits == |p| || p[digits] != 32
       || !(digits - start + 4 <= length <= |p| - start) || length > MAX_EXTENSION then None
    else
      var end := start + length - 1;
      var equal := KeyEnd(p, digits + 1, end);
      if p[end] != 10 || equal == digits + 1 || equal == end || p[equal] != 61 then None
      else Some((Attribute(p[digits + 1..equal], p[equal + 1..end]), end + 1))
  }

  lemma Positions(p: Data, start: nat, next: nat, count: Data, a: Attribute)
    requires start <= next <= |p| && p[start..next] == Block(count, a)
    ensures var d := start + |count|; var e := d + 1 + |a.key|;
            && e < next && next == e + |a.value| + 2
            && p[start..d] == count && p[d] == 32 && p[d + 1..e] == a.key && p[e] == 61
            && p[e + 1..next - 1] == a.value && p[next - 1] == 10
  {
    hide Block;
    BlockParts(count, a);
    var n := |count| + |a.key| + 1;
    SubSlice(p, start, next, 0, |count|);
    SubSlice(p, start, next, |count| + 1, n);
    SubSlice(p, start, next, n + 1, next - start - 1);
    At(p, start, next, |count|);
    At(p, start, next, n);
    At(p, start, next, next - start - 1);
  }

  lemma At(p: Data, start: nat, next: nat, k: nat)
    requires start + k < next <= |p|
    ensures p[start..next][k] == p[start + k]
  {
  }

  lemma BlockParts(count: Data, a: Attribute)
    ensures var b, n := Block(count, a), |count| + |a.key| + 1;
            && |b| == n + |a.value| + 2
            && b[..|count|] == count && b[|count|] == 32 && b[|count| + 1..n] == a.key && b[n] == 61
            && b[n + 1..|b| - 1] == a.value && b[|b| - 1] == 10
  {
    var b, n := Block(count, a), |count| + |a.key| + 1;
    assert b == count + ([32] + a.key + [61] + a.value + [10]);
    assert b == (count + [32]) + a.key + ([61] + a.value + [10]);
    assert b == (count + [32] + a.key + [61]) + a.value + [10];
    Sliced(count, [], [32] + a.key + [61] + a.value + [10]);
    Sliced(count + [32], a.key, [61] + a.value + [10]);
    Sliced(count + [32] + a.key + [61], a.value, [10]);
  }

  lemma SubSlice(p: Data, start: nat, next: nat, i: nat, j: nat)
    requires start <= next <= |p| && i <= j <= next - start
    ensures p[start..next][i..j] == p[start + i..start + j]
  {
    var q := p[start..next];
    assert forall k :: 0 <= k < |q| ==> q[k] == p[start + k];
    assert forall k :: 0 <= k < j - i ==> q[i..j][k] == q[i + k];
  }

  lemma DigitsBetween(p: Data, i: nat, j: nat)
    requires i <= j <= |p| && Digits(p[i..j], 10)
    ensures forall k :: i <= k < j ==> 48 <= p[k] < 58
  {
    assert forall k :: i <= k < j ==> p[k] == p[i..j][k - i];
  }

  lemma KeysBetween(p: Data, i: nat, j: nat)
    requires i <= j <= |p| && KeyText(p[i..j])
    ensures forall k :: i <= k < j ==> KeyByte(p[k])
  {
    assert forall k :: i <= k < j ==> p[k] == p[i..j][k - i];
  }

  /** The record at a position is found by the reader: it has no second reading. */
  lemma RecordSplits(p: Data, start: nat, a: Attribute, next: nat)
    requires RecordAt(p, start, a, next)
    ensures SplitRecord(p, start) == Some((a, next))
  {
    hide Value, KeyText, Digits, Block, DigitEnd, KeyEnd;
    var count :| count != [] && Digits(count, 10) && p[start..next] == Block(count, a)
      && Value(count, 10) == next - start;
    Positions(p, start, next, count, a);
    var d := start + |count|;
    var e := d + 1 + |a.key|;
    DigitsBetween(p, start, d);
    DigitEndUnique(p, start, d);
    KeysBetween(p, d + 1, e);
    KeyEndUnique(p, d + 1, next - 1, e);
    NonEmptyKey(a.key);
  }

  lemma NonEmptyKey(key: Data)
    requires KeyText(key)
    ensures |key| > 0
  {
  }

  lemma SplitIsRecord(p: Data, start: nat)
    requires start <= |p| && SplitRecord(p, start).Some?
    ensures var (a, next) := SplitRecord(p, start).value; RecordAt(p, start, a, next) && start < next <= |p|
  {
    hide Value, Block, Digits, DigitEnd, KeyEnd;
    var (a, next) := SplitRecord(p, start).value;
    var d := DigitEnd(p, start);
    var e := KeyEnd(p, d + 1, next - 1);
    DigitsOfRun(p, start, d);
    Rejoin(p, start, d, e, next);
    assert Digits(p[start..d], 10) && p[start..next] == Block(p[start..d], a);
  }

  lemma Rejoin(p: Data, start: nat, d: nat, e: nat, next: nat)
    requires start <= d < e < next - 1 < |p| && p[d] == 32 && p[e] == 61 && p[next - 1] == 10
    ensures p[start..next] == Block(p[start..d], Attribute(p[d + 1..e], p[e + 1..next - 1]))
  {
    var key, value := p[d + 1..e], p[e + 1..next - 1];
    ValueJoins(p, e, next);
    KeyJoins(p, start, d, e, next);
    Regroup(p[start..d], key, value);
  }

  lemma ValueJoins(p: Data, e: nat, next: nat)
    requires e < next - 1 < |p| && p[e] == 61 && p[next - 1] == 10
    ensures p[e..next] == [61] + (p[e + 1..next - 1] + ([10] + []))
  {
    OneByte(p, e, next);
    Adjoin(p, e + 1, next - 1, next);
    OneByte(p, next - 1, next);
    assert p[next..next] == [];
  }

  lemma KeyJoins(p: Data, start: nat, d: nat, e: nat, next: nat)
    requires start <= d < e < next <= |p| && p[d] == 32
    ensures p[start..next] == p[start..d] + ([32] + (p[d + 1..e] + p[e..next]))
  {
    Adjoin(p, start, d, next);
    OneByte(p, d, next);
    Adjoin(p, d + 1, e, next);
  }

  lemma Regroup(count: Data, key: Data, value: Data)
    ensures count + ([32] + (key + ([61] + (value + ([10] + []))))) == Block(count, Attribute(key, value))
  {
    var tail := [61] + (value + ([10] + []));
    assert tail == [61] + value + [10];
    assert count + ([32] + (key + tail)) == count + [32] + key + tail;
    assert count + [32] + key + ([61] + value + [10]) == count + [32] + key + [61] + value + [10];
  }

  lemma OneByte(p: Data, i: nat, next: nat)
    requires i < next <= |p|
    ensures p[i..next] == [p[i]] + p[i + 1..next]
  {
  }

  lemma Adjoin(p: Data, i: nat, j: nat, k: nat)
    requires i <= j <= k <= |p|
    ensures p[i..k] == p[i..j] + p[j..k]
  {
  }

  // ----- What the records mean -----

  function SizeOf(p: Data): Option<int> {
    if p != [] && Digits(p, 10) && Value(p, 10) <= INT64_MAX then Some(Value(p, 10)) else None
  }

  function Apply(s: Settings, a: Attribute): (r: Option<Settings>)
    requires |s.clocks| == 4
    ensures r.Some? ==> |r.value.clocks| == 4
  {
    if a.key == SIZE_KEY then
      if s.size.Some? || SizeOf(a.value).None? then None else Some(s.(size := SizeOf(a.value)))
    else if a.key in KEYS then
      var i := if a.key == MTIME then 0 else if a.key == ATIME then 1 else if a.key == CTIME then 2 else 3;
      if s.clocks[i].Some? || ClockOf(a.value).None? then None
      else Some(s.(clocks := s.clocks[i := ClockOf(a.value)]))
    else Some(s)
  }

  function Gather(s: Settings, attributes: seq<Attribute>): (r: Option<Settings>)
    requires |s.clocks| == 4
    ensures r.Some? ==> |r.value.clocks| == 4
    decreases |attributes|
  {
    if attributes == [] then Some(s)
    else match Apply(s, attributes[0])
      case None => None
      case Some(t) => Gather(t, attributes[1..])
  }

  /** One key's setting: unset when no record has the key, else the value of its only record. */
  ghost predicate SetBy<T(!new)>(attributes: seq<Attribute>, key: Data, read: Data -> Option<T>, setting: Option<T>) {
    (setting.None? && forall j :: 0 <= j < |attributes| ==> attributes[j].key != key)
    || (setting.Some? && exists i :: SetAt(attributes, key, read, setting, i))
  }

  ghost predicate SetAt<T(!new)>(attributes: seq<Attribute>, key: Data, read: Data -> Option<T>,
                                 setting: Option<T>, i: int) {
    0 <= i < |attributes| && attributes[i].key == key && read(attributes[i].value) == setting
    && forall j :: 0 <= j < |attributes| && attributes[j].key == key ==> j == i
  }

  /** Unset, readable once: the outcome of one key over a list of records. */
  function Setting<T>(attributes: seq<Attribute>, key: Data, read: Data -> Option<T>,
                      before: Option<T>): Option<Option<T>> {
    if attributes == [] then Some(before)
    else if attributes[0].key != key then Setting(attributes[1..], key, read, before)
    else if before.Some? || read(attributes[0].value).None? then None
    else Setting(attributes[1..], key, read, read(attributes[0].value))
  }

  lemma {:induction false} SettingAfter<T(!new)>(attributes: seq<Attribute>, key: Data, read: Data -> Option<T>,
                                          before: Option<T>)
    requires before.Some?
    ensures Setting(attributes, key, read, before)
         == if forall j :: 0 <= j < |attributes| ==> attributes[j].key != key then Some(before) else None
  {
    if attributes != [] && attributes[0].key != key {
      var rest := attributes[1..];
      SettingAfter(rest, key, read, before);
      assert forall j :: 0 < j < |attributes| ==> attributes[j] == rest[j - 1];
      assert forall j :: 0 <= j < |rest| ==> rest[j] == attributes[j + 1];
    }
  }

  lemma {:induction false} SettingMeaning<T(!new)>(attributes: seq<Attribute>, key: Data, read: Data -> Option<T>,
                                            setting: Option<T>)
    ensures Setting(attributes, key, read, None) == Some(setting) <==> SetBy(attributes, key, read, setting)
  {
    if attributes != [] {
      var rest := attributes[1..];
      assert forall j :: 0 < j < |attributes| ==> attributes[j] == rest[j - 1];
      assert forall j :: 0 <= j < |rest| ==> rest[j] == attributes[j + 1];
      if attributes[0].key != key {
        SettingMeaning(rest, key, read, setting);
        if i :| SetAt(rest, key, read, setting, i) {
          assert SetAt(attributes, key, read, setting, i + 1);
        }
        if i :| SetAt(attributes, key, read, setting, i) {
          assert SetAt(rest, key, read, setting, i - 1);
        }
      } else {
        var first := read(attributes[0].value);
        if first.Some? {
          SettingAfter(rest, key, read, first);
        }
        if i :| SetAt(attributes, key, read, setting, i) {
          assert i == 0;
        }
        if setting.Some? && first == setting && forall j :: 0 <= j < |rest| ==> rest[j].key != key {
          assert SetAt(attributes, key, read, setting, 0);
        }
      }
    }
  }

  lemma {:induction false} GatherSettings(s: Settings, attributes: seq<Attribute>, r: Settings)
    requires |s.clocks| == 4 && |r.clocks| == 4
    ensures Gather(s, attributes) == Some(r)
       <==> Setting(attributes, SIZE_KEY, SizeOf, s.size) == Some(r.size)
            && forall i :: 0 <= i < 4 ==> Setting(attributes, KEYS[i], ClockOf, s.clocks[i]) == Some(r.clocks[i])
    decreases |attributes|
  {
    hide SizeOf, ClockOf;
    if attributes != [] {
      match Apply(s, attributes[0])
      case None =>
      case Some(t) => GatherSettings(t, attributes[1..], r);
    } else if forall i :: 0 <= i < 4 ==> s.clocks[i] == r.clocks[i] {
      assert s.clocks == r.clocks;
    }
  }

  /** The bytes of a key that is written in ASCII. */
  function KeyOf(s: string): Data {
    seq(|s|, i requires 0 <= i < |s| => if s[i] as int < 128 then s[i] as int else 0)
  }

  lemma KnownKeys()
    ensures SIZE_KEY == KeyOf("size") && MTIME == KeyOf("mtime") && ATIME == KeyOf("atime") && CTIME == KeyOf("ctime")
    ensures CREATION == KeyOf("LIBARCHIVE.creationtime")
  {
  }

  /**
   An extension is accepted exactly when each known key is absent, or occurs once with a readable
   value: the size, and the clocks of modification, access, change and creation in that order.
   */
  lemma GatherMeaning(attributes: seq<Attribute>, r: Settings)
    requires |r.clocks| == 4
    ensures Gather(NOTHING, attributes) == Some(r)
       <==> SetBy(attributes, KeyOf("size"), SizeOf, r.size)
            && SetBy(attributes, KeyOf("mtime"), ClockOf, r.clocks[0])
            && SetBy(attributes, KeyOf("atime"), ClockOf, r.clocks[1])
            && SetBy(attributes, KeyOf("ctime"), ClockOf, r.clocks[2])
            && SetBy(attributes, KeyOf("LIBARCHIVE.creationtime"), ClockOf, r.clocks[3])
  {
    hide Gather, SetBy, Setting, KeyOf;
    KnownKeys();
    GatherByKey(attributes, r);
    assert KEYS[0] == MTIME && KEYS[1] == ATIME && KEYS[2] == CTIME && KEYS[3] == CREATION;
  }

  lemma GatherByKey(attributes: seq<Attribute>, r: Settings)
    requires |r.clocks| == 4
    ensures Gather(NOTHING, attributes) == Some(r)
       <==> SetBy(attributes, SIZE_KEY, SizeOf, r.size)
            && forall i :: 0 <= i < 4 ==> SetBy(attributes, KEYS[i], ClockOf, r.clocks[i])
  {
    GatherSettings(NOTHING, attributes, r);
    SettingMeaning(attributes, SIZE_KEY, SizeOf, r.size);
    forall i | 0 <= i < 4
      ensures Setting(attributes, KEYS[i], ClockOf, NOTHING.clocks[i]) == Some(r.clocks[i])
         <==> SetBy(attributes, KEYS[i], ClockOf, r.clocks[i])
    {
      SettingMeaning(attributes, KEYS[i], ClockOf, r.clocks[i]);
    }
  }

  // ----- The whole extension -----

  function Scan(p: Data, start: nat, s: Settings): (r: Option<Settings>)
    requires start <= |p| && |s.clocks| == 4
    ensures r.Some? ==> |r.value.clocks| == 4
    decreases |p| - start
  {
    if start == |p| then Some(s)
    else match SplitRecord(p, start)
      case None => None
      case Some(pair) => match Apply(s, pair.0)
        case None => None
        case Some(t) => Scan(p, pair.1, t)
  }

  lemma {:induction false} ScanOfRecords(p: Data, start: nat, s: Settings, attributes: seq<Attribute>)
    requires start <= |p| && |s.clocks| == 4 && Records(p, start, attributes)
    ensures Scan(p, start, s) == Gather(s, attributes)
    decreases |attributes|
  {
    if attributes != [] {
      var next :| RecordAt(p, start, attributes[0], next) && Records(p, next, attributes[1..]);
      RecordSplits(p, start, attributes[0], next);
      match Apply(s, attributes[0])
      case None =>
      case Some(t) => ScanOfRecords(p, next, t, attributes[1..]);
    }
  }

  lemma {:induction false} RecordsOfScan(p: Data, start: nat, s: Settings) returns (attributes: seq<Attribute>)
    requires start <= |p| && |s.clocks| == 4 && Scan(p, start, s).Some?
    ensures Records(p, start, attributes)
    decreases |p| - start
  {
    hide SplitRecord, RecordAt, Apply;
    if start == |p| {
      attributes := [];
    } else {
      var (a, next) := SplitRecord(p, start).value;
      SplitIsRecord(p, start);
      var rest := RecordsOfScan(p, next, Apply(s, a).value);
      attributes := [a] + rest;
      assert attributes[1..] == rest && attributes[0] == a;
    }
  }

  /** The reader accepts exactly the texts that are records, with the meaning of those records. */
  lemma ScanExact(p: Data, r: Settings)
    ensures Scan(p, 0, NOTHING) == Some(r)
       <==> exists attributes :: Records(p, 0, attributes) && Gather(NOTHING, attributes) == Some(r)
  {
    if Scan(p, 0, NOTHING) == Some(r) {
      var attributes := RecordsOfScan(p, 0, NOTHING);
      ScanOfRecords(p, 0, NOTHING, attributes);
    }
    forall attributes | Records(p, 0, attributes)
      ensures Scan(p, 0, NOTHING) == Gather(NOTHING, attributes)
    {
      ScanOfRecords(p, 0, NOTHING, attributes);
    }
  }

  // ----- The reader -----

  method SizeText(p: Data) returns (result: Option<int>)
    ensures result == SizeOf(p)
  {
    if |p| == 0 {
      return None;
    }
    var number, i := 0, 0;
    while i < |p|
      invariant i <= |p| && Digits(p[..i], 10) && 0 <= number <= INT64_MAX && number == Value(p[..i], 10)
    {
      if p[i] < 48 || p[i] > 57 {
        return None;
      }
      ValueOneMore(p, 10, i);
      TakeOneMore(p, i);
      if number > (INT64_MAX - (p[i] - 48)) / 10 {
        SizeTooLarge(p, i + 1);
        return None;
      }
      number := number * 10 + (p[i] - 48);
      i := i + 1;
    }
    assert p[..i] == p;
    return Some(number);
  }

  lemma SizeTooLarge(p: Data, i: nat)
    requires i <= |p| && Value(p[..i], 10) > INT64_MAX
    ensures SizeOf(p) == None
  {
    if Digits(p, 10) {
      ValueGrows(p, 10, i);
    }
  }

  lemma LengthTooLarge(p: Data, start: nat, at: nat)
    requires start <= at <= |p| && (forall k :: start <= k < at ==> 48 <= p[k] < 58)
    requires Value(p[start..at], 10) > MAX_EXTENSION
    ensures SplitRecord(p, start) == None
  {
    hide Value, KeyEnd;
    var end := DigitEnd(p, start);
    DigitEndUnique(p, start, at);
    DigitsOfRun(p, start, end);
    assert p[start..end][..at - start] == p[start..at];
    ValueGrows(p[start..end], 10, at - start);
  }

  /** The length that starts a record, unless it is longer than any extension. */
  method RecordLength(p: Data, start: nat) returns (at: nat, length: Option<nat>)
    requires start <= |p|
    ensures length.None? ==> SplitRecord(p, start) == None
    ensures length.Some? ==> start <= at <= |p| && at == DigitEnd(p, start)
    ensures length.Some? ==> length.value == Value(p[start..at], 10) <= MAX_EXTENSION
  {
    hide SplitRecord, DigitEnd, Value;
    NoDigits(p, start);
    at := start;
    var n := 0;
    while at < |p| && 48 <= p[at] < 58
      invariant start <= at <= |p| && forall k :: start <= k < at ==> 48 <= p[k] < 58
      invariant 0 <= n <= MAX_EXTENSION && n == Value(p[start..at], 10)
    {
      var digit := p[at] - 48;
      SliceGrows(p, start, at);
      at := at + 1;
      if n > (MAX_EXTENSION - digit) / 10 {
        LengthTooLarge(p, start, at);
        return at, None;
      }
      n := n * 10 + digit;
    }
    DigitEndUnique(p, start, at);
    return at, Some(n);
  }

  /** One record: its key, its value and where the next one starts. */
  method ReadRecord(p: Data, start: nat) returns (result: Option<(Attribute, nat)>)
    requires start < |p|
    ensures result == SplitRecord(p, start)
  {
    hide Value, DigitEnd, KeyEnd;
    var at, length := RecordLength(p, start);
    if length.None? {
      return None;
    }
    if at == start || at == |p| || p[at] != 32 || length.value > |p| - start || length.value < at + 1 - start + 3 {
      return None;
    }
    at := at + 1;
    var end, key := start + length.value - 1, at;
    if p[end] != 10 {
      return None;
    }
    while at < end && p[at] != 61
      invariant key <= at <= end && forall j :: key <= j < at ==> KeyByte(p[j])
    {
      if p[at] < 33 || p[at] > 126 {
        KeyEndUnique(p, key, end, at);
        return None;
      }
      at := at + 1;
    }
    if at == end {
      KeyEndReaches(p, key, end);
      return None;
    }
    KeyEndUnique(p, key, end, at);
    if at == key {
      return None;
    }
    return Some((Attribute(p[key..at], p[at + 1..end]), start + length.value));
  }

  lemma KeyEndReaches(p: Data, i: nat, limit: nat)
    requires i <= limit <= |p| && forall j :: i <= j < limit ==> KeyByte(p[j])
    ensures KeyEnd(p, i, limit) == limit
  {
  }

  /** Reads a whole extension into clocks and a size override. */
  method Pax(p: Data) returns (result: Option<Settings>)
    ensures result == Scan(p, 0, NOTHING)
  {
    hide SplitRecord, SizeOf, ClockOf;
    var at, settings := 0, NOTHING;
    while at < |p|
      invariant at <= |p| && |settings.clocks| == 4
      invariant Scan(p, at, settings) == Scan(p, 0, NOTHING)
      decreases |p| - at
    {
      var record := ReadRecord(p, at);
      if record.None? {
        return None;
      }
      var (a, next) := record.value;
      SplitIsRecord(p, at);
      var updated := Update(settings, a);
      if updated.None? {
        return None;
      }
      at, settings := next, updated.value;
    }
    return Some(settings);
  }

  method Update(settings: Settings, a: Attribute) returns (result: Option<Settings>)
    requires |settings.clocks| == 4
    ensures result == Apply(settings, a)
  {
    hide SizeOf, ClockOf;
    var updated := settings;
    if a.key == SIZE_KEY {
      if settings.size.Some? {
        return None;
      }
      var size := SizeText(a.value);
      if size.None? {
        return None;
      }
      updated := updated.(size := size);
    }
    var i := 0;
    while i < 4
      invariant 0 <= i <= 4 && |updated.clocks| == 4
      invariant (forall j :: 0 <= j < i ==> KEYS[j] != a.key) ==>
                  updated == if a.key == SIZE_KEY then settings.(size := SizeOf(a.value)) else settings
      invariant forall j :: i <= j < 4 ==> updated.clocks[j] == settings.clocks[j]
      invariant forall j :: 0 <= j < i && KEYS[j] == a.key ==> Apply(settings, a) == Some(updated)
    {
      if KEYS[i] == a.key {
        if updated.clocks[i].Some? {
          return None;
        }
        var clock := ReadClock(a.value);
        if clock.None? {
          return None;
        }
        updated := updated.(clocks := updated.clocks[i := clock]);
      }
      i := i + 1;
    }
    return Some(updated);
  }

  // ----- The printer -----

  /** A number in decimal, without leading zeros. */
  function Decimal(n: nat): (s: Data)
    ensures s != [] && Digits(s, 10)
  {
    if n < 10 then [48 + n] else Decimal(n / 10) + [48 + n % 10]
  }

  lemma {:induction false} DecimalValue(n: nat)
    ensures Value(Decimal(n), 10) == n
  {
    if n >= 10 {
      DecimalValue(n / 10);
      assert Decimal(n)[..|Decimal(n)| - 1] == Decimal(n / 10);
    }
  }

  lemma {:induction false} DecimalGrows(m: nat, n: nat)
    requires m <= n
    ensures |Decimal(m)| <= |Decimal(n)|
  {
    if m >= 10 {
      DecimalGrows(m / 10, n / 10);
    }
  }

  lemma {:induction false} DecimalShort(n: nat)
    requires n >= 2
    ensures 2 * |Decimal(n)| <= n
  {
    if n >= 20 {
      DecimalShort(n / 10);
    }
  }

  /** Everything of a record after its length. */
  function Body(a: Attribute): (b: Data)
    ensures |b| >= 3
  {
    [32] + a.key + [61] + a.value + [10]
  }

  function Record(a: Attribute, size: nat): Data {
    Decimal(size) + Body(a)
  }

  /** The smallest length that counts itself: the loop settles, and every smaller number falls short. */
  method RecordText(a: Attribute) returns (text: Data)
    ensures text == Record(a, |text|)
    ensures forall n: nat :: n < |text| ==> |Decimal(n)| + |Body(a)| > n
  {
    var body := Body(a);
    var n: nat := |body| + 1;
    while |Decimal(n)| + |body| != n
      invariant n <= |Decimal(n)| + |body| && n <= 2 * |body|
      invariant forall m: nat :: m < n ==> |Decimal(m)| + |body| > m
      decreases 2 * |body| - n
    {
      var next := |Decimal(n)| + |body|;
      DecimalGrows(n, next);
      DecimalGrows(n, 2 * |body|);
      DecimalShort(2 * |body|);
      forall m: nat | n <= m < next ensures |Decimal(m)| + |body| > m {
        DecimalGrows(n, m);
      }
      n := next;
    }
    text := Decimal(n) + body;
  }

  /** Any list of attributes with self-counting lengths reads back as that list. */
  lemma {:induction false} RenderedRecords(p: Data, start: nat, attributes: seq<Attribute>, sizes: seq<nat>)
    requires |sizes| == |attributes| && start <= |p| && |p| - start <= MAX_EXTENSION
    requires p[start..] == Render(attributes, sizes)
    requires forall i :: 0 <= i < |sizes| ==>
               KeyText(attributes[i].key) && |Record(attributes[i], sizes[i])| == sizes[i]
    ensures Records(p, start, attributes)
    decreases |attributes|
  {
    if attributes != [] {
      var a, next := attributes[0], start + sizes[0];
      var rest := Render(attributes[1..], sizes[1..]);
      assert p[start..] == Record(a, sizes[0]) + rest;
      assert p[start..next] == p[start..][..sizes[0]] == Record(a, sizes[0]);
      assert p[next..] == p[start..][sizes[0]..] == rest;
      DecimalValue(sizes[0]);
      assert Record(a, sizes[0]) == Block(Decimal(sizes[0]), a);
      assert RecordAt(p, start, a, next);
      RenderedRecords(p, next, attributes[1..], sizes[1..]);
    }
  }

  function Render(attributes: seq<Attribute>, sizes: seq<nat>): Data
    requires |sizes| == |attributes|
  {
    if attributes == [] then [] else Record(attributes[0], sizes[0]) + Render(attributes[1..], sizes[1..])
  }
}
