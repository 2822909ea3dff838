/**
 The sequential clock cursor of native/worker/tar_clocks.c over one raw tar.
 Its reads are taken to succeed within the file: I/O faults, the deadline and
 memory exhaustion, which only turn an answer into a failure, are left out.
 */
module TarClocks {

  import opened NiaCommon
  import opened Bytes
  import opened TarNumbers
  import opened TarTimes
  import opened TarPax

  const MAX_EXTENSIONS: nat := 64 * 1024 * 1024

  datatype FileType = Regular | Symlink | Character | Block | Directory | Fifo | Other

  /** What the archive library decoded for the entry the cursor is to confirm. */
  datatype Entry = Entry(size: int, hardlink: bool, file: FileType)

  datatype Seen = Seen(pax: bool, name: bool, link: bool) {
    function Mark(kind: Byte): Seen {
      if kind == 120 then this.(pax := true) else if kind == 76 then this.(name := true) else this.(link := true)
    }
  }

  const FRESH := Seen(false, false, false)

  datatype Head = Head(size: nat, kind: Byte)

  datatype Outcome =
    | Failed
    | End
    | Clocks(clocks: seq<Option<Clock>>, next: nat, extensions: nat)

  // ----- Headers -----

  ghost function NumberIn(p: Data, signed: bool): (r: Option<int>)
    ensures forall v :: r == Some(v) <==> Field(p, signed, v)
  {
    if exists v :: Field(p, signed, v) then
      var v :| Field(p, signed, v);
      assert forall w :: Field(p, signed, w) ==> w == v by {
        forall w | Field(p, signed, w) ensures w == v {
          FieldUnique(p, signed, v, w);
        }
      }
      Some(v)
    else None
  }

  lemma UnsignedField(p: Data, v: int)
    requires Field(p, false, v)
    ensures v >= 0
  {
    if !Binary(p, false) {
      var i, j :| OctalAt(p, i, j, v);
      assert Digits(p[i..j], 8);
    }
  }

  function Sum(p: Data): nat {
    if p == [] then 0 else Sum(p[..|p| - 1]) + p[|p| - 1]
  }

  /** The header with its checksum field blank, as the checksum is computed. */
  function Blanked(h: Data): (b: Data)
    requires |h| == 512
    ensures |b| == 512
  {
    h[..148] + [32, 32, 32, 32, 32, 32, 32, 32] + h[156..]
  }

  ghost function HeadOf(h: Data): Option<Head>
    requires |h| == 512
  {
    var size := NumberIn(h[124..136], false);
    if NumberIn(h[148..156], false) != Some(Sum(Blanked(h)) as int) || size.None? then None
    else
      UnsignedField(h[124..136], size.value);
      Some(Head(size.value, h[156]))
  }

  method Zero(p: Data) returns (zero: bool)
    ensures zero == AllZero(p)
  {
    var i := 0;
    while i < |p|
      invariant i <= |p| && forall k :: 0 <= k < i ==> p[k] == 0
    {
      if p[i] != 0 {
        return false;
      }
      i := i + 1;
    }
    return true;
  }

  method HeaderSum(h: Data) returns (sum: nat)
    requires |h| == 512
    ensures sum == Sum(Blanked(h))
  {
    ghost var b := Blanked(h);
    sum := 0;
    var i := 0;
    while i < 512
      invariant i <= 512 && sum == Sum(b[..i])
    {
      var c: nat := if 148 <= i < 156 then 32 else h[i];
      assert c == b[i];
      assert b[..i + 1][..i] == b[..i];
      sum := sum + c;
      i := i + 1;
    }
    assert b[..512] == b;
  }

  method ReadHead(h: Data) returns (result: Option<Head>)
    requires |h| == 512
    ensures result == HeadOf(h)
  {
    hide Field, Sum, Blanked;
    var checksum := Integer(h[148..156], false);
    if checksum.None? {
      return None;
    }
    var sum := HeaderSum(h);
    if sum != checksum.value {
      return None;
    }
    var number := Integer(h[124..136], false);
    if number.None? {
      return None;
    }
    UnsignedField(h[124..136], number.value);
    return Some(Head(number.value, h[156]));
  }

  // ----- Frames -----

  function Padding(size: nat): nat {
    (512 - size % 512) % 512
  }

  /** Where the frame at `at` with a body of `size` bytes ends, when it fits and its padding is zero. */
  function FrameEnd(data: Data, at: nat, size: nat): Option<nat>
    requires at + 512 <= |data|
  {
    var body := at + 512;
    if size > |data| - body || Padding(size) > |data| - body - size
       || !AllZero(data[body + size..body + size + Padding(size)]) then None
    else Some(body + size + Padding(size))
  }

  predicate Extension(kind: Byte) {
    kind == 120 || kind == 76 || kind == 75
  }

  predicate InOrder(kind: Byte, seen: Seen) {
    if kind == 120 then seen == FRESH
    else if kind == 76 then !seen.pax && !seen.name
    else !seen.pax && !seen.link
  }

  /** A GNU long name: its last byte, and no earlier one, is NUL. */
  predicate NameText(d: Data) {
    d != [] && d[|d| - 1] == 0 && 0 !in d[..|d| - 1]
  }

  function Extend(d: Data, kind: Byte, settings: Settings): (r: Option<Settings>)
    requires |settings.clocks| == 4
    ensures r.Some? ==> |r.value.clocks| == 4
  {
    if kind == 120 then Scan(d, 0, settings) else if NameText(d) then Some(settings) else None
  }

  predicate KindMatches(kind: Byte, entry: Entry, size: nat) {
    entry.size == size
    && if kind == 49 then entry.hardlink
       else
         && !entry.hardlink
         && ((kind in {0, 48, 55} && entry.file == Regular)
             || (kind == 50 && entry.file == Symlink)
             || (kind == 51 && entry.file == Character)
             || (kind == 52 && entry.file == Block)
             || (kind == 53 && entry.file == Directory)
             || (kind == 54 && entry.file == Fifo))
  }

  predicate BaseFits(kind: Byte, entry: Entry, size: nat) {
    !Extension(kind) && KindMatches(kind, entry, size) && (49 <= kind <= 54 ==> size == 0)
  }

  /** The ustar typeflags that stand for an entry: `1` for a hard link, otherwise by its type of file. */
  function Typeflags(entry: Entry): set<int> {
    if entry.hardlink then {'1' as int}
    else match entry.file
      case Regular => {0, '0' as int, '7' as int}
      case Symlink => {'2' as int}
      case Character => {'3' as int}
      case Block => {'4' as int}
      case Directory => {'5' as int}
      case Fifo => {'6' as int}
      case Other => {}
  }

  /** Only a regular file has a body of its own. */
  predicate MayHaveBody(entry: Entry) {
    !entry.hardlink && entry.file == Regular
  }

  /** A header confirms an entry exactly when the format has that flag for it and the sizes agree. */
  lemma TypeflagDecides(kind: Byte, entry: Entry, size: nat)
    ensures BaseFits(kind, entry, size) <==>
            kind in Typeflags(entry) && entry.size == size && (size == 0 || MayHaveBody(entry))
  {
  }

  /** The clocks of an entry: its extension's, with the header's seconds when no mtime is there. */
  ghost function Finish(h: Data, settings: Settings): (r: Option<seq<Option<Clock>>>)
    requires |h| == 512 && |settings.clocks| == 4
    ensures r.Some? ==> |r.value| == 4 && r.value[0].Some?
  {
    if settings.clocks[0].Some? then Some(settings.clocks)
    else match NumberIn(h[136..148], true)
      case None => None
      case Some(n) => Some(settings.clocks[0 := Some(Clock(n, 0))])
  }

  predicate Terminator(data: Data, at: nat) {
    at <= |data| && |data| - at >= 1024 && AllZero(data[at..])
  }

  function StoredSize(head: Head, settings: Settings): nat {
    if !Extension(head.kind) && settings.size.Some? && settings.size.value >= 0 then settings.size.value else head.size
  }

  // ----- One call -----

  ghost function Advance(data: Data, at: nat, extensions: nat, seen: Seen, settings: Settings,
                         entry: Option<Entry>): Outcome
    requires at <= |data| && |settings.clocks| == 4
    decreases |data| - at
  {
    if |data| - at < 512 then Failed
    else
      var h := data[at..at + 512];
      if AllZero(h) then
        if entry.Some? || seen != FRESH || !Terminator(data, at) then Failed else End
      else if entry.None? || HeadOf(h).None? then Failed
      else
        var head := HeadOf(h).value;
        var size := StoredSize(head, settings);
        match FrameEnd(data, at, size)
        case None => Failed
        case Some(next) =>
          if Extension(head.kind) then
            if size == 0 || size > MAX_EXTENSION || extensions + size > MAX_EXTENSIONS
              || !InOrder(head.kind, seen) then Failed
            else
              match Extend(data[at + 512..at + 512 + size], head.kind, settings)
              case None => Failed
              case Some(s) => Advance(data, next, extensions + size, seen.Mark(head.kind), s, entry)
          else if !BaseFits(head.kind, entry.value, size) then Failed
          else
            match Finish(h, settings)
            case None => Failed
            case Some(clocks) => Clocks(clocks, next, extensions)
  }

  lemma AdvanceShort(data: Data, at: nat, extensions: nat, seen: Seen, settings: Settings, entry: Option<Entry>)
    requires at <= |data| && |settings.clocks| == 4
    ensures |data| - at < 512 ==> Advance(data, at, extensions, seen, settings, entry) == Failed
  {
  }

  /** What a header that ends the archive, or is none, makes of a call. */
  lemma AdvanceEnds(data: Data, at: nat, extensions: nat, seen: Seen, settings: Settings, entry: Option<Entry>)
    requires at + 512 <= |data| && |settings.clocks| == 4
    ensures var h, r := data[at..at + 512], Advance(data, at, extensions, seen, settings, entry);
            && (AllZero(h) ==> r == if entry.None? && seen == FRESH && Terminator(data, at) then End else Failed)
            && (!AllZero(h) && (entry.None? || HeadOf(h).None?) ==> r == Failed)
  {
    hide AllZero, HeadOf, Terminator, FrameEnd, Extend, Finish, BaseFits, InOrder;
  }

  /** What a good header makes of a call: the entry, or one more extension before it. */
  lemma AdvanceReads(data: Data, at: nat, extensions: nat, seen: Seen, settings: Settings, entry: Option<Entry>)
    requires at + 512 <= |data| && |settings.clocks| == 4 && entry.Some?
    requires !AllZero(data[at..at + 512]) && HeadOf(data[at..at + 512]).Some?
    ensures var h, r := data[at..at + 512], Advance(data, at, extensions, seen, settings, entry);
            var head := HeadOf(h).value;
            var size := StoredSize(head, settings);
            && (FrameEnd(data, at, size).None? ==> r == Failed)
            && (FrameEnd(data, at, size).Some? && !Extension(head.kind) ==>
                  r == if BaseFits(head.kind, entry.value, size) && Finish(h, settings).Some?
                       then Clocks(Finish(h, settings).value, FrameEnd(data, at, size).value, extensions) else Failed)
    ensures var h, r := data[at..at + 512], Advance(data, at, extensions, seen, settings, entry);
            var head := HeadOf(h).value;
            var size := StoredSize(head, settings);
            FrameEnd(data, at, size).Some? && Extension(head.kind) ==>
              if size == 0 || size > MAX_EXTENSION || extensions + size > MAX_EXTENSIONS || !InOrder(head.kind, seen)
                 || Extend(data[at + 512..at + 512 + size], head.kind, settings).None? then r == Failed
              else
                var s := Extend(data[at + 512..at + 512 + size], head.kind, settings).value;
                |s.clocks| == 4
                && r == Advance(data, FrameEnd(data, at, size).value, extensions + size, seen.Mark(head.kind), s, entry)
  {
    hide AllZero, HeadOf, Terminator, FrameEnd, Extend, Finish, BaseFits, InOrder, StoredSize;
    if FrameEnd(data, at, StoredSize(HeadOf(data[at..at + 512]).value, settings)).Some? {
      FrameMoves(data, at, StoredSize(HeadOf(data[at..at + 512]).value, settings));
    }
  }

  lemma PaxComesFirst(kind: Byte, seen: Seen)
    requires InOrder(kind, seen)
    ensures kind == 120 ==> seen == FRESH
  {
  }

  /** Every entry moves the offset by whole blocks, at least one, and stays within file and budget. */
  lemma {:induction false} AdvanceMoves(data: Data, at: nat, extensions: nat, seen: Seen, settings: Settings,
                                        entry: Option<Entry>)
    requires at <= |data| && |settings.clocks| == 4 && extensions <= MAX_EXTENSIONS
    ensures var r := Advance(data, at, extensions, seen, settings, entry);
            r.Clocks? ==>
              && at + 512 <= r.next <= |data| && (r.next - at) % 512 == 0
              && extensions <= r.extensions <= MAX_EXTENSIONS
              && r.extensions - extensions < r.next - at
              && |r.clocks| == 4 && r.clocks[0].Some?
    decreases |data| - at
  {
    hide Extend, BaseFits, HeadOf, AllZero, Finish, FrameEnd, StoredSize, InOrder;
    if |data| - at >= 512 && HeadOf(data[at..at + 512]).Some? {
      var head := HeadOf(data[at..at + 512]).value;
      var size := StoredSize(head, settings);
      if FrameEnd(data, at, size).Some? {
        FrameMoves(data, at, size);
        var next := FrameEnd(data, at, size).value;
        if Extension(head.kind) && extensions + size <= MAX_EXTENSIONS
          && Extend(data[at + 512..at + 512 + size], head.kind, settings).Some? {
          var s := Extend(data[at + 512..at + 512 + size], head.kind, settings).value;
          AdvanceMoves(data, next, extensions + size, seen.Mark(head.kind), s, entry);
          var r := Advance(data, next, extensions + size, seen.Mark(head.kind), s, entry);
          if r.Clocks? {
            WholeBlocks(r.next - next, next - at);
          }
        }
      }
    }
  }

  lemma WholeBlocks(a: int, b: int)
    requires a % 512 == 0 && b % 512 == 0
    ensures (a + b) % 512 == 0
  {
  }

  lemma FrameMoves(data: Data, at: nat, size: nat)
    requires at + 512 <= |data| && FrameEnd(data, at, size).Some?
    ensures var next := FrameEnd(data, at, size).value;
            at + 512 + size <= next <= |data| && (next - at) % 512 == 0
  {
    hide AllZero;
    PaddingFills(size);
    WholeBlocks(512, size + Padding(size));
  }

  lemma PaddingFills(size: nat)
    ensures (size + Padding(size)) % 512 == 0 && Padding(size) < 512
  {
  }

  /** Where a call stands after one header: finished, or with more settings and one more mark. */
  datatype Progress = Done(code: int, clocks: seq<Option<Clock>>) | More(settings: Settings, seen: Seen)

  const FAILED := Done(-1, [])

  predicate Usable(settings: Settings) {
    |settings.clocks| == 4 && (settings.size.Some? ==> settings.size.value >= 0)
  }

  class Cursor {
    const data: Data
    var offset: nat
    var extensions: nat

    ghost predicate Valid()
      reads this
    {
      offset <= |data| <= INT64_MAX && extensions <= MAX_EXTENSIONS
    }

    constructor (data: Data)
      requires |data| <= INT64_MAX
      ensures Valid() && this.data == data && offset == 0 && extensions == 0
    {
      this.data, offset, extensions := data, 0, 0;
    }

    /** Blocks of at most 64 KiB, as the original reads them. */
    method ZeroRange(from: nat, count: nat) returns (zero: bool)
      requires from + count <= |data|
      ensures zero == AllZero(data[from..from + count])
    {
      var at, size := from, count;
      while size > 0
        invariant at + size == from + count && from <= at
        invariant AllZero(data[from..at])
      {
        var n := if size > 65536 then 65536 else size;
        var chunk := Zero(data[at..at + n]);
        ZeroSplit(data, from, at, at + n, from + count);
        if !chunk {
          return false;
        }
        at, size := at + n, size - n;
      }
      return true;
    }

    /** The padding after a body, and where the next header starts. */
    method ReadFrame(size: nat) returns (next: Option<nat>)
      requires Valid() && offset + 512 <= |data|
      ensures next == FrameEnd(data, offset, size)
    {
      var body, padding := offset + 512, (512 - size % 512) % 512;
      if size > |data| - body || padding > |data| - body - size {
        return None;
      }
      var zero := ZeroRange(body + size, padding);
      if !zero {
        return None;
      }
      return Some(body + size + padding);
    }

    method ReadExtension(d: Data, kind: Byte, settings: Settings, seen: Seen) returns (result: Option<Settings>)
      requires d != [] && |settings.clocks| == 4
      requires kind == 120 ==> settings == NOTHING
      ensures result == Extend(d, kind, settings)
    {
      if kind == 120 {
        result := Pax(d);
      } else if d[|d| - 1] != 0 || 0 in d[..|d| - 1] {
        result := None;
      } else {
        result := Some(settings);
      }
    }

    method EntryClocks(h: Data, settings: Settings) returns (clocks: Option<seq<Option<Clock>>>)
      requires |h| == 512 && |settings.clocks| == 4
      ensures clocks == Finish(h, settings)
    {
      if settings.clocks[0].Some? {
        return Some(settings.clocks);
      }
      var number := Integer(h[136..148], true);
      if number.None? {
        return None;
      }
      return Some(settings.clocks[0 := Some(Clock(number.value, 0))]);
    }

    /** A zero header ends an archive only where no entry is expected, with zeros to the end of the file. */
    method AtEnd(entry: Option<Entry>, seen: Seen) returns (ok: bool)
      requires Valid()
      ensures ok <==> entry.None? && seen == FRESH && Terminator(data, offset)
    {
      hide AllZero;
      if entry.Some? || seen != FRESH || |data| - offset < 1024 {
        return false;
      }
      ok := ZeroRange(offset, |data| - offset);
      assert data[offset..offset + (|data| - offset)] == data[offset..];
    }

    /** The header of the entry itself. */
    method Base(h: Data, kind: Byte, entry: Entry, size: nat, settings: Settings)
      returns (clocks: Option<seq<Option<Clock>>>)
      requires |h| == 512 && |settings.clocks| == 4 && !Extension(kind)
      ensures clocks == if BaseFits(kind, entry, size) then Finish(h, settings) else None
    {
      hide Finish, BaseFits;
      if !(KindMatches(kind, entry, size) && (49 <= kind <= 54 ==> size == 0)) {
        NotBase(kind, entry, size);
        return None;
      }
      IsBase(kind, entry, size);
      clocks := EntryClocks(h, settings);
    }

    /** What one header has made of a call that was at `at`, with `used` bytes of extensions. */
    ghost predicate Follows(p: Progress, at: nat, used: nat, seen: Seen, settings: Settings, entry: Option<Entry>)
      requires at <= |data| && |settings.clocks| == 4
      reads this
    {
      && Valid() && at <= offset && used <= extensions
      && match p
         case Done(code, clocks) =>
           (match Advance(data, at, used, seen, settings, entry)
            case Failed => code == -1
            case End => code == 0 && offset == |data| && extensions == used && seen == FRESH
            case Clocks(c, next, total) => code == 1 && clocks == c && offset == next && extensions == total)
         case More(s, marked) =>
           && at < offset && marked != FRESH && Usable(s)
           && Advance(data, at, used, seen, settings, entry) == Advance(data, offset, extensions, marked, s, entry)
    }

    /** One header: the terminator, the entry itself, or an extension before it. */
    method Step(entry: Option<Entry>, settings: Settings, seen: Seen) returns (p: Progress)
      requires Valid() && offset < |data| && Usable(settings) && (seen == FRESH ==> settings == NOTHING)
      modifies this`offset, this`extensions
      ensures Follows(p, old(offset), old(extensions), seen, settings, entry)
    {
      hide HeadOf, AllZero, Terminator, Advance;
      AdvanceShort(data, offset, extensions, seen, settings, entry);
      if |data| - offset < 512 {
        return FAILED;
      }
      AdvanceEnds(data, offset, extensions, seen, settings, entry);
      var h := data[offset..offset + 512];
      var zero := Zero(h);
      if zero {
        var end := AtEnd(entry, seen);
        if !end {
          return FAILED;
        }
        offset := |data|;
        return Done(0, []);
      }
      if entry.None? {
        return FAILED;
      }
      var head := ReadHead(h);
      if head.None? {
        return FAILED;
      }
      p := Frame(h, head.value, entry.value, settings, seen);
    }

    /** A good header, with what follows it. */
    method Frame(h: Data, head: Head, entry: Entry, settings: Settings, seen: Seen) returns (p: Progress)
      requires Valid() && offset + 512 <= |data| && h == data[offset..offset + 512]
      requires !AllZero(h) && HeadOf(h) == Some(head)
      requires Usable(settings) && (seen == FRESH ==> settings == NOTHING)
      modifies this`offset, this`extensions
      ensures Follows(p, old(offset), old(extensions), seen, settings, Some(entry))
    {
      hide HeadOf, FrameEnd, Extend, Finish, AllZero, BaseFits, InOrder, Advance;
      AdvanceReads(data, offset, extensions, seen, settings, Some(entry));
      var size := if !Extension(head.kind) && settings.size.Some? then settings.size.value else head.size;
      var end := ReadFrame(size);
      if end.None? {
        return FAILED;
      }
      FrameMoves(data, offset, size);
      var body := offset + 512;
      offset := end.value;
      if !Extension(head.kind) {
        var clocks := Base(h, head.kind, entry, size, settings);
        return if clocks.None? then FAILED else Done(1, clocks.value);
      }
      if size == 0 || size > MAX_EXTENSION || size > MAX_EXTENSIONS - extensions || !InOrder(head.kind, seen) {
        return FAILED;
      }
      PaxComesFirst(head.kind, seen);
      extensions := extensions + size;
      var extended := ReadExtension(data[body..body + size], head.kind, settings, seen);
      if extended.None? {
        return FAILED;
      }
      ExtendedSize(data[body..body + size], head.kind, settings);
      return More(extended.value, seen.Mark(head.kind));
    }

    /**
     Confirms one entry, or the terminator when there is none: 1 with its clocks, 0 at a
     complete terminator, -1 otherwise.
     */
    method Next(entry: Option<Entry>) returns (code: int, clocks: seq<Option<Clock>>)
      requires Valid()
      modifies this`offset, this`extensions
      ensures Valid() && old(offset) <= offset && old(extensions) <= extensions
      ensures match Advance(data, old(offset), old(extensions), FRESH, NOTHING, entry)
              case Failed => code == -1
              case End => code == 0 && offset == |data| && extensions == old(extensions)
              case Clocks(c, next, used) => code == 1 && clocks == c && offset == next && extensions == used
    {
      hide Advance;
      var settings, seen := NOTHING, FRESH;
      while offset < |data|
        invariant Valid() && Usable(settings) && old(offset) <= offset && old(extensions) <= extensions
        invariant seen == FRESH ==> settings == NOTHING && extensions == old(extensions)
        invariant Advance(data, offset, extensions, seen, settings, entry)
               == Advance(data, old(offset), old(extensions), FRESH, NOTHING, entry)
        decreases |data| - offset
      {
        var p := Step(entry, settings, seen);
        match p {
          case Done(result, found) => return result, found;
          case More(s, marked) => settings, seen := s, marked;
        }
      }
      AdvanceShort(data, offset, extensions, seen, settings, entry);
      return -1, [];
    }
  }

  lemma ZeroSplit(data: Data, a: nat, b: nat, c: nat, d: nat)
    requires a <= b <= c <= d <= |data|
    ensures AllZero(data[a..b]) && AllZero(data[b..c]) ==> AllZero(data[a..c])
    ensures !AllZero(data[b..c]) ==> !AllZero(data[a..d])
  {
    if AllZero(data[a..d]) {
      assert forall i :: b <= i < c ==> data[i] == data[a..d][i - a];
    }
    if AllZero(data[a..b]) && AllZero(data[b..c]) {
      assert forall i :: a <= i < b ==> data[i] == data[a..b][i - a];
      assert forall i :: b <= i < c ==> data[i] == data[b..c][i - b];
    }
  }

  lemma IsBase(kind: Byte, entry: Entry, size: nat)
    requires !Extension(kind) && KindMatches(kind, entry, size) && (49 <= kind <= 54 ==> size == 0)
    ensures BaseFits(kind, entry, size)
  {
  }

  lemma NotBase(kind: Byte, entry: Entry, size: nat)
    requires !(KindMatches(kind, entry, size) && (49 <= kind <= 54 ==> size == 0))
    ensures !BaseFits(kind, entry, size)
  {
  }

  ghost predicate SizeKept(s: Settings) {
    s.size.Some? ==> s.size.value >= 0
  }

  lemma {:induction false} ScanSize(p: Data, start: nat, s: Settings)
    requires start <= |p| && |s.clocks| == 4 && SizeKept(s)
    ensures Scan(p, start, s).Some? ==> SizeKept(Scan(p, start, s).value)
    decreases |p| - start
  {
    hide SplitRecord, ClockOf;
    if start < |p| && SplitRecord(p, start).Some? {
      SplitIsRecord(p, start);
      match SplitRecord(p, start)
      case Some(pair) => match Apply(s, pair.0)
        case None =>
        case Some(t) => ScanSize(p, pair.1, t);
    }
  }

  lemma ExtendedSize(d: Data, kind: Byte, settings: Settings)
    requires |settings.clocks| == 4 && SizeKept(settings)
    ensures Extend(d, kind, settings).Some? ==> SizeKept(Extend(d, kind, settings).value)
  {
    ScanSize(d, 0, settings);
  }
}
