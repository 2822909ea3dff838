/**
 Writing archives as native/worker/check_tar_clocks.py does, for any entries: an
 optional pax header or long names, a checksummed header, the body, padding, and
 the zero terminator. Reading one back gives each entry's clocks in order.
 */
module TarPrinter {

  import opened NiaCommon
  import opened Bytes
  import opened TarNumbers
  import opened TarTimes
  import opened TarPax
  import opened TarClocks
  import opened TarArchive

  /** The parts of a header that an archive's writer chooses freely. */
  datatype Header = Header(front: Data, mtime: int, back: Data)

  datatype Extra =
    | PaxHeader(header: Header, attributes: seq<Attribute>, sizes: seq<nat>)
    | LongName(header: Header, code: Byte, name: Data)

  datatype Written = Written(extras: seq<Extra>, header: Header, kind: Byte, size: nat, body: Data)

  function Zeros(n: nat): (z: Data)
    ensures |z| == n && AllZero(z)
  {
    seq(n, (i: nat) requires i < n => 0)
  }

  // ----- Headers -----

  predicate HeaderFits(h: Header) {
    |h.front| == 124 && |h.back| == 355 && INT64_MIN <= h.mtime <= INT64_MAX
  }

  /** The checksum as six octal digits, a NUL and a blank. */
  function CheckField(n: nat): (p: Data)
    ensures |p| == 8
  {
    Octal(n, 6) + [0, 32]
  }

  function Unchecked(h: Header, size: nat, kind: Byte): (b: Data)
    requires HeaderFits(h)
    ensures |b| == 512
  {
    h.front + NumberField(size, 12) + NumberField(h.mtime, 12) + [32, 32, 32, 32, 32, 32, 32, 32] + [kind] + h.back
  }

  function HeaderText(h: Header, size: nat, kind: Byte): (t: Data)
    requires HeaderFits(h)
    ensures |t| == 512
  {
    var b := Unchecked(h, size, kind);
    b[..148] + CheckField(Sum(b)) + b[156..]
  }

  lemma {:induction false} SumBound(p: Data)
    ensures Sum(p) <= 255 * |p|
  {
    if p != [] {
      SumBound(p[..|p| - 1]);
    }
  }

  lemma CheckReads(n: nat)
    requires n <= 255 * 512
    ensures Field(CheckField(n), false, n)
  {
    var p := CheckField(n);
    assert Power8(3) == 512;
    assert Power8(6) == 262144;
    OctalValue(n, 6);
    assert p[0..6] == Octal(n, 6);
    assert forall k :: 0 <= k < 6 ==> p[k] == Octal(n, 6)[k];
    assert p[0] < 56;
    assert OctalAt(p, 0, 6, n);
  }

  lemma WideField(n: int, signed: bool)
    requires INT64_MIN <= n <= INT64_MAX && (n >= 0 || signed)
    ensures Field(NumberField(n, 12), signed, n)
  {
    hide Field, NumberField;
    Widths();
    assert Power256(9) == 256 * Power256(8);
    assert Power256(10) == 256 * Power256(9);
    assert Power256(11) == 256 * Power256(10);
    NumberReadsBack(n, 12, signed);
  }

  lemma HeaderParts(h: Header, size: nat, kind: Byte)
    requires HeaderFits(h)
    ensures var t := HeaderText(h, size, kind);
            && t[124..136] == NumberField(size, 12) && t[136..148] == NumberField(h.mtime, 12)
            && t[148..156] == CheckField(Sum(Unchecked(h, size, kind))) && t[156] == kind
            && Blanked(t) == Unchecked(h, size, kind)
  {
    hide NumberField, CheckField, Sum;
    var b := Unchecked(h, size, kind);
    var t := HeaderText(h, size, kind);
    assert b[124..136] == NumberField(size, 12);
    assert b[136..148] == NumberField(h.mtime, 12);
    assert t[124..136] == b[124..136] && t[136..148] == b[136..148];
    assert t[148..156] == CheckField(Sum(b));
    assert t[..148] == b[..148] && t[156..] == b[156..];
    assert b[148..156] == [32, 32, 32, 32, 32, 32, 32, 32];
    assert Blanked(t) == b[..148] + b[148..156] + b[156..];
  }

  /** A printed header reads back: its size, its kind and its time. */
  lemma HeaderReads(h: Header, size: nat, kind: Byte)
    requires HeaderFits(h) && size <= INT64_MAX
    ensures var t := HeaderText(h, size, kind);
            HeadOf(t) == Some(Head(size, kind)) && !AllZero(t) && NumberIn(t[136..148], true) == Some(h.mtime)
  {
    hide Field, NumberField, CheckField, Sum, Unchecked, Blanked;
    var t := HeaderText(h, size, kind);
    HeaderParts(h, size, kind);
    SumBound(Unchecked(h, size, kind));
    CheckReads(Sum(Unchecked(h, size, kind)));
    WideField(size, false);
    WideField(h.mtime, true);
    NotAllZero(t, Sum(Unchecked(h, size, kind)));
  }

  lemma NotAllZero(t: Data, n: nat)
    requires |t| == 512 && t[148..156] == CheckField(n)
    ensures !AllZero(t)
  {
    assert t[155] == t[148..156][7] == 32;
  }

  // ----- Frames -----

  predicate Has(data: Data, at: nat, text: Data) {
    at + |text| <= |data| && data[at..at + |text|] == text
  }

  lemma HasBoth(data: Data, at: nat, a: Data, b: Data)
    requires Has(data, at, a + b)
    ensures Has(data, at, a) && Has(data, at + |a|, b)
  {
    var t := data[at..at + |a + b|];
    assert t[..|a|] == a && t[|a|..] == b;
    SubSlice(data, at, at + |a + b|, 0, |a|);
    SubSlice(data, at, at + |a + b|, |a|, |a + b|);
  }

  function FrameText(h: Header, size: nat, kind: Byte, body: Data): (t: Data)
    requires HeaderFits(h)
    ensures |t| == 512 + |body| + Padding(|body|)
  {
    HeaderText(h, size, kind) + body + Zeros(Padding(|body|))
  }

  lemma FramePrinted(data: Data, at: nat, h: Header, size: nat, kind: Byte, body: Data)
    requires HeaderFits(h) && size <= INT64_MAX && Has(data, at, FrameText(h, size, kind, body))
    ensures FrameAt(data, at, Head(size, kind), |body|, at + |FrameText(h, size, kind, body)|)
    ensures data[at..at + 512] == HeaderText(h, size, kind)
    ensures data[at + 512..at + 512 + |body|] == body
  {
    hide HeaderText, HeadOf, AllZero, Padding, NumberIn;
    var t := HeaderText(h, size, kind);
    HeaderReads(h, size, kind);
    HasBoth(data, at, t + body, Zeros(Padding(|body|)));
    HasBoth(data, at, t, body);
  }

  // ----- Extensions -----

  function ExtraKind(x: Extra): Byte {
    if x.PaxHeader? then 120 else x.code
  }

  function ExtraBody(x: Extra): Data {
    if x.LongName? then x.name + [0] else if |x.sizes| == |x.attributes| then Render(x.attributes, x.sizes) else []
  }

  ghost predicate ExtraFits(x: Extra) {
    HeaderFits(x.header) && 0 < |ExtraBody(x)| <= MAX_EXTENSION
    && match x
       case PaxHeader(_, attributes, sizes) =>
         |sizes| == |attributes| && forall i :: 0 <= i < |sizes| ==> RecordFits(attributes[i], sizes[i])
       case LongName(_, code, name) => (code == 76 || code == 75) && 0 !in name
  }

  ghost predicate RecordFits(a: Attribute, size: nat) {
    KeyText(a.key) && |Record(a, size)| == size
  }

  function ExtraText(x: Extra): Data {
    if HeaderFits(x.header) then FrameText(x.header, |ExtraBody(x)|, ExtraKind(x), ExtraBody(x)) else []
  }

  function ExtrasText(extras: seq<Extra>): Data {
    if extras == [] then [] else ExtraText(extras[0]) + ExtrasText(extras[1..])
  }

  function ExtrasSize(extras: seq<Extra>): nat {
    if extras == [] then 0 else |ExtraBody(extras[0])| + ExtrasSize(extras[1..])
  }

  function ExtraKinds(extras: seq<Extra>): Data {
    seq(|extras|, (i: nat) requires i < |extras| => ExtraKind(extras[i]))
  }

  /** One pax header alone, or each long name at most once, in either order. */
  ghost predicate ExtrasFit(extras: seq<Extra>) {
    && (forall i :: 0 <= i < |extras| ==> ExtraFits(extras[i]))
    && ExtraKinds(extras) in {[], [120], [76], [75], [76, 75], [75, 76]}
  }

  /** Each extension is one the reader still allows after those before it. */
  ghost predicate ExtrasOrdered(extras: seq<Extra>, seen: Seen)
    decreases |extras|
  {
    extras == []
    || (ExtraFits(extras[0]) && InOrder(ExtraKind(extras[0]), seen)
        && ExtrasOrdered(extras[1..], seen.Mark(ExtraKind(extras[0]))))
  }

  lemma FitIsOrdered(extras: seq<Extra>)
    requires ExtrasFit(extras)
    ensures ExtrasOrdered(extras, FRESH)
  {
    hide ExtraFits, ExtraKind;
    var kinds := ExtraKinds(extras);
    assert |extras| == |kinds| <= 2;
    if |extras| >= 1 {
      assert ExtraKind(extras[0]) == kinds[0];
      var rest, seen := extras[1..], FRESH.Mark(kinds[0]);
      if |extras| == 2 {
        assert rest[0] == extras[1] && ExtraKind(rest[0]) == kinds[1];
        assert rest[1..] == [];
      }
      assert ExtrasOrdered(rest, seen);
    }
  }

  function Step(x: Extra, s: Settings): (r: Option<Settings>)
    requires |s.clocks| == 4
    ensures r.Some? ==> |r.value.clocks| == 4
  {
    if x.PaxHeader? then Gather(s, x.attributes) else Some(s)
  }

  /** What the extensions of an entry set, from their attributes alone. */
  function Meaning(extras: seq<Extra>, s: Settings): (r: Option<Settings>)
    requires |s.clocks| == 4
    ensures r.Some? ==> |r.value.clocks| == 4
    decreases |extras|
  {
    if extras == [] then Some(s)
    else match Step(extras[0], s)
      case None => None
      case Some(t) => Meaning(extras[1..], t)
  }

  lemma ExtraExtends(x: Extra, s: Settings)
    requires ExtraFits(x) && |s.clocks| == 4
    ensures Extend(ExtraBody(x), ExtraKind(x), s) == Step(x, s)
  {
    hide Scan, Gather, KeyText, Record, Records;
    if x.LongName? {
      assert ExtraBody(x)[..|x.name|] == x.name;
    }
    if x.PaxHeader? {
      var p := ExtraBody(x);
      assert p[0..] == p;
      assert forall i :: 0 <= i < |x.sizes| ==> RecordFits(x.attributes[i], x.sizes[i]);
      RenderedRecords(p, 0, x.attributes, x.sizes);
      ScanOfRecords(p, 0, s, x.attributes);
    }
  }

  function FrameOf(x: Extra, at: nat): Frame {
    Frame(ExtraKind(x), at, |ExtraBody(x)|, at + |ExtraText(x)|)
  }

  lemma ExtraPrinted(data: Data, at: nat, x: Extra)
    requires ExtraFits(x) && Has(data, at, ExtraText(x))
    ensures ExtensionAt(data, FrameOf(x, at)) && BodyOf(data, FrameOf(x, at)) == ExtraBody(x)
  {
    hide FrameAt, FrameText, ExtraBody, Has;
    var f := FrameOf(x, at);
    FramePrinted(data, at, x.header, f.size, f.kind, ExtraBody(x));
    FrameRoom(data, at, Head(f.size, f.kind), f.size, f.next);
  }

  lemma {:induction false} ExtrasPrinted(data: Data, at: nat, extras: seq<Extra>, seen: Seen, s: Settings)
    returns (frames: seq<Frame>)
    requires ExtrasOrdered(extras, seen) && |s.clocks| == 4 && Has(data, at, ExtrasText(extras))
    ensures Chain(data, frames, at, at + |ExtrasText(extras)|, seen)
    ensures Total(frames) == ExtrasSize(extras)
            && (Meaning(extras, s).Some? ==> ChainSettings(data, frames, s) == Meaning(extras, s))
    decreases |extras|
  {
    hide ExtensionAt, Extend, Step, ExtraText, ExtraBody, ExtraFits, Has, InOrder, BodyOf;
    if extras == [] {
      frames := [];
    } else {
      var x, rest := extras[0], extras[1..];
      HasBoth(data, at, ExtraText(x), ExtrasText(rest));
      ExtraPrinted(data, at, x);
      ExtraExtends(x, s);
      var f := FrameOf(x, at);
      var after := if Step(x, s).Some? then Step(x, s).value else s;
      var more := ExtrasPrinted(data, f.next, rest, seen.Mark(f.kind), after);
      frames := [f] + more;
      assert frames[1..] == more;
    }
  }

  lemma FrameRoom(data: Data, start: nat, head: Head, stored: nat, next: nat)
    requires FrameAt(data, start, head, stored, next)
    ensures start + 512 + stored <= next <= |data|
  {
    hide AllZero, HeadOf;
  }

  // ----- Members and archives -----

  function ClocksWritten(m: Written, s: Settings): seq<Option<Clock>>
    requires |s.clocks| == 4
  {
    if s.clocks[0].Some? then s.clocks else s.clocks[0 := Some(Clock(m.header.mtime, 0))]
  }

  /** A member that describes `entry`, under one of its typeflags; a pax size overrides the one in its header. */
  ghost predicate MemberFits(m: Written, entry: Entry) {
    HeaderFits(m.header) && m.size <= INT64_MAX && ExtrasFit(m.extras) && Meaning(m.extras, NOTHING).Some?
    && m.kind in Typeflags(entry) && (m.body == [] || MayHaveBody(entry))
    && |m.body| == entry.size
    && entry.size == match Meaning(m.extras, NOTHING).value.size case Some(n) => n case None => m.size
  }

  /** What the reader asks of such a member. */
  lemma MemberConfirms(m: Written, entry: Entry)
    requires MemberFits(m, entry)
    ensures BaseFits(m.kind, entry, |m.body|)
    ensures |m.body| == StoredSize(Head(m.size, m.kind), Meaning(m.extras, NOTHING).value)
  {
    hide ExtrasFit, Meaning;
    TypeflagDecides(m.kind, entry, |m.body|);
  }

  function MemberText(m: Written): Data {
    ExtrasText(m.extras) + BaseText(m)
  }

  function BaseText(m: Written): Data {
    if HeaderFits(m.header) then FrameText(m.header, m.size, m.kind, m.body) else []
  }

  lemma BasePrinted(data: Data, base: nat, m: Written, entry: Entry)
    requires MemberFits(m, entry) && Has(data, base, BaseText(m))
    ensures var s := Meaning(m.extras, NOTHING).value; var next := base + |BaseText(m)|;
            BaseAt(data, base, s, entry, ClocksWritten(m, s), next) && next <= |data|
  {
    hide FrameAt, FrameText, Has, BaseFits, Finish, Meaning, ExtrasFit, ClocksWritten, StoredSize;
    MemberConfirms(m, entry);
    var s := Meaning(m.extras, NOTHING).value;
    var head, next := Head(m.size, m.kind), base + |BaseText(m)|;
    FramePrinted(data, base, m.header, m.size, m.kind, m.body);
    FrameRoom(data, base, head, |m.body|, next);
    FinishPrinted(m, s);
    assert FrameAt(data, base, head, StoredSize(head, s), next);
  }

  lemma FinishPrinted(m: Written, s: Settings)
    requires HeaderFits(m.header) && m.size <= INT64_MAX && |s.clocks| == 4
    ensures Finish(HeaderText(m.header, m.size, m.kind), s) == Some(ClocksWritten(m, s))
  {
    hide HeaderText, HeadOf, NumberIn;
    HeaderReads(m.header, m.size, m.kind);
  }

  lemma MemberPrinted(data: Data, at: nat, m: Written, entry: Entry) returns (frames: seq<Frame>, base: nat)
    requires MemberFits(m, entry) && Has(data, at, MemberText(m))
    ensures Member(data, at, FRESH, NOTHING, frames, base, entry,
                   ClocksWritten(m, Meaning(m.extras, NOTHING).value), at + |MemberText(m)|)
    ensures Total(frames) == ExtrasSize(m.extras) && at + |MemberText(m)| <= |data|
  {
    hide *;
    MemberSplits(data, at, m, entry);
    frames := ExtrasPrinted(data, at, m.extras, FRESH, NOTHING);
    base := at + |ExtrasText(m.extras)|;
    BasePrinted(data, base, m, entry);
    Assembled(data, at, frames, base, entry, Meaning(m.extras, NOTHING).value,
              ClocksWritten(m, Meaning(m.extras, NOTHING).value), at + |MemberText(m)|);
  }

  lemma MemberSplits(data: Data, at: nat, m: Written, entry: Entry)
    requires MemberFits(m, entry) && Has(data, at, MemberText(m))
    ensures Has(data, at, ExtrasText(m.extras)) && Has(data, at + |ExtrasText(m.extras)|, BaseText(m))
    ensures |MemberText(m)| == |ExtrasText(m.extras)| + |BaseText(m)|
    ensures ExtrasOrdered(m.extras, FRESH) && |NOTHING.clocks| == 4 && Meaning(m.extras, NOTHING).Some?
  {
    hide BaseText, ExtrasText, Has, BaseFits, Meaning, ExtrasFit;
    FitIsOrdered(m.extras);
    HasBoth(data, at, ExtrasText(m.extras), BaseText(m));
  }

  lemma Assembled(data: Data, at: nat, frames: seq<Frame>, base: nat, entry: Entry, s: Settings,
                  clocks: seq<Option<Clock>>, next: nat)
    requires |s.clocks| == 4 && Chain(data, frames, at, base, FRESH) && ChainSettings(data, frames, NOTHING) == Some(s)
    requires BaseAt(data, base, s, entry, clocks, next)
    ensures Member(data, at, FRESH, NOTHING, frames, base, entry, clocks, next)
  {
    hide BaseAt, Chain, ChainSettings;
  }

  function ArchiveText(members: seq<Written>, zeros: nat): Data {
    if members == [] then Zeros(zeros) else MemberText(members[0]) + ArchiveText(members[1..], zeros)
  }

  function ExtensionsSize(members: seq<Written>): nat {
    if members == [] then 0 else ExtrasSize(members[0].extras) + ExtensionsSize(members[1..])
  }

  ghost predicate AllFit(members: seq<Written>, entries: seq<Entry>) {
    |members| == |entries| && forall i :: 0 <= i < |members| ==> MemberFits(members[i], entries[i])
  }

  /** The clocks every member was written with. */
  function AllClocks(members: seq<Written>): seq<seq<Option<Clock>>> {
    seq(|members|, (i: nat) requires i < |members| =>
      var s := Meaning(members[i].extras, NOTHING); if s.Some? then ClocksWritten(members[i], s.value) else [])
  }

  lemma {:induction false} ArchivePrinted(data: Data, at: nat, used: nat, members: seq<Written>, entries: seq<Entry>,
                                          zeros: nat)
    requires AllFit(members, entries) && zeros >= 1024 && used + ExtensionsSize(members) <= MAX_EXTENSIONS
    requires Has(data, at, ArchiveText(members, zeros)) && at + |ArchiveText(members, zeros)| == |data|
    ensures Archive(data, at, used, entries, AllClocks(members))
    decreases |members|
  {
    hide Member, MemberFits, MemberText, ClocksWritten, Meaning, ExtrasSize;
    if members == [] {
      assert data[at..] == data[at..at + zeros] == Zeros(zeros);
    } else {
      var m, rest := members[0], members[1..];
      HasBoth(data, at, MemberText(m), ArchiveText(rest, zeros));
      var frames, base := MemberPrinted(data, at, m, entries[0]);
      var next := at + |MemberText(m)|;
      ArchivePrinted(data, next, used + Total(frames), rest, entries[1..], zeros);
      assert AllClocks(members)[1..] == AllClocks(rest);
      MeaningFits(m, entries[0]);
      assert ArchiveStep(data, at, used, frames, base, entries[0], AllClocks(members)[0], next);
    }
  }

  lemma MeaningFits(m: Written, entry: Entry)
    requires MemberFits(m, entry)
    ensures Meaning(m.extras, NOTHING).Some?
  {
  }

  /** Reading a written archive gives every member's clocks in order, and then the end. */
  lemma ArchiveRoundTrip(members: seq<Written>, entries: seq<Entry>, zeros: nat)
    requires AllFit(members, entries) && zeros >= 1024 && ExtensionsSize(members) <= MAX_EXTENSIONS
    ensures Walk(ArchiveText(members, zeros), 0, 0, entries) == Some(AllClocks(members))
  {
    hide Walk, Archive, AllFit;
    var data := ArchiveText(members, zeros);
    assert data[0..|data|] == data;
    ArchivePrinted(data, 0, 0, members, entries, zeros);
    WalkReadsArchives(data, 0, 0, entries, AllClocks(members));
  }
}
