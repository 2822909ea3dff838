/**
 What a whole archive is, and that the clock cursor reads exactly that: extension
 frames, a base frame and padding for every entry, then a terminator of zeros. The
 printer of native/worker/check_tar_clocks.py, generalised to any number of
 entries, writes such archives.
 */
module TarArchive {

  import opened NiaCommon
  import opened Bytes
  import opened TarNumbers
  import opened TarTimes
  import opened TarPax
  import opened TarClocks

  datatype Frame = Frame(kind: Byte, start: nat, size: nat, next: nat)

  // ----- The grammar -----

  /** A header with a sound checksum, a body and zero padding, all inside the file. */
  ghost predicate FrameAt(data: Data, start: nat, head: Head, stored: nat, next: nat) {
    start + 512 <= |data| && !AllZero(data[start..start + 512])
    && HeadOf(data[start..start + 512]) == Some(head)
    && FrameEnd(data, start, stored) == Some(next)
  }

  ghost predicate ExtensionAt(data: Data, f: Frame) {
    Extension(f.kind) && 0 < f.size <= MAX_EXTENSION
    && FrameAt(data, f.start, Head(f.size, f.kind), f.size, f.next)
  }

  function BodyOf(data: Data, f: Frame): Data {
    if f.start + 512 + f.size <= |data| then data[f.start + 512..f.start + 512 + f.size] else []
  }

  function Total(frames: seq<Frame>): nat {
    if frames == [] then 0 else frames[0].size + Total(frames[1..])
  }

  /** Extension frames one after another, in an order still allowed after `seen`. */
  ghost predicate Chain(data: Data, frames: seq<Frame>, from: nat, base: nat, seen: Seen)
    decreases |frames|
  {
    if frames == [] then from == base
    else
      && frames[0].start == from && ExtensionAt(data, frames[0]) && InOrder(frames[0].kind, seen)
      && Chain(data, frames[1..], frames[0].next, base, seen.Mark(frames[0].kind))
  }

  function ChainSettings(data: Data, frames: seq<Frame>, s: Settings): (r: Option<Settings>)
    requires |s.clocks| == 4
    ensures r.Some? ==> |r.value.clocks| == 4
    decreases |frames|
  {
    if frames == [] then Some(s)
    else match Extend(BodyOf(data, frames[0]), frames[0].kind, s)
      case None => None
      case Some(t) => ChainSettings(data, frames[1..], t)
  }

  /** The base frame of an entry, under the settings its extensions made. */
  ghost predicate BaseAt(data: Data, base: nat, s: Settings, entry: Entry, clocks: seq<Option<Clock>>, next: nat) {
    |s.clocks| == 4
    && exists head :: FrameAt(data, base, head, StoredSize(head, s), next)
                      && BaseFits(head.kind, entry, StoredSize(head, s))
                      && Finish(data[base..base + 512], s) == Some(clocks)
  }

  ghost predicate Member(data: Data, at: nat, seen: Seen, s: Settings, frames: seq<Frame>, base: nat,
                         entry: Entry, clocks: seq<Option<Clock>>, next: nat)
  {
    |s.clocks| == 4 && Chain(data, frames, at, base, seen) && ChainSettings(data, frames, s).Some?
    && BaseAt(data, base, ChainSettings(data, frames, s).value, entry, clocks, next)
  }

  // ----- One entry -----

  lemma BaseAdvances(data: Data, at: nat, extensions: nat, seen: Seen, s: Settings, entry: Entry,
                     clocks: seq<Option<Clock>>, next: nat)
    requires |s.clocks| == 4 && at <= |data| && BaseAt(data, at, s, entry, clocks, next)
    ensures Advance(data, at, extensions, seen, s, Some(entry)) == Clocks(clocks, next, extensions)
  {
    hide AllZero, HeadOf, FrameEnd, Finish, Extend, InOrder;
  }

  /** An entry with its extensions, within the budget, is what one call reads. */
  lemma {:induction false} MemberAdvances(data: Data, at: nat, extensions: nat, seen: Seen, s: Settings,
                                          frames: seq<Frame>, base: nat,
                                          entry: Entry, clocks: seq<Option<Clock>>, next: nat)
    requires at <= |data| && Member(data, at, seen, s, frames, base, entry, clocks, next)
    requires extensions + Total(frames) <= MAX_EXTENSIONS
    ensures Advance(data, at, extensions, seen, s, Some(entry)) == Clocks(clocks, next, extensions + Total(frames))
    decreases |frames|
  {
    hide AllZero, HeadOf, FrameEnd, Finish, Extend, InOrder, BaseAt, Advance;
    if frames == [] {
      BaseAdvances(data, at, extensions, seen, s, entry, clocks, next);
    } else {
      var f := frames[0];
      AdvanceReads(data, at, extensions, seen, s, Some(entry));
      FrameMoves(data, at, f.size);
      var t := Extend(BodyOf(data, f), f.kind, s).value;
      MemberAdvances(data, f.next, extensions + f.size, seen.Mark(f.kind), t, frames[1..], base, entry, clocks, next);
    }
  }

  /** Whatever one call reads is an entry with its extensions, within the budget. */
  lemma {:induction false} AdvanceMember(data: Data, at: nat, extensions: nat, seen: Seen, s: Settings, entry: Entry)
    returns (frames: seq<Frame>, base: nat)
    requires at <= |data| && |s.clocks| == 4 && extensions <= MAX_EXTENSIONS
    requires Advance(data, at, extensions, seen, s, Some(entry)).Clocks?
    ensures var r := Advance(data, at, extensions, seen, s, Some(entry));
            Member(data, at, seen, s, frames, base, entry, r.clocks, r.next)
            && r.extensions == extensions + Total(frames) <= MAX_EXTENSIONS
    decreases |data| - at
  {
    hide AllZero, HeadOf, FrameEnd, Finish, Extend, InOrder, BaseFits;
    var h := data[at..at + 512];
    var head := HeadOf(h).value;
    var size := StoredSize(head, s);
    FrameMoves(data, at, size);
    var end := FrameEnd(data, at, size).value;
    if Extension(head.kind) {
      var f := Frame(head.kind, at, size, end);
      var t := Extend(BodyOf(data, f), head.kind, s).value;
      var rest;
      rest, base := AdvanceMember(data, end, extensions + size, seen.Mark(head.kind), t, entry);
      frames := [f] + rest;
      assert frames[1..] == rest;
    } else {
      frames, base := [], at;
      assert FrameAt(data, at, head, StoredSize(head, s), end);
    }
  }

  /** An entry that is read has one of its typeflags in the header it ends with, and its own size. */
  lemma ReadEntryIsTyped(data: Data, at: nat, extensions: nat, entry: Entry)
    returns (frames: seq<Frame>, base: nat)
    requires at <= |data| && extensions <= MAX_EXTENSIONS
    requires Advance(data, at, extensions, FRESH, NOTHING, Some(entry)).Clocks?
    ensures var r := Advance(data, at, extensions, FRESH, NOTHING, Some(entry));
            && Member(data, at, FRESH, NOTHING, frames, base, entry, r.clocks, r.next)
            && base + 512 <= |data| && data[base + 156] in Typeflags(entry)
            && 0 <= entry.size <= r.next - base - 512 < entry.size + 512
            && (entry.size == 0 || MayHaveBody(entry))
            && forall k :: base + 512 + entry.size <= k < r.next <= |data| ==> data[k] == 0
  {
    hide Advance, Chain, ChainSettings, BaseFits, Finish, NumberIn, AllZero;
    frames, base := AdvanceMember(data, at, extensions, FRESH, NOTHING, entry);
    var r := Advance(data, at, extensions, FRESH, NOTHING, Some(entry));
    BaseIsTyped(data, base, ChainSettings(data, frames, NOTHING).value, entry, r.clocks, r.next);
  }

  lemma BaseIsTyped(data: Data, base: nat, s: Settings, entry: Entry, clocks: seq<Option<Clock>>, next: nat)
    requires BaseAt(data, base, s, entry, clocks, next)
    ensures base + 512 <= |data| && data[base + 156] in Typeflags(entry)
    ensures 0 <= entry.size <= next - base - 512 < entry.size + 512 && next <= |data|
    ensures entry.size == 0 || MayHaveBody(entry)
    ensures forall k :: base + 512 + entry.size <= k < next ==> data[k] == 0
  {
    hide BaseFits, Finish, NumberIn, StoredSize, Padding, Typeflags;
    var head :| FrameAt(data, base, head, StoredSize(head, s), next)
                && BaseFits(head.kind, entry, StoredSize(head, s));
    var size := StoredSize(head, s);
    TypeflagDecides(head.kind, entry, size);
    FrameMoves(data, base, size);
    PaddingFills(size);
    var padding := data[base + 512 + size..base + 512 + size + Padding(size)];
    assert forall k :: base + 512 + size <= k < next ==> data[k] == padding[k - base - 512 - size];
  }

  function KindsOf(frames: seq<Frame>): Data {
    seq(|frames|, (i: nat) requires i < |frames| => frames[i].kind)
  }

  /** The extensions an entry may have: one pax header alone, or each long name at most once. */
  lemma ChainShapes(data: Data, frames: seq<Frame>, from: nat, base: nat)
    requires Chain(data, frames, from, base, FRESH)
    ensures KindsOf(frames) in {[], [120], [76], [75], [76, 75], [75, 76]}
  {
    hide ExtensionAt, FrameAt;
    ChainKinds(data, frames, from, base, FRESH);
    if |frames| >= 1 {
      var seen := FRESH.Mark(frames[0].kind);
      ChainKinds(data, frames[1..], frames[0].next, base, seen);
      if |frames| >= 2 {
        assert frames[1..][0] == frames[1];
        ChainKinds(data, frames[1..][1..], frames[1].next, base, seen.Mark(frames[1].kind));
        assert |frames| == 2;
      }
    }
    assert KindsOf(frames) == if |frames| == 0 then [] else if |frames| == 1 then [frames[0].kind]
        else [frames[0].kind, frames[1].kind];
  }

  lemma ChainKinds(data: Data, frames: seq<Frame>, from: nat, base: nat, seen: Seen)
    requires Chain(data, frames, from, base, seen)
    ensures frames != [] ==> Extension(frames[0].kind) && InOrder(frames[0].kind, seen)
  {
  }

  // ----- The whole archive -----

  /** Calling the cursor for each entry in turn, and once more at the end. */
  ghost function Walk(data: Data, at: nat, extensions: nat, entries: seq<Entry>): Option<seq<seq<Option<Clock>>>>
    requires at <= |data| && extensions <= MAX_EXTENSIONS
    decreases |entries|
  {
    if entries == [] then
      if Advance(data, at, extensions, FRESH, NOTHING, None) == End then Some([]) else None
    else
      AdvanceMoves(data, at, extensions, FRESH, NOTHING, Some(entries[0]));
      match Advance(data, at, extensions, FRESH, NOTHING, Some(entries[0]))
      case Failed => None
      case End => None
      case Clocks(clocks, next, used) =>
        match Walk(data, next, used, entries[1..])
        case None => None
        case Some(rest) => Some([clocks] + rest)
  }

  /** An archive: its entries with their clocks, within the budget, then the terminator. */
  ghost predicate Archive(data: Data, at: nat, extensions: nat, entries: seq<Entry>, clocks: seq<seq<Option<Clock>>>)
    decreases |entries|
  {
    |clocks| == |entries|
    && if entries == [] then Terminator(data, at)
       else exists frames, base, next :: ArchiveStep(data, at, extensions, frames, base, entries[0], clocks[0], next)
                                         && Archive(data, next, extensions + Total(frames), entries[1..], clocks[1..])
  }

  ghost predicate ArchiveStep(data: Data, at: nat, extensions: nat, frames: seq<Frame>, base: nat,
                              entry: Entry, clocks: seq<Option<Clock>>, next: nat)
  {
    Member(data, at, FRESH, NOTHING, frames, base, entry, clocks, next)
    && extensions + Total(frames) <= MAX_EXTENSIONS && next <= |data|
  }

  lemma TerminatorEnds(data: Data, at: nat, extensions: nat)
    requires at <= |data|
    ensures Advance(data, at, extensions, FRESH, NOTHING, None) == End <==> Terminator(data, at)
  {
    if Terminator(data, at) {
      assert forall i :: at <= i < |data| ==> data[i] == data[at..][i - at];
      assert AllZero(data[at..at + 512]);
    }
  }

  /** An archive ends in at least 1024 zero bytes. */
  lemma {:induction false} ArchiveEndsInZeros(data: Data, at: nat, extensions: nat, entries: seq<Entry>,
                                              clocks: seq<seq<Option<Clock>>>)
    requires Archive(data, at, extensions, entries, clocks)
    ensures |data| >= 1024 && forall k :: |data| - 1024 <= k < |data| ==> data[k] == 0
    decreases |entries|
  {
    hide Member;
    if entries == [] {
      assert forall k :: |data| - 1024 <= k < |data| ==> data[k] == data[at..][k - at];
    } else {
      var frames, base, next :| ArchiveStep(data, at, extensions, frames, base, entries[0], clocks[0], next)
                                && Archive(data, next, extensions + Total(frames), entries[1..], clocks[1..]);
      ArchiveEndsInZeros(data, next, extensions + Total(frames), entries[1..], clocks[1..]);
    }
  }

  /** The cursor completes a walk exactly over archives, with exactly their clocks. */
  lemma {:induction false} WalkReadsArchives(data: Data, at: nat, extensions: nat, entries: seq<Entry>,
                                             clocks: seq<seq<Option<Clock>>>)
    requires at <= |data| && extensions <= MAX_EXTENSIONS
    ensures Walk(data, at, extensions, entries) == Some(clocks) <==> Archive(data, at, extensions, entries, clocks)
    decreases |entries|
  {
    hide Advance, Member, Terminator;
    if entries == [] {
      TerminatorEnds(data, at, extensions);
    } else {
      if Archive(data, at, extensions, entries, clocks) {
        ArchiveWalks(data, at, extensions, entries, clocks);
      }
      if Walk(data, at, extensions, entries) == Some(clocks) {
        WalkIsArchive(data, at, extensions, entries, clocks);
      }
    }
  }

  lemma ArchiveWalks(data: Data, at: nat, extensions: nat, entries: seq<Entry>, clocks: seq<seq<Option<Clock>>>)
    requires entries != [] && at <= |data| && extensions <= MAX_EXTENSIONS
             && Archive(data, at, extensions, entries, clocks)
    ensures Walk(data, at, extensions, entries) == Some(clocks)
    decreases |entries|, 0
  {
    hide Advance, Member, Terminator;
    var frames, base, next :| ArchiveStep(data, at, extensions, frames, base, entries[0], clocks[0], next)
                              && Archive(data, next, extensions + Total(frames), entries[1..], clocks[1..]);
    MemberAdvances(data, at, extensions, FRESH, NOTHING, frames, base, entries[0], clocks[0], next);
    WalkReadsArchives(data, next, extensions + Total(frames), entries[1..], clocks[1..]);
    assert clocks == [clocks[0]] + clocks[1..];
  }

  lemma WalkIsArchive(data: Data, at: nat, extensions: nat, entries: seq<Entry>, clocks: seq<seq<Option<Clock>>>)
    requires entries != [] && at <= |data| && extensions <= MAX_EXTENSIONS
             && Walk(data, at, extensions, entries) == Some(clocks)
    ensures Archive(data, at, extensions, entries, clocks)
    decreases |entries|, 0
  {
    hide Advance, Member, Terminator;
    AdvanceMoves(data, at, extensions, FRESH, NOTHING, Some(entries[0]));
    var r := Advance(data, at, extensions, FRESH, NOTHING, Some(entries[0]));
    var frames, base := AdvanceMember(data, at, extensions, FRESH, NOTHING, entries[0]);
    var rest := Walk(data, r.next, r.extensions, entries[1..]).value;
    assert clocks[1..] == rest && clocks[0] == r.clocks;
    WalkReadsArchives(data, r.next, r.extensions, entries[1..], rest);
    assert ArchiveStep(data, at, extensions, frames, base, entries[0], clocks[0], r.next);
  }
}
