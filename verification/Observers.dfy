/**
 What the operator and supply observers share: their phases, the order of their
 numbered checks in time, and the buffering of a fixed-size reply.
 */
module Observers {

  import opened NiaCommon
  import opened Bytes

  const MAX_CHECKS: nat := 1200
  const CHECK_MS: int := 1000

  datatype Phase = New | Pending | Observed | Failed | Closed
  datatype Event = Request | Observe | Fail | Close
  datatype Observation = Observation(sequence: nat, started: int, finished: int)

  function Earliest(a: int, b: int): int {
    if a < b then a else b
  }

  /** `advance`; a rejected event has no successor. */
  function Advance(phase: Phase, event: Event, sequence: int): Option<(Phase, int)> {
    if event == Close then Some((Closed, sequence))
    else if event == Fail && phase != Failed && phase != Closed then Some((Failed, sequence))
    else if event == Request && (phase == New || phase == Observed) && 0 <= sequence < MAX_CHECKS then
      Some((Pending, sequence + 1))
    else if event == Observe && phase == Pending && 1 <= sequence <= MAX_CHECKS then Some((Observed, sequence))
    else None
  }

  // ----- Runs of the control relation -----

  /** The sequence numbers of the observations a run of events accepts; rejected events change nothing. */
  function Accepted(phase: Phase, sequence: int, events: seq<Event>): seq<int>
    decreases |events|
  {
    if events == [] then []
    else
      match Advance(phase, events[0], sequence)
      case None => Accepted(phase, sequence, events[1..])
      case Some(next) =>
        (if events[0] == Observe then [next.1] else []) + Accepted(next.0, next.1, events[1..])
  }

  lemma {:induction false} AcceptedCounts(phase: Phase, sequence: int, events: seq<Event>)
    requires 0 <= sequence <= MAX_CHECKS && (phase == Pending ==> sequence >= 1)
    ensures var a := Accepted(phase, sequence, events);
            var done := if phase == Pending then sequence - 1 else sequence;
            (forall i :: 0 <= i < |a| ==> a[i] == done + i + 1) && |a| <= MAX_CHECKS - done
    ensures phase == Failed || phase == Closed ==> Accepted(phase, sequence, events) == []
    decreases |events|
  {
    if events != [] {
      match Advance(phase, events[0], sequence)
      case None => AcceptedCounts(phase, sequence, events[1..]);
      case Some(next) => AcceptedCounts(next.0, next.1, events[1..]);
    }
  }

  /** From the start, every run accepts 1, 2, 3 and so on, at most `MAX_CHECKS` of them. */
  lemma RunsCountUp(events: seq<Event>)
    ensures var a := Accepted(New, 0, events);
            (forall i :: 0 <= i < |a| ==> a[i] == i + 1) && |a| <= MAX_CHECKS
  {
    AcceptedCounts(New, 0, events);
  }

  /** Nothing is accepted once a run has failed or closed, whatever follows. */
  lemma NothingAfterTheEnd(phase: Phase, sequence: int, events: seq<Event>)
    requires 0 <= sequence <= MAX_CHECKS && (phase == Failed || phase == Closed)
    ensures Accepted(phase, sequence, events) == []
  {
    AcceptedCounts(phase, sequence, events);
  }

  // ----- Checks in time -----

  /**
   Each accepted check starts after its request, and each request is made after the
   check before it finished.
   */
  ghost predicate Ordered(history: seq<Observation>, requested: seq<int>) {
    |history| <= |requested|
    && (forall i :: 0 <= i < |history| ==>
          history[i].sequence == i + 1 && requested[i] <= history[i].started <= history[i].finished)
    && (forall i :: 0 <= i < |history| && i + 1 < |requested| ==> history[i].finished <= requested[i + 1])
  }

  ghost predicate Before(history: seq<Observation>, requested: seq<int>, t: int) {
    (forall i :: 0 <= i < |history| ==> history[i].finished <= t)
    && (forall i :: 0 <= i < |requested| ==> requested[i] <= t)
  }

  lemma OneMoreRequest(history: seq<Observation>, requested: seq<int>, t: int, now: int)
    requires Ordered(history, requested) && Before(history, requested, t) && t <= now && |history| == |requested|
    ensures Ordered(history, requested + [now]) && Before(history, requested + [now], now)
  {
  }

  lemma OneMoreObservation(history: seq<Observation>, requested: seq<int>, t: int, o: Observation)
    requires Ordered(history, requested) && Before(history, requested, t) && |history| + 1 == |requested|
    requires o.sequence == |requested| && requested[|history|] <= o.started <= o.finished <= t
    ensures Ordered(history + [o], requested) && Before(history + [o], requested, t)
  {
  }

  lemma Later(history: seq<Observation>, requested: seq<int>, t: int, now: int)
    requires Before(history, requested, t) && t <= now
    ensures Before(history, requested, now)
  {
  }

  /** The intervals of the accepted checks never overlap, however far apart they are. */
  lemma {:induction false} IntervalsDisjoint(history: seq<Observation>, requested: seq<int>, i: nat, j: nat)
    requires Ordered(history, requested) && i < j < |history|
    ensures history[i].finished <= history[j].started
    decreases j
  {
    if i < j - 1 {
      IntervalsDisjoint(history, requested, i, j - 1);
    }
    assert history[j - 1].finished <= requested[j];
  }

  // ----- Buffering -----

  datatype Buffered = Waiting(bytes: Data) | Full(bytes: Data) | Overrun

  /** A reply of `size` bytes gathered from chunks, each read asking for one byte too many. */
  function Gather(size: nat, buffer: Data, chunks: seq<Data>): Buffered
    decreases |chunks|
  {
    if |buffer| == size then Full(buffer)
    else if |buffer| > size then Overrun
    else if chunks == [] then Waiting(buffer)
    else Gather(size, buffer + chunks[0], chunks[1..])
  }

  /** What a buffer that is still waiting becomes with one more chunk. */
  function WithChunk(size: nat, buffer: Data, chunk: Data): Buffered {
    var all := buffer + chunk;
    if |all| == size then Full(all) else if |all| > size then Overrun else Waiting(all)
  }

  lemma {:induction false} GatherOneMore(size: nat, before: Data, chunks: seq<Data>, buffer: Data, chunk: Data)
    requires Gather(size, before, chunks) == Waiting(buffer)
    ensures Gather(size, before, chunks + [chunk]) == WithChunk(size, buffer, chunk)
    decreases |chunks|
  {
    if chunks == [] {
      assert [chunk][1..] == [];
    } else {
      assert (chunks + [chunk])[1..] == chunks[1..] + [chunk];
      GatherOneMore(size, before + chunks[0], chunks[1..], buffer, chunk);
    }
  }

  function Joined(chunks: seq<Data>): Data {
    if chunks == [] then [] else chunks[0] + Joined(chunks[1..])
  }

  lemma {:induction false} GatherJoined(size: nat, buffer: Data, chunks: seq<Data>)
    requires |buffer| + |Joined(chunks)| <= size
    requires forall i :: 0 <= i < |chunks| ==> chunks[i] != []
    ensures var all := buffer + Joined(chunks);
            Gather(size, buffer, chunks) == if |all| == size then Full(all) else Waiting(all)
    decreases |chunks|
  {
    if chunks == [] {
      assert buffer + [] == buffer;
    } else {
      assert buffer + Joined(chunks) == (buffer + chunks[0]) + Joined(chunks[1..]);
      GatherJoined(size, buffer + chunks[0], chunks[1..]);
    }
  }

  /** However a reply no longer than a frame is cut, it is gathered alike. */
  lemma ChunkingIrrelevant(size: nat, a: seq<Data>, b: seq<Data>)
    requires Joined(a) == Joined(b) && |Joined(a)| <= size
    requires forall i :: 0 <= i < |a| ==> a[i] != []
    requires forall i :: 0 <= i < |b| ==> b[i] != []
    ensures Gather(size, [], a) == Gather(size, [], b)
  {
    GatherJoined(size, [], a);
    GatherJoined(size, [], b);
  }

  /** Reads as a guard makes them: never empty, and never past one byte more than the frame. */
  ghost predicate Reads(size: nat, buffer: Data, chunks: seq<Data>)
    decreases |chunks|
  {
    chunks == []
    || (chunks[0] != [] && (|buffer| < size ==> |chunks[0]| <= size + 1 - |buffer|)
        && Reads(size, buffer + chunks[0], chunks[1..]))
  }

  ghost predicate Cuts(size: nat, reply: Data, chunks: seq<Data>) {
    Reads(size, [], chunks) && Joined(chunks) == reply
  }

  ghost predicate CutsAgree(size: nat, reply: Data) {
    forall a, b :: Cuts(size, reply, a) && Cuts(size, reply, b) ==> Gather(size, [], a) == Gather(size, [], b)
  }

  lemma {:induction false} ReadsAreNonempty(size: nat, buffer: Data, chunks: seq<Data>)
    requires Reads(size, buffer, chunks)
    ensures forall i :: 0 <= i < |chunks| ==> chunks[i] != []
    decreases |chunks|
  {
    if chunks != [] {
      ReadsAreNonempty(size, buffer + chunks[0], chunks[1..]);
      assert forall i :: 1 <= i < |chunks| ==> chunks[i] == chunks[1..][i - 1];
    }
  }

  lemma {:induction false} ReadsOneMore(size: nat, before: Data, chunks: seq<Data>, buffer: Data, chunk: Data)
    requires Reads(size, before, chunks) && Gather(size, before, chunks) == Waiting(buffer)
    requires chunk != [] && |buffer| + |chunk| <= size + 1
    ensures Reads(size, before, chunks + [chunk])
    decreases |chunks|
  {
    if chunks == [] {
      assert [chunk][1..] == [];
    } else {
      assert (chunks + [chunk])[1..] == chunks[1..] + [chunk];
      ReadsOneMore(size, before + chunks[0], chunks[1..], buffer, chunk);
    }
  }

  /** A first read that ends the gathering, and whatever is left of the reply after it. */
  lemma OneRead(size: nat, reply: Data, n: nat) returns (chunks: seq<Data>)
    requires 0 < size <= n <= size + 1 && n <= |reply|
    ensures Cuts(size, reply, chunks)
    ensures Gather(size, [], chunks) == if n == size then Full(reply[..n]) else Overrun
  {
    var first, left := reply[..n], reply[n..];
    assert [] + first == first && first + left == reply;
    if left == [] {
      chunks := [first];
      assert chunks[1..] == [];
    } else {
      chunks := [first, left];
      assert chunks[1..] == [left] && chunks[1..][1..] == [];
      assert Joined([left]) == left + Joined([]) == left;
    }
  }

  /** A longer reply is refused or accepted by where it is cut, whatever its bytes. */
  lemma LongRepliesDependOnChunks(size: nat, reply: Data) returns (refused: seq<Data>, accepted: seq<Data>)
    requires 0 < size < |reply|
    ensures Cuts(size, reply, refused) && Gather(size, [], refused) == Overrun
    ensures Cuts(size, reply, accepted) && Gather(size, [], accepted) == Full(reply[..size])
  {
    refused := OneRead(size, reply, size + 1);
    accepted := OneRead(size, reply, size);
  }

  /** All cuts of a reply are gathered alike exactly when it is no longer than the frame. */
  lemma CutsAgreeExactly(size: nat, reply: Data)
    requires size > 0
    ensures CutsAgree(size, reply) <==> |reply| <= size
  {
    hide Gather, Joined, Reads;
    if |reply| <= size {
      forall a, b | Cuts(size, reply, a) && Cuts(size, reply, b)
        ensures Gather(size, [], a) == Gather(size, [], b)
      {
        ReadsAreNonempty(size, [], a);
        ReadsAreNonempty(size, [], b);
        ChunkingIrrelevant(size, a, b);
      }
    } else {
      var refused, accepted := LongRepliesDependOnChunks(size, reply);
    }
  }
}
