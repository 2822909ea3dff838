/**
 Everything the root supervisor does not control: the boot-time clock, which never
 goes back, and the answers of kernel, helpers and native checks, any of which may
 turn out either way. Whatever is proved over it holds for every such answer.

 The world also keeps a ghost record: every reading of the clock, and a trace of what
 happened in order. An event is appended by the code that does what the event says.
 */
module Environment {

  import opened NiaCommon
  import opened Bytes
  import opened Observers
  import opened Scopes

  /** What leaves the supervisor: a request to the controller, or a completed handoff. */
  datatype Kind = Prepare | Observe | Finish | Complete

  /** The points at which the supervisor looks for fresh authorization. */
  datatype Boundary = PrepareRoot | RootPrepared | ReinspectRoot | RootReinspected | CloseRoot

  datatype Observer = Operator | Supply

  datatype Event =
    | Began(boundary: Boundary, at: int)
    | Asked(observer: Observer, sequence: nat, at: int)
    | Answered(observer: Observer, observation: Observation, at: int)
    | Admitted(boundary: Boundary, at: int)
    | Handed(message: Message, at: int)
    | Heard(message: Message, at: int)
    | Seen(found: Mounted, at: int)
    | Consented(at: int)
    | Retained(at: int)
    | Looked(observer: Observer, at: int)
    | Acted(kind: Kind, at: int)
    | Ended(at: int)

  /** A readable or hung-up descriptor, as a poll reports it. */
  datatype Ready = Ready(descriptor: int, invalid: bool)

  /** A packet with its kernel credentials and descriptors; `clean` when nothing else came with it. */
  datatype Message = Message(raw: Data, credentials: seq<(int, int)>, descriptors: seq<int>, clean: bool)

  /**
   What a look at the mounted root finds: the bank, the protection of the stage in it, the root
   in the stage, the descriptor of the root already held if there is one, and the two records.
   */
  datatype Mounted = Mounted(
    bank: Identity, bankDevice: int, stageOwner: int, stageMode: int, stageDevice: int,
    root: Identity, held: Option<Identity>, intent: Data, result: Data)

  // ----- Records -----

  /** Events stand in the order of their times, none after `now`. */
  ghost predicate Timed(trace: seq<Event>, now: int) {
    (forall i, j :: 0 <= i < j < |trace| ==> trace[i].at <= trace[j].at)
    && forall i :: 0 <= i < |trace| ==> trace[i].at <= now
  }

  /** `t` is one of the readings taken since. */
  ghost predicate Taken(before: seq<int>, after: seq<int>, t: int) {
    before <= after && exists k :: |before| <= k < |after| && after[k] == t
  }

  /** A reading taken since was before the deadline. */
  ghost predicate InForce(before: seq<int>, after: seq<int>, deadline: int) {
    exists now :: Taken(before, after, now) && now < deadline
  }

  lemma TimedOneMore(trace: seq<Event>, e: Event, now: int, later: int)
    requires Timed(trace, now) && e.at <= later && now <= later
    requires forall i :: 0 <= i < |trace| ==> trace[i].at <= e.at
    ensures Timed(trace + [e], later)
  {
  }

  /** Something may have been added, but no effect. */
  ghost predicate NoActs(before: seq<Event>, after: seq<Event>) {
    before <= after && forall k :: |before| <= k < |after| ==> !after[k].Acted?
  }

  /** Nor was it the end. */
  ghost predicate NothingDone(before: seq<Event>, after: seq<Event>) {
    before <= after && forall k :: |before| <= k < |after| ==> !after[k].Acted? && !after[k].Ended?
  }

  /** The supervisor has not closed. */
  ghost predicate Unended(trace: seq<Event>) {
    forall k :: 0 <= k < |trace| ==> !trace[k].Ended?
  }

  lemma NothingDoneIsNoActs(before: seq<Event>, after: seq<Event>)
    requires NothingDone(before, after)
    ensures NoActs(before, after) && before <= after
  {
  }

  predicate Concerns(e: Event, who: Observer) {
    (e.Asked? || e.Answered?) && e.observer == who
  }

  /** Something may have been added, but no request to this observer and no answer of its. */
  ghost predicate Silent(who: Observer, before: seq<Event>, after: seq<Event>) {
    before <= after && forall k :: |before| <= k < |after| ==> !Concerns(after[k], who)
  }

  lemma NothingDoneSame(trace: seq<Event>)
    ensures NothingDone(trace, trace)
  {
  }

  lemma NothingDoneTwice(a: seq<Event>, b: seq<Event>, c: seq<Event>)
    requires NothingDone(a, b) && NothingDone(b, c)
    ensures NothingDone(a, c)
  {
    forall k | |a| <= k < |c|
      ensures !c[k].Acted? && !c[k].Ended?
    {
      if k < |b| {
        assert c[k] == b[k];
      }
    }
  }

  lemma SilentTwice(who: Observer, a: seq<Event>, b: seq<Event>, c: seq<Event>)
    requires Silent(who, a, b) && Silent(who, b, c)
    ensures Silent(who, a, c)
  {
    forall k | |a| <= k < |c|
      ensures !Concerns(c[k], who)
    {
      if k < |b| {
        assert c[k] == b[k];
      }
    }
  }

  class World {
    var time: int
    ghost var clock: seq<int>
    ghost var trace: seq<Event>
    /** What each poll reported. */
    ghost var polls: seq<seq<Ready>>

    ghost predicate Valid()
      reads this
    {
      Timed(trace, time)
    }

    constructor ()
      ensures Valid() && trace == []
    {
      time := *;
      clock, trace, polls := [], [], [];
    }

    /** A reading of the clock. */
    method Now() returns (t: int)
      requires Valid()
      modifies this`time, this`clock
      ensures Valid() && t == time >= old(time) && clock == old(clock) + [t]
    {
      Pass();
      t := time;
      clock := clock + [t];
    }

    method Pass()
      requires Valid()
      modifies this`time
      ensures Valid() && time >= old(time)
    {
      var passed: int := *;
      time := if passed > 0 then time + passed else time;
    }

    /** Any check or call that may be refused: owner, peer, descriptor, write, native evidence. */
    method Passes() returns (ok: bool)
      requires Valid()
      modifies this`time
      ensures Valid() && time >= old(time)
    {
      Pass();
      ok := *;
    }

    /** A packet from a worker's nonblocking socket, if there is one: what is read is recorded. */
    method Receive() returns (m: Option<Message>)
      requires Valid()
      modifies this`time, this`trace
      ensures Valid() && time >= old(time)
      ensures trace == if m.Some? then old(trace) + [Handed(m.value, time)] else old(trace)
    {
      Pass();
      m := *;
      if m.Some? {
        TimedOneMore(trace, Handed(m.value, time), time, time);
        trace := trace + [Handed(m.value, time)];
      }
    }

    /** A packet from the controller's nonblocking socket, if there is one: what is read is recorded. */
    method Hear() returns (m: Option<Message>)
      requires Valid()
      modifies this`time, this`trace
      ensures Valid() && time >= old(time)
      ensures trace == if m.Some? then old(trace) + [Heard(m.value, time)] else old(trace)
    {
      Pass();
      m := *;
      if m.Some? {
        TimedOneMore(trace, Heard(m.value, time), time, time);
        trace := trace + [Heard(m.value, time)];
      }
    }

    method Poll() returns (ready: seq<Ready>)
      requires Valid()
      modifies this`time, this`polls
      ensures Valid() && time >= old(time) && polls == old(polls) + [ready]
    {
      Pass();
      ready := *;
      polls := polls + [ready];
    }

    /** The native admission check of a boundary. */
    method Admit(boundary: Boundary) returns (ok: bool)
      requires Valid()
      modifies this`time, this`trace
      ensures Valid() && time >= old(time)
      ensures trace == if ok then old(trace) + [Admitted(boundary, time)] else old(trace)
    {
      ok := Passes();
      if ok {
        TimedOneMore(trace, Admitted(boundary, time), time, time);
        trace := trace + [Admitted(boundary, time)];
      }
    }

    /** The user's consent to this plan, which must still stand. */
    method Consent() returns (ok: bool)
      requires Valid()
      modifies this`time, this`trace
      ensures Valid() && time >= old(time)
      ensures trace == if ok then old(trace) + [Consented(time)] else old(trace)
    {
      ok := Passes();
      if ok {
        TimedOneMore(trace, Consented(time), time, time);
        trace := trace + [Consented(time)];
      }
    }

    /** The native admission of what is held, at no boundary of its own. */
    method Retain() returns (ok: bool)
      requires Valid()
      modifies this`time, this`trace
      ensures Valid() && time >= old(time)
      ensures trace == if ok then old(trace) + [Retained(time)] else old(trace)
    {
      ok := Passes();
      if ok {
        TimedOneMore(trace, Retained(time), time, time);
        trace := trace + [Retained(time)];
      }
    }

    /** The reading of the clock by which the effect check judges an observer. */
    method Look(observer: Observer) returns (t: int)
      requires Valid()
      modifies this`time, this`clock, this`trace
      ensures Valid() && t == time >= old(time) && clock == old(clock) + [t]
      ensures trace == old(trace) + [Looked(observer, t)]
    {
      t := Now();
      TimedOneMore(trace, Looked(observer, t), t, t);
      trace := trace + [Looked(observer, t)];
    }

    /** A look at the mounted root, which counts only when it passes the test. */
    method Inspect(proper: Mounted -> bool) returns (found: Option<Mounted>)
      requires Valid()
      modifies this`time, this`trace
      ensures Valid() && time >= old(time) && (found.Some? ==> proper(found.value))
      ensures trace == if found.Some? then old(trace) + [Seen(found.value, time)] else old(trace)
    {
      Pass();
      found := *;
      if found.Some? && !proper(found.value) {
        found := None;
      }
      if found.Some? {
        TimedOneMore(trace, Seen(found.value, time), time, time);
        trace := trace + [Seen(found.value, time)];
      }
    }

    /** An effect counts as done as soon as it is attempted, even when the call then fails. */
    method Send(kind: Kind) returns (ok: bool)
      requires Valid()
      modifies this`time, this`trace
      ensures Valid() && time >= old(time) && trace == old(trace) + [Acted(kind, old(time))]
    {
      TimedOneMore(trace, Acted(kind, time), time, time);
      trace := trace + [Acted(kind, time)];
      ok := Passes();
    }

    /** A boundary begins. */
    ghost method Begin(boundary: Boundary)
      requires Valid()
      modifies this`trace
      ensures Valid() && trace == old(trace) + [Began(boundary, time)]
    {
      TimedOneMore(trace, Began(boundary, time), time, time);
      trace := trace + [Began(boundary, time)];
    }

    /** The supervisor closes. */
    ghost method End()
      requires Valid()
      modifies this`trace
      ensures Valid() && trace == old(trace) + [Ended(time)]
    {
      TimedOneMore(trace, Ended(time), time, time);
      trace := trace + [Ended(time)];
    }

    /** A request, which carries the reading of the clock it was made at. */
    ghost method Ask(observer: Observer, sequence: nat, at: int, since: int)
      requires Valid() && at in clock && since <= at <= time
      requires Timed(trace, since)
      modifies this`trace
      ensures Valid() && trace == old(trace) + [Asked(observer, sequence, at)]
    {
      TimedOneMore(trace, Asked(observer, sequence, at), since, time);
      trace := trace + [Asked(observer, sequence, at)];
    }

    /** An answer, to a request that was made before what it reports. */
    ghost method Answer(observer: Observer, o: Observation, asked: nat)
      requires Valid() && asked < |trace| && trace[asked].Asked?
      requires trace[asked] == Asked(observer, o.sequence, trace[asked].at)
      requires trace[asked].at <= o.started <= o.finished <= time
      modifies this`trace
      ensures Valid() && trace == old(trace) + [Answered(observer, o, time)]
    {
      TimedOneMore(trace, Answered(observer, o, time), time, time);
      trace := trace + [Answered(observer, o, time)];
    }
  }

  /** The pipe from an observer's helper, with every chunk that was ever read from it. */
  class Pipe {
    ghost var taken: seq<Data>

    constructor ()
      ensures taken == []
    {
      taken := [];
    }

    /** Bytes from a nonblocking pipe: nothing yet, its end as no bytes, or at most `limit`. */
    method Read(limit: nat) returns (data: Option<Data>)
      modifies this
      ensures data.Some? ==> |data.value| <= limit
      ensures taken == if data.Some? then old(taken) + [data.value] else old(taken)
    {
      data := *;
      if data.Some? && |data.value| > limit {
        data := Some(data.value[..limit]);
      }
      if data.Some? {
        taken := taken + [data.value];
      }
    }
  }
}
