/**
 The root supervisor of native/root_supervisor.py: it interleaves the operator and
 supply observers, the controller session and up to two handoff channels, and lets
 an effect happen only on observations made for that effect's own boundary.
 */
module Supervisor {

  import opened NiaCommon
  import opened Observers
  import opened ObserverTrace
  import opened EffectPermits
  import opened Scopes
  import Environment
  import Handoff
  import Channels
  import RootSession
  import OperatorGuard
  import SupplyGuard

  const RECHECK_MS: int := 250
  const MAX_EVENTS: nat := 16_384
  const MAX_REPLIES: nat := 1200

  /** One step of an observer: nothing, the answer to its open check, or a new check
      when none is open and it is time. */
  ghost predicate Stepped(who: Environment.Observer, phase: Phase, nextCheck: int, before: Trace, after: Trace) {
    after == before
    || (|after| == |before| + 1 && before <= after
        && if phase == Pending then after[|before|].Answered? && after[|before|].observer == who
           else
             && (phase == New || phase == Observed)
             && after[|before|].Asked? && after[|before|].observer == who && nextCheck <= after[|before|].at)
  }

  /** The consent, and then the admission of what is held. */
  ghost predicate Upheld(before: Trace, after: Trace) {
    |after| == |before| + 2
    && after == before + [Environment.Consented(after[|before|].at), Environment.Retained(after[|before| + 1].at)]
  }

  /** Those, and then the effect check's two readings, each at most a second after what it judges. */
  ghost predicate JudgedNow(before: Trace, after: Trace, operatorFinished: int, supplyFinished: int) {
    |after| == |before| + 4
    && after == before + [Environment.Consented(after[|before|].at), Environment.Retained(after[|before| + 1].at),
                          Environment.Looked(Environment.Operator, after[|before| + 2].at),
                          Environment.Looked(Environment.Supply, after[|before| + 3].at)]
    && 0 <= after[|before| + 2].at - operatorFinished <= EFFECT_MS
    && 0 <= after[|before| + 3].at - supplyFinished <= EFFECT_MS
  }

  /** No effects but these were added, in this order, and all of them when it went well. */
  ghost predicate InTurn(before: Trace, after: Trace, kinds: seq<Environment.Kind>, all: bool) {
    Done(before) <= Done(after) <= Done(before) + kinds && (all ==> Done(after) == Done(before) + kinds)
  }

  /** Nothing asked of either observer, and nothing done. */
  ghost predicate Quiet(before: Trace, after: Trace) {
    Environment.NothingDone(before, after)
    && Environment.Silent(Environment.Operator, before, after) && Environment.Silent(Environment.Supply, before, after)
  }

  /** Nothing that concerns anybody's own state was added, and nothing from before `from`. */
  ghost predicate Calm(before: Trace, after: Trace, from: int) {
    Quiet(before, after) && RootSession.Untouched(before, after)
    && forall k :: |before| <= k < |after| ==> from <= after[k].at
  }

  lemma CalmSame(trace: Trace, from: int)
    ensures Calm(trace, trace, from)
  {
  }

  lemma CalmMore(before: Trace, trace: Trace, e: Environment.Event, from: int)
    requires Calm(before, trace, from) && from <= e.at
    requires e.Consented? || e.Retained? || e.Looked?
    ensures Calm(before, trace + [e], from)
  {
    QuietEvent(trace, e);
    QuietTwice(before, trace, trace + [e]);
  }

  lemma CalmTwice(a: Trace, b: Trace, c: Trace, from: int, later: int)
    requires Calm(a, b, from) && Calm(b, c, later) && from <= later
    ensures Calm(a, c, from)
  {
    QuietTwice(a, b, c);
    assert forall k :: 0 <= k < |b| ==> c[k] == b[k];
  }

  lemma CalmIsQuiet(before: Trace, after: Trace, from: int)
    requires Calm(before, after, from)
    ensures Quiet(before, after) && RootSession.Untouched(before, after) && Environment.NothingDone(before, after)
    ensures before <= after
  {
  }

  /** A report that a wait must not pass over: a fault, what it waits for, or the controller. */
  predicate Matters(r: Environment.Ready, target: Option<int>, controller: Option<int>) {
    r.invalid || target == Some(r.descriptor) || controller == Some(r.descriptor)
  }

  predicate Uneventful(ready: seq<Environment.Ready>, target: Option<int>, controller: Option<int>) {
    forall i :: 0 <= i < |ready| ==> !Matters(ready[i], target, controller)
  }

  /** The first report that matters is that the target is ready. */
  ghost predicate Woken(ready: seq<Environment.Ready>, target: Option<int>, controller: Option<int>) {
    exists i :: 0 <= i < |ready| && Uneventful(ready[..i], target, controller)
                && !ready[i].invalid && target == Some(ready[i].descriptor)
  }

  /** Every poll of a wait was uneventful, but that the last one may have woken it. */
  ghost predicate Attended(before: seq<seq<Environment.Ready>>, after: seq<seq<Environment.Ready>>,
                           target: Option<int>, controller: Option<int>, woken: bool)
  {
    && before <= after && (woken ==> |before| < |after|)
    && forall k :: |before| <= k < |after| ==>
         if woken && k == |after| - 1 then Woken(after[k], target, controller)
         else Uneventful(after[k], target, controller)
  }

  lemma AttendedNot(polls: seq<seq<Environment.Ready>>, target: Option<int>, controller: Option<int>)
    ensures Attended(polls, polls, target, controller, false)
  {
  }

  lemma AttendedTwice(a: seq<seq<Environment.Ready>>, b: seq<seq<Environment.Ready>>, c: seq<seq<Environment.Ready>>,
                      target: Option<int>, controller: Option<int>, woken: bool)
    requires Attended(a, b, target, controller, false) && Attended(b, c, target, controller, woken)
    ensures Attended(a, c, target, controller, woken)
  {
    hide Uneventful, Woken;
    assert forall k :: 0 <= k < |b| ==> c[k] == b[k];
  }

  lemma QuietSame(trace: Trace)
    ensures Quiet(trace, trace) && RootSession.Untouched(trace, trace)
  {
  }

  lemma QuietTwice(a: Trace, b: Trace, c: Trace)
    requires Quiet(a, b) && Quiet(b, c)
    ensures Quiet(a, c)
  {
    hide Environment.NothingDone, Environment.Silent;
    Environment.NothingDoneTwice(a, b, c);
    Environment.SilentTwice(Environment.Operator, a, b, c);
    Environment.SilentTwice(Environment.Supply, a, b, c);
  }

  lemma QuietEvent(trace: Trace, e: Environment.Event)
    requires !e.Asked? && !e.Answered? && !e.Acted? && !e.Ended?
    ensures Quiet(trace, trace + [e])
    ensures !e.Seen? && !e.Heard? ==> RootSession.Untouched(trace, trace + [e])
  {
  }

  lemma SteppedOthers(who: Environment.Observer, phase: Phase, nextCheck: int, before: Trace, after: Trace,
                      other: Environment.Observer)
    requires Stepped(who, phase, nextCheck, before, after) && other != who
    ensures Environment.NothingDone(before, after) && Environment.Silent(other, before, after)
  {
  }

  class Supervisor {
    const env: Environment.World
    const session: RootSession.Session
    const operator: OperatorGuard.Guard
    const supply: SupplyGuard.Guard
    var channels: seq<Channels.Channel>
    var closed: bool
    var observation: nat
    var observedAt: int
    var nextCheck: int
    var supplyObservation: nat
    var supplyObservedAt: int
    var nextSupplyCheck: int

    ghost predicate Linked()
      reads this
    {
      session.env == env && operator.env == env && supply.env == env && operator.pipe != supply.pipe
      && |channels| <= 2 && (forall c :: c in channels ==> c.env == env)
    }

    /** The supervisor knows exactly the last observation of each observer. */
    ghost predicate Informed()
      reads this, operator, supply
    {
      && observation == |operator.history| && supplyObservation == |supply.history|
      && (observation > 0 ==> observedAt == operator.history[observation - 1].finished)
      && (supplyObservation > 0 ==> supplyObservedAt == supply.history[supplyObservation - 1].finished)
    }

    /** Whatever was done so far was done with a permit, and the supervisor is closed once it has ended. */
    ghost predicate Inv(t: int, trace: Trace)
      reads this, session, operator, supply, operator.pipe, supply.pipe
    {
      Linked() && Informed() && Parts(t, trace) && Sound(trace) && (closed <==> !Environment.Unended(trace))
    }

    ghost predicate Parts(t: int, trace: Trace)
      reads session, operator, supply, operator.pipe, supply.pipe
    {
      session.Inv(trace) && operator.Inv(t, trace) && supply.Inv(t, trace)
    }

    ghost predicate Valid()
      reads this, session, operator, supply, operator.pipe, supply.pipe, env
    {
      env.Valid() && Inv(env.time, env.trace)
    }

    lemma Lift(t: int, trace: Trace, now: int, later: Trace)
      requires Inv(t, trace) && t <= now && Quiet(trace, later) && RootSession.Untouched(trace, later)
      ensures Inv(now, later)
    {
      hide OperatorGuard.Guard.Inv, SupplyGuard.Guard.Inv, RootSession.Session.Inv, Sound, Linked, Informed;
      hide RootSession.Untouched, Environment.Unended;
      operator.Lift(t, trace, now, later);
      supply.Lift(t, trace, now, later);
      session.Lift(trace, later);
      SoundLater(trace, later);
    }

    lemma Tick(t: int, now: int, trace: Trace)
      requires Inv(t, trace) && t <= now
      ensures Inv(now, trace)
    {
      hide Inv, Quiet;
      QuietSame(trace);
      Lift(t, trace, now, trace);
    }

    constructor (env: Environment.World, session: RootSession.Session, operator: OperatorGuard.Guard,
                 supply: SupplyGuard.Guard, now: int)
      requires session.env == env && operator.env == env && supply.env == env && operator.pipe != supply.pipe
      requires env.Valid() && env.trace == []
      requires session.Inv([]) && operator.Inv(env.time, []) && supply.Inv(env.time, [])
      requires session.phase == RootSession.New && operator.phase == New && supply.phase == New
      ensures Valid() && !closed && channels == []
      ensures this.env == env && this.session == session && this.operator == operator && this.supply == supply
    {
      hide OperatorGuard.Guard.Inv, SupplyGuard.Guard.Inv, RootSession.Session.Inv, Ordered, Before, Traced;
      hide SupplyGuard.Climbing;
      operator.Counts(env.time, []);
      supply.Counts(env.time, []);
      this.env, this.session, this.operator, this.supply := env, session, operator, supply;
      channels, closed := [], false;
      observation, observedAt, nextCheck := 0, 0, now;
      supplyObservation, supplyObservedAt, nextSupplyCheck := 0, 0, now;
    }

    // ----- Still current -----

    static method ChannelsCurrent(env: Environment.World, channels: seq<Channels.Channel>) returns (ok: bool)
      requires env.Valid() && forall c :: c in channels ==> c.env == env
      modifies env`time, env`clock
      ensures env.Valid() && old(env.time) <= env.time
    {
      hide Environment.Timed, Environment.InForce;
      var i := 0;
      while i < |channels|
        invariant env.Valid() && old(env.time) <= env.time
      {
        ok := channels[i].Alive();
        if !ok {
          return false;
        }
        if channels[i].phase == Handoff.Received || channels[i].phase == Handoff.Complete {
          ok := channels[i].Current();
          if !ok {
            return false;
          }
        } else if channels[i].phase != Handoff.Ready {
          return false;
        }
        i := i + 1;
      }
      return true;
    }

    /** Everything the supervisor holds is still there; a lost observer fails. */
    method Current() returns (ok: bool)
      requires Valid()
      modifies operator`phase, supply`phase, env`time, env`clock, env`trace
      ensures Valid() && old(env.time) <= env.time && Calm(old(env.trace), env.trace, old(env.time))
      ensures ok ==> !closed && operator.phase == old(operator.phase) && supply.phase == old(supply.phase)
      ensures ok ==> Upheld(old(env.trace), env.trace) && RootSession.Live(session.phase)
    {
      hide Inv, Calm, Environment.Timed;
      CalmSame(env.trace, env.time);
      if closed {
        return false;
      }
      ghost var before, from := env.trace, env.time;
      ok := Holders();
      if ok {
        ghost var middle, later := env.trace, env.time;
        ok := Observers();
        CalmTwice(before, middle, env.trace, from, later);
      }
    }

    /** The session is alive and the consent stands. */
    method Holders() returns (ok: bool)
      requires Valid()
      modifies env`time, env`clock, env`trace
      ensures Valid() && old(env.time) <= env.time && Calm(old(env.trace), env.trace, old(env.time))
      ensures ok ==> RootSession.Live(session.phase)
                     && |env.trace| == |old(env.trace)| + 1
                     && env.trace == old(env.trace) + [Environment.Consented(env.trace[|old(env.trace)|].at)]
    {
      hide Inv, Environment.InForce, Environment.Timed, Calm, Quiet;
      ghost var t, trace := env.time, env.trace;
      Linking();
      var owner := env.Passes();
      var live := session.Current();
      var consent := env.Consent();
      CalmSame(trace, t);
      if consent {
        CalmMore(trace, trace, env.trace[|trace|], t);
      }
      CalmIsQuiet(trace, env.trace, t);
      Lift(t, trace, env.time, env.trace);
      return owner && live && consent;
    }

    /** Both observers answer for themselves; others are kept as they were. */
    method Described() returns (ok: bool)
      requires Valid()
      modifies operator`phase, supply`phase, env`time, env`clock
      ensures Valid() && old(env.time) <= env.time
      ensures ok ==> operator.phase == old(operator.phase) && supply.phase == old(supply.phase)
    {
      hide OperatorGuard.Guard.Inv, SupplyGuard.Guard.Inv, RootSession.Session.Inv, Sound, Environment.Timed;
      ghost var t := env.time;
      ok := operator.Descriptors();
      AskNobody(env.trace);
      supply.Lift(t, env.trace, env.time, env.trace);
      if !ok {
        return false;
      }
      t := env.time;
      ok := supply.Descriptors();
      operator.Lift(t, env.trace, env.time, env.trace);
    }

    /** The observers and channels are current, and what is held is admitted. */
    method Observers() returns (ok: bool)
      requires Valid()
      modifies operator`phase, supply`phase, env`time, env`clock, env`trace
      ensures Valid() && old(env.time) <= env.time && Calm(old(env.trace), env.trace, old(env.time))
      ensures ok ==> operator.phase == old(operator.phase) && supply.phase == old(supply.phase)
      ensures ok ==> |env.trace| == |old(env.trace)| + 1
                     && env.trace == old(env.trace) + [Environment.Retained(env.trace[|old(env.trace)|].at)]
    {
      hide Sound, Informed, Parts, Environment.Timed, Calm, Environment.Unended;
      ghost var from, trace := env.time, env.trace;
      CalmSame(trace, from);
      ok := Described();
      if !ok {
        return false;
      }
      ghost var t := env.time;
      ok := ChannelsCurrent(env, channels);
      var admitted := env.Retain();
      if admitted {
        CalmMore(trace, trace, env.trace[|trace|], from);
      }
      CalmIsQuiet(trace, env.trace, from);
      Lift(t, trace, env.time, env.trace);
      return ok && admitted;
    }

    // ----- Driving the observers -----

    /** Takes the operator's reply, or asks again when it is time. */
    static method AskOperator(operator: OperatorGuard.Guard, nextCheck: int)
      returns (ok: bool, accepted: Option<Observation>)
      requires operator.Valid()
      modifies operator, operator.pipe, operator.env`time, operator.env`clock, operator.env`trace
      ensures operator.Valid() && old(operator.env.time) <= operator.env.time
      ensures Stepped(OperatorGuard.ME, old(operator.phase), nextCheck, old(operator.env.trace), operator.env.trace)
      ensures Extended(old(operator.asked), operator.asked, |old(operator.env.trace)|)
      ensures match accepted
              case None => operator.history == old(operator.history)
              case Some(o) => operator.history == old(operator.history) + [o] && o.sequence == |operator.history|
    {
      hide Ordered, Before, Traced, InTime, OperatorGuard.Guard.Inv, OperatorGuard.Received, Environment.Timed;
      ok, accepted := true, None;
      if operator.phase == Pending {
        var reply := operator.Receive();
        match reply {
          case Rejected => ok := false;
          case Nothing =>
          case Accepted(o) => accepted := Some(o);
        }
      } else {
        ghost var t := operator.env.time;
        var now := operator.env.Now();
        AskNobody(operator.env.trace);
        operator.Lift(t, operator.env.trace, operator.env.time, operator.env.trace);
        if now >= nextCheck {
          ok := operator.RequestCheck();
        }
      }
      operator.Counts(operator.env.time, operator.env.trace);
    }

    static method AskSupply(supply: SupplyGuard.Guard, nextCheck: int)
      returns (ok: bool, accepted: Option<Observation>)
      requires supply.Valid()
      modifies supply, supply.pipe, supply.env`time, supply.env`clock, supply.env`trace
      ensures supply.Valid() && old(supply.env.time) <= supply.env.time
      ensures Stepped(SupplyGuard.ME, old(supply.phase), nextCheck, old(supply.env.trace), supply.env.trace)
      ensures Extended(old(supply.asked), supply.asked, |old(supply.env.trace)|)
      ensures match accepted
              case None => supply.history == old(supply.history)
              case Some(o) => supply.history == old(supply.history) + [o] && o.sequence == |supply.history|
    {
      hide Ordered, Before, Traced, InTime, SupplyGuard.Guard.Inv, SupplyGuard.Received, Environment.Timed;
      hide SupplyGuard.Climbing;
      ok, accepted := true, None;
      if supply.phase == Pending {
        var reply := supply.Receive();
        match reply {
          case Rejected => ok := false;
          case Nothing =>
          case Accepted(o, utc) => accepted := Some(o);
        }
      } else {
        ghost var t := supply.env.time;
        var now := supply.env.Now();
        AskNobody(supply.env.trace);
        supply.Lift(t, supply.env.trace, supply.env.time, supply.env.trace);
        if now >= nextCheck {
          ok := supply.RequestCheck();
        }
      }
      supply.Counts(supply.env.time, supply.env.trace);
    }

    /** One step of the operator observer, of which the supervisor keeps the last observation. */
    method OperatorStep() returns (ok: bool)
      requires Valid()
      modifies operator, operator.pipe, this`observation, this`observedAt, this`nextCheck
      modifies env`time, env`clock, env`trace
      ensures Valid() && old(env.time) <= env.time
      ensures Stepped(Environment.Operator, old(operator.phase), old(nextCheck), old(env.trace), env.trace)
      ensures Extended(old(operator.asked), operator.asked, |old(env.trace)|)
      ensures if operator.history == old(operator.history) then nextCheck == old(nextCheck)
              else nextCheck == Earliest(operator.deadline, observedAt + RECHECK_MS)
    {
      hide Stepped, Ordered, Before, Extended, Earliest, Sound, Environment.Timed;
      hide OperatorGuard.Guard.Inv, SupplyGuard.Guard.Inv, RootSession.Session.Inv;
      ghost var t, trace, phase := env.time, env.trace, operator.phase;
      var accepted;
      ok, accepted := AskOperator(operator, nextCheck);
      Others(Environment.Operator, phase, nextCheck, trace, Environment.Supply);
      if accepted.Some? {
        var o := accepted.value;
        observation, observedAt, nextCheck := o.sequence, o.finished,
          Earliest(operator.deadline, o.finished + RECHECK_MS);
      }
      supply.Lift(t, trace, env.time, env.trace);
      session.Lift(trace, env.trace);
      SoundLater(trace, env.trace);
    }

    method SupplyStep() returns (ok: bool)
      requires Valid()
      modifies supply, supply.pipe, this`supplyObservation, this`supplyObservedAt, this`nextSupplyCheck
      modifies env`time, env`clock, env`trace
      ensures Valid() && old(env.time) <= env.time
      ensures Stepped(Environment.Supply, old(supply.phase), old(nextSupplyCheck), old(env.trace), env.trace)
      ensures Extended(old(supply.asked), supply.asked, |old(env.trace)|)
      ensures if supply.history == old(supply.history) then nextSupplyCheck == old(nextSupplyCheck)
              else nextSupplyCheck == Earliest(supply.deadline, supplyObservedAt + RECHECK_MS)
    {
      hide Stepped, Ordered, Before, Extended, Earliest, Sound, Environment.Timed;
      hide OperatorGuard.Guard.Inv, SupplyGuard.Guard.Inv, RootSession.Session.Inv;
      ghost var t, trace, phase := env.time, env.trace, supply.phase;
      var accepted;
      ok, accepted := AskSupply(supply, nextSupplyCheck);
      Others(Environment.Supply, phase, nextSupplyCheck, trace, Environment.Operator);
      if accepted.Some? {
        var o := accepted.value;
        supplyObservation, supplyObservedAt := o.sequence, o.finished;
        nextSupplyCheck := Earliest(supply.deadline, o.finished + RECHECK_MS);
      }
      operator.Lift(t, trace, env.time, env.trace);
      session.Lift(trace, env.trace);
      SoundLater(trace, env.trace);
    }

    lemma Others(who: Environment.Observer, phase: Phase, next: int, before: Trace, other: Environment.Observer)
      requires Stepped(who, phase, next, before, env.trace) && other != who
      ensures Environment.NothingDone(before, env.trace) && Environment.Silent(other, before, env.trace)
      ensures RootSession.Untouched(before, env.trace)
    {
      SteppedOthers(who, phase, next, before, env.trace, other);
    }

    // ----- Waiting -----

    ghost predicate Reached(sequence: Option<int>, supplySequence: Option<int>)
      reads this, operator, supply
    {
      (sequence.Some? ==> observation > sequence.value)
      && (supplySequence.Some? ==> supplyObservation > supplySequence.value)
      && operator.phase == Observed && supply.phase == Observed
    }

    /** New requests stand after `since`, and nothing was done. */
    ghost predicate Waited(before: Trace, asked: seq<nat>, supplyAsked: seq<nat>)
      reads operator, supply, env
    {
      Environment.NothingDone(before, env.trace)
      && Extended(asked, operator.asked, |before|) && Extended(supplyAsked, supply.asked, |before|)
    }

    lemma WaitedTwice(a: Trace, asked: seq<nat>, supplyAsked: seq<nat>, b: Trace, asked2: seq<nat>,
                      supplyAsked2: seq<nat>)
      requires Environment.NothingDone(a, b) && Extended(asked, asked2, |a|) && Extended(supplyAsked, supplyAsked2, |a|)
      requires Waited(b, asked2, supplyAsked2)
      ensures Waited(a, asked, supplyAsked)
    {
      hide Extended;
      Environment.NothingDoneTwice(a, b, env.trace);
      ExtendedTwice(asked, asked2, operator.asked, |a|, |b|);
      ExtendedTwice(supplyAsked, supplyAsked2, supply.asked, |a|, |b|);
    }

    /** More was added, but no effect, and nobody was asked. */
    lemma WaitedStill(before: Trace, asked: seq<nat>, supplyAsked: seq<nat>, middle: Trace)
      requires Environment.NothingDone(before, middle) && Environment.NothingDone(middle, env.trace)
      requires Extended(asked, operator.asked, |before|) && Extended(supplyAsked, supply.asked, |before|)
      ensures Waited(before, asked, supplyAsked)
    {
      hide Extended;
      Environment.NothingDoneTwice(before, middle, env.trace);
    }

    lemma WaitedNot()
      ensures Waited(env.trace, operator.asked, supply.asked)
    {
    }

    /** What a poll watches besides the target; asking also checks the observers and the session. */
    method Watched() returns (ok: bool, controller: Option<int>)
      requires Valid()
      modifies operator`phase, supply`phase, env`time, env`clock
      ensures Valid() && old(env.time) <= env.time && (ok ==> controller == session.peer)
    {
      hide Sound, Informed, Parts, Environment.Timed;
      controller := None;
      ok := Described();
      if !ok {
        return;
      }
      ghost var t := env.time;
      ok, controller := session.Descriptor();
      Tick(t, env.time, env.trace);
    }

    /** One poll: whether it ends the wait, and if so whether the wait succeeded. */
    method Polled(target: Option<int>) returns (done: bool, ok: bool)
      requires Valid()
      modifies operator`phase, supply`phase, env`time, env`clock, env`trace, env`polls
      ensures Valid() && old(env.time) <= env.time && Environment.NothingDone(old(env.trace), env.trace)
      ensures done && ok ==> target.Some?
      ensures ok || done
      ensures ok ==> |env.polls| == |old(env.polls)| + 1
                     && Attended(old(env.polls), env.polls, target, session.peer, done)
    {
      hide Inv, Environment.Timed, Environment.NothingDone, Calm, Upheld;
      Environment.NothingDoneSame(env.trace);
      var controller, ready;
      ok, controller := Watched();
      if !ok {
        return true, false;
      }
      ghost var t := env.time;
      ready := env.Poll();
      Tick(t, env.time, env.trace);
      ghost var trace, from := env.trace, env.time;
      ok := Current();
      CalmIsQuiet(trace, env.trace, from);
      if !ok {
        return true, false;
      }
      done, ok := Judge(ready, target, controller);
    }

    /** What the reports of one poll mean for the wait. */
    static method Judge(ready: seq<Environment.Ready>, target: Option<int>, controller: Option<int>)
      returns (done: bool, ok: bool)
      ensures ok ==> if done then Woken(ready, target, controller) else Uneventful(ready, target, controller)
      ensures !ok ==> done && !Woken(ready, target, controller) && !Uneventful(ready, target, controller)
    {
      for i := 0 to |ready|
        invariant Uneventful(ready[..i], target, controller)
      {
        assert forall j :: i < j < |ready| ==> ready[..j][i] == ready[i];
        if ready[i].invalid {
          return true, false;
        }
        if target == Some(ready[i].descriptor) {
          return true, true;
        }
        if controller == Some(ready[i].descriptor) {
          return true, false;
        }
      }
      assert ready[..|ready|] == ready;
      return false, true;
    }

    /** Both observers' steps, between two looks at everything that is held. */
    method Steps() returns (ok: bool)
      requires Valid()
      modifies operator, supply, operator.pipe, supply.pipe
      modifies this`observation, this`observedAt, this`nextCheck,
               this`supplyObservation, this`supplyObservedAt, this`nextSupplyCheck, env`time, env`clock, env`trace
      ensures Valid() && old(env.time) <= env.time
      ensures Waited(old(env.trace), old(operator.asked), old(supply.asked))
      ensures ok ==> !closed
    {
      hide Inv, Extended, Environment.Timed, Environment.NothingDone, Calm, Upheld;
      ghost var before, asked, supplyAsked := env.trace, operator.asked, supply.asked;
      ExtendedSame(asked, |before|);
      ExtendedSame(supplyAsked, |before|);
      ghost var from := env.time;
      ok := Current();
      CalmIsQuiet(before, env.trace, from);
      if !ok {
        return;
      }
      ghost var middle, asked2, supplyAsked2 := env.trace, operator.asked, supply.asked;
      ok := BothSteps();
      WaitedTwice(before, asked, supplyAsked, middle, asked2, supplyAsked2);
      if !ok {
        return;
      }
      ghost var trace, asked3, supplyAsked3 := env.trace, operator.asked, supply.asked;
      from := env.time;
      ok := Current();
      CalmIsQuiet(trace, env.trace, from);
      WaitedStill(before, asked, supplyAsked, trace);
    }

    method BothSteps() returns (ok: bool)
      requires Valid()
      modifies operator, supply, operator.pipe, supply.pipe
      modifies this`observation, this`observedAt, this`nextCheck,
               this`supplyObservation, this`supplyObservedAt, this`nextSupplyCheck, env`time, env`clock, env`trace
      ensures Valid() && old(env.time) <= env.time
      ensures Waited(old(env.trace), old(operator.asked), old(supply.asked))
    {
      hide Inv, Extended, Environment.Timed, Stepped, Environment.NothingDone, Environment.Silent;
      ExtendedSame(operator.asked, |env.trace|);
      ExtendedSame(supply.asked, |env.trace|);
      ghost var before, phase, next, asked := env.trace, operator.phase, nextCheck, supply.asked;
      ok := OperatorStep();
      SteppedOthers(Environment.Operator, phase, next, before, env.trace, Environment.Supply);
      if !ok {
        return;
      }
      ghost var middle, phase2, next2 := env.trace, supply.phase, nextSupplyCheck;
      ok := SupplyStep();
      SteppedOthers(Environment.Supply, phase2, next2, middle, env.trace, Environment.Operator);
      Environment.NothingDoneTwice(before, middle, env.trace);
      ExtendedSince(asked, supply.asked, |before|, |middle|);
    }

    method Turn(target: Option<int>, sequence: Option<int>, supplySequence: Option<int>) returns (done: bool, ok: bool)
      requires Valid()
      modifies operator, supply, operator.pipe, supply.pipe
      modifies this`observation, this`observedAt, this`nextCheck,
               this`supplyObservation, this`supplyObservedAt, this`nextSupplyCheck
      modifies env`time, env`clock, env`trace, env`polls
      ensures Valid() && old(env.time) <= env.time
      ensures Waited(old(env.trace), old(operator.asked), old(supply.asked))
      ensures done && ok && target.None? ==> Reached(sequence, supplySequence)
      ensures ok || done
      ensures ok ==> !closed && exists woken :: Attended(old(env.polls), env.polls, target, session.peer, woken)
                                               && (woken ==> done)
                                               && (done && sequence.None? && supplySequence.None? ==> woken)
    {
      hide Inv, Extended, Environment.Timed, Environment.NothingDone;
      ghost var before, asked, supplyAsked := env.trace, operator.asked, supply.asked;
      ok := Steps();
      if !ok {
        return true, false;
      }
      if (sequence.Some? || supplySequence.Some?)
         && (sequence.None? || observation > sequence.value)
         && (supplySequence.None? || supplyObservation > supplySequence.value)
         && operator.phase == Observed && supply.phase == Observed {
        assert Attended(old(env.polls), env.polls, target, session.peer, false);
        return true, true;
      }
      ghost var middle := env.trace;
      done, ok := Polled(target);
      WaitedStill(before, asked, supplyAsked, middle);
    }

    /** Keeps the observers going until the target is readable or both reach their sequence numbers. */
    method Wait(target: Option<int>, sequence: Option<int>, supplySequence: Option<int>) returns (ok: bool)
      requires Valid()
      modifies operator, supply, operator.pipe, supply.pipe
      modifies this`observation, this`observedAt, this`nextCheck,
               this`supplyObservation, this`supplyObservedAt, this`nextSupplyCheck
      modifies env`time, env`clock, env`trace, env`polls
      ensures Valid() && old(env.time) <= env.time
      ensures Waited(old(env.trace), old(operator.asked), old(supply.asked))
      ensures ok && target.None? ==> Reached(sequence, supplySequence)
      ensures ok ==> !closed && exists woken :: Attended(old(env.polls), env.polls, target, session.peer, woken)
                                               && (sequence.None? && supplySequence.None? ==> woken)
    {
      hide Inv, Environment.Timed, Environment.NothingDone, Extended, Attended;
      WaitedNot();
      AttendedNot(env.polls, target, session.peer);
      var turns := 0;
      while turns < MAX_EVENTS
        invariant Valid() && old(env.time) <= env.time
        invariant Waited(old(env.trace), old(operator.asked), old(supply.asked))
        invariant Attended(old(env.polls), env.polls, target, session.peer, false)
      {
        ghost var trace, asked, supplyAsked, polls := env.trace, operator.asked, supply.asked, env.polls;
        var done;
        done, ok := Turn(target, sequence, supplySequence);
        if ok {
          ghost var woken :| Attended(polls, env.polls, target, session.peer, woken) && (woken ==> done)
            && (done && sequence.None? && supplySequence.None? ==> woken);
          AttendedTwice(old(env.polls), polls, env.polls, target, session.peer, woken);
        }
        WaitedTwice(old(env.trace), old(operator.asked), old(supply.asked), trace, asked, supplyAsked);
        if done {
          return;
        }
        turns := turns + 1;
      }
      return false;
    }

    // ----- Checkpoints -----

    /**
     The two readings of the clock by which both observations are judged: each is the time of
     the reading itself, taken here, and at most a second after what it judges. Right before
     them stand the consent and the admission of what is held.
     */
    method EffectCurrent() returns (ok: bool)
      requires Valid()
      modifies operator`phase, supply`phase, env`time, env`clock, env`trace
      ensures Valid() && old(env.time) <= env.time && Calm(old(env.trace), env.trace, old(env.time))
      ensures ok ==> !closed && operator.phase == Observed && supply.phase == Observed
      ensures ok ==> observation > 0 && supplyObservation > 0 && RootSession.Live(session.phase)
                     && JudgedNow(old(env.trace), env.trace, observedAt, supplyObservedAt)
    {
      hide Inv, Calm, Environment.Timed;
      ghost var before, from := env.trace, env.time;
      ok := Current();
      if !ok || operator.phase != Observed || observation == 0 {
        return false;
      }
      var now := Reading(before, from, Environment.Operator);
      if !(0 <= now - observedAt <= EFFECT_MS) || supply.phase != Observed || supplyObservation == 0 {
        return false;
      }
      now := Reading(before, from, Environment.Supply);
      ok := 0 <= now - supplyObservedAt <= EFFECT_MS;
    }

    /** A reading of the clock that stands in the record. */
    method Reading(ghost before: Trace, ghost from: int, observer: Environment.Observer) returns (now: int)
      requires Valid() && Calm(before, env.trace, from) && from <= env.time
      modifies env`time, env`clock, env`trace
      ensures Valid() && Calm(before, env.trace, from) && old(env.time) <= env.time == now
      ensures env.trace == old(env.trace) + [Environment.Looked(observer, now)]
    {
      hide Inv, Calm, Environment.Timed, Quiet;
      ghost var t, trace := env.time, env.trace;
      now := env.Look(observer);
      CalmMore(before, trace, env.trace[|trace|], from);
      QuietEvent(trace, env.trace[|trace|]);
      Lift(t, trace, env.time, env.trace);
    }

    /** Checks that were already open end first: they are not this boundary's own. */
    method Settle() returns (ok: bool)
      requires Valid()
      modifies operator, supply, operator.pipe, supply.pipe
      modifies this`observation, this`observedAt, this`nextCheck,
               this`supplyObservation, this`supplyObservedAt, this`nextSupplyCheck
      modifies env`time, env`clock, env`trace, env`polls
      ensures Valid() && old(env.time) <= env.time && Environment.NothingDone(old(env.trace), env.trace)
      ensures ok ==> operator.phase != Pending && supply.phase != Pending
    {
      hide Inv, Extended, Environment.Timed, Environment.NothingDone, Calm, Upheld;
      ghost var before, from := env.trace, env.time;
      ok := Current();
      CalmIsQuiet(before, env.trace, from);
      if ok && (operator.phase == Pending || supply.phase == Pending) {
        ghost var middle := env.trace;
        ok := Wait(None, Some(operator.sequence - 1), Some(supply.sequence - 1));
        Environment.NothingDoneTwice(before, middle, env.trace);
      }
    }

    /** Asks both observers afresh, one after the other. */
    method RequestBoth() returns (ok: bool)
      requires Valid()
      modifies operator, supply, env`time, env`clock, env`trace
      ensures Valid() && old(env.time) <= env.time
      ensures Waited(old(env.trace), old(operator.asked), old(supply.asked))
      ensures ok ==> |env.trace| == |old(env.trace)| + 2
                     && env.trace[|old(env.trace)|]
                       == Environment.Asked(Environment.Operator, operator.sequence, operator.sentAt)
                     && env.trace[|old(env.trace)| + 1]
                       == Environment.Asked(Environment.Supply, supply.sequence, supply.sentAt)
    {
      hide Inv, Environment.Timed, Environment.NothingDone, Extended;
      ghost var before, asked, supplyAsked := env.trace, operator.asked, supply.asked;
      WaitedNot();
      ok := RequestOperator();
      ghost var middle := env.trace;
      ExtendedSame(supplyAsked, |before|);
      if ok {
        ghost var asked2 := operator.asked;
        ok := RequestSupply();
        ExtendedSame(asked2, |middle|);
        WaitedTwice(before, asked, supplyAsked, middle, asked2, supplyAsked);
      }
    }

    method RequestOperator() returns (ok: bool)
      requires Valid()
      modifies operator, env`time, env`clock, env`trace
      ensures Valid() && old(env.time) <= env.time
      ensures Environment.NothingDone(old(env.trace), env.trace)
      ensures Extended(old(operator.asked), operator.asked, |old(env.trace)|)
      ensures ok ==> env.trace == old(env.trace)
                                  + [Environment.Asked(Environment.Operator, operator.sequence, operator.sentAt)]
    {
      hide Sound, Linked, Environment.Timed, Earliest;
      hide OperatorGuard.Guard.Inv, SupplyGuard.Guard.Inv, RootSession.Session.Inv;
      ghost var t, before := env.time, env.trace;
      Linking();
      ok := operator.RequestCheck();
      OthersQuiet(before);
      supply.Lift(t, before, env.time, env.trace);
      session.Lift(before, env.trace);
      SoundLater(before, env.trace);
    }

    method RequestSupply() returns (ok: bool)
      requires Valid()
      modifies supply, env`time, env`clock, env`trace
      ensures Valid() && old(env.time) <= env.time
      ensures Environment.NothingDone(old(env.trace), env.trace)
      ensures Extended(old(supply.asked), supply.asked, |old(env.trace)|)
      ensures ok ==> env.trace == old(env.trace)
                                  + [Environment.Asked(Environment.Supply, supply.sequence, supply.sentAt)]
    {
      hide Sound, Linked, Environment.Timed, Earliest;
      hide OperatorGuard.Guard.Inv, SupplyGuard.Guard.Inv, RootSession.Session.Inv;
      ghost var t, before := env.time, env.trace;
      Linking();
      ok := supply.RequestCheck();
      OthersQuiet(before);
      operator.Lift(t, before, env.time, env.trace);
      session.Lift(before, env.trace);
      SoundLater(before, env.trace);
    }

    lemma Linking()
      requires Valid()
      ensures operator.env == env && supply.env == env && session.env == env
    {
    }

    /** A guard that asked, or did nothing, disturbs nobody else. */
    lemma OthersQuiet(before: Trace)
      requires before <= env.trace && |env.trace| <= |before| + 1
      requires |env.trace| == |before| + 1 ==> env.trace[|before|].Asked?
      ensures Environment.NothingDone(before, env.trace) && RootSession.Untouched(before, env.trace)
      ensures |env.trace| == |before| + 1 && env.trace[|before|].observer == Environment.Supply ==>
                Environment.Silent(Environment.Operator, before, env.trace)
      ensures |env.trace| == |before| + 1 && env.trace[|before|].observer == Environment.Operator ==>
                Environment.Silent(Environment.Supply, before, env.trace)
      ensures |env.trace| == |before| ==>
                Environment.Silent(Environment.Operator, before, env.trace)
                && Environment.Silent(Environment.Supply, before, env.trace)
    {
    }

    /** The observation an observer at rest made last, when it was asked for after `began`. */
    lemma OperatorFresh(began: nat)
      requires Valid() && operator.phase == Observed && observation > 0
      requires |operator.asked| >= observation && began < operator.asked[observation - 1]
      ensures |operator.answered| == |operator.asked| == observation
      ensures Fresh(env.trace, |env.trace|, Environment.Operator,
                    Evidence(operator.asked[observation - 1], operator.answered[observation - 1]), began)
      ensures env.trace[operator.answered[observation - 1]].observation.finished == observedAt
    {
      hide OperatorGuard.Guard.Inv, SupplyGuard.Guard.Inv, RootSession.Session.Inv, Sound, Environment.Timed;
      hide Ordered, Before, Traced, Fresh, Linked;
      operator.Counts(env.time, env.trace);
      LastIsFresh(Environment.Operator, operator.history, operator.requested, operator.asked, operator.answered,
                  env.trace, began);
    }

    lemma SupplyFresh(began: nat)
      requires Valid() && supply.phase == Observed && supplyObservation > 0
      requires |supply.asked| >= supplyObservation && began < supply.asked[supplyObservation - 1]
      ensures |supply.answered| == |supply.asked| == supplyObservation
      ensures Fresh(env.trace, |env.trace|, Environment.Supply,
                    Evidence(supply.asked[supplyObservation - 1], supply.answered[supplyObservation - 1]), began)
      ensures env.trace[supply.answered[supplyObservation - 1]].observation.finished == supplyObservedAt
    {
      hide OperatorGuard.Guard.Inv, SupplyGuard.Guard.Inv, RootSession.Session.Inv, Sound, Environment.Timed;
      hide Ordered, Before, Traced, Fresh, Linked, SupplyGuard.Climbing;
      supply.Counts(env.time, env.trace);
      LastIsFresh(Environment.Supply, supply.history, supply.requested, supply.asked, supply.answered, env.trace,
        began);
    }

    /** The evidence is that of the last observation of each observer. */
    ghost predicate Latest(p: Permit)
      reads this, operator, supply
    {
      && 0 < observation <= |operator.asked| && observation <= |operator.answered|
      && 0 < supplyObservation <= |supply.asked| && supplyObservation <= |supply.answered|
      && p.operator == Evidence(operator.asked[observation - 1], operator.answered[observation - 1])
      && p.supply == Evidence(supply.asked[supplyObservation - 1], supply.answered[supplyObservation - 1])
    }

    /** Both observers asked afresh, after `began`, and their answers waited for. */
    method Checks(ghost began: nat) returns (ok: bool, ghost p: Permit)
      requires Valid() && began < |env.trace|
      modifies operator, supply, operator.pipe, supply.pipe
      modifies this`observation, this`observedAt, this`nextCheck,
               this`supplyObservation, this`supplyObservedAt, this`nextSupplyCheck
      modifies env`time, env`clock, env`trace, env`polls
      ensures Valid() && old(env.time) <= env.time && Environment.NothingDone(old(env.trace), env.trace)
      ensures ok ==>
                && operator.phase == Observed && supply.phase == Observed && Latest(p) && p.began == began
                && Fresh(env.trace, |env.trace|, Environment.Operator, p.operator, began)
                && Fresh(env.trace, |env.trace|, Environment.Supply, p.supply, began)
    {
      hide Inv, Extended, Fresh, Environment.Timed, Environment.NothingDone;
      p := Unknown(began);
      var previous, previousSupply := operator.sequence, supply.sequence;
      ghost var o, s, settled := operator.asked, supply.asked, env.trace;
      Known();
      ok := RequestBoth();
      if !ok {
        return;
      }
      ghost var o2, s2, requested := operator.asked, supply.asked, env.trace;
      ok := Wait(None, Some(previous), Some(previousSupply));
      WaitedTwice(settled, o, s, requested, o2, s2);
      if !ok {
        return;
      }
      Known();
      NewRequest(o, operator.asked, |settled|, observation - 1);
      NewRequest(s, supply.asked, |settled|, supplyObservation - 1);
      OperatorFresh(began);
      SupplyFresh(began);
      p := Unknown(began).(
        operator := Evidence(operator.asked[observation - 1], operator.answered[observation - 1]),
        supply := Evidence(supply.asked[supplyObservation - 1], supply.answered[supplyObservation - 1]));
    }

    /** A boundary's own checks; the boundary is the first thing recorded. */
    method FreshChecks(boundary: Environment.Boundary) returns (ok: bool, ghost p: Permit)
      requires Valid()
      modifies operator, supply, operator.pipe, supply.pipe
      modifies this`observation, this`observedAt, this`nextCheck,
               this`supplyObservation, this`supplyObservedAt, this`nextSupplyCheck
      modifies env`time, env`clock, env`trace, env`polls
      ensures Valid() && old(env.time) <= env.time && Environment.NothingDone(old(env.trace), env.trace)
      ensures |env.trace| > |old(env.trace)|
              && env.trace[|old(env.trace)|] == Environment.Began(boundary, old(env.time))
      ensures ok ==>
                && operator.phase == Observed && supply.phase == Observed && Latest(p)
                && p.began == |old(env.trace)|
                && Fresh(env.trace, |env.trace|, Environment.Operator, p.operator, p.began)
                && Fresh(env.trace, |env.trace|, Environment.Supply, p.supply, p.began)
    {
      hide Inv, Latest, Fresh, Environment.Timed, Environment.NothingDone, Quiet;
      ghost var before, began := env.trace, |env.trace|;
      p := Unknown(began);
      Started(boundary);
      ghost var trace := env.trace;
      QuietActs(before, trace);
      ok := Settle();
      Environment.NothingDoneTwice(before, trace, env.trace);
      StillFirst(before, trace, env.trace);
      if !ok {
        return;
      }
      ghost var settled := env.trace;
      ok, p := Checks(began);
      Environment.NothingDoneTwice(before, settled, env.trace);
      StillFirst(before, settled, env.trace);
    }

    ghost method Started(boundary: Environment.Boundary)
      requires Valid()
      modifies env`trace
      ensures Valid() && env.trace == old(env.trace) + [Environment.Began(boundary, env.time)]
      ensures Quiet(old(env.trace), env.trace)
    {
      hide Inv, Environment.Timed, Quiet;
      var before := env.trace;
      env.Begin(boundary);
      QuietEvent(before, Environment.Began(boundary, env.time));
      Lift(env.time, before, env.time, env.trace);
    }

    /** What the numbers of the observers say about what the supervisor knows. */
    lemma Known()
      requires Valid()
      ensures observation == |operator.history| <= |operator.asked| == operator.sequence
      ensures supplyObservation == |supply.history| <= |supply.asked| == supply.sequence
    {
      hide Traced, Ordered, Before, SupplyGuard.Climbing, Linked;
      hide OperatorGuard.Guard.Inv, SupplyGuard.Guard.Inv, RootSession.Session.Inv, Sound, Environment.Timed;
      operator.Counts(env.time, env.trace);
      supply.Counts(env.time, env.trace);
    }

    /** The native admission of a boundary, after which everything is still as it was. */
    method AdmissionHolds(boundary: Environment.Boundary) returns (ok: bool)
      requires Valid()
      modifies env`time, env`trace
      ensures Valid() && old(env.time) <= env.time && Quiet(old(env.trace), env.trace)
      ensures ok ==> env.trace == old(env.trace) + [Environment.Admitted(boundary, env.time)]
    {
      hide Inv, Environment.Timed, Quiet;
      ghost var t, before := env.time, env.trace;
      ok := env.Admit(boundary);
      QuietSame(before);
      if ok {
        QuietEvent(before, Environment.Admitted(boundary, env.time));
      }
      Lift(t, before, env.time, env.trace);
    }

    /** The evidence of the last observations, judged just now. */
    lemma JudgedRecently(before: Trace, p: Permit)
      requires Valid() && Latest(p) && p.admitted < |before|
      requires p.operator.answered < |before| && p.supply.answered < |before|
      requires before <= env.trace && JudgedNow(before, env.trace, observedAt, supplyObservedAt)
      ensures Recent(env.trace, |env.trace|, p)
    {
      hide OperatorGuard.Guard.Inv, SupplyGuard.Guard.Inv, RootSession.Session.Inv, Sound, Environment.Timed;
      hide Ordered, Before, SupplyGuard.Climbing, Traced, Recent, Linked;
      operator.Counts(env.time, env.trace);
      supply.Counts(env.time, env.trace);
      AnswerOf(Environment.Operator, operator.history, operator.requested, operator.asked, operator.answered,
               env.trace, observation - 1);
      AnswerOf(Environment.Supply, supply.history, supply.requested, supply.asked, supply.answered,
               env.trace, supplyObservation - 1);
      assert before[p.operator.answered] == env.trace[p.operator.answered];
      assert before[p.supply.answered] == env.trace[p.supply.answered];
      RecentOnly(before, env.trace[|before|].at, env.trace[|before| + 1].at, env.trace[|before| + 2].at,
                 env.trace[|before| + 3].at, p);
    }

    /**
     A boundary's own checks, its admission, and then the two readings that judge them: what
     the permit of an effect needs, with the boundary the first thing recorded.
     */
    method Checkpoint(boundary: Environment.Boundary) returns (ok: bool, ghost p: Permit)
      requires Valid()
      modifies operator, supply, operator.pipe, supply.pipe
      modifies this`observation, this`observedAt, this`nextCheck,
               this`supplyObservation, this`supplyObservedAt, this`nextSupplyCheck
      modifies env`time, env`clock, env`trace, env`polls
      ensures Valid() && old(env.time) <= env.time && Environment.NothingDone(old(env.trace), env.trace)
      ensures |env.trace| > |old(env.trace)|
              && env.trace[|old(env.trace)|] == Environment.Began(boundary, old(env.time))
      ensures ok ==>
                && !closed && Latest(p) && p.began == |old(env.trace)|
                && Cleared(env.trace, |env.trace|, boundary, p) && Recent(env.trace, |env.trace|, p)
    {
      hide Inv, Environment.Timed, Fresh, Quiet, Cleared, Recent, JudgedNow, Calm;
      ghost var before := env.trace;
      ok, p := FreshChecks(boundary);
      if !ok {
        return;
      }
      ghost var checked := env.trace;
      ok := AdmissionHolds(boundary);
      QuietActs(checked, env.trace);
      Environment.NothingDoneTwice(before, checked, env.trace);
      StillFirst(before, checked, env.trace);
      if !ok {
        return;
      }
      ghost var admitted := env.trace;
      p := p.(admitted := |checked|);
      ClearedNow(before, checked, boundary, env.time, p);
      ghost var from := env.time;
      ok := EffectCurrent();
      CalmIsQuiet(admitted, env.trace, from);
      Environment.NothingDoneTwice(before, admitted, env.trace);
      StillFirst(before, admitted, env.trace);
      if ok {
        ClearedStill(admitted, env.trace, boundary, p);
        ClearedPositions(admitted, boundary, p);
        JudgedRecently(admitted, p);
      }
    }

    // ----- Effects -----

    /** How a session stands that has sent a request and not been answered. */
    static function Awaiting(kind: Environment.Kind): RootSession.Phase
      requires kind != Environment.Complete
    {
      match kind
      case Prepare => RootSession.Preparing
      case Observe => RootSession.Observing
      case Finish => RootSession.Closing
    }

    /** The request to the controller that a boundary is for. */
    method Send(boundary: Environment.Boundary) returns (ok: bool)
      requires env.Valid() && Linked() && Parts(env.time, env.trace) && ActionOf(boundary) != Environment.Complete
      modifies session, env`time, env`clock, env`trace
      ensures env.Valid() && Parts(env.time, env.trace) && old(env.time) <= env.time
      ensures RootSession.Sends(old(env.trace), env.trace, ActionOf(boundary), old(env.time), env.time)
      ensures ok ==> env.trace != old(env.trace) && session.phase == Awaiting(ActionOf(boundary))
    {
      hide OperatorGuard.Guard.Inv, SupplyGuard.Guard.Inv, RootSession.Session.Inv, RootSession.Sends,
           Environment.Timed;
      ghost var t, trace := env.time, env.trace;
      match ActionOf(boundary) {
        case Prepare => ok := session.Prepare();
        case Observe => ok := session.Observe();
        case Finish => ok := session.Finish();
      }
      SendsQuietly(trace, env.trace, ActionOf(boundary), t, env.time);
      operator.Lift(t, trace, env.time, env.trace);
      supply.Lift(t, trace, env.time, env.trace);
    }

    /** A checkpoint, and then the request that it is for: the last thing done, or nothing at all. */
    method Request(boundary: Environment.Boundary) returns (ok: bool)
      requires Valid() && ActionOf(boundary) != Environment.Complete
      modifies session, operator, supply, operator.pipe, supply.pipe
      modifies this`observation, this`observedAt, this`nextCheck,
               this`supplyObservation, this`supplyObservedAt, this`nextSupplyCheck, env
      ensures Valid() && old(env.time) <= env.time
      ensures Environment.NothingDone(old(env.trace), env.trace) || Effect(old(env.trace), env.trace, boundary)
      ensures ok ==> Effect(old(env.trace), env.trace, boundary) && !closed
                     && session.phase == Awaiting(ActionOf(boundary))
      ensures old(closed) ==> !ok && Environment.NothingDone(old(env.trace), env.trace)
    {
      hide Parts, Informed, Sound, Environment.Timed, Cleared, Recent, RootSession.Sends, Effect;
      ghost var before := env.trace;
      ghost var p;
      ok, p := Checkpoint(boundary);
      if !ok {
        return;
      }
      ghost var t, trace := env.time, env.trace;
      ok := Send(boundary);
      Performed(before, trace, env.trace, boundary, p, t, env.time);
    }

    /** The look at the mounted root. */
    method Physical() returns (observed: Option<Identity>)
      requires Valid()
      modifies session`identity, env`time, env`clock, env`trace
      ensures Valid() && old(env.time) <= env.time && Quiet(old(env.trace), env.trace)
      ensures old(session.identity).Some? ==> session.identity == old(session.identity)
      ensures if observed.Some? then
                |env.trace| == |old(env.trace)| + 1 && env.trace[|old(env.trace)|].Seen?
                && env.trace == old(env.trace) + [Environment.Seen(env.trace[|old(env.trace)|].found, env.time)]
                && session.identity == observed
              else env.trace == old(env.trace)
    {
      hide OperatorGuard.Guard.Inv, SupplyGuard.Guard.Inv, RootSession.Session.Inv, Sound, Environment.Timed, Quiet;
      ghost var t, trace := env.time, env.trace;
      observed := session.Physical();
      QuietSame(trace);
      if observed.Some? {
        QuietEvent(trace, env.trace[|trace|]);
      }
      QuietParts(trace, env.trace);
      operator.Lift(t, trace, env.time, env.trace);
      supply.Lift(t, trace, env.time, env.trace);
      SoundLater(trace, env.trace);
    }

    /** A checkpoint, and then the look at the mounted root, which is the last thing recorded. */
    method Inspected(boundary: Environment.Boundary) returns (ok: bool, ghost p: Permit)
      requires Valid()
      modifies operator, supply, operator.pipe, supply.pipe, session`identity
      modifies this`observation, this`observedAt, this`nextCheck,
               this`supplyObservation, this`supplyObservedAt, this`nextSupplyCheck
      modifies env`time, env`clock, env`trace, env`polls
      ensures Valid() && old(env.time) <= env.time && Environment.NothingDone(old(env.trace), env.trace)
      ensures ok ==>
                && Latest(p) && p.began == |old(env.trace)| && Cleared(env.trace, |env.trace|, boundary, p)
                && p.admitted < p.seen == |env.trace| - 1 && env.trace[p.seen].Seen?
    {
      hide Inv, Environment.Timed, Cleared, Recent, Quiet, Environment.NothingDone;
      ghost var before := env.trace;
      ok, p := Checkpoint(boundary);
      if !ok {
        return;
      }
      ghost var cleared := env.trace;
      var observed := Physical();
      QuietActs(cleared, env.trace);
      Environment.NothingDoneTwice(before, cleared, env.trace);
      if observed.None? {
        return false, p;
      }
      ClearedPositions(cleared, boundary, p);
      ClearedSeen(cleared, boundary, p, env.trace[|cleared|].found, env.time);
      p := p.(seen := |cleared|);
    }

    /** A checkpoint, the look at the mounted root, and the two readings once more. */
    method Confirmed(boundary: Environment.Boundary) returns (ok: bool, ghost p: Permit)
      requires Valid()
      modifies operator, supply, operator.pipe, supply.pipe, session`identity
      modifies this`observation, this`observedAt, this`nextCheck,
               this`supplyObservation, this`supplyObservedAt, this`nextSupplyCheck
      modifies env`time, env`clock, env`trace, env`polls
      ensures Valid() && old(env.time) <= env.time && Environment.NothingDone(old(env.trace), env.trace)
      ensures ok ==>
                && !closed && p.began == |old(env.trace)| < |env.trace|
                && Cleared(env.trace, |env.trace|, boundary, p) && Recent(env.trace, |env.trace|, p)
                && SeenSince(env.trace, |env.trace|, p) && RootSession.Live(session.phase)
    {
      hide Inv, Environment.Timed, Cleared, Recent, Quiet, JudgedNow, Environment.NothingDone, Calm;
      ghost var before := env.trace;
      ok, p := Inspected(boundary);
      if !ok {
        return;
      }
      ghost var seen, from := env.trace, env.time;
      ok := EffectCurrent();
      CalmIsQuiet(seen, env.trace, from);
      Environment.NothingDoneTwice(before, seen, env.trace);
      if !ok {
        return;
      }
      ClearedStill(seen, env.trace, boundary, p);
      ClearedPositions(seen, boundary, p);
      JudgedRecently(seen, p);
      JudgedAdds(seen, env.trace, observedAt, supplyObservedAt);
      SeenBefore(seen, env.trace, p);
    }

    /**
     The reply of a handoff whose request was answered: the last thing done, or nothing at all.
     Its permit counts the answer that has just been heard.
     */
    method CompleteHandoff(channel: Channels.Channel, first: Environment.Boundary, second: Environment.Boundary,
                           ghost start: Trace, ghost requested: Trace) returns (ok: bool)
      requires Valid() && channel.env == env
      requires ActionOf(second) == Environment.Complete && RequestOf(second) == Some(ActionOf(first))
      requires Effect(start, requested, first) && Confirmation(requested, env.trace)
      modifies operator, supply, operator.pipe, supply.pipe, session`identity
      modifies this`observation, this`observedAt, this`nextCheck,
               this`supplyObservation, this`supplyObservedAt, this`nextSupplyCheck, env, channel`phase
      ensures Valid() && old(env.time) <= env.time
      ensures Environment.NothingDone(old(env.trace), env.trace) || Effect(old(env.trace), env.trace, second)
      ensures ok ==> Effect(old(env.trace), env.trace, second) && !closed && channel.phase == Handoff.Complete
      ensures old(closed) ==> !ok && Environment.NothingDone(old(env.trace), env.trace)
    {
      hide Parts, Informed, Sound, Environment.Timed, Cleared, Recent, SeenSince, RootSession.Sends, Effect, Replied;
      hide Environment.NothingDone, Environment.Unended;
      ghost var before := env.trace;
      ghost var p;
      ok, p := Confirmed(second);
      if !ok {
        return;
      }
      ghost var t, trace := env.time, env.trace;
      AnswerRoom(start, requested, before, first);
      ghost var q := p.(requested := |requested| - 1, heard := |before| - 2);
      SamePermit(trace, second, p, q);
      BeganThere(trace, second, q);
      Extends(before, trace);
      AnswerCounts(start, requested, before, trace, first, second, q);
      ok := Reply(channel);
      Performed(before, trace, env.trace, second, q, t, env.time);
    }

    method Reply(channel: Channels.Channel) returns (ok: bool)
      requires env.Valid() && Linked() && Parts(env.time, env.trace) && channel.env == env
      requires RootSession.Live(session.phase)
      modifies channel`phase, env`time, env`clock, env`trace
      ensures env.Valid() && Parts(env.time, env.trace) && old(env.time) <= env.time
      ensures RootSession.Sends(old(env.trace), env.trace, Environment.Complete, old(env.time), env.time)
      ensures ok ==> env.trace != old(env.trace) && channel.phase == Handoff.Complete
    {
      hide OperatorGuard.Guard.Inv, SupplyGuard.Guard.Inv, RootSession.Session.Inv, Environment.Timed;
      ghost var t, trace := env.time, env.trace;
      ok := channel.Complete();
      SendsQuietly(trace, env.trace, Environment.Complete, t, env.time);
      operator.Lift(t, trace, env.time, env.trace);
      supply.Lift(t, trace, env.time, env.trace);
      if env.trace != trace {
        session.LiftReply(trace, env.trace[|trace|].at);
      }
    }

    /** With its permit, the effect leaves every effect permitted. */
    lemma Performed(before: Trace, trace: Trace, after: Trace, boundary: Environment.Boundary, p: Permit, from: int,
                    now: int)
      requires Sound(trace) && Environment.Unended(trace)
      requires Cleared(trace, |trace|, boundary, p) && Recent(trace, |trace|, p)
      requires ActionOf(boundary) == Environment.Complete ==> SeenSince(trace, |trace|, p) && Replied(trace, p)
      requires Environment.NothingDone(before, trace) && p.began == |before| < |trace|
      requires RootSession.Sends(trace, after, ActionOf(boundary), from, now)
      ensures Sound(after) && Environment.Unended(after)
      ensures if after == trace then Environment.NothingDone(before, after) else Effect(before, after, boundary)
    {
      hide Cleared, Recent, Effect, Sound, SeenSince, Replied, Environment.NothingDone;
      if after != trace {
        SoundAct(trace, boundary, p, after[|trace|].at);
        EffectDone(before, trace, boundary, p, after[|trace|].at);
      }
    }

    /** The last thing that happened is the worker's own message. */
    ghost predicate Opened(channel: Channels.Channel, before: Trace, after: Trace) {
      Environment.NothingDone(before, after) && |before| < |after|
      && after[|after| - 1].Handed? && channel.Genuine(after[|after| - 1].message)
    }

    lemma OpenedSince(channel: Channels.Channel, a: Trace, b: Trace, c: Trace)
      requires Environment.NothingDone(a, b) && Opened(channel, b, c)
      ensures Opened(channel, a, c)
    {
      Environment.NothingDoneTwice(a, b, c);
    }

    /** Takes a new handoff, at most two in all, once its worker has something to say. */
    method Accept(channel: Channels.Channel) returns (ok: bool)
      requires Valid() && channel.env == env
      modifies this`channels, operator, supply, operator.pipe, supply.pipe
      modifies this`observation, this`observedAt, this`nextCheck,
               this`supplyObservation, this`supplyObservedAt, this`nextSupplyCheck
      modifies env`time, env`clock, env`trace, env`polls
      modifies channel`phase
      ensures Valid() && old(env.time) <= env.time && Environment.NothingDone(old(env.trace), env.trace)
      ensures ok ==> !closed && channel !in old(channels) && |old(channels)| < 2
                     && old(channel.phase) == Handoff.Ready && channel.phase == Handoff.Received
                     && channels == old(channels) + [channel] && Opened(channel, old(env.trace), env.trace)
      ensures channels == old(channels) || channels == old(channels) + [channel]
    {
      hide Parts, Sound, Extended, Environment.Timed, Environment.NothingDone, Environment.Unended, Opened;
      Environment.NothingDoneSame(env.trace);
      if channel in channels || |channels| >= 2 {
        return false;
      }
      channels := channels + [channel];
      ghost var before := env.trace;
      ok := Wait(Some(channel.peer), None, None);
      if ok {
        ok := Handover(channel, before);
      }
    }

    /** The worker's message itself. */
    method Handover(channel: Channels.Channel, ghost before: Trace) returns (ok: bool)
      requires Valid() && channel.env == env && Environment.NothingDone(before, env.trace)
      modifies env`time, env`clock, env`trace, channel`phase
      ensures Valid() && old(env.time) <= env.time && Environment.NothingDone(before, env.trace)
      ensures ok ==> old(channel.phase) == Handoff.Ready && channel.phase == Handoff.Received
                     && Opened(channel, before, env.trace)
    {
      hide Inv, Environment.Timed, Quiet, Channels.Channel.Genuine;
      ghost var t, trace := env.time, env.trace;
      var descriptors;
      ok, descriptors := channel.Receive();
      QuietSame(trace);
      if env.trace != trace {
        QuietEvent(trace, env.trace[|trace|]);
        assert env.trace == trace + [env.trace[|trace|]];
      }
      QuietActs(trace, env.trace);
      Environment.NothingDoneTwice(before, trace, env.trace);
      Lift(t, trace, env.time, env.trace);
    }

    /** The controller's bare end is the last thing that was heard, and nothing was done since the request. */
    ghost predicate Ending(requested: Trace, ended: Trace) {
      Environment.NothingDone(requested, ended) && |requested| < |ended|
      && ended[|ended| - 1].Heard? && RootSession.AtEnd(ended[|ended| - 1].message)
    }

    /** Waits for the controller's answer, which the session checks for itself. */
    method Answered() returns (ok: bool)
      requires Valid()
      modifies session, operator, supply, operator.pipe, supply.pipe
      modifies this`observation, this`observedAt, this`nextCheck,
               this`supplyObservation, this`supplyObservedAt, this`nextSupplyCheck
      modifies env`time, env`clock, env`trace, env`polls
      ensures Valid() && old(env.time) <= env.time && Environment.NothingDone(old(env.trace), env.trace)
      ensures ok ==> !closed && if old(session.phase) == RootSession.Closing then Ending(old(env.trace), env.trace)
                                else Confirmation(old(env.trace), env.trace)
    {
      hide Inv, Extended, Environment.Timed, Environment.NothingDone, Confirmation, Ending;
      hide RootSession.Session.Answered;
      Environment.NothingDoneSame(env.trace);
      var tries := 0;
      while tries < MAX_REPLIES
        invariant Valid() && old(env.time) <= env.time && Environment.NothingDone(old(env.trace), env.trace)
        invariant session.phase == old(session.phase)
      {
        ghost var trace := env.trace;
        var descriptor;
        ok, descriptor := Controller();
        if !ok {
          return;
        }
        ok := Wait(descriptor, None, None);
        Environment.NothingDoneTwice(old(env.trace), trace, env.trace);
        if !ok {
          return;
        }
        trace := env.trace;
        ghost var known := session.sender;
        var response := Response();
        Environment.NothingDoneTwice(old(env.trace), trace, env.trace);
        if response.None? {
          return false;
        }
        if response.value {
          AnswerLast(old(env.trace), trace, old(session.phase), known);
          return true;
        }
        tries := tries + 1;
      }
      return false;
    }

    lemma AnswerLast(before: Trace, trace: Trace, was: RootSession.Phase, known: int)
      requires Environment.NothingDone(before, trace) && Environment.NothingDone(before, env.trace)
      requires session.Answered(trace, env.trace, was, known)
      ensures if was == RootSession.Closing then Ending(before, env.trace) else Confirmation(before, env.trace)
    {
      hide RootSession.Session.Confirms;
    }

    method Controller() returns (ok: bool, descriptor: Option<int>)
      requires Valid()
      modifies env`time, env`clock
      ensures Valid() && old(env.time) <= env.time
    {
      hide Sound, Informed, Parts, Environment.Timed;
      ghost var t := env.time;
      ok, descriptor := session.Descriptor();
      Tick(t, env.time, env.trace);
    }

    method Response() returns (response: Option<bool>)
      requires Valid()
      modifies session`phase, session`sender, session`identity, session`exchanges
      modifies env`time, env`clock, env`trace
      ensures Valid() && old(env.time) <= env.time && Environment.NothingDone(old(env.trace), env.trace)
      ensures match response
              case None => true
              case Some(false) => session.phase == old(session.phase)
              case Some(true) =>
                session.Answered(old(env.trace), env.trace, old(session.phase), old(session.sender))
    {
      hide OperatorGuard.Guard.Inv, SupplyGuard.Guard.Inv, RootSession.Session.Inv, Sound, Environment.Timed;
      hide RootSession.Session.Answered;
      ghost var t, trace := env.time, env.trace;
      response := session.Receive();
      SeenAsksNobody(trace, env.trace);
      operator.Lift(t, trace, env.time, env.trace);
      supply.Lift(t, trace, env.time, env.trace);
      SoundLater(trace, env.trace);
    }

    /** Ends the effect path first, then the observers; nothing is left to act. */
    method Close()
      requires Valid()
      modifies this`closed, this`channels, session`phase, session`peer, channels
      modifies operator`phase, operator`buffer, supply`phase, supply`buffer, env`trace
      ensures Valid() && closed && channels == []
      ensures env.trace == old(env.trace) + [Environment.Ended(env.time)]
      ensures session.phase == RootSession.Closed && operator.phase == supply.phase == Closed
      ensures forall c :: c in old(channels) ==> c.phase == Handoff.Closed
    {
      hide Inv, Environment.Timed;
      End();
      CloseSession();
      Release();
      CloseObservers();
    }

    /** The end of the run stands in its record. */
    method End()
      requires Valid()
      modifies this`closed, env`trace
      ensures Valid() && closed && env.trace == old(env.trace) + [Environment.Ended(env.time)]
    {
      hide OperatorGuard.Guard.Inv, SupplyGuard.Guard.Inv, RootSession.Session.Inv, Sound, Environment.Timed;
      hide Environment.Unended;
      ghost var t, trace := env.time, env.trace;
      closed := true;
      env.End();
      SoundEnd(trace, t);
      operator.Lift(t, trace, t, env.trace);
      supply.Lift(t, trace, t, env.trace);
      session.Lift(trace, env.trace);
    }

    method CloseSession()
      requires Valid()
      modifies session`phase, session`peer
      ensures Valid() && session.phase == RootSession.Closed
    {
      hide OperatorGuard.Guard.Inv, SupplyGuard.Guard.Inv, RootSession.Session.Inv, Sound, Environment.Timed, Informed;
      hide Environment.Unended;
      session.Abort();
    }

    method Release()
      requires Valid()
      modifies this`channels, channels
      ensures Valid() && channels == []
      ensures forall c :: c in old(channels) ==> c.phase == Handoff.Closed
    {
      hide Parts, Sound, Environment.Timed, Environment.Unended;
      CloseAll(channels);
      channels := [];
    }

    method CloseObservers()
      requires Valid()
      modifies operator`phase, operator`buffer, supply`phase, supply`buffer
      ensures Valid() && operator.phase == supply.phase == Closed
    {
      hide OperatorGuard.Guard.Inv, SupplyGuard.Guard.Inv, RootSession.Session.Inv, Sound, Environment.Timed;
      hide Environment.Unended;
      supply.Close();
      operator.Close();
    }

    static method CloseAll(channels: seq<Channels.Channel>)
      modifies channels
      ensures forall c :: c in channels ==> c.phase == Handoff.Closed
    {
      for i := 0 to |channels|
        invariant forall j :: 0 <= j < i ==> channels[j].phase == Handoff.Closed
      {
        channels[i].Close();
      }
    }

    // ----- The owner's operations -----

    /** A new channel, which was ready and is now complete. */
    ghost predicate Handled(channel: Channels.Channel, before: seq<Channels.Channel>, was: Handoff.Phase)
      reads this`channels, channel`phase
    {
      channel !in before && channels == before + [channel] && |channels| <= 2
      && was == Handoff.Ready && channel.phase == Handoff.Complete
    }

    /** The worker's message, the request to the controller, and its answer. */
    method Obtain(channel: Channels.Channel, first: Environment.Boundary)
      returns (ok: bool, ghost start: Trace, ghost requested: Trace)
      requires Valid() && channel.env == env && ActionOf(first) in {Environment.Prepare, Environment.Observe}
      modifies this`channels, session, operator, supply, operator.pipe, supply.pipe
      modifies this`observation, this`observedAt, this`nextCheck,
               this`supplyObservation, this`supplyObservedAt, this`nextSupplyCheck, env, channel`phase
      ensures Valid() && old(env.time) <= env.time && old(env.trace) <= env.trace
      ensures channels == old(channels) || channels == old(channels) + [channel]
      ensures Done(old(env.trace)) <= Done(env.trace) <= Done(old(env.trace)) + [ActionOf(first)]
      ensures ok ==>
                && !closed && channels == old(channels) + [channel] && channel !in old(channels) && |channels| <= 2
                && old(channel.phase) == Handoff.Ready && Opened(channel, old(env.trace), start)
                && Effect(start, requested, first) && Confirmation(requested, env.trace)
                && Done(env.trace) == Done(old(env.trace)) + [ActionOf(first)]
      ensures old(closed) ==> !ok && Environment.NothingDone(old(env.trace), env.trace)
    {
      hide Inv, Environment.Timed, Environment.NothingDone, Effect, Confirmation, Opened, Done, ActionOf;
      start, requested := env.trace, env.trace;
      ghost var before := env.trace;
      ok := Accept(channel);
      Grown(before, env.trace, first);
      AtMostAdds(before, env.trace, first);
      if !ok {
        return;
      }
      start := env.trace;
      ok := Request(first);
      Grown(start, env.trace, first);
      AtMostAdds(start, env.trace, first);
      if !ok {
        return;
      }
      requested := env.trace;
      ok := Answered();
      Grown(requested, env.trace, first);
      AtMostAdds(requested, env.trace, first);
    }

    /** What both handoffs do between their own tests and their end. */
    method Exchange(channel: Channels.Channel, first: Environment.Boundary, second: Environment.Boundary)
      returns (ok: bool)
      requires Valid() && channel.env == env
      requires ActionOf(second) == Environment.Complete && RequestOf(second) == Some(ActionOf(first))
      modifies this`channels, session, operator, supply, operator.pipe, supply.pipe
      modifies this`observation, this`observedAt, this`nextCheck,
               this`supplyObservation, this`supplyObservedAt, this`nextSupplyCheck, env, channel`phase
      ensures Valid() && old(env.time) <= env.time && old(env.trace) <= env.trace
      ensures channels == old(channels) || channels == old(channels) + [channel]
      ensures Done(old(env.trace)) <= Done(env.trace) <= Done(old(env.trace)) + [ActionOf(first), ActionOf(second)]
      ensures ok ==> !closed && Handled(channel, old(channels), old(channel.phase))
                     && (exists start :: Opened(channel, old(env.trace), start)
                                         && Exchanged(start, env.trace, first, second))
                     && Done(env.trace) == Done(old(env.trace)) + [ActionOf(first), ActionOf(second)]
      ensures old(closed) ==> !ok && Environment.NothingDone(old(env.trace), env.trace)
    {
      hide Inv, Environment.Timed, Environment.NothingDone, Effect, Confirmation, Opened, Done;
      ghost var start, requested;
      ok, start, requested := Obtain(channel, first);
      if !ok {
        return;
      }
      ghost var answered := env.trace;
      ok := CompleteHandoff(channel, first, second, start, requested);
      Grown(answered, env.trace, second);
      AtMostAdds(answered, env.trace, second);
      if ok {
        assert Exchanged(start, env.trace, first, second);
      }
    }

    /**
     The first handoff, for exactly this session's scope: checkpoint, request, answer,
     checkpoint, reply. Whatever fails closes the supervisor.
     */
    method Prepare(channel: Channels.Channel) returns (ok: bool)
      requires Valid() && channel.env == env
      modifies this, session, operator, supply, operator.pipe, supply.pipe, env, channels, channel
      ensures Valid() && old(env.time) <= env.time && old(env.trace) <= env.trace && (ok <==> !closed)
      ensures ok ==> Handled(channel, old(channels), old(channel.phase))
                     && exists start :: Opened(channel, old(env.trace), start)
                          && Exchanged(start, env.trace, Environment.PrepareRoot, Environment.RootPrepared)
      ensures InTurn(old(env.trace), env.trace, [Environment.Prepare, Environment.Complete], ok)
      ensures old(closed) || channel.scope != Initial(session.scope) ==>
                closed && Environment.NoActs(old(env.trace), env.trace)
    {
      hide Inv, Environment.Timed, Environment.NothingDone, Environment.NoActs, Exchanged, Opened, Done;
      ghost var before := env.trace;
      Environment.NothingDoneSame(before);
      ok := channel.scope == Initial(session.scope);
      if ok {
        ok := Exchange(channel, Environment.PrepareRoot, Environment.RootPrepared);
      }
      if !ok {
        Closing(before, env.trace, env.time);
        ClosingDone(env.trace, env.time);
        Close();
      }
    }

    /** A later handoff, only while the session holds its root, and only for that root. */
    method Reinspect(channel: Channels.Channel) returns (ok: bool)
      requires Valid() && channel.env == env
      modifies this, session, operator, supply, operator.pipe, supply.pipe, env, channels, channel
      ensures Valid() && old(env.time) <= env.time && old(env.trace) <= env.trace && (ok <==> !closed)
      ensures ok ==> Handled(channel, old(channels), old(channel.phase))
                     && exists start :: Opened(channel, old(env.trace), start)
                          && Exchanged(start, env.trace, Environment.ReinspectRoot, Environment.RootReinspected)
      ensures InTurn(old(env.trace), env.trace, [Environment.Observe, Environment.Complete], ok)
      ensures old(closed) || old(session.phase) != RootSession.Held || !channel.scope.Reinspection?
              || channel.scope.scope != session.scope || channel.scope.originalDeadline != session.scope.deadline
              || (old(session.identity).Some? && channel.scope.identity != old(session.identity).value) ==>
                closed && Environment.NoActs(old(env.trace), env.trace)
    {
      hide Inv, Environment.Timed, Environment.NothingDone, Environment.NoActs, Exchanged, Opened, Done;
      ghost var before := env.trace;
      Environment.NothingDoneSame(before);
      ok := Reinspectable(channel);
      AtMostAdds(before, env.trace, Environment.ReinspectRoot);
      if ok {
        ghost var middle := env.trace;
        ok := Exchange(channel, Environment.ReinspectRoot, Environment.RootReinspected);
        if ok {
          ghost var start :| Opened(channel, middle, start)
            && Exchanged(start, env.trace, Environment.ReinspectRoot, Environment.RootReinspected);
          OpenedSince(channel, before, middle, start);
        }
        if old(closed) {
          Environment.NothingDoneTwice(before, middle, env.trace);
        }
      }
      if !ok {
        Closing(before, env.trace, env.time);
        ClosingDone(env.trace, env.time);
        Close();
      }
    }

    /** Whether the channel is for the root that the session holds, which is looked at again. */
    method Reinspectable(channel: Channels.Channel) returns (ok: bool)
      requires Valid()
      modifies session`identity, env`time, env`clock, env`trace
      ensures Valid() && old(env.time) <= env.time
      ensures Environment.NothingDone(old(env.trace), env.trace) && old(env.trace) <= env.trace
      ensures ok ==> session.phase == RootSession.Held && session.identity.Some?
                     && channel.scope == Reinspection(session.scope, session.scope.deadline, session.identity.value)
                     && (old(session.identity).Some? ==> session.identity == old(session.identity))
    {
      hide Inv, Environment.Timed, Environment.NothingDone;
      ghost var before := env.trace;
      Environment.NothingDoneSame(before);
      ok := channel.scope.Reinspection? && session.phase == RootSession.Held;
      if ok {
        var observed := Physical();
        QuietActs(before, env.trace);
        ok := observed.Some?
              && channel.scope == Reinspection(session.scope, session.scope.deadline, observed.value);
      }
    }

    /** Keeps everything current while the owner waits for its next operation. */
    method WaitReadable(descriptor: int) returns (ok: bool)
      requires Valid()
      modifies this, session, operator, supply, operator.pipe, supply.pipe, env, channels
      ensures Valid() && old(env.time) <= env.time && old(env.trace) <= env.trace && (ok <==> !closed)
      ensures Environment.NoActs(old(env.trace), env.trace)
      ensures ok ==> Attended(old(env.polls), env.polls, Some(descriptor), session.peer, true)
      ensures old(closed) ==> !ok
    {
      hide Inv, Environment.Timed, Environment.NothingDone, Environment.NoActs, Extended;
      ghost var before := env.trace;
      ok := Wait(Some(descriptor), None, None);
      Environment.NothingDoneIsNoActs(before, env.trace);
      if !ok {
        Closing(before, env.trace, env.time);
        Close();
      }
    }

    /** The last request, and the controller's own end. */
    method EndController() returns (ok: bool)
      requires Valid()
      modifies this, session, operator, supply, operator.pipe, supply.pipe, env
      ensures Valid() && old(env.time) <= env.time && old(env.trace) <= env.trace && channels == old(channels)
      ensures ok ==> exists requested :: Effect(old(env.trace), requested, Environment.CloseRoot)
                                         && Ending(requested, env.trace)
      ensures InTurn(old(env.trace), env.trace, [Environment.Finish], ok)
      ensures old(closed) ==> !ok && Environment.NothingDone(old(env.trace), env.trace)
    {
      hide Inv, Environment.Timed, Environment.NothingDone, Effect, Ending, Done;
      ghost var before := env.trace;
      ok := Request(Environment.CloseRoot);
      Grown(before, env.trace, Environment.CloseRoot);
      AtMostAdds(before, env.trace, Environment.CloseRoot);
      if ok {
        ghost var requested := env.trace;
        ok := Answered();
        Grown(requested, env.trace, Environment.CloseRoot);
        AtMostAdds(requested, env.trace, Environment.CloseRoot);
      }
    }

    /** The last request, and the controller's own end; it closes however it went. */
    method Finish() returns (ok: bool)
      requires Valid()
      modifies this, session, operator, supply, operator.pipe, supply.pipe, env, channels
      ensures Valid() && old(env.time) <= env.time && old(env.trace) <= env.trace && closed
      ensures ok ==> exists requested, ended :: Effect(old(env.trace), requested, Environment.CloseRoot)
                                                && Ending(requested, ended)
                                                && env.trace == ended + [Environment.Ended(env.time)]
      ensures InTurn(old(env.trace), env.trace, [Environment.Finish], ok)
      ensures old(closed) ==> !ok && Environment.NoActs(old(env.trace), env.trace)
    {
      hide Inv, Environment.Timed, Environment.NothingDone, Environment.NoActs, Effect, Ending, Done;
      ghost var before := env.trace;
      ok := EndController();
      ghost var ended := env.trace;
      Closing(before, ended, env.time);
      ClosingDone(ended, env.time);
      Close();
    }

    // ----- Every run -----

    /**
     At any point of any run, each effect so far follows, in order: the beginning of its own
     boundary; a request to each observer, its answer, and no further request; the admission
     of that boundary; for a handoff the look at the mounted root; and, immediately before the
     effect, the consent, the admission of what is held, and a reading of the clock for each
     observer at most a second after what it found.
     */
    lemma EveryEffect(a: nat) returns (p: Permit)
      requires Valid() && a < |env.trace| && env.trace[a].Acted?
      ensures Granted(env.trace, a, p)
      ensures env.trace[p.began].Began? && ActionOf(env.trace[p.began].boundary) == env.trace[a].kind
      ensures Served(env.trace, p.began, p.operator, p.admitted, a - 2, a, Environment.Operator)
      ensures Served(env.trace, p.began, p.supply, p.admitted, a - 1, a, Environment.Supply)
      ensures env.trace[p.admitted].Admitted? && env.trace[p.admitted].boundary == env.trace[p.began].boundary
      ensures env.trace[a].kind == Environment.Complete ==>
                p.admitted < p.seen < a - 4 && env.trace[p.seen].Seen? && session.InBank(env.trace[p.seen].found)
      ensures p.admitted < a - 4 && env.trace[a - 4].Consented? && env.trace[a - 3].Retained?
      ensures forall k :: p.began < k < a ==> !env.trace[k].Acted?
    {
      hide Linked, Informed, OperatorGuard.Guard.Inv, SupplyGuard.Guard.Inv, RootSession.Script, Granted,
           Environment.Timed, RootSession.Session.InBank, RootSession.Session.Confirms;
      p := ActionsAreFresh(env.trace, env.time, a);
    }

    /**
     At any point of any run, each reply to a worker follows, in order: the request that it
     completes, which is the last effect before it; the controller's message, with the exact
     text for the root that was looked at next; and the beginning of the reply's own boundary.
     */
    lemma EveryReplyWasAnswered(a: nat) returns (p: Permit)
      requires Valid() && a < |env.trace| && env.trace[a].Acted? && env.trace[a].kind == Environment.Complete
      ensures p.requested < p.heard && p.heard + 1 < p.began < a
      ensures env.trace[p.began].Began? && env.trace[p.requested].Acted?
      ensures RequestOf(env.trace[p.began].boundary) == Some(env.trace[p.requested].kind)
      ensures forall k :: p.requested < k < a ==> !env.trace[k].Acted?
      ensures env.trace[p.heard].Heard? && env.trace[p.heard + 1].Seen?
      ensures session.Confirms(env.trace[p.heard].message, env.trace[p.heard + 1].found)
      ensures Granted(env.trace, a, p)
    {
      hide Linked, Informed, OperatorGuard.Guard.Inv, SupplyGuard.Guard.Inv, RootSession.Session.Inv, Granted,
           Environment.Timed, RootSession.Session.Confirms;
      p := ActionsAreFresh(env.trace, env.time, a);
      session.HeardBeforeEffect(env.trace, p.heard, a);
    }

    /** Whoever was heard before two effects was one process. */
    lemma OneController(j: nat, k: nat, a: nat)
      requires Valid() && j < a < |env.trace| && k < a && env.trace[a].Acted?
      requires env.trace[j].Heard? && env.trace[k].Heard?
      ensures env.trace[j].message.credentials == env.trace[k].message.credentials
    {
      hide Linked, Informed, OperatorGuard.Guard.Inv, SupplyGuard.Guard.Inv, RootSession.Session.Inv, Sound,
           Environment.Timed;
      session.HeardBeforeEffect(env.trace, j, a);
      session.HeardBeforeEffect(env.trace, k, a);
    }

    /** What an observer answered is exactly what was read from its own pipe in one stretch. */
    lemma EveryAnswerWasRead(k: nat) returns (from: nat, to: nat, utc: int)
      requires Valid() && k < |env.trace| && env.trace[k].Answered?
      ensures match env.trace[k].observer
              case Operator => from <= to <= |operator.pipe.taken|
                               && OperatorGuard.Received(operator.pipe.taken[from..to], env.trace[k].observation)
              case Supply => from <= to <= |supply.pipe.taken|
                             && SupplyGuard.Received(supply.pipe.taken[from..to], supply.expected,
                                                     env.trace[k].observation, utc)
    {
      hide Linked, Informed, OperatorGuard.Guard.Inv, SupplyGuard.Guard.Inv, RootSession.Session.Inv, Sound;
      hide OperatorGuard.Received, SupplyGuard.Received, Environment.Timed, Ordered, Before, SupplyGuard.Climbing;
      utc := 0;
      match env.trace[k].observer {
        case Operator =>
          operator.Counts(env.time, env.trace);
          var i := AnswerAt(Environment.Operator, operator.history, operator.requested, operator.asked,
                            operator.answered, env.trace, k);
          from, to := operator.EveryReplyWasRead(env.time, env.trace, i);
        case Supply =>
          supply.Counts(env.time, env.trace);
          var i := AnswerAt(Environment.Supply, supply.history, supply.requested, supply.asked,
                            supply.answered, env.trace, k);
          from, to := supply.EveryReplyWasRead(env.time, env.trace, i);
          utc := supply.utcs[i];
      }
    }

    /** Any two looks at the mounted root saw the same root, in the session's bank. */
    lemma OneRoot(j: nat, k: nat)
      requires Valid() && j < |env.trace| && k < |env.trace| && env.trace[j].Seen? && env.trace[k].Seen?
      ensures session.InBank(env.trace[j].found) && env.trace[j].found.root == env.trace[k].found.root
    {
      hide Linked, Informed, OperatorGuard.Guard.Inv, SupplyGuard.Guard.Inv, RootSession.Session.Inv, Sound;
      session.OneRoot(env.trace, j, k);
    }

    /** Once the supervisor has closed it stays closed, and no effect follows. */
    lemma NothingAfterClose(e: nat, a: nat)
      requires Valid() && e < |env.trace| && env.trace[e].Ended?
      ensures closed && (e < a < |env.trace| ==> !env.trace[a].Acted?)
    {
      hide Linked, Informed, Parts, Environment.Timed, Granted;
      if e < a < |env.trace| {
        NothingAfterEnd(env.trace, e, a);
      }
    }

    /** No observation serves two effects: the later one's boundary begins after the earlier one. */
    lemma NoSharedObservation(a: nat, b: nat) returns (p: Permit, q: Permit)
      requires Valid() && a < b < |env.trace| && env.trace[a].Acted? && env.trace[b].Acted?
      ensures Granted(env.trace, a, p) && Granted(env.trace, b, q) && a < q.began
      ensures Served(env.trace, p.began, p.operator, p.admitted, a - 2, a, Environment.Operator)
      ensures Served(env.trace, p.began, p.supply, p.admitted, a - 1, a, Environment.Supply)
      ensures Served(env.trace, q.began, q.operator, q.admitted, b - 2, b, Environment.Operator)
      ensures Served(env.trace, q.began, q.supply, q.admitted, b - 1, b, Environment.Supply)
      ensures p.operator.answered < q.operator.asked && p.supply.answered < q.supply.asked
      ensures env.trace[p.operator.answered].observation.finished <= env.trace[q.operator.answered].observation.started
      ensures env.trace[p.supply.answered].observation.finished <= env.trace[q.supply.answered].observation.started
    {
      hide Linked, Informed, Parts, Granted, Environment.Timed, Sound, Served;
      p, q := ObservationsServeOnce(env.trace, env.time, a, b);
    }

    /** There are never more effects than operator checks, and so never more than 1200. */
    lemma EffectsAreBounded()
      requires Valid()
      ensures Effects(env.trace) <= operator.sequence <= MAX_CHECKS
    {
      hide Linked, Informed, OperatorGuard.Guard.Inv, SupplyGuard.Guard.Inv, RootSession.Session.Inv, Granted;
      hide Ordered, Before, Environment.Timed, Sound;
      operator.Counts(env.time, env.trace);
      AsksOfTrace(Environment.Operator, operator.history, operator.requested, operator.asked, operator.answered,
        env.trace);
      assert env.trace[..|env.trace|] == env.trace;
      EffectsUseChecks(env.trace, |env.trace|, operator.sequence);
    }

    /** The controller is only ever sent one prepare, then observations, then at most one close. */
    lemma ControllerScript()
      requires Valid()
      ensures RootSession.OneScript(RootSession.Requests(env.trace))
    {
      hide Linked, Informed, OperatorGuard.Guard.Inv, SupplyGuard.Guard.Inv, RootSession.Session.Inv, Sound;
      session.RequestsFollowScript(env.trace);
    }
  }

  lemma AnswerAt(who: Environment.Observer, history: seq<Observation>, requested: seq<int>, asked: seq<nat>,
                 answered: seq<nat>, trace: Trace, k: nat) returns (i: nat)
    requires Traced(who, history, requested, asked, answered, trace)
    requires k < |trace| && trace[k].Answered? && trace[k].observer == who
    ensures i < |history| && trace[k].observation == history[i]
  {
    i :| 0 <= i < |answered| && answered[i] == k;
    assert IsAnswer(trace[answered[i]], who, history[i]);
  }

  lemma Grown(before: Trace, after: Trace, boundary: Environment.Boundary)
    requires Environment.NothingDone(before, after) || Effect(before, after, boundary)
    ensures before <= after
  {
  }

  lemma Closing(before: Trace, trace: Trace, at: int)
    requires before <= trace
    ensures before <= trace + [Environment.Ended(at)]
    ensures Environment.NothingDone(before, trace) ==>
              Environment.NoActs(before, trace + [Environment.Ended(at)])
  {
  }

  lemma ClosingDone(trace: Trace, at: int)
    ensures Done(trace + [Environment.Ended(at)]) == Done(trace)
  {
    assert (trace + [Environment.Ended(at)])[..|trace|] == trace;
  }

  lemma AsksOfTrace(who: Environment.Observer, history: seq<Observation>, requested: seq<int>, asked: seq<nat>,
                    answered: seq<nat>, trace: Trace)
    requires Traced(who, history, requested, asked, answered, trace)
    ensures AsksGrow(trace, who) && AskedUpTo(trace, |trace|, who, |asked|)
  {
    forall k | 0 <= k < |trace| && trace[k].Asked? && trace[k].observer == who
      ensures 1 <= trace[k].sequence <= |asked|
    {
      assert k in asked;
      var i :| 0 <= i < |asked| && asked[i] == k;
    }
    forall i: nat, j: nat | i < j < |trace| && trace[i].Asked? && trace[i].observer == who
                            && trace[j].Asked? && trace[j].observer == who
      ensures trace[i].sequence < trace[j].sequence
    {
      LaterAsksAreLarger(who, history, requested, asked, answered, trace, i, j);
    }
  }

  lemma SeenAsksNobody(before: Trace, after: Trace)
    requires before <= after && forall k :: |before| <= k < |after| ==> after[k].Heard? || after[k].Seen?
    ensures Environment.NothingDone(before, after)
    ensures Environment.Silent(Environment.Operator, before, after)
            && Environment.Silent(Environment.Supply, before, after)
  {
  }

  lemma SendsQuietly(before: Trace, after: Trace, kind: Environment.Kind, from: int, now: int)
    requires RootSession.Sends(before, after, kind, from, now)
    ensures Environment.Silent(Environment.Operator, before, after)
            && Environment.Silent(Environment.Supply, before, after)
  {
  }

  lemma QuietParts(before: Trace, after: Trace)
    requires Quiet(before, after)
    ensures Environment.NothingDone(before, after)
    ensures Environment.Silent(Environment.Operator, before, after)
            && Environment.Silent(Environment.Supply, before, after)
  {
  }

  lemma ClearedNow(before: Trace, checked: Trace, boundary: Environment.Boundary, at: int, p: Permit)
    requires Fresh(checked, |checked|, Environment.Operator, p.operator, p.began)
    requires Fresh(checked, |checked|, Environment.Supply, p.supply, p.began)
    requires Environment.NothingDone(before, checked) && p.began == |before| < |checked| && p.admitted == |checked|
    requires checked[|before|].Began? && checked[|before|].boundary == boundary
    ensures var after := checked + [Environment.Admitted(boundary, at)]; Cleared(after, |after|, boundary, p)
  {
    var after := checked + [Environment.Admitted(boundary, at)];
    FreshOnward(checked, after, Environment.Operator, p.operator, p.began);
    FreshOnward(checked, after, Environment.Supply, p.supply, p.began);
  }

  lemma ClearedStill(trace: Trace, later: Trace, boundary: Environment.Boundary, p: Permit)
    requires Cleared(trace, |trace|, boundary, p) && Quiet(trace, later)
    ensures Cleared(later, |later|, boundary, p)
  {
    hide Cleared;
    ClearedOnward(trace, later, boundary, p);
  }

  lemma ClearedPositions(trace: Trace, boundary: Environment.Boundary, p: Permit)
    requires Cleared(trace, |trace|, boundary, p)
    ensures p.began < p.operator.answered < p.admitted < |trace| && p.supply.answered < p.admitted
  {
  }

  lemma SamePermit(trace: Trace, boundary: Environment.Boundary, p: Permit, q: Permit)
    requires Cleared(trace, |trace|, boundary, p) && Recent(trace, |trace|, p) && SeenSince(trace, |trace|, p)
    requires q == p.(requested := q.requested, heard := q.heard)
    ensures Cleared(trace, |trace|, boundary, q) && Recent(trace, |trace|, q) && SeenSince(trace, |trace|, q)
  {
  }

  lemma AnswerRoom(start: Trace, requested: Trace, answered: Trace, first: Environment.Boundary)
    requires Effect(start, requested, first) && Confirmation(requested, answered)
    ensures 1 <= |requested| <= |answered| - 2
  {
  }

  lemma Extends(before: Trace, after: Trace)
    requires Environment.NothingDone(before, after)
    ensures before <= after
  {
  }

  lemma BeganThere(trace: Trace, boundary: Environment.Boundary, p: Permit)
    requires Cleared(trace, |trace|, boundary, p)
    ensures p.began < |trace| && trace[p.began].Began? && trace[p.began].boundary == boundary
  {
  }

  lemma ClearedSeen(trace: Trace, boundary: Environment.Boundary, p: Permit, found: Environment.Mounted, at: int)
    requires Cleared(trace, |trace|, boundary, p)
    ensures var after := trace + [Environment.Seen(found, at)]; Cleared(after, |after|, boundary, p.(seen := |trace|))
  {
    var after := trace + [Environment.Seen(found, at)];
    QuietEvent(trace, Environment.Seen(found, at));
    ClearedOnward(trace, after, boundary, p);
  }

  lemma JudgedAdds(before: Trace, after: Trace, operatorFinished: int, supplyFinished: int)
    requires JudgedNow(before, after, operatorFinished, supplyFinished)
    ensures before <= after && |after| == |before| + 4
  {
  }

  lemma SeenBefore(seen: Trace, trace: Trace, p: Permit)
    requires seen <= trace && |trace| == |seen| + 4 && |seen| > 0 && p.seen == |seen| - 1 && p.admitted < p.seen
    requires seen[|seen| - 1].Seen?
    ensures SeenSince(trace, |trace|, p)
  {
    assert trace[p.seen] == seen[p.seen];
  }

  lemma QuietActs(before: Trace, after: Trace)
    requires Quiet(before, after)
    ensures Environment.NothingDone(before, after)
  {
  }

  lemma StillFirst(before: Trace, middle: Trace, after: Trace)
    requires before <= middle && Environment.NothingDone(middle, after) && |middle| > |before|
    ensures |after| > |before| && after[|before|] == middle[|before|]
  {
  }

  lemma NoneLater(asked: seq<nat>, k: int)
    requires asked != [] && (forall i, j :: 0 <= i < j < |asked| ==> asked[i] < asked[j])
    requires k > asked[|asked| - 1]
    ensures k !in asked
  {
  }

  /** When as many checks were answered as asked, the last is fresh from any point before it was asked. */
  lemma LastIsFresh(who: Environment.Observer, history: seq<Observation>, requested: seq<int>, asked: seq<nat>,
                    answered: seq<nat>, trace: Trace, began: nat)
    requires Traced(who, history, requested, asked, answered, trace) && Ordered(history, requested)
    requires |history| == |requested| > 0 && began < asked[|asked| - 1]
    ensures Fresh(trace, |trace|, who, Evidence(asked[|asked| - 1], answered[|answered| - 1]), began)
    ensures trace[answered[|answered| - 1]].observation == history[|history| - 1]
  {
    var n := |asked| - 1;
    assert IsAnswer(trace[answered[n]], who, history[n]);
    forall k | asked[n] < k < |trace|
      ensures !(trace[k].Asked? && trace[k].observer == who)
    {
      NoneLater(asked, k);
    }
  }

  lemma AskNobody(trace: Trace)
    ensures Environment.Silent(Environment.Operator, trace, trace)
            && Environment.Silent(Environment.Supply, trace, trace)
  {
  }
}
