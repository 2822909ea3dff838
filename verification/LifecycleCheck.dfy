/**
 The exhaustive control check of native/check_handoff_lifecycle.py: a breadth-first
 walk over every configuration a step function can reach, with a history of events
 that the step function cannot reset. It is proved sound, complete and terminating
 for every step function.
 */
module LifecycleCheck {
  import opened NiaCommon
  import opened Handoff

  type StepFunction = (Phase, Event) -> Option<Phase>

  datatype History = History(
    phase: Phase, requests: nat, accepts: nat, completions: nat, acknowledgments: nat, sealed: bool)

  datatype Outcome =
    | Pass(configurations: nat, accepted: nat, rejected: nat)
    | AssertionError(reason: string)

  const INITIAL := History(Starting, 0, 0, 0, 0, false)

  function Extend(h: History, event: Event, phase: Phase): History {
    History(phase,
            h.requests + if event == Receive then 1 else 0,
            h.accepts + if event == Accept then 1 else 0,
            h.completions + if event == Finish then 1 else 0,
            h.acknowledgments + if event == Ack then 1 else 0,
            h.sealed || event == Fail || event == Close)
  }

  predicate Ordered(h: History) {
    h.acknowledgments <= h.completions <= h.accepts <= h.requests <= 1
  }

  /** The assertions made on one accepted edge. */
  predicate EdgeOk(before: History, event: Event, phase: Phase) {
    var after := Extend(before, event, phase);
    && (before.sealed ==> event == Close || event == Fail)
    && Ordered(after)
    && (phase == Complete ==> after.acknowledgments == 1)
    && (event == Close ==> phase == Closed)
  }

  // ----- Accepted event sequences -----

  /** The configuration after a sequence of accepted events, if every one is accepted. */
  function Follow(step: StepFunction, events: seq<Event>): Option<History> {
    if events == [] then Some(INITIAL)
    else
      var before := Follow(step, events[..|events| - 1]);
      if before == None then None
      else
        var phase := step(before.value.phase, events[|events| - 1]);
        if phase == None then None else Some(Extend(before.value, events[|events| - 1], phase.value))
  }

  ghost predicate Reachable(step: StepFunction, h: History) {
    exists events :: Follow(step, events) == Some(h)
  }

  lemma ReachableNext(step: StepFunction, h: History, event: Event, phase: Phase)
    requires Reachable(step, h) && step(h.phase, event) == Some(phase)
    ensures Reachable(step, Extend(h, event, phase))
  {
    var events :| Follow(step, events) == Some(h);
    var longer := events + [event];
    assert longer[..|longer| - 1] == events;
    assert Follow(step, longer) == Some(Extend(h, event, phase));
  }

  /** No accepted edge of a reachable configuration breaks an assertion. */
  ghost predicate Safe(step: StepFunction) {
    forall h, event :: Reachable(step, h) && step(h.phase, event).Some? ==>
      EdgeOk(h, event, step(h.phase, event).value)
  }

  ghost predicate PhaseReached(step: StepFunction, p: Phase) {
    exists h :: Reachable(step, h) && h.phase == p
  }

  /** Every phase, and a successful exchange, can be reached: the check is not vacuous. */
  ghost predicate Covers(step: StepFunction) {
    && (forall p: Phase :: PhaseReached(step, p))
    && exists h :: Reachable(step, h) && h.acknowledgments == 1
  }

  // ----- The walk -----

  /** Configurations that can pass the history assertion. */
  ghost function Configurations(): set<History> {
    set p: Phase, r, a, c, k, s: bool | r in {0, 1} && a in {0, 1} && c in {0, 1} && k in {0, 1} ::
      History(p, r, a, c, k, s)
  }

  lemma OrderedIsConfiguration(h: History)
    requires Ordered(h)
    ensures h in Configurations()
  {
    assert h == History(h.phase, h.requests, h.accepts, h.completions, h.acknowledgments, h.sealed);
    assert h.requests in {0, 1} && h.accepts in {0, 1} && h.completions in {0, 1} && h.acknowledgments in {0, 1};
  }

  /** Edges of one configuration that are accepted. */
  function AcceptedEdges(step: StepFunction, h: History, count: nat): nat
    requires count <= |EVENTS|
  {
    if count == 0 then 0
    else AcceptedEdges(step, h, count - 1) + if step(h.phase, EVENTS[count - 1]).Some? then 1 else 0
  }

  ghost function TotalAccepted(step: StepFunction, nodes: seq<History>): nat {
    if nodes == [] then 0
    else TotalAccepted(step, nodes[..|nodes| - 1]) + AcceptedEdges(step, nodes[|nodes| - 1], |EVENTS|)
  }

  ghost predicate Sound(step: StepFunction, reached: set<History>) {
    forall h :: h in reached ==> Reachable(step, h) && h in Configurations()
  }

  /** The first `count` edges of a configuration hold and lead to reached configurations. */
  ghost predicate Explored(step: StepFunction, h: History, count: nat, reached: set<History>)
    requires count <= |EVENTS|
  {
    forall i :: 0 <= i < count && step(h.phase, EVENTS[i]).Some? ==>
      && EdgeOk(h, EVENTS[i], step(h.phase, EVENTS[i]).value)
      && Extend(h, EVENTS[i], step(h.phase, EVENTS[i]).value) in reached
  }

  ghost predicate AllExplored(step: StepFunction, done: seq<History>, reached: set<History>) {
    forall k :: 0 <= k < |done| ==> Explored(step, done[k], |EVENTS|, reached)
  }

  /** One configuration: every event is tried, new configurations join the queue. */
  method Expand(step: StepFunction, before: History, pending0: seq<History>, reached0: set<History>)
    returns (failure: string, pending: seq<History>, reached: set<History>, accepted: nat, rejected: nat)
    requires before in reached0 && Sound(step, reached0)
    ensures failure != "" ==> !Safe(step)
    ensures failure == "" ==>
              && reached0 <= reached && Sound(step, reached)
              && pending0 <= pending
              && Distinct(pending[|pending0|..]) && Elements(pending[|pending0|..]) == reached - reached0
              && Explored(step, before, |EVENTS|, reached)
              && accepted == AcceptedEdges(step, before, |EVENTS|) && accepted + rejected == |EVENTS|
  {
    hide Explored, AcceptedEdges, EdgeOk, Safe, Sound, Distinct;
    failure, pending, reached, accepted, rejected := "", pending0, reached0, 0, 0;
    ghost var added: seq<History> := [];
    NothingExplored(step, before, reached0);
    for i := 0 to |EVENTS|
      invariant reached0 <= reached && Sound(step, reached)
      invariant pending == pending0 + added && Distinct(added) && Elements(added) == reached - reached0
      invariant Explored(step, before, i, reached)
      invariant accepted == AcceptedEdges(step, before, i) && accepted + rejected == i
    {
      var event := EVENTS[i];
      var next := step(before.phase, event);
      ghost var known := reached;
      if next == None {
        rejected := rejected + 1;
      } else {
        accepted := accepted + 1;
        var phase := next.value;
        var after := Extend(before, event, phase);
        if !EdgeOk(before, event, phase) {
          failure := if before.sealed && event != Close && event != Fail then "terminal state reopened"
                     else if !Ordered(after) then "history order or replay"
                     else if phase == Complete && after.acknowledgments != 1 then "success without acknowledgment"
                     else "close not terminal";
          UnsafeEdge(step, reached, before, event, phase);
          return;
        }
        StillSound(step, reached, before, event, phase);
        if after !in reached {
          OneMoreAdded(added, after);
          reached := reached + {after};
          pending := pending + [after];
          added := added + [after];
        }
      }
      ExploredNext(step, before, i, known, reached);
    }
    assert pending[|pending0|..] == added;
  }

  lemma NothingExplored(step: StepFunction, before: History, reached: set<History>)
    ensures Explored(step, before, 0, reached) && AcceptedEdges(step, before, 0) == 0
    ensures var none: seq<History> := []; Distinct(none) && Elements(none) == {}
  {
  }

  lemma UnsafeEdge(step: StepFunction, reached: set<History>, before: History, event: Event, phase: Phase)
    requires Sound(step, reached) && before in reached && step(before.phase, event) == Some(phase)
    requires !EdgeOk(before, event, phase)
    ensures !Safe(step)
  {
    hide EdgeOk;
  }

  lemma StillSound(step: StepFunction, reached: set<History>, before: History, event: Event, phase: Phase)
    requires Sound(step, reached) && before in reached && step(before.phase, event) == Some(phase)
    requires EdgeOk(before, event, phase)
    ensures Sound(step, reached + {Extend(before, event, phase)})
  {
    hide Reachable, Configurations;
    ReachableNext(step, before, event, phase);
    OrderedIsConfiguration(Extend(before, event, phase));
  }

  lemma OneMoreAdded(added: seq<History>, after: History)
    requires Distinct(added) && after !in Elements(added)
    ensures Distinct(added + [after]) && Elements(added + [after]) == Elements(added) + {after}
  {
    assert forall k :: 0 <= k < |added| ==> added[k] in Elements(added);
  }

  lemma ExploredNext(step: StepFunction, before: History, i: nat, known: set<History>, reached: set<History>)
    requires i < |EVENTS| && Explored(step, before, i, known) && known <= reached
    requires step(before.phase, EVENTS[i]).Some? ==>
               && EdgeOk(before, EVENTS[i], step(before.phase, EVENTS[i]).value)
               && Extend(before, EVENTS[i], step(before.phase, EVENTS[i]).value) in reached
    ensures Explored(step, before, i + 1, reached)
    ensures AcceptedEdges(step, before, i + 1)
         == AcceptedEdges(step, before, i) + if step(before.phase, EVENTS[i]).Some? then 1 else 0
  {
    hide EdgeOk;
  }

  lemma EveryPhase(p: Phase)
    ensures p in PHASES
  {
    match p
    case Starting =>
    case Ready =>
    case Receiving =>
    case Received =>
    case Completing =>
    case Complete =>
    case Failed =>
    case Closed =>
  }

  lemma EveryEvent(event: Event)
    ensures event in EVENTS
  {
    match event
    case Open => assert EVENTS[0] == event;
    case Receive => assert EVENTS[1] == event;
    case Accept => assert EVENTS[2] == event;
    case Finish => assert EVENTS[3] == event;
    case Ack => assert EVENTS[4] == event;
    case Fail => assert EVENTS[5] == event;
    case Close => assert EVENTS[6] == event;
  }

  lemma {:induction false} ReachedAll(step: StepFunction, events: seq<Event>, done: seq<History>, reached: set<History>)
    requires INITIAL in reached && Elements(done) == reached && AllExplored(step, done, reached)
    ensures Follow(step, events).Some? ==> Follow(step, events).value in reached
  {
    if events != [] {
      ReachedAll(step, events[..|events| - 1], done, reached);
      EveryEvent(events[|events| - 1]);
      if Follow(step, events).Some? {
        var h := Follow(step, events[..|events| - 1]).value;
        assert h in Elements(done);
        var k :| 0 <= k < |done| && done[k] == h;
        assert Explored(step, done[k], |EVENTS|, reached);
      }
    }
  }

  /** A closed walk has reached exactly the reachable configurations, and is safe. */
  lemma ClosedWalk(step: StepFunction, done: seq<History>, reached: set<History>)
    requires INITIAL in reached && Elements(done) == reached && AllExplored(step, done, reached) && Sound(step, reached)
    ensures forall h :: h in reached <==> Reachable(step, h)
    ensures Safe(step)
  {
    forall h | Reachable(step, h)
      ensures h in reached
    {
      var events :| Follow(step, events) == Some(h);
      ReachedAll(step, events, done, reached);
    }
    forall h, event | Reachable(step, h) && step(h.phase, event).Some?
      ensures EdgeOk(h, event, step(h.phase, event).value)
    {
      assert h in Elements(done);
      var k :| 0 <= k < |done| && done[k] == h;
      EveryEvent(event);
      assert Explored(step, done[k], |EVENTS|, reached);
    }
  }

  /** The set of reachable configurations, listed once each, with the edges counted. */
  ghost predicate Counts(step: StepFunction, nodes: seq<History>, r: Outcome) {
    && r.Pass? && Distinct(nodes) && (forall h :: h in nodes <==> Reachable(step, h))
    && r.configurations == |nodes| && r.accepted == TotalAccepted(step, nodes)
    && r.accepted + r.rejected == |EVENTS| * |nodes|
  }

  /** The walk so far: `done` is expanded, `pending` is queued, nothing else is reached. */
  ghost predicate Walking(step: StepFunction, done: seq<History>, pending: seq<History>, reached: set<History>,
                          accepted: nat, rejected: nat) {
    && INITIAL in reached && Sound(step, reached)
    && Distinct(done + pending) && Elements(done + pending) == reached
    && AllExplored(step, done, reached)
    && accepted == TotalAccepted(step, done) && accepted + rejected == |EVENTS| * |done|
  }

  lemma WalkStart(step: StepFunction)
    ensures Walking(step, [], [INITIAL], {INITIAL}, 0, 0)
  {
    assert Follow(step, []) == Some(INITIAL);
    OrderedIsConfiguration(INITIAL);
  }

  lemma WalkFits(step: StepFunction, done: seq<History>, pending: seq<History>, reached: set<History>,
                 accepted: nat, rejected: nat)
    requires Walking(step, done, pending, reached, accepted, rejected)
    ensures |done| + |pending| <= |Configurations()|
    ensures forall h :: h in pending ==> h in reached
    ensures Sound(step, reached)
  {
    DistinctCardinality(done + pending);
    SubsetCardinality(reached, Configurations());
    assert forall h :: h in pending ==> h in Elements(done + pending);
  }

  lemma WalkStep(step: StepFunction, done: seq<History>, pending: seq<History>, reached: set<History>,
                 accepted: nat, rejected: nat, added: seq<History>, known: set<History>, yes: nat, no: nat)
    requires pending != [] && Walking(step, done, pending, reached, accepted, rejected)
    requires reached <= known && Sound(step, known)
    requires Distinct(added) && Elements(added) == known - reached
    requires Explored(step, pending[0], |EVENTS|, known)
    requires yes == AcceptedEdges(step, pending[0], |EVENTS|) && yes + no == |EVENTS|
    ensures Walking(step, done + [pending[0]], pending[1..] + added, known, accepted + yes, rejected + no)
  {
    var next := done + [pending[0]];
    QueueGrows(done + pending, added, reached, known);
    assert next + (pending[1..] + added) == done + pending + added;
    assert next[..|next| - 1] == done;
    forall k | 0 <= k < |next|
      ensures Explored(step, next[k], |EVENTS|, known)
    {
      if k < |done| { assert Explored(step, done[k], |EVENTS|, reached); }
    }
  }

  /** `check`: for any step function it terminates, and passes exactly when the step function is
      safe in every reachable configuration and the coverage assertions hold. */
  method Check(step: StepFunction) returns (r: Outcome)
    ensures r.Pass? <==> Safe(step) && Covers(step)
    ensures r.Pass? ==> exists nodes :: Counts(step, nodes, r)
  {
    hide Walking, Safe, Covers, Sound, Explored, Counts;
    var pending := [INITIAL];
    var reached := {INITIAL};
    var accepted, rejected := 0, 0;
    ghost var done: seq<History> := [];
    WalkStart(step);
    while pending != []
      invariant Walking(step, done, pending, reached, accepted, rejected)
      decreases |Configurations()| - |done|
    {
      WalkFits(step, done, pending, reached, accepted, rejected);
      var before := pending[0];
      var failure, more, known, yes, no := Expand(step, before, pending[1..], reached);
      if failure != "" {
        return AssertionError(failure);
      }
      ghost var added := more[|pending| - 1..];
      WalkStep(step, done, pending, reached, accepted, rejected, added, known, yes, no);
      assert more == pending[1..] + added;
      done := done + [before];
      pending, reached := more, known;
      accepted, rejected := accepted + yes, rejected + no;
    }
    r := Coverage(step, reached, accepted, rejected, done);
  }

  /** The two coverage assertions after the walk, and the report. */
  method Coverage(step: StepFunction, reached: set<History>, accepted: nat, rejected: nat, ghost done: seq<History>)
    returns (r: Outcome)
    requires Walking(step, done, [], reached, accepted, rejected)
    ensures r.Pass? <==> Safe(step) && Covers(step)
    ensures r.Pass? ==> Counts(step, done, r)
  {
    hide Reachable, Safe, Walking, Counts;
    WalkEnd(step, done, reached, accepted, rejected);
    var phases := set h | h in reached :: h.phase;
    CoveredPhases(step, reached, phases);
    if phases != PHASES {
      return AssertionError("unreachable phase/vacuous check");
    }
    if !(exists h :: h in reached && h.acknowledgments == 1) {
      return AssertionError("success path unreachable");
    }
    r := Pass(|reached|, accepted, rejected);
  }

  lemma WalkEnd(step: StepFunction, done: seq<History>, reached: set<History>, accepted: nat, rejected: nat)
    requires Walking(step, done, [], reached, accepted, rejected)
    ensures Safe(step) && forall h :: h in reached <==> Reachable(step, h)
    ensures Counts(step, done, Pass(|reached|, accepted, rejected))
  {
    assert done + [] == done;
    ClosedWalk(step, done, reached);
    hide Reachable, Safe, AllExplored;
    assert forall h :: h in done <==> h in Elements(done);
    DistinctCardinality(done);
  }

  lemma CoveredPhases(step: StepFunction, reached: set<History>, phases: set<Phase>)
    requires forall h :: h in reached <==> Reachable(step, h)
    requires phases == set h | h in reached :: h.phase
    ensures phases == PHASES <==> forall p: Phase :: PhaseReached(step, p)
  {
    hide Reachable;
    forall p: Phase
      ensures p in phases <==> PhaseReached(step, p)
    {
    }
    forall p: Phase ensures p in PHASES { EveryPhase(p); }
  }

  lemma QueueGrows(queue: seq<History>, added: seq<History>, reached: set<History>, known: set<History>)
    requires Distinct(queue) && Elements(queue) == reached
    requires Distinct(added) && reached <= known && Elements(added) == known - reached
    ensures Distinct(queue + added) && Elements(queue + added) == known
  {
    forall i, j | 0 <= i < |queue| && 0 <= j < |added|
      ensures queue[i] != added[j]
    {
      assert queue[i] in Elements(queue) && added[j] in Elements(added);
    }
    assert Elements(queue + added) == Elements(queue) + Elements(added);
  }

  // ----- What a pass means for event sequences -----

  function CountOf(events: seq<Event>, event: Event): nat {
    if events == [] then 0
    else CountOf(events[..|events| - 1], event) + if events[|events| - 1] == event then 1 else 0
  }

  lemma {:induction false} HistoryCounts(step: StepFunction, events: seq<Event>)
    requires Follow(step, events).Some?
    ensures var h := Follow(step, events).value;
            && h.requests == CountOf(events, Receive) && h.accepts == CountOf(events, Accept)
            && h.completions == CountOf(events, Finish) && h.acknowledgments == CountOf(events, Ack)
            && (h.sealed <==> Fail in events || Close in events)
  {
    if events != [] {
      HistoryCounts(step, events[..|events| - 1]);
      InFrontOrLast(events);
    }
  }

  lemma InFrontOrLast(events: seq<Event>)
    requires events != []
    ensures forall e :: e in events <==> e in events[..|events| - 1] || e == events[|events| - 1]
  {
    assert events == events[..|events| - 1] + [events[|events| - 1]];
  }

  lemma {:induction false} FollowPrefix(step: StepFunction, events: seq<Event>, n: nat)
    requires n <= |events| && Follow(step, events).Some?
    ensures Follow(step, events[..n]).Some?
    decreases |events|
  {
    if n < |events| {
      assert events[..|events| - 1][..n] == events[..n];
      FollowPrefix(step, events[..|events| - 1], n);
    } else {
      assert events[..n] == events;
    }
  }

  /** In every sequence that a passed step function accepts: acknowledgments never outrun
      completions, those accepts, those requests, and at most one request is made; COMPLETE is
      reached only acknowledged; a close leads to CLOSED; and after a failure or close only
      failures and closes follow. */
  lemma SafeSequences(step: StepFunction, events: seq<Event>)
    requires Safe(step) && Follow(step, events).Some?
    ensures CountOf(events, Ack) <= CountOf(events, Finish) <= CountOf(events, Accept) <= CountOf(events, Receive) <= 1
    ensures events != [] && Follow(step, events).value.phase == Complete ==> CountOf(events, Ack) == 1
    ensures events != [] && events[|events| - 1] == Close ==> Follow(step, events).value.phase == Closed
    ensures forall i, j :: 0 <= i < j < |events| && events[i] in {Fail, Close} ==> events[j] in {Fail, Close}
  {
    HistoryCounts(step, events);
    if events != [] {
      LastEdge(step, events);
    }
    forall i, j | 0 <= i < j < |events| && events[i] in {Fail, Close}
      ensures events[j] in {Fail, Close}
    {
      SealedStays(step, events, i, j);
    }
  }

  lemma SealedStays(step: StepFunction, events: seq<Event>, i: nat, j: nat)
    requires Safe(step) && Follow(step, events).Some?
    requires i < j < |events| && events[i] in {Fail, Close}
    ensures events[j] in {Fail, Close}
  {
    hide Safe, Follow, CountOf;
    var front := events[..j + 1];
    FollowPrefix(step, events, j + 1);
    LastEdge(step, front);
    assert front[..j] == events[..j] && events[..j][i] == events[i];
    HistoryCounts(step, events[..j]);
  }

  lemma LastEdge(step: StepFunction, events: seq<Event>)
    requires Safe(step) && events != [] && Follow(step, events).Some?
    ensures var front, last := events[..|events| - 1], events[|events| - 1];
            Follow(step, front).Some? && step(Follow(step, front).value.phase, last).Some? &&
            EdgeOk(Follow(step, front).value, last, step(Follow(step, front).value.phase, last).value)
  {
    assert Reachable(step, Follow(step, events[..|events| - 1]).value);
  }

  // ----- The runtime relation passes -----

  predicate HandoffHistory(h: History) {
    match h.phase
    case Starting => h == INITIAL
    case Ready => h == INITIAL.(phase := Ready)
    case Receiving => h == History(Receiving, 1, 0, 0, 0, false)
    case Received => h == History(Received, 1, 1, 0, 0, false)
    case Completing => h == History(Completing, 1, 1, 1, 0, false)
    case Complete => h == History(Complete, 1, 1, 1, 1, false)
    case Failed => Ordered(h) && h.sealed && h.acknowledgments == 0
    case Closed => Ordered(h) && h.sealed
  }

  lemma {:induction false} HandoffHistories(events: seq<Event>)
    requires Follow(Transition, events).Some?
    ensures HandoffHistory(Follow(Transition, events).value)
  {
    if events != [] { HandoffHistories(events[..|events| - 1]); }
  }

  lemma HandoffSafe()
    ensures Safe(Transition)
  {
    forall h, event | Reachable(Transition, h) && Transition(h.phase, event).Some?
      ensures EdgeOk(h, event, Transition(h.phase, event).value)
    {
      var events :| Follow(Transition, events) == Some(h);
      HandoffHistories(events);
    }
  }

  /** The events of a successful exchange, and the phases they lead to. */
  const EXCHANGE: seq<Event> := [Open, Receive, Accept, Finish, Ack]
  const PATH: seq<Phase> := [Starting, Ready, Receiving, Received, Completing, Complete]

  function Along(n: nat): History
    requires n <= 5
  {
    if n == 0 then INITIAL else Extend(Along(n - 1), EXCHANGE[n - 1], PATH[n])
  }

  lemma {:induction false} ExchangeReached(n: nat)
    requires n <= 5
    ensures Reachable(Transition, Along(n)) && Along(n).phase == PATH[n]
    ensures PhaseReached(Transition, PATH[n])
    ensures Along(n).acknowledgments == if n == 5 then 1 else 0
  {
    hide Reachable, Transition;
    if n == 0 {
      AtFirst();
    } else {
      ExchangeReached(n - 1);
      Exchanges(n - 1);
      ReachableNext(Transition, Along(n - 1), EXCHANGE[n - 1], PATH[n]);
    }
  }

  lemma AtFirst()
    ensures Reachable(Transition, INITIAL)
  {
    assert Follow(Transition, []) == Some(INITIAL);
  }

  lemma Exchanges(n: nat)
    requires n < 5
    ensures Transition(PATH[n], EXCHANGE[n]) == Some(PATH[n + 1])
  {
  }

  lemma EndsReached()
    ensures PhaseReached(Transition, Failed) && PhaseReached(Transition, Closed)
  {
    ExchangeReached(0);
    ReachableNext(Transition, INITIAL, Fail, Failed);
    ReachableNext(Transition, INITIAL, Close, Closed);
    assert Extend(INITIAL, Fail, Failed).phase == Failed && Extend(INITIAL, Close, Closed).phase == Closed;
  }

  lemma HandoffCovers()
    ensures Covers(Transition)
  {
    EndsReached();
    ExchangeReached(0);
    ExchangeReached(1);
    ExchangeReached(2);
    ExchangeReached(3);
    ExchangeReached(4);
    ExchangeReached(5);
    EveryPhaseReached();
  }

  lemma EveryPhaseReached()
    requires PhaseReached(Transition, Starting) && PhaseReached(Transition, Ready)
             && PhaseReached(Transition, Receiving)
    requires PhaseReached(Transition, Received) && PhaseReached(Transition, Completing)
    requires PhaseReached(Transition, Complete) && PhaseReached(Transition, Failed) && PhaseReached(Transition, Closed)
    ensures forall p: Phase :: PhaseReached(Transition, p)
  {
    hide PhaseReached;
    forall p: Phase
      ensures PhaseReached(Transition, p)
    {
      match p
      case Starting =>
      case Ready =>
      case Receiving =>
      case Received =>
      case Completing =>
      case Complete =>
      case Failed =>
      case Closed =>
    }
  }

  /** With the runtime relation the check returns normally. */
  method CheckHandoff() returns (r: Outcome)
    ensures r.Pass?
  {
    HandoffSafe();
    HandoffCovers();
    r := Check(Transition);
  }
}
