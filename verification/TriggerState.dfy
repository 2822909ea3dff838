/**
 The deferred-trigger state of tools/debian_trigger_state.py: pending work, awaited
 packages and at most one running batch, with activation, start and completion.

 A sorted duplicate-free tuple is the set it lists. An attempt digest and a content
 digest are the records they digest, so equal digests mean equal records.
 */
module TriggerState {
  import opened NiaCommon
  import opened Ordering
  import opened Triggers
  import opened WaitGraph

  const MAX_REVISION := 0x7FFF_FFFF_FFFF_FFFF
  const MAX_STATE_BYTES := 16 * 1024 * 1024

  datatype Running = Running(receiver: string, names: set<string>, startedRevision: int)

  datatype State = State(
    binding: string, revision: int, pending: set<(string, string)>, awaited: set<Edge>, running: Option<Running>)

  // ----- The state invariant -----

  predicate PendingRow(row: (string, string)) {
    Digest(row.0) && TriggerName(row.1)
  }

  predicate AwaitedRow(row: Edge) {
    Digest(row.0) && Digest(row.1) && row.0 != row.1
  }

  predicate RunningValid(running: Running) {
    && Digest(running.receiver) && 1 <= running.startedRevision <= MAX_REVISION
    && 1 <= |running.names| <= MAX_EVENTS
    && forall n :: n in running.names ==> TriggerName(n)
  }

  function Busy(pending: set<(string, string)>): set<string> {
    set row | row in pending :: row.0
  }

  /** Packages with outstanding work: pending, themselves waiting, or running. */
  function Outstanding(s: State): set<string> {
    Busy(s.pending) + (set e | e in s.awaited :: e.0) + if s.running.Some? then {s.running.value.receiver} else {}
  }

  predicate TablesValid(s: State) {
    && |s.pending| <= MAX_EVENTS && (forall row :: row in s.pending ==> PendingRow(row))
    && |s.awaited| <= MAX_ROUTES && (forall row :: row in s.awaited ==> AwaitedRow(row))
    && forall e :: e in s.awaited ==> e.1 in Outstanding(s)
  }

  predicate StateValid(s: State) {
    && Digest(s.binding) && 0 <= s.revision <= MAX_REVISION
    && TablesValid(s)
    && (s.running.Some? ==> RunningValid(s.running.value) && s.running.value.startedRevision <= s.revision)
    && (s.revision == 0 ==> s.pending == {} && s.awaited == {} && s.running == None)
  }

  function Initial(binding: string): State {
    State(binding, 0, {}, {}, None)
  }

  // ----- Checkpoint size: the length of the canonical JSON text -----

  function EscapedLength(c: char): nat {
    if c == '"' || c == '\\' || c as int in {8, 9, 10, 12, 13} then 2
    else if ' ' <= c <= '~' then 1
    else if c as int <= 0xFFFF then 6
    else 12
  }

  function QuotedLength(s: string): (n: nat)
    ensures n >= 2
  {
    if s == "" then 2 else QuotedLength(s[..|s| - 1]) + EscapedLength(s[|s| - 1])
  }

  function PairLength(row: (string, string)): nat {
    3 + QuotedLength(row.0) + QuotedLength(row.1)
  }

  /** Rows of the given lengths, each followed by a separator. */
  function RowSum(lengths: seq<nat>): nat {
    if lengths == [] then 0 else RowSum(lengths[..|lengths| - 1]) + lengths[|lengths| - 1] + 1
  }

  function PairLengths(rows: seq<(string, string)>): seq<nat> {
    seq(|rows|, i requires 0 <= i < |rows| => PairLength(rows[i]))
  }

  function NameLengths(names: seq<string>): seq<nat> {
    seq(|names|, i requires 0 <= i < |names| => QuotedLength(names[i]))
  }

  ghost function PairListing(rows: set<(string, string)>): (r: seq<(string, string)>)
    ensures Increasing(r, PairLess) && Elements(r) == rows && |r| == |rows|
  {
    PairOrder();
    Listing(rows, PairLess)
  }

  ghost function NameListing(names: set<string>): (r: seq<string>)
    ensures Increasing(r, TextLess) && Elements(r) == names && |r| == |names|
  {
    TextOrder();
    Listing(names, TextLess)
  }

  ghost function ActiveNames(s: State): set<string> {
    if s.running.Some? then s.running.value.names else {}
  }

  /** The bound `encode` accumulates: a framing allowance and every row. */
  ghost function EncodedBound(s: State): nat {
    512 + RowSum(PairLengths(PairListing(s.pending))) + RowSum(PairLengths(PairListing(s.awaited)))
    + RowSum(NameLengths(NameListing(ActiveNames(s))))
  }

  ghost predicate Encodable(s: State) {
    StateValid(s) && EncodedBound(s) <= MAX_STATE_BYTES
  }

  // ----- The operations -----

  /** `activate`: new work is added, nothing is removed, an unchanged table keeps the revision. */
  ghost function Activate(s: State, deliveries: seq<Delivery>): Result<State> {
    if !StateValid(s) then Invalid("trigger state")
    else if s.revision == MAX_REVISION then Invalid("trigger state revision exhausted")
    else if !DeliveriesAccepted(deliveries) then Invalid("trigger delivery")
    else
      var r := State(s.binding, s.revision + 1, s.pending + PendingPairs(deliveries),
                     s.awaited + AwaitedPairs(deliveries), s.running);
      if !Encodable(r) then Invalid("trigger state bound")
      else if r.pending == s.pending && r.awaited == s.awaited then Ok(s)
      else Ok(r)
  }

  function NamesFor(pending: set<(string, string)>, receiver: string): set<string> {
    set row | row in pending && row.0 == receiver :: row.1
  }

  /** What a start makes of a state. */
  function StartedState(s: State, receiver: string): State {
    State(s.binding, s.revision + 1, (set row | row in s.pending && row.0 != receiver), s.awaited,
          Some(Running(receiver, NamesFor(s.pending, receiver), s.revision + 1)))
  }

  /** `start`: every pending name of the receiver moves into the running batch. */
  ghost function Start(s: State, receiver: string): Result<State> {
    if !StateValid(s) then Invalid("trigger state")
    else if s.revision == MAX_REVISION then Invalid("trigger state revision exhausted")
    else if !Digest(receiver) then Invalid("noncanonical or absent SHA-256")
    else if s.running.Some? then Invalid("active trigger handler requires reconciliation")
    else if NamesFor(s.pending, receiver) == {} then Invalid("receiver has no pending triggers")
    else if Encodable(StartedState(s, receiver)) then Ok(StartedState(s, receiver))
    else Invalid("trigger state bound")
  }

  /** What an attempt digest binds. */
  datatype Token =
    | Attempt(binding: string, revision: int, receiver: string, names: set<string>)
    | OtherDigest(text: string)

  function AttemptOf(s: State): Token
    requires s.running.Some?
  {
    Attempt(s.binding, s.running.value.startedRevision, s.running.value.receiver, s.running.value.names)
  }

  /** `observe_success`, as a function: the blocked edges stay, the batch ends. */
  ghost function Complete(s: State, expected: Token): Result<State> {
    if !StateValid(s) then Invalid("trigger state")
    else if s.revision == MAX_REVISION then Invalid("trigger state revision exhausted")
    else if s.running == None then Invalid("no active trigger handler")
    else if expected != AttemptOf(s) then Invalid("completion is for a different trigger attempt")
    else Ok(State(s.binding, s.revision + 1, s.pending, Remaining(s.awaited, Busy(s.pending)), None))
  }

  lemma RunningAccounted(s: State)
    requires StateValid(s) && s.running.Some?
    ensures Accounted(s.awaited, Busy(s.pending), s.running.value.receiver)
  {
    forall e | e in s.awaited
      ensures e.1 in Busy(s.pending) || Targets(s.awaited, e.1) != {} || e.1 == s.running.value.receiver
    {
      assert e.1 in Outstanding(s);
      if e.1 in (set f | f in s.awaited :: f.0) {
        var f :| f in s.awaited && f.0 == e.1;
        assert f.1 in Targets(s.awaited, e.1);
      }
    }
  }

  /** The package has pending work, or waits in a circle for itself. */
  ghost predicate HasWorkOrCycle(s: State, package: string) {
    (exists name :: (package, name) in s.pending) || OnCycle(s.awaited, package)
  }

  /** Along the waits, the package can reach one with pending work or on a cycle. */
  ghost predicate StillHeld(s: State, package: string) {
    exists w :: IsWalk(s.awaited, w) && w[0] == package && HasWorkOrCycle(s, w[|w| - 1])
  }

  lemma WorkOf(pending: set<(string, string)>, receiver: string)
    ensures receiver in Busy(pending) <==> exists name :: (receiver, name) in pending
    ensures receiver in Busy(pending) <==> NamesFor(pending, receiver) != {}
  {
    if receiver in Busy(pending) {
      var row :| row in pending && row.0 == receiver;
      assert (receiver, row.1) in pending;
      assert row.1 in NamesFor(pending, receiver);
    }
    if NamesFor(pending, receiver) != {} {
      var name :| name in NamesFor(pending, receiver);
    }
  }

  lemma HeldIsBlocked(s: State, package: string)
    ensures StillHeld(s, package) <==> Blocked(s.awaited, Busy(s.pending), package)
  {
    hide IsWalk, OnCycle;
    forall n
      ensures HasWorkOrCycle(s, n) <==> n in Busy(s.pending) || OnCycle(s.awaited, n)
    {
      WorkOf(s.pending, n);
    }
  }

  /** What a completion leaves: the pending work, no batch, and exactly the waits for packages still held. */
  ghost predicate CompletedFrom(s: State, r: State) {
    && r == State(s.binding, s.revision + 1, s.pending, r.awaited, None)
    && forall e :: e in r.awaited <==> e in s.awaited && StillHeld(s, e.1)
  }

  /** A completion is accepted exactly for the current attempt, whatever else is pending or awaited. */
  lemma CompletionSucceedsExactly(s: State, token: Token)
    ensures Step(s, Succeeded(token)).Ok? <==>
            && StateValid(s) && s.revision < MAX_REVISION && s.running.Some?
            && token == Attempt(s.binding, s.running.value.startedRevision, s.running.value.receiver,
                                s.running.value.names)
    ensures Step(s, Succeeded(token)).Ok? ==> CompletedFrom(s, Step(s, Succeeded(token)).value)
  {
    hide TablesValid, RunningValid, Digest, Blocked, StillHeld;
    if Complete(s, token).Ok? {
      forall e | e in s.awaited
        ensures StillHeld(s, e.1) <==> Blocked(s.awaited, Busy(s.pending), e.1)
      {
        HeldIsBlocked(s, e.1);
      }
    }
  }

  /** The worklist computes the blocked edges, and the state it builds is never refused. */
  method ObserveSuccess(s: State, expected: Token) returns (r: Result<State>)
    ensures r == Complete(s, expected)
    ensures r.Ok? <==> StateValid(s) && s.revision < MAX_REVISION && s.running.Some? && expected == AttemptOf(s)
    ensures r.Ok? ==> StateValid(r.value) && CompletedFrom(s, r.value)
  {
    hide StateValid, Accounted, Remaining, CompletedFrom;
    CompletionSucceedsExactly(s, expected);
    if !StateValid(s) { return Invalid("trigger state"); }
    if s.revision == MAX_REVISION { return Invalid("trigger state revision exhausted"); }
    if s.running == None { return Invalid("no active trigger handler"); }
    if expected != AttemptOf(s) { return Invalid("completion is for a different trigger attempt"); }
    RunningAccounted(s);
    var awaited := Release(s.awaited, Busy(s.pending), s.running.value.receiver);
    var result := State(s.binding, s.revision + 1, s.pending, awaited, None);
    CompletionValid(s, expected);
    return Ok(result);
  }

  lemma CompletionValid(s: State, expected: Token)
    requires Complete(s, expected).Ok?
    ensures StateValid(Complete(s, expected).value)
  {
    var busy := Busy(s.pending);
    var r := Complete(s, expected).value;
    assert r.awaited <= s.awaited;
    SubsetCardinality(r.awaited, s.awaited);
    forall e | e in r.awaited
      ensures e.1 in Outstanding(r)
    {
      if e.1 !in busy {
        var u := BlockedBecause(s.awaited, busy, e.1);
        assert (e.1, u) in r.awaited;
      }
    }
  }

  lemma ActivationValid(s: State, deliveries: seq<Delivery>)
    requires StateValid(s) && DeliveriesAccepted(deliveries)
    ensures forall row :: row in PendingPairs(deliveries) ==> PendingRow(row)
    ensures forall e :: e in AwaitedPairs(deliveries) ==> AwaitedRow(e) && e.1 in Busy(PendingPairs(deliveries))
  {
    forall row | row in PendingPairs(deliveries)
      ensures PendingRow(row)
    {
      var d :| d in deliveries && row == (d.receiver, d.name);
      var i :| 0 <= i < |deliveries| && deliveries[i] == d;
      assert DeliveryAccepted(deliveries[i]);
    }
    forall e | e in AwaitedPairs(deliveries)
      ensures AwaitedRow(e) && e.1 in Busy(PendingPairs(deliveries))
    {
      var d :| d in deliveries && d.waits && e == (d.origin, d.receiver);
      var i :| 0 <= i < |deliveries| && deliveries[i] == d;
      assert DeliveryAccepted(deliveries[i]);
      assert (d.receiver, d.name) in PendingPairs(deliveries);
    }
  }

  lemma MergedTables(s: State, r: State, deliveries: seq<Delivery>)
    requires StateValid(s) && r.running == s.running
    requires r.pending == s.pending + PendingPairs(deliveries) && r.awaited == s.awaited + AwaitedPairs(deliveries)
    requires forall row :: row in PendingPairs(deliveries) ==> PendingRow(row)
    requires forall e :: e in AwaitedPairs(deliveries) ==> AwaitedRow(e) && e.1 in Busy(PendingPairs(deliveries))
    ensures TablesValid(r) <==> |r.pending| <= MAX_EVENTS && |r.awaited| <= MAX_ROUTES
  {
    hide PendingRow, AwaitedRow, PendingPairs, AwaitedPairs, Digest, RunningValid;
    assert Outstanding(s) <= Outstanding(r);
    assert Busy(PendingPairs(deliveries)) <= Busy(r.pending);
  }

  /** Activation is refused only for the revision, the table bounds or the encoded size. */
  lemma ActivationRefusedOnlyByLimits(s: State, deliveries: seq<Delivery>)
    requires StateValid(s) && DeliveriesAccepted(deliveries) && s.revision < MAX_REVISION
    ensures var r := State(s.binding, s.revision + 1, s.pending + PendingPairs(deliveries),
                           s.awaited + AwaitedPairs(deliveries), s.running);
            Activate(s, deliveries).Ok? <==>
            |r.pending| <= MAX_EVENTS && |r.awaited| <= MAX_ROUTES && EncodedBound(r) <= MAX_STATE_BYTES
    ensures Activate(s, deliveries).Ok? ==>
              var r := Activate(s, deliveries).value;
              && r.binding == s.binding && r.running == s.running
              && r.pending == s.pending + PendingPairs(deliveries) && r.awaited == s.awaited + AwaitedPairs(deliveries)
              && r.revision == s.revision + if r.pending == s.pending && r.awaited == s.awaited then 0 else 1
  {
    hide TablesValid, RunningValid, EncodedBound, DeliveriesAccepted, Digest, PendingPairs, AwaitedPairs, PendingRow,
         AwaitedRow;
    ActivationValid(s, deliveries);
    var r := State(s.binding, s.revision + 1, s.pending + PendingPairs(deliveries),
                   s.awaited + AwaitedPairs(deliveries), s.running);
    MergedTables(s, r, deliveries);
  }

  /** A routed batch reaches `activate` without any refusal but those limits. */
  lemma RoutedActivation(activations: seq<Activation>, packages: Packages, deliveries: seq<Delivery>, s: State)
    requires RouteAccepted(activations, packages) && RouteResult(activations, packages, deliveries)
    requires StateValid(s) && s.revision < MAX_REVISION
    ensures DeliveriesAccepted(deliveries)
    ensures forall d :: d in deliveries && d.waits ==> d.origin != d.receiver
    ensures Activate(s, deliveries).Ok? <==>
            && |s.pending + PendingPairs(deliveries)| <= MAX_EVENTS
            && |s.awaited + AwaitedPairs(deliveries)| <= MAX_ROUTES
            && EncodedBound(State(s.binding, s.revision + 1, s.pending + PendingPairs(deliveries),
                                  s.awaited + AwaitedPairs(deliveries), s.running)) <= MAX_STATE_BYTES
  {
    RoutedBatchAccepted(activations, packages, deliveries);
    ActivationRefusedOnlyByLimits(s, deliveries);
  }

  lemma RevisionIrrelevant(s: State, revision: int)
    ensures EncodedBound(s.(revision := revision)) == EncodedBound(s)
    ensures TablesValid(s.(revision := revision)) == TablesValid(s)
  {
    hide RowSum, PairLengths, NameLengths, PairListing, NameListing, PendingRow, AwaitedRow;
  }

  /** Activating the same deliveries again changes nothing. */
  lemma ActivationIsIdempotent(s: State, deliveries: seq<Delivery>)
    requires Activate(s, deliveries).Ok?
    requires Activate(s, deliveries).value.revision < MAX_REVISION
    ensures var once := Activate(s, deliveries).value;
            Activate(once, deliveries) == Ok(once)
  {
    hide TablesValid, RunningValid, EncodedBound, DeliveriesAccepted, Digest, PendingPairs, AwaitedPairs;
    var once := Activate(s, deliveries).value;
    var first := State(s.binding, s.revision + 1, s.pending + PendingPairs(deliveries),
                       s.awaited + AwaitedPairs(deliveries), s.running);
    assert StateValid(first);
    var second := State(once.binding, once.revision + 1, once.pending + PendingPairs(deliveries),
                        once.awaited + AwaitedPairs(deliveries), once.running);
    assert second.pending == first.pending == once.pending;
    assert second.awaited == first.awaited == once.awaited;
    assert second.running == first.running;
    assert second == first.(revision := once.revision + 1);
    RevisionIrrelevant(first, once.revision + 1);
  }

  // ----- Runs -----

  datatype Event = Activated(deliveries: seq<Delivery>) | Started(receiver: string) | Succeeded(token: Token)

  ghost function Step(s: State, e: Event): Result<State> {
    match e
    case Activated(deliveries) => Activate(s, deliveries)
    case Started(receiver) => Start(s, receiver)
    case Succeeded(token) => Complete(s, token)
  }

  /** A refused operation leaves the stored state as it was. */
  ghost function After(s: State, e: Event): State {
    if Step(s, e).Ok? then Step(s, e).value else s
  }

  ghost function Run(s: State, events: seq<Event>): State {
    if events == [] then s else After(Run(s, events[..|events| - 1]), events[|events| - 1])
  }

  /** Every step keeps the state invariant and moves the revision forward by at most one. */
  lemma StepKeepsInvariant(s: State, e: Event)
    requires StateValid(s)
    ensures StateValid(After(s, e)) && After(s, e).binding == s.binding
    ensures After(s, e) == s || After(s, e).revision == s.revision + 1
  {
    hide TablesValid, RunningValid, EncodedBound, DeliveriesAccepted, Digest, PendingPairs, AwaitedPairs, Remaining,
         NamesFor;
    if e.Succeeded? && Step(s, e).Ok? {
      CompletionValid(s, e.token);
    }
  }

  lemma {:induction false} RunKeepsInvariant(s: State, events: seq<Event>)
    requires StateValid(s)
    ensures StateValid(Run(s, events)) && Run(s, events).binding == s.binding
    ensures Run(s, events).revision >= s.revision
  {
    if events != [] {
      RunKeepsInvariant(s, events[..|events| - 1]);
      StepKeepsInvariant(Run(s, events[..|events| - 1]), events[|events| - 1]);
    }
  }

  lemma UnblockedIsIdle(edges: set<Edge>, busy: set<string>, t: string)
    requires !Blocked(edges, busy, t)
    ensures t !in busy
    ensures forall f :: f in Remaining(edges, busy) ==> f.0 != t
  {
    assert IsWalk(edges, [t]);
    forall f | f in edges && f.0 == t
      ensures !Blocked(edges, busy, f.1)
    {
      if Blocked(edges, busy, f.1) { BlockedByTarget(edges, busy, t, f.1); }
    }
  }

  /** An awaited edge leaves only when its target has no pending, running or awaited work left. */
  lemma ReleasedTargetIsIdle(s: State, e: Event, edge: Edge)
    requires StateValid(s) && edge in s.awaited && edge !in After(s, e).awaited
    ensures edge.1 !in Outstanding(After(s, e))
  {
    hide StateValid, Encodable, DeliveriesAccepted, Digest;
    var r := After(s, e);
    assert e.Succeeded? && Step(s, e).Ok?;
    UnblockedIsIdle(s.awaited, Busy(s.pending), edge.1);
    assert r == Complete(s, e.token).value;
  }

  /** With nothing pending or running, awaited edges can only be left by a waiting cycle. */
  lemma IdleStateHoldsOnlyCycles(s: State)
    requires StateValid(s) && s.pending == {} && s.running == None && s.awaited != {}
    ensures HasCycle(s.awaited)
  {
    hide StateValid, HasCycle, Blocked, Stuck;
    var nodes := set e | e in s.awaited :: e.1;
    AllWait(s, nodes);
    var e :| e in s.awaited;
    StuckIsBlocked(s.awaited, {}, nodes, e.1);
  }

  lemma AllWait(s: State, nodes: set<string>)
    requires StateValid(s) && s.pending == {} && s.running == None && nodes == set e | e in s.awaited :: e.1
    ensures Stuck(s.awaited, {}, nodes)
  {
    hide PendingRow, AwaitedRow, Digest, TriggerName;
    forall n | n in nodes
      ensures exists u :: u in nodes && (n, u) in s.awaited
    {
      var e :| e in s.awaited && e.1 == n;
      assert n in Outstanding(s);
      var f :| f in s.awaited && f.0 == n;
      assert f.1 in nodes && (n, f.1) in s.awaited;
    }
  }

  // ----- Conservation of trigger work -----

  /** One step either keeps a pending pair or is the start that puts it into the running batch. */
  lemma PendingUntilStarted(s: State, e: Event, row: (string, string))
    requires row in s.pending
    ensures row in After(s, e).pending ||
            (&& e == Started(row.0) && After(s, e).running.Some?
             && After(s, e).running.value ==
                  Running(row.0, NamesFor(s.pending, row.0), s.revision + 1)
             && row.1 in After(s, e).running.value.names)
  {
    hide StateValid, Encodable, DeliveriesAccepted, Digest, Remaining;
    assert row.1 in NamesFor(s.pending, row.0);
  }

  ghost predicate StartedIn(s: State, events: seq<Event>, receiver: string) {
    exists k :: 0 <= k < |events| && events[k] == Started(receiver) && Start(Run(s, events[..k]), receiver).Ok?
  }

  /** Over a run, an activated pair stays pending until its receiver is started. */
  lemma {:induction false} PendingOverRun(s: State, events: seq<Event>, row: (string, string))
    requires row in s.pending && !StartedIn(s, events, row.0)
    ensures row in Run(s, events).pending
  {
    if events != [] {
      var n := |events| - 1;
      var front := events[..n];
      assert !StartedIn(s, front, row.0) by {
        assert forall k :: 0 <= k < n ==> front[..k] == events[..k] && front[k] == events[k];
      }
      PendingOverRun(s, front, row);
      PendingUntilStarted(Run(s, front), events[n], row);
      assert events[n] == Started(row.0) ==> !Start(Run(s, events[..n]), row.0).Ok?;
    }
  }

  /** Work appears only by activation: pending rows come from before the step or from its deliveries. */
  lemma PendingComesFromActivation(s: State, e: Event, row: (string, string))
    requires row in After(s, e).pending && row !in s.pending
    ensures e.Activated? && row in PendingPairs(e.deliveries)
  {
    hide StateValid, Encodable, DeliveriesAccepted, Digest, Remaining;
  }

  /** The batch is exactly what was pending for its receiver, and it stays frozen until its own completion. */
  lemma BatchIsFrozen(s: State, e: Event)
    requires s.running.Some?
    ensures After(s, e).running == s.running || (After(s, e).running == None && e == Succeeded(AttemptOf(s)))
  {
    hide StateValid, Encodable, DeliveriesAccepted, Digest, Remaining;
  }

  /** Re-activation during a run is new pending work, whatever the batch holds. */
  lemma ReactivationIsNewWork(s: State, deliveries: seq<Delivery>, d: Delivery)
    requires Activate(s, deliveries).Ok? && d in deliveries
    ensures (d.receiver, d.name) in Activate(s, deliveries).value.pending
    ensures Activate(s, deliveries).value.running == s.running
    ensures d.waits ==> (d.origin, d.receiver) in Activate(s, deliveries).value.awaited
  {
    assert (d.receiver, d.name) in PendingPairs(deliveries);
    if d.waits { assert (d.origin, d.receiver) in AwaitedPairs(deliveries); }
  }

  /** The revision a token names belongs to no batch that runs now or later. */
  predicate Stale(s: State, token: Token) {
    token.Attempt? ==>
      token.revision <= s.revision && (s.running.Some? ==> s.running.value.startedRevision > token.revision)
  }

  lemma StaleStep(s: State, e: Event, token: Token)
    requires StateValid(s) && token.Attempt? && Stale(s, token)
    ensures Stale(After(s, e), token)
  {
    hide StateValid, Encodable, DeliveriesAccepted, Digest, Remaining;
    StepKeepsInvariant(s, e);
  }

  lemma StaleRejected(s: State, token: Token)
    requires token.Attempt? && Stale(s, token)
    ensures Complete(s, token).Invalid?
  {
    hide StateValid, Remaining;
  }

  lemma {:induction false} StaleForever(s: State, events: seq<Event>, token: Token)
    requires StateValid(s) && token.Attempt? && Stale(s, token)
    ensures Stale(Run(s, events), token)
    ensures Complete(Run(s, events), token).Invalid?
  {
    if events != [] {
      var front := events[..|events| - 1];
      StaleForever(s, front, token);
      RunKeepsInvariant(s, front);
      StaleStep(Run(s, front), events[|events| - 1], token);
    }
    StaleRejected(Run(s, events), token);
  }

  /** A completed attempt is never accepted again, in any later state. */
  lemma CompletedTokenNeverAccepted(s: State, events: seq<Event>)
    requires StateValid(s) && s.running.Some? && Complete(s, AttemptOf(s)).Ok?
    ensures Complete(Run(Complete(s, AttemptOf(s)).value, events), AttemptOf(s)).Invalid?
  {
    CompletionValid(s, AttemptOf(s));
    StaleForever(Complete(s, AttemptOf(s)).value, events, AttemptOf(s));
  }

  // ----- Checkpoints -----

  const SCHEMA := "org.niaos.trigger-state-reference/v1"

  datatype RunningDocument = RunningDocument(receiver: string, names: seq<string>, startedRevision: int)

  /** The JSON record of a checkpoint. */
  datatype Document = Document(
    schema: string, binding: string, revision: int, pending: seq<seq<string>>, awaited: seq<seq<string>>,
    running: Option<RunningDocument>, executionPermit: bool)

  /** Checkpoint bytes: the canonical text of a record, another text that parses to one, or neither. */
  datatype Raw = Canonical(document: Document) | Rendered(document: Document, length: nat) | Unparsed(length: nat)

  function DecimalLength(n: int): nat
    decreases if n < 0 then 1 - n else n
  {
    if n < 0 then 1 + DecimalLength(-n) else if n < 10 then 1 else 1 + DecimalLength(n / 10)
  }

  function ListLength(row: seq<string>): nat {
    if row == [] then 2 else RowSum(NameLengths(row)) + 1
  }

  function ListLengths(rows: seq<seq<string>>): seq<nat> {
    seq(|rows|, i requires 0 <= i < |rows| => ListLength(rows[i]))
  }

  /** Rows separated by commas. */
  function TableLength(rows: seq<seq<string>>): nat {
    if rows == [] then 2 else RowSum(ListLengths(rows)) + 1
  }

  function RunningLength(running: Option<RunningDocument>): nat {
    if running == None then |"null"|
    else
      |"{\"names\":"| + ListLength(running.value.names) + |",\"receiver\":"| + QuotedLength(running.value.receiver)
      + |",\"started_revision\":"| + DecimalLength(running.value.startedRevision) + |"}"|
  }

  function DocumentLength(d: Document): nat {
    |"{\"awaited\":"| + TableLength(d.awaited) + |",\"binding\":"| + QuotedLength(d.binding)
    + |",\"execution_permit\":"| + (if d.executionPermit then |"true"| else |"false"|)
    + |",\"pending\":"| + TableLength(d.pending) + |",\"revision\":"| + DecimalLength(d.revision)
    + |",\"running\":"| + RunningLength(d.running) + |",\"schema\":"| + QuotedLength(d.schema) + |"}"|
  }

  function RawLength(raw: Raw): nat {
    if raw.Canonical? then DocumentLength(raw.document) else raw.length
  }

  function PairRows(rows: seq<(string, string)>): seq<seq<string>> {
    seq(|rows|, i requires 0 <= i < |rows| => [rows[i].0, rows[i].1])
  }

  ghost function DocumentOf(s: State): Document {
    Document(SCHEMA, s.binding, s.revision, PairRows(PairListing(s.pending)), PairRows(PairListing(s.awaited)),
             if s.running == None then None
             else Some(RunningDocument(s.running.value.receiver, NameListing(s.running.value.names),
                                       s.running.value.startedRevision)),
             false)
  }

  /** `encode`, with both size tests. */
  ghost function Encode(s: State): Result<Raw> {
    if !StateValid(s) then Invalid("trigger state")
    else if EncodedBound(s) > MAX_STATE_BYTES then Invalid("trigger state byte limit")
    else if DocumentLength(DocumentOf(s)) > MAX_STATE_BYTES then Invalid("trigger state byte limit")
    else Ok(Canonical(DocumentOf(s)))
  }

  ghost predicate RowsCanonical(rows: seq<seq<string>>) {
    && (forall i :: 0 <= i < |rows| ==> |rows[i]| == 2)
    && Increasing(RowPairs(rows), PairLess)
  }

  function RowPairs(rows: seq<seq<string>>): seq<(string, string)>
    requires forall i :: 0 <= i < |rows| ==> |rows[i]| == 2
  {
    seq(|rows|, i requires 0 <= i < |rows| => (rows[i][0], rows[i][1]))
  }

  ghost function StateOf(d: Document): State
    requires RowsCanonical(d.pending) && RowsCanonical(d.awaited)
  {
    State(d.binding, d.revision, Elements(RowPairs(d.pending)), Elements(RowPairs(d.awaited)),
          if d.running == None then None
          else Some(Running(d.running.value.receiver, Elements(d.running.value.names),
                            d.running.value.startedRevision)))
  }

  /** The record is for this binding and holds three lists in order. */
  ghost predicate DocumentAccepted(d: Document, expectedBinding: string) {
    && d.schema == SCHEMA && d.binding == expectedBinding && !d.executionPermit
    && |d.pending| <= MAX_EVENTS && |d.awaited| <= MAX_ROUTES
    && (d.running.Some? ==> Increasing(d.running.value.names, TextLess))
    && RowsCanonical(d.pending) && RowsCanonical(d.awaited)
  }

  /** `decode`: the digest, the record, the tables, the state, and then the exact text again. */
  ghost function Decode(raw: Raw, expectedBinding: string, expectedContent: Raw): Result<State> {
    if !Digest(expectedBinding) then Invalid("noncanonical or absent SHA-256")
    else if RawLength(raw) > MAX_STATE_BYTES || raw != expectedContent then
      Invalid("trigger checkpoint content mismatch")
    else if raw.Unparsed? then Invalid("invalid JSON")
    else
      var d := raw.document;
      if !DocumentAccepted(d, expectedBinding) then Invalid("trigger checkpoint record")
      else
        var s := StateOf(d);
        var again := Encode(s);
        if again.Invalid? then Invalid(again.reason)
        else if again.value != raw then Invalid("trigger checkpoint is not canonical")
        else Ok(s)
  }

  lemma PairRowsInvert(rows: seq<(string, string)>)
    requires Increasing(rows, PairLess)
    ensures RowsCanonical(PairRows(rows)) && RowPairs(PairRows(rows)) == rows
  {
    var r := PairRows(rows);
    assert forall i :: 0 <= i < |r| ==> |r[i]| == 2;
    assert RowPairs(r) == rows;
  }

  /** A stored checkpoint reads back as the state it was written from. */
  lemma DecodeInvertsEncode(s: State)
    requires Encode(s).Ok?
    ensures Decode(Encode(s).value, s.binding, Encode(s).value) == Ok(s)
  {
    hide DocumentLength, EncodedBound, Digest, TablesValid, RunningValid, RowsCanonical, DocumentOf, StateOf;
    DocumentReadsBack(s);
    TableSizes(s);
  }

  lemma DocumentReadsBack(s: State)
    ensures var d := DocumentOf(s);
            && d.schema == SCHEMA && d.binding == s.binding && !d.executionPermit
            && |d.pending| == |s.pending| && |d.awaited| == |s.awaited|
            && (d.running.Some? ==> Increasing(d.running.value.names, TextLess))
            && RowsCanonical(d.pending) && RowsCanonical(d.awaited) && StateOf(d) == s
  {
    hide RowsCanonical, RowPairs, PairRows;
    PairRowsInvert(PairListing(s.pending));
    PairRowsInvert(PairListing(s.awaited));
    PairRowCount(PairListing(s.pending));
    PairRowCount(PairListing(s.awaited));
  }

  lemma PairRowCount(rows: seq<(string, string)>)
    ensures |PairRows(rows)| == |rows|
  {
  }

  lemma TableSizes(s: State)
    requires TablesValid(s)
    ensures |s.pending| <= MAX_EVENTS && |s.awaited| <= MAX_ROUTES
  {
  }

  /** Whatever is accepted is the one text of the state it returns. */
  lemma DecodeAcceptsOnlyEncoding(raw: Raw, binding: string, content: Raw)
    requires Decode(raw, binding, content).Ok?
    ensures Encode(Decode(raw, binding, content).value) == Ok(raw)
    ensures Decode(raw, binding, content).value.binding == binding && content == raw
  {
    hide DocumentLength, EncodedBound, Digest, StateValid, DocumentOf;
  }

  /** Decoding a text gives a state exactly when the text is that state's own, under its binding and digest. */
  lemma DecodeExactly(raw: Raw, binding: string, content: Raw, s: State)
    ensures Decode(raw, binding, content) == Ok(s) <==> Encode(s) == Ok(raw) && content == raw && binding == s.binding
  {
    hide Encode, Decode;
    if Decode(raw, binding, content) == Ok(s) {
      DecodeAcceptsOnlyEncoding(raw, binding, content);
    }
    if Encode(s) == Ok(raw) {
      DecodeInvertsEncode(s);
    }
  }

  // ----- The framing allowance suffices -----

  lemma {:induction false} DecimalLengthBound(n: int, k: nat)
    requires 0 <= n < Power10(k) && k >= 1
    ensures DecimalLength(n) <= k
    decreases k
  {
    if n >= 10 { DecimalLengthBound(n / 10, k - 1); }
  }

  lemma PairRowLength(a: string, b: string)
    ensures ListLength([a, b]) == PairLength((a, b))
  {
    var lengths := NameLengths([a, b]);
    assert lengths == [QuotedLength(a), QuotedLength(b)];
    assert lengths[..1] == [QuotedLength(a)] && lengths[..1][..0] == [];
    assert RowSum(lengths[..1]) == QuotedLength(a) + 1;
    assert RowSum(lengths) == QuotedLength(a) + 1 + QuotedLength(b) + 1;
  }

  lemma PairRowsLength(rows: seq<(string, string)>)
    ensures ListLengths(PairRows(rows)) == PairLengths(rows)
  {
    forall i | 0 <= i < |rows|
      ensures ListLength(PairRows(rows)[i]) == PairLength(rows[i])
    {
      PairRowLength(rows[i].0, rows[i].1);
    }
  }

  lemma {:induction false} HexQuoted(s: string)
    requires forall i :: 0 <= i < |s| ==> ' ' <= s[i] <= '~' && s[i] != '"' && s[i] != '\\'
    ensures QuotedLength(s) == |s| + 2
  {
    if s != "" { HexQuoted(s[..|s| - 1]); }
  }

  lemma RevisionLength(n: int)
    requires 0 <= n <= MAX_REVISION
    ensures DecimalLength(n) <= 19
  {
    assert Power10(19) == 10_000_000_000_000_000_000 by {
      assert Power10(5) == 100000;
      assert Power10(10) == 10000000000;
      assert Power10(15) == 1000000000000000;
    }
    DecimalLengthBound(n, 19);
  }

  lemma RunningTextBound(s: State)
    requires StateValid(s)
    ensures RunningLength(DocumentOf(s).running) <= RowSum(NameLengths(NameListing(ActiveNames(s)))) + 150
  {
    hide TablesValid;
    if s.running.Some? {
      HexQuoted(s.running.value.receiver);
      RevisionLength(s.running.value.startedRevision);
    }
  }

  lemma TableTextBound(rows: set<(string, string)>)
    ensures TableLength(PairRows(PairListing(rows))) <= RowSum(PairLengths(PairListing(rows))) + 2
  {
    PairRowsLength(PairListing(rows));
  }

  lemma HeaderTextBound(s: State)
    requires StateValid(s)
    ensures QuotedLength(s.binding) == 66 && QuotedLength(SCHEMA) == 38 && DecimalLength(s.revision) <= 19
  {
    hide TablesValid, RunningValid;
    HexQuoted(s.binding);
    HexQuoted(SCHEMA);
    RevisionLength(s.revision);
  }

  /** The text never exceeds the accumulated bound, so the second size test cannot fire. */
  lemma FramingAllowanceSuffices(s: State)
    requires StateValid(s)
    ensures DocumentLength(DocumentOf(s)) <= EncodedBound(s)
    ensures Encode(s).Ok? <==> Encodable(s)
  {
    hide StateValid, PairLengths, NameLengths, RunningLength, TableLength, RowSum, QuotedLength, DecimalLength,
         PairRows;
    TableTextBound(s.pending);
    TableTextBound(s.awaited);
    RunningTextBound(s);
    HeaderTextBound(s);
  }

  lemma {:induction false} RowSumGrows(lengths: seq<nat>, n: nat)
    requires n <= |lengths|
    ensures RowSum(lengths[..n]) <= RowSum(lengths)
    decreases |lengths|
  {
    if n < |lengths| {
      assert lengths[..|lengths| - 1][..n] == lengths[..n];
      RowSumGrows(lengths[..|lengths| - 1], n);
    } else {
      assert lengths[..n] == lengths;
    }
  }

  /** The accumulating loop of `encode` over one table. */
  method AddRows(size: nat, lengths: seq<nat>) returns (r: Result<nat>)
    requires size <= MAX_STATE_BYTES
    ensures r.Ok? <==> size + RowSum(lengths) <= MAX_STATE_BYTES
    ensures r.Ok? ==> r.value == size + RowSum(lengths)
  {
    var total := size;
    TakeAll(lengths);
    for i := 0 to |lengths|
      invariant total == size + RowSum(lengths[..i]) <= MAX_STATE_BYTES
    {
      TakeOneMore(lengths, i);
      total := total + lengths[i] + 1;
      if total > MAX_STATE_BYTES {
        RowSumGrows(lengths, i + 1);
        return Invalid("trigger state byte limit");
      }
    }
    return Ok(total);
  }

  /** `encode`. */
  method EncodeState(s: State) returns (r: Result<Raw>)
    ensures r.Ok? <==> Encode(s).Ok?
    ensures r.Ok? ==> r == Encode(s)
  {
    if !StateValid(s) { return Invalid("trigger state"); }
    FramingAllowanceSuffices(s);
    PairOrder();
    TextOrder();
    var pending := Sorted(s.pending, PairLess);
    var awaited := Sorted(s.awaited, PairLess);
    var names := Sorted(if s.running.Some? then s.running.value.names else {}, TextLess);
    var size :- AddRows(512, PairLengths(pending));
    size :- AddRows(size, PairLengths(awaited));
    size :- AddRows(size, NameLengths(names));
    return Ok(Canonical(Document(SCHEMA, s.binding, s.revision, PairRows(pending), PairRows(awaited),
                                 if s.running == None then None
                                 else Some(RunningDocument(
                                   s.running.value.receiver, names, s.running.value.startedRevision)),
                                 false)));
  }

  // ----- The other operations, as they run -----

  /** `activate`. */
  method ActivateState(s: State, deliveries: seq<Delivery>) returns (r: Result<State>)
    ensures r.Ok? <==> Activate(s, deliveries).Ok?
    ensures r.Ok? ==> r == Activate(s, deliveries)
  {
    hide StateValid, DeliveriesAccepted, EncodedBound, PendingPairs, AwaitedPairs, Encode;
    if !StateValid(s) { return Invalid("trigger state"); }
    if s.revision == MAX_REVISION { return Invalid("trigger state revision exhausted"); }
    var view :- BatchView(deliveries);
    var pending := set k, v | k in view.0 && v in view.0[k] :: (k, v);
    var awaited := set k, v | k in view.1 && v in view.1[k] :: (k, v);
    Flattened(view.0, PendingPairs(deliveries), pending);
    Flattened(view.1, AwaitedPairs(deliveries), awaited);
    var result := State(s.binding, s.revision + 1, s.pending + pending, s.awaited + awaited, s.running);
    Stored(result);
    var raw :- EncodeState(result);
    return Ok(if result.pending == s.pending && result.awaited == s.awaited then s else result);
  }

  lemma Flattened(table: map<string, set<string>>, pairs: set<(string, string)>, all: set<(string, string)>)
    requires Flattens(table, pairs) && all == set k, v | k in table && v in table[k] :: (k, v)
    ensures all == pairs
  {
    forall p | p in pairs ensures p in all {
      assert (p.0, p.1) in pairs;
    }
    forall p | p in all ensures p in pairs {
      assert (p.0, p.1) in pairs;
    }
  }

  /** What can be encoded, valid or not. */
  lemma Stored(s: State)
    ensures Encode(s).Ok? <==> Encodable(s)
  {
    hide StateValid, EncodedBound, DocumentOf, DocumentLength;
    if StateValid(s) { FramingAllowanceSuffices(s); }
  }

  /** `start`. */
  method StartState(s: State, receiver: string) returns (r: Result<State>)
    ensures r.Ok? <==> Start(s, receiver).Ok?
    ensures r.Ok? ==> r == Start(s, receiver)
  {
    hide StateValid, EncodedBound, Encode;
    if !StateValid(s) { return Invalid("trigger state"); }
    if s.revision == MAX_REVISION { return Invalid("trigger state revision exhausted"); }
    if !Digest(receiver) { return Invalid("noncanonical or absent SHA-256"); }
    if s.running.Some? { return Invalid("active trigger handler requires reconciliation"); }
    var names := set row | row in s.pending && row.0 == receiver :: row.1;
    if names == {} { return Invalid("receiver has no pending triggers"); }
    var result := State(s.binding, s.revision + 1, (set row | row in s.pending && row.0 != receiver), s.awaited,
                        Some(Running(receiver, names, s.revision + 1)));
    Stored(result);
    var raw :- EncodeState(result);
    return Ok(result);
  }

  /** The rows of a stored table, which must be pairs in order. */
  method ReadPairs(rows: seq<seq<string>>) returns (r: Result<set<(string, string)>>)
    ensures r.Ok? <==> RowsCanonical(rows)
    ensures r.Ok? ==> r.value == Elements(RowPairs(rows))
  {
    var pairs: seq<(string, string)> := [];
    for i := 0 to |rows|
      invariant |pairs| == i && forall k :: 0 <= k < i ==> |rows[k]| == 2 && pairs[k] == (rows[k][0], rows[k][1])
    {
      if |rows[i]| != 2 { return Invalid("trigger state pair shape"); }
      pairs := pairs + [(rows[i][0], rows[i][1])];
    }
    assert pairs == RowPairs(rows);
    PairOrder();
    var sorted := StrictlySorted(pairs, PairLess);
    if !sorted { return Invalid("trigger state table is not canonical"); }
    return Ok(set p | p in pairs);
  }

  /** `decode`: the tables are read row by row, and the state's own text is compared at the end. */
  method DecodeState(raw: Raw, expectedBinding: string, expectedContent: Raw) returns (r: Result<State>)
    ensures r.Ok? <==> Decode(raw, expectedBinding, expectedContent).Ok?
    ensures r.Ok? ==> r == Decode(raw, expectedBinding, expectedContent)
  {
    hide RawLength, DocumentAccepted, StateOf, Encode, Digest;
    if !Digest(expectedBinding) { return Invalid("noncanonical or absent SHA-256"); }
    if RawLength(raw) > MAX_STATE_BYTES || raw != expectedContent {
      return Invalid("trigger checkpoint content mismatch");
    }
    if raw.Unparsed? { return Invalid("invalid JSON"); }
    var d := raw.document;
    var result :- ReadDocument(d, expectedBinding);
    var again :- EncodeState(result);
    if again != raw { return Invalid("trigger checkpoint is not canonical"); }
    return Ok(result);
  }

  method ReadDocument(d: Document, expectedBinding: string) returns (r: Result<State>)
    ensures r.Ok? <==> DocumentAccepted(d, expectedBinding)
    ensures r.Ok? ==> r.value == StateOf(d)
  {
    hide RowsCanonical, RowPairs;
    if d.schema != SCHEMA || d.binding != expectedBinding || d.executionPermit {
      return Invalid("trigger checkpoint binding or schema mismatch");
    }
    if |d.pending| > MAX_EVENTS || |d.awaited| > MAX_ROUTES { return Invalid("trigger checkpoint table shape"); }
    var active :- ReadRunning(d.running);
    var pending :- ReadPairs(d.pending);
    var awaited :- ReadPairs(d.awaited);
    return Ok(State(d.binding, d.revision, pending, awaited, active));
  }

  method ReadRunning(running: Option<RunningDocument>) returns (r: Result<Option<Running>>)
    ensures r.Ok? <==> running.None? || Increasing(running.value.names, TextLess)
    ensures r.Ok? ==> r.value == if running.None? then None
                                 else Some(Running(running.value.receiver, Elements(running.value.names),
                                                   running.value.startedRevision))
  {
    if running.None? { return Ok(None); }
    TextOrder();
    var sorted := StrictlySorted(running.value.names, TextLess);
    if !sorted { return Invalid("active trigger names are not canonical"); }
    var names := set n | n in running.value.names;
    return Ok(Some(Running(running.value.receiver, names, running.value.startedRevision)));
  }

  // ----- Every reachable state can be stored -----

  /** The total length of rows, whatever order they stand in. */
  function Weigh<T>(rows: seq<T>, length: T -> nat): nat {
    if rows == [] then 0 else Weigh(rows[..|rows| - 1], length) + length(rows[|rows| - 1]) + 1
  }

  lemma {:induction false} WeighConcat<T>(a: seq<T>, b: seq<T>, length: T -> nat)
    ensures Weigh(a + b, length) == Weigh(a, length) + Weigh(b, length)
  {
    if b == [] {
      assert a + b == a;
    } else {
      assert (a + b)[..|a + b| - 1] == a + b[..|b| - 1];
      WeighConcat(a, b[..|b| - 1], length);
    }
  }

  /** Fewer rows never weigh more. */
  lemma {:induction false} WeighSubset<T>(a: seq<T>, b: seq<T>, length: T -> nat)
    requires Distinct(a) && Elements(a) <= Elements(b)
    ensures Weigh(a, length) <= Weigh(b, length)
    decreases |b|
  {
    if b == [] {
      DistinctCardinality(a);
      SubsetCardinality(Elements(a), Elements(b));
      assert Elements(b) == {};
    } else {
      var front, x := b[..|b| - 1], b[|b| - 1];
      assert b == front + [x];
      if x in a {
        var i :| 0 <= i < |a| && a[i] == x;
        var rest := a[..i] + a[i + 1..];
        assert a == a[..i] + ([x] + a[i + 1..]);
        WeighConcat(a[..i], [x] + a[i + 1..], length);
        WeighConcat([x], a[i + 1..], length);
        WeighConcat(a[..i], a[i + 1..], length);
        WithoutOne(a, i);
        WeighSubset(rest, front, length);
      } else {
        forall y | y in Elements(a) ensures y in Elements(front) {
          assert y in Elements(b);
        }
        WeighSubset(a, front, length);
      }
    }
  }

  lemma WithoutOne<T>(a: seq<T>, i: nat)
    requires Distinct(a) && i < |a|
    ensures Distinct(a[..i] + a[i + 1..]) && Elements(a[..i] + a[i + 1..]) == Elements(a) - {a[i]}
  {
    var rest := a[..i] + a[i + 1..];
    forall j, k | 0 <= j < k < |rest| ensures rest[j] != rest[k] {
      assert rest[j] == a[if j < i then j else j + 1] && rest[k] == a[if k < i then k else k + 1];
    }
    forall y | y in Elements(a) && y != a[i] ensures y in Elements(rest) {
      var k :| 0 <= k < |a| && a[k] == y;
      assert rest[if k < i then k else k - 1] == y;
    }
  }

  lemma {:induction false} PairsWeigh(rows: seq<(string, string)>)
    ensures RowSum(PairLengths(rows)) == Weigh(rows, PairLength)
  {
    if rows != [] {
      PairsWeigh(rows[..|rows| - 1]);
      assert PairLengths(rows)[..|rows| - 1] == PairLengths(rows[..|rows| - 1]);
    }
  }

  lemma PairListingGrows(a: set<(string, string)>, b: set<(string, string)>)
    requires a <= b
    ensures RowSum(PairLengths(PairListing(a))) <= RowSum(PairLengths(PairListing(b)))
  {
    PairOrder();
    IncreasingIsDistinct(PairListing(a), PairLess);
    PairsWeigh(PairListing(a));
    PairsWeigh(PairListing(b));
    WeighSubset(PairListing(a), PairListing(b), PairLength);
  }

  /** A completion takes rows away, so a state that could be stored can be stored after it. */
  lemma CompletionEncodable(s: State, expected: Token)
    requires Encodable(s) && Complete(s, expected).Ok?
    ensures Encodable(Complete(s, expected).value)
  {
    hide StateValid, Remaining, PairListing, PairLengths;
    var r := Complete(s, expected).value;
    CompletionValid(s, expected);
    RemainingFewer(s.awaited, Busy(s.pending));
    PairListingGrows(r.awaited, s.awaited);
    NoNames(r);
  }

  lemma RemainingFewer(edges: set<Edge>, busy: set<string>)
    ensures Remaining(edges, busy) <= edges
  {
  }

  lemma NoNames(s: State)
    requires s.running == None
    ensures RowSum(NameLengths(NameListing(ActiveNames(s)))) == 0
  {
    assert NameListing({}) == [];
  }

  // ----- When a start succeeds -----

  function Rows(receiver: string, names: seq<string>): seq<(string, string)> {
    seq(|names|, i requires 0 <= i < |names| => (receiver, names[i]))
  }

  lemma {:induction false} NamesWeigh(receiver: string, names: seq<string>)
    ensures RowSum(NameLengths(names)) <= Weigh(Rows(receiver, names), PairLength)
  {
    if names != [] {
      NamesWeigh(receiver, names[..|names| - 1]);
      assert NameLengths(names)[..|names| - 1] == NameLengths(names[..|names| - 1]);
      assert Rows(receiver, names)[..|names| - 1] == Rows(receiver, names[..|names| - 1]);
    }
  }

  /** The rows that move into the batch weigh at least its names. */
  lemma StartWeighs(s: State, receiver: string)
    ensures RowSum(PairLengths(PairListing(StartedState(s, receiver).pending)))
            + RowSum(NameLengths(NameListing(StartedState(s, receiver).running.value.names)))
            <= RowSum(PairLengths(PairListing(s.pending)))
  {
    hide PairLengths, NameLengths, RowSum, PairLength;
    var kept := PairListing(StartedState(s, receiver).pending);
    var names := NameListing(StartedState(s, receiver).running.value.names);
    var moved := Rows(receiver, names);
    PairsWeigh(kept);
    PairsWeigh(PairListing(s.pending));
    NamesWeigh(receiver, names);
    WeighConcat(kept, moved, PairLength);
    MovedRows(s, receiver, kept, names);
    WeighSubset(kept + moved, PairListing(s.pending), PairLength);
  }

  lemma MovedRows(s: State, receiver: string, kept: seq<(string, string)>, names: seq<string>)
    requires kept == PairListing(StartedState(s, receiver).pending)
    requires names == NameListing(StartedState(s, receiver).running.value.names)
    ensures Distinct(kept + Rows(receiver, names)) && Elements(kept + Rows(receiver, names)) <= s.pending
  {
    hide PairListing, NameListing, PairLess, TextLess, StrictOrder, Increasing;
    PairOrder();
    TextOrder();
    IncreasingIsDistinct(kept, PairLess);
    IncreasingIsDistinct(names, TextLess);
    forall i | 0 <= i < |kept|
      ensures kept[i] in s.pending && kept[i].0 != receiver
    {
      assert kept[i] in Elements(kept);
    }
    forall i | 0 <= i < |names| ensures (receiver, names[i]) in s.pending {
      assert names[i] in Elements(names);
      var row :| row in s.pending && row.0 == receiver && row.1 == names[i];
      assert row == (receiver, names[i]);
    }
    RowsJoin(s.pending, receiver, kept, names);
  }

  lemma RowsJoin(pending: set<(string, string)>, receiver: string, kept: seq<(string, string)>, names: seq<string>)
    requires Distinct(kept) && Distinct(names)
    requires forall i :: 0 <= i < |kept| ==> kept[i] in pending && kept[i].0 != receiver
    requires forall i :: 0 <= i < |names| ==> (receiver, names[i]) in pending
    ensures Distinct(kept + Rows(receiver, names)) && Elements(kept + Rows(receiver, names)) <= pending
  {
  }

  lemma StartedTables(s: State, receiver: string)
    requires StateValid(s) && receiver in Busy(s.pending) && s.running.None? && s.revision < MAX_REVISION
    ensures StateValid(StartedState(s, receiver))
  {
    var r := StartedState(s, receiver);
    var row :| row in s.pending && row.0 == receiver;
    assert row.1 in r.running.value.names;
    SubsetCardinality(r.pending, s.pending);
    ProjectedFewer(s.pending, receiver);
    forall e | e in r.awaited
      ensures e.1 in Outstanding(r)
    {
      assert e.1 in Outstanding(s);
      if e.1 in Busy(s.pending) {
        var other :| other in s.pending && other.0 == e.1;
        assert other.0 == receiver || other in r.pending;
      }
    }
  }

  lemma {:induction false} ProjectedFewer(rows: set<(string, string)>, receiver: string)
    ensures |NamesFor(rows, receiver)| <= |rows|
    decreases |rows|
  {
    if rows == {} {
      assert NamesFor(rows, receiver) == {};
    } else {
      var row :| row in rows;
      var rest := rows - {row};
      ProjectedFewer(rest, receiver);
      assert NamesFor(rows, receiver) <= NamesFor(rest, receiver) + {row.1};
      SubsetCardinality(NamesFor(rows, receiver), NamesFor(rest, receiver) + {row.1});
    }
  }

  /**
   A start succeeds exactly when nothing runs and the receiver has pending work; its size is
   never what refuses it, since the rows it takes weigh more than the names it keeps.
   */
  lemma StartSucceedsExactly(s: State, receiver: string)
    requires Encodable(s)
    ensures Step(s, Started(receiver)).Ok? <==>
            s.revision < MAX_REVISION && s.running.None? && exists name :: (receiver, name) in s.pending
    ensures Step(s, Started(receiver)).Ok? ==> StartedFrom(s, receiver, Step(s, Started(receiver)).value)
  {
    hide StateValid, EncodedBound, Digest, StartedState, NamesFor, Busy, StartedFrom;
    WorkOf(s.pending, receiver);
    StartedIs(s, receiver);
    RevisionBounded(s);
    if s.revision < MAX_REVISION && s.running.None? && receiver in Busy(s.pending) {
      PendingReceiver(s, receiver);
      StartFits(s, receiver);
    }
  }

  lemma RevisionBounded(s: State)
    requires StateValid(s)
    ensures s.revision <= MAX_REVISION
  {
  }

  /** The receiver's names run, its pending rows are gone, and everything else is as it was. */
  ghost predicate StartedFrom(s: State, receiver: string, r: State) {
    && r.binding == s.binding && r.revision == s.revision + 1 && r.awaited == s.awaited
    && (forall row :: row in r.pending <==> row in s.pending && row.0 != receiver)
    && r.running.Some? && r.running.value.receiver == receiver && r.running.value.startedRevision == s.revision + 1
    && forall name :: name in r.running.value.names <==> (receiver, name) in s.pending
  }

  lemma StartedIs(s: State, receiver: string)
    ensures StartedFrom(s, receiver, StartedState(s, receiver))
  {
    forall name
      ensures name in NamesFor(s.pending, receiver) <==> (receiver, name) in s.pending
    {
      if name in NamesFor(s.pending, receiver) {
        var row :| row in s.pending && row.0 == receiver && row.1 == name;
        assert row == (receiver, name);
      }
      if (receiver, name) in s.pending {
        assert (receiver, name).1 in NamesFor(s.pending, receiver);
      }
    }
  }

  lemma StartFits(s: State, receiver: string)
    requires Encodable(s) && receiver in Busy(s.pending) && s.running.None? && s.revision < MAX_REVISION
    ensures Encodable(StartedState(s, receiver))
  {
    hide StateValid, PairLengths, NameLengths, RowSum, PairListing, NameListing;
    StartWeighs(s, receiver);
    StartedTables(s, receiver);
    NoNames(s);
  }

  lemma PendingReceiver(s: State, receiver: string)
    requires StateValid(s) && receiver in Busy(s.pending)
    ensures Digest(receiver)
  {
    hide Digest;
  }

  lemma StepEncodable(s: State, e: Event)
    requires Encodable(s)
    ensures Encodable(After(s, e))
  {
    hide Encodable, Complete, StateValid, DeliveriesAccepted, PendingPairs, AwaitedPairs, Digest, NamesFor;
    if e.Succeeded? && Complete(s, e.token).Ok? {
      CompletionEncodable(s, e.token);
    }
  }

  lemma InitialEncodable(binding: string)
    requires Digest(binding)
    ensures Encodable(Initial(binding))
  {
    NoNames(Initial(binding));
    assert PairListing({}) == [];
  }

  lemma {:induction false} RunEncodable(s: State, events: seq<Event>)
    requires Encodable(s)
    ensures Encodable(Run(s, events))
    decreases |events|
  {
    hide Encodable, After;
    if events != [] {
      RunEncodable(s, events[..|events| - 1]);
      StepEncodable(Run(s, events[..|events| - 1]), events[|events| - 1]);
    }
  }

  /** From the first state on, every state of every run can be written and reads back as itself. */
  lemma EveryReachableStateIsStorable(binding: string, events: seq<Event>)
    requires Digest(binding)
    ensures var s := Run(Initial(binding), events);
            StateValid(s) && s.binding == binding && Encode(s).Ok?
            && Decode(Encode(s).value, binding, Encode(s).value) == Ok(s)
  {
    hide Encode, Decode, Run, DocumentOf, DocumentLength;
    var s := Run(Initial(binding), events);
    InitialEncodable(binding);
    RunEncodable(Initial(binding), events);
    RunKeepsInvariant(Initial(binding), events);
    FramingAllowanceSuffices(s);
    DecodeInvertsEncode(s);
  }
}
