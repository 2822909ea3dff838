/**
 Why an effect of the root supervisor may happen, told over the trace of a run: the
 boundary it belongs to, one operator and one supply check asked and answered after
 that boundary began, the native admission of that boundary, for a handoff the look at
 the mounted root, and then, last before the effect, the consent, the admission of what
 is held, and the two readings of the clock by which those checks were judged recent. The
 reply of a handoff also rests on the controller's answer to the request before it.
 */
module EffectPermits {

  import opened NiaCommon
  import opened Observers
  import opened Environment

  const EFFECT_MS: int := 1000

  type Trace = seq<Environment.Event>

  /** Positions in the trace. */
  datatype Evidence = Evidence(asked: nat, answered: nat)
  datatype Permit = Permit(began: nat, operator: Evidence, supply: Evidence, admitted: nat, seen: nat,
                           requested: nat, heard: nat)

  /** A permit of which only the boundary is known yet. */
  function Unknown(began: nat): Permit {
    Permit(began, Evidence(0, 0), Evidence(0, 0), 0, 0, 0, 0)
  }

  function ActionOf(boundary: Boundary): Kind {
    match boundary
    case PrepareRoot => Prepare
    case ReinspectRoot => Kind.Observe
    case CloseRoot => Finish
    case RootPrepared => Complete
    case RootReinspected => Complete
  }

  /** The request to the controller that a reply to a worker completes. */
  function RequestOf(boundary: Boundary): Option<Kind> {
    match boundary
    case RootPrepared => Some(Prepare)
    case RootReinspected => Some(Kind.Observe)
    case _ => None
  }

  /** Before `end`: asked after `began`, answered by that very check, and not asked again. */
  ghost predicate Fresh(trace: Trace, end: nat, who: Observer, e: Evidence, began: nat) {
    began < e.asked < e.answered < end <= |trace|
    && trace[e.asked].Asked? && trace[e.asked].observer == who
    && trace[e.answered].Answered? && trace[e.answered].observer == who
    && var o := trace[e.answered].observation;
       && o.sequence == trace[e.asked].sequence
       && trace[e.asked].at <= o.started <= o.finished
       && forall k :: e.asked < k < end ==> !(trace[k].Asked? && trace[k].observer == who)
  }

  /** Before `end`, the boundary has begun, both checks are fresh for it, it was admitted, and nothing was done. */
  ghost predicate Cleared(trace: Trace, end: nat, boundary: Boundary, p: Permit) {
    Fresh(trace, end, Operator, p.operator, p.began) && Fresh(trace, end, Supply, p.supply, p.began)
    && trace[p.began].Began? && trace[p.began].boundary == boundary
    && p.operator.answered < p.admitted < end && p.supply.answered < p.admitted
    && trace[p.admitted].Admitted? && trace[p.admitted].boundary == boundary
    && forall k :: p.began < k < end ==> !trace[k].Acted?
  }

  /** A reading of the clock for an observer, at most a second after what it last found. */
  ghost predicate Judged(trace: Trace, at: int, who: Observer, e: Evidence) {
    0 <= at < |trace| && e.answered < |trace| && trace[e.answered].Answered?
    && trace[at].Looked? && trace[at].observer == who
    && 0 <= trace[at].at - trace[e.answered].observation.finished <= EFFECT_MS
  }

  /** The last four things before `end` are the consent, the admission of what is held, and those readings. */
  ghost predicate Recent(trace: Trace, end: nat, p: Permit) {
    p.admitted < end - 4 < |trace| && trace[end - 4].Consented? && end - 3 < |trace| && trace[end - 3].Retained?
    && Judged(trace, end - 2, Operator, p.operator) && Judged(trace, end - 1, Supply, p.supply)
  }

  ghost predicate SeenSince(trace: Trace, end: nat, p: Permit) {
    p.admitted < p.seen < end - 4 && p.seen < |trace| && trace[p.seen].Seen?
  }

  /** The last effect before the boundary was the request that its reply completes, and the
      controller was heard after it, and the root looked at, before the boundary began. */
  ghost predicate Replied(trace: Trace, p: Permit) {
    p.requested < p.heard && p.heard + 1 < p.began < |trace| && trace[p.began].Began?
    && trace[p.requested].Acted? && RequestOf(trace[p.began].boundary) == Some(trace[p.requested].kind)
    && trace[p.heard].Heard? && trace[p.heard + 1].Seen?
    && forall k :: p.requested < k < p.began ==> !trace[k].Acted?
  }

  lemma RepliedLater(trace: Trace, later: Trace, p: Permit)
    requires Replied(trace, p) && trace <= later
    ensures Replied(later, p)
  {
    assert forall k :: 0 <= k < |trace| ==> later[k] == trace[k];
  }

  /** The effect at `a` has a permit of its own boundary. */
  ghost predicate Granted(trace: Trace, a: nat, p: Permit) {
    a < |trace| && trace[a].Acted? && p.began < a && trace[p.began].Began?
    && trace[a].kind == ActionOf(trace[p.began].boundary)
    && Cleared(trace, a, trace[p.began].boundary, p) && Recent(trace, a, p)
    && (trace[a].kind == Complete ==> SeenSince(trace, a, p) && Replied(trace, p))
  }

  /** Every effect had a permit, and none came after the end. */
  ghost predicate Sound(trace: Trace) {
    (forall a: nat :: a < |trace| && trace[a].Acted? ==> exists p :: Granted(trace, a, p))
    && EndsLast(trace)
  }

  ghost predicate EndsLast(trace: Trace) {
    forall e: nat, a: nat :: e < a < |trace| && trace[e].Ended? ==> !trace[a].Acted?
  }

  // ----- How a trace grows -----

  lemma FreshLater(trace: Trace, end: nat, later: Trace, who: Observer, e: Evidence, began: nat)
    requires Fresh(trace, end, who, e, began) && trace <= later
    ensures Fresh(later, end, who, e, began)
  {
    assert forall k :: 0 <= k < |trace| ==> later[k] == trace[k];
  }

  lemma GrantedLater(trace: Trace, later: Trace, a: nat, p: Permit)
    requires Granted(trace, a, p) && trace <= later
    ensures Granted(later, a, p)
  {
    hide Fresh, Replied;
    FreshLater(trace, a, later, Operator, p.operator, p.began);
    FreshLater(trace, a, later, Supply, p.supply, p.began);
    if trace[a].kind == Complete { RepliedLater(trace, later, p); }
    Answers(trace, a, Operator, p.operator, p.began);
    Answers(trace, a, Supply, p.supply, p.began);
    assert forall k :: 0 <= k < |trace| ==> later[k] == trace[k];
  }

  lemma Answers(trace: Trace, end: nat, who: Observer, e: Evidence, began: nat)
    requires Fresh(trace, end, who, e, began)
    ensures began < e.asked < e.answered < end <= |trace|
    ensures trace[e.answered].Answered? && trace[e.answered].observer == who
  {
  }

  lemma PermitsLater(trace: Trace, later: Trace)
    requires Sound(trace) && NoActs(trace, later)
    ensures Sound(later)
  {
    hide Granted;
    forall a: nat | a < |later| && later[a].Acted?
      ensures exists p :: Granted(later, a, p)
    {
      assert a < |trace| && later[a] == trace[a];
      var p :| Granted(trace, a, p);
      GrantedLater(trace, later, a, p);
    }
    assert forall k :: 0 <= k < |trace| ==> later[k] == trace[k];
  }

  lemma SoundLater(trace: Trace, later: Trace)
    requires Sound(trace) && NothingDone(trace, later)
    ensures Sound(later) && (Unended(later) <==> Unended(trace))
  {
    hide Sound;
    PermitsLater(trace, later);
    assert forall k :: 0 <= k < |trace| ==> later[k] == trace[k];
  }

  lemma SoundEnd(trace: Trace, at: int)
    requires Sound(trace)
    ensures Sound(trace + [Ended(at)]) && !Unended(trace + [Ended(at)])
  {
    hide Sound;
    var later := trace + [Ended(at)];
    assert later[|trace|].Ended?;
    PermitsLater(trace, later);
  }

  lemma FreshOnward(trace: Trace, later: Trace, who: Observer, e: Evidence, began: nat)
    requires Fresh(trace, |trace|, who, e, began) && Silent(who, trace, later)
    ensures Fresh(later, |later|, who, e, began)
  {
    assert forall k :: 0 <= k < |trace| ==> later[k] == trace[k];
  }

  /** What was cleared stays so while nothing is asked or done. */
  lemma ClearedOnward(trace: Trace, later: Trace, boundary: Boundary, p: Permit)
    requires Cleared(trace, |trace|, boundary, p) && NothingDone(trace, later)
    requires Silent(Operator, trace, later) && Silent(Supply, trace, later)
    ensures Cleared(later, |later|, boundary, p)
  {
    FreshOnward(trace, later, Operator, p.operator, p.began);
    FreshOnward(trace, later, Supply, p.supply, p.began);
    assert forall k :: 0 <= k < |trace| ==> later[k] == trace[k];
  }

  /** An effect with a permit keeps the trace sound. */
  lemma SoundAct(trace: Trace, boundary: Boundary, p: Permit, at: int)
    requires Sound(trace) && Unended(trace) && Cleared(trace, |trace|, boundary, p) && Recent(trace, |trace|, p)
    requires ActionOf(boundary) == Complete ==> SeenSince(trace, |trace|, p) && Replied(trace, p)
    ensures var after := trace + [Acted(ActionOf(boundary), at)];
            Sound(after) && Unended(after) && Granted(after, |trace|, p)
  {
    hide Granted, Cleared, Recent, SeenSince, Replied;
    var after := trace + [Acted(ActionOf(boundary), at)];
    GrantedNow(trace, boundary, p, at);
    ActsInTime(trace, Acted(ActionOf(boundary), at));
    forall a: nat | a < |after| && after[a].Acted?
      ensures exists q :: Granted(after, a, q)
    {
      if a < |trace| {
        assert after[a] == trace[a];
        var q :| Granted(trace, a, q);
        GrantedLater(trace, after, a, q);
      }
    }
  }

  lemma ActsInTime(trace: Trace, e: Environment.Event)
    requires Unended(trace) && !e.Ended?
    ensures EndsLast(trace + [e]) && Unended(trace + [e])
  {
  }

  lemma GrantedNow(trace: Trace, boundary: Boundary, p: Permit, at: int)
    requires Cleared(trace, |trace|, boundary, p) && Recent(trace, |trace|, p)
    requires ActionOf(boundary) == Complete ==> SeenSince(trace, |trace|, p) && Replied(trace, p)
    ensures Granted(trace + [Acted(ActionOf(boundary), at)], |trace|, p)
  {
    hide Fresh, Replied;
    if ActionOf(boundary) == Complete { RepliedLater(trace, trace + [Acted(ActionOf(boundary), at)], p); }
    var after := trace + [Acted(ActionOf(boundary), at)];
    assert after[|trace|] == Acted(ActionOf(boundary), at);
    FreshLater(trace, |trace|, after, Operator, p.operator, p.began);
    FreshLater(trace, |trace|, after, Supply, p.supply, p.began);
    Answers(trace, |trace|, Operator, p.operator, p.began);
    Answers(trace, |trace|, Supply, p.supply, p.began);
    assert forall k :: 0 <= k < |trace| ==> after[k] == trace[k];
  }

  /** The boundary begins at once, and its effect, with its permit, is the last thing that happens. */
  ghost predicate Effect(before: Trace, after: Trace, boundary: Boundary) {
    |before| < |after| && NothingDone(before, after[..|after| - 1])
    && exists p: Permit :: p.began == |before| && Granted(after, |after| - 1, p) && after[p.began].boundary == boundary
  }

  /** Nothing was done before the controller was heard, which is the last thing but the look at the root. */
  ghost predicate Confirmation(requested: Trace, answered: Trace) {
    NothingDone(requested, answered) && |requested| + 2 <= |answered|
    && answered[|answered| - 2].Heard? && answered[|answered| - 1].Seen?
  }

  /** One handoff: the request to the controller, its answer, and the reply to the worker. */
  ghost predicate Exchanged(before: Trace, after: Trace, first: Boundary, second: Boundary) {
    exists requested, answered ::
      Effect(before, requested, first) && Confirmation(requested, answered) && Effect(answered, after, second)
  }

  /** What the answer contributes to the permit of the reply, once the reply's boundary has begun. */
  lemma AnswerCounts(before: Trace, requested: Trace, answered: Trace, trace: Trace, first: Boundary,
                     second: Boundary, p: Permit)
    requires Effect(before, requested, first) && Confirmation(requested, answered)
    requires answered <= trace && p.began == |answered| < |trace| && trace[p.began].Began?
    requires trace[p.began].boundary == second && RequestOf(second) == Some(ActionOf(first))
    requires p.requested == |requested| - 1 && p.heard == |answered| - 2
    ensures Replied(trace, p)
  {
    assert requested[|requested| - 1].Acted? && requested[|requested| - 1].kind == ActionOf(first);
    assert forall k :: 0 <= k < |answered| ==> trace[k] == answered[k];
    assert forall k :: 0 <= k < |requested| ==> answered[k] == requested[k];
  }

  /** Doing the effect of a boundary, right after the readings that judged it. */
  lemma EffectDone(before: Trace, trace: Trace, boundary: Boundary, p: Permit, at: int)
    requires Cleared(trace, |trace|, boundary, p) && Recent(trace, |trace|, p)
    requires ActionOf(boundary) == Complete ==> SeenSince(trace, |trace|, p) && Replied(trace, p)
    requires NothingDone(before, trace) && p.began == |before| < |trace|
    ensures Effect(before, trace + [Acted(ActionOf(boundary), at)], boundary)
  {
    var after := trace + [Acted(ActionOf(boundary), at)];
    GrantedNow(trace, boundary, p, at);
    assert after[..|after| - 1] == trace;
    assert after[p.began] == trace[p.began];
  }

  lemma RecentOnly(trace: Trace, consented: int, retained: int, operator: int, supply: int, p: Permit)
    requires p.admitted < |trace| && p.operator.answered < |trace| && p.supply.answered < |trace|
    requires trace[p.operator.answered].Answered? && trace[p.supply.answered].Answered?
    requires 0 <= operator - trace[p.operator.answered].observation.finished <= EFFECT_MS
    requires 0 <= supply - trace[p.supply.answered].observation.finished <= EFFECT_MS
    ensures var after := trace + [Consented(consented), Retained(retained), Looked(Operator, operator),
                                  Looked(Supply, supply)];
            Recent(after, |after|, p)
  {
  }

  // ----- What a sound trace says -----

  /** One observer's part in an effect, in order and in time. */
  ghost predicate Served(trace: Trace, began: nat, e: Evidence, admitted: nat, looked: nat, acted: nat, who: Observer) {
    began < e.asked < e.answered < admitted < looked < acted < |trace|
    && trace[e.asked].Asked? && trace[e.asked].observer == who
    && trace[e.answered].Answered? && trace[e.answered].observer == who
    && trace[looked].Looked? && trace[looked].observer == who
    && var o := trace[e.answered].observation;
       && o.sequence == trace[e.asked].sequence
       && trace[began].at <= trace[e.asked].at <= o.started <= o.finished <= trace[looked].at <= trace[acted].at
       && trace[looked].at <= o.finished + EFFECT_MS
  }

  /**
   Each effect follows, in order, the beginning of its own boundary, two checks asked after
   it, their replies, its admission, for a handoff the look at the mounted root, the consent,
   the admission of what is held, and two readings of the clock at most a second after what
   those checks found. Between the boundary and the effect nothing else was done, and neither
   observer was asked again. A reply also follows an answer to the request it completes.
   */
  lemma ActionsAreFresh(trace: Trace, now: int, a: nat) returns (p: Permit)
    requires Sound(trace) && Timed(trace, now) && a < |trace| && trace[a].Acted?
    ensures Granted(trace, a, p)
    ensures trace[p.began].Began? && ActionOf(trace[p.began].boundary) == trace[a].kind
    ensures Served(trace, p.began, p.operator, p.admitted, a - 2, a, Operator)
    ensures Served(trace, p.began, p.supply, p.admitted, a - 1, a, Supply)
    ensures trace[p.admitted].Admitted? && trace[p.admitted].boundary == trace[p.began].boundary
    ensures trace[a].kind == Complete ==> p.admitted < p.seen < a - 4 && trace[p.seen].Seen? && Replied(trace, p)
    ensures p.admitted < a - 4 && trace[a - 4].Consented? && trace[a - 3].Retained?
    ensures forall k :: p.began < k < a ==> !trace[k].Acted?
    ensures forall k :: p.operator.asked < k < a ==> !(trace[k].Asked? && trace[k].observer == Operator)
    ensures forall k :: p.supply.asked < k < a ==> !(trace[k].Asked? && trace[k].observer == Supply)
  {
    hide Served, Timed, Fresh, Judged, Replied;
    p :| Granted(trace, a, p);
    Serves(trace, now, a, p, p.operator, a - 2, Operator);
    Serves(trace, now, a, p, p.supply, a - 1, Supply);
    Answers(trace, a, Operator, p.operator, p.began);
    Answers(trace, a, Supply, p.supply, p.began);
    AskedLast(trace, a, Operator, p.operator, p.began);
    AskedLast(trace, a, Supply, p.supply, p.began);
  }

  lemma AskedLast(trace: Trace, end: nat, who: Observer, e: Evidence, began: nat)
    requires Fresh(trace, end, who, e, began)
    ensures forall k :: e.asked < k < end ==> !(trace[k].Asked? && trace[k].observer == who)
  {
  }

  lemma Serves(trace: Trace, now: int, a: nat, p: Permit, e: Evidence, looked: int, who: Observer)
    requires a < |trace| && Timed(trace, now) && Fresh(trace, a, who, e, p.began) && Judged(trace, looked, who, e)
    requires e.answered < p.admitted < looked < a
    ensures Served(trace, p.began, e, p.admitted, looked, a, who)
  {
  }

  /** A later effect's boundary begins after an earlier effect, so their checks are different and do not overlap. */
  lemma ObservationsServeOnce(trace: Trace, now: int, a: nat, b: nat) returns (p: Permit, q: Permit)
    requires Sound(trace) && Timed(trace, now) && a < b < |trace| && trace[a].Acted? && trace[b].Acted?
    ensures Granted(trace, a, p) && Granted(trace, b, q) && a < q.began
    ensures Served(trace, p.began, p.operator, p.admitted, a - 2, a, Operator)
    ensures Served(trace, p.began, p.supply, p.admitted, a - 1, a, Supply)
    ensures Served(trace, q.began, q.operator, q.admitted, b - 2, b, Operator)
    ensures Served(trace, q.began, q.supply, q.admitted, b - 1, b, Supply)
    ensures p.operator.answered < q.operator.asked && p.supply.answered < q.supply.asked
    ensures trace[p.operator.answered].observation.finished <= trace[q.operator.answered].observation.started
    ensures trace[p.supply.answered].observation.finished <= trace[q.supply.answered].observation.started
  {
    hide Granted, Timed, Sound;
    p := ActionsAreFresh(trace, now, a);
    q := ActionsAreFresh(trace, now, b);
    InOrder(trace, now, a, q.began);
  }

  /** No effect follows the end. */
  lemma NothingAfterEnd(trace: Trace, e: nat, a: nat)
    requires Sound(trace) && e < a < |trace| && trace[e].Ended?
    ensures !trace[a].Acted?
  {
  }

  lemma InOrder(trace: Trace, now: int, i: nat, j: nat)
    requires Timed(trace, now)
    ensures i < j < |trace| ==> trace[i].at <= trace[j].at
  {
  }

  // ----- Which effects there were -----

  /** The effects of a trace, in order. */
  function Done(trace: Trace): seq<Kind> {
    if trace == [] then []
    else Done(trace[..|trace| - 1]) + if trace[|trace| - 1].Acted? then [trace[|trace| - 1].kind] else []
  }

  lemma {:induction false} NothingMoreDone(before: Trace, after: Trace)
    requires NoActs(before, after)
    ensures Done(after) == Done(before)
    decreases |after|
  {
    if |after| == |before| {
      assert after == before;
    } else {
      NothingMoreDone(before, after[..|after| - 1]);
    }
  }

  lemma EffectAdds(before: Trace, after: Trace, boundary: Boundary)
    requires Effect(before, after, boundary)
    ensures Done(after) == Done(before) + [ActionOf(boundary)]
  {
    hide Cleared, Recent, SeenSince, Replied;
    var front := after[..|after| - 1];
    NothingDoneIsNoActs(before, front);
    NothingMoreDone(before, front);
  }

  /** What was done is nothing more, or the one effect of the boundary. */
  lemma AtMostAdds(before: Trace, after: Trace, boundary: Boundary)
    requires NothingDone(before, after) || Effect(before, after, boundary)
    ensures Done(before) <= Done(after) <= Done(before) + [ActionOf(boundary)]
    ensures NothingDone(before, after) ==> Done(after) == Done(before)
    ensures Effect(before, after, boundary) ==> Done(after) == Done(before) + [ActionOf(boundary)]
  {
    hide Effect;
    if NothingDone(before, after) {
      NothingDoneIsNoActs(before, after);
      NothingMoreDone(before, after);
    }
    if Effect(before, after, boundary) {
      EffectAdds(before, after, boundary);
    }
  }

  // ----- How many there can be -----

  function Effects(trace: Trace): nat {
    if trace == [] then 0 else Effects(trace[..|trace| - 1]) + if trace[|trace| - 1].Acted? then 1 else 0
  }

  /** Requests to an observer carry growing numbers, from one on. */
  ghost predicate AsksGrow(trace: Trace, who: Observer) {
    (forall i :: 0 <= i < |trace| && trace[i].Asked? && trace[i].observer == who ==> trace[i].sequence >= 1)
    && forall i, j :: (0 <= i < j < |trace| && trace[i].Asked? && trace[i].observer == who
                       && trace[j].Asked? && trace[j].observer == who) ==> trace[i].sequence < trace[j].sequence
  }

  ghost predicate AskedUpTo(trace: Trace, n: nat, who: Observer, checks: nat) {
    forall k :: 0 <= k < n && k < |trace| && trace[k].Asked? && trace[k].observer == who ==> trace[k].sequence <= checks
  }

  lemma AskedBefore(trace: Trace, who: Observer, n: nat, k: nat)
    requires AsksGrow(trace, who) && n <= k < |trace| && trace[k].Asked? && trace[k].observer == who
    ensures trace[k].sequence >= 1 && AskedUpTo(trace, n, who, trace[k].sequence - 1)
  {
  }

  /** Every effect uses up an operator check of its own, so there are no more effects than checks. */
  lemma {:induction false} EffectsUseChecks(trace: Trace, n: nat, checks: nat)
    requires Sound(trace) && AsksGrow(trace, Operator) && n <= |trace| && AskedUpTo(trace, n, Operator, checks)
    ensures Effects(trace[..n]) <= checks
    decreases n
  {
    hide Granted, AsksGrow;
    if n > 0 {
      var a := n - 1;
      assert trace[..n][..a] == trace[..a] && trace[..n][a] == trace[a];
      if trace[a].Acted? {
        var p :| Granted(trace, a, p);
        var began, asked := Own(trace, a, p);
        EffectsBefore(trace, began, a);
        AskedBefore(trace, Operator, began, asked);
        EffectsUseChecks(trace, began, trace[asked].sequence - 1);
      } else {
        EffectsUseChecks(trace, a, checks);
      }
    }
  }

  lemma Own(trace: Trace, a: nat, p: Permit) returns (began: nat, asked: nat)
    requires Granted(trace, a, p)
    ensures began < asked < a < |trace| && trace[began].Began? && trace[asked].Asked?
            && trace[asked].observer == Operator
    ensures forall k :: began < k < a ==> !trace[k].Acted?
  {
    began, asked := p.began, p.operator.asked;
  }

  lemma {:induction false} EffectsBefore(trace: Trace, began: nat, a: nat)
    requires began < a <= |trace| && forall k :: began < k < a ==> !trace[k].Acted?
    requires !trace[began].Acted?
    ensures Effects(trace[..a]) == Effects(trace[..began])
  {
    assert trace[..a][..a - 1] == trace[..a - 1];
    if a > began + 1 {
      EffectsBefore(trace, began, a - 1);
    } else {
      assert trace[..a][..began] == trace[..began];
    }
  }
}
