/** Where the checks of one observer stand in the record of a run. */
module ObserverTrace {

  import opened NiaCommon
  import opened Observers
  import opened Environment

  /**
   The requests of an observer in the trace are exactly those at `asked`, numbered from
   one, and its answers exactly those at `answered`: the check of number `i + 1` at `answered[i]`.
   */
  ghost predicate Traced(who: Observer, history: seq<Observation>, requested: seq<int>,
                         asked: seq<nat>, answered: seq<nat>, trace: seq<Environment.Event>)
  {
    && |asked| == |requested| && |answered| == |history| <= |requested|
    && AskedAt(who, requested, asked, trace) && AnsweredAt(who, history, asked, answered, trace)
    && EveryAsk(who, asked, trace) && EveryAnswer(who, answered, trace)
  }

  ghost predicate AskedAt(who: Observer, requested: seq<int>, asked: seq<nat>, trace: seq<Environment.Event>) {
    && |asked| == |requested|
    && (forall i :: 0 <= i < |asked| ==> asked[i] < |trace| && trace[asked[i]] == Asked(who, i + 1, requested[i]))
    && (forall i, j :: 0 <= i < j < |asked| ==> asked[i] < asked[j])
  }

  ghost predicate AnsweredAt(who: Observer, history: seq<Observation>, asked: seq<nat>, answered: seq<nat>,
                             trace: seq<Environment.Event>)
  {
    && |answered| == |history| <= |asked|
    && forall i :: 0 <= i < |answered| ==>
         asked[i] < answered[i] < |trace| && IsAnswer(trace[answered[i]], who, history[i])
  }

  ghost predicate EveryAsk(who: Observer, asked: seq<nat>, trace: seq<Environment.Event>) {
    forall k: nat :: k < |trace| && trace[k].Asked? && trace[k].observer == who ==> k in asked
  }

  ghost predicate EveryAnswer(who: Observer, answered: seq<nat>, trace: seq<Environment.Event>) {
    forall k: nat :: k < |trace| && trace[k].Answered? && trace[k].observer == who ==> k in answered
  }

  ghost predicate IsAnswer(e: Environment.Event, who: Observer, o: Observation) {
    e.Answered? && e.observer == who && e.observation == o
  }

  lemma Numbers(who: Observer, history: seq<Observation>, requested: seq<int>, asked: seq<nat>, answered: seq<nat>,
                trace: seq<Environment.Event>)
    requires Traced(who, history, requested, asked, answered, trace)
    ensures |asked| == |requested| && |answered| == |history|
  {
  }

  lemma AnswerOf(who: Observer, history: seq<Observation>, requested: seq<int>, asked: seq<nat>, answered: seq<nat>,
                 trace: seq<Environment.Event>, i: nat)
    requires Traced(who, history, requested, asked, answered, trace) && i < |history|
    ensures i < |answered| && answered[i] < |trace|
    ensures trace[answered[i]].Answered? && trace[answered[i]].observation == history[i]
  {
    assert IsAnswer(trace[answered[i]], who, history[i]);
  }

  lemma AskOf(who: Observer, history: seq<Observation>, requested: seq<int>, asked: seq<nat>, answered: seq<nat>,
              trace: seq<Environment.Event>, i: nat)
    requires Traced(who, history, requested, asked, answered, trace) && i < |requested|
    ensures i < |asked| && asked[i] < |trace| && trace[asked[i]] == Asked(who, i + 1, requested[i])
  {
  }

  lemma NothingTraced(who: Observer, trace: seq<Environment.Event>)
    requires Silent(who, [], trace)
    ensures Traced(who, [], [], [], [], trace)
  {
  }

  lemma TracedLater(who: Observer, history: seq<Observation>, requested: seq<int>, asked: seq<nat>, answered: seq<nat>,
                    before: seq<Environment.Event>, after: seq<Environment.Event>)
    requires Traced(who, history, requested, asked, answered, before) && Silent(who, before, after)
    ensures Traced(who, history, requested, asked, answered, after)
  {
    assert forall k: nat :: k < |before| ==> after[k] == before[k];
  }

  lemma TracedAsk(who: Observer, history: seq<Observation>, requested: seq<int>, asked: seq<nat>, answered: seq<nat>,
                  trace: seq<Environment.Event>, at: int)
    requires Traced(who, history, requested, asked, answered, trace)
    ensures Traced(who, history, requested + [at], asked + [|trace|], answered,
                   trace + [Asked(who, |requested| + 1, at)])
  {
    hide AskedAt, AnsweredAt, EveryAsk, EveryAnswer;
    var e := Asked(who, |requested| + 1, at);
    AskedOneMore(who, requested, asked, trace, at);
    AnsweredOnward(who, history, asked, answered, trace, e, asked + [|trace|]);
    EveryAskNext(who, asked, trace, e);
    EveryAnswerNext(who, answered, trace, e);
  }

  lemma AskedOneMore(who: Observer, requested: seq<int>, asked: seq<nat>, trace: seq<Environment.Event>, at: int)
    requires AskedAt(who, requested, asked, trace)
    ensures AskedAt(who, requested + [at], asked + [|trace|], trace + [Asked(who, |requested| + 1, at)])
  {
  }

  lemma AskedOnward(who: Observer, requested: seq<int>, asked: seq<nat>, trace: seq<Environment.Event>,
                    e: Environment.Event)
    requires AskedAt(who, requested, asked, trace)
    ensures AskedAt(who, requested, asked, trace + [e])
  {
  }

  lemma AnsweredOnward(who: Observer, history: seq<Observation>, asked: seq<nat>, answered: seq<nat>,
                       trace: seq<Environment.Event>, e: Environment.Event, more: seq<nat>)
    requires AnsweredAt(who, history, asked, answered, trace) && asked <= more
    ensures AnsweredAt(who, history, more, answered, trace + [e])
  {
    hide IsAnswer;
  }

  lemma AnsweredOneMore(who: Observer, history: seq<Observation>, asked: seq<nat>, answered: seq<nat>,
                        trace: seq<Environment.Event>, o: Observation, at: int)
    requires AnsweredAt(who, history, asked, answered, trace) && |history| < |asked| && asked[|history|] < |trace|
    ensures AnsweredAt(who, history + [o], asked, answered + [|trace|], trace + [Answered(who, o, at)])
  {
    AnsweredOnward(who, history, asked, answered, trace, Answered(who, o, at), asked);
  }

  lemma EveryAskNext(who: Observer, asked: seq<nat>, trace: seq<Environment.Event>, e: Environment.Event)
    requires EveryAsk(who, asked, trace)
    ensures EveryAsk(who, asked + [|trace|], trace + [e])
    ensures !e.Asked? ==> EveryAsk(who, asked, trace + [e])
  {
    forall k: nat | k < |trace| + 1 && (trace + [e])[k].Asked? && (trace + [e])[k].observer == who
      ensures k in asked + [|trace|] && (!e.Asked? ==> k in asked)
    {
      assert k < |trace| ==> k in asked;
      assert (asked + [|trace|])[|asked|] == |trace|;
    }
  }

  lemma EveryAnswerNext(who: Observer, answered: seq<nat>, trace: seq<Environment.Event>, e: Environment.Event)
    requires EveryAnswer(who, answered, trace)
    ensures EveryAnswer(who, answered + [|trace|], trace + [e])
    ensures !e.Answered? ==> EveryAnswer(who, answered, trace + [e])
  {
    forall k: nat | k < |trace| + 1 && (trace + [e])[k].Answered? && (trace + [e])[k].observer == who
      ensures k in answered + [|trace|] && (!e.Answered? ==> k in answered)
    {
      assert k < |trace| ==> k in answered;
      assert (answered + [|trace|])[|answered|] == |trace|;
    }
  }

  lemma TracedAnswer(who: Observer, history: seq<Observation>, requested: seq<int>, asked: seq<nat>, answered: seq<nat>,
                     trace: seq<Environment.Event>, o: Observation, at: int)
    requires Traced(who, history, requested, asked, answered, trace) && |history| < |requested|
    ensures Traced(who, history + [o], requested, asked, answered + [|trace|], trace + [Answered(who, o, at)])
  {
    hide AskedAt, AnsweredAt, EveryAsk, EveryAnswer;
    var e := Answered(who, o, at);
    AskOf(who, history, requested, asked, answered, trace, |history|);
    AskedOnward(who, requested, asked, trace, e);
    AnsweredOneMore(who, history, asked, answered, trace, o, at);
    EveryAskNext(who, asked, trace, e);
    EveryAnswerNext(who, answered, trace, e);
  }

  /** All that is known of an observer by the time `t`. */
  ghost predicate Recorded(who: Observer, history: seq<Observation>, requested: seq<int>, asked: seq<nat>,
                           answered: seq<nat>, t: int, trace: seq<Environment.Event>)
  {
    Ordered(history, requested) && Before(history, requested, t)
    && Traced(who, history, requested, asked, answered, trace)
  }

  lemma NothingRecorded(who: Observer, t: int, trace: seq<Environment.Event>)
    requires Silent(who, [], trace)
    ensures Recorded(who, [], [], [], [], t, trace)
  {
    NothingTraced(who, trace);
  }

  lemma RecordedLater(who: Observer, history: seq<Observation>, requested: seq<int>, asked: seq<nat>,
                      answered: seq<nat>, t: int, trace: seq<Environment.Event>,
                      now: int, later: seq<Environment.Event>)
    requires Recorded(who, history, requested, asked, answered, t, trace) && t <= now && Silent(who, trace, later)
    ensures Recorded(who, history, requested, asked, answered, now, later)
  {
    hide Ordered, Before, Traced, Silent;
    Later(history, requested, t, now);
    TracedLater(who, history, requested, asked, answered, trace, later);
  }

  lemma RecordedSame(who: Observer, history: seq<Observation>, requested: seq<int>, asked: seq<nat>,
                     answered: seq<nat>, t: int, trace: seq<Environment.Event>, now: int)
    requires Recorded(who, history, requested, asked, answered, t, trace) && t <= now
    ensures Recorded(who, history, requested, asked, answered, now, trace)
  {
    hide Ordered, Before, Traced;
    Later(history, requested, t, now);
  }

  lemma RecordedAsk(who: Observer, history: seq<Observation>, requested: seq<int>, asked: seq<nat>,
                    answered: seq<nat>, t: int, trace: seq<Environment.Event>, at: int, now: int)
    requires Recorded(who, history, requested, asked, answered, t, trace)
    requires |history| == |requested| && t <= at <= now
    ensures Recorded(who, history, requested + [at], asked + [|trace|], answered, now,
                     trace + [Asked(who, |requested| + 1, at)])
  {
    hide Ordered, Before, Traced;
    OneMoreRequest(history, requested, t, at);
    Later(history, requested + [at], at, now);
    TracedAsk(who, history, requested, asked, answered, trace, at);
  }

  lemma RecordedAnswer(who: Observer, history: seq<Observation>, requested: seq<int>, asked: seq<nat>,
                       answered: seq<nat>, t: int, trace: seq<Environment.Event>, o: Observation)
    requires Recorded(who, history, requested, asked, answered, t, trace) && |history| + 1 == |requested| == o.sequence
    requires requested[|history|] <= o.started <= o.finished <= t
    ensures |history| < |asked| && asked[|history|] < |trace|
    ensures trace[asked[|history|]] == Asked(who, o.sequence, requested[|history|])
    ensures Recorded(who, history + [o], requested, asked, answered + [|trace|], t, trace + [Answered(who, o, t)])
  {
    hide Ordered, Before, Traced;
    OneMoreObservation(history, requested, t, o);
    AskOf(who, history, requested, asked, answered, trace, |history|);
    TracedAnswer(who, history, requested, asked, answered, trace, o, t);
  }

  // ----- What was read for the checks -----

  /** Stretches of what was read, one after another, the last one no later than `end`. */
  ghost predicate Spans(spans: seq<(nat, nat)>, end: nat) {
    && (forall i :: 0 <= i < |spans| ==> spans[i].0 <= spans[i].1 <= end)
    && (forall i, j :: 0 <= i < j < |spans| ==> spans[i].1 <= spans[j].0)
  }

  lemma SpansLater(spans: seq<(nat, nat)>, end: nat, later: nat)
    requires Spans(spans, end) && end <= later
    ensures Spans(spans, later)
  {
  }

  lemma SpansOneMore(spans: seq<(nat, nat)>, from: nat, to: nat)
    requires Spans(spans, from) && from <= to
    ensures Spans(spans + [(from, to)], to)
  {
  }

  /** New positions only, none before `since`. */
  ghost predicate Extended(before: seq<nat>, after: seq<nat>, since: nat) {
    before <= after && forall i :: |before| <= i < |after| ==> since <= after[i]
  }

  lemma ExtendedTwice(a: seq<nat>, b: seq<nat>, c: seq<nat>, since: nat, later: nat)
    requires Extended(a, b, since) && Extended(b, c, later) && since <= later
    ensures Extended(a, c, since)
  {
  }

  lemma ExtendedSame(a: seq<nat>, since: nat)
    ensures Extended(a, a, since)
  {
  }

  lemma ExtendedSince(before: seq<nat>, after: seq<nat>, since: nat, later: nat)
    requires Extended(before, after, later) && since <= later
    ensures Extended(before, after, since)
  {
  }

  lemma NewRequest(before: seq<nat>, after: seq<nat>, since: nat, i: nat)
    requires Extended(before, after, since) && |before| <= i < |after|
    ensures since <= after[i]
  {
  }

  /** A later request of an observer carries a larger number. */
  lemma LaterAsksAreLarger(who: Observer, history: seq<Observation>, requested: seq<int>, asked: seq<nat>,
                           answered: seq<nat>, trace: seq<Environment.Event>, i: nat, j: nat)
    requires Traced(who, history, requested, asked, answered, trace) && i < j < |trace|
    requires trace[i].Asked? && trace[i].observer == who && trace[j].Asked? && trace[j].observer == who
    ensures trace[i].sequence < trace[j].sequence
  {
    hide Traced;
    var x := PositionOf(who, history, requested, asked, answered, trace, i);
    var y := PositionOf(who, history, requested, asked, answered, trace, j);
    if y < x {
      InPlace(who, history, requested, asked, answered, trace, y, x);
    }
  }

  lemma PositionOf(who: Observer, history: seq<Observation>, requested: seq<int>, asked: seq<nat>,
                   answered: seq<nat>, trace: seq<Environment.Event>, i: nat) returns (x: nat)
    requires Traced(who, history, requested, asked, answered, trace)
    requires i < |trace| && trace[i].Asked? && trace[i].observer == who
    ensures x < |asked| && asked[x] == i && trace[i].sequence == x + 1
  {
    x :| 0 <= x < |asked| && asked[x] == i;
  }

  lemma InPlace(who: Observer, history: seq<Observation>, requested: seq<int>, asked: seq<nat>,
                answered: seq<nat>, trace: seq<Environment.Event>, x: nat, y: nat)
    requires Traced(who, history, requested, asked, answered, trace) && x < y < |asked|
    ensures asked[x] < asked[y]
  {
  }

  /** Finished by a reading taken in between, at most a second before it, and before both deadlines. */
  ghost predicate InTime(o: Observation, before: seq<int>, after: seq<int>, deadline: int, nextDeadline: int) {
    exists now :: Taken(before, after, now) && OnTime(o, now, deadline, nextDeadline)
  }

  predicate OnTime(o: Observation, now: int, deadline: int, nextDeadline: int) {
    o.finished <= now <= o.finished + CHECK_MS && now < deadline && now < nextDeadline
  }

  lemma TakenLater(a: seq<int>, b: seq<int>, c: seq<int>, t: int)
    requires a <= b && Taken(b, c, t)
    ensures Taken(a, c, t)
  {
    var k :| |b| <= k < |c| && c[k] == t;
    assert |a| <= k < |c| && c[k] == t;
  }

  lemma TakenEarlier(a: seq<int>, b: seq<int>, c: seq<int>, t: int)
    requires Taken(a, b, t) && b <= c
    ensures Taken(a, c, t)
  {
    var k :| |a| <= k < |b| && b[k] == t;
    assert c[k] == t;
  }

  lemma InTimeLater(o: Observation, a: seq<int>, b: seq<int>, c: seq<int>, deadline: int, nextDeadline: int)
    requires a <= b && InTime(o, b, c, deadline, nextDeadline)
    ensures InTime(o, a, c, deadline, nextDeadline)
  {
    var now :| Taken(b, c, now) && OnTime(o, now, deadline, nextDeadline);
    TakenLater(a, b, c, now);
  }
}
