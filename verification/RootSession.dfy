/**
 The controller client of native/root_session_client.py: its phases, and the one
 script of requests it can send. Sockets, records and mount evidence answer as the
 environment pleases; a request counts as sent as soon as its delivery is attempted.
 */
module RootSession {

  import opened NiaCommon
  import opened Bytes
  import opened Scopes
  import Environment

  const MAX_EXCHANGES: nat := 1200

  datatype Phase = New | Preparing | Held | Observing | Closing | Ended | Failed | Closed

  /** The requests to the controller that a trace holds, in order. */
  function Requests(trace: seq<Environment.Event>): seq<Environment.Kind> {
    if trace == [] then []
    else
      var e := trace[|trace| - 1];
      Requests(trace[..|trace| - 1]) + if e.Acted? && e.kind != Environment.Complete then [e.kind] else []
  }

  /** A message of the controller, a look at the mounted root, or an effect: what concerns a session. */
  predicate Own(e: Environment.Event) {
    e.Heard? || e.Seen? || e.Acted?
  }

  /** Something may have been added, but nothing that concerns a session. */
  ghost predicate Untouched(before: seq<Environment.Event>, after: seq<Environment.Event>) {
    before <= after && forall k :: |before| <= k < |after| ==> !Own(after[k])
  }

  /** Something may have been added, but no request to the controller. */
  ghost predicate NoRequests(before: seq<Environment.Event>, after: seq<Environment.Event>) {
    && before <= after
    && forall k :: |before| <= k < |after| ==> !(after[k].Acted? && after[k].kind != Environment.Complete)
  }

  lemma {:induction false} RequestsKept(before: seq<Environment.Event>, after: seq<Environment.Event>)
    requires NoRequests(before, after)
    ensures Requests(after) == Requests(before)
    decreases |after|
  {
    if |after| == |before| {
      assert after == before;
    } else {
      RequestsKept(before, after[..|after| - 1]);
    }
  }

  lemma OneMoreRequest(trace: seq<Environment.Event>, kind: Environment.Kind, at: int)
    requires kind != Environment.Complete
    ensures Requests(trace + [Environment.Acted(kind, at)]) == Requests(trace) + [kind]
  {
    assert (trace + [Environment.Acted(kind, at)])[..|trace|] == trace;
  }

  /** The requests that may have been sent when a session is in a phase. */
  ghost predicate Script(sent: seq<Environment.Kind>, phase: Phase, exchanges: nat) {
    && exchanges <= MAX_EXCHANGES && |sent| <= exchanges + 1
    && (sent == [] ==> phase in {New, Failed, Closed})
    && (sent != [] ==> sent[0] == Environment.Prepare)
    && (forall i :: 0 < i < |sent| - 1 ==> sent[i] == Environment.Observe)
    && (|sent| > 1 ==> sent[|sent| - 1] in {Environment.Observe, Environment.Finish})
    && (|sent| > 1 && sent[|sent| - 1] == Environment.Finish ==> phase in {Closing, Ended, Failed, Closed})
    && (phase == New ==> sent == [] && exchanges == 0)
    && (phase == Held ==> |sent| == exchanges)
    && (phase in {Preparing, Observing, Closing} ==> |sent| == exchanges + 1)
    && (phase in {Preparing, Observing} ==> exchanges < MAX_EXCHANGES)
  }

  lemma ScriptMoves(sent: seq<Environment.Kind>, phase: Phase, exchanges: nat)
    requires Script(sent, phase, exchanges)
    ensures Script(sent, Failed, exchanges) && Script(sent, Closed, exchanges)
    ensures phase == Closing ==> Script(sent, Ended, exchanges)
    ensures phase == Preparing || phase == Observing ==> Script(sent, Held, exchanges + 1)
  {
  }

  lemma ScriptSends(sent: seq<Environment.Kind>, phase: Phase, exchanges: nat)
    requires Script(sent, phase, exchanges)
    ensures phase == New ==>
              Script(sent + [Environment.Prepare], Preparing, exchanges)
              && Script(sent + [Environment.Prepare], Failed, exchanges)
    ensures phase == Held && exchanges < MAX_EXCHANGES ==>
              Script(sent + [Environment.Observe], Observing, exchanges)
              && Script(sent + [Environment.Observe], Failed, exchanges)
    ensures phase == Held ==>
              Script(sent + [Environment.Finish], Closing, exchanges)
              && Script(sent + [Environment.Finish], Failed, exchanges)
  {
    assert phase == New ==> sent + [Environment.Prepare] == [Environment.Prepare];
  }

  /** One prepare, then observations, then at most one close: all that a controller is ever sent. */
  ghost predicate OneScript(sent: seq<Environment.Kind>) {
    sent == []
    || exists n: nat, last :: n <= MAX_EXCHANGES && last in {[], [Environment.Finish]}
                              && sent == [Environment.Prepare] + Observations(n) + last
  }

  function Observations(n: nat): (s: seq<Environment.Kind>)
    ensures |s| == n && forall i :: 0 <= i < n ==> s[i] == Environment.Observe
  {
    seq(n, (i: nat) requires i < n => Environment.Observe)
  }

  predicate Live(phase: Phase) {
    phase != Ended && phase != Failed && phase != Closed
  }

  /** One request at most, and the last thing that happened. */
  ghost predicate Sends(before: seq<Environment.Event>, after: seq<Environment.Event>, kind: Environment.Kind,
                        from: int, now: int)
  {
    after == before
    || (|after| == |before| + 1 && after == before + [Environment.Acted(kind, after[|before|].at)]
        && from <= after[|before|].at <= now)
  }

  /** The controller's bare end: no bytes, and nothing that came with them. */
  predicate AtEnd(m: Environment.Message) {
    m == Environment.Message([], [], [], true)
  }

  const ROOT_OWNER: int := 0
  const PRIVATE_MODE: int := 0x1c0

  class Session {
    const env: Environment.World
    const scope: Scope
    /** The bank this session was given, and the texts its two records must hold. */
    const bank: Identity
    const intent: Data
    const result: Data
    /** The text the controller must answer for a root it holds. */
    const evidence: Identity -> Data
    var phase: Phase
    var peer: Option<int>
    var identity: Option<Identity>
    var exchanges: nat
    /** The one process that has answered so far, or 0. */
    var sender: int
    ghost var sent: seq<Environment.Kind>

    /** The root of this session's stage, in its own bank, with both records as they should be. */
    predicate InBank(m: Environment.Mounted) {
      && m.bank == bank
      && m.stageOwner == ROOT_OWNER && m.stageMode == PRIVATE_MODE && m.stageDevice == m.bankDevice
      && m.root.mountId == bank.mountId
      && m.root.deviceMajor == bank.deviceMajor && m.root.deviceMinor == bank.deviceMinor
      && m.intent == intent && m.result == result
    }

    /** And the root that is known already, if one is, by its path and by the descriptor held. */
    predicate Proper(m: Environment.Mounted, known: Option<Identity>) {
      InBank(m) && (known.Some? ==> m.root == known.value && m.held == known)
    }

    /** Every look so far was proper, and all of them saw the one root that is known. */
    ghost predicate Looks(trace: seq<Environment.Event>, known: Option<Identity>) {
      forall k :: 0 <= k < |trace| && trace[k].Seen? ==> InBank(trace[k].found) && known == Some(trace[k].found.root)
    }

    /** The controller is root, and always the same process. */
    predicate FromController(m: Environment.Message, known: int) {
      m.clean && m.descriptors == [] && |m.credentials| == 1
      && m.credentials[0].0 > 0 && m.credentials[0].1 == 0 && (known == 0 || known == m.credentials[0].0)
    }

    /** The exact text for the root that was found, from a controller. */
    predicate Confirms(m: Environment.Message, found: Environment.Mounted) {
      FromController(m, 0) && InBank(found) && m.raw == evidence(found.root)
    }

    /** What was heard at `k` came from the one controller, and the look that followed at once bore it out. */
    ghost predicate Confirmed(trace: seq<Environment.Event>, k: nat)
      reads this`sender
    {
      k + 1 < |trace| && trace[k].Heard? && trace[k + 1].Seen?
      && Confirms(trace[k].message, trace[k + 1].found) && trace[k].message.credentials[0].0 == sender
    }

    ghost predicate AllConfirmed(trace: seq<Environment.Event>, before: nat)
      reads this`sender
    {
      forall k: nat :: k < before && k < |trace| && trace[k].Heard? ==> Confirmed(trace, k)
    }

    /** Whatever was heard before an effect was confirmed; and while the session lives, all of it. */
    ghost predicate Heeds(trace: seq<Environment.Event>)
      reads this`phase, this`sender
    {
      && (Live(phase) ==> AllConfirmed(trace, |trace|))
      && forall a: nat :: a < |trace| && trace[a].Acted? ==> AllConfirmed(trace, a)
    }

    /** What was sent is what the trace holds, it follows the script, and every look was at the one root. */
    ghost predicate Base(trace: seq<Environment.Event>)
      reads this`phase, this`identity, this`exchanges, this`sent
    {
      Script(sent, phase, exchanges) && sent == Requests(trace) && Looks(trace, identity)
    }

    ghost predicate Inv(trace: seq<Environment.Event>)
      reads this
    {
      Base(trace) && Heeds(trace)
    }

    ghost predicate Valid()
      reads this, env
    {
      env.Valid() && Inv(env.trace)
    }

    lemma Lift(trace: seq<Environment.Event>, later: seq<Environment.Event>)
      requires Inv(trace) && Untouched(trace, later)
      ensures Inv(later)
    {
      hide InBank, Script, Heeds;
      RequestsKept(trace, later);
      assert forall k :: 0 <= k < |trace| ==> later[k] == trace[k];
      HeedsLater(trace, later);
    }

    lemma HeedsLater(trace: seq<Environment.Event>, later: seq<Environment.Event>)
      requires Heeds(trace) && Untouched(trace, later)
      ensures Heeds(later)
    {
      hide Confirms;
      assert forall k :: 0 <= k < |trace| ==> later[k] == trace[k];
      forall k: nat | k < |trace| && Confirmed(trace, k)
        ensures Confirmed(later, k)
      {
        assert later[k] == trace[k] && later[k + 1] == trace[k + 1];
      }
    }

    /** A session that lives has nothing to say against one more effect. */
    lemma HeedsEffect(trace: seq<Environment.Event>, e: Environment.Event)
      requires Live(phase) && Heeds(trace) && e.Acted?
      ensures AllConfirmed(trace + [e], |trace| + 1)
      ensures forall a: nat :: a < |trace| + 1 && (trace + [e])[a].Acted? ==> AllConfirmed(trace + [e], a)
    {
      hide Confirms;
      var later := trace + [e];
      forall k: nat | k < |later| && later[k].Heard?
        ensures Confirmed(later, k)
      {
        assert trace[k].Heard? && Confirmed(trace, k);
        assert later[k] == trace[k] && later[k + 1] == trace[k + 1];
      }
    }

    /** The reply to a worker leaves a session that lives as it was. */
    lemma LiftReply(trace: seq<Environment.Event>, at: int)
      requires Inv(trace) && Live(phase)
      ensures Inv(trace + [Environment.Acted(Environment.Complete, at)])
    {
      hide InBank, Script, AllConfirmed;
      var later := trace + [Environment.Acted(Environment.Complete, at)];
      RequestsKept(trace, later);
      HeedsEffect(trace, later[|trace|]);
      assert forall k :: 0 <= k < |trace| ==> later[k] == trace[k];
    }

    /** What was heard before an effect was the controller's confirmation of the root. */
    lemma HeardBeforeEffect(trace: seq<Environment.Event>, k: nat, a: nat)
      requires Inv(trace) && k < a < |trace| && trace[k].Heard? && trace[a].Acted?
      ensures Confirmed(trace, k)
    {
      hide Base, Confirmed;
      assert AllConfirmed(trace, a);
    }

    /** Any two looks at the root, however far apart, saw the same root in the session's bank. */
    lemma OneRoot(trace: seq<Environment.Event>, j: nat, k: nat)
      requires Inv(trace) && j < |trace| && k < |trace| && trace[j].Seen? && trace[k].Seen?
      ensures InBank(trace[j].found) && trace[j].found.root == trace[k].found.root
    {
    }

    /** Every controller request there ever was follows the one script. */
    lemma RequestsFollowScript(trace: seq<Environment.Event>)
      requires Inv(trace)
      ensures OneScript(Requests(trace))
    {
      if sent != [] {
        var m := |sent| - 1;
        if sent[m] == Environment.Finish {
          assert sent == [Environment.Prepare] + Observations(m - 1) + [Environment.Finish];
        } else {
          assert sent == [Environment.Prepare] + Observations(m) + [];
        }
      }
    }

    constructor (env: Environment.World, scope: Scope, bank: Identity, intent: Data, result: Data,
                 evidence: Identity -> Data)
      requires env.Valid() && Requests(env.trace) == []
      requires forall k :: 0 <= k < |env.trace| ==> !env.trace[k].Seen? && !env.trace[k].Heard?
      ensures Valid() && this.env == env && this.scope == scope && this.bank == bank
      ensures phase == New && peer == None && identity == None
    {
      this.env, this.scope, this.evidence, this.bank := env, scope, evidence, bank;
      this.intent, this.result := intent, result;
      phase, peer, identity, exchanges, sender, sent := New, None, None, 0, 0, [];
    }

    method Current() returns (ok: bool)
      requires env.Valid()
      modifies env`time, env`clock
      ensures env.Valid() && old(env.time) <= env.time
      ensures ok ==> Live(phase) && (peer.Some? || phase == New)
                     && Environment.InForce(old(env.clock), env.clock, scope.deadline)
    {
      var now := env.Now();
      assert env.clock[|old(env.clock)|] == now;
      var owner := env.Passes();
      assert Environment.Taken(old(env.clock), env.clock, now);
      return owner && now < scope.deadline && (peer.Some? || phase == New) && Live(phase);
    }

    method Descriptor() returns (ok: bool, descriptor: Option<int>)
      requires env.Valid()
      modifies env`time, env`clock
      ensures env.Valid() && old(env.time) <= env.time && descriptor == (if ok then peer else None)
    {
      ok := Current();
      descriptor := if ok then peer else None;
    }

    /** Delivers a request, which counts as sent whether or not that succeeds. */
    method Deliver(kind: Environment.Kind) returns (ok: bool)
      requires Valid() && kind != Environment.Complete && Live(phase)
      modifies this`sent, env`time, env`trace
      ensures env.Valid() && old(env.time) <= env.time && sent == old(sent) + [kind] == Requests(env.trace)
      ensures Looks(env.trace, identity) && AllConfirmed(env.trace, |env.trace|)
      ensures forall a: nat :: a < |env.trace| && env.trace[a].Acted? ==> AllConfirmed(env.trace, a)
      ensures env.trace == old(env.trace) + [Environment.Acted(kind, old(env.time))]
    {
      hide Environment.Timed, Requests, Script, InBank, AllConfirmed;
      ghost var trace, at := env.trace, env.time;
      OneMoreRequest(trace, kind, at);
      HeedsEffect(trace, Environment.Acted(kind, at));
      ok := env.Send(kind);
      sent := sent + [kind];
      assert forall k :: 0 <= k < |trace| ==> env.trace[k] == trace[k];
    }

    method Prepare() returns (ok: bool)
      requires Valid()
      modifies this`phase, this`peer, this`sent, env`time, env`clock, env`trace
      ensures Valid() && old(env.time) <= env.time
      ensures Sends(old(env.trace), env.trace, Environment.Prepare, old(env.time), env.time)
      ensures if ok then phase == Preparing && env.trace != old(env.trace) else phase == Failed
      ensures old(phase) != New ==> !ok && env.trace == old(env.trace)
    {
      hide Environment.Timed, Environment.InForce, Requests, Looks, AllConfirmed, Script;
      ScriptMoves(sent, phase, exchanges);
      ScriptSends(sent, phase, exchanges);
      ok := Current();
      if !ok || phase != New {
        phase := Failed;
        return false;
      }
      var connected := env.Passes();
      if !connected {
        phase := Failed;
        return false;
      }
      var descriptor: int := *;
      ok := Deliver(Environment.Prepare);
      peer, phase := Some(descriptor), if ok then Preparing else Failed;
    }

    method Observe() returns (ok: bool)
      requires Valid()
      modifies this`phase, this`peer, this`sent, env`time, env`clock, env`trace
      ensures Valid() && old(env.time) <= env.time
      ensures Sends(old(env.trace), env.trace, Environment.Observe, old(env.time), env.time)
      ensures if ok then phase == Observing && env.trace != old(env.trace) else phase == Failed
      ensures old(phase) != Held || old(exchanges) >= MAX_EXCHANGES ==> !ok && env.trace == old(env.trace)
    {
      hide Environment.Timed, Environment.InForce, Requests, Looks, AllConfirmed, Script;
      ScriptMoves(sent, phase, exchanges);
      ScriptSends(sent, phase, exchanges);
      ok := Current();
      if !ok || phase != Held || exchanges >= MAX_EXCHANGES {
        phase := Failed;
        return false;
      }
      ok := Deliver(Environment.Observe);
      phase := if ok then Observing else Failed;
    }

    method Finish() returns (ok: bool)
      requires Valid()
      modifies this`phase, this`peer, this`sent, env`time, env`clock, env`trace
      ensures Valid() && old(env.time) <= env.time
      ensures Sends(old(env.trace), env.trace, Environment.Finish, old(env.time), env.time)
      ensures if ok then phase == Closing && env.trace != old(env.trace) else phase == Failed
      ensures old(phase) != Held ==> !ok && env.trace == old(env.trace)
    {
      hide Environment.Timed, Environment.InForce, Requests, Looks, AllConfirmed, Script;
      ScriptMoves(sent, phase, exchanges);
      ScriptSends(sent, phase, exchanges);
      ok := Current();
      if !ok || phase != Held {
        phase := Failed;
        return false;
      }
      ok := Deliver(Environment.Finish);
      phase := if ok then Closing else Failed;
    }

    /** What a look that passed adds to the trace, and what it tells the session. */
    ghost predicate Found(before: seq<Environment.Event>, after: seq<Environment.Event>, known: Option<Identity>,
                          observed: Option<Identity>, now: int)
      reads this
    {
      if observed.Some? then
        && |after| == |before| + 1 && after[|before|].Seen?
        && after == before + [Environment.Seen(after[|before|].found, now)]
        && Proper(after[|before|].found, known)
        && identity == observed == Some(after[|before|].found.root)
      else identity == known && after == before
    }

    /** A look at the mounted root; once its identity is known it must stay the same. */
    method Look() returns (observed: Option<Identity>)
      requires env.Valid() && Base(env.trace)
      modifies this`identity, env`time, env`clock, env`trace
      ensures env.Valid() && Base(env.trace) && old(env.time) <= env.time
      ensures old(identity).Some? ==> identity == old(identity)
      ensures Found(old(env.trace), env.trace, old(identity), observed, env.time)
    {
      hide Environment.Timed, Environment.InForce, Requests, Script, InBank;
      var ok := Current();
      if !ok {
        return None;
      }
      ghost var trace := env.trace;
      var known := identity;
      var found := env.Inspect(m => Proper(m, known));
      if found.None? {
        return None;
      }
      RequestsKept(trace, env.trace);
      identity := Some(found.value.root);
      assert forall k :: 0 <= k < |trace| ==> env.trace[k] == trace[k];
      return identity;
    }

    /** Looks at the mounted root itself. */
    method Physical() returns (observed: Option<Identity>)
      requires Valid()
      modifies this`identity, env`time, env`clock, env`trace
      ensures Valid() && old(env.time) <= env.time
      ensures old(identity).Some? ==> identity == old(identity)
      ensures Found(old(env.trace), env.trace, old(identity), observed, env.time)
    {
      hide Environment.Timed, Base, Proper;
      ghost var trace := env.trace;
      observed := Look();
      if observed.Some? {
        SeenMore(trace, env.trace);
      }
    }

    lemma SeenMore(trace: seq<Environment.Event>, later: seq<Environment.Event>)
      requires Heeds(trace) && trace <= later && |later| == |trace| + 1 && later[|trace|].Seen?
      ensures Heeds(later)
    {
      hide Confirms;
      forall k: nat | k < |trace| && Confirmed(trace, k)
        ensures Confirmed(later, k)
      {
        assert later[k] == trace[k] && later[k + 1] == trace[k + 1];
      }
    }

    /** What an accepted answer adds to the trace: the bare end, or the text for the root then seen. */
    ghost predicate Answered(before: seq<Environment.Event>, after: seq<Environment.Event>, was: Phase, known: int)
      reads this
    {
      before <= after && |before| < |after| && after[|before|].Heard?
      && var m := after[|before|].message;
         if was == Closing then |after| == |before| + 1 && AtEnd(m) && phase == Ended
         else
           && was in {Preparing, Observing} && phase == Held && FromController(m, known)
           && |after| == |before| + 2 && Confirmed(after, |before|) && identity == Some(after[|before| + 1].found.root)
    }

    /**
     `None` is a rejection; otherwise whether the controller has answered: with the exact text
     for the root as it is seen mounted, from the one controller process, or by its end.
     */
    method Receive() returns (response: Option<bool>)
      requires Valid()
      modifies this`phase, this`sender, this`identity, this`exchanges, env`time, env`clock, env`trace
      ensures Valid() && old(env.time) <= env.time && old(env.trace) <= env.trace
      ensures forall k :: |old(env.trace)| <= k < |env.trace| ==> env.trace[k].Heard? || env.trace[k].Seen?
      ensures old(identity).Some? ==> identity == old(identity)
      ensures match response
              case None => phase == Failed
              case Some(false) => phase == old(phase) && env.trace == old(env.trace)
              case Some(true) =>
                && Answered(old(env.trace), env.trace, old(phase), old(sender))
                && exchanges == (if old(phase) == Closing then old(exchanges) else old(exchanges) + 1)
    {
      hide Environment.Timed, Environment.InForce, Confirmed, FromController, Requests, Looks, Script, AllConfirmed;
      ScriptMoves(sent, phase, exchanges);
      var ok := Current();
      if !ok || !(phase in {Preparing, Observing, Closing}) {
        phase := Failed;
        return None;
      }
      ghost var trace := env.trace;
      var m := env.Hear();
      if m.None? {
        return Some(false);
      }
      HeardMore(trace, env.trace);
      if phase == Closing {
        ok := Conclude(m.value);
      } else {
        ok := Accept(m.value);
      }
      return if ok then Some(true) else None;
    }

    lemma HeardMore(trace: seq<Environment.Event>, later: seq<Environment.Event>)
      requires Inv(trace) && Live(phase) && trace <= later && |later| == |trace| + 1 && later[|trace|].Heard?
      ensures Base(later) && AllConfirmed(later, |trace|)
    {
      hide InBank, Script, Confirms;
      RequestsKept(trace, later);
      assert forall k :: 0 <= k < |trace| ==> later[k] == trace[k];
      forall k: nat | k < |trace| && Confirmed(trace, k)
        ensures Confirmed(later, k)
      {
        assert later[k + 1] == trace[k + 1];
      }
    }

    /** From the first message on, only its sender is listened to. */
    method Recognise(m: Environment.Message)
      requires env.trace != [] && FromController(m, sender) && AllConfirmed(env.trace, |env.trace| - 1)
      modifies this`sender
      ensures AllConfirmed(env.trace, |env.trace| - 1) && sender == m.credentials[0].0
    {
      hide InBank;
      ghost var trace, known := env.trace, sender;
      assert known == 0 ==> forall k: nat :: k < |trace| - 1 ==> !trace[k].Heard?;
      sender := m.credentials[0].0;
    }

    lemma NoEffectSince(trace: seq<Environment.Event>, n: nat)
      requires AllConfirmed(trace, n) && forall k :: n <= k < |trace| ==> !trace[k].Acted?
      ensures forall a: nat :: a < |trace| && trace[a].Acted? ==> AllConfirmed(trace, a)
    {
    }

    /** The look bears out what was heard just before it. */
    lemma BorneOut(trace: seq<Environment.Event>, later: seq<Environment.Event>, known: Option<Identity>,
                   observed: Identity, now: int)
      requires trace != [] && AllConfirmed(trace, |trace| - 1) && trace[|trace| - 1].Heard?
      requires FromController(trace[|trace| - 1].message, sender)
      requires trace[|trace| - 1].message.raw == evidence(observed)
      requires sender == trace[|trace| - 1].message.credentials[0].0
      requires Found(trace, later, known, Some(observed), now)
      ensures AllConfirmed(later, |later|) && Confirmed(later, |trace| - 1)
    {
      hide InBank;
      forall k: nat | k < |trace| - 1 && Confirmed(trace, k)
        ensures Confirmed(later, k)
      {
        assert later[k] == trace[k] && later[k + 1] == trace[k + 1];
      }
    }

    lemma StillConfirmed(trace: seq<Environment.Event>, later: seq<Environment.Event>, n: nat)
      requires AllConfirmed(trace, n) && n < |trace| && trace <= later
      ensures AllConfirmed(later, n)
    {
      hide Confirms;
      forall k: nat | k < n && later[k].Heard?
        ensures Confirmed(later, k)
      {
        assert Confirmed(trace, k) && later[k] == trace[k] && later[k + 1] == trace[k + 1];
      }
    }

    /** The message just heard by a session that is closing: only the controller's end will do. */
    method Conclude(m: Environment.Message) returns (ok: bool)
      requires env.Valid() && Base(env.trace) && phase == Closing
      requires env.trace != [] && AllConfirmed(env.trace, |env.trace| - 1)
      requires env.trace[|env.trace| - 1].Heard? && env.trace[|env.trace| - 1].message == m
      modifies this`phase
      ensures Valid() && (ok <==> AtEnd(m)) && phase == if ok then Ended else Failed
    {
      hide Environment.Timed, Requests, Looks, AllConfirmed, Confirmed, Script;
      ScriptMoves(sent, phase, exchanges);
      NoEffectSince(env.trace, |env.trace| - 1);
      ok := AtEnd(m);
      phase := if ok then Ended else Failed;
    }

    /** The message just heard by a session that waits for the evidence of its root. */
    method Accept(m: Environment.Message) returns (ok: bool)
      requires env.Valid() && Base(env.trace) && phase in {Preparing, Observing}
      requires env.trace != [] && AllConfirmed(env.trace, |env.trace| - 1)
      requires env.trace[|env.trace| - 1].Heard? && env.trace[|env.trace| - 1].message == m
      modifies this`phase, this`sender, this`identity, this`exchanges, env`time, env`clock, env`trace
      ensures Valid() && old(env.time) <= env.time && old(env.trace) <= env.trace
      ensures forall k :: |old(env.trace)| <= k < |env.trace| ==> env.trace[k].Seen?
      ensures old(identity).Some? ==> identity == old(identity)
      ensures !ok ==> phase == Failed
      ensures ok ==>
                && phase == Held && FromController(m, old(sender)) && exchanges == old(exchanges) + 1
                && |env.trace| == |old(env.trace)| + 1 && Confirmed(env.trace, |old(env.trace)| - 1)
                && identity == Some(env.trace[|old(env.trace)|].found.root)
    {
      hide Environment.Timed, Environment.InForce, Requests, Looks, AllConfirmed, Confirmed, FromController, Proper;
      hide Script;
      ScriptMoves(sent, phase, exchanges);
      NoEffectSince(env.trace, |env.trace| - 1);
      if !FromController(m, sender) {
        phase := Failed;
        return false;
      }
      ghost var known := sender;
      Recognise(m);
      FromIt(m, known);
      ok := Matches(m.raw);
      if !ok {
        phase := Failed;
        return;
      }
      exchanges, phase := exchanges + 1, Held;
    }

    lemma FromIt(m: Environment.Message, known: int)
      requires FromController(m, known) && sender == m.credentials[0].0
      ensures FromController(m, sender)
    {
    }

    /** Whether the text just heard is that of the root as it is seen now. */
    method Matches(raw: Data) returns (ok: bool)
      requires env.Valid() && Base(env.trace)
      requires env.trace != [] && AllConfirmed(env.trace, |env.trace| - 1) && env.trace[|env.trace| - 1].Heard?
      requires var m := env.trace[|env.trace| - 1].message;
               FromController(m, sender) && sender == m.credentials[0].0 && m.raw == raw
      modifies this`identity, env`time, env`clock, env`trace
      ensures env.Valid() && Base(env.trace) && old(env.time) <= env.time && old(env.trace) <= env.trace
      ensures forall k :: |old(env.trace)| <= k < |env.trace| ==> env.trace[k].Seen?
      ensures old(identity).Some? ==> identity == old(identity)
      ensures forall a: nat :: a < |env.trace| && env.trace[a].Acted? ==> AllConfirmed(env.trace, a)
      ensures ok ==>
                && |env.trace| == |old(env.trace)| + 1 && AllConfirmed(env.trace, |env.trace|)
                && Confirmed(env.trace, |old(env.trace)| - 1)
                && env.trace[|old(env.trace)|].Seen? && identity == Some(env.trace[|old(env.trace)|].found.root)
    {
      hide Environment.Timed, Environment.InForce, Base, AllConfirmed, Confirmed, FromController, Proper;
      ghost var trace, known := env.trace, identity;
      NoEffectSince(trace, |trace| - 1);
      var observed := Look();
      StillConfirmed(trace, env.trace, |trace| - 1);
      NoEffectSince(env.trace, |trace| - 1);
      if observed.None? || raw != evidence(observed.value) {
        return false;
      }
      BorneOut(trace, env.trace, known, observed.value, env.time);
      ok := Current();
    }

    method Abort()
      requires Valid()
      modifies this`phase, this`peer
      ensures Valid() && phase == Closed && peer == None
    {
      hide Requests, Looks, Script, AllConfirmed;
      ScriptMoves(sent, phase, exchanges);
      phase, peer := Closed, None;
    }
  }
}
