/** The supply observer of native/supply_guard.py, with its binding and its UTC floor. */
module SupplyGuard {

  import opened NiaCommon
  import opened Bytes
  import opened Observers
  import opened ObserverTrace
  import Environment

  const FRAME: nat := 72
  const MAGIC: Data := [78, 73, 65, 83, 85, 80, 48, 49]
  const MAX_UTC: int := 0x1f_ffff_ffff_ffff
  const ME := Environment.Supply

  datatype Reply = Rejected | Nothing | Accepted(observation: Observation, utc: int)

  /** The observation and UTC a 72-byte reply carries, when it names the expected binding. */
  function FrameOf(b: Data, expected: Data): (r: Option<(Observation, nat)>)
    ensures r.Some? ==> |b| == FRAME
  {
    if |b| != FRAME || b[..8] != MAGIC || b[32..64] != expected then None
    else Some((Observation(Number(b[8..16]), Number(b[16..24]), Number(b[24..32])), Number(b[64..72])))
  }

  /** A reply for a binding carries an observation and a time exactly when they are packed around it in order. */
  lemma FrameExactly(b: Data, expected: Data, o: Observation, utc: nat)
    requires |expected| == 32
    ensures FrameOf(b, expected) == Some((o, utc)) <==>
            && Unsigned64(o.sequence) && Unsigned64(o.started) && Unsigned64(o.finished) && Unsigned64(utc)
            && b == ['N' as int, 'I' as int, 'A' as int, 'S' as int, 'U' as int, 'P' as int, '0' as int, '1' as int]
                    + Big(o.sequence, 8) + Big(o.started, 8) + Big(o.finished, 8) + expected + Big(utc, 8)
  {
    hide Number, Big;
    if |b| == FRAME {
      Wide(b[8..16], o.sequence);
      Wide(b[16..24], o.started);
      Wide(b[24..32], o.finished);
      Wide(b[64..72], utc);
      assert b == b[..8] + b[8..16] + b[16..24] + b[24..32] + b[32..64] + b[64..72];
    }
    if Unsigned64(o.sequence) && Unsigned64(o.started) && Unsigned64(o.finished) && Unsigned64(utc) {
      Packed(MAGIC, Big(o.sequence, 8), Big(o.started, 8), Big(o.finished, 8), expected, Big(utc, 8));
    }
  }

  lemma Packed(magic: Data, x: Data, y: Data, z: Data, binding: Data, u: Data)
    requires |magic| == |x| == |y| == |z| == |u| == 8 && |binding| == 32
    ensures var b := magic + x + y + z + binding + u;
            |b| == 72 && b[..8] == magic && b[8..16] == x && b[16..24] == y && b[24..32] == z
            && b[32..64] == binding && b[64..72] == u
  {
  }

  /** The chunks read for a check, joined, are exactly one reply for the binding. */
  ghost predicate Received(chunks: seq<Data>, expected: Data, o: Observation, utc: int) {
    Reads(FRAME, [], chunks)
    && exists b :: Gather(FRAME, [], chunks) == Full(b) && FrameOf(b, expected).Some?
                   && FrameOf(b, expected).value.0 == o && FrameOf(b, expected).value.1 as int == utc
  }

  /** Observed times never go back, below the floor or past the exact integers of a JSON number. */
  ghost predicate Climbing(utcs: seq<int>, floor: int, last: int) {
    floor <= last
    && (forall i :: 0 <= i < |utcs| ==> floor <= utcs[i] <= last && utcs[i] <= MAX_UTC)
    && (forall i, j :: 0 <= i < j < |utcs| ==> utcs[i] <= utcs[j])
  }

  /** Each accepted reply is exactly what was read in its stretch, all of them before `mark`. */
  ghost predicate Backed(taken: seq<Data>, mark: nat, spans: seq<(nat, nat)>, expected: Data,
                         history: seq<Observation>, utcs: seq<int>)
  {
    && mark <= |taken| && |spans| == |history| == |utcs| && Spans(spans, mark)
    && forall i :: 0 <= i < |spans| ==> Received(taken[spans[i].0..spans[i].1], expected, history[i], utcs[i])
  }

  /** The bytes read since `mark` are these. */
  ghost predicate Gathered(taken: seq<Data>, mark: nat, all: Data) {
    && mark <= |taken| && Reads(FRAME, [], taken[mark..])
    && Gather(FRAME, [], taken[mark..])
       == if |all| < FRAME then Waiting(all) else if |all| == FRAME then Full(all) else Overrun
  }

  lemma BackedLater(taken: seq<Data>, later: seq<Data>, mark: nat, spans: seq<(nat, nat)>, expected: Data,
                    history: seq<Observation>, utcs: seq<int>)
    requires Backed(taken, mark, spans, expected, history, utcs) && taken <= later
    ensures Backed(later, mark, spans, expected, history, utcs)
  {
    hide Received;
    forall i | 0 <= i < |spans|
      ensures Received(later[spans[i].0..spans[i].1], expected, history[i], utcs[i])
    {
      assert later[spans[i].0..spans[i].1] == taken[spans[i].0..spans[i].1];
    }
  }

  lemma BackedOneMore(taken: seq<Data>, mark: nat, spans: seq<(nat, nat)>, expected: Data,
                      history: seq<Observation>, utcs: seq<int>, o: Observation, utc: int)
    requires Backed(taken, mark, spans, expected, history, utcs)
    requires mark <= |taken| && Received(taken[mark..], expected, o, utc)
    ensures Backed(taken, |taken|, spans + [(mark, |taken|)], expected, history + [o], utcs + [utc])
  {
    hide Received;
    SpansOneMore(spans, mark, |taken|);
    assert taken[mark..|taken|] == taken[mark..];
  }

  /** From here on, for the next check. */
  lemma BackedSince(taken: seq<Data>, mark: nat, spans: seq<(nat, nat)>, expected: Data,
                    history: seq<Observation>, utcs: seq<int>)
    requires Backed(taken, mark, spans, expected, history, utcs)
    ensures Backed(taken, |taken|, spans, expected, history, utcs) && Gathered(taken, |taken|, [])
  {
    hide Received;
    SpansLater(spans, mark, |taken|);
    assert taken[|taken|..] == [];
  }

  lemma Complete(taken: seq<Data>, mark: nat, all: Data, expected: Data)
    requires Gathered(taken, mark, all) && FrameOf(all, expected).Some?
    ensures var r := FrameOf(all, expected).value;
            mark <= |taken| && Received(taken[mark..], expected, r.0, r.1)
  {
    hide Reads, Gather;
  }

  /** One more chunk for an unfinished reply. */
  lemma OneMoreChunk(taken: seq<Data>, mark: nat, buffer: Data, chunk: Data)
    requires Gathered(taken, mark, buffer) && |buffer| < FRAME && chunk != [] && |chunk| <= FRAME + 1 - |buffer|
    ensures Gathered(taken + [chunk], mark, buffer + chunk)
  {
    hide Reads, Gather;
    assert (taken + [chunk])[mark..] == taken[mark..] + [chunk];
    GatherOneMore(FRAME, [], taken[mark..], buffer, chunk);
    ReadsOneMore(FRAME, [], taken[mark..], buffer, chunk);
  }

  class Guard {
    const env: Environment.World
    const pipe: Environment.Pipe
    const deadline: int
    const expected: Data
    const minimumUtc: int
    var phase: Phase
    var sequence: nat
    var sentAt: int
    var nextDeadline: int
    var lastUtc: int
    var buffer: Data
    ghost var history: seq<Observation>
    ghost var requested: seq<int>
    ghost var utcs: seq<int>
    /** Where the requests and the accepted replies stand in the world's trace. */
    ghost var asked: seq<nat>
    ghost var answered: seq<nat>
    /** How much had been read when the last check was requested. */
    ghost var mark: nat
    /** What was read for each accepted reply. */
    ghost var spans: seq<(nat, nat)>

    /** The invariant less the room that an unfinished reply leaves in the buffer. */
    ghost predicate Open(t: int, trace: seq<Environment.Event>)
      reads this, pipe
    {
      && sequence <= MAX_CHECKS && |requested| == sequence && |history| <= sequence <= |history| + 1
      && (phase == New ==> sequence == 0)
      && Recorded(ME, history, requested, asked, answered, t, trace)
      && Backed(pipe.taken, mark, spans, expected, history, utcs)
      && Climbing(utcs, minimumUtc, lastUtc) && |utcs| == |history|
    }

    ghost predicate Inv(t: int, trace: seq<Environment.Event>)
      reads this, pipe
    {
      && Open(t, trace)
      && (phase == Pending ==>
            && sequence == |history| + 1 && sentAt == requested[|history|]
            && |buffer| < FRAME && Gathered(pipe.taken, mark, buffer))
      && (phase == Observed ==> sequence == |history| > 0)
    }

    ghost predicate Valid()
      reads this, pipe, env
    {
      env.Valid() && Inv(env.time, env.trace)
    }

    ghost predicate Ready()
      reads this, pipe, env
    {
      env.Valid() && Open(env.time, env.trace)
    }

    /** What the numbers of a guard say about its phase. */
    lemma Counts(t: int, trace: seq<Environment.Event>)
      requires Inv(t, trace)
      ensures |history| <= |requested| == sequence <= MAX_CHECKS
      ensures Ordered(history, requested) && Before(history, requested, t)
      ensures Traced(ME, history, requested, asked, answered, trace)
      ensures |asked| == sequence && |answered| == |history|
      ensures (phase == New ==> sequence == 0) && (phase == Observed ==> sequence == |history|)
      ensures history != [] ==> history[|history| - 1].sequence == |history|
      ensures Climbing(utcs, minimumUtc, lastUtc) && |utcs| == |history|
    {
      Numbers(ME, history, requested, asked, answered, trace);
      hide Traced, Climbing;
    }

    /** Time may pass and others may act without disturbing the invariant. */
    lemma Lift(t: int, trace: seq<Environment.Event>, now: int, later: seq<Environment.Event>)
      requires Inv(t, trace) && t <= now && Environment.Silent(ME, trace, later)
      ensures Inv(now, later)
    {
      hide Backed, Gathered, Recorded, Climbing, Environment.Silent;
      RecordedLater(ME, history, requested, asked, answered, t, trace, now, later);
    }

    constructor (env: Environment.World, deadline: int, expected: Data, minimumUtc: int)
      requires env.Valid() && Environment.Silent(ME, [], env.trace)
      ensures Valid() && fresh(pipe) && this.env == env && this.deadline == deadline && phase == New
      ensures history == [] && requested == [] && utcs == []
    {
      hide Gathered, Recorded, Environment.Timed, Environment.Silent;
      NothingRecorded(ME, env.time, env.trace);
      this.env, this.deadline, this.expected, this.minimumUtc := env, deadline, expected, minimumUtc;
      phase, sequence, sentAt, nextDeadline, lastUtc, buffer := New, 0, 0, 0, minimumUtc, [];
      mark := 0;
      pipe := new Environment.Pipe();
      history, requested, utcs, asked, answered, spans := [], [], [], [], [], [];
    }

    /** A reading of the clock, while the guard is open, before the deadline and in time for an open check. */
    method Current() returns (now: Option<int>)
      requires Ready()
      modifies env`time, env`clock
      ensures Ready() && (old(Valid()) ==> Valid()) && old(env.time) <= env.time && old(env.clock) <= env.clock
      ensures now.Some? ==>
                && Environment.Taken(old(env.clock), env.clock, now.value) && old(env.time) <= now.value <= env.time
                && phase != Failed && phase != Closed && now.value < deadline
                && (phase == Pending ==> now.value < nextDeadline)
    {
      hide Backed, Gathered, Recorded, Climbing, Environment.Timed;
      var current := env.Now();
      assert env.clock[|old(env.clock)|] == current;
      var alive := env.Passes();
      RecordedSame(ME, history, requested, asked, answered, old(env.time), env.trace, env.time);
      if phase == Failed || phase == Closed || current >= deadline || !alive
         || (phase == Pending && current >= nextDeadline) {
        return None;
      }
      return Some(current);
    }

    /** The exception path: anything not closed fails. */
    method Fail()
      requires Ready()
      modifies this`phase
      ensures Valid() && phase == (if old(phase) == Closed then Closed else Failed)
    {
      hide Recorded, Climbing;
      if phase != Closed {
        phase := Failed;
      }
    }

    method Descriptors() returns (ok: bool)
      requires Valid()
      modifies this`phase, env`time, env`clock
      ensures Valid() && old(env.time) <= env.time
      ensures if ok then phase == old(phase) && phase != Failed && phase != Closed
              else phase == Failed || phase == Closed
    {
      hide Backed, Gathered, Recorded, Climbing;
      var now := Current();
      ok := now.Some?;
      if !ok {
        Fail();
      }
    }

    /** Starts the next numbered check, and only when none is open. */
    method RequestCheck() returns (ok: bool)
      requires Valid()
      modifies this`phase, this`sequence, this`sentAt, this`nextDeadline, this`buffer
      modifies this`requested, this`asked, this`mark, env`time, env`clock, env`trace
      ensures Valid() && old(env.time) <= env.time
      ensures env.trace == old(env.trace)
              || (env.trace == old(env.trace) + [Environment.Asked(ME, sequence, sentAt)]
                  && (old(phase) == New || old(phase) == Observed) && sequence == old(sequence) + 1
                  && old(env.time) <= sentAt < deadline && Environment.Taken(old(env.clock), env.clock, sentAt)
                  && asked == old(asked) + [|old(env.trace)|] && requested == old(requested) + [sentAt])
      ensures env.trace == old(env.trace) ==> !ok && asked == old(asked) && requested == old(requested)
      ensures ok ==> phase == Pending && old(env.time) <= sentAt && buffer == [] && mark == |pipe.taken|
                     && nextDeadline == Earliest(deadline, sentAt + CHECK_MS)
      ensures !ok ==> phase == Failed || phase == Closed
      ensures old(phase) == Failed || old(phase) == Closed ==> !ok && phase == old(phase)
    {
      hide Backed, Gathered, Recorded, Climbing, Earliest, Environment.Timed;
      var now := Current();
      if now.None? {
        Fail();
        return false;
      }
      sentAt := now.value;
      if !(phase == New || phase == Observed) || sequence >= MAX_CHECKS {
        Fail();
        return false;
      }
      Begin(old(env.time));
      ghost var t := env.time;
      ok := env.Passes();
      Lift(t, env.trace, env.time, env.trace);
      if !ok {
        Fail();
      }
    }

    /** Opens the check that was sent at `sentAt`. */
    method Begin(ghost since: int)
      requires Ready() && sequence == |history| < MAX_CHECKS
      requires Environment.Timed(env.trace, since) && sentAt in env.clock && since <= sentAt <= env.time
      requires Recorded(ME, history, requested, asked, answered, since, env.trace)
      modifies this`sequence, this`phase, this`requested, this`asked, this`nextDeadline, this`buffer, this`mark
      modifies env`trace
      ensures Valid() && phase == Pending && requested == old(requested) + [sentAt]
      ensures buffer == [] && mark == |pipe.taken|
      ensures sequence == old(sequence) + 1 && asked == old(asked) + [|old(env.trace)|]
      ensures env.trace == old(env.trace) + [Environment.Asked(ME, sequence, sentAt)]
      ensures nextDeadline == Earliest(deadline, sentAt + CHECK_MS)
    {
      hide Backed, Gathered, Recorded, Climbing, Earliest, Environment.Timed;
      Note(since);
      sequence, phase, buffer := sequence + 1, Pending, [];
      nextDeadline := Earliest(deadline, sentAt + CHECK_MS);
    }

    ghost method Note(since: int)
      requires Ready() && sequence == |history|
      requires Environment.Timed(env.trace, since) && sentAt in env.clock && since <= sentAt <= env.time
      requires Recorded(ME, history, requested, asked, answered, since, env.trace)
      modifies this`requested, this`asked, this`mark, env`trace
      ensures env.Valid() && requested == old(requested) + [sentAt] && asked == old(asked) + [|old(env.trace)|]
      ensures env.trace == old(env.trace) + [Environment.Asked(ME, sequence + 1, sentAt)]
      ensures Recorded(ME, history, requested, asked, answered, env.time, env.trace)
      ensures mark == |pipe.taken| && Backed(pipe.taken, mark, spans, expected, history, utcs)
      ensures Gathered(pipe.taken, mark, [])
    {
      hide Backed, Gathered, Recorded, Climbing, Environment.Timed;
      BackedSince(pipe.taken, mark, spans, expected, history, utcs);
      RecordedAsk(ME, history, requested, asked, answered, since, env.trace, sentAt, env.time);
      requested, asked, mark := requested + [sentAt], asked + [|env.trace|], |pipe.taken|;
      env.Ask(ME, sequence + 1, sentAt, since);
    }

    /** Reads once more for the open check. */
    method Read() returns (data: Option<Data>)
      requires Valid() && phase == Pending
      modifies pipe
      ensures Ready() && pipe.taken == (if data.Some? then old(pipe.taken) + [data.value] else old(pipe.taken))
      ensures data.None? ==> Valid()
      ensures data.Some? && data.value != [] ==> Gathered(pipe.taken, mark, buffer + data.value)
    {
      hide Backed, Recorded, Gathered, Climbing, Environment.Timed;
      ghost var before := pipe.taken;
      data := pipe.Read(FRAME + 1 - |buffer|);
      BackedLater(before, pipe.taken, mark, spans, expected, history, utcs);
      if data.Some? && data.value != [] {
        OneMoreChunk(before, mark, buffer, data.value);
      }
    }

    /** Takes one chunk of the reply; a complete one is accepted only for this check and binding, in time. */
    method Receive() returns (reply: Reply)
      requires Valid()
      modifies this`phase, this`buffer, this`history, this`answered, this`lastUtc, this`utcs, this`mark, this`spans
      modifies pipe, env`time, env`clock, env`trace
      ensures Valid() && old(env.time) <= env.time && old(pipe.taken) <= pipe.taken
      ensures match reply
              case Rejected =>
                (phase == Failed || phase == Closed) && Still(old(env.trace), old(history), old(answered))
                && utcs == old(utcs)
              case Nothing =>
                old(phase) == phase == Pending && Still(old(env.trace), old(history), old(answered))
                && utcs == old(utcs) && mark == old(mark)
              case Accepted(o, utc) =>
                && old(phase) == Pending && phase == Observed
                && old(mark) <= |pipe.taken| && Received(pipe.taken[old(mark)..], expected, o, utc)
                && history == old(history) + [o] && answered == old(answered) + [|old(env.trace)|]
                && utcs == old(utcs) + [utc]
                && env.trace == old(env.trace) + [Environment.Answered(ME, o, env.time)]
                && sentAt <= o.started && InTime(o, old(env.clock), env.clock, deadline, nextDeadline)
      ensures old(phase) == Failed || old(phase) == Closed ==> reply == Rejected && phase == old(phase)
    {
      hide Backed, Recorded, Gathered, Climbing, Received, InTime, Environment.Timed;
      var alive := Current();
      if alive.None? || phase != Pending {
        Fail();
        return Rejected;
      }
      var data := Read();
      if data.None? {
        return Nothing;
      }
      if data.value == [] {
        Fail();
        return Rejected;
      }
      var gathered := buffer + data.value;
      if |gathered| < FRAME {
        buffer := gathered;
        return Nothing;
      }
      ghost var clock := env.clock;
      reply := Judge(gathered);
      if reply.Accepted? {
        InTimeLater(reply.observation, old(env.clock), clock, env.clock, deadline, nextDeadline);
      }
    }

    /** Everything that was read for the open check, once it is long enough to be a reply. */
    method Judge(gathered: Data) returns (reply: Reply)
      requires Ready() && phase == Pending && sequence == |history| + 1 && sentAt == requested[|history|]
      requires Gathered(pipe.taken, mark, gathered)
      modifies this`phase, this`lastUtc, this`buffer, this`history, this`answered, this`utcs, this`mark, this`spans
      modifies env`time, env`clock, env`trace
      ensures Valid() && old(env.time) <= env.time && old(env.clock) <= env.clock
      ensures match reply
              case Rejected =>
                (phase == Failed || phase == Closed) && Still(old(env.trace), old(history), old(answered))
                && utcs == old(utcs)
              case Nothing => false
              case Accepted(o, utc) =>
                && phase == Observed
                && old(mark) <= |pipe.taken| && Received(pipe.taken[old(mark)..], expected, o, utc)
                && history == old(history) + [o] && answered == old(answered) + [|old(env.trace)|]
                && utcs == old(utcs) + [utc]
                && env.trace == old(env.trace) + [Environment.Answered(ME, o, env.time)]
                && sentAt <= o.started && InTime(o, old(env.clock), env.clock, deadline, nextDeadline)
    {
      hide Backed, Gathered, Received, Recorded, FrameOf, Climbing, Environment.Timed;
      var frame := FrameOf(gathered, expected);
      var current := Current();
      buffer := gathered;
      if frame.None? || current.None? || !InContext(frame.value.0, frame.value.1, current.value) {
        Fail();
        return Rejected;
      }
      Complete(pipe.taken, mark, gathered, expected);
      ghost var clock := env.clock;
      reply := Accept(frame.value.0, frame.value.1, current.value);
      TakenEarlier(old(env.clock), clock, env.clock, current.value);
    }

    predicate InContext(o: Observation, utc: int, current: int)
      reads this
    {
      o.sequence == sequence && sentAt <= o.started <= o.finished <= current && current - o.finished <= CHECK_MS
      && lastUtc <= utc <= MAX_UTC
    }

    /** The last look at the helper comes after the phase and the floor have moved. */
    method Accept(o: Observation, utc: int, current: int) returns (reply: Reply)
      requires Ready() && phase == Pending && sequence == |history| + 1 && sentAt == requested[|history|]
      requires current <= env.time && InContext(o, utc, current)
      requires mark <= |pipe.taken| && Received(pipe.taken[mark..], expected, o, utc)
      modifies this`phase, this`lastUtc, this`buffer, this`history, this`answered, this`utcs, this`mark, this`spans
      modifies env`time, env`clock, env`trace
      ensures Valid() && old(env.time) <= env.time && old(env.clock) <= env.clock && lastUtc == utc && buffer == []
      ensures match reply
              case Rejected =>
                phase == Failed && Still(old(env.trace), old(history), old(answered)) && utcs == old(utcs)
              case Nothing => false
              case Accepted(p, time) =>
                && p == o && time == utc && phase == Observed
                && history == old(history) + [o] && answered == old(answered) + [|old(env.trace)|]
                && utcs == old(utcs) + [utc] && env.trace == old(env.trace) + [Environment.Answered(ME, o, env.time)]
    {
      hide Backed, Gathered, Received, Recorded, Climbing, Environment.Timed;
      Climb(utcs, minimumUtc, lastUtc, utc);
      phase, lastUtc, buffer := Observed, utc, [];
      var alive := Current();
      if alive.None? {
        Fail();
        return Rejected;
      }
      Take(o, utc);
      return Accepted(o, utc);
    }

    ghost method Take(o: Observation, utc: int)
      requires Ready() && phase == Observed && sequence == |history| + 1 == o.sequence
      requires requested[|history|] <= o.started <= o.finished <= env.time
      requires mark <= |pipe.taken| && Received(pipe.taken[mark..], expected, o, utc)
      requires Climbing(utcs + [utc], minimumUtc, lastUtc)
      modifies this`history, this`answered, this`utcs, this`mark, this`spans, env`trace
      ensures Valid() && history == old(history) + [o] && answered == old(answered) + [|old(env.trace)|]
      ensures utcs == old(utcs) + [utc] && env.trace == old(env.trace) + [Environment.Answered(ME, o, env.time)]
    {
      hide Backed, Gathered, Received, Recorded, Climbing, Environment.Timed;
      var trace, to: nat := env.trace, |pipe.taken|;
      RecordedAnswer(ME, history, requested, asked, answered, env.time, trace, o);
      BackedOneMore(pipe.taken, mark, spans, expected, history, utcs, o, utc);
      env.Answer(ME, o, asked[|history|]);
      history, utcs, answered := history + [o], utcs + [utc], answered + [|trace|];
      spans, mark := spans + [(mark, to)], to;
    }

    /** Every accepted reply, joined, is what was read from the pipe in a stretch of its own. */
    lemma EveryReplyWasRead(t: int, trace: seq<Environment.Event>, i: nat) returns (from: nat, to: nat)
      requires Inv(t, trace) && i < |history|
      ensures i < |utcs| && from <= to <= |pipe.taken| && Received(pipe.taken[from..to], expected, history[i], utcs[i])
      ensures i + 1 < |history| ==> to <= spans[i + 1].0
    {
      hide Recorded, Received, Gathered, Climbing;
      from, to := spans[i].0, spans[i].1;
    }

    ghost predicate Still(trace: seq<Environment.Event>, observations: seq<Observation>, positions: seq<nat>)
      reads this, env
    {
      env.trace == trace && history == observations && answered == positions
    }

    method Close()
      requires Valid()
      modifies this`phase, this`buffer
      ensures Valid() && phase == Closed
    {
      hide Recorded, Climbing;
      phase, buffer := Closed, [];
    }
  }

  lemma Climb(utcs: seq<int>, floor: int, last: int, utc: int)
    requires Climbing(utcs, floor, last) && last <= utc <= MAX_UTC
    ensures Climbing(utcs, floor, utc) && Climbing(utcs + [utc], floor, utc)
  {
  }
}
