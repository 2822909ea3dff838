/** The worker handoff of native/root_handoff.py, as its owner uses it without waiting. */
module Channels {

  import opened NiaCommon
  import opened Bytes
  import opened Handoff
  import opened Scopes
  import Environment
  import RootSession

  class Channel {
    const env: Environment.World
    const scope: ChannelScope
    const peer: int
    const child: (int, int)
    /** The scope's own bytes, which the child must send. */
    const expected: Data
    var phase: Phase

    constructor (env: Environment.World, scope: ChannelScope, peer: int, child: (int, int), expected: Data)
      ensures this.env == env && this.scope == scope && this.peer == peer && phase == Ready
      ensures this.child == child && this.expected == expected
    {
      this.env, this.scope, this.peer, this.child, this.expected := env, scope, peer, child, expected;
      phase := Transition(Starting, Open).value;
    }

    /** Whether the owner, the deadline and the child still hold. */
    method Alive() returns (ok: bool)
      requires env.Valid()
      modifies env`time, env`clock
      ensures env.Valid() && old(env.time) <= env.time && old(env.clock) <= env.clock
      ensures ok ==> Environment.InForce(old(env.clock), env.clock, scope.scope.deadline)
    {
      var now := env.Now();
      assert env.clock[|old(env.clock)|] == now;
      ok := env.Passes();
      assert Environment.Taken(old(env.clock), env.clock, now);
      ok := ok && now < scope.scope.deadline;
    }

    /** Alive, and the peer neither cancels nor disconnects. */
    method Current() returns (ok: bool)
      requires env.Valid()
      modifies env`time, env`clock
      ensures env.Valid() && old(env.time) <= env.time && old(env.clock) <= env.clock
      ensures ok ==> phase != Closed
                     && Environment.InForce(old(env.clock), env.clock, scope.scope.deadline)
    {
      ok := Alive();
      var quiet := env.Passes();
      ok := ok && quiet && phase != Closed;
    }

    /** Exactly this scope, from exactly the child that was launched, with two descriptors. */
    predicate Genuine(m: Environment.Message) {
      m.clean && m.credentials == [child] && |m.descriptors| == 2 && m.raw == expected
    }

    /** Takes the archive and the lease of the handoff. */
    method Receive() returns (ok: bool, descriptors: seq<int>)
      requires env.Valid()
      modifies this`phase, env`time, env`clock, env`trace
      ensures env.Valid() && old(env.time) <= env.time
      ensures env.trace == old(env.trace)
              || (|env.trace| == |old(env.trace)| + 1 && old(env.trace) <= env.trace
                  && env.trace[|old(env.trace)|].Handed?)
      ensures ok ==> old(phase) == Ready && phase == Received && env.trace != old(env.trace)
                     && Genuine(env.trace[|old(env.trace)|].message)
                     && descriptors == env.trace[|old(env.trace)|].message.descriptors
      ensures !ok ==> phase == (if old(phase) == Ready then Failed else old(phase))
    {
      hide Environment.Timed, Environment.InForce;
      var started := Transition(phase, Event.Receive);
      if started.None? {
        return false, [];
      }
      phase := started.value;
      var alive := Alive();
      var m := env.Receive();
      var current := Current();
      ok := alive && m.Some? && Genuine(m.value) && current;
      descriptors := if ok then m.value.descriptors else [];
      phase := Transition(phase, if ok then Event.Accept else Event.Fail).value;
    }

    /** Sends the one reply of this handoff, from `Received` and from nowhere else. */
    method Complete() returns (ok: bool)
      requires env.Valid()
      modifies this`phase, env`time, env`clock, env`trace
      ensures env.Valid() && old(env.time) <= env.time
      ensures RootSession.Sends(old(env.trace), env.trace, Environment.Complete, old(env.time), env.time)
      ensures ok ==> old(phase) == Received && phase == Phase.Complete && env.trace != old(env.trace)
      ensures !ok ==> phase == (if old(phase) == Received then Failed else old(phase))
      ensures old(phase) != Received ==> env.trace == old(env.trace)
    {
      hide Environment.Timed, Environment.InForce;
      var started := Transition(phase, Event.Finish);
      if started.None? {
        return false;
      }
      phase := started.value;
      var current := Current();
      var again := Current();
      if !current || !again {
        phase := Transition(phase, Event.Fail).value;
        return false;
      }
      ok := env.Send(Environment.Complete);
      phase := Transition(phase, if ok then Event.Ack else Event.Fail).value;
    }

    method Close()
      modifies this`phase
      ensures phase == Closed
    {
      phase := Transition(phase, Event.Close).value;
    }
  }
}
