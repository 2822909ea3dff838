/**
 Waiting edges between packages: an origin waits for a target. A target is blocked
 when, along the edges, it can reach busy work or a cycle; nothing else can hold it.
 */
module WaitGraph {
  import opened NiaCommon

  type Edge = (string, string)

  ghost predicate IsWalk(edges: set<Edge>, w: seq<string>) {
    w != [] && forall i :: 0 <= i < |w| - 1 ==> (w[i], w[i + 1]) in edges
  }

  ghost predicate OnCycle(edges: set<Edge>, n: string) {
    exists c :: |c| >= 2 && IsWalk(edges, c) && c[0] == n && c[|c| - 1] == n
  }

  ghost predicate HasCycle(edges: set<Edge>) {
    exists n :: OnCycle(edges, n)
  }

  ghost predicate Blocked(edges: set<Edge>, busy: set<string>, t: string) {
    exists w :: IsWalk(edges, w) && w[0] == t && (w[|w| - 1] in busy || OnCycle(edges, w[|w| - 1]))
  }

  /** The edges that must survive a completion. */
  ghost function Remaining(edges: set<Edge>, busy: set<string>): set<Edge> {
    set e | e in edges && Blocked(edges, busy, e.1)
  }

  lemma BlockedByTarget(edges: set<Edge>, busy: set<string>, t: string, u: string)
    requires (t, u) in edges && Blocked(edges, busy, u)
    ensures Blocked(edges, busy, t)
  {
    var w :| IsWalk(edges, w) && w[0] == u && (w[|w| - 1] in busy || OnCycle(edges, w[|w| - 1]));
    var v := [t] + w;
    assert forall i :: 0 < i < |v| - 1 ==> (v[i], v[i + 1]) == (w[i - 1], w[i]);
    assert IsWalk(edges, v) && v[|v| - 1] == w[|w| - 1];
  }

  lemma BlockedBecause(edges: set<Edge>, busy: set<string>, t: string) returns (u: string)
    requires Blocked(edges, busy, t) && t !in busy
    ensures (t, u) in edges && Blocked(edges, busy, u)
  {
    var w :| IsWalk(edges, w) && w[0] == t && (w[|w| - 1] in busy || OnCycle(edges, w[|w| - 1]));
    if |w| == 1 {
      var c :| |c| >= 2 && IsWalk(edges, c) && c[0] == t && c[|c| - 1] == t;
      w := c;
    }
    u := w[1];
    assert (w[0], w[1]) in edges;
    assert IsWalk(edges, w[1..]);
  }

  // ----- Ranked nodes are free -----

  /** Each queued node is idle and waits only for nodes queued before it. */
  ghost predicate Ranked(edges: set<Edge>, busy: set<string>, queue: seq<string>) {
    && Distinct(queue)
    && (forall k :: 0 <= k < |queue| ==> queue[k] !in busy)
    && forall k, u :: 0 <= k < |queue| && (queue[k], u) in edges ==> u in queue[..k]
  }

  lemma {:induction false} WalkDescends(edges: set<Edge>, busy: set<string>, queue: seq<string>, w: seq<string>, k: nat)
    returns (j: nat)
    requires Ranked(edges, busy, queue) && IsWalk(edges, w) && k < |queue| && w[0] == queue[k]
    ensures j + |w| - 1 <= k && queue[j] == w[|w| - 1]
    decreases |w|
  {
    if |w| == 1 {
      j := k;
    } else {
      assert (w[0], w[1]) in edges;
      var i :| 0 <= i < k && queue[i] == w[1];
      assert IsWalk(edges, w[1..]);
      j := WalkDescends(edges, busy, queue, w[1..], i);
    }
  }

  lemma RankedIsFree(edges: set<Edge>, busy: set<string>, queue: seq<string>, k: nat)
    requires Ranked(edges, busy, queue) && k < |queue|
    ensures !Blocked(edges, busy, queue[k])
  {
    forall w | IsWalk(edges, w) && w[0] == queue[k]
      ensures w[|w| - 1] !in busy && !OnCycle(edges, w[|w| - 1])
    {
      var j := WalkDescends(edges, busy, queue, w, k);
      forall c | |c| >= 2 && IsWalk(edges, c) && c[0] == queue[j]
        ensures c[|c| - 1] != queue[j]
      {
        var i := WalkDescends(edges, busy, queue, c, j);
        assert i < j;
      }
    }
  }

  // ----- A set that cannot be left is blocked -----

  /** Every node of the set is busy or waits for a node of the set. */
  ghost predicate Stuck(edges: set<Edge>, busy: set<string>, nodes: set<string>) {
    forall n :: n in nodes ==> n in busy || exists u :: u in nodes && (n, u) in edges
  }

  lemma CycleInWalk(edges: set<Edge>, w: seq<string>, i: nat)
    requires IsWalk(edges, w) && i < |w| && (w[|w| - 1], w[i]) in edges
    ensures OnCycle(edges, w[i])
  {
    var c := w[i..] + [w[i]];
    forall k | 0 <= k < |c| - 1
      ensures (c[k], c[k + 1]) in edges
    {
      if k == |c| - 2 { assert c[k] == w[|w| - 1]; } else { assert (w[i + k], w[i + k + 1]) in edges; }
    }
    assert IsWalk(edges, c);
  }

  lemma {:induction false} WalkIsBlocked(edges: set<Edge>, busy: set<string>, nodes: set<string>, w: seq<string>)
    requires Stuck(edges, busy, nodes) && IsWalk(edges, w) && Distinct(w) && Elements(w) <= nodes
    ensures w != [] && Blocked(edges, busy, w[0])
    ensures busy == {} ==> HasCycle(edges)
    decreases |nodes| - |w|
  {
    hide IsWalk, OnCycle, Distinct;
    LastIsThere(edges, w);
    var last := w[|w| - 1];
    if last in busy {
      BlockedAt(edges, busy, w, |w| - 1);
    } else {
      var u :| u in nodes && (last, u) in edges;
      if u in w {
        var i :| 0 <= i < |w| && w[i] == u;
        CycleInWalk(edges, w, i);
        BlockedAt(edges, busy, w, i);
      } else {
        OneStepMore(edges, nodes, w, u);
        WalkIsBlocked(edges, busy, nodes, w + [u]);
      }
    }
  }

  lemma LastIsThere(edges: set<Edge>, w: seq<string>)
    requires IsWalk(edges, w)
    ensures w != [] && w[|w| - 1] in Elements(w)
  {
  }

  lemma BlockedAt(edges: set<Edge>, busy: set<string>, w: seq<string>, i: nat)
    requires IsWalk(edges, w) && i < |w| && (w[i] in busy || OnCycle(edges, w[i]))
    ensures Blocked(edges, busy, w[0])
  {
    assert IsWalk(edges, w[..i + 1]) && w[..i + 1][0] == w[0];
  }

  lemma WalkOneMore(edges: set<Edge>, w: seq<string>, u: string)
    requires IsWalk(edges, w) && (w[|w| - 1], u) in edges
    ensures IsWalk(edges, w + [u])
  {
  }

  lemma OneStepMore(edges: set<Edge>, nodes: set<string>, w: seq<string>, u: string)
    requires IsWalk(edges, w) && Distinct(w) && Elements(w) <= nodes && u in nodes && u !in w
    requires (w[|w| - 1], u) in edges
    ensures IsWalk(edges, w + [u]) && Distinct(w + [u]) && Elements(w + [u]) <= nodes && |w| < |nodes|
  {
    hide IsWalk;
    WalkOneMore(edges, w, u);
    var longer := w + [u];
    assert Elements(longer) == Elements(w) + {u};
    DistinctCardinality(longer);
    SubsetCardinality(Elements(longer), nodes);
  }

  lemma StuckIsBlocked(edges: set<Edge>, busy: set<string>, nodes: set<string>, t: string)
    requires Stuck(edges, busy, nodes) && t in nodes
    ensures Blocked(edges, busy, t)
    ensures busy == {} ==> HasCycle(edges)
  {
    WalkIsBlocked(edges, busy, nodes, [t]);
  }

  // ----- The worklist -----

  ghost function Targets(edges: set<Edge>, origin: string): set<string> {
    set e | e in edges && e.0 == origin :: e.1
  }

  ghost function Origins(edges: set<Edge>, target: string): set<string> {
    set e | e in edges && e.1 == target :: e.0
  }

  lemma RemoveEdge(edges: set<Edge>, o: string, t: string)
    requires (o, t) in edges
    ensures Targets(edges - {(o, t)}, o) == Targets(edges, o) - {t}
    ensures |Targets(edges - {(o, t)}, o)| == |Targets(edges, o)| - 1
    ensures forall p :: p != o ==> Targets(edges - {(o, t)}, p) == Targets(edges, p)
  {
    assert t in Targets(edges, o);
    assert Targets(edges - {(o, t)}, o) == Targets(edges, o) - {t};
    forall p | p != o
      ensures Targets(edges - {(o, t)}, p) == Targets(edges, p)
    {
      assert forall e :: e in edges && e.0 == p ==> e in edges - {(o, t)};
    }
  }

  lemma AddTarget(edges: set<Edge>, o: string, t: string)
    requires (o, t) !in edges
    ensures |Targets(edges + {(o, t)}, o)| == |Targets(edges, o)| + 1
    ensures forall p :: p != o ==> Targets(edges + {(o, t)}, p) == Targets(edges, p)
  {
    var more := edges + {(o, t)};
    assert t !in Targets(edges, o) && (o, t) in more;
    assert Targets(more, o) == Targets(edges, o) + {t};
    forall p | p != o ensures Targets(more, p) == Targets(edges, p) {}
  }

  lemma AddOrigin(edges: set<Edge>, o: string, t: string)
    ensures Origins(edges + {(o, t)}, t) == Origins(edges, t) + {o}
    ensures forall p :: p != t ==> Origins(edges + {(o, t)}, p) == Origins(edges, p)
  {
    var more := edges + {(o, t)};
    assert (o, t) in more;
    assert Origins(more, t) == Origins(edges, t) + {o};
    forall p | p != t ensures Origins(more, p) == Origins(edges, p) {}
  }

  type Index = map<string, set<string>>
  type Counts = map<string, nat>

  ghost predicate IncomingOf(incoming: Index, edges: set<Edge>) {
    forall t :: Origins(edges, t) == if t in incoming then incoming[t] else {}
  }

  ghost predicate OutgoingOf(outgoing: Counts, edges: set<Edge>) {
    forall o :: |Targets(edges, o)| == if o in outgoing then outgoing[o] else 0
  }

  function Bump(outgoing: Counts, o: string): Counts {
    outgoing[o := (if o in outgoing then outgoing[o] else 0) + 1]
  }

  function Note(incoming: Index, o: string, t: string): Index {
    incoming[t := (if t in incoming then incoming[t] else {}) + {o}]
  }

  lemma NoteOneMore(incoming: Index, edges: set<Edge>, o: string, t: string)
    requires IncomingOf(incoming, edges)
    ensures IncomingOf(Note(incoming, o, t), edges + {(o, t)})
  {
    AddOrigin(edges, o, t);
  }

  lemma BumpOneMore(outgoing: Counts, edges: set<Edge>, o: string, t: string)
    requires OutgoingOf(outgoing, edges) && (o, t) !in edges
    ensures OutgoingOf(Bump(outgoing, o), edges + {(o, t)})
  {
    AddTarget(edges, o, t);
  }

  lemma IndexOneLess(outgoing: Counts, edges: set<Edge>, o: string, t: string)
    requires OutgoingOf(outgoing, edges) && (o, t) in edges
    ensures o in outgoing && outgoing[o] > 0
    ensures OutgoingOf(outgoing[o := outgoing[o] - 1], edges - {(o, t)})
    ensures outgoing[o] == 1 <==> Targets(edges - {(o, t)}, o) == {}
  {
    RemoveEdge(edges, o, t);
    assert |Targets(edges, o)| == if o in outgoing then outgoing[o] else 0;
    assert Targets(edges - {(o, t)}, o) == {} <==> |Targets(edges - {(o, t)}, o)| == 0;
  }

  lemma NoEdges()
    ensures IncomingOf(map[], {}) && OutgoingOf(map[], {})
  {
    assert forall t :: Origins({}, t) == {} && Targets({}, t) == {};
  }

  method IndexEdges(edges: set<Edge>) returns (incoming: Index, outgoing: Counts)
    ensures IncomingOf(incoming, edges) && OutgoingOf(outgoing, edges)
  {
    hide IncomingOf, OutgoingOf;
    incoming, outgoing := map[], map[];
    var rest := edges;
    NoEdges();
    assert edges - rest == {};
    while rest != {}
      invariant rest <= edges
      invariant IncomingOf(incoming, edges - rest) && OutgoingOf(outgoing, edges - rest)
      decreases rest
    {
      var e :| e in rest;
      var (origin, target) := e;
      NoteOneMore(incoming, edges - rest, origin, target);
      BumpOneMore(outgoing, edges - rest, origin, target);
      assert edges - (rest - {e}) == (edges - rest) + {(origin, target)};
      incoming, outgoing := Note(incoming, origin, target), Bump(outgoing, origin);
      rest := rest - {e};
    }
    assert edges - rest == edges;
  }

  /** What holds of the nodes queued so far and the edges still awaited. */
  ghost predicate Queued(edges: set<Edge>, busy: set<string>, queue: seq<string>, popped: nat, awaited: set<Edge>) {
    && popped <= |queue| && awaited <= edges
    && Ranked(edges, busy, queue)
    && (forall e :: e in edges - awaited ==> e.1 in queue[..popped])
    && (forall k :: 0 <= k < |queue| ==> Targets(awaited, queue[k]) == {})
    && (forall o :: o !in busy && Targets(edges, o) != {} && Targets(awaited, o) == {} ==> o in queue)
  }

  /** Removing an edge whose target is done leaves every queued node without awaited edges. */
  lemma Removed(edges: set<Edge>, busy: set<string>, queue: seq<string>, popped: nat,
                before: set<Edge>, o: string, t: string)
    requires Queued(edges, busy, queue, popped, before) && (o, t) in before && t in queue[..popped]
    ensures var awaited := before - {(o, t)};
            && o !in queue
            && (forall e :: e in edges - awaited ==> e.1 in queue[..popped])
            && (forall k :: 0 <= k < |queue| ==> Targets(awaited, queue[k]) == {})
            && forall p :: p != o ==> Targets(awaited, p) == Targets(before, p)
  {
    hide Ranked;
    RemoveEdge(before, o, t);
    assert t in Targets(before, o);
  }

  lemma RankedOneMore(edges: set<Edge>, busy: set<string>, queue: seq<string>, o: string)
    requires Ranked(edges, busy, queue) && o !in queue && o !in busy
    requires forall u :: (o, u) in edges ==> u in queue
    ensures Ranked(edges, busy, queue + [o])
  {
    var longer := queue + [o];
    forall k, u | 0 <= k < |longer| && (longer[k], u) in edges
      ensures u in longer[..k]
    {
      if k < |queue| { assert longer[..k] == queue[..k]; } else { assert longer[..k] == queue; }
    }
  }

  /** A node whose last awaited edge has just been removed joins the queue. */
  lemma Append(edges: set<Edge>, busy: set<string>, queue: seq<string>, popped: nat,
               before: set<Edge>, o: string, t: string)
    requires Queued(edges, busy, queue, popped, before) && (o, t) in before && t in queue[..popped]
    ensures var awaited := before - {(o, t)};
            && o !in queue
            && (Targets(awaited, o) == {} && o !in busy ==> Queued(edges, busy, queue + [o], popped, awaited))
            && (Targets(awaited, o) != {} || o in busy ==> Queued(edges, busy, queue, popped, awaited))
  {
    hide Ranked, Targets;
    var awaited := before - {(o, t)};
    Removed(edges, busy, queue, popped, before, o, t);
    if Targets(awaited, o) == {} && o !in busy {
      var longer := queue + [o];
      assert longer[..popped] == queue[..popped];
      NoneLeft(edges, awaited, queue, popped, o);
      RankedOneMore(edges, busy, queue, o);
    }
  }

  lemma NoneLeft(edges: set<Edge>, awaited: set<Edge>, queue: seq<string>, popped: nat, o: string)
    requires popped <= |queue| && Targets(awaited, o) == {}
    requires forall e :: e in edges - awaited ==> e.1 in queue[..popped]
    ensures forall u :: (o, u) in edges ==> u in queue
  {
    forall u | (o, u) in edges
      ensures u in queue
    {
      assert (o, u) in awaited ==> u in Targets(awaited, o);
      assert (o, u) in edges - awaited ==> (o, u).1 in queue[..popped];
    }
  }

  /** Releasing one finished target: every origin waiting for it loses that edge. */
  method ReleaseTarget(edges: set<Edge>, busy: set<string>, target: string, origins: set<string>, awaited0: set<Edge>,
                       outgoing0: Counts, ready0: seq<string>, ghost queue0: seq<string>, ghost popped: nat)
    returns (awaited: set<Edge>, outgoing: Counts, ready: seq<string>, ghost queue: seq<string>)
    requires Queued(edges, busy, queue0, popped, awaited0) && popped <= |queue0| && target in queue0[..popped]
    requires OutgoingOf(outgoing0, awaited0) && ready0 == queue0[popped..]
    requires origins == Origins(awaited0, target)
    ensures Queued(edges, busy, queue, popped, awaited)
    ensures OutgoingOf(outgoing, awaited) && popped <= |queue| && ready == queue[popped..]
    ensures queue0 <= queue && awaited <= awaited0
    ensures |awaited| + |ready| <= |awaited0| + |ready0|
    ensures Origins(awaited, target) == {}
    ensures forall e :: e in awaited0 && e.1 != target ==> e in awaited
  {
    hide Queued, OutgoingOf;
    awaited, outgoing, ready, queue := awaited0, outgoing0, ready0, queue0;
    var rest := origins;
    while rest != {}
      invariant Queued(edges, busy, queue, popped, awaited)
      invariant OutgoingOf(outgoing, awaited) && popped <= |queue| && ready == queue[popped..]
      invariant queue0 <= queue && awaited <= awaited0
      invariant |awaited| + |ready| <= |awaited0| + |ready0|
      invariant rest == Origins(awaited, target)
      invariant forall e :: e in awaited0 && e.1 != target ==> e in awaited
      decreases rest
    {
      var origin :| origin in rest;
      // The edge is present: no edge is removed twice.
      assert (origin, target) in awaited;
      assert queue[..popped] == queue0[..popped];
      IndexOneLess(outgoing, awaited, origin, target);
      Append(edges, busy, queue, popped, awaited, origin, target);
      ghost var before := awaited;
      awaited := awaited - {(origin, target)};
      assert Origins(awaited, target) == Origins(before, target) - {origin};
      outgoing := outgoing[origin := outgoing[origin] - 1];
      if outgoing[origin] == 0 && origin !in busy {
        ready := ready + [origin];
        queue := queue + [origin];
      }
      rest := rest - {origin};
    }
  }

  /** Every target is busy, waits for something, or is the package that just finished. */
  ghost predicate Accounted(edges: set<Edge>, busy: set<string>, receiver: string) {
    forall e :: e in edges ==> e.1 in busy || Targets(edges, e.1) != {} || e.1 == receiver
  }

  lemma FixpointIsRemaining(edges: set<Edge>, busy: set<string>, receiver: string, queue: seq<string>,
                            awaited: set<Edge>)
    requires Queued(edges, busy, queue, |queue|, awaited) && Accounted(edges, busy, receiver)
    requires forall e :: e in awaited ==> e.1 !in queue
    requires receiver !in busy && Targets(edges, receiver) == {} ==> receiver in queue
    ensures awaited == Remaining(edges, busy)
  {
    assert queue[..|queue|] == queue;
    forall e | e in edges - awaited
      ensures !Blocked(edges, busy, e.1)
    {
      var k :| 0 <= k < |queue| && queue[k] == e.1;
      RankedIsFree(edges, busy, queue, k);
    }
    var nodes := set e | e in awaited :: e.1;
    forall n | n in nodes
      ensures n in busy || exists u :: u in nodes && (n, u) in edges
    {
      if n !in busy {
        assert Targets(awaited, n) != {};
        var u :| u in Targets(awaited, n);
        assert (n, u) in awaited;
      }
    }
    forall e | e in awaited
      ensures Blocked(edges, busy, e.1)
    {
      StuckIsBlocked(edges, busy, nodes, e.1);
    }
  }

  /** The queue starts with the package that finished, if nothing holds it. */
  lemma FirstQueued(edges: set<Edge>, busy: set<string>, receiver: string, outgoing: Counts, queue: seq<string>)
    requires Accounted(edges, busy, receiver) && OutgoingOf(outgoing, edges)
    requires queue == if receiver !in busy && (receiver !in outgoing || outgoing[receiver] == 0) then [receiver] else []
    ensures Queued(edges, busy, queue, 0, edges)
    ensures receiver !in busy && Targets(edges, receiver) == {} ==> receiver in queue
  {
    assert Targets(edges, receiver) == {} <==> |Targets(edges, receiver)| == 0;
    assert queue != [] ==> forall u :: (receiver, u) in edges ==> u in Targets(edges, receiver);
  }

  lemma OriginsOf(incoming: Index, edges: set<Edge>, t: string)
    requires IncomingOf(incoming, edges)
    ensures Origins(edges, t) == if t in incoming then incoming[t] else {}
  {
  }

  /** When nothing waits for a target any more, it is no edge's target. */
  lemma Discharged(awaited: set<Edge>, queue: seq<string>, popped: nat, target: string)
    requires 0 < popped <= |queue| && queue[popped - 1] == target && Origins(awaited, target) == {}
    requires forall e :: e in awaited ==> e.1 !in queue[..popped - 1]
    ensures forall e :: e in awaited ==> e.1 !in queue[..popped]
  {
    assert queue[..popped] == queue[..popped - 1] + [target];
    forall e | e in awaited
      ensures e.1 !in queue[..popped]
    {
      assert e.1 == target ==> e.0 in Origins(awaited, target);
    }
  }

  /** The worklist of `observe_success`: whatever order it takes, it keeps the blocked edges. */
  method Release(edges: set<Edge>, busy: set<string>, receiver: string) returns (awaited: set<Edge>)
    requires Accounted(edges, busy, receiver)
    ensures awaited == Remaining(edges, busy)
  {
    hide Queued, IncomingOf, OutgoingOf, Origins, Targets, Accounted, Remaining;
    awaited := edges;
    var incoming, outgoing := IndexEdges(edges);
    var free := receiver !in busy && (receiver !in outgoing || outgoing[receiver] == 0);
    var ready := if free then [receiver] else [];
    ghost var queue, popped := ready, 0;
    FirstQueued(edges, busy, receiver, outgoing, queue);
    while ready != []
      invariant popped <= |queue| && ready == queue[popped..]
      invariant Queued(edges, busy, queue, popped, awaited) && OutgoingOf(outgoing, awaited)
      invariant forall e :: e in awaited ==> e.1 !in queue[..popped]
      invariant receiver !in busy && Targets(edges, receiver) == {} ==> receiver in queue
      decreases |awaited| + |ready|
    {
      var target := ready[0];
      ready := ready[1..];
      PopNext(edges, busy, queue, popped, awaited);
      OriginsOf(incoming, edges, target);
      popped := popped + 1;
      var origins := if target in incoming then incoming[target] else {};
      ghost var queue0 := queue;
      awaited, outgoing, ready, queue :=
        ReleaseTarget(edges, busy, target, origins, awaited, outgoing, ready, queue, popped);
      assert queue[..popped - 1] == queue0[..popped - 1];
      Discharged(awaited, queue, popped, target);
    }
    assert queue[..|queue|] == queue;
    FixpointIsRemaining(edges, busy, receiver, queue, awaited);
  }

  lemma PopNext(edges: set<Edge>, busy: set<string>, queue: seq<string>, popped: nat, awaited: set<Edge>)
    requires Queued(edges, busy, queue, popped, awaited) && popped < |queue|
    requires forall e :: e in awaited ==> e.1 !in queue[..popped]
    ensures Queued(edges, busy, queue, popped + 1, awaited)
    ensures queue[popped] in queue[..popped + 1]
    ensures Origins(awaited, queue[popped]) == Origins(edges, queue[popped])
  {
    TakeOneMore(queue, popped);
    assert queue[popped] !in queue[..popped];
    assert forall e :: e in edges && e.1 == queue[popped] ==> e in awaited;
  }
}
