/**
 The catalog-query limiter inside `serve` of native/management_service.py: expiry
 times of recent queries by user, pruned on every query.
 */
module RateLimiter {
  import opened NiaCommon

  const WINDOW := 10000
  const PER_USER := 4
  const USERS := 1024

  type Table = map<int, seq<int>>

  /** `[expiry for expiry in recent[uid] if expiry > current]`. */
  function Live(expiries: seq<int>, current: int): seq<int> {
    if expiries == [] then []
    else
      var front := Live(expiries[..|expiries| - 1], current);
      if expiries[|expiries| - 1] > current then front + [expiries[|expiries| - 1]] else front
  }

  function Entry(table: Table, uid: int): seq<int> {
    if uid in table then table[uid] else []
  }

  ghost function Prune(table: Table, current: int): Table {
    map uid | uid in table && Live(table[uid], current) != [] :: Live(table[uid], current)
  }

  predicate Admits(pruned: Table, uid: int) {
    |Entry(pruned, uid)| < PER_USER && (Entry(pruned, uid) != [] || |pruned| < USERS)
  }

  /** The table after one query, admitted or refused. */
  ghost function Decide(table: Table, uid: int, current: int): Table {
    var pruned := Prune(table, current);
    if Admits(pruned, uid) then pruned[uid := Entry(pruned, uid) + [current + WINDOW]] else pruned
  }

  class Limiter {
    var recent: Table

    constructor ()
      ensures recent == map[]
    {
      recent := map[];
    }

    /** One query: prune every user, then admit or refuse the caller. */
    method Admit(uid: int, current: int) returns (admitted: bool)
      modifies this
      ensures admitted <==> Admits(Prune(old(recent), current), uid)
      ensures recent == Decide(old(recent), uid, current)
    {
      recent := PruneAll(recent, current);
      var history := Entry(recent, uid);
      if |history| >= PER_USER || (history == [] && |recent| >= USERS) {
        return false;
      }
      recent := recent[uid := history + [current + WINDOW]];
      return true;
    }
  }

  /** `for uid in tuple(recent)`: keep what is still live, drop users with nothing left. */
  method PruneAll(table: Table, current: int) returns (r: Table)
    ensures r == Prune(table, current)
  {
    r := table;
    var users := table.Keys;
    while users != {}
      invariant users <= table.Keys
      invariant forall u :: u in users ==> u in r && r[u] == table[u]
      invariant forall u :: u in table && u !in users ==> Entry(r, u) == Live(table[u], current)
      invariant forall u :: u in r && u !in users ==> u in table && r[u] != []
      decreases users
    {
      SomeUser(users);
      var u :| u in users;
      var kept := LiveEntries(r[u], current);
      r := if kept == [] then r - {u} else r[u := kept];
      users := users - {u};
    }
    assert forall u :: u in r <==> u in Prune(table, current);
    forall u | u in r
      ensures r[u] == Prune(table, current)[u]
    {
      assert Entry(r, u) == Live(table[u], current);
    }
  }

  lemma SomeUser(users: set<int>)
    requires users != {}
    ensures exists u :: u in users
  {
    var none: set<int> := {};
    assert (forall u :: u in users <==> u in none) ==> users == none;
  }

  method LiveEntries(expiries: seq<int>, current: int) returns (kept: seq<int>)
    ensures kept == Live(expiries, current)
  {
    kept := [];
    TakeAll(expiries);
    for i := 0 to |expiries|
      invariant kept == Live(expiries[..i], current)
    {
      TakeOneMore(expiries, i);
      if expiries[i] > current { kept := kept + [expiries[i]]; }
    }
  }

  // ----- Whole request sequences -----

  datatype Request = Request(uid: int, time: int)

  /** `recent` after a sequence of queries. */
  ghost function Replay(requests: seq<Request>): Table {
    if requests == [] then map[]
    else
      var r := requests[|requests| - 1];
      Decide(Replay(requests[..|requests| - 1]), r.uid, r.time)
  }

  ghost predicate Admitted(requests: seq<Request>, k: nat)
    requires k < |requests|
  {
    Admits(Prune(Replay(requests[..k]), requests[k].time), requests[k].uid)
  }

  /** Expiry times of the admitted queries of one user, in order. */
  ghost function Granted(requests: seq<Request>, uid: int): seq<int> {
    if requests == [] then []
    else
      var n := |requests| - 1;
      Granted(requests[..n], uid)
      + if requests[n].uid == uid && Admitted(requests, n) then [requests[n].time + WINDOW] else []
  }

  /** The boot-time clock never goes back. */
  ghost predicate Monotone(requests: seq<Request>) {
    forall i, j :: 0 <= i < j < |requests| ==> requests[i].time <= requests[j].time
  }

  lemma {:induction false} LiveAppend(a: seq<int>, b: seq<int>, t: int)
    ensures Live(a + b, t) == Live(a, t) + Live(b, t)
  {
    if b != [] {
      var n := |b| - 1;
      LiveAppend(a, b[..n], t);
      assert (a + b)[..|a + b| - 1] == a + b[..n];
    } else {
      assert a + b == a;
    }
  }

  lemma {:induction false} LiveLater(expiries: seq<int>, t: int, u: int)
    requires t <= u
    ensures Live(Live(expiries, t), u) == Live(expiries, u)
  {
    if expiries != [] {
      var n := |expiries| - 1;
      LiveLater(expiries[..n], t, u);
      if expiries[n] > t {
        LiveAppend(Live(expiries[..n], t), [expiries[n]], u);
        assert [expiries[n]][..0] == [];
        assert expiries[n] > u ==> Live([expiries[n]], u) == [expiries[n]];
      }
    }
  }

  lemma PruneEntry(table: Table, uid: int, t: int)
    ensures Entry(Prune(table, t), uid) == Live(Entry(table, uid), t)
  {
  }

  lemma DecideEntry(table: Table, r: Request, uid: int)
    ensures Entry(Decide(table, r.uid, r.time), uid) ==
            Live(Entry(table, uid), r.time)
            + if uid == r.uid && Admits(Prune(table, r.time), r.uid) then [r.time + WINDOW] else []
  {
    PruneEntry(table, uid, r.time);
  }

  lemma LiveOne(expiries: seq<int>, e: int, t: int)
    requires e > t
    ensures Live(expiries + [e], t) == Live(expiries, t) + [e]
  {
    assert (expiries + [e])[..|expiries|] == expiries;
  }

  lemma LiveExtended(before: seq<int>, entry: seq<int>, grant: seq<int>, t: int)
    requires entry == Live(before, t) && (grant == [] || grant == [t + WINDOW])
    ensures Live(before + grant, t) == entry + grant
  {
    LiveOne(before, t + WINDOW, t);
    assert before + [] == before && entry + [] == entry;
  }

  lemma {:induction false} GrantedEntries(requests: seq<Request>, uid: int)
    requires requests != [] && Monotone(requests)
    ensures Entry(Replay(requests), uid) == Live(Granted(requests, uid), requests[|requests| - 1].time)
    decreases |requests|
  {
    hide Decide, Admits, Entry, Live;
    var n := |requests| - 1;
    var front, r := requests[..n], requests[n];
    DecideEntry(Replay(front), r, uid);
    if front == [] {
      EmptyTable(uid, r.time);
    } else {
      GrantedEntries(front, uid);
      LiveLater(Granted(front, uid), front[n - 1].time, r.time);
    }
    LiveExtended(Granted(front, uid), Live(Granted(front, uid), r.time),
                 if r.uid == uid && Admitted(requests, n) then [r.time + WINDOW] else [], r.time);
  }

  lemma EmptyTable(uid: int, t: int)
    ensures Live(Entry(Replay([]), uid), t) == Live(Granted([], uid), t)
  {
  }

  /** What `Admit` sees as history is the user's granted queries younger than the window. */
  lemma HistorySeen(requests: seq<Request>, k: nat)
    requires Monotone(requests) && k < |requests|
    ensures Entry(Prune(Replay(requests[..k]), requests[k].time), requests[k].uid) ==
            Live(Granted(requests[..k], requests[k].uid), requests[k].time)
  {
    EntrySeen(requests, k, requests[k].uid);
  }

  lemma EntrySeen(requests: seq<Request>, k: nat, uid: int)
    requires Monotone(requests) && k < |requests|
    ensures Entry(Prune(Replay(requests[..k]), requests[k].time), uid) ==
            Live(Granted(requests[..k], uid), requests[k].time)
  {
    hide Prune, Entry, Live, Granted, Replay;
    var front, time := requests[..k], requests[k].time;
    PruneEntry(Replay(front), uid, time);
    if k > 0 {
      GrantedEntries(front, uid);
      LiveLater(Granted(front, uid), front[k - 1].time, time);
    } else {
      assert front == [];
      EmptyTable(uid, time);
    }
  }

  // ----- When a query is refused -----

  /** The queries before `n` that were granted less than ten seconds before the time. */
  ghost function RecentGrants(requests: seq<Request>, n: nat, time: int): set<nat>
    requires n <= |requests|
  {
    set j: nat | j < n && Admitted(requests, j) && time - requests[j].time < 10000
  }

  ghost function GrantsOf(requests: seq<Request>, n: nat, time: int, uid: int): set<nat>
    requires n <= |requests|
  {
    set j | j in RecentGrants(requests, n, time) && requests[j].uid == uid
  }

  ghost function UsersOf(requests: seq<Request>, n: nat, time: int): set<int>
    requires n <= |requests|
  {
    set j | j in RecentGrants(requests, n, time) :: requests[j].uid
  }

  lemma GrantedStep(requests: seq<Request>, m: nat, uid: int, time: int)
    requires m < |requests|
    ensures var before, counts := Granted(requests[..m], uid), requests[m].uid == uid && Admitted(requests, m);
            |Live(Granted(requests[..m + 1], uid), time)| ==
            |Live(before, time)| + if counts && time - requests[m].time < 10000 then 1 else 0
  {
    hide Admits, Replay, Prune;
    var before, expiry := Granted(requests[..m], uid), requests[m].time + WINDOW;
    assert requests[..m + 1][..m] == requests[..m];
    assert Admitted(requests[..m + 1], m) == Admitted(requests, m);
    assert (before + [expiry])[..|before|] == before && before + [] == before;
  }

  lemma GrantsNext(requests: seq<Request>, m: nat, time: int, uid: int)
    requires m < |requests|
    ensures var counts := requests[m].uid == uid && Admitted(requests, m) && time - requests[m].time < 10000;
            m !in GrantsOf(requests, m, time, uid)
            && GrantsOf(requests, m + 1, time, uid) == GrantsOf(requests, m, time, uid) + if counts then {m} else {}
  {
    hide Admitted;
    assert forall j :: j in RecentGrants(requests, m + 1, time) && j != m <==> j in RecentGrants(requests, m, time);
  }

  lemma GrantsStep(requests: seq<Request>, m: nat, time: int, uid: int)
    requires m < |requests|
    ensures var counts := requests[m].uid == uid && Admitted(requests, m);
            |GrantsOf(requests, m + 1, time, uid)| ==
            |GrantsOf(requests, m, time, uid)| + if counts && time - requests[m].time < 10000 then 1 else 0
  {
    hide Admitted, GrantsOf;
    GrantsNext(requests, m, time, uid);
    var before := GrantsOf(requests, m, time, uid);
    assert before + {} == before;
  }

  lemma {:induction false} LiveIsRecent(requests: seq<Request>, n: nat, time: int, uid: int)
    requires n <= |requests|
    ensures |Live(Granted(requests[..n], uid), time)| == |GrantsOf(requests, n, time, uid)|
    decreases n
  {
    hide Admitted, Live;
    if n == 0 {
      NoGrants(requests, time, uid);
    } else {
      LiveIsRecent(requests, n - 1, time, uid);
      GrantedStep(requests, n - 1, uid, time);
      GrantsStep(requests, n - 1, time, uid);
    }
  }

  lemma NoGrants(requests: seq<Request>, time: int, uid: int)
    ensures Live(Granted(requests[..0], uid), time) == [] && GrantsOf(requests, 0, time, uid) == {}
  {
  }

  lemma UsersAreLive(requests: seq<Request>, k: nat)
    requires Monotone(requests) && k < |requests|
    ensures Prune(Replay(requests[..k]), requests[k].time).Keys == UsersOf(requests, k, requests[k].time)
  {
    hide Replay, Granted, Live, Admitted;
    var time := requests[k].time;
    var pruned := Prune(Replay(requests[..k]), time);
    forall uid
      ensures uid in pruned.Keys <==> uid in UsersOf(requests, k, time)
    {
      EntrySeen(requests, k, uid);
      LiveIsRecent(requests, k, time, uid);
      assert uid in pruned.Keys <==> Entry(pruned, uid) != [];
      SomeGrant(requests, k, time, uid);
    }
  }

  lemma SomeGrant(requests: seq<Request>, n: nat, time: int, uid: int)
    requires n <= |requests|
    ensures uid in UsersOf(requests, n, time) <==> |GrantsOf(requests, n, time, uid)| > 0
  {
    hide Admitted;
    if uid in UsersOf(requests, n, time) {
      var j :| j in RecentGrants(requests, n, time) && requests[j].uid == uid;
      assert j in GrantsOf(requests, n, time, uid);
    }
    if |GrantsOf(requests, n, time, uid)| > 0 {
      var j :| j in GrantsOf(requests, n, time, uid);
    }
  }

  /**
   A query is refused exactly when four queries of its user were granted in the last 10000 ms, or
   when none of them was and 1024 users had one granted in that time.
   */
  lemma RefusedExactly(requests: seq<Request>, k: nat)
    requires Monotone(requests) && k < |requests|
    ensures var own, users := GrantsOf(requests, k, requests[k].time, requests[k].uid),
                              UsersOf(requests, k, requests[k].time);
            !Admitted(requests, k) <==> |own| >= 4 || (own == {} && |users| >= 1024)
  {
    hide Replay, Granted, Live, Prune, GrantsOf, UsersOf;
    var pruned := Prune(Replay(requests[..k]), requests[k].time);
    HistorySeen(requests, k);
    LiveIsRecent(requests, k, requests[k].time, requests[k].uid);
    UsersAreLive(requests, k);
    assert |pruned| == |pruned.Keys|;
  }

  /** How many of the granted queries started in the window that begins at `start`. */
  function InWindow(expiries: seq<int>, start: int): nat {
    if expiries == [] then 0
    else
      InWindow(expiries[..|expiries| - 1], start)
      + if start <= expiries[|expiries| - 1] - WINDOW < start + WINDOW then 1 else 0
  }

  lemma {:induction false} WindowWithinLive(expiries: seq<int>, start: int, t: int)
    requires t < start + WINDOW
    ensures InWindow(expiries, start) <= |Live(expiries, t)|
  {
    if expiries != [] { WindowWithinLive(expiries[..|expiries| - 1], start, t); }
  }

  /** Any ten-second window admits at most four queries of one user. */
  lemma {:induction false} WindowBound(requests: seq<Request>, uid: int, start: int)
    requires Monotone(requests)
    ensures InWindow(Granted(requests, uid), start) <= PER_USER
  {
    if requests != [] {
      var n := |requests| - 1;
      var r := requests[n];
      WindowBound(requests[..n], uid, start);
      if r.uid == uid && Admitted(requests, n) && start <= r.time < start + WINDOW {
        HistorySeen(requests, n);
        WindowWithinLive(Granted(requests[..n], uid), start, r.time);
        var all := Granted(requests, uid);
        assert all[..|all| - 1] == Granted(requests[..n], uid);
      } else {
        var all := Granted(requests, uid);
        assert all == Granted(requests[..n], uid) || all[..|all| - 1] == Granted(requests[..n], uid);
      }
    }
  }

  lemma {:induction false} LiveShrinks(expiries: seq<int>, t: int)
    ensures |Live(expiries, t)| <= |expiries|
  {
    if expiries != [] { LiveShrinks(expiries[..|expiries| - 1], t); }
  }

  /** `recent` never holds more than 1024 users, nor an empty or longer than four-entry list. */
  lemma {:induction false} TableBound(requests: seq<Request>)
    ensures |Replay(requests)| <= USERS
    ensures forall uid :: uid in Replay(requests) ==> 1 <= |Replay(requests)[uid]| <= PER_USER
  {
    if requests != [] {
      var n := |requests| - 1;
      var before, r := Replay(requests[..n]), requests[n];
      TableBound(requests[..n]);
      DecisionBound(before, r.uid, r.time);
    }
  }

  ghost predicate Bounded(table: Table) {
    |table| <= USERS && forall uid :: uid in table ==> 1 <= |table[uid]| <= PER_USER
  }

  lemma PruneBound(table: Table, time: int)
    requires Bounded(table)
    ensures Bounded(Prune(table, time))
  {
    var pruned := Prune(table, time);
    forall uid | uid in pruned
      ensures 1 <= |pruned[uid]| <= PER_USER
    {
      LiveShrinks(table[uid], time);
    }
    assert pruned.Keys <= table.Keys;
    SubsetCardinality(pruned.Keys, table.Keys);
    assert |pruned| == |pruned.Keys| && |table| == |table.Keys|;
  }

  /** A decision keeps the bounds. */
  lemma DecisionBound(table: Table, uid: int, time: int)
    requires Bounded(table)
    ensures Bounded(Decide(table, uid, time))
  {
    hide Prune;
    var pruned, after := Prune(table, time), Decide(table, uid, time);
    PruneBound(table, time);
    if Admits(pruned, uid) {
      assert after.Keys == pruned.Keys + {uid};
      OneUserMore(pruned.Keys, uid);
      assert |after| == |after.Keys| && |pruned| == |pruned.Keys|;
    }
  }

  lemma OneUserMore<T>(users: set<T>, uid: T)
    ensures |users + {uid}| == |users| + (if uid in users then 0 else 1)
  {
    if uid in users {
      assert users + {uid} == users;
    }
  }
}
