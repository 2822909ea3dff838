/**
 Activation routing of tools/debian_triggers.py: which receivers a batch of
 activations is delivered to, and who waits for whom.
 */
module Triggers {
  import opened NiaCommon
  import opened Ordering
  import opened Text

  const MAX_DIRECTIVES := 4096
  const MAX_PACKAGES := 4096
  const MAX_EVENTS := 65536
  const MAX_ROUTES := 262144

  datatype Kind = Interest | Activate
  datatype Directive = Directive(kind: Kind, name: string, waits: bool)
  datatype Activation = Activation(name: string, origin: string, waits: bool)
  datatype Delivery = Delivery(receiver: string, name: string, origin: string, waits: bool)

  type Packages = map<string, seq<Directive>>

  // ----- Identities and names -----

  predicate Digest(s: string) {
    && |s| == 64
    && (forall i :: 0 <= i < 64 ==> '0' <= s[i] <= '9' || 'a' <= s[i] <= 'f')
    && exists i :: 0 <= i < 64 && s[i] != '0'
  }

  predicate Relative(s: string) {
    && 1 <= |s| <= 4096 && s[0] != '/' && '\\' !in s
    && (forall i :: 0 <= i < |s| ==> s[i] >= ' ' && s[i] as int != 127)
    && (forall p :: p in Split(s, '/') ==> p != "" && p != "." && p != "..")
  }

  predicate ExplicitChar(c: char) {
    'A' <= c <= 'Z' || 'a' <= c <= 'z' || '0' <= c <= '9'
  }

  predicate TriggerName(name: string) {
    && 1 <= |name| <= 4096
    && if name[0] == '/' then
         && (name == "/" || Relative(name[1..]))
         && forall i :: 0 <= i < |name| ==> !IsSpace(name[i]) && name[i] != '#'
       else
         && ExplicitChar(name[0])
         && forall i :: 0 <= i < |name| ==> ExplicitChar(name[i]) || name[i] in "+_.-"
  }

  // ----- Declarations -----

  predicate OneModeEach(items: seq<Directive>) {
    forall i, j ::
      (0 <= i < |items| && 0 <= j < |items| && items[i].kind == items[j].kind && items[i].name == items[j].name) ==>
        items[i] == items[j]
  }

  /** `_declarations`: bounded, well named, and no directive declared with both modes. */
  predicate Declarations(items: seq<Directive>) {
    && |items| <= MAX_DIRECTIVES
    && (forall i :: 0 <= i < |items| ==> TriggerName(items[i].name))
    && OneModeEach(items)
  }

  ghost function TotalDirectives(packages: Packages, keys: seq<string>): nat {
    if keys == [] then 0
    else
      var key := keys[|keys| - 1];
      TotalDirectives(packages, keys[..|keys| - 1]) + if key in packages then |packages[key]| else 0
  }

  ghost function PackageOrder(packages: Packages): (r: seq<string>)
    ensures Elements(r) == packages.Keys && Distinct(r)
  {
    TextOrder();
    var r := Listing(packages.Keys, TextLess);
    IncreasingIsDistinct(r, TextLess);
    r
  }

  ghost predicate PackagesAccepted(packages: Packages) {
    && |packages| <= MAX_PACKAGES
    && (forall p :: p in packages ==> DeclaredProperly(packages, p))
    && TotalDirectives(packages, PackageOrder(packages)) <= MAX_EVENTS
  }

  predicate ActivationAccepted(a: Activation) {
    TriggerName(a.name) && Digest(a.origin)
  }

  predicate AllAccepted(activations: seq<Activation>) {
    forall i :: 0 <= i < |activations| ==> ActivationAccepted(activations[i])
  }

  // ----- Relational specification -----

  /** The receiver declares interest in a name, in the given awaiting mode. */
  predicate Interested(packages: Packages, receiver: string, name: string, waits: bool) {
    receiver in packages && Directive(Interest, name, waits) in packages[receiver]
  }

  ghost predicate InterestedAtAll(packages: Packages, receiver: string, name: string) {
    exists mode :: Interested(packages, receiver, name, mode)
  }

  /** Some activation of the name by the origin; `waits` asks for an awaiting one. */
  ghost predicate Activated(activations: seq<Activation>, name: string, origin: string) {
    exists mode :: Activation(name, origin, mode) in activations
  }

  type RouteKey = (string, string, string)

  ghost predicate Delivered(activations: seq<Activation>, packages: Packages, key: RouteKey) {
    Activated(activations, key.1, key.2) && InterestedAtAll(packages, key.0, key.1)
  }

  /** Waiting needs both sides to wait, and nobody waits for itself. */
  ghost predicate Waits(activations: seq<Activation>, packages: Packages, key: RouteKey) {
    && key.0 != key.2
    && Activation(key.1, key.2, true) in activations
    && Interested(packages, key.0, key.1, true)
  }

  ghost predicate Routed(activations: seq<Activation>, packages: Packages, d: Delivery) {
    var key := (d.receiver, d.name, d.origin);
    Delivered(activations, packages, key) && (d.waits <==> Waits(activations, packages, key))
  }

  ghost function RouteKeys(activations: seq<Activation>, packages: Packages): set<RouteKey> {
    set a, p | a in activations && p in packages && InterestedAtAll(packages, p, a.name) :: (p, a.name, a.origin)
  }

  lemma RouteKeysAre(activations: seq<Activation>, packages: Packages)
    ensures forall key :: key in RouteKeys(activations, packages) <==> Delivered(activations, packages, key)
  {
    forall key | Delivered(activations, packages, key)
      ensures key in RouteKeys(activations, packages)
    {
      var mode :| Activation(key.1, key.2, mode) in activations;
      var a := Activation(key.1, key.2, mode);
      assert a in activations && key.0 in packages && InterestedAtAll(packages, key.0, a.name);
    }
    forall key | key in RouteKeys(activations, packages)
      ensures Delivered(activations, packages, key)
    {
      var a, p :| a in activations && p in packages && InterestedAtAll(packages, p, a.name)
                  && key == (p, a.name, a.origin);
      assert Activation(key.1, key.2, a.waits) in activations;
    }
  }

  /** `sorted` on deliveries: receiver, name, origin, mode. */
  predicate DeliveryLess(a: Delivery, b: Delivery) {
    || TextLess(a.receiver, b.receiver)
    || (a.receiver == b.receiver && TextLess(a.name, b.name))
    || (a.receiver == b.receiver && a.name == b.name && TextLess(a.origin, b.origin))
    || (a.receiver == b.receiver && a.name == b.name && a.origin == b.origin && !a.waits && b.waits)
  }

  lemma DeliveryOrder()
    ensures StrictOrder(DeliveryLess)
  {
    TextOrder();
  }

  ghost predicate RouteAccepted(activations: seq<Activation>, packages: Packages) {
    && |activations| <= MAX_EVENTS
    && AllAccepted(activations)
    && PackagesAccepted(packages)
    && |RouteKeys(activations, packages)| <= MAX_ROUTES
  }

  /** What `route` returns: the increasing listing of the routed deliveries. */
  ghost predicate RouteResult(activations: seq<Activation>, packages: Packages, deliveries: seq<Delivery>) {
    && Increasing(deliveries, DeliveryLess)
    && forall d :: d in deliveries <==> Routed(activations, packages, d)
  }

  // ----- The loops -----

  /** The interests of each name by receiver: `interests[d.name][package] = d.await_completion`. */
  type Table = map<string, map<string, bool>>

  function Lookup(table: Table, name: string): map<string, bool> {
    if name in table then table[name] else map[]
  }

  ghost predicate EntryOf(table: Table, packages: Packages, seen: seq<string>, name: string, p: string) {
    && (p in Lookup(table, name) <==> p in seen && InterestedAtAll(packages, p, name))
    && (p in Lookup(table, name) ==> Interested(packages, p, name, Lookup(table, name)[p]))
  }

  ghost predicate TableOf(table: Table, packages: Packages, seen: seq<string>) {
    forall name, p :: EntryOf(table, packages, seen, name, p)
  }

  /** One package's interests recorded, all other entries kept. */
  ghost predicate Recorded(table: Table, package: string, items: seq<Directive>, r: Table) {
    && (forall name, p :: p != package ==>
          (p in Lookup(r, name) <==> p in Lookup(table, name)) &&
          (p in Lookup(r, name) ==> Lookup(r, name)[p] == Lookup(table, name)[p]))
    && (forall name :: package in Lookup(r, name) <==> exists mode :: Directive(Interest, name, mode) in items)
    && (forall name :: package in Lookup(r, name) ==> Directive(Interest, name, Lookup(r, name)[package]) in items)
  }

  method RecordInterests(table: Table, package: string, items: seq<Directive>) returns (r: Table)
    requires forall name :: package !in Lookup(table, name)
    ensures Recorded(table, package, items, r)
  {
    r := table;
    assert items[..0] == [];
    for i := 0 to |items|
      invariant Recorded(table, package, items[..i], r)
    {
      var d := items[i];
      assert items[..i + 1] == items[..i] + [d];
      assert d == Directive(d.kind, d.name, d.waits);
      ghost var before := r;
      if d.kind == Interest {
        r := r[d.name := Lookup(r, d.name)[package := d.waits]];
      }
      forall name
        ensures package in Lookup(r, name) <==> exists mode :: Directive(Interest, name, mode) in items[..i + 1]
      {
        assert (exists mode :: Directive(Interest, name, mode) in items[..i]) <==> package in Lookup(before, name);
        if d.kind == Interest && name == d.name {
          assert Directive(Interest, name, d.waits) in items[..i + 1];
        }
      }
      forall name | package in Lookup(r, name)
        ensures Directive(Interest, name, Lookup(r, name)[package]) in items[..i + 1]
      {
        if d.kind == Interest && name == d.name {
          assert Directive(Interest, name, Lookup(r, name)[package]) == d;
        } else {
          assert Lookup(r, name) == Lookup(before, name);
        }
      }
    }
    assert items[..|items|] == items;
  }

  lemma RecordedExtendsTable(table: Table, package: string, packages: Packages, seen: seq<string>, r: Table)
    requires package in packages && package !in seen
    requires TableOf(table, packages, seen) && Recorded(table, package, packages[package], r)
    ensures TableOf(r, packages, seen + [package])
  {
    forall name, p
      ensures EntryOf(r, packages, seen + [package], name, p)
    {
      assert EntryOf(table, packages, seen, name, p);
      if p == package {
        OwnEntry(table, package, packages, name, r);
      }
    }
  }

  lemma OwnEntry(table: Table, package: string, packages: Packages, name: string, r: Table)
    requires package in packages && Recorded(table, package, packages[package], r)
    ensures package in Lookup(r, name) <==> InterestedAtAll(packages, package, name)
    ensures package in Lookup(r, name) ==> Interested(packages, package, name, Lookup(r, name)[package])
  {
    if mode :| Directive(Interest, name, mode) in packages[package] {
      assert Interested(packages, package, name, mode);
    }
  }

  predicate DeclaredProperly(packages: Packages, p: string) {
    p in packages && Digest(p) && Declarations(packages[p])
  }

  lemma NotYetRecorded(table: Table, packages: Packages, order: seq<string>, i: nat)
    requires Distinct(order) && i < |order| && TableOf(table, packages, order[..i])
    ensures order[i] !in order[..i]
    ensures forall name :: order[i] !in Lookup(table, name)
  {
    forall name
      ensures order[i] !in Lookup(table, name)
    {
      assert EntryOf(table, packages, order[..i], name, order[i]);
    }
  }

  lemma EmptyTable(packages: Packages)
    ensures TableOf(map[], packages, [])
  {
    forall name ensures Lookup(map[], name) == map[] {}
  }

  method CollectAll(packages: Packages, order: seq<string>) returns (r: Result<Table>)
    requires Distinct(order) && forall p :: p in order <==> p in packages
    ensures r.Ok? <==> AllDeclaredProperly(packages, order, |order|) && TotalDirectives(packages, order) <= MAX_EVENTS
    ensures r.Ok? ==> TableOf(r.value, packages, order)
  {
    var table: Table := map[];
    var total := 0;
    TakeAll(order);
    EmptyTable(packages);
    hide TableOf, DeclaredProperly;
    for i := 0 to |order|
      invariant total == TotalDirectives(packages, order[..i]) && total <= MAX_EVENTS
      invariant AllDeclaredProperly(packages, order, i)
      invariant TableOf(table, packages, order[..i])
    {
      var p := order[i];
      if !DeclaredProperly(packages, p) { return Invalid("bounded parsed trigger declarations required"); }
      TakeOneMore(order, i);
      total := total + |packages[p]|;
      if total > MAX_EVENTS {
        TotalGrows(packages, order, i + 1);
        return Invalid("total trigger declaration limit");
      }
      ghost var before := table;
      NotYetRecorded(table, packages, order, i);
      table := RecordInterests(table, p, packages[p]);
      RecordedExtendsTable(before, p, packages, order[..i], table);
    }
    return Ok(table);
  }

  predicate AllDeclaredProperly(packages: Packages, order: seq<string>, n: nat)
    requires n <= |order|
  {
    forall k :: 0 <= k < n ==> DeclaredProperly(packages, order[k])
  }

  lemma OrderIs(packages: Packages, order: seq<string>)
    requires StrictOrder(TextLess) && order == Listing(packages.Keys, TextLess)
    ensures order == PackageOrder(packages) && Distinct(order) && Elements(order) == packages.Keys
  {
    hide TextLess;
  }

  lemma EachProper(packages: Packages, order: seq<string>)
    requires forall p :: p in order <==> p in packages
    ensures AllDeclaredProperly(packages, order, |order|)
       <==> forall p :: p in packages ==> DeclaredProperly(packages, p)
  {
    hide DeclaredProperly;
  }

  method CollectInterests(packages: Packages) returns (r: Result<Table>)
    ensures r.Ok? <==> PackagesAccepted(packages)
    ensures r.Ok? ==> TableOf(r.value, packages, PackageOrder(packages))
  {
    hide DeclaredProperly, TableOf, TotalDirectives, PackageOrder, TextLess, Distinct;
    if |packages| > MAX_PACKAGES { return Invalid("trigger interest package count"); }
    TextOrder();
    var order := Sorted(packages.Keys, TextLess);
    OrderIs(packages, order);
    assert forall p :: p in order <==> p in Elements(order);
    r := CollectAll(packages, order);
    EachProper(packages, order);
  }

  lemma {:induction false} TotalGrows(packages: Packages, keys: seq<string>, n: nat)
    requires n <= |keys|
    ensures TotalDirectives(packages, keys[..n]) <= TotalDirectives(packages, keys)
    decreases |keys|
  {
    if n < |keys| {
      assert keys[..|keys| - 1][..n] == keys[..n];
      TotalGrows(packages, keys[..|keys| - 1], n);
    } else {
      assert keys[..n] == keys;
    }
  }

  type Routes = map<RouteKey, bool>

  ghost predicate RoutesOf(routes: Routes, activations: seq<Activation>, packages: Packages) {
    forall key ::
      && (key in routes <==> Delivered(activations, packages, key))
      && (key in routes ==> (routes[key] <==> Waits(activations, packages, key)))
  }

  /** One more activation changes exactly the keys it names. */
  lemma ActivatedMore(activations: seq<Activation>, a: Activation, packages: Packages, key: RouteKey)
    ensures Delivered(activations + [a], packages, key) <==>
            Delivered(activations, packages, key)
            || (key.1 == a.name && key.2 == a.origin && InterestedAtAll(packages, key.0, a.name))
    ensures Waits(activations + [a], packages, key) <==>
            Waits(activations, packages, key)
            || (key.1 == a.name && key.2 == a.origin && a.waits && key.0 != a.origin
              && Interested(packages, key.0, a.name, true))
  {
    assert a == Activation(a.name, a.origin, a.waits);
    assert a in activations + [a];
    forall b ensures b in activations + [a] <==> b in activations || b == a {}
  }

  ghost predicate OnlyMode(packages: Packages) {
    forall p, name :: !(Interested(packages, p, name, true) && Interested(packages, p, name, false))
  }

  lemma DeclarationsHaveOneMode(packages: Packages)
    requires forall p :: p in packages ==> DeclaredProperly(packages, p)
    ensures OnlyMode(packages)
  {
    forall p, name
      ensures !(Interested(packages, p, name, true) && Interested(packages, p, name, false))
    {
      if p in packages {
        assert DeclaredProperly(packages, p) && OneModeEach(packages[p]);
      }
    }
  }

  /** One activation delivered to some receivers, on top of earlier routes. */
  ghost predicate Spread(routes: Routes, a: Activation, receivers: map<string, bool>, done: set<string>, r: Routes) {
    && (forall key: RouteKey :: key in r <==>
          key in routes || (key.1 == a.name && key.2 == a.origin && key.0 in receivers && key.0 in done))
    && (forall key: RouteKey :: key in r ==>
          (r[key] <==> (key in routes && routes[key]) ||
                       (key.1 == a.name && key.2 == a.origin && key.0 in receivers && key.0 in done
                        && a.waits && receivers[key.0] && key.0 != a.origin)))
  }

  method RouteOne(routes: Routes, a: Activation, receivers: map<string, bool>) returns (r: Routes)
    ensures Spread(routes, a, receivers, receivers.Keys, r)
  {
    r := routes;
    var rest := receivers.Keys;
    while rest != {}
      invariant rest <= receivers.Keys
      invariant Spread(routes, a, receivers, receivers.Keys - rest, r)
      decreases rest
    {
      var receiver :| receiver in rest;
      var key := (receiver, a.name, a.origin);
      var waiting := a.waits && receivers[receiver] && receiver != a.origin;
      r := r[key := waiting || (key in r && r[key])];
      rest := rest - {receiver};
    }
  }

  lemma SpreadExtendsRoutes(routes: Routes, front: seq<Activation>, a: Activation, packages: Packages, table: Table,
                            r: Routes)
    requires OnlyMode(packages) && TableOf(table, packages, PackageOrder(packages))
    requires RoutesOf(routes, front, packages)
    requires Spread(routes, a, Lookup(table, a.name), Lookup(table, a.name).Keys, r)
    ensures RoutesOf(r, front + [a], packages)
  {
    var receivers := Lookup(table, a.name);
    forall key
      ensures && (key in r <==> Delivered(front + [a], packages, key))
              && (key in r ==> (r[key] <==> Waits(front + [a], packages, key)))
    {
      ActivatedMore(front, a, packages, key);
      assert key.0 in packages <==> key.0 in Elements(PackageOrder(packages));
      assert EntryOf(table, packages, PackageOrder(packages), a.name, key.0);
      assert key.0 in receivers <==> InterestedAtAll(packages, key.0, a.name);
      assert Waits(front, packages, key) ==> Delivered(front, packages, key) by {
        if Waits(front, packages, key) { assert Interested(packages, key.0, key.1, true); }
      }
    }
  }

  /** `tuple(Delivery(*key, mode) for key, mode in sorted(result.items()))`. */
  method ListRoutes(routes: Routes, ghost activations: seq<Activation>, ghost packages: Packages)
    returns (deliveries: seq<Delivery>)
    requires RoutesOf(routes, activations, packages)
    ensures RouteResult(activations, packages, deliveries)
  {
    DeliveryOrder();
    deliveries := Sorted(set key | key in routes :: Delivery(key.0, key.1, key.2, routes[key]), DeliveryLess);
    forall d
      ensures d in deliveries <==> Routed(activations, packages, d)
    {
      var key := (d.receiver, d.name, d.origin);
      assert d in deliveries <==> d in Elements(deliveries);
      assert key in routes && d.waits == routes[key] ==> d == Delivery(key.0, key.1, key.2, routes[key]);
    }
  }

  method RouteOneMore(routes: Routes, activations: seq<Activation>, i: nat, ghost packages: Packages, table: Table)
    returns (r: Routes)
    requires i < |activations|
    requires OnlyMode(packages) && TableOf(table, packages, PackageOrder(packages))
    requires RoutesOf(routes, activations[..i], packages)
    ensures RoutesOf(r, activations[..i + 1], packages)
  {
    hide RoutesOf, TableOf, OnlyMode;
    var a := activations[i];
    TakeOneMore(activations, i);
    r := RouteOne(routes, a, Lookup(table, a.name));
    SpreadExtendsRoutes(routes, activations[..i], a, packages, table, r);
  }

  lemma NoRoutes(packages: Packages)
    ensures RoutesOf(map[], [], packages)
  {
  }

  method RouteAll(activations: seq<Activation>, packages: Packages, table: Table) returns (r: Result<Routes>)
    requires OnlyMode(packages) && TableOf(table, packages, PackageOrder(packages))
    ensures r.Ok? <==> AllAccepted(activations) && |RouteKeys(activations, packages)| <= MAX_ROUTES
    ensures r.Ok? ==> RoutesOf(r.value, activations, packages)
  {
    hide RoutesOf, RouteKeys, TableOf, ActivationAccepted, OnlyMode;
    var routes: Routes := map[];
    TakeAll(activations);
    NoRoutes(packages);
    for i := 0 to |activations|
      invariant forall k :: 0 <= k < i ==> ActivationAccepted(activations[k])
      invariant RoutesOf(routes, activations[..i], packages)
      invariant |routes| <= MAX_ROUTES
    {
      var a := activations[i];
      if !ActivationAccepted(a) {
        return Invalid("invalid trigger activation");
      }
      routes := RouteOneMore(routes, activations, i, packages, table);
      if |routes| > MAX_ROUTES {
        RouteCount(routes, activations, packages, i + 1);
        return Invalid("trigger delivery limit");
      }
    }
    RouteCount(routes, activations, packages, |activations|);
    return Ok(routes);
  }

  /** `route`: it raises exactly on refused input or too many deliveries. */
  method Route(activations: seq<Activation>, packages: Packages) returns (r: Result<seq<Delivery>>)
    ensures r.Ok? <==> RouteAccepted(activations, packages)
    ensures r.Ok? ==> RouteResult(activations, packages, r.value)
  {
    if |activations| > MAX_EVENTS { return Invalid("bounded trigger activations required"); }
    var table :- CollectInterests(packages);
    DeclarationsHaveOneMode(packages);
    var routes :- RouteAll(activations, packages, table);
    var deliveries := ListRoutes(routes, activations, packages);
    return Ok(deliveries);
  }

  lemma RouteCount(routes: Routes, activations: seq<Activation>, packages: Packages, n: nat)
    requires n <= |activations| && RoutesOf(routes, activations[..n], packages)
    ensures |routes| <= |RouteKeys(activations, packages)|
    ensures n == |activations| ==> |routes| == |RouteKeys(activations, packages)|
  {
    RouteKeysAre(activations, packages);
    RouteKeysAre(activations[..n], packages);
    assert routes.Keys == RouteKeys(activations[..n], packages);
    assert RouteKeys(activations[..n], packages) <= RouteKeys(activations, packages);
    SubsetCardinality(RouteKeys(activations[..n], packages), RouteKeys(activations, packages));
    assert n == |activations| ==> activations[..n] == activations;
  }

  // ----- Order independence -----

  /** The result depends on the set of activations only, not on their order or repetition. */
  lemma RouteIgnoresOrder(a: seq<Activation>, b: seq<Activation>, packages: Packages,
                          first: seq<Delivery>, second: seq<Delivery>)
    requires Elements(a) == Elements(b)
    requires RouteResult(a, packages, first) && RouteResult(b, packages, second)
    ensures first == second
  {
    forall x ensures x in a <==> x in b {
      assert x in Elements(a) <==> x in Elements(b);
    }
    forall d ensures Routed(a, packages, d) <==> Routed(b, packages, d) {}
    forall d ensures d in Elements(first) <==> d in Elements(second) {}
    DeliveryOrder();
    ListingUnique(first, second, DeliveryLess);
  }

  /** One delivery per receiver, name and origin. */
  lemma RouteKeysAreUnique(activations: seq<Activation>, packages: Packages, deliveries: seq<Delivery>, i: nat, j: nat)
    requires RouteResult(activations, packages, deliveries) && i < j < |deliveries|
    ensures (deliveries[i].receiver, deliveries[i].name, deliveries[i].origin) !=
            (deliveries[j].receiver, deliveries[j].name, deliveries[j].origin)
  {
    var d, e := deliveries[i], deliveries[j];
    assert d in deliveries && e in deliveries;
    assert Routed(activations, packages, d) && Routed(activations, packages, e);
    assert DeliveryLess(d, e);
    DeliveryOrder();
  }

  // ----- The batch view -----

  predicate DeliveryAccepted(d: Delivery) {
    Digest(d.receiver) && Digest(d.origin) && TriggerName(d.name) && !(d.waits && d.origin == d.receiver)
  }

  predicate DeliveriesAccepted(deliveries: seq<Delivery>) {
    |deliveries| <= MAX_ROUTES && forall i :: 0 <= i < |deliveries| ==> DeliveryAccepted(deliveries[i])
  }

  function PendingPairs(deliveries: seq<Delivery>): set<(string, string)> {
    set d | d in deliveries :: (d.receiver, d.name)
  }

  function AwaitedPairs(deliveries: seq<Delivery>): set<(string, string)> {
    set d | d in deliveries && d.waits :: (d.origin, d.receiver)
  }

  function AddTo(table: map<string, set<string>>, key: string, value: string): map<string, set<string>> {
    table[key := (if key in table then table[key] else {}) + {value}]
  }

  ghost predicate Flattens(table: map<string, set<string>>, pairs: set<(string, string)>) {
    forall k, v :: (k, v) in pairs <==> k in table && v in table[k]
  }

  lemma PairsGrow(front: seq<Delivery>, d: Delivery)
    ensures PendingPairs(front + [d]) == PendingPairs(front) + {(d.receiver, d.name)}
    ensures AwaitedPairs(front + [d]) == AwaitedPairs(front) + if d.waits then {(d.origin, d.receiver)} else {}
  {
    assert forall e :: e in front + [d] <==> e in front || e == d;
  }

  lemma NothingFlat()
    ensures Flattens(map[], PendingPairs([])) && Flattens(map[], AwaitedPairs([]))
  {
  }

  lemma AddFlattens(table: map<string, set<string>>, pairs: set<(string, string)>, key: string, value: string)
    requires Flattens(table, pairs)
    ensures Flattens(AddTo(table, key, value), pairs + {(key, value)})
  {
  }

  /** `pending`: dictionaries of receivers and of awaiting origins. */
  method BatchView(deliveries: seq<Delivery>)
    returns (r: Result<(map<string, set<string>>, map<string, set<string>>)>)
    ensures r.Ok? <==> DeliveriesAccepted(deliveries)
    ensures r.Ok? ==> Flattens(r.value.0, PendingPairs(deliveries)) && Flattens(r.value.1, AwaitedPairs(deliveries))
  {
    hide Flattens, DeliveryAccepted, PendingPairs, AwaitedPairs;
    if |deliveries| > MAX_ROUTES { return Invalid("bounded trigger deliveries required"); }
    NothingFlat();
    TakeAll(deliveries);
    var receivers: map<string, set<string>>, awaited: map<string, set<string>> := map[], map[];
    for i := 0 to |deliveries|
      invariant forall k :: 0 <= k < i ==> DeliveryAccepted(deliveries[k])
      invariant Flattens(receivers, PendingPairs(deliveries[..i]))
      invariant Flattens(awaited, AwaitedPairs(deliveries[..i]))
    {
      var d := deliveries[i];
      if !DeliveryAccepted(d) { return Invalid("invalid trigger delivery"); }
      TakeOneMore(deliveries, i);
      PairsGrow(deliveries[..i], d);
      AddFlattens(receivers, PendingPairs(deliveries[..i]), d.receiver, d.name);
      receivers := AddTo(receivers, d.receiver, d.name);
      if d.waits {
        AddFlattens(awaited, AwaitedPairs(deliveries[..i]), d.origin, d.receiver);
        awaited := AddTo(awaited, d.origin, d.receiver);
      } else {
        assert AwaitedPairs(deliveries[..i]) + {} == AwaitedPairs(deliveries[..i]);
      }
    }
    return Ok((receivers, awaited));
  }

  /** A routed batch is always accepted: no self-await, well-formed identities, within the limit. */
  lemma RoutedBatchAccepted(activations: seq<Activation>, packages: Packages, deliveries: seq<Delivery>)
    requires RouteAccepted(activations, packages) && RouteResult(activations, packages, deliveries)
    ensures DeliveriesAccepted(deliveries)
  {
    hide DeliveryAccepted, RouteResult, RouteKeys;
    forall i | 0 <= i < |deliveries|
      ensures DeliveryAccepted(deliveries[i])
    {
      RoutedIsAccepted(activations, packages, deliveries, deliveries[i]);
    }
    RoutedCount(activations, packages, deliveries);
  }

  lemma RoutedIsAccepted(activations: seq<Activation>, packages: Packages, deliveries: seq<Delivery>, d: Delivery)
    requires RouteAccepted(activations, packages) && RouteResult(activations, packages, deliveries) && d in deliveries
    ensures DeliveryAccepted(d)
  {
    hide RouteKeys, Digest, TriggerName;
    assert Routed(activations, packages, d);
    var mode :| Activation(d.name, d.origin, mode) in activations;
    var k :| 0 <= k < |activations| && activations[k] == Activation(d.name, d.origin, mode);
    assert ActivationAccepted(activations[k]) && DeclaredProperly(packages, d.receiver);
  }

  function KeyOf(d: Delivery): RouteKey {
    (d.receiver, d.name, d.origin)
  }

  lemma RoutedCount(activations: seq<Activation>, packages: Packages, deliveries: seq<Delivery>)
    requires RouteResult(activations, packages, deliveries)
    ensures |deliveries| <= |RouteKeys(activations, packages)|
  {
    hide RouteKeys, RouteResult, Delivered;
    var keys := seq(|deliveries|, i requires 0 <= i < |deliveries| => KeyOf(deliveries[i]));
    forall i, j | 0 <= i < j < |keys| ensures keys[i] != keys[j] {
      RouteKeysAreUnique(activations, packages, deliveries, i, j);
    }
    DistinctCardinality(keys);
    RouteKeysAre(activations, packages);
    forall k | k in Elements(keys) ensures k in RouteKeys(activations, packages) {
      var i :| 0 <= i < |keys| && keys[i] == k;
      RoutedKey(activations, packages, deliveries, deliveries[i]);
    }
    SubsetCardinality(Elements(keys), RouteKeys(activations, packages));
  }

  lemma RoutedKey(activations: seq<Activation>, packages: Packages, deliveries: seq<Delivery>, d: Delivery)
    requires RouteResult(activations, packages, deliveries) && d in deliveries
    ensures Delivered(activations, packages, KeyOf(d))
  {
    assert Routed(activations, packages, d);
  }
}
