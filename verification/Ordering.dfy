/**
 Orders used by `sorted`, `<` on strings and bytes, and `strcmp`: the lexicographic
 order of code sequences, and the increasing listing of a finite set.
 */
module Ordering {
  import opened NiaCommon

  /** Three-way lexicographic comparison; a proper prefix comes first. */
  function Lex(a: seq<int>, b: seq<int>): (r: int)
    ensures r == -1 || r == 0 || r == 1
  {
    if a == [] && b == [] then 0
    else if a == [] then -1
    else if b == [] then 1
    else if a[0] != b[0] then Sign(a[0] - b[0])
    else Lex(a[1..], b[1..])
  }

  lemma {:induction false} LexAntisymmetric(a: seq<int>, b: seq<int>)
    ensures Lex(a, b) == -Lex(b, a)
  {
    if a != [] && b != [] && a[0] == b[0] {
      LexAntisymmetric(a[1..], b[1..]);
    }
  }

  lemma {:induction false} LexEqual(a: seq<int>, b: seq<int>)
    ensures Lex(a, b) == 0 <==> a == b
  {
    if a != [] && b != [] && a[0] == b[0] {
      LexEqual(a[1..], b[1..]);
      assert a == [a[0]] + a[1..] && b == [b[0]] + b[1..];
    }
  }

  lemma {:induction false} LexTransitive(a: seq<int>, b: seq<int>, c: seq<int>)
    requires Lex(a, b) < 0 && Lex(b, c) < 0
    ensures Lex(a, c) < 0
  {
    if a != [] && a[0] == b[0] == c[0] {
      LexTransitive(a[1..], b[1..], c[1..]);
    }
  }

  // ----- Strings -----

  function Codes(s: string): (r: seq<int>)
    ensures |r| == |s| && forall i :: 0 <= i < |s| ==> r[i] == s[i] as int
  {
    seq(|s|, i requires 0 <= i < |s| => s[i] as int)
  }

  predicate TextLess(a: string, b: string) {
    Lex(Codes(a), Codes(b)) < 0
  }

  lemma CodesInjective(a: string, b: string)
    requires Codes(a) == Codes(b)
    ensures a == b
  {
    assert |a| == |b|;
    forall i | 0 <= i < |a|
      ensures a[i] == b[i]
    {
      assert Codes(a)[i] == Codes(b)[i];
    }
  }

  // ----- Strict total orders and increasing listings -----

  ghost predicate StrictOrder<T(!new)>(less: (T, T) -> bool) {
    && (forall x :: !less(x, x))
    && (forall x, y :: x != y ==> less(x, y) || less(y, x))
    && (forall x, y, z :: less(x, y) && less(y, z) ==> less(x, z))
  }

  lemma TextOrder()
    ensures StrictOrder(TextLess)
  {
    forall x ensures !TextLess(x, x) { LexEqual(Codes(x), Codes(x)); }
    forall x: string, y: string | x != y
      ensures TextLess(x, y) || TextLess(y, x)
    {
      LexAntisymmetric(Codes(x), Codes(y));
      LexEqual(Codes(x), Codes(y));
      if Codes(x) == Codes(y) { CodesInjective(x, y); }
    }
    forall x, y, z | TextLess(x, y) && TextLess(y, z)
      ensures TextLess(x, z)
    {
      LexTransitive(Codes(x), Codes(y), Codes(z));
    }
  }

  predicate PairLess(a: (string, string), b: (string, string)) {
    TextLess(a.0, b.0) || (a.0 == b.0 && TextLess(a.1, b.1))
  }

  lemma PairOrder()
    ensures StrictOrder(PairLess)
  {
    TextOrder();
  }

  predicate Increasing<T(!new)>(s: seq<T>, less: (T, T) -> bool) {
    forall i, j :: 0 <= i < j < |s| ==> less(s[i], s[j])
  }

  lemma IncreasingIsDistinct<T(!new)>(s: seq<T>, less: (T, T) -> bool)
    requires StrictOrder(less) && Increasing(s, less)
    ensures Distinct(s)
    ensures |Elements(s)| == |s|
  {
    forall i, j | 0 <= i < j < |s| ensures s[i] != s[j] {
      assert less(s[i], s[j]);
    }
    DistinctCardinality(s);
  }

  /** A finite set has one increasing listing: `tuple(sorted(set(rows)))` is canonical. */
  lemma {:induction false} ListingUnique<T(!new)>(a: seq<T>, b: seq<T>, less: (T, T) -> bool)
    requires StrictOrder(less) && Increasing(a, less) && Increasing(b, less)
    requires Elements(a) == Elements(b)
    ensures a == b
  {
    IncreasingIsDistinct(a, less);
    IncreasingIsDistinct(b, less);
    if a != [] {
      var n := |a| - 1;
      var x, y := a[n], b[n];
      assert x in Elements(b) && y in Elements(a);
      assert x == y || less(x, y);
      assert y == x || less(y, x);
      assert a == a[..n] + [x] && b == b[..n] + [x];
      assert Elements(a[..n]) == Elements(a) - {x};
      assert Elements(b[..n]) == Elements(b) - {x};
      ListingUnique(a[..n], b[..n], less);
    }
  }

  /** Place an element in an increasing list. */
  function Insert<T(!new)>(x: T, s: seq<T>, less: (T, T) -> bool): seq<T> {
    if s == [] then [x]
    else if less(x, s[0]) then [x] + s
    else [s[0]] + Insert(x, s[1..], less)
  }

  lemma {:induction false} InsertIncreasing<T(!new)>(x: T, s: seq<T>, less: (T, T) -> bool)
    requires StrictOrder(less) && Increasing(s, less) && x !in s
    ensures Increasing(Insert(x, s, less), less)
    ensures Elements(Insert(x, s, less)) == Elements(s) + {x}
  {
    if s == [] || less(x, s[0]) {
      var t := [x] + s;
      forall i, j | 0 <= i < j < |t| ensures less(t[i], t[j]) {
        if i == 0 && j > 1 { assert less(s[0], s[j - 1]); }
      }
    } else {
      InsertIncreasing(x, s[1..], less);
      var r := Insert(x, s[1..], less);
      assert Elements(s) == {s[0]} + Elements(s[1..]);
      forall k | 0 <= k < |r| ensures less(s[0], r[k]) {
        assert r[k] in Elements(r);
      }
    }
  }

  /** The increasing listing of a finite set. */
  ghost function Listing<T(!new)>(items: set<T>, less: (T, T) -> bool): (r: seq<T>)
    requires StrictOrder(less)
    ensures Increasing(r, less) && Elements(r) == items
    ensures |r| == |items|
  {
    if items == {} then
      []
    else
      var x :| x in items;
      var rest := Listing(items - {x}, less);
      assert x !in Elements(rest);
      InsertIncreasing(x, rest, less);
      var r := Insert(x, rest, less);
      IncreasingIsDistinct(r, less);
      r
  }

  /** `tuple(sorted(items))`. */
  method Sorted<T(!new,==)>(items: set<T>, less: (T, T) -> bool) returns (r: seq<T>)
    requires StrictOrder(less)
    ensures r == Listing(items, less)
  {
    r := [];
    var rest := items;
    while rest != {}
      invariant rest <= items && Increasing(r, less) && Elements(r) == items - rest
      decreases rest
    {
      var x :| x in rest;
      assert x !in Elements(r);
      InsertIncreasing(x, r, less);
      r := Insert(x, r, less);
      rest := rest - {x};
    }
    ListingUnique(r, Listing(items, less), less);
  }

  /** `items != sorted(set(items))` fails exactly on a list that is not strictly increasing. */
  method StrictlySorted<T(==,!new)>(items: seq<T>, less: (T, T) -> bool) returns (r: bool)
    requires StrictOrder(less)
    ensures r <==> Increasing(items, less)
  {
    var sorted := Sorted((set x | x in items), less);
    assert Elements(items) == set x | x in items;
    r := items == sorted;
    if Increasing(items, less) { ListingUnique(items, sorted, less); }
  }
}
