/**
 `complete_tree` of native/worker/root_extract.c, on an array of record indices: it
 returns 0 exactly when the records are the whole tree with every link accounted for.
 Deadlines, allocation and read errors are not modelled.
 */
module CompleteTree {
  import opened NiaCommon
  import opened Ordering
  import opened RootTree

  /** What `qsort` and `bsearch` compare: a key of codes for each record index. */
  type KeyOf = nat -> seq<int>

  /** `by_path`. */
  function PathKey(records: seq<Record>): KeyOf {
    (i: nat) => if i < |records| then Codes(records[i].path) else []
  }

  /** `by_inode`. */
  function InodeKey(records: seq<Record>): KeyOf {
    (i: nat) => if i < |records| then [records[i].device, records[i].inode] else []
  }

  ghost predicate SortedBy(s: seq<nat>, key: KeyOf) {
    forall i, j :: 0 <= i < j < |s| ==> Lex(key(s[i]), key(s[j])) <= 0
  }

  ghost predicate StrictBy(s: seq<nat>, key: KeyOf) {
    forall i, j :: 0 <= i < j < |s| ==> Lex(key(s[i]), key(s[j])) < 0
  }

  /** Every record index exactly once. */
  ghost predicate IndexOf(s: seq<nat>, n: nat) {
    |s| == n && Distinct(s) && forall x: nat :: x in s <==> x < n
  }

  // ----- The library sort and search -----

  method PlaceIndex(s: seq<nat>, x: nat, key: KeyOf) returns (r: seq<nat>)
    requires SortedBy(s, key)
    ensures SortedBy(r, key) && multiset(r) == multiset(s) + multiset{x}
  {
    hide Lex;
    var k := 0;
    while k < |s| && Lex(key(s[k]), key(x)) <= 0
      invariant k <= |s|
      invariant forall i :: 0 <= i < k ==> Lex(key(s[i]), key(x)) <= 0
    {
      k := k + 1;
    }
    r := s[..k] + [x] + s[k..];
    assert s == s[..k] + s[k..];
    if k < |s| { LexAntisymmetric(key(s[k]), key(x)); }
    PlacedSorted(s, x, k, key);
  }

  lemma LexAtMost(a: seq<int>, b: seq<int>, c: seq<int>)
    requires Lex(a, b) <= 0 && Lex(b, c) <= 0
    ensures Lex(a, c) <= 0
    ensures Lex(a, b) < 0 || Lex(b, c) < 0 ==> Lex(a, c) < 0
  {
    LexEqual(a, b);
    LexEqual(b, c);
    if Lex(a, b) < 0 && Lex(b, c) < 0 { LexTransitive(a, b, c); }
  }

  lemma PlacedSorted(s: seq<nat>, x: nat, k: nat, key: KeyOf)
    requires SortedBy(s, key) && k <= |s|
    requires forall i :: 0 <= i < k ==> Lex(key(s[i]), key(x)) <= 0
    requires k < |s| ==> Lex(key(x), key(s[k])) <= 0
    ensures SortedBy(s[..k] + [x] + s[k..], key)
  {
    hide Lex;
    var r := s[..k] + [x] + s[k..];
    forall i, j | 0 <= i < j < |r|
      ensures Lex(key(r[i]), key(r[j])) <= 0
    {
      if i == k {
        assert r[j] == s[j - 1];
        if j - 1 > k { LexAtMost(key(x), key(s[k]), key(s[j - 1])); }
      } else {
        assert r[i] == if i < k then s[i] else s[i - 1];
        assert r[j] == if j < k then s[j] else if j == k then x else s[j - 1];
      }
    }
  }

  /** `qsort`: the array becomes a sorted permutation of itself. */
  method QSort(a: array<nat>, key: KeyOf)
    modifies a
    ensures SortedBy(a[..], key) && multiset(a[..]) == multiset(old(a[..]))
  {
    hide SortedBy;
    NothingSorted(key);
    var sorted: seq<nat> := [];
    var items := a[..];
    TakeAll(items);
    for i := 0 to |items|
      invariant SortedBy(sorted, key) && multiset(sorted) == multiset(items[..i])
      invariant a[..] == items
    {
      TakeOneMore(items, i);
      sorted := PlaceIndex(sorted, items[i], key);
    }
    SameSize(sorted, items);
    for i := 0 to a.Length
      invariant a[..i] == sorted[..i]
    {
      a[i] := sorted[i];
    }
    assert a[..] == sorted;
  }

  lemma NothingSorted(key: KeyOf)
    ensures SortedBy([], key)
  {
  }

  lemma SameSize(s: seq<nat>, t: seq<nat>)
    requires multiset(s) == multiset(t)
    ensures |s| == |t|
  {
    assert |s| == |multiset(s)| && |t| == |multiset(t)|;
  }

  lemma PermutationIsIndex(s: seq<nat>, t: seq<nat>, n: nat)
    requires IndexOf(s, n) && multiset(s) == multiset(t)
    ensures IndexOf(t, n)
  {
    SameSize(s, t);
    forall x ensures x in s <==> x in t {
      assert x in multiset(s) <==> x in multiset(t);
    }
    assert Elements(s) == Elements(t);
    DistinctExactly(s);
    DistinctExactly(t);
  }

  /** `bsearch` on a strictly sorted array. */
  method BSearch(needle: seq<int>, a: array<nat>, key: KeyOf) returns (found: bool)
    requires StrictBy(a[..], key)
    ensures found <==> exists i :: 0 <= i < a.Length && key(a[i]) == needle
  {
    hide Lex;
    var lo, hi := 0, a.Length;
    while lo < hi
      invariant lo <= hi <= a.Length
      invariant forall i :: 0 <= i < lo ==> Lex(key(a[i]), needle) < 0
      invariant forall i :: hi <= i < a.Length ==> Lex(key(a[i]), needle) > 0
    {
      var mid := (lo + hi) / 2;
      var order := Lex(needle, key(a[mid]));
      LexAntisymmetric(needle, key(a[mid]));
      LexEqual(needle, key(a[mid]));
      if order == 0 { return true; }
      if order > 0 {
        forall i | 0 <= i < mid
          ensures Lex(key(a[i]), needle) < 0
        {
          assert Lex(key(a[..][i]), key(a[..][mid])) < 0;
          LexAtMost(key(a[i]), key(a[mid]), needle);
        }
        lo := mid + 1;
      } else {
        forall i | mid < i < a.Length
          ensures Lex(key(a[i]), needle) > 0
        {
          assert Lex(key(a[..][mid]), key(a[..][i])) < 0;
          LexAtMost(needle, key(a[mid]), key(a[i]));
          LexAntisymmetric(needle, key(a[i]));
        }
        hi := mid;
      }
    }
    forall i | 0 <= i < a.Length
      ensures key(a[i]) != needle
    {
      LexEqual(key(a[i]), needle);
    }
    return false;
  }

  // ----- Distinct paths -----

  lemma {:induction false} AdjacentSuffices(s: seq<nat>, key: KeyOf)
    requires SortedBy(s, key) && forall i :: 0 < i < |s| ==> key(s[i - 1]) != key(s[i])
    ensures StrictBy(s, key)
  {
    hide Lex;
    forall i, j | 0 <= i < j < |s|
      ensures Lex(key(s[i]), key(s[j])) < 0
    {
      LexEqual(key(s[j - 1]), key(s[j]));
      if i < j - 1 { LexAtMost(key(s[i]), key(s[j - 1]), key(s[j])); }
    }
  }

  lemma StrictMeansDistinct(records: seq<Record>, s: seq<nat>)
    requires IndexOf(s, |records|) && StrictBy(s, PathKey(records))
    ensures Distinct(PathsOf(records))
  {
    hide PathKey, IndexOf, StrictBy;
    forall x: nat, y: nat | x < y < |records|
      ensures records[x].path != records[y].path
    {
      KeysDiffer(s, |records|, PathKey(records), x, y);
      SamePath(records, x, y);
    }
  }

  lemma KeysDiffer(s: seq<nat>, n: nat, key: KeyOf, x: nat, y: nat)
    requires IndexOf(s, n) && StrictBy(s, key) && x < y < n
    ensures key(x) != key(y)
  {
    hide Lex;
    assert x in s && y in s;
    var i :| 0 <= i < |s| && s[i] == x;
    var j :| 0 <= j < |s| && s[j] == y;
    if i < j {
      LexEqual(key(s[i]), key(s[j]));
    } else {
      LexEqual(key(s[j]), key(s[i]));
    }
  }

  lemma SamePath(records: seq<Record>, x: nat, y: nat)
    requires x < |records| && y < |records|
    ensures records[x].path == records[y].path ==> PathKey(records)(x) == PathKey(records)(y)
  {
  }

  /** The adjacent comparison after the first sort. */
  method PathsDistinct(records: seq<Record>, index: array<nat>) returns (distinct: bool)
    requires IndexOf(index[..], |records|) && SortedBy(index[..], PathKey(records))
    ensures distinct <==> Distinct(PathsOf(records))
    ensures distinct ==> StrictBy(index[..], PathKey(records))
  {
    ghost var s := index[..];
    var i := 1;
    while i < index.Length
      invariant 1 <= i && (i <= index.Length || index.Length == 0)
      invariant forall k :: 0 < k < i && k < |s| ==> PathKey(records)(s[k - 1]) != PathKey(records)(s[k])
    {
      assert s[i - 1] in s && s[i] in s;
      var x, y := index[i - 1], index[i];
      if records[x].path == records[y].path {
        assert PathsOf(records)[x] == PathsOf(records)[y] && x != y;
        return false;
      }
      if Codes(records[x].path) == Codes(records[y].path) { CodesInjective(records[x].path, records[y].path); }
      i := i + 1;
    }
    AdjacentSuffices(s, PathKey(records));
    StrictMeansDistinct(records, s);
    return true;
  }

  method Recorded(records: seq<Record>, index: array<nat>, path: string) returns (found: bool)
    requires IndexOf(index[..], |records|) && StrictBy(index[..], PathKey(records))
    ensures found <==> path in PathsOf(records)
  {
    found := BSearch(Codes(path), index, PathKey(records));
    ghost var s := index[..];
    if found {
      var i :| 0 <= i < index.Length && PathKey(records)(index[i]) == Codes(path);
      assert s[i] in s;
      CodesInjective(records[index[i]].path, path);
      assert PathsOf(records)[index[i]] == path;
    } else {
      forall x: nat | x < |records|
        ensures PathsOf(records)[x] != path
      {
        assert x in s;
        var i :| 0 <= i < |s| && s[i] == x;
        assert PathKey(records)(index[i]) != Codes(path);
      }
    }
  }

  // ----- The directory pass -----

  lemma {:induction false} ChildPathsGrow(records: seq<Record>, tree: Tree, n: nat)
    requires n <= |records|
    ensures |ChildPaths(records[..n], tree)| <= |ChildPaths(records, tree)|
    decreases |records|
  {
    if n < |records| {
      assert records[..|records| - 1][..n] == records[..n];
      ChildPathsGrow(records[..|records| - 1], tree, n);
    } else {
      assert records[..n] == records;
    }
  }

  lemma {:induction false} NamesGrow(listing: seq<string>, k: nat)
    requires k <= |listing|
    ensures |Names(listing[..k])| <= |Names(listing)|
    ensures forall n :: n in Names(listing[..k]) ==> n in Names(listing)
    decreases |listing|
  {
    if k < |listing| {
      assert listing[..|listing| - 1][..k] == listing[..k];
      NamesGrow(listing[..|listing| - 1], k);
    } else {
      assert listing[..k] == listing;
    }
  }

  ghost predicate NamespaceOk(records: seq<Record>, tree: Tree) {
    ExactNamespace(records, tree) && ShortPaths(tree)
  }

  /** Every child seen so far is short and recorded. */
  ghost predicate ChildrenOk(records: seq<Record>, paths: seq<string>) {
    forall c :: c in paths ==> |c| < PATH_MAX && c in PathsOf(records)
  }

  lemma ChildFails(records: seq<Record>, tree: Tree, i: nat, name: string)
    requires Observed(records, tree) && i < |records| && Entry(tree, records[i].path, name)
    requires var c := Child(records[i].path, name); |c| >= PATH_MAX || c !in PathsOf(records)
    ensures !NamespaceOk(records, tree)
  {
    ChildIsReached(tree, records[i].path, name);
  }

  lemma TooManyChildren(records: seq<Record>, tree: Tree, i: nat, k: nat)
    requires Observed(records, tree) && i < |records| && records[i].directory && records[i].path in tree
    requires k <= |tree[records[i].path]|
    requires |ChildPaths(records[..i], tree)| + |Names(tree[records[i].path][..k])| >= |records|
    ensures !NamespaceOk(records, tree)
  {
    TakeOneMore(records, i);
    assert records[..i + 1][..i] == records[..i];
    NamesGrow(tree[records[i].path], k);
    ChildPathsGrow(records, tree, i + 1);
    if NamespaceOk(records, tree) { ExactIsCounted(records, tree); }
  }

  /** One child, counted already: its path must not be too long, nor too many, and must be recorded. */
  method AcceptChild(records: seq<Record>, tree: Tree, index: array<nat>, i: nat, k: nat, name: string, children: nat)
    returns (ok: bool)
    requires Observed(records, tree) && i < |records| && records[i].directory && records[i].path in tree
    requires IndexOf(index[..], |records|) && StrictBy(index[..], PathKey(records))
    requires k < |tree[records[i].path]| && Entry(tree, records[i].path, name)
    requires children == |ChildPaths(records[..i], tree)| + |Names(tree[records[i].path][..k + 1])|
    ensures !ok ==> !NamespaceOk(records, tree)
    ensures ok ==> |Child(records[i].path, name)| < PATH_MAX && Child(records[i].path, name) in PathsOf(records)
  {
    hide Observed, NamespaceOk, StrictBy, IndexOf, ChildPaths, Names, Child, PathKey, PathsOf;
    var child := Child(records[i].path, name);
    if |child| >= PATH_MAX {
      ChildFails(records, tree, i, name);
      return false;
    }
    if children >= |records| {
      TooManyChildren(records, tree, i, k + 1);
      return false;
    }
    ok := Recorded(records, index, child);
    if !ok {
      ChildFails(records, tree, i, name);
    }
  }

  /** The `readdir` loop over one recorded directory. */
  method ReadDirectory(records: seq<Record>, tree: Tree, index: array<nat>, i: nat, children0: nat)
    returns (ok: bool, children: nat)
    requires Observed(records, tree) && i < |records| && records[i].directory && records[i].path in tree
    requires IndexOf(index[..], |records|) && StrictBy(index[..], PathKey(records))
    requires children0 == |ChildPaths(records[..i], tree)|
    ensures !ok ==> !NamespaceOk(records, tree)
    ensures ok ==> children == children0 + |Names(tree[records[i].path])|
    ensures ok ==> ChildrenOk(records, ChildrenIn(tree, records[i].path))
  {
    hide Observed, NamespaceOk, StrictBy, IndexOf, ChildPaths;
    children := children0;
    var path, listing := records[i].path, tree[records[i].path];
    assert listing[..0] == [];
    for k := 0 to |listing|
      invariant children == children0 + |Names(listing[..k])|
      invariant forall n :: n in Names(listing[..k]) ==>
                  |Child(path, n)| < PATH_MAX && Child(path, n) in PathsOf(records)
    {
      var name := listing[k];
      assert listing[..k + 1][..k] == listing[..k];
      if name != "." && name != ".." {
        assert Names(listing[..k + 1]) == Names(listing[..k]) + [name];
        children := children + 1;
        ok := AcceptChild(records, tree, index, i, k, name, children);
        if !ok {
          return;
        }
      }
    }
    assert listing[..|listing|] == listing;
    return true, children;
  }

  /** The loop over all records; other kinds of file have no entries. */
  method CountChildren(records: seq<Record>, tree: Tree, index: array<nat>) returns (ok: bool, children: nat)
    requires Observed(records, tree) && IndexOf(index[..], |records|) && StrictBy(index[..], PathKey(records))
    ensures !ok ==> !NamespaceOk(records, tree)
    ensures ok ==> children == |ChildPaths(records, tree)| && ChildrenOk(records, ChildPaths(records, tree))
  {
    hide Observed, NamespaceOk, StrictBy, IndexOf;
    children := 0;
    TakeAll(records);
    for i := 0 to |records|
      invariant children == |ChildPaths(records[..i], tree)| && ChildrenOk(records, ChildPaths(records[..i], tree))
    {
      TakeOneMore(records, i);
      assert records[..i + 1][..i] == records[..i];
      if records[i].directory {
        if records[i].path !in tree {
          NotADirectory(records, tree, i);
          return false, children;
        }
        ok, children := ReadDirectory(records, tree, index, i, children);
        if !ok { return; }
      }
    }
    return true, children;
  }

  lemma NotADirectory(records: seq<Record>, tree: Tree, i: nat)
    requires Observed(records, tree) && i < |records| && records[i].directory && records[i].path !in tree
    ensures !NamespaceOk(records, tree)
  {
    if NamespaceOk(records, tree) { ExactIsCounted(records, tree); }
  }

  lemma CountDecides(records: seq<Record>, tree: Tree)
    requires Observed(records, tree) && Distinct(PathsOf(records))
    requires ChildrenOk(records, ChildPaths(records, tree))
    ensures NamespaceOk(records, tree) <==> |ChildPaths(records, tree)| == |records| - 1
  {
    if |ChildPaths(records, tree)| == |records| - 1 {
      CountedIsExact(records, tree);
      forall d, n | Entry(tree, d, n)
        ensures |Child(d, n)| < PATH_MAX
      {
        assert Reached(tree, d);
        ChildOfRecorded(records, tree, d, n);
      }
    } else if NamespaceOk(records, tree) {
      ExactIsCounted(records, tree);
    }
  }

  // ----- The inode pass -----

  ghost predicate GroupAt(records: seq<Record>, s: seq<nat>, first: nat, end: nat) {
    && first < end <= |s|
    && (forall k :: first <= k < end ==> InodeKey(records)(s[k]) == InodeKey(records)(s[first]))
    && (forall k :: 0 <= k < first ==> InodeKey(records)(s[k]) != InodeKey(records)(s[first]))
    && (forall k :: end <= k < |s| ==> InodeKey(records)(s[k]) != InodeKey(records)(s[first]))
  }

  ghost predicate Within(s: seq<nat>, n: nat) {
    forall k :: 0 <= k < |s| ==> s[k] < n
  }

  ghost function OriginalsIn(records: seq<Record>, s: seq<nat>): seq<nat>
    requires Within(s, |records|)
  {
    if s == [] then []
    else
      var x := s[|s| - 1];
      OriginalsIn(records, s[..|s| - 1]) + if records[x].hardlink then [] else [x]
  }

  lemma {:induction false} OriginalsMeaning(records: seq<Record>, s: seq<nat>)
    requires Distinct(s) && Within(s, |records|)
    ensures Distinct(OriginalsIn(records, s))
    ensures forall x :: x in OriginalsIn(records, s) <==> x in s && !records[x].hardlink
  {
    if s != [] {
      var front, x := s[..|s| - 1], s[|s| - 1];
      assert s == front + [x];
      assert forall y :: y in s <==> y in front || y == x;
      OriginalsMeaning(records, front);
      assert x !in front;
    }
  }

  /** A run of equal keys in the sorted index is the alias set of its first record. */
  lemma GroupIsAliases(records: seq<Record>, s: seq<nat>, first: nat, end: nat)
    requires IndexOf(s, |records|) && GroupAt(records, s, first, end)
    ensures s[first] < |records| && |Aliases(records, s[first])| == end - first
    ensures Within(s[first..end], |records|)
    ensures |Originals(records, s[first])| == |OriginalsIn(records, s[first..end])|
  {
    hide IndexOf, InodeKey, Aliases, Originals, Distinct, Within, OriginalsIn;
    var group, x := s[first..end], s[first];
    IndexWithin(s, |records|);
    StretchOf(s, |records|, first, end);
    MembersAreAliases(records, s, first, end);
    DistinctCardinality(group);
    OriginalsMeaning(records, group);
    DistinctCardinality(OriginalsIn(records, group));
    OriginalsOfGroup(records, group, x);
  }

  lemma StretchOf(s: seq<nat>, n: nat, first: nat, end: nat)
    requires IndexOf(s, n) && first <= end <= |s|
    ensures Distinct(s[first..end]) && Within(s[first..end], n)
  {
    IndexWithin(s, n);
  }

  lemma MembersAreAliases(records: seq<Record>, s: seq<nat>, first: nat, end: nat)
    requires IndexOf(s, |records|) && GroupAt(records, s, first, end)
    ensures s[first] < |records| && Elements(s[first..end]) == Aliases(records, s[first])
  {
    hide InodeKey, Distinct;
    IndexWithin(s, |records|);
    var group, x := s[first..end], s[first];
    forall y: nat
      ensures y in group <==> y in Aliases(records, x)
    {
      if y in Aliases(records, x) {
        assert y in s;
        var k :| 0 <= k < |s| && s[k] == y;
        InodeIsKey(records, y, x);
        assert first <= k < end;
        assert group[k - first] == y;
      }
      if y in group {
        var k :| 0 <= k < |group| && group[k] == y;
        assert s[first + k] == y;
        KeyIsInode(records, y, x);
      }
    }
  }

  lemma OriginalsOfGroup(records: seq<Record>, group: seq<nat>, x: nat)
    requires x < |records| && Within(group, |records|) && Elements(group) == Aliases(records, x)
    requires Elements(OriginalsIn(records, group)) == set y | y in group && !records[y].hardlink
    ensures Elements(OriginalsIn(records, group)) == Originals(records, x)
  {
    hide OriginalsIn;
    assert forall y: nat :: y in group <==> y in Elements(group);
  }

  lemma RunIsGroup(records: seq<Record>, s: seq<nat>, first: nat, end: nat)
    requires SortedBy(s, InodeKey(records)) && first < end <= |s|
    requires forall k :: first <= k < end ==> InodeKey(records)(s[k]) == InodeKey(records)(s[first])
    requires end < |s| ==> InodeKey(records)(s[end]) != InodeKey(records)(s[first])
    requires first > 0 ==> InodeKey(records)(s[first - 1]) != InodeKey(records)(s[first])
    ensures GroupAt(records, s, first, end)
  {
    hide Lex;
    var key := InodeKey(records);
    forall k | end <= k < |s|
      ensures key(s[k]) != key(s[first])
    {
      LexEqual(key(s[first]), key(s[end]));
      assert Lex(key(s[first]), key(s[end])) <= 0;
      if k > end { LexAtMost(key(s[first]), key(s[end]), key(s[k])); }
      LexEqual(key(s[first]), key(s[k]));
    }
    forall k | 0 <= k < first
      ensures key(s[k]) != key(s[first])
    {
      LexEqual(key(s[first - 1]), key(s[first]));
      if k < first - 1 { LexAtMost(key(s[k]), key(s[first - 1]), key(s[first])); }
      LexEqual(key(s[k]), key(s[first]));
    }
  }

  /** The same verdict for every record of a group. */
  lemma GroupShares(records: seq<Record>, tree: Tree, x: nat, y: nat)
    requires Observed(records, tree) && x < |records| && y < |records| && SameInode(records[x], records[y])
    ensures InodeComplete(records, x) <==> InodeComplete(records, y)
  {
    assert Aliases(records, x) == Aliases(records, y);
    assert Originals(records, x) == Originals(records, y);
  }

  /** All of a stretch name the inode that its first names. */
  ghost predicate OneInode(records: seq<Record>, s: seq<nat>, first: nat, end: nat) {
    first < end <= |s| && forall k :: first <= k < end ==> InodeKey(records)(s[k]) == InodeKey(records)(s[first])
  }

  lemma OneStarts(records: seq<Record>, s: seq<nat>, first: nat)
    requires first < |s| && s[first] < |records|
    ensures OneInode(records, s, first, first + 1) && Within(s[first..first + 1], |records|)
    ensures |OriginalsIn(records, s[first..first + 1])| == if records[s[first]].hardlink then 0 else 1
  {
    hide InodeKey;
    assert s[first..first + 1] == [s[first]] && [s[first]][..0] == [];
  }

  lemma OneMoreAlias(records: seq<Record>, s: seq<nat>, first: nat, end: nat)
    requires OneInode(records, s, first, end) && end < |s| && Within(s[first..end], |records|)
    requires s[first] < |records| && s[end] < |records| && SameInode(records[s[first]], records[s[end]])
    ensures OneInode(records, s, first, end + 1) && Within(s[first..end + 1], |records|)
    ensures |OriginalsIn(records, s[first..end + 1])|
         == |OriginalsIn(records, s[first..end])| + if records[s[end]].hardlink then 0 else 1
  {
    hide InodeKey, SameInode;
    InodeIsKey(records, s[first], s[end]);
    assert s[first..end + 1] == s[first..end] + [s[end]];
    assert s[first..end + 1][..end - first] == s[first..end];
  }

  lemma RunEnds(records: seq<Record>, s: seq<nat>, first: nat, end: nat)
    requires SortedBy(s, InodeKey(records)) && OneInode(records, s, first, end)
    requires forall k :: 0 <= k < |s| ==> s[k] < |records|
    requires end < |s| ==> !SameInode(records[s[first]], records[s[end]])
    requires first > 0 ==> InodeKey(records)(s[first - 1]) != InodeKey(records)(s[first])
    ensures GroupAt(records, s, first, end)
  {
    hide SortedBy, InodeKey, SameInode, GroupAt;
    if end < |s| && InodeKey(records)(s[end]) == InodeKey(records)(s[first]) {
      KeyIsInode(records, s[first], s[end]);
    }
    RunIsGroup(records, s, first, end);
  }

  /** One group: how far it runs and how many of its records are originals. */
  method ScanGroup(records: seq<Record>, index: array<nat>, first: nat) returns (end: nat, originals: nat)
    requires IndexOf(index[..], |records|) && SortedBy(index[..], InodeKey(records)) && first < index.Length
    requires first > 0 ==> InodeKey(records)(index[first - 1]) != InodeKey(records)(index[first])
    ensures GroupAt(records, index[..], first, end)
    ensures index[first] < |records| && originals == |Originals(records, index[first])|
    ensures end - first == |Aliases(records, index[first])|
  {
    hide SortedBy, IndexOf, InodeKey, GroupAt, Aliases, Originals, Within, OriginalsIn, OneInode, SameInode;
    ghost var s := index[..];
    IndexWithin(s, |records|);
    end := first + 1;
    originals := if records[index[first]].hardlink then 0 else 1;
    OneStarts(records, s, first);
    while end < index.Length && SameInode(records[index[first]], records[index[end]])
      invariant first < end <= index.Length && OneInode(records, s, first, end)
      invariant Within(s[first..end], |records|) && originals == |OriginalsIn(records, s[first..end])|
    {
      OneMoreAlias(records, s, first, end);
      originals := originals + if records[index[end]].hardlink then 0 else 1;
      end := end + 1;
    }
    RunEnds(records, s, first, end);
    GroupIsAliases(records, s, first, end);
  }

  lemma InodeIsKey(records: seq<Record>, x: nat, y: nat)
    requires x < |records| && y < |records| && SameInode(records[x], records[y])
    ensures InodeKey(records)(x) == InodeKey(records)(y)
  {
  }

  /** The loop over the groups of the second sort. */
  method InodesComplete(records: seq<Record>, ghost tree: Tree, index: array<nat>) returns (ok: bool)
    requires Observed(records, tree)
    requires IndexOf(index[..], |records|) && SortedBy(index[..], InodeKey(records))
    ensures ok <==> forall i :: 0 <= i < |records| ==> InodeComplete(records, i)
  {
    hide Observed, SortedBy, IndexOf, InodeKey, Aliases, Originals;
    ghost var s := index[..];
    IndexWithin(s, |records|);
    var first := 0;
    while first < index.Length
      invariant first <= index.Length
      invariant first > 0 && first < index.Length ==> InodeKey(records)(s[first - 1]) != InodeKey(records)(s[first])
      invariant forall k :: 0 <= k < first ==> InodeComplete(records, s[k])
    {
      var end, originals := ScanGroup(records, index, first);
      var x := index[first];
      if !records[x].directory && (originals != 1 || records[x].links != end - first) {
        assert !InodeComplete(records, x);
        return false;
      }
      assert InodeComplete(records, x);
      forall k | first <= k < end
        ensures InodeComplete(records, s[k])
      {
        KeyIsInode(records, s[k], s[first]);
        GroupShares(records, tree, s[k], s[first]);
      }
      assert end < index.Length ==> InodeKey(records)(s[end - 1]) == InodeKey(records)(s[first]);
      first := end;
    }
    EveryIndexSeen(records, s);
    return true;
  }

  lemma IndexWithin(s: seq<nat>, n: nat)
    requires IndexOf(s, n)
    ensures |s| == n && forall k :: 0 <= k < |s| ==> s[k] < n
  {
    assert forall k :: 0 <= k < |s| ==> s[k] in s;
  }

  lemma KeyIsInode(records: seq<Record>, x: nat, y: nat)
    requires x < |records| && y < |records| && InodeKey(records)(x) == InodeKey(records)(y)
    ensures SameInode(records[x], records[y])
  {
    assert InodeKey(records)(x)[0] == records[x].device && InodeKey(records)(x)[1] == records[x].inode;
    assert InodeKey(records)(y)[0] == records[y].device && InodeKey(records)(y)[1] == records[y].inode;
  }

  lemma EveryIndexSeen(records: seq<Record>, s: seq<nat>)
    requires IndexOf(s, |records|) && forall k :: 0 <= k < |s| ==> s[k] < |records| && InodeComplete(records, s[k])
    ensures forall i :: 0 <= i < |records| ==> InodeComplete(records, i)
  {
    hide InodeComplete;
    forall i: nat | i < |records|
      ensures InodeComplete(records, i)
    {
      assert i in s;
    }
  }

  // ----- The whole check -----

  /** `complete_tree`: 0 exactly when the records are the tree, with every link accounted for. */
  method Check(records: seq<Record>, tree: Tree) returns (code: int)
    requires Observed(records, tree)
    ensures code == 0 || code == -1
    ensures code == 0 <==> TreeComplete(records, tree)
  {
    hide Observed, ExactNamespace, ShortPaths, InodeComplete, SortedBy, StrictBy, ChildPaths;
    var count := |records|;
    var index := new nat[count](i => i);
    IdentityIsIndex(index[..], count);
    ghost var before := index[..];
    QSort(index, PathKey(records));
    PermutationIsIndex(before, index[..], count);
    var distinct := PathsDistinct(records, index);
    if !distinct {
      RepeatedPath(records, tree);
      return -1;
    }
    var ok, children := CountChildren(records, tree, index);
    if !ok { return -1; }
    CountDecides(records, tree);
    if children != count - 1 { return -1; }
    before := index[..];
    QSort(index, InodeKey(records));
    PermutationIsIndex(before, index[..], count);
    ok := InodesComplete(records, tree, index);
    return if ok then 0 else -1;
  }

  lemma IdentityIsIndex(s: seq<nat>, n: nat)
    requires |s| == n && forall i :: 0 <= i < n ==> s[i] == i
    ensures IndexOf(s, n)
  {
    forall x: nat ensures x in s <==> x < n {
      if x < n { assert s[x] == x; }
    }
  }

  lemma RepeatedPath(records: seq<Record>, tree: Tree)
    requires !Distinct(PathsOf(records))
    ensures !TreeComplete(records, tree)
  {
  }
}
