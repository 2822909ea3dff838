/**
 The exact-namespace check of native/worker/root_extract.c: sort, search and count,
 then group by inode. A C string is the text of its bytes.
 */
module RootTree {
  import opened NiaCommon
  import opened Ordering
  import opened Text

  const PATH_MAX := 4096
  const ROOT := "."

  // ----- normal_path -----

  predicate ProperComponent(c: string) {
    c != "" && c != "." && c != ".."
  }

  predicate ProperPath(path: string) {
    forall c :: c in Split(path, '/') ==> ProperComponent(c)
  }

  /** The spelling without a leading `./` and one trailing slash. */
  function Stripped(name: string): string {
    var s := if |name| >= 2 && name[..2] == "./" then name[2..] else name;
    if s != "" && s[|s| - 1] == '/' then s[..|s| - 1] else s
  }

  function Normal(name: string): Option<string> {
    if name == "" || |name| >= PATH_MAX then None
    else if name == "." || name == "./" then Some(ROOT)
    else if ProperPath(Stripped(name)) then Some(Stripped(name))
    else None
  }

  /** `normal_path`. */
  method NormalPath(name: string) returns (r: Option<string>)
    ensures r == Normal(name)
  {
    if name == "" || |name| >= PATH_MAX { return None; }
    if name == "." || name == "./" { return Some(ROOT); }
    var path := if |name| >= 2 && name[..2] == "./" then name[2..] else name;
    if path != "" && path[|path| - 1] == '/' { path := path[..|path| - 1]; }
    var proper := ScanComponents(path);
    return if proper then Some(path) else None;
  }

  /** The component scan of `normal_path`. */
  method ScanComponents(path: string) returns (proper: bool)
    ensures proper <==> ProperPath(path)
  {
    hide ProperPath, ProperComponent;
    var start, i := 0, 0;
    assert path[0..] == path;
    while i <= |path|
      invariant start <= i <= |path| + 1
      invariant i <= |path| ==> '/' !in path[start..i] && (ProperPath(path) <==> ProperPath(path[start..]))
      invariant i == |path| + 1 ==> ProperPath(path)
    {
      if i < |path| && path[i] != '/' {
        assert path[start..i + 1] == path[start..i] + [path[i]];
      } else {
        ComponentAt(path, start, i);
        if !ProperComponent(path[start..i]) { return false; }
        start := i + 1;
      }
      i := i + 1;
    }
    return true;
  }

  lemma ComponentAt(path: string, start: nat, i: nat)
    requires start <= i <= |path| && '/' !in path[start..i] && (i < |path| ==> path[i] == '/')
    ensures ProperPath(path[start..]) <==>
            ProperComponent(path[start..i]) && (i < |path| ==> ProperPath(path[i + 1..]))
  {
    hide ProperComponent;
    assert path[start..][..i - start] == path[start..i];
    if i < |path| { assert path[start..][i - start + 1..] == path[i + 1..]; }
    FirstComponent(path[start..], i - start);
  }

  lemma FirstComponent(s: string, n: nat)
    requires n <= |s| && '/' !in s[..n] && (n < |s| ==> s[n] == '/')
    ensures ProperPath(s) <==> ProperComponent(s[..n]) && (n < |s| ==> ProperPath(s[n + 1..]))
  {
    var rest := if n < |s| then s[n + 1..] else "";
    if n < |s| {
      assert s == s[..n] + ['/'] + rest;
    }
    FieldLengthIs(s[..n], '/', rest);
    assert n == |s| ==> s[..n] == s;
    assert Split(s, '/') == if n == |s| then [s] else [s[..n]] + Split(rest, '/');
  }

  /** A normal path is its own normal form, and never the parent or an absolute path. */
  lemma NormalIsIdempotent(name: string)
    requires Normal(name).Some?
    ensures Normal(Normal(name).value) == Normal(name)
    ensures Normal(name).value != "" && Normal(name).value[0] != '/'
  {
    hide ProperPath, ProperComponent;
    var p := Normal(name).value;
    if p != ROOT {
      FirstIsProper(p);
      if |p| >= 2 && p[..2] == "./" { DotSlashImproper(p); }
      LastComponent(p);
    }
  }

  function WithoutDot(name: string): string {
    if |name| >= 2 && name[..2] == "./" then name[2..] else name
  }

  lemma WithoutSlash(s: string, p: string)
    requires p != "" && p[|p| - 1] != '/'
    ensures (if s != "" && s[|s| - 1] == '/' then s[..|s| - 1] else s) == p <==> s == p || s == p + "/"
  {
    if s != "" && s[|s| - 1] == '/' {
      assert s == s[..|s| - 1] + "/";
      assert s == p + "/" ==> s[..|s| - 1] == p;
    }
  }

  lemma WithDot(name: string, t: string)
    requires |t| >= 2 ==> t[..2] != "./"
    ensures WithoutDot(name) == t <==> name == t || name == "./" + t
  {
    if |name| >= 2 && name[..2] == "./" {
      assert name == "./" + name[2..];
      assert name == "./" + t ==> name[2..] == t;
    } else {
      assert ("./" + t)[..2] == "./";
    }
  }

  lemma DotIsImproper()
    ensures !ProperPath(".")
  {
    FirstComponent(".", 1);
    assert "."[..1] == ".";
  }

  /** What a proper path is not. */
  lemma ProperShape(p: string)
    requires ProperPath(p)
    ensures p != "" && p != "." && p[|p| - 1] != '/'
    ensures |p| >= 2 ==> p[..2] != "./"
    ensures |p + "/"| >= 2 && (p + "/")[..2] != "./"
  {
    hide ProperPath;
    LastComponent(p);
    DotIsImproper();
    if |p| >= 2 {
      if p[..2] == "./" { DotSlashImproper(p); }
      assert (p + "/")[..2] == p[..2];
    } else {
      assert p == [p[0]];
      assert (p + "/")[..2][0] == p[0];
    }
  }

  /** A name gives a normal path exactly when it is that path, with `./` before it or a slash after it or both. */
  lemma NormalExactly(name: string, p: string)
    ensures Normal(name) == Some(p) <==>
            && 1 <= |name| <= 4095
            && (|| (p == "." && name in {".", "./"})
                || (ProperPath(p) && name in {p, p + "/", "./" + p, "./" + p + "/"}))
  {
    hide ProperPath;
    if ProperPath(p) {
      ProperShape(p);
      WithoutSlash(WithoutDot(name), p);
      WithDot(name, p);
      WithDot(name, p + "/");
      assert "./" + (p + "/") == "./" + p + "/";
      assert |"./" + p| > 2 && |p + "/"| >= 2;
    }
  }

  lemma FirstIsProper(p: string)
    requires ProperPath(p)
    ensures p != "" && p[0] != '/'
  {
    hide ProperPath;
    var n := FieldLength(p, '/');
    FirstComponent(p, n);
    assert p[..n] != "";
  }

  lemma DotSlashImproper(p: string)
    requires |p| >= 2 && p[..2] == "./"
    ensures !ProperPath(p)
  {
    assert p[0] == p[..2][0] && p[1] == p[..2][1];
    assert p[..1] == ".";
    FirstComponent(p, 1);
  }

  lemma {:induction false} LastComponent(p: string)
    requires ProperPath(p)
    ensures p != "" && p[|p| - 1] != '/'
    decreases |p|
  {
    var n := FieldLength(p, '/');
    FirstComponent(p, n);
    if n < |p| {
      LastComponent(p[n + 1..]);
    } else {
      assert p[..n] == p;
    }
  }

  // ----- The directory tree -----

  /** What a frozen mount shows: the names `readdir` returns for each directory path. */
  type Tree = map<string, seq<string>>

  /** Names other than the two every directory has. */
  function Names(listing: seq<string>): seq<string> {
    if listing == [] then []
    else
      var front, last := Names(listing[..|listing| - 1]), listing[|listing| - 1];
      if last == "." || last == ".." then front else front + [last]
  }

  /** A name the directory lists, other than the two every directory has. */
  ghost predicate Entry(tree: Tree, directory: string, name: string) {
    directory in tree && name in tree[directory] && name != "." && name != ".."
  }

  /** No name is listed twice, but for those two. */
  ghost predicate ListedOnce(listing: seq<string>) {
    forall j, k :: 0 <= j < k < |listing| && listing[j] == listing[k] ==> listing[j] == "." || listing[j] == ".."
  }

  /** `.` and `..` are passed over, and every other name is kept as often as it is listed. */
  lemma {:induction false} NamesExactly(listing: seq<string>, n: string)
    ensures multiset(Names(listing))[n] == if n == "." || n == ".." then 0 else multiset(listing)[n]
    ensures n in Names(listing) <==> n in listing && n != "." && n != ".."
  {
    if listing != [] {
      var front, last := listing[..|listing| - 1], listing[|listing| - 1];
      assert listing == front + [last];
      NamesExactly(front, n);
    }
  }

  lemma {:induction false} NamesDistinct(listing: seq<string>)
    requires ListedOnce(listing)
    ensures Distinct(Names(listing))
  {
    if listing != [] {
      var front, last := listing[..|listing| - 1], listing[|listing| - 1];
      NamesDistinct(front);
      NamesExactly(front, last);
    }
  }

  function Child(directory: string, name: string): string {
    if directory == ROOT then name else directory + "/" + name
  }

  /** Reached from the root through `depth` directory entries. */
  ghost predicate ReachedAt(tree: Tree, path: string, depth: nat)
    decreases depth
  {
    if depth == 0 then path == ROOT
    else exists d, n :: ReachedAt(tree, d, depth - 1) && Entry(tree, d, n) && path == Child(d, n)
  }

  ghost predicate Reached(tree: Tree, path: string) {
    exists depth :: ReachedAt(tree, path, depth)
  }

  /** Facts of a directory tree: entry names are distinct, non-empty and hold no slash. */
  ghost predicate TreeValid(tree: Tree) {
    && (forall d :: d in tree ==> Reached(tree, d) && ListedOnce(tree[d]))
    && forall d, n :: Entry(tree, d, n) ==> n != "" && '/' !in n
  }

  datatype Record = Record(path: string, directory: bool, device: int, inode: int, links: nat, hardlink: bool)

  /** What the earlier passes established: the first record is the root directory, and the
      stat data is that of the frozen tree. */
  ghost predicate Observed(records: seq<Record>, tree: Tree) {
    && TreeValid(tree) && ROOT in tree
    && records != [] && records[0].path == ROOT && records[0].directory
    && (forall i :: 0 <= i < |records| && Reached(tree, records[i].path) ==>
          (records[i].directory <==> records[i].path in tree))
    && forall i, j :: 0 <= i < |records| && 0 <= j < |records| && SameInode(records[i], records[j]) ==>
         records[i].directory == records[j].directory && records[i].links == records[j].links
  }

  predicate SameInode(a: Record, b: Record) {
    a.device == b.device && a.inode == b.inode
  }

  function PathsOf(records: seq<Record>): seq<string> {
    seq(|records|, i requires 0 <= i < |records| => records[i].path)
  }

  // ----- What the check certifies -----

  /** The recorded paths are distinct and are exactly the paths of the tree. */
  ghost predicate ExactNamespace(records: seq<Record>, tree: Tree) {
    && Distinct(PathsOf(records))
    && forall p :: p in PathsOf(records) <==> Reached(tree, p)
  }

  ghost predicate ShortPaths(tree: Tree) {
    forall d, n :: Entry(tree, d, n) ==> |Child(d, n)| < PATH_MAX
  }

  ghost function Aliases(records: seq<Record>, i: nat): set<nat>
    requires i < |records|
  {
    set j: nat | j < |records| && SameInode(records[i], records[j])
  }

  ghost function Originals(records: seq<Record>, i: nat): set<nat>
    requires i < |records|
  {
    set j | j in Aliases(records, i) && !records[j].hardlink
  }

  /** A non-directory inode has all its links recorded, exactly one of them the original. */
  ghost predicate InodeComplete(records: seq<Record>, i: nat)
    requires i < |records|
  {
    records[i].directory || (|Originals(records, i)| == 1 && |Aliases(records, i)| == records[i].links)
  }

  ghost predicate TreeComplete(records: seq<Record>, tree: Tree) {
    && ExactNamespace(records, tree) && ShortPaths(tree)
    && forall i :: 0 <= i < |records| ==> InodeComplete(records, i)
  }

  // ----- Children -----

  /** Length of the text up to and including the last slash. */
  function ThroughSlash(s: string): (n: nat)
    ensures n <= |s|
  {
    if s == "" then 0 else if s[|s| - 1] == '/' then |s| else ThroughSlash(s[..|s| - 1])
  }

  function Parent(path: string): string {
    var n := ThroughSlash(path);
    if n == 0 then ROOT else path[..n - 1]
  }

  function Base(path: string): string {
    path[ThroughSlash(path)..]
  }

  lemma {:induction false} NoSlash(front: string, s: string)
    requires '/' !in s && (front == "" || front[|front| - 1] == '/')
    ensures ThroughSlash(front + s) == |front|
  {
    if s == "" {
      assert front + s == front;
    } else {
      assert (front + s)[..|front + s| - 1] == front + s[..|s| - 1];
      NoSlash(front, s[..|s| - 1]);
    }
  }

  /** A child path determines its directory and its name. */
  lemma ChildSplits(d: string, n: string)
    requires '/' !in n
    ensures Parent(Child(d, n)) == d && Base(Child(d, n)) == n
  {
    var front := if d == ROOT then "" else d + "/";
    NoSlash(front, n);
    assert Child(d, n) == front + n;
  }

  lemma ChildInjective(a: string, m: string, b: string, n: string)
    requires '/' !in m && '/' !in n && Child(a, m) == Child(b, n)
    ensures a == b && m == n
  {
    ChildSplits(a, m);
    ChildSplits(b, n);
  }

  lemma ChildIsNotRoot(tree: Tree, d: string, n: string)
    requires Entry(tree, d, n)
    ensures Child(d, n) != ROOT
  {
    assert d != ROOT ==> Child(d, n)[|d|] == '/';
  }

  function ChildrenIn(tree: Tree, d: string): seq<string> {
    if d in tree then seq(|Names(tree[d])|, i requires 0 <= i < |Names(tree[d])| => Child(d, Names(tree[d])[i])) else []
  }

  /** Paths of the entries of the directories among the first records. */
  function ChildPaths(records: seq<Record>, tree: Tree): seq<string> {
    if records == [] then []
    else
      var last := records[|records| - 1];
      ChildPaths(records[..|records| - 1], tree) + if last.directory then ChildrenIn(tree, last.path) else []
  }

  lemma {:induction false} ChildPathsMeaning(records: seq<Record>, tree: Tree, p: string)
    ensures p in ChildPaths(records, tree) <==> exists i, n :: ChildOf(records, tree, p, i, n)
  {
    hide Names, Child, ChildrenIn;
    if records != [] {
      var front, last := records[..|records| - 1], records[|records| - 1];
      ChildPathsMeaning(front, tree, p);
      ChildrenMeaning(tree, last.path, p);
      if i, n :| ChildOf(records, tree, p, i, n) {
        if i < |front| {
          assert ChildOf(front, tree, p, i, n);
        }
      }
      if i, n :| ChildOf(front, tree, p, i, n) {
        assert ChildOf(records, tree, p, i, n);
      }
      if last.directory && p in ChildrenIn(tree, last.path) {
        var n :| Entry(tree, last.path, n) && p == Child(last.path, n);
        assert ChildOf(records, tree, p, |front|, n);
      }
    }
  }

  ghost predicate ChildOf(records: seq<Record>, tree: Tree, p: string, i: int, n: string) {
    0 <= i < |records| && records[i].directory && Entry(tree, records[i].path, n) && p == Child(records[i].path, n)
  }

  lemma ChildrenMeaning(tree: Tree, d: string, p: string)
    ensures p in ChildrenIn(tree, d) <==> exists n :: Entry(tree, d, n) && p == Child(d, n)
  {
    hide Names, Child;
    if n :| Entry(tree, d, n) && p == Child(d, n) {
      NamesExactly(tree[d], n);
      var k :| 0 <= k < |Names(tree[d])| && Names(tree[d])[k] == n;
      assert ChildrenIn(tree, d)[k] == p;
    }
    if p in ChildrenIn(tree, d) {
      var k :| 0 <= k < |ChildrenIn(tree, d)| && ChildrenIn(tree, d)[k] == p;
      NamesExactly(tree[d], Names(tree[d])[k]);
      assert Entry(tree, d, Names(tree[d])[k]);
    }
  }

  lemma {:induction false} ChildPathsDistinct(records: seq<Record>, tree: Tree)
    requires TreeValid(tree) && Distinct(PathsOf(records))
    ensures Distinct(ChildPaths(records, tree))
    ensures ROOT !in ChildPaths(records, tree)
  {
    if records != [] {
      var front, last := records[..|records| - 1], records[|records| - 1];
      assert forall i :: 0 <= i < |front| ==> PathsOf(front)[i] == PathsOf(records)[i];
      ChildPathsDistinct(front, tree);
      if last.directory && last.path in tree {
        ChildrenDistinct(tree, last.path);
        var before, more := ChildPaths(front, tree), ChildrenIn(tree, last.path);
        forall i, j | 0 <= i < |before| && 0 <= j < |more|
          ensures before[i] != more[j]
        {
          ChildPathsMeaning(front, tree, before[i]);
          var k, n :| ChildOf(front, tree, before[i], k, n);
          assert PathsOf(records)[k] == front[k].path && PathsOf(records)[|records| - 1] == last.path;
          NamesExactly(tree[last.path], Names(tree[last.path])[j]);
          assert Entry(tree, last.path, Names(tree[last.path])[j]);
          if before[i] == more[j] {
            ChildInjective(front[k].path, n, last.path, Names(tree[last.path])[j]);
          }
        }
      }
    }
  }

  lemma ChildrenDistinct(tree: Tree, d: string)
    requires TreeValid(tree) && d in tree
    ensures Distinct(ChildrenIn(tree, d)) && ROOT !in ChildrenIn(tree, d)
  {
    hide Names, Reached;
    var names := Names(tree[d]);
    NamesDistinct(tree[d]);
    forall i | 0 <= i < |names| ensures Entry(tree, d, names[i]) { NamesExactly(tree[d], names[i]); }
    forall i, j | 0 <= i < j < |names|
      ensures Child(d, names[i]) != Child(d, names[j])
    {
      if Child(d, names[i]) == Child(d, names[j]) { ChildInjective(d, names[i], d, names[j]); }
    }
    forall i | 0 <= i < |names| ensures Child(d, names[i]) != ROOT { ChildIsNotRoot(tree, d, names[i]); }
  }

  // ----- Paths of the tree are normal -----

  lemma {:induction false} ProperExtends(d: string, n: string)
    requires ProperPath(d) && ProperComponent(n) && '/' !in n
    ensures ProperPath(d + "/" + n)
    decreases |d|
  {
    var k := FieldLength(d, '/');
    FirstComponent(d, k);
    FirstComponent(n, |n|);
    assert n[..|n|] == n;
    var p := d + "/" + n;
    assert p[..k] == d[..k];
    if k < |d| {
      ProperExtends(d[k + 1..], n);
      assert p[k + 1..] == d[k + 1..] + "/" + n;
    } else {
      assert p[k + 1..] == n;
    }
    FirstComponent(p, k);
  }

  lemma {:induction false} ReachedIsProper(tree: Tree, p: string, depth: nat)
    requires TreeValid(tree) && ReachedAt(tree, p, depth)
    ensures p == ROOT || ProperPath(p)
    decreases depth
  {
    hide TreeValid, ReachedAt, ProperPath, Reached;
    if depth == 0 {
      AtRoot(tree, p);
    } else {
      var d, n := ReachedThrough(tree, p, depth);
      ReachedIsProper(tree, d, depth - 1);
      EntryIsProper(tree, d, n);
      if d == ROOT {
        assert n[..|n|] == n;
        FirstComponent(n, |n|);
      } else {
        ProperExtends(d, n);
      }
    }
  }

  lemma EntryIsProper(tree: Tree, d: string, n: string)
    requires TreeValid(tree) && Entry(tree, d, n)
    ensures ProperComponent(n) && '/' !in n
  {
    hide Reached;
  }

  /** Every path of a tree is its own normal form, so a normalised record can name it. */
  lemma ReachedIsNormal(tree: Tree, p: string)
    requires TreeValid(tree) && Reached(tree, p) && |p| < PATH_MAX
    ensures Normal(p) == Some(p)
  {
    hide TreeValid, ReachedAt, ProperPath;
    var depth: nat :| ReachedAt(tree, p, depth);
    ReachedIsProper(tree, p, depth);
    if p != ROOT {
      LastComponent(p);
      if |p| >= 2 && p[..2] == "./" { DotSlashImproper(p); }
    }
  }

  // ----- Counting -----

  lemma ChildOfRecorded(records: seq<Record>, tree: Tree, d: string, n: string)
    requires Observed(records, tree) && d in PathsOf(records) && Entry(tree, d, n)
    ensures Child(d, n) in ChildPaths(records, tree)
  {
    hide Names, Child, ChildPaths, Reached;
    var i :| 0 <= i < |records| && PathsOf(records)[i] == d;
    assert Reached(tree, records[i].path);
    assert ChildOf(records, tree, Child(d, n), i, n);
    ChildPathsMeaning(records, tree, Child(d, n));
  }

  lemma RootRecorded(records: seq<Record>, tree: Tree)
    requires Observed(records, tree)
    ensures ROOT in PathsOf(records)
  {
    assert PathsOf(records)[0] == ROOT;
  }

  lemma AtRoot(tree: Tree, p: string)
    requires ReachedAt(tree, p, 0)
    ensures p == ROOT
  {
  }

  lemma ReachedThrough(tree: Tree, p: string, depth: nat) returns (d: string, n: string)
    requires ReachedAt(tree, p, depth) && depth > 0
    ensures ReachedAt(tree, d, depth - 1) && Entry(tree, d, n) && p == Child(d, n)
  {
    d, n :| ReachedAt(tree, d, depth - 1) && Entry(tree, d, n) && p == Child(d, n);
  }

  lemma {:induction false} ReachedIsRecorded(records: seq<Record>, tree: Tree, p: string, depth: nat)
    requires Observed(records, tree) && ReachedAt(tree, p, depth)
    requires forall c :: c in ChildPaths(records, tree) ==> c in PathsOf(records)
    ensures p in PathsOf(records)
    decreases depth
  {
    hide Observed, ReachedAt, ChildPaths, Names, Child;
    RootRecorded(records, tree);
    if depth == 0 {
      AtRoot(tree, p);
    } else {
      var d, n := ReachedThrough(tree, p, depth);
      ReachedIsRecorded(records, tree, d, depth - 1);
      ChildOfRecorded(records, tree, d, n);
    }
  }

  lemma ChildIsReached(tree: Tree, d: string, n: string)
    requires TreeValid(tree) && Entry(tree, d, n)
    ensures Reached(tree, Child(d, n))
  {
    var depth: nat :| ReachedAt(tree, d, depth);
    assert ReachedAt(tree, Child(d, n), depth + 1);
  }

  lemma ChildPathsReached(records: seq<Record>, tree: Tree)
    requires TreeValid(tree)
    ensures forall c :: c in ChildPaths(records, tree) ==> Reached(tree, c)
  {
    forall c | c in ChildPaths(records, tree)
      ensures Reached(tree, c)
    {
      ChildPathsMeaning(records, tree, c);
      var i, n :| ChildOf(records, tree, c, i, n);
      ChildIsReached(tree, records[i].path, n);
    }
  }

  /** Pigeonhole: distinct recorded children that number one less than the records leave room
      for the root only, so the records are exactly the tree. */
  lemma CountedIsExact(records: seq<Record>, tree: Tree)
    requires Observed(records, tree) && Distinct(PathsOf(records))
    requires forall c :: c in ChildPaths(records, tree) ==> c in PathsOf(records)
    requires |ChildPaths(records, tree)| == |records| - 1
    ensures ExactNamespace(records, tree)
  {
    var paths, children := PathsOf(records), ChildPaths(records, tree);
    ChildPathsDistinct(records, tree);
    DistinctCardinality(paths);
    DistinctCardinality(children);
    assert ROOT == paths[0];
    assert Elements(children) <= Elements(paths) - {ROOT};
    SubsetCardinality(Elements(children), Elements(paths) - {ROOT});
    ChildPathsReached(records, tree);
    assert ReachedAt(tree, ROOT, 0);
    forall p
      ensures p in paths <==> Reached(tree, p)
    {
      if p in paths && p != ROOT {
        assert p in Elements(paths) - {ROOT};
        assert p in Elements(children);
      }
      if Reached(tree, p) {
        var depth: nat :| ReachedAt(tree, p, depth);
        ReachedIsRecorded(records, tree, p, depth);
      }
    }
  }

  /** Conversely an exact namespace has one child path for every record but the root. */
  lemma ExactIsCounted(records: seq<Record>, tree: Tree)
    requires Observed(records, tree) && ExactNamespace(records, tree)
    ensures |ChildPaths(records, tree)| == |records| - 1
    ensures forall c :: c in ChildPaths(records, tree) ==> c in PathsOf(records)
    ensures forall i :: 0 <= i < |records| && records[i].directory ==> records[i].path in tree
  {
    hide Observed, ChildPaths, Reached;
    var paths, children := PathsOf(records), ChildPaths(records, tree);
    ObservedTree(records, tree);
    ChildPathsDistinct(records, tree);
    ChildPathsReached(records, tree);
    DistinctCardinality(paths);
    DistinctCardinality(children);
    RecordedAreReached(records, tree);
    forall p | p in paths && p != ROOT
      ensures p in children
    {
      RecordedIsChild(records, tree, p);
    }
    assert Elements(children) == Elements(paths) - {ROOT};
  }

  lemma ObservedTree(records: seq<Record>, tree: Tree)
    requires Observed(records, tree)
    ensures TreeValid(tree) && records != [] && ROOT in PathsOf(records)
  {
    RootRecorded(records, tree);
  }

  lemma RecordedAreReached(records: seq<Record>, tree: Tree)
    requires Observed(records, tree) && ExactNamespace(records, tree)
    ensures forall i :: 0 <= i < |records| ==>
              Reached(tree, records[i].path) && (records[i].directory <==> records[i].path in tree)
  {
    forall i | 0 <= i < |records|
      ensures Reached(tree, records[i].path)
    {
      assert PathsOf(records)[i] in PathsOf(records);
    }
  }

  lemma RecordedIsChild(records: seq<Record>, tree: Tree, p: string)
    requires Observed(records, tree) && ExactNamespace(records, tree)
    requires p in PathsOf(records) && p != ROOT
    ensures p in ChildPaths(records, tree)
  {
    assert Reached(tree, p);
    var depth: nat :| ReachedAt(tree, p, depth);
    var d, n := ReachedThrough(tree, p, depth);
    assert Reached(tree, d);
    ChildOfRecorded(records, tree, d, n);
  }
}
