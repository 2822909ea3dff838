/**
 The last pass of `tar_inventory` in tools/deb_archive.py: no file stands where a
 directory must, and every hard link is followed to the regular file it names, whose
 digest is written into the link's own record.
 */
module TarLinks {

  import opened NiaCommon
  import opened Text

  const DEPTH: nat := 64

  datatype Kind = Regular | Directory | Symlink | HardLink

  datatype Member = Member(path: string, kind: Kind, link: string, sha: string, resolved: Option<string>)

  type Names = map<string, nat>

  // ----- Where links lead -----

  ghost predicate Paths(names: Names, members: seq<Member>) {
    (forall p :: p in names ==> names[p] < |members| && members[names[p]].path == p)
    && (forall i :: 0 <= i < |members| ==> members[i].path in names && names[members[i].path] == i)
  }

  /** `target` leads to a regular file through exactly `d` further hard links. */
  ghost predicate LeadsTo(names: Names, members: seq<Member>, target: string, d: nat, file: nat)
    decreases d
  {
    target in names && names[target] < |members|
    && var m := members[names[target]];
       if d == 0 then m.kind == Regular && file == names[target]
       else m.kind == HardLink && LeadsTo(names, members, m.link, d - 1, file)
  }

  lemma {:induction false} LeadsUnique(names: Names, members: seq<Member>, target: string, d: nat, file: nat, e: nat,
                                       other: nat)
    requires LeadsTo(names, members, target, d, file) && LeadsTo(names, members, target, e, other)
    ensures d == e && file == other
    decreases d
  {
    if d > 0 && e > 0 {
      LeadsUnique(names, members, members[names[target]].link, d - 1, file, e - 1, other);
    }
  }

  /** The last pass succeeds on a link exactly when a regular file is within reach. */
  ghost predicate Resolves(names: Names, members: seq<Member>, link: string, sha: string) {
    exists d: nat, file: nat :: d < DEPTH && LeadsTo(names, members, link, d, file)
                               && file < |members| && members[file].sha == sha
  }

  lemma LeadsInside(names: Names, members: seq<Member>, target: string, d: nat, file: nat)
    requires LeadsTo(names, members, target, d, file)
    ensures file < |members| && members[file].kind == Regular
    decreases d
  {
    if d > 0 {
      LeadsInside(names, members, members[names[target]].link, d - 1, file);
    }
  }

  lemma ResolvesUnique(names: Names, members: seq<Member>, link: string, a: string, b: string)
    requires Resolves(names, members, link, a) && Resolves(names, members, link, b)
    ensures a == b
  {
    var d: nat, f: nat :| d < DEPTH && LeadsTo(names, members, link, d, f) && f < |members| && members[f].sha == a;
    var e: nat, g: nat :| e < DEPTH && LeadsTo(names, members, link, e, g) && g < |members| && members[g].sha == b;
    LeadsUnique(names, members, link, d, f, e, g);
  }

  /** Every name already visited is farther from a regular file than `target` is. */
  ghost predicate Behind(names: Names, members: seq<Member>, visited: set<string>, target: string) {
    forall v, d: nat, file: nat :: v in visited && LeadsTo(names, members, target, d, file) ==>
      Farther(names, members, v, d, file)
  }

  ghost predicate Farther(names: Names, members: seq<Member>, v: string, d: nat, file: nat) {
    exists e: nat :: e > d && LeadsTo(names, members, v, e, file)
  }

  /** So a revisited name leads nowhere: the cycle test refuses nothing that resolves. */
  lemma RevisitedIsLost(names: Names, members: seq<Member>, visited: set<string>, target: string, d: nat, file: nat)
    requires Behind(names, members, visited, target) && target in visited
    ensures !LeadsTo(names, members, target, d, file)
  {
    if LeadsTo(names, members, target, d, file) {
      assert Farther(names, members, target, d, file);
      var e: nat :| e > d && LeadsTo(names, members, target, e, file);
      LeadsUnique(names, members, target, d, file, e, file);
    }
  }

  lemma BehindNext(names: Names, members: seq<Member>, visited: set<string>, target: string)
    requires Behind(names, members, visited, target) && target in names && names[target] < |members|
    requires members[names[target]].kind == HardLink
    ensures Behind(names, members, visited + {target}, members[names[target]].link)
  {
    var next := members[names[target]].link;
    forall v, d: nat, file: nat | v in visited + {target} && LeadsTo(names, members, next, d, file)
      ensures Farther(names, members, v, d, file)
    {
      assert LeadsTo(names, members, target, d + 1, file);
      if v in visited {
        assert Farther(names, members, v, d + 1, file);
        var e: nat :| e > d + 1 && LeadsTo(names, members, v, e, file);
      }
    }
  }

  ghost predicate SameMember(a: Member, b: Member) {
    a.path == b.path && a.kind == b.kind && a.link == b.link && a.sha == b.sha
  }

  ghost predicate SameMembers(a: seq<Member>, b: seq<Member>) {
    |a| == |b| && forall i :: 0 <= i < |a| ==> SameMember(a[i], b[i])
  }

  /** Follows a hard link; it fails on a cycle, a missing name, another kind or too long a chain. */
  method Follow(entries: array<Member>, names: Names, i: nat, ghost members: seq<Member>) returns (r: Option<string>)
    requires SameMembers(entries[..], members) && Paths(names, members)
    requires i < entries.Length && entries[i].kind == HardLink
    ensures forall sha :: r == Some(sha) <==> Resolves(names, members, members[i].link, sha)
  {
    hide LeadsTo, Behind;
    ghost var link := members[i].link;
    assert SameMember(entries[i], members[i]);
    var target, visited := entries[i].link, {entries[i].path};
    StartBehind(names, members, i);
    var hops := 0;
    while hops < DEPTH
      invariant 0 <= hops <= DEPTH && Behind(names, members, visited, target)
      invariant forall d: nat, file: nat ::
                  (LeadsTo(names, members, link, d, file) <==>
                    d >= hops && LeadsTo(names, members, target, d - hops, file))
    {
      if target in visited || target !in names {
        Lost(names, members, visited, target);
        return None;
      }
      var k := names[target];
      assert SameMember(entries[k], members[k]);
      LeadsStep(names, members, target);
      if entries[k].kind == Regular {
        assert LeadsTo(names, members, link, hops, k);
        forall sha | Resolves(names, members, link, sha) ensures sha == members[k].sha {
          ResolvesUnique(names, members, link, sha, members[k].sha);
        }
        return Some(entries[k].sha);
      }
      if entries[k].kind != HardLink {
        return None;
      }
      BehindNext(names, members, visited, target);
      target, visited := entries[k].link, visited + {target};
      hops := hops + 1;
    }
    return None;
  }

  lemma StartBehind(names: Names, members: seq<Member>, i: nat)
    requires Paths(names, members) && i < |members| && members[i].kind == HardLink
    ensures Behind(names, members, {members[i].path}, members[i].link)
  {
    forall v, d: nat, file: nat | v in {members[i].path} && LeadsTo(names, members, members[i].link, d, file)
      ensures Farther(names, members, v, d, file)
    {
      assert LeadsTo(names, members, v, d + 1, file);
    }
  }

  lemma Lost(names: Names, members: seq<Member>, visited: set<string>, target: string)
    requires Behind(names, members, visited, target) && (target in visited || target !in names)
    ensures forall d: nat, file: nat :: !LeadsTo(names, members, target, d, file)
  {
    forall d: nat, file: nat ensures !LeadsTo(names, members, target, d, file) {
      if target in visited {
        RevisitedIsLost(names, members, visited, target, d, file);
      }
    }
  }

  lemma LeadsStep(names: Names, members: seq<Member>, target: string)
    requires target in names && names[target] < |members|
    ensures var m := members[names[target]];
            forall d: nat, file: nat :: LeadsTo(names, members, target, d, file) <==>
              if d == 0 then m.kind == Regular && file == names[target]
              else m.kind == HardLink && LeadsTo(names, members, m.link, d - 1, file)
  {
  }

  // ----- Ancestors -----

  /** `q` lies below `p`. */
  predicate Under(p: string, q: string) {
    |p| < |q| && q[..|p|] == p && q[|p|] == '/'
  }

  /** `'/'.join(q.split('/')[:n])`. */
  function Ancestor(q: string, n: nat): string
    requires 1 <= n <= |Split(q, '/')|
  {
    Join(Split(q, '/')[..n], '/')
  }

  lemma JoinMore(first: string, rest: seq<string>)
    requires rest != []
    ensures Join([first] + rest, '/') == first + "/" + Join(rest, '/')
  {
    var parts := [first] + rest;
    assert parts[1..] == rest;
  }

  /** The ancestors the pass looks at are exactly the paths that `q` lies below. */
  lemma {:induction false} AncestorIsAbove(q: string, n: nat)
    requires 1 <= n < |Split(q, '/')|
    ensures Under(Ancestor(q, n), q)
    decreases |q|
  {
    var f := FieldLength(q, '/');
    var rest := q[f + 1..];
    assert Split(q, '/') == [q[..f]] + Split(rest, '/');
    if n == 1 {
      assert Split(q, '/')[..1] == [q[..f]];
    } else {
      assert Split(q, '/')[..n] == [q[..f]] + Split(rest, '/')[..n - 1];
      JoinMore(q[..f], Split(rest, '/')[..n - 1]);
      AncestorIsAbove(rest, n - 1);
      Deeper(q, f, Ancestor(rest, n - 1));
    }
  }

  lemma Deeper(q: string, f: nat, p: string)
    requires f < |q| && q[f] == '/' && Under(p, q[f + 1..])
    ensures Under(q[..f] + "/" + p, q)
  {
    var rest := q[f + 1..];
    assert q == q[..f] + "/" + rest;
    assert rest == p + rest[|p|..];
    assert q == (q[..f] + "/" + p) + rest[|p|..];
  }

  lemma FirstSlash(p: string, q: string, f: nat)
    requires Under(p, q) && f <= |q| && '/' !in q[..f] && (f < |q| ==> q[f] == '/')
    ensures f <= |p|
    ensures |p| == f ==> p == q[..f]
    ensures |p| > f ==> p == q[..f] + "/" + p[f + 1..] && Under(p[f + 1..], q[f + 1..])
  {
    assert q[|p|] == '/' && forall k :: 0 <= k < f ==> q[k] == q[..f][k];
    if |p| > f {
      assert p[f] == q[f];
      assert p[..f] == q[..f];
      assert q[f + 1..][..|p| - f - 1] == p[f + 1..];
    }
  }

  lemma SplitAt(q: string, f: nat)
    requires f == FieldLength(q, '/') < |q|
    ensures Split(q, '/') == [q[..f]] + Split(q[f + 1..], '/')
  {
  }

  lemma {:induction false} AboveIsAncestor(p: string, q: string) returns (n: nat)
    requires Under(p, q)
    ensures 1 <= n < |Split(q, '/')| && Ancestor(q, n) == p
    decreases |q|
  {
    hide Join, FieldLength, Split;
    var f := FieldLength(q, '/');
    FirstSlash(p, q, f);
    var rest := q[f + 1..];
    SplitAt(q, f);
    if |p| == f {
      n := 1;
      assert Split(q, '/')[..1] == [q[..f]];
      JoinOne(q[..f], '/');
    } else {
      var below := p[f + 1..];
      var m := AboveIsAncestor(below, rest);
      n := m + 1;
      assert Split(q, '/')[..n] == [q[..f]] + Split(rest, '/')[..m];
      JoinMore(q[..f], Split(rest, '/')[..m]);
    }
  }

  ghost predicate AncestorsFit(names: Names, members: seq<Member>, q: string) {
    forall p :: p in names && names[p] < |members| && Under(p, q) ==> members[names[p]].kind == Directory
  }

  method CheckAncestors(entries: array<Member>, names: Names, i: nat, ghost members: seq<Member>) returns (ok: bool)
    requires SameMembers(entries[..], members) && Paths(names, members) && i < entries.Length
    ensures ok <==> AncestorsFit(names, members, members[i].path)
  {
    assert SameMember(entries[i], members[i]);
    var q := entries[i].path;
    var bits := Split(q, '/');
    for n := 1 to |bits|
      invariant forall k :: 1 <= k < n ==>
                  Ancestor(q, k) in names ==> members[names[Ancestor(q, k)]].kind == Directory
    {
      var parent := Join(bits[..n], '/');
      assert parent == Ancestor(q, n);
      if parent in names {
        assert SameMember(entries[names[parent]], members[names[parent]]);
        if entries[names[parent]].kind != Directory {
          AncestorIsAbove(q, n);
          return false;
        }
      }
    }
    forall p | p in names && Under(p, q)
      ensures members[names[p]].kind == Directory
    {
      var n := AboveIsAncestor(p, q);
    }
    return true;
  }

  // ----- The pass -----

  /** Files below directories only, and every hard link within reach of a regular file. */
  ghost predicate EntryFits(names: Names, members: seq<Member>, i: nat)
    requires i < |members|
  {
    AncestorsFit(names, members, members[i].path)
    && (members[i].kind == HardLink ==> exists sha :: Resolves(names, members, members[i].link, sha))
  }

  /** A link gets the digest of the file it resolves to; nothing else changes. */
  ghost predicate Resolved(names: Names, members: seq<Member>, i: nat, after: Member)
    requires i < |members|
  {
    SameMember(after, members[i])
    && if members[i].kind == HardLink then
         after.resolved.Some? && Resolves(names, members, members[i].link, after.resolved.value)
       else after.resolved == members[i].resolved
  }

  method CheckEntry(entries: array<Member>, names: Names, i: nat, ghost members: seq<Member>) returns (ok: bool)
    requires SameMembers(entries[..], members) && Paths(names, members) && i < entries.Length
    requires entries[i] == members[i]
    modifies entries
    ensures ok <==> EntryFits(names, members, i)
    ensures entries[..] == old(entries[..])[i := entries[i]]
    ensures ok ==> Resolved(names, members, i, entries[i])
    ensures SameMember(entries[i], members[i])
  {
    hide AncestorsFit, Resolves, Paths;
    ok := CheckAncestors(entries, names, i, members);
    if !ok {
      return;
    }
    if entries[i].kind == HardLink {
      var sha := Follow(entries, names, i, members);
      if sha.None? {
        return false;
      }
      entries[i] := entries[i].(resolved := sha);
    }
  }

  /** `byname`, over paths the reading loop has already found distinct. */
  method ByName(entries: array<Member>) returns (names: Names)
    requires forall i, j :: 0 <= i < j < entries.Length ==> entries[i].path != entries[j].path
    ensures Paths(names, entries[..])
  {
    names := map[];
    for i := 0 to entries.Length
      invariant forall p :: p in names ==> names[p] < i && entries[names[p]].path == p
      invariant forall k :: 0 <= k < i ==> entries[k].path in names && names[entries[k].path] == k
    {
      names := names[entries[i].path := i];
    }
  }

  /** The whole pass, in place: accepted exactly when every entry fits, and then every link is resolved. */
  method ResolveLinks(entries: array<Member>, names: Names) returns (ok: bool)
    requires Paths(names, entries[..])
    modifies entries
    ensures ok <==> forall i :: 0 <= i < entries.Length ==> EntryFits(names, old(entries[..]), i)
    ensures ok ==> forall i :: 0 <= i < entries.Length ==> Resolved(names, old(entries[..]), i, entries[i])
  {
    hide EntryFits, Paths, Resolved;
    ghost var members := entries[..];
    for i := 0 to entries.Length
      invariant SameMembers(entries[..], members)
      invariant forall k :: i <= k < entries.Length ==> entries[k] == members[k]
      invariant forall k :: 0 <= k < i ==> EntryFits(names, members, k) && Resolved(names, members, k, entries[k])
    {
      ghost var before := entries[..];
      ok := CheckEntry(entries, names, i, members);
      if !ok {
        return;
      }
      assert forall k :: 0 <= k < entries.Length && k != i ==> entries[..][k] == before[k];
    }
    return true;
  }
}
