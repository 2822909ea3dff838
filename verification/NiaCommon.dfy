/**
 Shared value types of the Python tools: an absent value, and the outcome of a
 call that either returns or raises `Invalid` with a reason.
 */
module NiaCommon {

  datatype Option<+T> = None | Some(value: T)

  datatype Result<+T> = Ok(value: T) | Invalid(reason: string) {
    predicate IsFailure() {
      Invalid?
    }

    function PropagateFailure<U>(): Result<U>
      requires Invalid?
    {
      Invalid(reason)
    }

    function Extract(): T
      requires Ok?
    {
      value
    }
  }

  function Sign(n: int): int {
    if n < 0 then -1 else if n > 0 then 1 else 0
  }

  function Power10(n: nat): (p: nat)
    ensures p > 0
  {
    if n == 0 then 1 else 10 * Power10(n - 1)
  }

  lemma {:induction false} PowerMonotone(m: nat, n: nat)
    requires m <= n
    ensures Power10(m) <= Power10(n)
    decreases n - m
  {
    if m < n { PowerMonotone(m, n - 1); }
  }

  /** The elements of a sequence, as the language's `set(...)`. */
  ghost function Elements<T>(s: seq<T>): set<T> {
    set x | x in s
  }

  ghost predicate Distinct<T>(s: seq<T>) {
    forall i, j :: 0 <= i < j < |s| ==> s[i] != s[j]
  }

  lemma DistinctCardinality<T>(s: seq<T>)
    requires Distinct(s)
    ensures |Elements(s)| == |s|
  {
    if s != [] {
      var rest := s[..|s| - 1];
      assert Elements(s) == Elements(rest) + {s[|s| - 1]};
      DistinctCardinality(rest);
    }
  }

  lemma {:induction false} DistinctExactly<T>(s: seq<T>)
    ensures |Elements(s)| <= |s|
    ensures |Elements(s)| == |s| <==> Distinct(s)
  {
    if s != [] {
      var front, last := s[..|s| - 1], s[|s| - 1];
      DistinctExactly(front);
      assert s == front + [last];
      assert Elements(s) == Elements(front) + {last};
      assert last in front <==> last in Elements(front);
      if last in front {
        assert Elements(s) == Elements(front);
        var i :| 0 <= i < |front| && front[i] == last;
        assert s[i] == s[|s| - 1];
      } else if Distinct(front) {
        assert Distinct(s);
      } else {
        var i, j :| 0 <= i < j < |front| && front[i] == front[j];
        assert s[i] == s[j];
      }
    }
  }

  lemma SubsetCardinality<T>(a: set<T>, b: set<T>)
    requires a <= b
    ensures |a| <= |b|
    ensures |a| == |b| ==> a == b
  {
    assert b == a + (b - a);
    assert |b| == |a| + |b - a|;
  }

  lemma TakeOneMore<T>(s: seq<T>, i: nat)
    requires i < |s|
    ensures s[..i + 1] == s[..i] + [s[i]]
  {
  }

  lemma TakeAll<T>(s: seq<T>)
    ensures s[..|s|] == s && s[..0] == []
  {
  }
}
