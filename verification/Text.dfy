/** Splitting and joining text on a separator, as `str.split` and `str.join` do. */
module Text {

  function Split(s: string, c: char): (r: seq<string>)
    ensures |r| >= 1
    decreases |s|
  {
    var n := FieldLength(s, c);
    if n == |s| then [s] else [s[..n]] + Split(s[n + 1..], c)
  }

  /** Length of the text before the first separator. */
  function FieldLength(s: string, c: char): (n: nat)
    ensures n <= |s| && c !in s[..n] && (n < |s| ==> s[n] == c)
  {
    if s == "" || s[0] == c then 0 else 1 + FieldLength(s[1..], c)
  }

  function Join(parts: seq<string>, c: char): string
    requires parts != []
  {
    if |parts| == 1 then parts[0] else parts[0] + [c] + Join(parts[1..], c)
  }

  lemma {:induction false} FieldLengthIs(front: string, c: char, rest: string)
    requires c !in front
    ensures FieldLength(front + [c] + rest, c) == |front|
    ensures FieldLength(front, c) == |front|
  {
    if front != "" {
      assert (front + [c] + rest)[1..] == front[1..] + [c] + rest;
      FieldLengthIs(front[1..], c, rest);
    }
  }

  lemma {:induction false} SplitJoin(parts: seq<string>, c: char)
    requires parts != [] && forall i :: 0 <= i < |parts| ==> c !in parts[i]
    ensures Split(Join(parts, c), c) == parts
  {
    if |parts| == 1 {
      FieldLengthIs(parts[0], c, "");
    } else {
      var rest := Join(parts[1..], c);
      SplitJoin(parts[1..], c);
      FieldLengthIs(parts[0], c, rest);
      var s := parts[0] + [c] + rest;
      assert s[..|parts[0]|] == parts[0] && s[|parts[0]| + 1..] == rest;
    }
  }

  lemma {:induction false} JoinSplit(s: string, c: char)
    ensures Join(Split(s, c), c) == s
    decreases |s|
  {
    hide FieldLength, Join;
    var n := FieldLength(s, c);
    if n < |s| {
      JoinSplit(s[n + 1..], c);
      JoinMore(s[..n], Split(s[n + 1..], c), c);
      assert s == s[..n] + [c] + s[n + 1..];
    } else {
      JoinOne(s, c);
    }
  }

  lemma JoinOne(s: string, c: char)
    ensures Join([s], c) == s
  {
  }

  lemma JoinMore(first: string, parts: seq<string>, c: char)
    requires parts != []
    ensures Join([first] + parts, c) == first + [c] + Join(parts, c)
  {
    assert ([first] + parts)[1..] == parts;
  }

  lemma {:induction false} JoinLacks(parts: seq<string>, separator: char, c: char)
    requires parts != [] && c != separator && forall i :: 0 <= i < |parts| ==> c !in parts[i]
    ensures c !in Join(parts, separator)
  {
    if |parts| > 1 {
      JoinLacks(parts[1..], separator, c);
    }
  }

  /** White space, as `str.isspace` has it for one character. */
  predicate IsSpace(c: char) {
    var n := c as int;
    || 9 <= n <= 13 || 28 <= n <= 32 || n == 0x85 || n == 0xA0 || n == 0x1680
    || 0x2000 <= n <= 0x200A || n == 0x2028 || n == 0x2029 || n == 0x202F || n == 0x205F || n == 0x3000
  }
}
