/**
 The installed-package listing of native/management_service.py: selected rows in
 name order, with a colon form whose fields can be read back.
 */
module CatalogListing {
  import opened NiaCommon
  import opened Ordering
  import opened Text
  import opened CatalogQuery

  // ----- Escaping -----

  /** `v.replace('\\', '\\\\')`. */
  function DoubleBackslashes(s: string): string {
    if s == "" then "" else (if s[0] == '\\' then "\\\\" else [s[0]]) + DoubleBackslashes(s[1..])
  }

  /** `v.replace(':', '\\:')`. */
  function MarkColons(s: string): string {
    if s == "" then "" else (if s[0] == ':' then "\\:" else [s[0]]) + MarkColons(s[1..])
  }

  function Escape(s: string): string {
    MarkColons(DoubleBackslashes(s))
  }

  function EscapeAll(values: seq<string>): seq<string> {
    seq(|values|, i requires 0 <= i < |values| => Escape(values[i]))
  }

  /** `':'.join(...)` of the escaped values. */
  function ColonLine(values: seq<string>): string
    requires values != []
  {
    Join(EscapeAll(values), ':')
  }

  /** Reading a colon line back: a backslash protects the next character, a bare colon separates. */
  function Fields(line: string): (r: seq<string>)
    ensures r != []
    decreases |line|
  {
    if line == "" then [""]
    else if line[0] == '\\' && |line| >= 2 then Prefixed([line[1]], Fields(line[2..]))
    else if line[0] == ':' then [""] + Fields(line[1..])
    else Prefixed([line[0]], Fields(line[1..]))
  }

  function Prefixed(text: string, fields: seq<string>): seq<string>
    requires fields != []
  {
    [text + fields[0]] + fields[1..]
  }

  lemma {:induction false} MarkAppend(a: string, b: string)
    ensures MarkColons(a + b) == MarkColons(a) + MarkColons(b)
  {
    if a == "" {
      assert a + b == b;
    } else {
      assert (a + b)[1..] == a[1..] + b;
      MarkAppend(a[1..], b);
    }
  }

  function EscapedChar(c: char): string {
    if c == '\\' then "\\\\" else if c == ':' then "\\:" else [c]
  }

  lemma EscapeFirst(s: string)
    requires s != ""
    ensures Escape(s) == EscapedChar(s[0]) + Escape(s[1..])
  {
    var head := if s[0] == '\\' then "\\\\" else [s[0]];
    MarkAppend(head, DoubleBackslashes(s[1..]));
    assert "\\\\"[1..] == "\\" && "\\"[1..] == "";
    assert MarkColons("\\") == "\\" && MarkColons("\\\\") == "\\\\";
    assert [s[0]][1..] == "";
  }

  lemma FieldsFirst(c: char, rest: string)
    ensures Fields(EscapedChar(c) + rest) == Prefixed([c], Fields(rest))
  {
    var line := EscapedChar(c) + rest;
    if c == '\\' || c == ':' {
      assert line[2..] == rest;
    } else {
      assert line[1..] == rest;
    }
  }

  lemma PrefixedMore(c: char, text: string, fields: seq<string>)
    requires fields != []
    ensures Prefixed([c], Prefixed(text, fields)) == Prefixed([c] + text, fields)
    ensures Prefixed("", fields) == fields
  {
    assert [c] + (text + fields[0]) == [c] + text + fields[0];
    assert "" + fields[0] == fields[0];
  }

  lemma {:induction false} FieldsOfEscaped(s: string, rest: string)
    ensures Fields(Escape(s) + rest) == Prefixed(s, Fields(rest))
  {
    hide Fields, Escape, Prefixed, EscapedChar;
    if s == "" {
      EscapeNothing();
      assert "" + rest == rest;
      PrefixedMore(' ', "", Fields(rest));
    } else {
      EscapeFirst(s);
      assert Escape(s) + rest == EscapedChar(s[0]) + (Escape(s[1..]) + rest);
      FieldsFirst(s[0], Escape(s[1..]) + rest);
      FieldsOfEscaped(s[1..], rest);
      PrefixedMore(s[0], s[1..], Fields(rest));
      assert s == [s[0]] + s[1..];
    }
  }

  lemma EscapeNothing()
    ensures Escape("") == ""
  {
  }

  lemma FieldsAtColon(rest: string)
    ensures Fields(":" + rest) == [""] + Fields(rest)
  {
    assert (":" + rest)[1..] == rest;
  }

  /** A colon line read back gives its values, whatever characters they hold. */
  lemma {:induction false} FieldsInvertColonLine(values: seq<string>)
    requires values != []
    ensures Fields(ColonLine(values)) == values
  {
    hide Fields, Escape;
    var first := values[0];
    if |values| == 1 {
      FieldsOfEscaped(first, "");
      assert Escape(first) + "" == ColonLine(values);
      FieldsOfNothing();
      assert first + "" == first;
    } else {
      FieldsInvertColonLine(values[1..]);
      var rest := ColonLine(values[1..]);
      assert EscapeAll(values)[1..] == EscapeAll(values[1..]);
      FieldsOfEscaped(first, ":" + rest);
      assert ColonLine(values) == Escape(first) + (":" + rest);
      FieldsAtColon(rest);
      assert ([""] + values[1..])[1..] == values[1..] && first + "" == first;
    }
  }

  lemma FieldsOfNothing()
    ensures Fields("") == [""]
  {
  }

  // ----- Selection and order -----

  const ALL := ["*"]

  /** A pattern `selectors` admits. */
  predicate Selector(pattern: string) {
    |pattern| <= 256 && '/' !in pattern && '\\' !in pattern
  }

  /** `selectors`: no operands means every package. */
  method Selectors(operands: seq<string>) returns (r: Result<seq<string>>)
    ensures r.Ok? <==> |operands| <= 64 && forall p :: p in operands ==> Selector(p)
    ensures r.Ok? ==> r.value == if operands == [] then ALL else operands
    ensures r.Invalid? ==> r == Invalid("catalog-selector-limit")
  {
    var patterns := if operands == [] then ALL else operands;
    if |patterns| > 64 || exists i :: 0 <= i < |patterns| && !Selector(patterns[i]) {
      return Invalid("catalog-selector-limit");
    }
    assert |operands| == 0 ==> operands == [];
    return Ok(patterns);
  }

  /** `fnmatch.fnmatchcase(text, pattern)`. */
  type Matcher = (string, string) -> bool

  predicate Selected(p: Package, patterns: seq<string>, matches: Matcher) {
    exists i :: 0 <= i < |patterns| &&
      (matches(p.name, patterns[i]) || matches(p.name + ":" + p.architecture, patterns[i]))
  }

  predicate InOrder(rows: seq<Package>) {
    forall i, j :: 0 <= i < j < |rows| ==> !PairLess(IdentityOf(rows[j]), IdentityOf(rows[i]))
  }

  /** What `sorted(p for p in packages if any(...))` holds: the selected packages, each as often as
      it occurs, in name and architecture order. */
  ghost predicate RowsOf(rows: seq<Package>, packages: seq<Package>, patterns: seq<string>, matches: Matcher) {
    && InOrder(rows)
    && forall p :: multiset(rows)[p] == if Selected(p, patterns, matches) then multiset(packages)[p] else 0
  }

  method Place(rows: seq<Package>, p: Package) returns (r: seq<Package>)
    requires InOrder(rows)
    ensures InOrder(r) && multiset(r) == multiset(rows) + multiset{p}
  {
    PairOrder();
    var k := 0;
    while k < |rows| && !PairLess(IdentityOf(p), IdentityOf(rows[k]))
      invariant k <= |rows|
      invariant forall i :: 0 <= i < k ==> !PairLess(IdentityOf(p), IdentityOf(rows[i]))
    {
      k := k + 1;
    }
    r := rows[..k] + [p] + rows[k..];
    assert rows == rows[..k] + rows[k..];
    PlacedInOrder(rows, p, k);
  }

  lemma PlacedInOrder(rows: seq<Package>, p: Package, k: nat)
    requires StrictOrder(PairLess) && InOrder(rows) && k <= |rows|
    requires forall i :: 0 <= i < k ==> !PairLess(IdentityOf(p), IdentityOf(rows[i]))
    requires k < |rows| ==> PairLess(IdentityOf(p), IdentityOf(rows[k]))
    ensures InOrder(rows[..k] + [p] + rows[k..])
  {
    hide PairLess;
    var r := rows[..k] + [p] + rows[k..];
    forall i, j | 0 <= i < j < |r|
      ensures !PairLess(IdentityOf(r[j]), IdentityOf(r[i]))
    {
      var a := if i < k then rows[i] else if i == k then p else rows[i - 1];
      var b := if j < k then rows[j] else if j == k then p else rows[j - 1];
      assert r[i] == a && r[j] == b;
      if i == k {
        assert j - 1 > k ==> !PairLess(IdentityOf(rows[j - 1]), IdentityOf(rows[k]));
        assert PairLess(IdentityOf(p), IdentityOf(b)) || IdentityOf(p) == IdentityOf(b)
            || PairLess(IdentityOf(b), IdentityOf(p));
      }
    }
  }

  method SelectRows(packages: seq<Package>, patterns: seq<string>, matches: Matcher) returns (rows: seq<Package>)
    ensures RowsOf(rows, packages, patterns, matches)
  {
    hide Selected, InOrder;
    rows := [];
    NothingInOrder();
    TakeAll(packages);
    for i := 0 to |packages|
      invariant RowsOf(rows, packages[..i], patterns, matches)
    {
      TakeOneMore(packages, i);
      if Selected(packages[i], patterns, matches) {
        rows := Place(rows, packages[i]);
      }
    }
  }

  lemma NothingInOrder()
    ensures InOrder([])
  {
  }

  // ----- The text -----

  const HEADER := "#Fileset:Level:State:Architecture"

  function Values(p: Package): seq<string> {
    [p.name, p.version, "COMMITTED", p.architecture]
  }

  function ColonLines(rows: seq<Package>): seq<string> {
    seq(|rows|, i requires 0 <= i < |rows| => ColonLine(Values(rows[i])))
  }

  function TabLines(rows: seq<Package>): seq<string> {
    seq(|rows|, i requires 0 <= i < |rows| => Join(Values(rows[i]), '\t'))
  }

  /** Localised words of the plain form. */
  datatype Words = Words(heading: string, empty: string)

  function ListingLines(rows: seq<Package>, colon: bool, quiet: bool, words: Words): seq<string> {
    (if quiet then [] else if colon then [HEADER] else [words.heading])
    + if colon then ColonLines(rows) else TabLines(rows)
  }

  function ListingText(rows: seq<Package>, colon: bool, quiet: bool, words: Words): string {
    var lines := ListingLines(rows, colon, quiet, words);
    if lines == [] then words.empty else Join(lines, '\n')
  }

  /** What a request with these operands prints: the listing of the packages they select, or a refusal. */
  ghost predicate Presented(packages: seq<Package>, operands: seq<string>, matches: Matcher, rows: seq<Package>,
                            colon: bool, quiet: bool, words: Words, r: Result<string>)
  {
    && RowsOf(rows, packages, if operands == [] then ALL else operands, matches)
    && r == if rows == [] && operands != [] then Invalid("catalog-no-matching-fileset")
            else Ok(ListingText(rows, colon, quiet, words))
  }

  /** `selectors`, then `present`. */
  method Present(packages: seq<Package>, operands: seq<string>, matches: Matcher,
                 colon: bool, quiet: bool, words: Words)
    returns (r: Result<string>)
    ensures if |operands| <= 64 && (forall p :: p in operands ==> Selector(p))
            then exists rows :: Presented(packages, operands, matches, rows, colon, quiet, words, r)
            else r == Invalid("catalog-selector-limit")
  {
    hide RowsOf, ListingText, Selector;
    var patterns := Selectors(operands);
    if patterns.Invalid? { return Invalid("catalog-selector-limit"); }
    var selected := SelectRows(packages, patterns.value, matches);
    if selected == [] && operands != [] {
      r := Invalid("catalog-no-matching-fileset");
    } else {
      var text := WriteLines(selected, colon, quiet, words);
      r := Ok(text);
    }
    assert Presented(packages, operands, matches, selected, colon, quiet, words, r);
  }

  lemma NoLines()
    ensures ColonLines([]) == [] && TabLines([]) == []
  {
  }

  lemma LinesStep(rows: seq<Package>, i: nat)
    requires i < |rows|
    ensures ColonLines(rows[..i + 1]) == ColonLines(rows[..i]) + [ColonLine(Values(rows[i]))]
    ensures Values(rows[i]) != [] && TabLines(rows[..i + 1]) == TabLines(rows[..i]) + [Join(Values(rows[i]), '\t')]
  {
    hide ColonLine, Join;
    TakeOneMore(rows, i);
  }

  method WriteLines(rows: seq<Package>, colon: bool, quiet: bool, words: Words) returns (text: string)
    ensures text == ListingText(rows, colon, quiet, words)
  {
    hide ColonLine, ColonLines, TabLines, Join, Values;
    var lines: seq<string> := if quiet then [] else if colon then [HEADER] else [words.heading];
    ghost var head := lines;
    NoLines();
    for i := 0 to |rows|
      invariant lines == head + if colon then ColonLines(rows[..i]) else TabLines(rows[..i])
    {
      LinesStep(rows, i);
      ValuesSome(rows[i]);
      lines := lines + [if colon then ColonLine(Values(rows[i])) else Join(Values(rows[i]), '\t')];
    }
    assert rows[..0] == [] && rows[..|rows|] == rows;
    text := if lines == [] then words.empty else Join(lines, '\n');
  }

  // ----- Reading a colon listing back -----

  predicate Plain(s: string) {
    '\n' !in s
  }

  lemma {:induction false} DoubledPlain(s: string)
    requires Plain(s)
    ensures Plain(DoubleBackslashes(s))
  {
    if s != "" { DoubledPlain(s[1..]); }
  }

  lemma {:induction false} MarkedPlain(s: string)
    requires Plain(s)
    ensures Plain(MarkColons(s))
  {
    if s != "" { MarkedPlain(s[1..]); }
  }

  lemma {:induction false} JoinedPlain(parts: seq<string>)
    requires parts != [] && forall i :: 0 <= i < |parts| ==> Plain(parts[i])
    ensures Plain(Join(parts, ':'))
  {
    if |parts| > 1 { JoinedPlain(parts[1..]); }
  }

  lemma ColonLinePlain(p: Package)
    requires VisibleText(p.name) && VisibleText(p.version) && VisibleText(p.architecture)
    ensures Plain(ColonLine(Values(p)))
  {
    var values := Values(p);
    forall i | 0 <= i < |values|
      ensures Plain(EscapeAll(values)[i])
    {
      assert Plain(values[i]);
      DoubledPlain(values[i]);
      MarkedPlain(DoubleBackslashes(values[i]));
    }
    JoinedPlain(EscapeAll(values));
  }

  /** The listing splits into its lines, and every row line into the name, version, state and architecture. */
  lemma ListingParses(rows: seq<Package>, quiet: bool, words: Words)
    requires rows != [] && forall i :: 0 <= i < |rows| ==>
               VisibleText(rows[i].name) && VisibleText(rows[i].version) && VisibleText(rows[i].architecture)
    ensures var lines := Split(ListingText(rows, true, quiet, words), '\n');
            var body := if quiet then lines else lines[1..];
            && |body| == |rows| && (!quiet ==> lines[0] == HEADER)
            && forall i :: 0 <= i < |rows| ==>
                 Fields(body[i]) == [rows[i].name, rows[i].version, "COMMITTED", rows[i].architecture]
  {
    hide ColonLine, Fields, VisibleText;
    var lines := ListingLines(rows, true, quiet, words);
    assert Plain(HEADER);
    forall i | 0 <= i < |rows|
      ensures Plain(ColonLines(rows)[i]) && Fields(ColonLines(rows)[i]) == Values(rows[i])
    {
      ColonLinePlain(rows[i]);
      ValuesSome(rows[i]);
      FieldsInvertColonLine(Values(rows[i]));
    }
    assert forall i :: 0 <= i < |lines| ==> Plain(lines[i]);
    SplitJoin(lines, '\n');
  }

  lemma TabLineReads(p: Package)
    requires VisibleText(p.name) && VisibleText(p.version) && VisibleText(p.architecture)
    ensures Values(p) != [] && Plain(Join(Values(p), '\t'))
    ensures Split(Join(Values(p), '\t'), '\t') == [p.name, p.version, "COMMITTED", p.architecture]
  {
    hide Join, Split;
    JoinLacks(Values(p), '\t', '\n');
    SplitJoin(Values(p), '\t');
  }

  lemma TabLinesRead(rows: seq<Package>)
    requires forall i :: 0 <= i < |rows| ==>
               VisibleText(rows[i].name) && VisibleText(rows[i].version) && VisibleText(rows[i].architecture)
    ensures forall i :: 0 <= i < |rows| ==>
              Plain(TabLines(rows)[i])
              && Split(TabLines(rows)[i], '\t') == [rows[i].name, rows[i].version, "COMMITTED", rows[i].architecture]
  {
    hide Join, Split, Values, VisibleText;
    forall i | 0 <= i < |rows|
      ensures Plain(TabLines(rows)[i])
      ensures Split(TabLines(rows)[i], '\t') == [rows[i].name, rows[i].version, "COMMITTED", rows[i].architecture]
    {
      TabLineReads(rows[i]);
    }
  }

  /** The plain form splits into its lines too, and every row line at its tabs into the same four columns. */
  lemma PlainListingParses(rows: seq<Package>, quiet: bool, words: Words)
    requires rows != [] && Plain(words.heading) && forall i :: 0 <= i < |rows| ==>
               VisibleText(rows[i].name) && VisibleText(rows[i].version) && VisibleText(rows[i].architecture)
    ensures var lines := Split(ListingText(rows, false, quiet, words), '\n');
            var body := if quiet then lines else lines[1..];
            && |body| == |rows| && (!quiet ==> lines[0] == words.heading)
            && forall i :: 0 <= i < |rows| ==>
                 Split(body[i], '\t') == [rows[i].name, rows[i].version, "COMMITTED", rows[i].architecture]
  {
    hide Join, Split, VisibleText, TabLines, Plain;
    var lines := ListingLines(rows, false, quiet, words);
    TabLinesRead(rows);
    TabCount(rows);
    forall i | 0 <= i < |lines| ensures '\n' !in lines[i] {
      PlainLine(lines[i]);
    }
    SplitJoin(lines, '\n');
  }

  lemma TabCount(rows: seq<Package>)
    ensures |TabLines(rows)| == |rows|
  {
    hide Join, Values;
  }

  lemma PlainLine(s: string)
    ensures Plain(s) <==> '\n' !in s
  {
  }

  lemma ValuesSome(p: Package)
    ensures Values(p) != []
  {
  }
}
