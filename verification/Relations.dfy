/**
 The relation-field parser `relations` of tools/debian_semantics.py (section 7.1 of
 the Debian Policy Manual): comma-separated groups of alternatives, each a package
 name with an optional architecture and an optional version in parentheses.
 */
module Relations {

  import opened NiaCommon
  import opened Text
  import opened DebianVersion
  import opened FinalSet

  const MAX_TEXT: nat := 65536
  const MAX_ATOMS: nat := 1024

  // ----- One item -----

  predicate NameChar(c: char) {
    'a' <= c <= 'z' || '0' <= c <= '9' || c in "+.-"
  }

  predicate PackageName(s: string) {
    |s| >= 2 && s[0] !in "+.-" && forall i :: 0 <= i < |s| ==> NameChar(s[i])
  }

  predicate VersionChar(c: char) {
    c != '(' && c != ')' && !IsSpace(c)
  }

  /** Length of the leading run of characters that satisfy a test. */
  function Run(s: string, test: char -> bool): (n: nat)
    ensures n <= |s| && (n < |s| ==> !test(s[n])) && forall i :: 0 <= i < n ==> test(s[i])
  {
    if s == "" || !test(s[0]) then 0 else 1 + Run(s[1..], test)
  }

  function SkipSpace(s: string): (r: string)
    ensures r == "" || !IsSpace(r[0])
  {
    if s != "" && IsSpace(s[0]) then SkipSpace(s[1..]) else s
  }

  function StripRight(s: string): (r: string)
    ensures r == "" || !IsSpace(r[|r| - 1])
  {
    if s != "" && IsSpace(s[|s| - 1]) then StripRight(s[..|s| - 1]) else s
  }

  /** `str.strip`. */
  function Strip(s: string): string {
    StripRight(SkipSpace(s))
  }

  predicate StartsWith(s: string, p: string) {
    |p| <= |s| && s[..|p|] == p
  }

  function ArchitectureOf(s: string): (Qualifier, string) {
    if StartsWith(s, ":any") then (AnyArchitecture, s[4..])
    else if StartsWith(s, ":native") then (Native, s[7..])
    else if StartsWith(s, ":amd64") then (Amd64, s[6..])
    else (Unqualified, s)
  }

  function OperatorOf(s: string): (r: Option<(Operator, string)>)
    ensures r.Some? ==> r.value.0 != NoOperator
  {
    if StartsWith(s, "<<") then Some((Earlier, s[2..]))
    else if StartsWith(s, "<=") then Some((EarlierEqual, s[2..]))
    else if StartsWith(s, "=") then Some((Exactly, s[1..]))
    else if StartsWith(s, ">=") then Some((LaterEqual, s[2..]))
    else if StartsWith(s, ">>") then Some((Later, s[2..]))
    else None
  }

  /** The parenthesised version after its opening parenthesis, to the end of the item. */
  function VersionOf(s: string): Option<(Operator, string)> {
    match OperatorOf(SkipSpace(s))
    case None => None
    case Some(pair) =>
      var text := SkipSpace(pair.1);
      var n := Run(text, VersionChar);
      var tail := SkipSpace(text[n..]);
      if n == 0 || tail == "" || tail[0] != ')' || SkipSpace(tail[1..]) != "" then None
      else Some((pair.0, text[..n]))
  }

  /** The pattern of one item, matched against the whole of it. */
  function AtomOf(item: string): Option<Atom> {
    var n := Run(item, NameChar);
    var name := item[..n];
    var (architecture, rest) := ArchitectureOf(item[n..]);
    var body := SkipSpace(rest);
    if !PackageName(name) then None
    else if body == "" then Some(Atom(name, architecture, NoOperator, ""))
    else if body[0] != '(' then None
    else match VersionOf(body[1..])
      case None => None
      case Some(pair) => Some(Atom(name, architecture, pair.0, pair.1))
  }

  /** An item of a field, with the tests that follow the pattern. */
  function ItemOf(item: string, providing: bool): Option<Atom> {
    match AtomOf(Strip(item))
    case None => None
    case Some(a) =>
      if providing && (a.architecture != Unqualified || (a.operator != NoOperator && a.operator != Exactly)) then None
      else if a.version != "" && !ValidVersion(a.version) then None
      else Some(a)
  }

  // ----- A field -----

  function ItemsOf(items: seq<string>, providing: bool): (r: Option<seq<Atom>>)
    ensures r.Some? ==> |r.value| == |items|
  {
    if items == [] then Some([])
    else match ItemsOf(items[..|items| - 1], providing)
      case None => None
      case Some(front) => match ItemOf(items[|items| - 1], providing)
        case None => None
        case Some(a) => Some(front + [a])
  }

  function GroupOf(text: string, providing: bool, single: bool): Option<seq<Atom>> {
    match ItemsOf(Split(text, '|'), providing)
    case None => None
    case Some(atoms) => if single && |atoms| != 1 then None else Some(atoms)
  }

  function GroupsOf(texts: seq<string>, providing: bool, single: bool): Option<Groups> {
    if texts == [] then Some([])
    else match GroupsOf(texts[..|texts| - 1], providing, single)
      case None => None
      case Some(front) => match GroupOf(texts[|texts| - 1], providing, single)
        case None => None
        case Some(atoms) => Some(front + [atoms])
  }

  function Count(groups: Groups): nat {
    if groups == [] then 0 else Count(groups[..|groups| - 1]) + |groups[|groups| - 1]|
  }

  /** What a field means, if it is accepted at all. */
  function Meaning(value: string, providing: bool, alternatives: bool): Option<Groups> {
    if |value| > MAX_TEXT then None
    else if Strip(value) == "" then Some([])
    else match GroupsOf(Split(value, ','), providing, providing || !alternatives)
      case None => None
      case Some(groups) => if Count(groups) > MAX_ATOMS then None else Some(groups)
  }

  method ParseItems(items: seq<string>, providing: bool, before: nat) returns (atoms: Option<seq<Atom>>)
    requires before <= MAX_ATOMS
    ensures match ItemsOf(items, providing)
            case None => atoms == None
            case Some(all) => atoms == if before + |all| <= MAX_ATOMS then Some(all) else None
  {
    hide ItemOf;
    var read: seq<Atom> := [];
    TakeAll(items);
    for i := 0 to |items|
      invariant ItemsOf(items[..i], providing) == Some(read) && before + |read| <= MAX_ATOMS
    {
      TakeOneMore(items, i);
      ItemsStep(items, i, providing);
      var atom := ItemOf(items[i], providing);
      if atom.None? {
        return None;
      }
      read := read + [atom.value];
      if before + |read| > MAX_ATOMS {
        return None;
      }
    }
    return Some(read);
  }

  /** One item more; an item that fails makes the whole list fail. */
  lemma ItemsStep(items: seq<string>, i: nat, providing: bool)
    requires i < |items| && ItemsOf(items[..i], providing).Some?
    ensures var read, atom := ItemsOf(items[..i], providing).value, ItemOf(items[i], providing);
            ItemsOf(items[..i + 1], providing) == if atom.Some? then Some(read + [atom.value]) else None
    ensures ItemOf(items[i], providing).None? ==> ItemsOf(items, providing) == None
    ensures ItemsOf(items, providing).Some? ==> |ItemsOf(items, providing).value| == |items| >= i + 1
  {
    hide ItemOf;
    assert items[..i + 1][..i] == items[..i];
    if ItemOf(items[i], providing).None? {
      ItemsFail(items, i + 1, providing);
    }
  }

  lemma {:induction false} ItemsFail(items: seq<string>, n: nat, providing: bool)
    requires n <= |items| && ItemsOf(items[..n], providing) == None
    ensures ItemsOf(items, providing) == None
    decreases |items| - n
  {
    hide ItemOf;
    if n == |items| {
      TakeAll(items);
    } else {
      assert items[..n + 1][..n] == items[..n];
      ItemsFail(items, n + 1, providing);
    }
  }

  /** `relations`: it returns exactly what the field means, and raises on everything else. */
  method Parse(value: string, providing: bool, alternatives: bool) returns (r: Result<Groups>)
    ensures match Meaning(value, providing, alternatives)
            case None => r.Invalid?
            case Some(groups) => r == Ok(groups)
  {
    hide GroupOf, Count, Strip;
    if |value| > MAX_TEXT {
      return Invalid("relation size");
    }
    if Strip(value) == "" {
      return Ok([]);
    }
    r := ParseGroups(Split(value, ','), providing, providing || !alternatives);
  }

  /** One group, unless an item is refused, or there are too many of them in all or for the field. */
  method ParseGroup(text: string, providing: bool, single: bool, before: nat) returns (atoms: Option<seq<Atom>>)
    requires before <= MAX_ATOMS
    ensures match GroupOf(text, providing, single)
            case None => atoms == None
            case Some(all) => atoms == if before + |all| <= MAX_ATOMS then Some(all) else None
  {
    hide ItemsOf;
    atoms := ParseItems(Split(text, '|'), providing, before);
    if atoms.Some? && single && |atoms.value| != 1 {
      return None;
    }
  }

  method ParseGroups(texts: seq<string>, providing: bool, single: bool) returns (r: Result<Groups>)
    ensures match GroupsOf(texts, providing, single)
            case None => r.Invalid?
            case Some(groups) => if Count(groups) > MAX_ATOMS then r.Invalid? else r == Ok(groups)
  {
    hide GroupsOf, GroupOf, Count;
    var groups: Groups, total := [], 0;
    NoGroups(providing, single);
    TakeAll(texts);
    for i := 0 to |texts|
      invariant GroupsOf(texts[..i], providing, single) == Some(groups)
      invariant total == Count(groups) <= MAX_ATOMS
    {
      TakeOneMore(texts, i);
      GroupsStep(texts, i, providing, single);
      var atoms := ParseGroup(texts[i], providing, single, total);
      if atoms.None? {
        return Invalid("unsupported or invalid binary relationship, or too many");
      }
      CountOneMore(groups, atoms.value);
      groups, total := groups + [atoms.value], total + |atoms.value|;
    }
    return Ok(groups);
  }

  lemma NoGroups(providing: bool, single: bool)
    ensures GroupsOf([], providing, single) == Some([]) && Count([]) == 0
  {
  }

  lemma CountOneMore(groups: Groups, atoms: seq<Atom>)
    ensures Count(groups + [atoms]) == Count(groups) + |atoms|
  {
    assert (groups + [atoms])[..|groups|] == groups;
  }

  lemma GroupsStep(texts: seq<string>, i: nat, providing: bool, single: bool)
    requires i < |texts| && GroupsOf(texts[..i], providing, single).Some?
    ensures var read, atoms := GroupsOf(texts[..i], providing, single).value, GroupOf(texts[i], providing, single);
            GroupsOf(texts[..i + 1], providing, single) == if atoms.Some? then Some(read + [atoms.value]) else None
    ensures GroupOf(texts[i], providing, single).None? ==> GroupsOf(texts, providing, single) == None
    ensures GroupOf(texts[i], providing, single).Some? && GroupsOf(texts, providing, single).Some? ==>
              Count(GroupsOf(texts, providing, single).value)
                >= Count(GroupsOf(texts[..i], providing, single).value) + |GroupOf(texts[i], providing, single).value|
  {
    hide GroupOf;
    assert texts[..i + 1][..i] == texts[..i];
    GroupsAfter(texts, i + 1, providing, single);
  }

  lemma {:induction false} GroupsAfter(texts: seq<string>, n: nat, providing: bool, single: bool)
    requires n <= |texts|
    ensures GroupsOf(texts[..n], providing, single) == None ==> GroupsOf(texts, providing, single) == None
    ensures GroupsOf(texts[..n], providing, single).Some? && GroupsOf(texts, providing, single).Some? ==>
              Count(GroupsOf(texts[..n], providing, single).value) <= Count(GroupsOf(texts, providing, single).value)
    decreases |texts| - n
  {
    hide GroupOf;
    if n == |texts| {
      TakeAll(texts);
    } else {
      assert texts[..n + 1][..n] == texts[..n];
      GroupsAfter(texts, n + 1, providing, single);
    }
  }

  // ----- The printer -----

  function ArchitectureText(q: Qualifier): string {
    match q
    case Unqualified => ""
    case AnyArchitecture => ":any"
    case Native => ":native"
    case Amd64 => ":amd64"
  }

  function OperatorText(o: Operator): string {
    match o
    case NoOperator => ""
    case Earlier => "<<"
    case EarlierEqual => "<="
    case Exactly => "="
    case LaterEqual => ">="
    case Later => ">>"
  }

  /** The white space inside an atom, which the pattern allows anywhere around its version. */
  datatype Gaps = Gaps(before: string, inner: string, middle: string, end: string)

  ghost predicate Spaces(s: string) {
    forall i :: 0 <= i < |s| ==> IsSpace(s[i])
  }

  ghost predicate GapsValid(g: Gaps) {
    Spaces(g.before) && Spaces(g.inner) && Spaces(g.middle) && Spaces(g.end)
  }

  function Inside(o: Operator, v: string, g: Gaps): string {
    g.inner + OperatorText(o) + g.middle + v + g.end + ")"
  }

  function VersionSuffix(a: Atom, g: Gaps): string {
    if a.operator == NoOperator then "" else g.before + "(" + Inside(a.operator, a.version, g)
  }

  function AtomText(a: Atom, g: Gaps): string {
    a.name + ArchitectureText(a.architecture) + VersionSuffix(a, g)
  }

  /** An atom a field may hold. */
  predicate AtomValid(a: Atom) {
    PackageName(a.name) && if a.operator == NoOperator then a.version == "" else ValidVersion(a.version)
  }

  /** An atom as the pattern alone leaves it. */
  predicate AtomShaped(a: Atom) {
    PackageName(a.name)
    && if a.operator == NoOperator then a.version == ""
       else a.version != "" && forall i :: 0 <= i < |a.version| ==> VersionChar(a.version[i])
  }

  /** The text of an atom with any white space in it and around it. */
  ghost predicate Dressed(text: string, a: Atom) {
    exists l, g, r :: Spaces(l) && GapsValid(g) && Spaces(r) && text == l + AtomText(a, g) + r
  }

  lemma {:induction false} RunIs(front: string, tail: string, test: char -> bool)
    requires (forall i :: 0 <= i < |front| ==> test(front[i])) && (tail == "" || !test(tail[0]))
    ensures Run(front + tail, test) == |front|
    ensures (front + tail)[..|front|] == front && (front + tail)[|front|..] == tail
  {
    if front == "" {
      assert front + tail == tail;
    } else {
      assert (front + tail)[1..] == front[1..] + tail;
      RunIs(front[1..], tail, test);
    }
  }

  lemma ArchitectureReads(q: Qualifier, tail: string)
    requires tail == "" || IsSpace(tail[0]) || tail[0] == '('
    ensures ArchitectureOf(ArchitectureText(q) + tail) == (q, tail)
  {
    var text := ArchitectureText(q);
    var s := text + tail;
    assert s[..|text|] == text && s[|text|..] == tail;
    assert q == Unqualified ==> s == tail;
    assert q != Unqualified ==> s[0] == ':' && s[1] == text[1] && s[2] == text[2];
    assert StartsWith(s, ":any") ==> s[0] == ':' && s[1] == 'a' && s[2] == 'n';
    assert StartsWith(s, ":native") ==> s[0] == ':' && s[1] == 'n';
    assert StartsWith(s, ":amd64") ==> s[0] == ':' && s[1] == 'a' && s[2] == 'm';
  }

  lemma ArchitectureIs(s: string)
    ensures s == ArchitectureText(ArchitectureOf(s).0) + ArchitectureOf(s).1
  {
  }

  lemma OperatorReads(o: Operator, tail: string)
    requires o != NoOperator
    ensures OperatorOf(OperatorText(o) + tail) == Some((o, tail))
  {
    var text := OperatorText(o);
    var s := text + tail;
    assert s[..|text|] == text && s[|text|..] == tail;
    assert s[0] == text[0] && (|text| == 2 ==> s[1] == text[1]);
    assert StartsWith(s, "<<") ==> s[0] == '<' && s[1] == '<';
    assert StartsWith(s, "<=") ==> s[0] == '<' && s[1] == '=';
    assert StartsWith(s, "=") ==> s[0] == '=';
    assert StartsWith(s, ">=") ==> s[0] == '>' && s[1] == '=';
    assert StartsWith(s, ">>") ==> s[0] == '>' && s[1] == '>';
  }

  lemma OperatorIs(s: string)
    requires OperatorOf(s).Some?
    ensures s == OperatorText(OperatorOf(s).value.0) + OperatorOf(s).value.1
  {
  }

  /** A version has none of the characters that delimit it. */
  lemma VersionText(v: string)
    requires ValidVersion(v)
    ensures v != "" && forall i :: 0 <= i < |v| ==> VersionChar(v[i]) && v[i] != ',' && v[i] != '|'
  {
    hide IsSpace, RestSyntax;
    PlainVersion(v);
    forall i | 0 <= i < |v|
      ensures VersionChar(v[i]) && v[i] != ',' && v[i] != '|'
    {
      RestIsText(v[i]);
    }
  }

  lemma PlainVersion(v: string)
    requires ValidVersion(v)
    ensures v != "" && forall i :: 0 <= i < |v| ==> RestChar(v[i])
  {
    hide SplitRest, Value, Canonical;
    if HasEpoch(v) {
      var n := DigitRun(v);
      var rest := v[n + 1..];
      assert forall i :: 0 <= i < n ==> v[..n][i] == v[i];
      assert forall i :: n < i < |v| ==> v[i] == rest[i - n - 1];
    }
  }

  lemma RestIsText(c: char)
    requires RestChar(c)
    ensures VersionChar(c) && c != ',' && c != '|'
  {
  }

  lemma {:induction false} SkipSpaces(l: string, s: string)
    requires Spaces(l)
    ensures SkipSpace(l + s) == SkipSpace(s)
  {
    if l == "" {
      assert l + s == s;
    } else {
      assert (l + s)[1..] == l[1..] + s;
      SkipSpaces(l[1..], s);
    }
  }

  lemma SkipNone(s: string)
    requires s == "" || !IsSpace(s[0])
    ensures SkipSpace(s) == s
  {
  }

  lemma SkipTo(l: string, s: string)
    requires Spaces(l) && (s == "" || !IsSpace(s[0]))
    ensures SkipSpace(l + s) == s
  {
    SkipSpaces(l, s);
    SkipNone(s);
  }

  /** What is skipped is white space. */
  lemma {:induction false} Skipped(s: string) returns (l: string)
    ensures Spaces(l) && s == l + SkipSpace(s)
  {
    if s != "" && IsSpace(s[0]) {
      var rest := Skipped(s[1..]);
      l := [s[0]] + rest;
      assert s == [s[0]] + s[1..];
    } else {
      l := "";
    }
  }

  lemma OperatorStarts(o: Operator, tail: string)
    requires o != NoOperator
    ensures OperatorText(o) + tail != "" && !IsSpace((OperatorText(o) + tail)[0])
  {
  }

  lemma VersionReads(o: Operator, v: string, g: Gaps)
    requires o != NoOperator && GapsValid(g) && v != "" && forall i :: 0 <= i < |v| ==> VersionChar(v[i])
    ensures VersionOf(Inside(o, v, g)) == Some((o, v))
  {
    hide OperatorOf, OperatorText, Run, SkipSpace, IsSpace, Spaces;
    var tail := g.end + ")";
    var after := g.middle + (v + tail);
    OperatorStarts(o, after);
    OperatorReads(o, after);
    assert Inside(o, v, g) == g.inner + (OperatorText(o) + after);
    SkipTo(g.inner, OperatorText(o) + after);
    assert VersionChar(v[0]) && (v + tail)[0] == v[0];
    SkipTo(g.middle, v + tail);
    EndOfVersion(g.end);
    RunIs(v, tail, VersionChar);
    SkipTo(g.end, ")");
    assert ")"[1..] == "";
    SkipNone("");
  }

  lemma EndOfVersion(end: string)
    requires Spaces(end)
    ensures var tail := end + ")"; tail != "" && !VersionChar(tail[0]) && !IsSpace(")"[0])
  {
  }

  lemma VersionParts(s: string)
    requires VersionOf(s).Some?
    ensures var operator := OperatorOf(SkipSpace(s));
            operator.Some?
            && var text := SkipSpace(operator.value.1);
               var n := Run(text, VersionChar);
               var tail := SkipSpace(text[n..]);
               && 0 < n <= |text| && tail != "" && tail[0] == ')' && SkipSpace(tail[1..]) == ""
               && VersionOf(s).value == (operator.value.0, text[..n])
  {
    hide OperatorOf, Run, SkipSpace;
  }

  /** What the parenthesis holds is spelled with some white space, and nothing but white space follows it. */
  lemma VersionIs(s: string) returns (g: Gaps, after: string)
    requires VersionOf(s).Some?
    ensures var (o, v) := VersionOf(s).value;
            && GapsValid(g) && Spaces(after) && s == Inside(o, v, g) + after && g.before == ""
            && o != NoOperator && v != "" && forall i :: 0 <= i < |v| ==> VersionChar(v[i])
  {
    hide VersionOf, OperatorOf, Run, SkipSpace, IsSpace, Spaces;
    VersionParts(s);
    var inner := Skipped(s);
    var (o, rest) := OperatorOf(SkipSpace(s)).value;
    OperatorIs(SkipSpace(s));
    var middle := Skipped(rest);
    var text := SkipSpace(rest);
    var n := Run(text, VersionChar);
    var end := Skipped(text[n..]);
    var tail := SkipSpace(text[n..]);
    after := Skipped(tail[1..]);
    NoSpaces();
    g := Gaps("", inner, middle, end);
    var v := text[..n];
    assert text == v + text[n..] && tail == ")" + after;
    Regrouped(inner, OperatorText(o), middle, v, end, after);
    assert rest == middle + (v + (end + (")" + after)));
    assert forall i :: 0 <= i < n ==> v[i] == text[i];
  }

  lemma NoSpaces()
    ensures Spaces("")
  {
  }

  lemma Regrouped(inner: string, o: string, middle: string, v: string, end: string, after: string)
    ensures inner + (o + (middle + (v + (end + (")" + after))))) == inner + o + middle + v + end + ")" + after
  {
  }

  lemma NameStays(name: string)
    requires PackageName(name)
    ensures name != "" && forall i :: 0 <= i < |name| ==> NameChar(name[i])
  {
  }

  lemma AtomOfParts(item: string, n: nat, q: Qualifier, rest: string)
    requires Run(item, NameChar) == n <= |item| && ArchitectureOf(item[n..]) == (q, rest) && PackageName(item[..n])
    ensures var body := SkipSpace(rest);
            AtomOf(item) == if body == "" then Some(Atom(item[..n], q, NoOperator, ""))
                            else if body[0] != '(' || VersionOf(body[1..]).None? then None
                            else Some(Atom(item[..n], q, VersionOf(body[1..]).value.0, VersionOf(body[1..]).value.1))
  {
    hide Run, SkipSpace, ArchitectureOf, PackageName, VersionOf;
  }

  lemma SuffixReads(a: Atom, g: Gaps)
    requires AtomShaped(a) && GapsValid(g) && a.operator != NoOperator
    ensures var body := SkipSpace(VersionSuffix(a, g));
            body != "" && body[0] == '(' && VersionOf(body[1..]) == Some((a.operator, a.version))
  {
    hide VersionOf, SkipSpace, PackageName, Inside;
    var inside := Inside(a.operator, a.version, g);
    assert VersionSuffix(a, g) == g.before + ("(" + inside);
    SkipTo(g.before, "(" + inside);
    assert ("(" + inside)[1..] == inside;
    VersionReads(a.operator, a.version, g);
  }

  lemma SuffixStart(a: Atom, g: Gaps)
    requires GapsValid(g)
    ensures var tail := ArchitectureText(a.architecture) + VersionSuffix(a, g);
            AtomText(a, g) == a.name + tail && (tail == "" || !NameChar(tail[0]))
    ensures var s := VersionSuffix(a, g); s == "" || IsSpace(s[0]) || s[0] == '('
  {
    hide Inside;
    var s := VersionSuffix(a, g);
    assert a.operator != NoOperator ==> s[0] == if g.before == "" then '(' else g.before[0];
  }

  /** The text of an atom is read back as that atom, whatever white space stands in it. */
  lemma AtomReads(a: Atom, g: Gaps)
    requires AtomShaped(a) && GapsValid(g)
    ensures AtomOf(AtomText(a, g)) == Some(a)
  {
    hide ArchitectureOf, VersionOf, AtomOf, Run, SkipSpace, PackageName, AtomText, ArchitectureText, IsSpace, NameChar;
    var suffix := VersionSuffix(a, g);
    var tail := ArchitectureText(a.architecture) + suffix;
    SuffixStart(a, g);
    NameStays(a.name);
    RunIs(a.name, tail, NameChar);
    ArchitectureReads(a.architecture, suffix);
    AtomOfParts(AtomText(a, g), |a.name|, a.architecture, suffix);
    SkipNone("");
    if a.operator != NoOperator {
      SuffixReads(a, g);
    }
  }

  /** Whatever is read as an atom is its text, with some white space in it and after it. */
  lemma AtomIs(item: string) returns (g: Gaps, after: string)
    requires AtomOf(item).Some?
    ensures var a := AtomOf(item).value;
            AtomShaped(a) && GapsValid(g) && Spaces(after) && item == AtomText(a, g) + after
  {
    hide ArchitectureOf, VersionOf, Run, SkipSpace, PackageName, ArchitectureText, OperatorText, Spaces, IsSpace,
         VersionChar, Inside;
    var n := Run(item, NameChar);
    var (q, rest) := ArchitectureOf(item[n..]);
    ArchitectureIs(item[n..]);
    var before := Skipped(rest);
    var body := SkipSpace(rest);
    NoSpaces();
    assert item == item[..n] + item[n..];
    if body == "" {
      g, after := Gaps("", "", "", ""), before;
      var a := AtomOf(item).value;
      assert rest == before && AtomText(a, g) == item[..n] + ArchitectureText(q);
    } else {
      g, after := VersionIs(body[1..]);
      g := g.(before := before);
      var a := AtomOf(item).value;
      InsideSame(a.operator, a.version, g);
      var inside := Inside(a.operator, a.version, g);
      assert body == "(" + (inside + after);
      AtomGroups(item[..n], ArchitectureText(q), before, inside, after);
    }
  }

  lemma InsideSame(o: Operator, v: string, g: Gaps)
    ensures Inside(o, v, g) == Inside(o, v, g.(before := ""))
  {
  }

  lemma AtomGroups(name: string, q: string, before: string, inside: string, after: string)
    ensures name + (q + (before + ("(" + (inside + after)))) == name + q + (before + "(" + inside) + after
  {
  }

  lemma {:induction false} StripSpaces(s: string, r: string)
    requires Spaces(r)
    ensures StripRight(s + r) == StripRight(s)
  {
    if r == "" {
      assert s + r == s;
    } else {
      assert (s + r)[..|s + r| - 1] == s + r[..|r| - 1];
      StripSpaces(s, r[..|r| - 1]);
    }
  }

  lemma AtomEnds(a: Atom, g: Gaps)
    requires AtomValid(a) && GapsValid(g)
    ensures var t := AtomText(a, g); t != "" && !IsSpace(t[0]) && !IsSpace(t[|t| - 1])
    ensures forall i :: 0 <= i < |AtomText(a, g)| ==> AtomText(a, g)[i] != ',' && AtomText(a, g)[i] != '|'
  {
    hide AtomText, VersionSuffix, ArchitectureText, PackageName, ValidVersion, IsSpace;
    var q, v := ArchitectureText(a.architecture), VersionSuffix(a, g);
    NameEnds(a.name);
    ArchitectureEnds(a.architecture);
    SuffixEnds(a, g);
    TextParts(a, g);
    Ends(a.name, q + v);
    Ends(q, v);
  }

  /** No character that separates relations. */
  predicate Unseparated(s: string) {
    forall i :: 0 <= i < |s| ==> s[i] != ',' && s[i] != '|'
  }

  predicate EndsInText(s: string) {
    s != "" ==> !IsSpace(s[|s| - 1])
  }

  lemma Ends(front: string, back: string)
    requires Unseparated(front) && Unseparated(back) && EndsInText(front) && EndsInText(back)
    ensures Unseparated(front + back) && EndsInText(front + back)
    ensures front != "" ==> (front + back)[0] == front[0]
  {
    hide IsSpace;
    if back == "" { assert front + back == front; }
  }

  lemma NameEnds(name: string)
    requires PackageName(name)
    ensures name != "" && !IsSpace(name[0]) && Unseparated(name) && EndsInText(name)
  {
  }

  lemma ArchitectureEnds(q: Qualifier)
    ensures Unseparated(ArchitectureText(q)) && EndsInText(ArchitectureText(q))
  {
  }

  lemma SuffixEnds(a: Atom, g: Gaps)
    requires AtomValid(a) && GapsValid(g)
    ensures Unseparated(VersionSuffix(a, g)) && EndsInText(VersionSuffix(a, g))
  {
    hide ValidVersion, PackageName;
    if a.operator != NoOperator {
      VersionText(a.version);
      SpacesUnseparated(g.before);
      SpacesUnseparated(g.inner);
      SpacesUnseparated(g.middle);
      SpacesUnseparated(g.end);
    }
  }

  lemma SpacesUnseparated(s: string)
    requires Spaces(s)
    ensures Unseparated(s)
  {
  }

  lemma TextParts(a: Atom, g: Gaps)
    ensures AtomText(a, g) == a.name + (ArchitectureText(a.architecture) + VersionSuffix(a, g))
  {
  }

  lemma StripDressed(text: string, a: Atom) returns (g: Gaps)
    requires AtomValid(a) && Dressed(text, a)
    ensures GapsValid(g) && Strip(text) == AtomText(a, g)
    ensures ',' !in text && '|' !in text
  {
    hide AtomText, AtomValid;
    var l, h, r :| Spaces(l) && GapsValid(h) && Spaces(r) && text == l + AtomText(a, h) + r;
    g := h;
    AtomEnds(a, g);
    assert text == l + (AtomText(a, g) + r);
    SkipSpaces(l, AtomText(a, g) + r);
    StripSpaces(AtomText(a, g), r);
  }

  lemma ValidIsShaped(a: Atom)
    requires AtomValid(a)
    ensures AtomShaped(a)
  {
    hide ValidVersion;
    if a.operator != NoOperator { VersionText(a.version); }
  }

  /** An atom this kind of field may hold: a capability has no architecture and at most an equality. */
  predicate Allowed(a: Atom, providing: bool) {
    AtomValid(a) && (providing ==> a.architecture == Unqualified && a.operator in {NoOperator, Exactly})
  }

  lemma ItemReads(text: string, a: Atom, providing: bool)
    requires Allowed(a, providing) && Dressed(text, a)
    ensures ItemOf(text, providing) == Some(a)
  {
    hide AtomText, Dressed, AtomOf, Strip, ValidVersion, PackageName;
    var g := StripDressed(text, a);
    ValidIsShaped(a);
    AtomReads(a, g);
  }

  lemma {:induction false} StrippedRight(s: string) returns (r: string)
    ensures Spaces(r) && s == StripRight(s) + r
  {
    if s != "" && IsSpace(s[|s| - 1]) {
      var front := StrippedRight(s[..|s| - 1]);
      r := front + [s[|s| - 1]];
      assert s == s[..|s| - 1] + [s[|s| - 1]];
    } else {
      r := "";
    }
  }

  lemma BothSpaces(a: string, b: string)
    requires Spaces(a) && Spaces(b)
    ensures Spaces(a + b)
  {
  }

  /** An item is read as an atom exactly when the field may hold it and the item is its text in any white space. */
  lemma ItemExactly(text: string, a: Atom, providing: bool)
    ensures ItemOf(text, providing) == Some(a) <==> Allowed(a, providing) && Dressed(text, a)
  {
    hide AtomOf, ValidVersion, PackageName, Dressed, Strip, AtomValid;
    if Allowed(a, providing) && Dressed(text, a) {
      ItemReads(text, a, providing);
    }
    if ItemOf(text, providing) == Some(a) {
      ItemIsValid(text, providing);
      AtomIsDressed(text);
    }
  }

  lemma AtomIsDressed(text: string)
    requires AtomOf(Strip(text)).Some?
    ensures Dressed(text, AtomOf(Strip(text)).value)
  {
    hide AtomText, AtomOf, SkipSpace, StripRight, Spaces, GapsValid, AtomShaped;
    var l := Skipped(text);
    var r := StrippedRight(SkipSpace(text));
    var g, after := AtomIs(Strip(text));
    BothSpaces(after, r);
    assert text == l + AtomText(AtomOf(Strip(text)).value, g) + (after + r);
  }

  ghost predicate AllDressed(items: seq<string>, atoms: seq<Atom>, providing: bool) {
    |items| == |atoms| && forall j :: 0 <= j < |items| ==> Allowed(atoms[j], providing) && Dressed(items[j], atoms[j])
  }

  lemma {:induction false} ItemsRead(items: seq<string>, atoms: seq<Atom>, providing: bool)
    requires AllDressed(items, atoms, providing)
    ensures ItemsOf(items, providing) == Some(atoms)
  {
    hide ItemOf, Allowed, Dressed;
    if items != [] {
      var n := |items| - 1;
      ItemsRead(items[..n], atoms[..n], providing);
      ItemReads(items[n], atoms[n], providing);
      assert atoms == atoms[..n] + [atoms[n]];
    }
  }

  lemma GroupReads(items: seq<string>, atoms: seq<Atom>, providing: bool, single: bool)
    requires items != [] && AllDressed(items, atoms, providing) && (single ==> |atoms| == 1)
    ensures GroupOf(Join(items, '|'), providing, single) == Some(atoms) && ',' !in Join(items, '|')
  {
    hide AtomValid, Dressed, ItemsOf, Join;
    forall j | 0 <= j < |items|
      ensures ',' !in items[j] && '|' !in items[j]
    {
      var g := StripDressed(items[j], atoms[j]);
    }
    SplitJoin(items, '|');
    JoinLacks(items, '|', ',');
    ItemsRead(items, atoms, providing);
  }

  /** Every group printed with its own white space, joined by bars. */
  function Bars(items: seq<seq<string>>): (r: seq<string>)
    requires forall i :: 0 <= i < |items| ==> items[i] != []
  {
    seq(|items|, (i: nat) requires i < |items| => Join(items[i], '|'))
  }

  ghost predicate Printed(items: seq<seq<string>>, groups: Groups, providing: bool, single: bool) {
    |items| == |groups|
    && forall i :: 0 <= i < |items| ==>
         items[i] != [] && AllDressed(items[i], groups[i], providing) && (single ==> |groups[i]| == 1)
  }

  lemma {:induction false} GroupsRead(items: seq<seq<string>>, groups: Groups, providing: bool, single: bool)
    requires Printed(items, groups, providing, single)
    ensures GroupsOf(Bars(items), providing, single) == Some(groups)
  {
    hide AllDressed, GroupOf;
    if items != [] {
      var n := |items| - 1;
      GroupsRead(items[..n], groups[..n], providing, single);
      GroupReads(items[n], groups[n], providing, single);
      assert Bars(items)[..n] == Bars(items[..n]);
      assert groups == groups[..n] + [groups[n]];
    }
  }

  lemma {:induction false} SkipKeeps(s: string, k: nat) returns (i: nat)
    requires k < |s| && !IsSpace(s[k])
    ensures i < |SkipSpace(s)| && !IsSpace(SkipSpace(s)[i])
  {
    if IsSpace(s[0]) {
      i := SkipKeeps(s[1..], k - 1);
    } else {
      i := k;
    }
  }

  lemma {:induction false} StripKeeps(s: string, k: nat)
    requires k < |s| && !IsSpace(s[k])
    ensures StripRight(s) != ""
  {
    if IsSpace(s[|s| - 1]) {
      StripKeeps(s[..|s| - 1], k);
    }
  }

  lemma NotBlank(s: string, k: nat)
    requires k < |s| && !IsSpace(s[k])
    ensures Strip(s) != ""
  {
    var i := SkipKeeps(s, k);
    StripKeeps(SkipSpace(s), i);
  }

  /** A joined text is not blank when one of its parts, or one of its separators, is not. */
  lemma {:induction false} JoinNotBlank(parts: seq<string>, c: char) returns (k: nat)
    requires parts != [] && !IsSpace(c) && exists j :: 0 <= j < |parts[0]| && !IsSpace(parts[0][j])
    ensures k < |Join(parts, c)| && !IsSpace(Join(parts, c)[k])
  {
    var j :| 0 <= j < |parts[0]| && !IsSpace(parts[0][j]);
    k := j;
    if |parts| > 1 {
      assert Join(parts, c)[j] == parts[0][j];
    }
  }

  lemma DressedNotBlank(text: string, a: Atom)
    requires AtomValid(a) && Dressed(text, a)
    ensures exists j :: 0 <= j < |text| && !IsSpace(text[j])
  {
    hide AtomText, AtomValid;
    var l, g, r :| Spaces(l) && GapsValid(g) && Spaces(r) && text == l + AtomText(a, g) + r;
    AtomEnds(a, g);
    assert text[|l|] == AtomText(a, g)[0];
  }

  lemma TextNotBlank(items: seq<seq<string>>, groups: Groups, providing: bool, single: bool)
    requires Printed(items, groups, providing, single) && items != []
    ensures Strip(Join(Bars(items), ',')) != ""
  {
    hide Strip, Dressed, AtomValid;
    assert AllDressed(items[0], groups[0], providing);
    DressedNotBlank(items[0][0], groups[0][0]);
    var j := JoinNotBlank(items[0], '|');
    assert Bars(items)[0] == Join(items[0], '|');
    var k := JoinNotBlank(Bars(items), ',');
    NotBlank(Join(Bars(items), ','), k);
  }

  /** Any printing of any groups, within the limits, is read back as those groups. */
  lemma ReadsBack(items: seq<seq<string>>, groups: Groups, providing: bool, alternatives: bool)
    requires Printed(items, groups, providing, providing || !alternatives) && Count(groups) <= MAX_ATOMS
    requires items != [] && |Join(Bars(items), ',')| <= MAX_TEXT
    ensures Meaning(Join(Bars(items), ','), providing, alternatives) == Some(groups)
  {
    hide Join, Strip, AllDressed, GroupsOf, GroupOf, Count;
    TextNotBlank(items, groups, providing, providing || !alternatives);
    forall i | 0 <= i < |items|
      ensures ',' !in Bars(items)[i]
    {
      GroupReads(items[i], groups[i], providing, providing || !alternatives);
    }
    SplitJoin(Bars(items), ',');
    GroupsRead(items, groups, providing, providing || !alternatives);
  }

  /** A field of white space alone is blank. */
  lemma BlankStrips(value: string)
    ensures Strip(value) == "" <==> Spaces(value)
  {
    if Spaces(value) {
      assert value + "" == value;
      SkipSpaces(value, "");
    } else {
      var k :| 0 <= k < |value| && !IsSpace(value[k]);
      NotBlank(value, k);
    }
  }

  lemma {:induction false} ItemsAre(items: seq<string>, providing: bool)
    requires ItemsOf(items, providing).Some?
    ensures AllDressed(items, ItemsOf(items, providing).value, providing)
  {
    hide ItemOf, Allowed, Dressed;
    if items != [] {
      var n := |items| - 1;
      ItemsAre(items[..n], providing);
      ItemExactly(items[n], ItemsOf(items, providing).value[n], providing);
    }
  }

  /** The items of each group, as the text is cut. */
  function Cut(texts: seq<string>): (items: seq<seq<string>>)
    ensures |items| == |texts| && forall i :: 0 <= i < |items| ==> items[i] != []
  {
    seq(|texts|, (i: nat) requires i < |texts| => Split(texts[i], '|'))
  }

  lemma GroupIs(text: string, providing: bool, single: bool)
    requires GroupOf(text, providing, single).Some?
    ensures var atoms := GroupOf(text, providing, single).value;
            AllDressed(Split(text, '|'), atoms, providing) && (single ==> |atoms| == 1)
  {
    hide ItemsOf, AllDressed, Split;
    ItemsAre(Split(text, '|'), providing);
  }

  lemma {:induction false} GroupsAre(texts: seq<string>, providing: bool, single: bool)
    requires GroupsOf(texts, providing, single).Some?
    ensures Printed(Cut(texts), GroupsOf(texts, providing, single).value, providing, single)
  {
    hide GroupOf, AllDressed, Split;
    if texts != [] {
      var n := |texts| - 1;
      GroupsAre(texts[..n], providing, single);
      GroupIs(texts[n], providing, single);
      assert Cut(texts)[..n] == Cut(texts[..n]);
    }
  }

  lemma BarsOfCut(texts: seq<string>)
    ensures Bars(Cut(texts)) == texts
  {
    hide Join, Split;
    forall i | 0 <= i < |texts|
      ensures Bars(Cut(texts))[i] == texts[i]
    {
      JoinSplit(texts[i], '|');
    }
  }

  /** The text of some groups: bars between the items of a group and commas between groups. */
  ghost predicate FieldSpells(value: string, groups: Groups, providing: bool, alternatives: bool) {
    exists items :: items != [] && Printed(items, groups, providing, providing || !alternatives)
                    && value == Join(Bars(items), ',')
  }

  /**
   A field means some groups exactly when it is blank and there are none, or it spells them, with
   any white space, within the limits on its length and on the atoms in all.
   */
  lemma FieldExactly(value: string, groups: Groups, providing: bool, alternatives: bool)
    ensures Meaning(value, providing, alternatives) == Some(groups) <==>
            && |value| <= 65536
            && if Spaces(value) then groups == []
               else FieldSpells(value, groups, providing, alternatives) && Count(groups) <= 1024
  {
    hide Spaces, Strip, GroupsOf, Printed, Join, Split, Count;
    BlankStrips(value);
    var single := providing || !alternatives;
    if !Spaces(value) {
      if |value| <= MAX_TEXT && FieldSpells(value, groups, providing, alternatives) && Count(groups) <= MAX_ATOMS {
        SpelledMeans(value, groups, providing, alternatives);
      }
      if Meaning(value, providing, alternatives) == Some(groups) {
        GroupsAre(Split(value, ','), providing, single);
        BarsOfCut(Split(value, ','));
        JoinSplit(value, ',');
        CutSome(Split(value, ','));
      }
    }
  }

  lemma SpelledMeans(value: string, groups: Groups, providing: bool, alternatives: bool)
    requires |value| <= MAX_TEXT && FieldSpells(value, groups, providing, alternatives) && Count(groups) <= MAX_ATOMS
    ensures Meaning(value, providing, alternatives) == Some(groups)
  {
    hide AllDressed, Join, Count;
    var items :| items != [] && Printed(items, groups, providing, providing || !alternatives)
      && value == Join(Bars(items), ',');
    ReadsBack(items, groups, providing, alternatives);
  }

  lemma CutSome(texts: seq<string>)
    requires texts != []
    ensures Cut(texts) != []
  {
  }

  // ----- What is accepted -----

  lemma ItemIsValid(item: string, providing: bool)
    requires ItemOf(item, providing).Some?
    ensures Allowed(ItemOf(item, providing).value, providing)
  {
    hide Strip, ArchitectureOf, ValidVersion, SkipSpace, OperatorOf;
  }

  lemma {:induction false} ItemsAreValid(items: seq<string>, providing: bool)
    requires ItemsOf(items, providing).Some?
    ensures forall j :: 0 <= j < |items| ==> Allowed(ItemsOf(items, providing).value[j], providing)
  {
    hide ItemOf, Allowed;
    if items != [] {
      ItemsAreValid(items[..|items| - 1], providing);
      ItemIsValid(items[|items| - 1], providing);
    }
  }

  lemma {:induction false} GroupsAreValid(texts: seq<string>, providing: bool, single: bool)
    requires GroupsOf(texts, providing, single).Some?
    ensures forall g :: g in GroupsOf(texts, providing, single).value ==>
              g != [] && (single ==> |g| == 1) && forall a :: a in g ==> Allowed(a, providing)
  {
    hide ItemsOf, Allowed;
    if texts != [] {
      var last := texts[|texts| - 1];
      GroupsAreValid(texts[..|texts| - 1], providing, single);
      ItemsAreValid(Split(last, '|'), providing);
    }
  }

  /** An accepted field has non-empty groups of valid atoms, one to a group where alternatives are refused. */
  lemma AcceptedIsValid(value: string, providing: bool, alternatives: bool)
    requires Meaning(value, providing, alternatives).Some?
    ensures var groups := Meaning(value, providing, alternatives).value;
            && Count(groups) <= MAX_ATOMS
            && forall g :: g in groups ==>
                 g != [] && (providing || !alternatives ==> |g| == 1) && forall a :: a in g ==> Allowed(a, providing)
    ensures !alternatives ==> SingleAtoms(Ok(Meaning(value, providing, alternatives).value))
  {
    hide Strip, GroupsOf, Allowed;
    if Strip(value) != "" {
      GroupsAreValid(Split(value, ','), providing, providing || !alternatives);
    }
  }
}
