/**
 The control-stanza parser `deb822` of tools/deb_archive.py, and the printer it
 inverts (section 5.1 of the Debian Policy Manual: fields, continuation lines that
 start with a space, stanzas separated by blank lines).
 */
module Deb822 {
  import opened NiaCommon
  import opened Text

  const MAX_CONTROL := 16 * 1024 * 1024
  const MAX_STANZAS := 262144
  const MAX_LINE := 65536
  const MAX_FIELDS := 1024

  /** One stanza: fields in the order they were read, keys distinct. */
  type Record = seq<(string, string)>

  // ----- Reading -----

  function Utf8Length(text: string): nat {
    if text == "" then 0
    else
      var c := text[|text| - 1] as int;
      Utf8Length(text[..|text| - 1]) + if c <= 0x7F then 1 else if c <= 0x7FF then 2 else if c <= 0xFFFF then 3 else 4
  }

  /** `text.replace('\r\n', '\n')`. */
  function Normalise(text: string): string {
    if text == "" then ""
    else if |text| >= 2 && text[0] == '\r' && text[1] == '\n' then "\n" + Normalise(text[2..])
    else [text[0]] + Normalise(text[1..])
  }

  predicate TextChar(c: char) {
    c as int >= 32 || c == '\n' || c == '\t'
  }

  /** Lower case; only these characters become ASCII letters. */
  function LowerChar(c: char): char {
    if 'A' <= c <= 'Z' then c + ('a' - 'A') else if c as int == 0x212A then 'k' else c
  }

  function Lower(s: string): (r: string)
    ensures |r| == |s|
  {
    seq(|s|, i requires 0 <= i < |s| => LowerChar(s[i]))
  }

  predicate KeyChar(c: char) {
    'a' <= c <= 'z' || '0' <= c <= '9'
  }

  predicate KeySyntax(s: string) {
    s != "" && KeyChar(s[0]) && forall i :: 0 <= i < |s| ==> KeyChar(s[i]) || s[i] == '-'
  }

  predicate HasKey(record: Record, key: string) {
    exists i :: 0 <= i < |record| && record[i].0 == key
  }

  function StripLeft(s: string): string {
    if s != "" && s[0] in " \t" then StripLeft(s[1..]) else s
  }

  datatype Parser = Parser(result: seq<Record>, record: Record)

  /** What one line does. A continuation belongs to the field read last. */
  function Step(p: Parser, line: string): Result<Parser> {
    if |line| > MAX_LINE then Invalid("control line too long")
    else if line == "" then
      if p.record == [] then Ok(p)
      else if |p.result| + 1 > MAX_STANZAS then Invalid("too many stanzas")
      else Ok(Parser(p.result + [p.record], []))
    else if line[0] in " \t" then
      if p.record == [] then Invalid("orphan continuation")
      else
        var n := |p.record| - 1;
        var value := p.record[n].1 + "\n" + line[1..];
        if |value| > MAX_CONTROL then Invalid("field too long")
        else Ok(p.(record := p.record[n := (p.record[n].0, value)]))
    else
      var n := FieldLength(line, ':');
      if n == |line| then Invalid("missing control delimiter")
      else
        var key := Lower(line[..n]);
        if !KeySyntax(key) || HasKey(p.record, key) then Invalid("invalid or duplicate control field")
        else if |p.record| > MAX_FIELDS then Invalid("too many fields")
        else Ok(p.(record := p.record + [(key, StripLeft(line[n + 1..]))]))
  }

  function Steps(p: Parser, lines: seq<string>): Result<Parser>
    decreases |lines|
  {
    if lines == [] then Ok(p)
    else
      var next := Step(p, lines[0]);
      if next.Invalid? then next else Steps(next.value, lines[1..])
  }

  function Finish(p: Parser): Result<seq<Record>> {
    var result := p.result + if p.record == [] then [] else [p.record];
    if |result| > MAX_STANZAS then Invalid("too many stanzas") else Ok(result)
  }

  function Stanzas(text: string): Result<seq<Record>> {
    if Utf8Length(text) > MAX_CONTROL then Invalid("control text size limit")
    else
      var normal := Normalise(text);
      if '\r' in normal || exists i :: 0 <= i < |normal| && !TextChar(normal[i]) then Invalid("control character")
      else
        var p := Steps(Parser([], []), Split(normal, '\n'));
        if p.Invalid? then Invalid(p.reason) else Finish(p.value)
  }

  /** `deb822`: the loop over lines with the current record. */
  method Parse(text: string) returns (r: Result<seq<Record>>)
    ensures r == Stanzas(text)
  {
    hide Step, Finish, Normalise, TextChar, Utf8Length;
    if Utf8Length(text) > MAX_CONTROL { return Invalid("control text size limit"); }
    var normal := Normalise(text);
    if '\r' in normal || exists i :: 0 <= i < |normal| && !TextChar(normal[i]) { return Invalid("control character"); }
    var lines := Split(normal, '\n');
    var p := Parser([], []);
    assert lines[0..] == lines;
    for k := 0 to |lines|
      invariant Steps(Parser([], []), lines) == Steps(p, lines[k..])
    {
      var next := ReadLine(p.result, p.record, lines[k]);
      assert lines[k..][0] == lines[k] && lines[k..][1..] == lines[k + 1..];
      if next.Invalid? { return Invalid(next.reason); }
      p := next.value;
    }
    return Finish(p);
  }

  /** One line, for the stanzas that are complete and the fields of the one that is open. */
  method ReadLine(result: seq<Record>, record: Record, line: string) returns (p: Result<Parser>)
    ensures p == Step(Parser(result, record), line)
  {
    hide FieldLength, Lower, StripLeft, KeySyntax, HasKey;
    if |line| > MAX_LINE { return Invalid("control line too long"); }
    if line == "" {
      if record == [] { return Ok(Parser(result, record)); }
      if |result| + 1 > MAX_STANZAS { return Invalid("too many stanzas"); }
      return Ok(Parser(result + [record], []));
    }
    if line[0] in " \t" {
      if record == [] { return Invalid("orphan continuation"); }
      var n := |record| - 1;
      var value := record[n].1 + "\n" + line[1..];
      if |value| > MAX_CONTROL { return Invalid("field too long"); }
      return Ok(Parser(result, record[n := (record[n].0, value)]));
    }
    var n := FieldLength(line, ':');
    if n == |line| { return Invalid("missing control delimiter"); }
    var key := Lower(line[..n]);
    if !KeySyntax(key) || HasKey(record, key) { return Invalid("invalid or duplicate control field"); }
    if |record| > MAX_FIELDS { return Invalid("too many fields"); }
    return Ok(Parser(result, record + [(key, StripLeft(line[n + 1..]))]));
  }

  // ----- Printing -----

  /** A field as it is written: its key in any case, blanks before its value, and the marks of its folded lines. */
  datatype Field = Field(key: string, pad: string, value: string, marks: string)

  /** A stanza as it is written, after some blank lines. */
  datatype Stanza = Stanza(gap: nat, fields: seq<Field>)

  function Continuations(parts: seq<string>, marks: string): (lines: seq<string>)
    requires |marks| >= |parts|
    ensures |lines| == |parts|
  {
    seq(|parts|, i requires 0 <= i < |parts| => [marks[i]] + parts[i])
  }

  /** The key and the first line of its value, then folded lines. */
  function FieldLines(f: Field): seq<string> {
    var parts := Split(f.value, '\n');
    [f.key + ":" + f.pad + parts[0]]
    + if |f.marks| == |parts| - 1 then Continuations(parts[1..], f.marks) else []
  }

  function RecordLines(fields: seq<Field>): seq<string> {
    if fields == [] then [] else RecordLines(fields[..|fields| - 1]) + FieldLines(fields[|fields| - 1])
  }

  function Blanks(n: nat): seq<string> {
    seq(n, (i: nat) requires i < n => "")
  }

  function AllLines(stanzas: seq<Stanza>): seq<string> {
    if stanzas == [] then []
    else
      var last := stanzas[|stanzas| - 1];
      AllLines(stanzas[..|stanzas| - 1]) + Blanks(last.gap) + RecordLines(last.fields)
  }

  /** The stanzas with `trailing` line ends after the last line. */
  function Render(stanzas: seq<Stanza>, trailing: nat): string {
    var lines := AllLines(stanzas) + Blanks(trailing);
    if lines == [] then "" else Join(lines, '\n')
  }

  /** The same key, with any of its letters in upper case, or a Kelvin sign for its `k`. */
  predicate Spells(spelled: string, key: string) {
    && KeySyntax(key) && |spelled| == |key|
    && forall i :: 0 <= i < |key| ==>
         || spelled[i] == key[i]
         || ('A' <= spelled[i] <= 'Z' && spelled[i] as int - 'A' as int == key[i] as int - 'a' as int)
         || (spelled[i] as int == 0x212A && key[i] == 'k')
  }

  predicate Blank(c: char) {
    c == ' ' || c == '\t'
  }

  predicate FieldValid(f: Field, key: string) {
    && Spells(f.key, key)
    && (forall i :: 0 <= i < |f.pad| ==> Blank(f.pad[i])) && |f.marks| == |Split(f.value, '\n')| - 1
    && (forall i :: 0 <= i < |f.marks| ==> Blank(f.marks[i]))
    && (f.value != "" ==> !Blank(f.value[0]))
    && '\r' !in f.value && (forall i :: 0 <= i < |f.value| ==> TextChar(f.value[i]))
    && |f.value| <= MAX_CONTROL
    && forall i :: 0 <= i < |FieldLines(f)| ==> |FieldLines(f)[i]| <= MAX_LINE
  }

  /** The fields of a stanza, as they stand for a record. */
  predicate RecordValid(fields: seq<Field>, record: Record) {
    && 1 <= |fields| == |record| <= MAX_FIELDS + 1
    && (forall i :: 0 <= i < |record| ==> FieldValid(fields[i], record[i].0) && record[i].1 == fields[i].value)
    && forall i, j :: 0 <= i < j < |record| ==> record[i].0 != record[j].0
  }

  /** Stanzas that stand for the records: all but the first come after a blank line. */
  predicate Written(stanzas: seq<Stanza>, records: seq<Record>) {
    && |stanzas| == |records|
    && (forall i :: 0 <= i < |records| ==> RecordValid(stanzas[i].fields, records[i]))
    && forall i :: 0 < i < |records| ==> stanzas[i].gap >= 1
  }

  predicate Printable(stanzas: seq<Stanza>, records: seq<Record>) {
    Written(stanzas, records) && |records| <= MAX_STANZAS
  }

  /** The same text, with any of its line ends written as a carriage return and a line feed. */
  predicate Returned(raw: string, text: string)
    decreases |text|
  {
    if text == "" then raw == ""
    else
      || (raw != "" && raw[0] == text[0] && text[0] != '\r' && Returned(raw[1..], text[1..]))
      || (text[0] == '\n' && |raw| >= 2 && raw[0] == '\r' && raw[1] == '\n' && Returned(raw[2..], text[1..]))
  }

  /** A text without stray carriage returns is what is left of its returned forms, and of nothing else. */
  lemma {:induction false} NormaliseExactly(raw: string, text: string)
    ensures Normalise(raw) == text && '\r' !in text <==> Returned(raw, text)
    decreases |raw|
  {
    if raw != "" && text != "" {
      var pair := |raw| >= 2 && raw[0] == '\r' && raw[1] == '\n';
      var rest := if pair then raw[2..] else raw[1..];
      NormaliseExactly(rest, text[1..]);
      assert text == [text[0]] + text[1..];
      assert Normalise(raw) == [if pair then '\n' else raw[0]] + Normalise(rest);
      assert Normalise(raw)[1..] == Normalise(rest);
    }
  }

  // ----- The round trip -----

  lemma {:induction false} StepsAppend(p: Parser, a: seq<string>, b: seq<string>)
    ensures Steps(p, a + b) == if Steps(p, a).Invalid? then Steps(p, a) else Steps(Steps(p, a).value, b)
    decreases |a|
  {
    if a == [] {
      assert a + b == b;
    } else {
      assert (a + b)[1..] == a[1..] + b;
      if Step(p, a[0]).Ok? { StepsAppend(Step(p, a[0]).value, a[1..], b); }
    }
  }

  lemma StepsLast(p: Parser, a: seq<string>, line: string, q: Parser)
    requires Steps(p, a) == Ok(q)
    ensures Steps(p, a + [line]) == Step(q, line)
  {
    StepsAppend(p, a, [line]);
    var next := Step(q, line);
    assert [line][1..] == [];
    assert next.Ok? ==> Steps(next.value, []) == next;
  }

  lemma SpellingReads(spelled: string, key: string)
    requires Spells(spelled, key)
    ensures Lower(spelled) == key && ':' !in spelled && spelled != "" && !Blank(spelled[0]) && CleanLine(spelled)
  {
    assert forall i :: 0 <= i < |key| ==> KeyChar(key[i]) || key[i] == '-';
  }

  lemma FirstLine(p: Parser, f: Field, key: string, first: string)
    requires Spells(f.key, key) && (forall i :: 0 <= i < |f.pad| ==> Blank(f.pad[i]))
    requires !HasKey(p.record, key) && |p.record| <= MAX_FIELDS
    requires |f.key + ":" + f.pad + first| <= MAX_LINE && (first != "" ==> !Blank(first[0]))
    ensures Step(p, f.key + ":" + f.pad + first) == Ok(p.(record := p.record + [(key, first)]))
  {
    hide FieldLength, Lower, StripLeft, HasKey, Spells;
    var line := f.key + ":" + f.pad + first;
    SpellingReads(f.key, key);
    KeyOfSpelling(f.key, key);
    assert line == f.key + [':'] + (f.pad + first);
    FieldLengthIs(f.key, ':', f.pad + first);
    assert line[..|f.key|] == f.key && line[|f.key| + 1..] == f.pad + first;
    assert line[0] == f.key[0];
    Stripped(f.pad, first);
  }

  lemma KeyOfSpelling(spelled: string, key: string)
    requires Spells(spelled, key)
    ensures KeySyntax(key)
  {
  }

  lemma {:induction false} Stripped(pad: string, first: string)
    requires (forall i :: 0 <= i < |pad| ==> Blank(pad[i])) && (first != "" ==> !Blank(first[0]))
    ensures StripLeft(pad + first) == first
  {
    if pad == "" {
      assert pad + first == first;
    } else {
      assert (pad + first)[1..] == pad[1..] + first;
      Stripped(pad[1..], first);
    }
  }

  lemma {:induction false} JoinAppend(parts: seq<string>, c: char, last: string)
    requires parts != []
    ensures Join(parts + [last], c) == Join(parts, c) + [c] + last
  {
    if |parts| > 1 {
      JoinAppend(parts[1..], c, last);
      assert (parts + [last])[1..] == parts[1..] + [last];
    } else {
      assert (parts + [last])[1..] == [last];
    }
  }

  lemma {:induction false} JoinPrefix(parts: seq<string>, c: char, n: nat)
    requires 1 <= n <= |parts|
    ensures |Join(parts[..n], c)| <= |Join(parts, c)|
    decreases |parts|
  {
    if n < |parts| {
      var front := parts[..|parts| - 1];
      assert parts == front + [parts[|parts| - 1]] && front[..n] == parts[..n];
      JoinAppend(front, c, parts[|parts| - 1]);
      JoinPrefix(front, c, n);
    } else {
      assert parts[..n] == parts;
    }
  }

  /** Continuation lines rebuild the value line by line. */
  lemma {:induction false} FoldedLines(p: Parser, key: string, parts: seq<string>, marks: string, n: nat)
    requires |marks| == |parts| - 1 && (forall i :: 0 <= i < |marks| ==> Blank(marks[i]))
    requires 1 <= n <= |parts| && |Join(parts, '\n')| <= MAX_CONTROL
    requires forall i :: 1 <= i < |parts| ==> 1 + |parts[i]| <= MAX_LINE
    ensures var start := p.(record := p.record + [(key, parts[0])]);
            Steps(start, Continuations(parts[1..n], marks))
            == Ok(p.(record := p.record + [(key, Join(parts[..n], '\n'))]))
    decreases n
  {
    hide HasKey, Lower, StripLeft, KeySyntax, FieldLength, Join;
    var start := p.(record := p.record + [(key, parts[0])]);
    if n == 1 {
      JoinOne(parts[0], '\n');
      assert parts[..1] == [parts[0]] && Continuations(parts[1..1], marks) == [];
    } else {
      FoldedLines(p, key, parts, marks, n - 1);
      var before := p.(record := p.record + [(key, Join(parts[..n - 1], '\n'))]);
      var line := [marks[n - 2]] + parts[n - 1];
      assert Continuations(parts[1..n], marks) == Continuations(parts[1..n - 1], marks) + [line];
      StepsLast(start, Continuations(parts[1..n - 1], marks), line, before);
      TakeOneMore(parts, n - 1);
      JoinAppend(parts[..n - 1], '\n', parts[n - 1]);
      JoinPrefix(parts, '\n', n);
      assert line[1..] == parts[n - 1];
      assert Join(parts[..n], '\n') == Join(parts[..n - 1], '\n') + "\n" + parts[n - 1];
      var m := |p.record|;
      assert before.record[m := (key, Join(parts[..n], '\n'))] == p.record + [(key, Join(parts[..n], '\n'))];
    }
  }

  lemma FirstPart(s: string, c: char)
    ensures Split(s, c)[0] != "" ==> s != "" && Split(s, c)[0][0] == s[0]
  {
  }

  lemma FieldParts(f: Field, key: string)
    requires FieldValid(f, key)
    ensures var parts := Split(f.value, '\n');
            && |f.marks| == |parts| - 1 && (forall i :: 0 <= i < |f.marks| ==> Blank(f.marks[i]))
            && FieldLines(f) == [f.key + ":" + f.pad + parts[0]] + Continuations(parts[1..], f.marks)
            && |f.key + ":" + f.pad + parts[0]| <= MAX_LINE && (parts[0] != "" ==> !Blank(parts[0][0]))
            && Join(parts, '\n') == f.value && |f.value| <= MAX_CONTROL
            && forall i :: 1 <= i < |parts| ==> 1 + |parts[i]| <= MAX_LINE
  {
    hide Spells, TextChar, Split, Join, Blank;
    var parts := Split(f.value, '\n');
    var lines := FieldLines(f);
    JoinSplit(f.value, '\n');
    FirstPart(f.value, '\n');
    assert lines[0] == f.key + ":" + f.pad + parts[0];
    forall i | 1 <= i < |parts|
      ensures 1 + |parts[i]| <= MAX_LINE
    {
      assert lines[i] == Continuations(parts[1..], f.marks)[i - 1] == [f.marks[i - 1]] + parts[i];
    }
  }

  lemma FieldRead(p: Parser, f: Field, key: string)
    requires FieldValid(f, key) && !HasKey(p.record, key) && |p.record| <= MAX_FIELDS
    ensures Steps(p, FieldLines(f)) == Ok(p.(record := p.record + [(key, f.value)]))
  {
    hide HasKey, Spells, Step, TextChar, Split, Join, Continuations, FieldLines, Blank;
    FieldParts(f, key);
    var parts := Split(f.value, '\n');
    var head, rest := f.key + ":" + f.pad + parts[0], Continuations(parts[1..], f.marks);
    FirstLine(p, f, key, parts[0]);
    assert [head][1..] == [];
    StepsAppend(p, [head], rest);
    FoldedLines(p, key, parts, f.marks, |parts|);
    assert parts[1..|parts|] == parts[1..];
    TakeAll(parts);
  }

  lemma {:induction false} RecordRead(p: Parser, fields: seq<Field>, record: Record, n: nat)
    requires p.record == [] && RecordValid(fields, record) && n <= |record|
    ensures Steps(p, RecordLines(fields[..n])) == Ok(p.(record := record[..n]))
    decreases n
  {
    hide FieldValid, Step, FieldLines;
    if n > 0 {
      RecordRead(p, fields, record, n - 1);
      TakeOneMore(record, n - 1);
      var q := p.(record := record[..n - 1]);
      assert fields[..n][..n - 1] == fields[..n - 1];
      StepsAppend(p, RecordLines(fields[..n - 1]), FieldLines(fields[n - 1]));
      assert !HasKey(q.record, record[n - 1].0);
      FieldRead(q, fields[n - 1], record[n - 1].0);
      assert record[..n] == record[..n - 1] + [(record[n - 1].0, fields[n - 1].value)];
    }
  }

  /** Blank lines end the stanza that is open, if one is. */
  lemma {:induction false} BlanksRead(p: Parser, n: nat)
    requires |p.result| < MAX_STANZAS || p.record == []
    ensures Steps(p, Blanks(n)) == Ok(if n == 0 || p.record == [] then p else Parser(p.result + [p.record], []))
    decreases n
  {
    if n > 0 {
      assert Blanks(n)[1..] == Blanks(n - 1);
      BlanksRead(if p.record == [] then p else Parser(p.result + [p.record], []), n - 1);
    }
  }

  /** Some records, the last of which may still be open. */
  function SoFar(p: Parser): seq<Record> {
    if p.record == [] then p.result else p.result + [p.record]
  }

  /** After some stanzas, the last of them is still open. */
  function Open(records: seq<Record>): Parser {
    if records == [] then Parser([], []) else Parser(records[..|records| - 1], records[|records| - 1])
  }

  /** One stanza, after the blank lines that end the one before it. */
  lemma StanzaRead(p: Parser, stanza: Stanza, record: Record)
    requires RecordValid(stanza.fields, record)
    requires p.record == [] || (stanza.gap >= 1 && |p.result| < MAX_STANZAS)
    ensures Steps(p, Blanks(stanza.gap) + RecordLines(stanza.fields)) == Ok(Parser(SoFar(p), record))
  {
    hide RecordValid, Step, RecordLines;
    var closed := Parser(SoFar(p), []);
    BlanksRead(p, stanza.gap);
    StepsAppend(p, Blanks(stanza.gap), RecordLines(stanza.fields));
    WholeRecord(stanza.fields, record);
    RecordRead(closed, stanza.fields, record, |record|);
  }

  lemma WholeRecord(fields: seq<Field>, record: Record)
    requires RecordValid(fields, record)
    ensures fields[..|record|] == fields && record[..|record|] == record && record != []
  {
    hide FieldValid;
  }

  lemma OpenNext(records: seq<Record>, n: nat)
    requires n < |records| && forall i :: 0 <= i < |records| ==> records[i] != []
    ensures SoFar(Open(records[..n])) == records[..n] && (Open(records[..n]).record == [] <==> n == 0)
    ensures |Open(records[..n]).result| == (if n == 0 then 0 else n - 1)
    ensures Open(records[..n + 1]) == Parser(records[..n], records[n])
  {
    var before, after := records[..n], records[..n + 1];
    assert after[..n] == before;
    if n > 0 {
      assert before == before[..n - 1] + [before[n - 1]];
    }
  }

  lemma LinesNext(stanzas: seq<Stanza>, n: nat)
    requires n < |stanzas|
    ensures AllLines(stanzas[..n + 1]) ==
            AllLines(stanzas[..n]) + (Blanks(stanzas[n].gap) + RecordLines(stanzas[n].fields))
  {
    hide Blanks, RecordLines;
    assert stanzas[..n + 1][..n] == stanzas[..n];
    var before, gap, fields := AllLines(stanzas[..n]), Blanks(stanzas[n].gap), RecordLines(stanzas[n].fields);
    assert before + (gap + fields) == before + gap + fields;
  }

  lemma {:induction false} StanzasRead(stanzas: seq<Stanza>, records: seq<Record>, n: nat)
    requires Printable(stanzas, records) && n <= |records|
    ensures Steps(Parser([], []), AllLines(stanzas[..n])) == Ok(Open(records[..n]))
    decreases n
  {
    hide RecordValid, Steps, RecordLines, Blanks, AllLines, Open, SoFar;
    if n == 0 {
      NoStanzas(stanzas, records);
    } else {
      var k := n - 1;
      StanzasRead(stanzas, records, k);
      NotEmpty(stanzas, records, k);
      OpenNext(records, k);
      StanzaRead(Open(records[..k]), stanzas[k], records[k]);
      LinesNext(stanzas, k);
      StepsAppend(Parser([], []), AllLines(stanzas[..k]), Blanks(stanzas[k].gap) + RecordLines(stanzas[k].fields));
    }
  }

  lemma NoStanzas(stanzas: seq<Stanza>, records: seq<Record>)
    ensures Steps(Parser([], []), AllLines(stanzas[..0])) == Ok(Open(records[..0]))
  {
  }

  lemma NotEmpty(stanzas: seq<Stanza>, records: seq<Record>, n: nat)
    requires Printable(stanzas, records) && n < |records|
    ensures forall i :: 0 <= i < |records| ==> records[i] != []
  {
  }

  // ----- The rendered text is clean -----

  predicate Clean(s: string) {
    '\r' !in s && forall i :: 0 <= i < |s| ==> TextChar(s[i])
  }

  predicate CleanLine(s: string) {
    Clean(s) && '\n' !in s
  }

  predicate AllClean(lines: seq<string>) {
    forall i :: 0 <= i < |lines| ==> CleanLine(lines[i])
  }

  lemma {:induction false} SplitClean(s: string)
    requires Clean(s)
    ensures forall i :: 0 <= i < |Split(s, '\n')| ==> CleanLine(Split(s, '\n')[i])
    decreases |s|
  {
    var n := FieldLength(s, '\n');
    assert Clean(s[..n]);
    if n < |s| { SplitClean(s[n + 1..]); }
  }

  lemma FieldLinesClean(f: Field, key: string)
    requires FieldValid(f, key)
    ensures forall i :: 0 <= i < |FieldLines(f)| ==> CleanLine(FieldLines(f)[i])
  {
    hide Spells;
    SplitClean(f.value);
    SpellingReads(f.key, key);
    var parts := Split(f.value, '\n');
    assert CleanLine(":") && CleanLine(f.pad);
    assert CleanLine(parts[0]);
    assert CleanLine(f.key + ":" + f.pad + parts[0]);
    forall i | 1 <= i < |parts|
      ensures CleanLine([f.marks[i - 1]] + parts[i])
    {
      assert CleanLine(parts[i]) && Blank(f.marks[i - 1]);
    }
  }

  lemma {:induction false} RecordLinesClean(fields: seq<Field>, record: Record)
    requires |fields| == |record| && forall i :: 0 <= i < |record| ==> FieldValid(fields[i], record[i].0)
    ensures forall i :: 0 <= i < |RecordLines(fields)| ==> CleanLine(RecordLines(fields)[i])
  {
    hide FieldValid, CleanLine;
    if record != [] {
      RecordLinesClean(fields[..|record| - 1], record[..|record| - 1]);
      FieldLinesClean(fields[|record| - 1], record[|record| - 1].0);
    }
  }

  lemma {:induction false} AllLinesClean(stanzas: seq<Stanza>, records: seq<Record>)
    requires |stanzas| == |records| && forall i :: 0 <= i < |records| ==> RecordValid(stanzas[i].fields, records[i])
    ensures forall i :: 0 <= i < |AllLines(stanzas)| ==> CleanLine(AllLines(stanzas)[i])
  {
    if records != [] {
      var n := |records| - 1;
      AllLinesClean(stanzas[..n], records[..n]);
      RecordLinesClean(stanzas[n].fields, records[n]);
    }
  }

  lemma {:induction false} JoinClean(lines: seq<string>)
    requires lines != [] && AllClean(lines)
    ensures Clean(Join(lines, '\n'))
  {
    if |lines| > 1 {
      JoinClean(lines[1..]);
      assert Clean(lines[0]) by { assert CleanLine(lines[0]); }
    } else {
      assert CleanLine(lines[0]);
    }
  }

  lemma LinesClean(stanzas: seq<Stanza>, records: seq<Record>, trailing: nat)
    requires Printable(stanzas, records)
    ensures AllClean(AllLines(stanzas) + Blanks(trailing))
  {
    AllLinesClean(stanzas, records);
  }

  /**
   Stanzas read back as their records, in order: whatever the case of the keys, the blanks before
   a value, the mark of a folded line, the blank lines around a stanza, the end of the last line
   and the kind of the line ends.
   */
  lemma ParseInvertsRender(raw: string, stanzas: seq<Stanza>, records: seq<Record>, trailing: nat)
    requires Printable(stanzas, records)
    requires Returned(raw, Render(stanzas, trailing)) && Utf8Length(raw) <= MAX_CONTROL
    ensures Stanzas(raw) == Ok(records)
  {
    hide Printable, Steps, Finish;
    var text := Render(stanzas, trailing);
    NormaliseExactly(raw, text);
    LinesClean(stanzas, records, trailing);
    var lines := AllLines(stanzas) + Blanks(trailing);
    if lines != [] {
      JoinClean(lines);
    }
    LinesRead(stanzas, records, trailing);
  }

  lemma LinesRead(stanzas: seq<Stanza>, records: seq<Record>, trailing: nat)
    requires Printable(stanzas, records)
    ensures var p := Steps(Parser([], []), Split(Render(stanzas, trailing), '\n'));
            p.Ok? && Finish(p.value) == Ok(records)
  {
    hide RecordValid, Step;
    var lines := AllLines(stanzas) + Blanks(trailing);
    StanzasRead(stanzas, records, |records|);
    TakeAll(records);
    TakeAll(stanzas);
    BlanksRead(Open(records), trailing);
    StepsAppend(Parser([], []), AllLines(stanzas), Blanks(trailing));
    if records != [] { NotEmpty(stanzas, records, |records| - 1); }
    Finished(records, trailing);
    if lines == [] {
      BlankLine();
      if records != [] { OpenIsText(stanzas, records); }
    } else {
      LinesClean(stanzas, records, trailing);
      forall i | 0 <= i < |lines| ensures '\n' !in lines[i] { assert CleanLine(lines[i]); }
      SplitJoin(lines, '\n');
    }
  }

  lemma Finished(records: seq<Record>, trailing: nat)
    requires |records| <= MAX_STANZAS && (records != [] ==> records[|records| - 1] != [])
    ensures var p := Open(records);
            Finish(if trailing == 0 || p.record == [] then p else Parser(p.result + [p.record], [])) == Ok(records)
  {
    assert records + [] == records;
    assert records != [] ==> records == records[..|records| - 1] + [records[|records| - 1]];
  }

  /** Stanzas have lines. */
  lemma OpenIsText(stanzas: seq<Stanza>, records: seq<Record>)
    requires Printable(stanzas, records) && records != []
    ensures AllLines(stanzas) != []
  {
    var last := stanzas[|stanzas| - 1];
    assert RecordLines(last.fields) != [];
  }

  lemma BlankLine()
    ensures Steps(Parser([], []), Split("", '\n')) == Ok(Parser([], []))
  {
    assert Split("", '\n') == [""] && [""][1..] == [];
  }

  // ----- What is accepted -----

  lemma SplitFirst(front: string, c: char, rest: string)
    requires c !in front
    ensures Split(front + [c] + rest, c) == [front] + Split(rest, c)
  {
    var s := front + [c] + rest;
    FieldLengthIs(front, c, rest);
    assert s[..|front|] == front && s[|front| + 1..] == rest;
  }

  lemma {:induction false} SplitOneMore(s: string, c: char, t: string)
    requires c !in t
    ensures Split(s + [c] + t, c) == Split(s, c) + [t]
    decreases |s|
  {
    hide Split, FieldLength;
    var n, all := FieldLength(s, c), s + [c] + t;
    if n == |s| {
      assert s[..n] == s;
      SplitFirst(s, c, t);
      SplitPlain(t, c);
      SplitPlain(s, c);
    } else {
      var front, rest := s[..n], s[n + 1..];
      assert s == front + [c] + rest;
      assert all == front + [c] + (rest + [c] + t);
      SplitFirst(front, c, rest);
      SplitFirst(front, c, rest + [c] + t);
      SplitOneMore(rest, c, t);
    }
  }

  lemma SplitPlain(s: string, c: char)
    requires c !in s
    ensures Split(s, c) == [s]
  {
    FieldLengthIs(s, c, "");
  }

  /** The blanks that are skipped before a value. */
  lemma {:induction false} Padded(s: string) returns (pad: string)
    ensures (forall i :: 0 <= i < |pad| ==> Blank(pad[i])) && s == pad + StripLeft(s)
    ensures StripLeft(s) != "" ==> !Blank(StripLeft(s)[0])
  {
    if s != "" && s[0] in " \t" {
      var rest := Padded(s[1..]);
      pad := [s[0]] + rest;
      assert s == [s[0]] + s[1..];
    } else {
      pad := "";
    }
  }

  lemma LoweredSpells(s: string)
    requires KeySyntax(Lower(s))
    ensures Spells(s, Lower(s))
  {
  }

  /** A line that begins a field is a field as it is written, on one line so far. */
  lemma LineIsField(p: Parser, line: string) returns (f: Field, key: string)
    requires Step(p, line).Ok? && CleanLine(line) && line != "" && line[0] !in " \t"
    ensures FieldValid(f, key) && FieldLines(f) == [line] && !HasKey(p.record, key) && |p.record| <= MAX_FIELDS
    ensures Step(p, line).value == p.(record := p.record + [(key, f.value)])
  {
    hide HasKey, KeySyntax, Lower, StripLeft, Spells, Split;
    var n := FieldLength(line, ':');
    var rest := line[n + 1..];
    key := Lower(line[..n]);
    LoweredSpells(line[..n]);
    var pad := Padded(rest);
    f := Field(line[..n], pad, StripLeft(rest), "");
    assert line == line[..n] + [':'] + rest;
    PartClean(line, pad, n, f.value);
    SplitPlain(f.value, '\n');
    assert [f.value][1..] == [] && Continuations([], "") == [];
    assert line == f.key + ":" + f.pad + f.value;
  }

  lemma PartClean(line: string, pad: string, n: nat, value: string)
    requires CleanLine(line) && |line| <= MAX_LINE && n < |line| && line[n + 1..] == pad + value
    ensures CleanLine(value) && |value| <= MAX_CONTROL
  {
    assert forall i :: 0 <= i < |value| ==> value[i] == line[n + 1..][|pad| + i] == line[n + 1 + |pad| + i];
  }

  /** A folded line lengthens the field that it follows. */
  function Folded(f: Field, line: string): Field
    requires line != ""
  {
    f.(value := f.value + "\n" + line[1..], marks := f.marks + [line[0]])
  }

  lemma FoldedLine(f: Field, line: string)
    requires |f.marks| == |Split(f.value, '\n')| - 1 && line != "" && '\n' !in line
    ensures |Folded(f, line).marks| == |Split(Folded(f, line).value, '\n')| - 1
    ensures FieldLines(Folded(f, line)) == FieldLines(f) + [line]
  {
    hide Split;
    var g := Folded(f, line);
    var tail := line[1..];
    SplitOneMore(f.value, '\n', tail);
    var parts, more := Split(f.value, '\n'), Split(g.value, '\n');
    assert g.value == f.value + ['\n'] + tail;
    assert more == parts + [tail] && more[0] == parts[0];
    assert line == [line[0]] + tail;
    assert more[1..] == parts[1..] + [tail];
    assert Continuations(more[1..], g.marks) == Continuations(parts[1..], f.marks) + [line];
  }

  lemma FoldedIsField(f: Field, key: string, line: string)
    requires FieldValid(f, key) && CleanLine(line) && line != "" && Blank(line[0]) && |line| <= MAX_LINE
    requires |Folded(f, line).value| <= MAX_CONTROL
    ensures FieldValid(Folded(f, line), key) && FieldLines(Folded(f, line)) == FieldLines(f) + [line]
  {
    hide Spells, FieldLines, Split;
    FoldedLine(f, line);
    assert CleanLine(line[1..]);
    CleanJoins(f.value, line[1..]);
  }

  lemma CleanJoins(value: string, tail: string)
    requires Clean(value) && CleanLine(tail)
    ensures Clean(value + "\n" + tail)
  {
  }

  /** The lines are those stanzas, the last closed by a blank line unless the parser has it open. */
  predicate Reading(lines: seq<string>, p: Parser, stanzas: seq<Stanza>, trailing: nat) {
    && Written(stanzas, SoFar(p)) && lines == AllLines(stanzas) + Blanks(trailing)
    && (if p.record != [] then trailing == 0 else trailing > 0 || stanzas == [])
  }

  lemma ReadBlank(lines: seq<string>, p: Parser, stanzas: seq<Stanza>, trailing: nat)
    requires Reading(lines, p, stanzas, trailing) && Step(p, "").Ok?
    ensures Reading(lines + [""], Step(p, "").value, stanzas, trailing + 1)
  {
    hide RecordValid, AllLines;
    assert Blanks(trailing + 1) == Blanks(trailing) + [""];
    assert lines + [""] == AllLines(stanzas) + Blanks(trailing + 1);
  }

  /** The last field of the last stanza is replaced by a longer one. */
  lemma ReadFolded(lines: seq<string>, p: Parser, stanzas: seq<Stanza>, line: string) returns (longer: seq<Stanza>)
    requires Reading(lines, p, stanzas, 0) && Step(p, line).Ok? && CleanLine(line) && line != "" && line[0] in " \t"
    ensures Reading(lines + [line], Step(p, line).value, longer, 0)
  {
    hide FieldValid, FieldLines, Step, AllLines, CleanLine, Written, RecordValid;
    FoldedStep(p, line);
    StanzaOpen(stanzas, p);
    var k, n := |stanzas| - 1, |p.record| - 1;
    var records := SoFar(p);
    var f := stanzas[k].fields[n];
    FoldedIsField(f, p.record[n].0, line);
    var fields := stanzas[k].fields[..n] + [Folded(f, line)];
    var record := p.record[n := (p.record[n].0, Folded(f, line).value)];
    FieldsLonger(stanzas[k].fields, p.record, line);
    longer := stanzas[..k] + [Stanza(stanzas[k].gap, fields)];
    LastLonger(stanzas, fields, line);
    assert AllLines(stanzas) + Blanks(0) == AllLines(stanzas);
    assert lines + [line] == AllLines(longer) + Blanks(0);
    LastReplaced(stanzas, records, longer[k], record);
    assert SoFar(Step(p, line).value) == records[..k] + [record];
  }

  lemma FoldedStep(p: Parser, line: string)
    requires Step(p, line).Ok? && line != "" && line[0] in " \t"
    ensures p.record != [] && |line| <= MAX_LINE && Blank(line[0])
    ensures var n := |p.record| - 1; var value := p.record[n].1 + "\n" + line[1..];
            |value| <= MAX_CONTROL && Step(p, line).value == p.(record := p.record[n := (p.record[n].0, value)])
  {
  }

  lemma FieldsLonger(fields: seq<Field>, record: Record, line: string)
    requires RecordValid(fields, record) && line != ""
    requires FieldValid(Folded(fields[|fields| - 1], line), record[|record| - 1].0)
    ensures var n := |fields| - 1; var g := Folded(fields[n], line);
            RecordValid(fields[..n] + [g], record[n := (record[n].0, g.value)])
  {
    hide FieldValid;
    var n := |fields| - 1;
    var g := Folded(fields[n], line);
    var after := record[n := (record[n].0, g.value)];
    assert forall i :: 0 <= i < |record| ==> after[i].0 == record[i].0;
    assert forall i :: 0 <= i < n ==> after[i] == record[i] && (fields[..n] + [g])[i] == fields[i];
  }

  /** What the last stanza gains, the lines gain. */
  lemma LastGains(stanzas: seq<Stanza>, fields: seq<Field>, line: string)
    requires stanzas != [] && RecordLines(fields) == RecordLines(stanzas[|stanzas| - 1].fields) + [line]
    ensures var k := |stanzas| - 1;
            AllLines(stanzas[..k] + [Stanza(stanzas[k].gap, fields)]) == AllLines(stanzas) + [line]
  {
    hide RecordLines, Blanks;
    var k := |stanzas| - 1;
    var before := AllLines(stanzas[..k]) + Blanks(stanzas[k].gap);
    assert (stanzas[..k] + [Stanza(stanzas[k].gap, fields)])[..k] == stanzas[..k];
    assert before + (RecordLines(stanzas[k].fields) + [line]) == before + RecordLines(stanzas[k].fields) + [line];
  }

  lemma LastLonger(stanzas: seq<Stanza>, fields: seq<Field>, line: string)
    requires stanzas != [] && fields != []
    requires var before := stanzas[|stanzas| - 1].fields;
             |before| == |fields| && before[..|before| - 1] == fields[..|fields| - 1]
             && FieldLines(fields[|fields| - 1]) == FieldLines(before[|before| - 1]) + [line]
    ensures var k := |stanzas| - 1;
            AllLines(stanzas[..k] + [Stanza(stanzas[k].gap, fields)]) == AllLines(stanzas) + [line]
  {
    hide FieldLines, AllLines;
    assert RecordLines(fields) == RecordLines(stanzas[|stanzas| - 1].fields) + [line];
    LastGains(stanzas, fields, line);
  }

  /** A field that begins a stanza, after the blank lines. */
  lemma BeginStanza(lines: seq<string>, p: Parser, q: Parser, stanzas: seq<Stanza>, trailing: nat, f: Field,
                    key: string, line: string)
    requires Reading(lines, p, stanzas, trailing) && p.record == [] && FieldValid(f, key) && FieldLines(f) == [line]
    requires q == p.(record := [(key, f.value)])
    ensures Reading(lines + [line], q, stanzas + [Stanza(trailing, [f])], 0)
  {
    hide FieldValid, FieldLines, AllLines, RecordValid;
    var longer := stanzas + [Stanza(trailing, [f])];
    OneField(f, key);
    NewStanza(stanzas, trailing, f, line);
    assert lines + [line] == AllLines(longer) + Blanks(0);
    assert SoFar(q) == SoFar(p) + [[(key, f.value)]];
    assert forall i :: 0 <= i < |stanzas| ==> longer[i] == stanzas[i] && SoFar(q)[i] == SoFar(p)[i];
  }

  /** A field that goes on with the stanza that is open. */
  lemma GoOn(lines: seq<string>, p: Parser, q: Parser, stanzas: seq<Stanza>, f: Field, key: string, line: string)
    requires Reading(lines, p, stanzas, 0) && p.record != [] && FieldValid(f, key) && FieldLines(f) == [line]
    requires !HasKey(p.record, key) && |p.record| <= MAX_FIELDS && q == p.(record := p.record + [(key, f.value)])
    ensures var k := |stanzas| - 1;
            Reading(lines + [line], q, stanzas[..k] + [Stanza(stanzas[k].gap, stanzas[k].fields + [f])], 0)
  {
    hide FieldValid, FieldLines, HasKey, AllLines, Written, RecordValid;
    StanzaOpen(stanzas, p);
    var k := |stanzas| - 1;
    var records := SoFar(p);
    MoreFields(stanzas[k].fields, p.record, f, key);
    var longer := stanzas[..k] + [Stanza(stanzas[k].gap, stanzas[k].fields + [f])];
    MoreLines(stanzas, f, line);
    assert AllLines(stanzas) + Blanks(0) == AllLines(stanzas);
    assert lines + [line] == AllLines(longer) + Blanks(0);
    LastReplaced(stanzas, records, longer[k], p.record + [(key, f.value)]);
    assert SoFar(q) == records[..k] + [p.record + [(key, f.value)]];
  }

  lemma LastReplaced(stanzas: seq<Stanza>, records: seq<Record>, stanza: Stanza, record: Record)
    requires Written(stanzas, records) && stanzas != [] && stanza.gap == stanzas[|stanzas| - 1].gap
    requires RecordValid(stanza.fields, record)
    ensures var k := |stanzas| - 1; Written(stanzas[..k] + [stanza], records[..k] + [record])
  {
    hide RecordValid;
  }

  lemma ReadField(lines: seq<string>, p: Parser, stanzas: seq<Stanza>, trailing: nat, line: string)
    returns (longer: seq<Stanza>)
    requires Reading(lines, p, stanzas, trailing) && Step(p, line).Ok?
    requires CleanLine(line) && line != "" && line[0] !in " \t"
    ensures Reading(lines + [line], Step(p, line).value, longer, 0)
  {
    hide FieldValid, FieldLines, Step, HasKey, CleanLine, Written, AllLines;
    var f, key := LineIsField(p, line);
    var q := Step(p, line).value;
    if p.record == [] {
      longer := stanzas + [Stanza(trailing, [f])];
      assert p.record + [(key, f.value)] == [(key, f.value)];
      BeginStanza(lines, p, q, stanzas, trailing, f, key, line);
    } else {
      StanzaOpen(stanzas, p);
      var k := |stanzas| - 1;
      longer := stanzas[..k] + [Stanza(stanzas[k].gap, stanzas[k].fields + [f])];
      GoOn(lines, p, q, stanzas, f, key, line);
    }
  }

  lemma StanzaOpen(stanzas: seq<Stanza>, p: Parser)
    requires Written(stanzas, SoFar(p)) && p.record != []
    ensures stanzas != [] && |SoFar(p)| == |stanzas| && SoFar(p)[|stanzas| - 1] == p.record
    ensures var fields, n := stanzas[|stanzas| - 1].fields, |p.record| - 1;
            && RecordValid(fields, p.record) && |fields| == |p.record|
            && FieldValid(fields[n], p.record[n].0) && p.record[n].1 == fields[n].value
  {
    hide FieldValid;
    assert RecordValid(stanzas[|stanzas| - 1].fields, SoFar(p)[|stanzas| - 1]);
  }

  lemma OneField(f: Field, key: string)
    requires FieldValid(f, key)
    ensures RecordValid([f], [(key, f.value)])
  {
    hide FieldValid;
  }

  lemma NewStanza(stanzas: seq<Stanza>, gap: nat, f: Field, line: string)
    requires FieldLines(f) == [line]
    ensures AllLines(stanzas + [Stanza(gap, [f])]) == AllLines(stanzas) + Blanks(gap) + [line]
  {
    hide FieldLines, Blanks;
    assert (stanzas + [Stanza(gap, [f])])[..|stanzas|] == stanzas;
    assert [f][..0] == [];
    assert RecordLines([f]) == [] + [line];
  }

  lemma MoreFields(fields: seq<Field>, record: Record, f: Field, key: string)
    requires RecordValid(fields, record) && FieldValid(f, key) && !HasKey(record, key) && |record| <= MAX_FIELDS
    ensures RecordValid(fields + [f], record + [(key, f.value)])
  {
    hide FieldValid;
    assert forall i :: 0 <= i < |record| ==> record[i].0 != key;
  }

  lemma MoreLines(stanzas: seq<Stanza>, f: Field, line: string)
    requires stanzas != [] && FieldLines(f) == [line]
    ensures var k := |stanzas| - 1;
            AllLines(stanzas[..k] + [Stanza(stanzas[k].gap, stanzas[k].fields + [f])]) == AllLines(stanzas) + [line]
  {
    hide FieldLines, AllLines;
    var k := |stanzas| - 1;
    var fields := stanzas[k].fields + [f];
    assert fields[..|fields| - 1] == stanzas[k].fields;
    assert RecordLines(fields) == RecordLines(stanzas[k].fields) + [line];
    LastGains(stanzas, fields, line);
  }

  /** Lines that are read without a refusal are the lines of some stanzas. */
  lemma {:induction false} LinesAreStanzas(lines: seq<string>, n: nat) returns (stanzas: seq<Stanza>, trailing: nat)
    requires n <= |lines| && AllClean(lines) && Steps(Parser([], []), lines[..n]).Ok?
    ensures Reading(lines[..n], Steps(Parser([], []), lines[..n]).value, stanzas, trailing)
    decreases n
  {
    hide Step, Written, AllLines;
    var p := Parser([], []);
    if n == 0 {
      stanzas, trailing := [], 0;
      NothingRead();
    } else {
      var front, line := lines[..n - 1], lines[n - 1];
      TakeOneMore(lines, n - 1);
      StepsAppend(p, front, [line]);
      var q := Steps(p, front).value;
      StepsLast(p, front, line, q);
      stanzas, trailing := LinesAreStanzas(lines, n - 1);
      if line == "" {
        ReadBlank(front, q, stanzas, trailing);
        trailing := trailing + 1;
      } else if line[0] in " \t" {
        FoldedStep(q, line);
        stanzas := ReadFolded(front, q, stanzas, line);
      } else {
        stanzas := ReadField(front, q, stanzas, trailing, line);
        trailing := 0;
      }
    }
  }

  lemma NothingRead()
    ensures Reading([], Parser([], []), [], 0)
  {
  }

  ghost predicate Prints(raw: string, records: seq<Record>) {
    exists stanzas, trailing :: Printable(stanzas, records) && Returned(raw, Render(stanzas, trailing))
  }

  lemma AcceptedPrints(raw: string)
    requires Stanzas(raw).Ok?
    ensures Prints(raw, Stanzas(raw).value)
  {
    hide Step, Written, AllLines, Returned, Normalise;
    var normal := Normalise(raw);
    var lines := Split(normal, '\n');
    assert Clean(normal);
    SplitClean(normal);
    TakeAll(lines);
    var stanzas, trailing := LinesAreStanzas(lines, |lines|);
    JoinSplit(normal, '\n');
    NormaliseExactly(raw, normal);
    assert Render(stanzas, trailing) == normal;
    var p := Steps(Parser([], []), lines).value;
    assert p.result + [] == p.result;
    assert Finish(p) == Ok(SoFar(p));
  }

  /**
   A text within the size limit gives exactly the records that it prints: lower-case keys, at most
   1025 to a stanza and none twice, values folded at marked lines, stanzas apart by blank lines.
   */
  lemma StanzasExactly(raw: string, records: seq<Record>)
    ensures Stanzas(raw) == Ok(records) <==> Utf8Length(raw) <= MAX_CONTROL && Prints(raw, records)
  {
    hide Printable, Returned, Render, Utf8Length;
    if Stanzas(raw) == Ok(records) {
      AcceptedPrints(raw);
    }
    if Utf8Length(raw) <= MAX_CONTROL && Prints(raw, records) {
      var stanzas, trailing :| Printable(stanzas, records) && Returned(raw, Render(stanzas, trailing));
      ParseInvertsRender(raw, stanzas, records, trailing);
    }
  }
}
