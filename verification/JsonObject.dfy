/** Finding the outermost object in a model's reply (sections 4 and 7 of RFC
    8259). A string here is a string of bytes. */
module JsonObject {
  import opened Common

  // ------------------------------------------------------------------
  // The scan
  // ------------------------------------------------------------------

  datatype Scan = Scan(depth: int, inString: bool, escaped: bool)

  function Next(s: Scan, ch: char): Scan {
    if s.escaped then s.(escaped := false)
    else if ch == '\\' && s.inString then s.(escaped := true)
    else if ch == '"' then s.(inString := !s.inString)
    else if s.inString then s
    else if ch == '{' then s.(depth := s.depth + 1)
    else if ch == '}' then s.(depth := s.depth - 1)
    else s
  }

  /** A brace outside a string that closes the outermost one. */
  predicate Closes(s: Scan, ch: char) {
    !s.escaped && !s.inString && ch == '}' && s.depth == 1
  }

  datatype Outcome = Found(length: nat) | Open(state: Scan)

  function Run(s: Scan, text: string): (r: Outcome)
    ensures r.Found? ==> 0 < r.length <= |text|
    decreases |text|
  {
    if text == "" then Open(s)
    else if Closes(s, text[0]) then Found(1)
    else
      match Run(Next(s, text[0]), text[1..])
      case Found(n) => Found(n + 1)
      case Open(t) => Open(t)
  }

  const Fresh := Scan(0, false, false)

  /** Where the first brace is, or the length. */
  function FirstBrace(s: string): (i: nat)
    ensures i <= |s| && '{' !in s[..i] && (i < |s| ==> s[i] == '{')
  {
    if s == "" || s[0] == '{' then 0 else 1 + FirstBrace(s[1..])
  }

  function Extract(s: string): Option<string> {
    var rest := s[FirstBrace(s)..];
    match Run(Fresh, rest)
    case Found(n) => Some(rest[..n])
    case Open(_) => None
  }

  method ExtractJSONObject(s: string) returns (r: Option<string>)
    ensures r == Extract(s)
  {
    hide FirstBrace;
    var start := FirstBrace(s);
    if start == |s| {
      return None;
    }
    var depth, inString, escaped := 0, false, false;
    var i := start;
    assert s[start..][i - start..] == s[start..];
    while i < |s|
      invariant start <= i <= |s|
      invariant Run(Fresh, s[start..]) == Shift(Run(Scan(depth, inString, escaped), s[i..]), i - start)
    {
      var ch := s[i];
      ghost var before := Scan(depth, inString, escaped);
      assert s[i..][1..] == s[i + 1..];
      if escaped {
        escaped := false;
      } else if ch == '\\' && inString {
        escaped := true;
      } else if ch == '"' {
        inString := !inString;
      } else if inString {
      } else if ch == '{' {
        depth := depth + 1;
      } else if ch == '}' {
        depth := depth - 1;
        if depth == 0 {
          assert s[start..][..i + 1 - start] == s[start..i + 1];
          return Some(s[start..i + 1]);
        }
      }
      assert Next(before, ch) == Scan(depth, inString, escaped) && !Closes(before, ch);
      i := i + 1;
    }
    return None;
  }

  function Shift(o: Outcome, n: nat): Outcome {
    if o.Found? then Found(o.length + n) else o
  }

  // ------------------------------------------------------------------
  // Objects as they are written
  // ------------------------------------------------------------------

  /** A character of a string: itself, or a backslash and one more; the digits
      after `\u` are themselves. */
  datatype Part = Plain(c: char) | Escape(c: char)

  /** A value with its white space. A literal is a number, `true`, `false` or
      `null`. */
  datatype Json =
    | Literal(text: string)
    | Text(parts: seq<Part>)
    | Array(elems: Elems)
    | Object(members: Members)

  datatype Elems = NoElems(blank: string) | Elem(before: string, value: Json, after: string, rest: Elems)

  datatype Members =
    | NoMembers(blank: string)
    | Member(before: string, key: seq<Part>, colon: string, value: Json, after: string, rest: Members)

  /** White space, commas, colons, brackets, and the bytes of a literal: none
      of the four characters the scan looks at. */
  predicate Neutral(s: string) {
    forall i :: 0 <= i < |s| ==> s[i] != '"' && s[i] != '\\' && s[i] != '{' && s[i] != '}'
  }

  predicate Written(v: Json) {
    match v
    case Literal(text) => Neutral(text)
    case Text(parts) => PartsWritten(parts)
    case Array(elems) => ElemsWritten(elems)
    case Object(members) => MembersWritten(members)
  }

  predicate PartsWritten(parts: seq<Part>) {
    forall i :: 0 <= i < |parts| ==> parts[i].Plain? ==> parts[i].c != '"' && parts[i].c != '\\'
  }

  predicate ElemsWritten(es: Elems) {
    match es
    case NoElems(blank) => Neutral(blank)
    case Elem(before, value, after, rest) => Neutral(before) && Written(value) && Neutral(after) && ElemsWritten(rest)
  }

  predicate MembersWritten(ms: Members) {
    match ms
    case NoMembers(blank) => Neutral(blank)
    case Member(before, key, colon, value, after, rest) =>
      Neutral(before) && PartsWritten(key) && Neutral(colon) && Written(value) && Neutral(after) && MembersWritten(rest)
  }

  function RenderPart(p: Part): string {
    match p
    case Plain(c) => [c]
    case Escape(c) => ['\\', c]
  }

  function RenderParts(parts: seq<Part>): string {
    if parts == [] then "" else RenderPart(parts[0]) + RenderParts(parts[1..])
  }

  function Quoted(parts: seq<Part>): string {
    "\"" + RenderParts(parts) + "\""
  }

  function Render(v: Json): string {
    match v
    case Literal(text) => text
    case Text(parts) => Quoted(parts)
    case Array(elems) => "[" + RenderElems(elems) + "]"
    case Object(members) => "{" + RenderMembers(members) + "}"
  }

  function RenderElems(es: Elems): string {
    match es
    case NoElems(blank) => blank
    case Elem(before, value, after, rest) =>
      before + (Render(value) + (after + ((if rest.Elem? then "," else "") + RenderElems(rest))))
  }

  function RenderMembers(ms: Members): string {
    match ms
    case NoMembers(blank) => blank
    case Member(before, key, colon, value, after, rest) =>
      before + (Quoted(key) + (colon + (Render(value) + (after + ((if rest.Member? then "," else "") + RenderMembers(rest))))))
  }

  // ------------------------------------------------------------------
  // The scan passes over a value and stops at the end of an object
  // ------------------------------------------------------------------

  lemma {:induction false} RunConcat(s: Scan, a: string, b: string)
    ensures Run(s, a + b) == match Run(s, a) case Found(n) => Found(n) case Open(t) => Shift(Run(t, b), |a|)
    decreases |a|
  {
    hide Next, Closes;
    if a == "" {
      assert a + b == b;
    } else {
      assert (a + b)[1..] == a[1..] + b && (a + b)[0] == a[0];
      if !Closes(s, a[0]) {
        RunConcat(Next(s, a[0]), a[1..], b);
      }
    }
  }

  lemma {:induction false} NeutralPasses(s: Scan, text: string)
    requires Neutral(text) && !s.inString && !s.escaped
    ensures Run(s, text) == Open(s)
    decreases |text|
  {
    if text != "" {
      NeutralPasses(s, text[1..]);
    }
  }

  lemma {:induction false} PartsPass(s: Scan, parts: seq<Part>)
    requires PartsWritten(parts) && s.inString && !s.escaped
    ensures Run(s, RenderParts(parts)) == Open(s)
    decreases |parts|
  {
    if parts != [] {
      PartPasses(s, parts[0]);
      PartsPass(s, parts[1..]);
      RunConcat(s, RenderPart(parts[0]), RenderParts(parts[1..]));
    }
  }

  lemma PartPasses(s: Scan, p: Part)
    requires s.inString && !s.escaped && (p.Plain? ==> p.c != '"' && p.c != '\\')
    ensures Run(s, RenderPart(p)) == Open(s)
  {
    match p
    case Plain(c) =>
      assert [c][1..] == "";
    case Escape(c) =>
      var t := s.(escaped := true);
      assert [c][1..] == "" && ['\\', c][1..] == [c];
      assert Run(t, [c]) == Open(s);
  }

  lemma QuotedPasses(s: Scan, parts: seq<Part>)
    requires PartsWritten(parts) && !s.inString && !s.escaped
    ensures Run(s, Quoted(parts)) == Open(s)
  {
    hide RenderParts, PartsWritten;
    var t := s.(inString := true);
    assert "\""[1..] == "";
    PartsPass(t, parts);
    RunConcat(s, "\"", RenderParts(parts));
    RunConcat(s, "\"" + RenderParts(parts), "\"");
  }

  /** Two texts passed over make one. */
  lemma Passes(s: Scan, a: string, b: string)
    requires Run(s, a) == Open(s) && Run(s, b) == Open(s)
    ensures Run(s, a + b) == Open(s)
  {
    hide Run;
    RunConcat(s, a, b);
  }

  lemma {:induction false} ValuePasses(s: Scan, v: Json)
    requires Written(v) && s.depth >= 1 && !s.inString && !s.escaped
    ensures Run(s, Render(v)) == Open(s)
    decreases v
  {
    hide Run, Neutral, PartsWritten, Quoted;
    match v
    case Literal(text) => NeutralPasses(s, text);
    case Text(parts) => QuotedPasses(s, parts);
    case Array(elems) =>
      ElemsPass(s, elems);
      Brackets(s);
      Passes(s, "[", RenderElems(elems));
      Passes(s, "[" + RenderElems(elems), "]");
    case Object(members) =>
      var t := s.(depth := s.depth + 1);
      MembersPass(t, members);
      Braces(s);
      RunConcat(s, "{", RenderMembers(members));
      RunConcat(s, "{" + RenderMembers(members), "}");
  }

  lemma Brackets(s: Scan)
    requires !s.inString && !s.escaped
    ensures Run(s, "[") == Open(s) && Run(s, "]") == Open(s) && Run(s, ",") == Open(s) && Run(s, "") == Open(s)
  {
    NeutralPasses(s, "[");
    NeutralPasses(s, "]");
    NeutralPasses(s, ",");
  }

  lemma Braces(s: Scan)
    requires !s.inString && !s.escaped
    ensures Run(s, "{") == Open(s.(depth := s.depth + 1))
    ensures s.depth >= 1 ==> Run(s.(depth := s.depth + 1), "}") == Open(s)
    ensures s.depth == 0 ==> Run(s.(depth := s.depth + 1), "}") == Found(1)
  {
    assert "{"[1..] == "" && "}"[1..] == "";
  }

  lemma {:induction false} ElemsPass(s: Scan, es: Elems)
    requires ElemsWritten(es) && s.depth >= 1 && !s.inString && !s.escaped
    ensures Run(s, RenderElems(es)) == Open(s)
    decreases es
  {
    hide Run, Neutral, Render;
    match es
    case NoElems(blank) => NeutralPasses(s, blank);
    case Elem(before, value, after, rest) =>
      ElemsPass(s, rest);
      Brackets(s);
      var comma := if rest.Elem? then "," else "";
      Passes(s, comma, RenderElems(rest));
      NeutralPasses(s, after);
      Passes(s, after, comma + RenderElems(rest));
      ValuePasses(s, value);
      Passes(s, Render(value), after + (comma + RenderElems(rest)));
      NeutralPasses(s, before);
      Passes(s, before, Render(value) + (after + (comma + RenderElems(rest))));
  }

  lemma {:induction false} MembersPass(s: Scan, ms: Members)
    requires MembersWritten(ms) && s.depth >= 1 && !s.inString && !s.escaped
    ensures Run(s, RenderMembers(ms)) == Open(s)
    decreases ms
  {
    hide Run, Neutral, Render, Quoted, PartsWritten;
    match ms
    case NoMembers(blank) => NeutralPasses(s, blank);
    case Member(before, key, colon, value, after, rest) =>
      MembersPass(s, rest);
      Brackets(s);
      var comma := if rest.Member? then "," else "";
      Passes(s, comma, RenderMembers(rest));
      NeutralPasses(s, after);
      Passes(s, after, comma + RenderMembers(rest));
      ValuePasses(s, value);
      Passes(s, Render(value), after + (comma + RenderMembers(rest)));
      NeutralPasses(s, colon);
      Passes(s, colon, Render(value) + (after + (comma + RenderMembers(rest))));
      QuotedPasses(s, key);
      Passes(s, Quoted(key), colon + (Render(value) + (after + (comma + RenderMembers(rest)))));
      NeutralPasses(s, before);
      Passes(s, before, Quoted(key) + (colon + (Render(value) + (after + (comma + RenderMembers(rest))))));
  }

  lemma {:induction false} FirstBraceAfter(prefix: string, rest: string)
    requires '{' !in prefix && rest != "" && rest[0] == '{'
    ensures FirstBrace(prefix + rest) == |prefix|
    decreases |prefix|
  {
    if prefix == "" {
      assert prefix + rest == rest;
    } else {
      assert (prefix + rest)[1..] == prefix[1..] + rest;
      FirstBraceAfter(prefix[1..], rest);
    }
  }

  /** Any object, however its strings nest quotes, escapes and braces, is cut
      out of any prose exactly, as long as the prose before it has no brace. */
  lemma ObjectIsFound(members: Members, prefix: string, suffix: string)
    requires MembersWritten(members) && '{' !in prefix
    ensures Extract(prefix + Render(Object(members)) + suffix) == Some(Render(Object(members)))
  {
    hide Run, RenderMembers, FirstBrace;
    var body := RenderMembers(members);
    var o := "{" + body + "}";
    FirstBraceAfter(prefix, o + suffix);
    assert prefix + o + suffix == prefix + (o + suffix);
    assert (prefix + (o + suffix))[|prefix|..] == o + suffix;
    Braces(Fresh);
    MembersPass(Fresh.(depth := 1), members);
    RunConcat(Fresh, "{", body);
    RunConcat(Fresh, "{" + body, "}");
    RunConcat(Fresh, o, suffix);
    assert (o + suffix)[..|o|] == o;
  }

  /** The same from any depth on: what was found would be found again. */
  lemma {:induction false} FoundAgain(s: Scan, text: string)
    requires Run(s, text).Found?
    ensures Run(s, text[..Run(s, text).length]) == Run(s, text)
    decreases |text|
  {
    hide Next, Closes;
    var n := Run(s, text).length;
    if Closes(s, text[0]) {
      assert text[..1][0] == text[0];
    } else {
      FoundAgain(Next(s, text[0]), text[1..]);
      assert text[..n][0] == text[0] && text[..n][1..] == text[1..][..n - 1];
    }
  }

  /** What is cut out of a reply starts and ends with its braces, and cutting
      it again changes nothing. */
  lemma ExtractIsStable(s: string)
    requires Extract(s).Some?
    ensures var r := Extract(s).value;
      |r| >= 2 && r[0] == '{' && r[|r| - 1] == '}' && Extract(r) == Some(r)
  {
    hide FirstBrace;
    var rest := s[FirstBrace(s)..];
    var n := Run(Fresh, rest).length;
    FoundAgain(Fresh, rest);
    FoundEnds(Fresh, rest);
    assert rest[0] == '{';
    FirstBraceAfter("", rest[..n]);
    var r := rest[..n];
    assert "" + r == r && r[0..] == r && r[..n] == r;
  }

  lemma {:induction false} FoundEnds(s: Scan, text: string)
    requires Run(s, text).Found?
    ensures text[Run(s, text).length - 1] == '}'
    ensures !Closes(s, text[0]) ==> Run(s, text).length >= 2
    decreases |text|
  {
    hide Next;
    if !Closes(s, text[0]) {
      FoundEnds(Next(s, text[0]), text[1..]);
    }
  }
}
