/**
 The template compiler of src/ejs.c: a template is cut into text and tags, text becomes a
 string literal appended to the output, and tag bodies are copied into statements.
 */
module Ejs {
  import opened Machine
  import opened TextBuffer

  // ---------------------------------------------------------------- segments

  datatype Segment =
    | Text(text: string)
    | Escaped(code: string)
    | Raw(code: string)
    | Comment(code: string)
    | Code(code: string)
    | Unclosed(text: string)

  /** Where the pair of characters first stands, or the length when it does not. */
  function Find(s: string, a: char, b: char): (i: nat)
    ensures i == |s| || (i + 1 < |s| && s[i] == a && s[i + 1] == b)
  {
    if |s| < 2 then |s|
    else if s[0] == a && s[1] == b then 0
    else 1 + Find(s[1..], a, b)
  }

  predicate NoOpen(s: string) {
    Find(s, '<', '%') == |s|
  }

  predicate NoClose(s: string) {
    Find(s, '%', '>') == |s|
  }

  /** A tag by the first character of its body. */
  function Classify(body: string): Segment {
    if body != "" && body[0] == '=' then Escaped(body[1..])
    else if body != "" && body[0] == '-' then Raw(body[1..])
    else if body != "" && body[0] == '#' then Comment(body[1..])
    else Code(body)
  }

  function TextBefore(s: string): seq<Segment> {
    if s == "" then [] else [Text(s)]
  }

  function Segments(s: string): seq<Segment>
    decreases |s|
  {
    if s == "" then []
    else
      var i := Find(s, '<', '%');
      if i == |s| then [Text(s)] else TextBefore(s[..i]) + InTag(s[i + 2..])
  }

  /** The segments of what follows an opening delimiter. */
  function InTag(inner: string): seq<Segment>
    decreases |inner|
  {
    var j := Find(inner, '%', '>');
    if j == |inner| then [Unclosed(inner)] else [Classify(inner[..j])] + Segments(inner[j + 2..])
  }

  function Body(g: Segment): string {
    match g
    case Escaped(c) => "=" + c
    case Raw(c) => "-" + c
    case Comment(c) => "#" + c
    case Code(c) => c
    case Text(t) => t
    case Unclosed(t) => t
  }

  function Source(g: Segment): string {
    if g.Text? then g.text
    else if g.Unclosed? then "<%" + g.text
    else "<%" + Body(g) + "%>"
  }

  function Sources(gs: seq<Segment>): string {
    if gs == [] then "" else Source(gs[0]) + Sources(gs[1..])
  }

  /** The segmentation a reader of the template language expects: text holds no opening
      delimiter and never meets other text, tag bodies hold no closing one, a plain tag does not
      start with a marker, and only the last segment may be unclosed. */
  predicate Canonical(gs: seq<Segment>) {
    gs == [] ||
    (Canonical(gs[1..]) &&
     match gs[0]
     case Text(t) => t != "" && NoOpen(t) && (|gs| > 1 ==> !gs[1].Text?)
     case Unclosed(t) => NoClose(t) && |gs| == 1
     case Escaped(_) => NoClose(Body(gs[0]))
     case Raw(_) => NoClose(Body(gs[0]))
     case Comment(_) => NoClose(Body(gs[0]))
     case Code(c) => NoClose(c) && Classify(c) == gs[0])
  }

  /** Absence of the pair, position by position. */
  lemma {:induction false} FindNoneIff(s: string, a: char, b: char)
    ensures Find(s, a, b) == |s| <==> forall k :: 0 <= k < |s| - 1 ==> !(s[k] == a && s[k + 1] == b)
  {
    if |s| >= 2 && !(s[0] == a && s[1] == b) {
      FindNoneIff(s[1..], a, b);
      if Find(s[1..], a, b) == |s[1..]| {
        forall k | 0 <= k < |s| - 1
          ensures !(s[k] == a && s[k + 1] == b)
        {
          if k > 0 {
            assert s[1..][k - 1] == s[k] && s[1..][k] == s[k + 1];
          }
        }
      } else {
        var k :| 0 <= k < |s[1..]| - 1 && s[1..][k] == a && s[1..][k + 1] == b;
        assert s[k + 1] == a && s[k + 1 + 1] == b;
      }
    }
  }

  /** What precedes the first pair does not hold it, also when cut off. */
  lemma {:induction false} FindTake(s: string, a: char, b: char)
    ensures Find(s[..Find(s, a, b)], a, b) == Find(s, a, b)
  {
    var i := Find(s, a, b);
    if |s| >= 2 && i > 0 {
      FindTake(s[1..], a, b);
      assert s[..i][1..] == s[1..][..i - 1];
    } else if |s| < 2 {
      assert s[..i] == s;
    }
  }

  lemma {:induction false} FindAppend(t: string, rest: string, a: char, b: char)
    requires a != b && Find(t, a, b) == |t| && |rest| >= 2 && rest[0] == a && rest[1] == b
    ensures Find(t + rest, a, b) == |t|
  {
    if t == "" {
      assert t + rest == rest;
    } else {
      if |t| == 1 {
        assert t[1..] == "";
      }
      FindAppend(t[1..], rest, a, b);
      assert (t + rest)[1..] == t[1..] + rest;
    }
  }

  lemma ClassifyBody(body: string)
    ensures Body(Classify(body)) == body && !Classify(body).Text? && !Classify(body).Unclosed?
    ensures Classify(Body(Classify(body))) == Classify(body)
  {
  }

  lemma BodyClassify(g: Segment)
    requires !g.Text? && !g.Unclosed? && (g.Code? ==> Classify(g.code) == g)
    ensures Classify(Body(g)) == g
  {
  }

  /** The segments put together are the template, and they are canonical. */
  lemma {:induction false} SegmentsAreTheSource(s: string)
    ensures Sources(Segments(s)) == s && Canonical(Segments(s))
    ensures NoOpen(s) && s != "" ==> Segments(s) == [Text(s)]
    decreases |s|
  {
    hide Find, Body, Classify, Canonical, Sources;
    OneSegment(Text(s));
    NoSegments();
    if s != "" {
      var i := Find(s, '<', '%');
      if i < |s| {
        var inner := s[i + 2..];
        var j := Find(inner, '%', '>');
        FindTake(s, '<', '%');
        Halves(s, i, '<', '%');
        if j == |inner| {
          OneSegment(Unclosed(inner));
          Prepend(s[..i], [Unclosed(inner)]);
          Assoc(s[..i], "<%", inner);
        } else {
          var g, gs := Classify(inner[..j]), Segments(inner[j + 2..]);
          FindTake(inner, '%', '>');
          Halves(inner, j, '%', '>');
          ClassifyBody(inner[..j]);
          SegmentsAreTheSource(inner[j + 2..]);
          PrependTag(g, gs);
          Prepend(s[..i], [g] + gs);
          Rejoin(s[..i], inner[..j], inner[j + 2..]);
        }
      }
    }
  }

  lemma Halves(s: string, i: nat, a: char, b: char)
    requires i + 1 < |s| && s[i] == a && s[i + 1] == b
    ensures s == s[..i] + [a, b] + s[i + 2..]
  {
  }

  lemma Rejoin(t: string, body: string, rest: string)
    ensures t + ("<%" + body + "%>" + rest) == t + "<%" + (body + "%>" + rest)
  {
  }

  lemma OneSegment(g: Segment)
    ensures Sources([g]) == Source(g)
    ensures g.Text? ==> (Canonical([g]) <==> g.text != "" && NoOpen(g.text))
    ensures g.Unclosed? ==> (Canonical([g]) <==> NoClose(g.text))
  {
    assert [g][1..] == [];
    assert Sources([]) == "" && Source(g) + "" == Source(g);
  }

  lemma PrependTag(g: Segment, gs: seq<Segment>)
    requires Canonical(gs) && NoClose(Body(g))
    requires !g.Text? && !g.Unclosed? && Classify(Body(g)) == g
    ensures Canonical([g] + gs) && Sources([g] + gs) == "<%" + Body(g) + "%>" + Sources(gs)
  {
    assert ([g] + gs)[1..] == gs;
  }

  lemma Prepend(t: string, gs: seq<Segment>)
    requires NoOpen(t) && Canonical(gs) && gs != [] && !gs[0].Text?
    ensures Canonical(TextBefore(t) + gs) && Sources(TextBefore(t) + gs) == t + Sources(gs)
  {
    if t != "" {
      assert (TextBefore(t) + gs)[1..] == gs;
    } else {
      assert TextBefore(t) + gs == gs && t + Sources(gs) == Sources(gs);
    }
  }

  lemma NoSegments()
    ensures Sources([]) == "" && Segments("") == [] && Canonical([])
  {
  }

  lemma OpensTag(gs: seq<Segment>)
    requires gs != [] && !gs[0].Text?
    ensures "<%" <= Sources(gs)
  {
  }

  lemma FindHere(s: string, a: char, b: char)
    requires [a, b] <= s
    ensures Find(s, a, b) == 0
  {
  }

  /** Text in front of a tag is a segment of its own. */
  lemma TextThenTag(t: string, s: string)
    requires t != "" && NoOpen(t) && "<%" <= s
    ensures Segments(t + s) == [Text(t)] + Segments(s)
  {
    hide Find, InTag;
    FindAppend(t, s, '<', '%');
    assert (t + s)[..|t|] == t && (t + s)[|t| + 2..] == s[2..];
    FindHere(s, '<', '%');
  }

  lemma SegmentsOfTag(body: string, rest: string)
    requires NoClose(body)
    ensures Segments("<%" + body + "%>" + rest) == [Classify(body)] + Segments(rest)
  {
    hide Classify, Find;
    var inner := body + ("%>" + rest);
    Rejoin("", body, rest);
    var s := "<%" + inner;
    assert s == "<%" + body + "%>" + rest;
    FindHere(s, '<', '%');
    DropLeft("<%", inner);
    FindAppend(body, "%>" + rest, '%', '>');
    DropLeft(body, "%>" + rest);
    assert inner[|body| + 2..] == inner[|body|..][2..] == rest;
    assert TextBefore(s[..0]) == [];
  }

  lemma SegmentsOfUnclosed(t: string)
    requires NoClose(t)
    ensures Segments("<%" + t) == [Unclosed(t)]
  {
    assert Find("<%" + t, '<', '%') == 0 && ("<%" + t)[2..] == t;
  }

  lemma TagOf(gs: seq<Segment>)
    requires Canonical(gs) && gs != [] && !gs[0].Text?
    ensures gs[0].Unclosed? ==> gs == [gs[0]] && NoClose(gs[0].text) && Sources(gs) == "<%" + gs[0].text
    ensures !gs[0].Unclosed? ==>
              NoClose(Body(gs[0])) && Classify(Body(gs[0])) == gs[0] &&
              Sources(gs) == "<%" + Body(gs[0]) + "%>" + Sources(gs[1..])
  {
    if gs[0].Unclosed? {
      OneSegment(gs[0]);
    } else {
      BodyClassify(gs[0]);
    }
  }

  lemma TextOf(gs: seq<Segment>)
    requires Canonical(gs) && gs != [] && gs[0].Text?
    ensures gs[0].text != "" && NoOpen(gs[0].text) && (|gs| > 1 ==> !gs[1].Text?)
    ensures Sources(gs) == gs[0].text + Sources(gs[1..])
  {
  }

  lemma CanonicalTail(gs: seq<Segment>)
    requires Canonical(gs) && gs != []
    ensures Canonical(gs[1..])
  {
  }

  /** And no other canonical list of segments has this source. */
  lemma {:induction false} SegmentsUnique(gs: seq<Segment>)
    requires Canonical(gs)
    ensures Segments(Sources(gs)) == gs
    decreases |gs|
  {
    hide Find, Body, Classify, Sources, Segments, Canonical;
    NoSegments();
    if gs != [] {
      var g, tail := gs[0], gs[1..];
      assert gs == [g] + tail;
      CanonicalTail(gs);
      SegmentsUnique(tail);
      if g.Text? {
        TextOf(gs);
        if tail == [] {
          assert g.text + "" == g.text;
          SegmentsAreTheSource(g.text);
        } else {
          OpensTag(tail);
          TextThenTag(g.text, Sources(tail));
        }
      } else {
        TagOf(gs);
        if g.Unclosed? {
          SegmentsOfUnclosed(g.text);
        } else {
          SegmentsOfTag(Body(g), Sources(tail));
        }
      }
    }
  }

  // ---------------------------------------------------------------- string literals

  function EscapedChar(c: char): string {
    match c
    case '\\' => "\\\\"
    case '\"' => "\\\""
    case '\n' => "\\n"
    case '\r' => "\\r"
    case '\t' => "\\t"
    case _ => [c]
  }

  function EscapedText(t: string): string {
    if t == "" then "" else EscapedChar(t[0]) + EscapedText(t[1..])
  }

  /** What a backslash and this character stand for (section 12.9.4 of ECMA-262); hexadecimal,
      Unicode and octal escapes and line continuations are left undefined here. */
  function SingleEscape(c: char): Option<char> {
    match c
    case 'n' => Some('\n')
    case 'r' => Some('\r')
    case 't' => Some('\t')
    case 'b' => Some('\U{0008}')
    case 'f' => Some('\U{000C}')
    case 'v' => Some('\U{000B}')
    case _ => if c in "xu\n\r" || '0' <= c <= '9' then None else Some(c)
  }

  /** Reads the rest of a double-quoted literal: its value and what follows the closing quote. */
  function ReadLiteral(s: string): (r: Option<(string, string)>)
    ensures r.Some? ==> |r.value.1| < |s|
    decreases |s|
  {
    if s == "" || s[0] == '\n' || s[0] == '\r' then None
    else if s[0] == '\"' then Some(("", s[1..]))
    else if s[0] != '\\' then Prefixed(s[0], ReadLiteral(s[1..]))
    else if |s| < 2 || SingleEscape(s[1]).None? then None
    else Prefixed(SingleEscape(s[1]).value, ReadLiteral(s[2..]))
  }

  function Prefixed(c: char, r: Option<(string, string)>): Option<(string, string)> {
    if r.None? then None else Some(([c] + r.value.0, r.value.1))
  }

  /** The literal emitted for a text is read back as that text, and it ends where it should. */
  lemma {:induction false} LiteralRoundTrip(t: string, rest: string)
    ensures ReadLiteral(EscapedText(t) + "\"" + rest) == Some((t, rest))
  {
    if t == "" {
      assert EscapedText(t) + "\"" + rest == "\"" + rest;
      assert ("\"" + rest)[1..] == rest;
    } else {
      var tail := EscapedText(t[1..]) + "\"" + rest;
      var s := EscapedText(t) + "\"" + rest;
      assert s == EscapedChar(t[0]) + tail;
      LiteralRoundTrip(t[1..], rest);
      FirstChar(t[0], tail);
      assert [t[0]] + t[1..] == t;
    }
  }

  lemma EscapeShape(c: char)
    ensures var e := EscapedChar(c);
            if |e| == 1 then e == [c] && c !in "\\\"\n\r"
            else |e| == 2 && e[0] == '\\' && SingleEscape(e[1]) == Some(c)
  {
  }

  lemma FirstChar(c: char, tail: string)
    ensures ReadLiteral(EscapedChar(c) + tail) == Prefixed(c, ReadLiteral(tail))
  {
    hide Prefixed, SingleEscape;
    var s := EscapedChar(c) + tail;
    EscapeShape(c);
    if |EscapedChar(c)| == 1 {
      assert s[0] == c && s[1..] == tail;
    } else {
      assert s[0] == '\\' && s[1] == EscapedChar(c)[1] && s[2..] == tail;
    }
  }

  /** An emitted literal is on one line. */
  lemma {:induction false} EscapedOnOneLine(t: string, c: char)
    requires c in "\n\r\t"
    ensures c !in EscapedText(t)
  {
    hide EscapedChar;
    if t != "" {
      EscapedOnOneLine(t[1..], c);
      CharOnOneLine(t[0], c);
    }
  }

  lemma CharOnOneLine(d: char, c: char)
    requires c in "\n\r\t"
    ensures c !in EscapedChar(d)
  {
  }

  /** And text without a special character stands for itself. */
  lemma {:induction false} PlainText(t: string)
    requires forall i :: 0 <= i < |t| ==> t[i] !in "\\\"\n\r\t"
    ensures EscapedText(t) == t
  {
    if t != "" {
      PlainText(t[1..]);
      assert EscapedChar(t[0]) == [t[0]] && t == [t[0]] + t[1..];
    }
  }

  lemma {:induction false} EscapedSnoc(t: string, c: char)
    ensures EscapedText(t + [c]) == EscapedText(t) + EscapedChar(c)
  {
    if t == "" {
      assert (t + [c])[1..] == "" && EscapedText("") == "";
      assert EscapedText(t + [c]) == EscapedChar(c) + "";
      assert EscapedText(t) + EscapedChar(c) == EscapedChar(c);
    } else {
      EscapedSnoc(t[1..], c);
      assert (t + [c])[1..] == t[1..] + [c];
    }
  }

  // ---------------------------------------------------------------- the compiled text

  const PREAMBLE := "function __esc(s){return String(s)" +
    (".replace(/&/g,'&amp;')" +
    (".replace(/</g,'&lt;')" +
    (".replace(/>/g,'&gt;')" +
    (".replace(/\"/g,'&quot;')" +
    (".replace(/'/g,'&#39;')" +
    ";}\nexport default function(){\nlet __out=\"\";\n")))))

  const CLOSING := "return __out;\n}\n"

  /** The statement a segment becomes. */
  function Statement(g: Segment): string {
    match g
    case Text(t) => "__out+=\"" + EscapedText(t) + "\";\n"
    case Unclosed(t) => "__out+=\"" + EscapedText("<%" + t) + "\";\n"
    case Escaped(c) => "__out+=__esc(" + c + ");\n"
    case Raw(c) => "__out+=(" + c + ");\n"
    case Comment(_) => ""
    case Code(c) => c + "\n"
  }

  function Statements(gs: seq<Segment>): string {
    if gs == [] then "" else Statement(gs[0]) + Statements(gs[1..])
  }

  function Compiled(source: string): string {
    PREAMBLE + Statements(Segments(source)) + CLOSING
  }

  lemma {:induction false} StatementsAppend(a: seq<Segment>, b: seq<Segment>)
    ensures Statements(a + b) == Statements(a) + Statements(b)
  {
    hide Statement;
    if a == [] {
      assert a + b == b;
    } else {
      StatementsAppend(a[1..], b);
      assert (a + b)[1..] == a[1..] + b;
      Assoc(Statement(a[0]), Statements(a[1..]), Statements(b));
    }
  }

  /** The statement of a text segment, read as JavaScript, appends exactly that text. */
  lemma TextStatementAppendsText(g: Segment, rest: string)
    requires g.Text? || g.Unclosed?
    ensures var s := Statement(g) + rest;
            |s| >= 8 && s[..8] == "__out+=\"" && ReadLiteral(s[8..]) == Some((Source(g), ";\n" + rest))
  {
    hide ReadLiteral, EscapedText;
    var t := Source(g);
    LiteralRoundTrip(t, ";\n" + rest);
    var s := Statement(g) + rest;
    assert s == "__out+=\"" + (EscapedText(t) + "\"" + (";\n" + rest));
    DropLeft("__out+=\"", EscapedText(t) + "\"" + (";\n" + rest));
  }

  // ---------------------------------------------------------------- the compiler

  /** The scan for the next delimiter from p. */
  method Scan(source: string, p: nat, a: char, b: char) returns (at: nat, found: bool)
    requires p <= |source|
    ensures found ==> at == p + Find(source[p..], a, b) && at + 2 <= |source|
    ensures !found ==> Find(source[p..], a, b) == |source| - p
  {
    at := p;
    while at + 1 < |source| && !(source[at] == a && source[at + 1] == b)
      invariant p <= at <= |source|
      invariant Find(source[p..], a, b) == at - p + Find(source[at..], a, b)
    {
      assert source[at..][1..] == source[at + 1..];
      at := at + 1;
    }
    found := at + 1 < |source| && source[at] == a && source[at + 1] == b;
  }

  method AppendEscaped(buf: Buffer, t: string)
    requires buf.Valid()
    modifies buf, buf.data
    ensures buf.Valid() && buf.Contents() == old(buf.Contents()) + EscapedText(t)
    ensures buf.data == old(buf.data) || fresh(buf.data)
  {
    ghost var was := buf.Contents();
    assert EscapedText(t[..0]) == "" && was + "" == was;
    for i := 0 to |t|
      invariant buf.Valid() && buf.Contents() == was + EscapedText(t[..i])
      invariant buf.data == old(buf.data) || fresh(buf.data)
    {
      EscapedSnoc(t[..i], t[i]);
      assert t[..i + 1] == t[..i] + [t[i]];
      Assoc(was, EscapedText(t[..i]), EscapedChar(t[i]));
      buf.Append(EscapedChar(t[i]));
    }
    assert t[..|t|] == t;
  }

  method AppendText(buf: Buffer, t: string)
    requires buf.Valid()
    modifies buf, buf.data
    ensures buf.Valid() && buf.Contents() == old(buf.Contents()) + Statement(Text(t))
    ensures buf.data == old(buf.data) || fresh(buf.data)
  {
    hide EscapedText;
    ghost var was := buf.Contents();
    buf.Append("__out+=\"");
    AppendEscaped(buf, t);
    buf.Append("\";\n");
    Assoc(was + "__out+=\"", EscapedText(t), "\";\n");
    Assoc(was, "__out+=\"", EscapedText(t) + "\";\n");
    Assoc("__out+=\"", EscapedText(t), "\";\n");
  }

  method AppendAround(buf: Buffer, before: string, code: string, after: string)
    requires buf.Valid()
    modifies buf, buf.data
    ensures buf.Valid() && buf.Contents() == old(buf.Contents()) + (before + code + after)
    ensures buf.data == old(buf.data) || fresh(buf.data)
  {
    ghost var was := buf.Contents();
    buf.Append(before);
    buf.Append(code);
    buf.Append(after);
    Assoc(was, before, code);
    Assoc(was, before + code, after);
  }

  method AppendTag(buf: Buffer, body: string)
    requires buf.Valid()
    modifies buf, buf.data
    ensures buf.Valid() && buf.Contents() == old(buf.Contents()) + Statement(Classify(body))
    ensures buf.data == old(buf.data) || fresh(buf.data)
  {
    hide Statement;
    TagStatements(body);
    if body != "" && body[0] == '=' {
      AppendAround(buf, "__out+=__esc(", body[1..], ");\n");
    } else if body != "" && body[0] == '-' {
      AppendAround(buf, "__out+=(", body[1..], ");\n");
    } else if body != "" && body[0] == '#' {
    } else {
      AppendAround(buf, "", body, "\n");
    }
  }

  lemma TagStatements(body: string)
    ensures body != "" && body[0] == '=' ==> Statement(Classify(body)) == "__out+=__esc(" + body[1..] + ");\n"
    ensures body != "" && body[0] == '-' ==> Statement(Classify(body)) == "__out+=(" + body[1..] + ");\n"
    ensures body != "" && body[0] == '#' ==> Statement(Classify(body)) == ""
    ensures body == "" || body[0] !in "=-#" ==> Statement(Classify(body)) == "" + body + "\n"
  {
  }

  function TextOut(t: string): string {
    if t == "" then "" else Statement(Text(t))
  }

  /** One round of the loop, from p to the end of the next tag. */
  lemma NextRound(s: string)
    requires s != ""
    ensures var i := Find(s, '<', '%');
            if i == |s| then Statements(Segments(s)) == TextOut(s)
            else
              var inner := s[i + 2..];
              var j := Find(inner, '%', '>');
              if j == |inner| then Statements(Segments(s)) == TextOut(s[..i]) + Statement(Text(s[i..]))
              else Statements(Segments(s)) ==
                     TextOut(s[..i]) + Statement(Classify(inner[..j])) + Statements(Segments(inner[j + 2..]))
  {
    hide Find, Statement, Statements, Classify;
    var i := Find(s, '<', '%');
    StatementsOne(Text(s));
    if i < |s| {
      var inner := s[i + 2..];
      var j := Find(inner, '%', '>');
      StatementsAppend(TextBefore(s[..i]), InTag(inner));
      TextBeforeOut(s[..i]);
      if j < |inner| {
        var g, gs := Classify(inner[..j]), Segments(inner[j + 2..]);
        StatementsOne(g);
        StatementsAppend([g], gs);
        Assoc(TextOut(s[..i]), Statement(g), Statements(gs));
      } else {
        StatementsOne(Unclosed(inner));
        UnclosedIsText(inner);
        assert s[i..] == "<%" + inner;
      }
    }
  }

  lemma TextBeforeOut(t: string)
    ensures Statements(TextBefore(t)) == TextOut(t)
  {
    StatementsOne(Text(t));
  }

  lemma StatementsOne(g: Segment)
    ensures Statements([g]) == Statement(g) && Statements([]) == ""
  {
    assert [g][1..] == [];
    assert Statement(g) + "" == Statement(g);
  }

  lemma UnclosedIsText(t: string)
    ensures Statement(Unclosed(t)) == Statement(Text("<%" + t))
  {
  }

  lemma NoTagFrom(source: string, p: nat)
    requires p < |source| && Find(source[p..], '<', '%') == |source| - p
    ensures Statements(Segments(source[p..])) == TextOut(source[p..|source|])
  {
    hide Statement, Statements, Segments, Find, Classify;
    NextRound(source[p..]);
    assert source[p..|source|] == source[p..];
  }

  lemma UnclosedFrom(source: string, p: nat, tag: nat)
    requires p <= tag && tag + 2 <= |source| && tag == p + Find(source[p..], '<', '%')
    requires Find(source[tag + 2..], '%', '>') == |source| - tag - 2
    ensures Statements(Segments(source[p..])) == TextOut(source[p..tag]) + Statement(Text(source[tag..]))
  {
    hide Statement, Statements, Segments, Find, Classify, TextOut;
    NextRound(source[p..]);
    SliceOfRest(source, p, tag);
  }

  lemma NextTag(s: string, i: nat, inner: string, j: nat, text: string, body: string, rest: string)
    requires s != "" && i == Find(s, '<', '%') < |s| && inner == s[i + 2..] && text == s[..i]
    requires j == Find(inner, '%', '>') < |inner| && body == inner[..j] && rest == inner[j + 2..]
    ensures Statements(Segments(s)) == TextOut(text) + Statement(Classify(body)) + Statements(Segments(rest))
  {
    hide Statement, Statements, Segments, Find, Classify, TextOut;
    NextRound(s);
  }

  lemma TagFrom(source: string, p: nat, tag: nat, close: nat)
    requires p <= tag && tag + 2 <= |source| && tag == p + Find(source[p..], '<', '%')
    requires tag + 2 <= close && close + 2 <= |source| && close == tag + 2 + Find(source[tag + 2..], '%', '>')
    ensures Statements(Segments(source[p..])) ==
            TextOut(source[p..tag]) + Statement(Classify(source[tag + 2..close])) +
            Statements(Segments(source[close + 2..]))
  {
    hide Statement, Statements, Segments, Find, Classify, TextOut;
    SliceOfRest(source, p, tag);
    SliceOfRest(source, tag + 2, close);
    NextTag(source[p..], tag - p, source[tag + 2..], close - tag - 2,
            source[p..tag], source[tag + 2..close], source[close + 2..]);
  }

  lemma Join(was: string, text: string, out: string, left: string)
    ensures was + (text + out + left) == was + text + out + left
  {
  }

  method AppendTextOut(buf: Buffer, t: string)
    requires buf.Valid()
    modifies buf, buf.data
    ensures buf.Valid() && buf.Contents() == old(buf.Contents()) + TextOut(t)
    ensures buf.data == old(buf.data) || fresh(buf.data)
  {
    if |t| > 0 {
      AppendText(buf, t);
    } else {
      assert buf.Contents() + "" == buf.Contents();
    }
  }

  /** One pass of the loop: the text before the next tag and the tag, or all that is left. */
  method Round(buf: Buffer, source: string, p: nat) returns (q: nat, stop: bool)
    requires buf.Valid() && p < |source|
    modifies buf, buf.data
    ensures buf.Valid() && (buf.data == old(buf.data) || fresh(buf.data))
    ensures if stop then q == p else p < q <= |source|
    ensures old(buf.Contents()) + Statements(Segments(source[p..])) ==
            buf.Contents() + if stop then "" else Statements(Segments(source[q..]))
  {
    hide Statement, Statements, Segments, Find, Classify, TextOut;
    ghost var was := buf.Contents();
    var tag, foundTag := Scan(source, p, '<', '%');
    q, stop := p, true;
    if !foundTag {
      NoTagFrom(source, p);
      AppendTextOut(buf, source[p..|source|]);
      assert buf.Contents() + "" == buf.Contents();
      return;
    }
    ghost var text := TextOut(source[p..tag]);
    AppendTextOut(buf, source[p..tag]);
    var code := tag + 2;
    var close, foundClose := Scan(source, code, '%', '>');
    if !foundClose {
      UnclosedFrom(source, p, tag);
      AppendText(buf, source[tag..]);
      Join(was, text, Statement(Text(source[tag..])), "");
      assert text + Statement(Text(source[tag..])) + "" == text + Statement(Text(source[tag..]));
      return;
    }
    TagFrom(source, p, tag, close);
    AppendTag(buf, source[code..close]);
    q, stop := close + 2, false;
    Join(was, text, Statement(Classify(source[code..close])), Statements(Segments(source[q..])));
  }

  /** sjs_ejs_transform. */
  method Transform(source: string) returns (buf: Buffer)
    ensures fresh(buf) && buf.Valid() && buf.Contents() == Compiled(source)
  {
    hide Statements, Segments;
    buf := new Buffer(false);
    buf.Append(PREAMBLE);
    var p, stop := 0, false;
    assert source[0..] == source;
    NothingLeft();
    while p < |source| && !stop
      invariant p <= |source| && fresh(buf) && buf.Valid() && fresh(buf.data)
      invariant buf.Contents() + (if stop then "" else Statements(Segments(source[p..]))) ==
                PREAMBLE + Statements(Segments(source))
      decreases |source| - p, !stop
    {
      p, stop := Round(buf, source, p);
    }
    assert source[|source|..] == "" && buf.Contents() + "" == buf.Contents();
    buf.Append(CLOSING);
    buf.Ensure(1);
  }

  lemma NothingLeft()
    ensures Statements(Segments("")) == ""
  {
  }

  lemma SliceOfRest(source: string, p: nat, tag: nat)
    requires p <= tag && tag + 2 <= |source|
    ensures source[p..][..tag - p] == source[p..tag]
    ensures source[p..][tag - p..] == source[tag..] && source[p..][tag - p + 2..] == source[tag + 2..]
  {
    DropDrop(source, p, tag - p);
    DropDrop(source, p, tag - p + 2);
  }
}
