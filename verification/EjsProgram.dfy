/**
 What a compiled template does. An interpreter for the programs that the compiler of src/ejs.c
 puts out reads them from their first character to their last: the escaping helper with its chain
 of replacements, the initial value, the statements and the return. It knows nothing of the
 compiler's own constants. What a tag's code evaluates to is any function of that code.
 */
module EjsProgram {
  import opened Machine
  import opened Ejs

  type Eval = string -> string

  // ---------------------------------------------------------------- reading

  function Skip(s: string, literal: string): (r: Option<string>)
    ensures r.Some? && literal != "" ==> |r.value| < |s|
    ensures r.Some? ==> s == literal + r.value
  {
    if literal <= s then Some(s[|literal|..]) else None
  }

  /** What stands before the first c, and what follows it. */
  function UpTo(s: string, c: char): (r: Option<(string, string)>)
    ensures r.Some? ==> |r.value.1| < |s|
  {
    if s == "" then None
    else if s[0] == c then Some(("", s[1..]))
    else Prefixed(s[0], UpTo(s[1..], c))
  }

  lemma SkipIs(literal: string, rest: string)
    ensures Skip(literal + rest, literal) == Some(rest)
  {
    DropLeft(literal, rest);
  }

  lemma SkipNot(s: string, literal: string, i: nat)
    requires i < |s| && i < |literal| && s[i] != literal[i]
    ensures Skip(s, literal) == None
  {
  }

  lemma {:induction false} UpToIs(a: string, c: char, rest: string)
    requires c !in a
    ensures UpTo(a + ([c] + rest), c) == Some((a, rest))
  {
    var s := a + ([c] + rest);
    if a == "" {
      assert s == [c] + rest && s[1..] == rest;
    } else {
      UpToIs(a[1..], c, rest);
      assert s[0] == a[0] && s[1..] == a[1..] + ([c] + rest);
      assert [a[0]] + a[1..] == a;
    }
  }

  // ---------------------------------------------------------------- the escaping helper

  datatype Escape = Escape(from: char, to: string)

  /** A chain of .replace(/c/g,'text'). */
  function ReadChain(s: string): (r: Option<(seq<Escape>, string)>)
    ensures r.Some? ==> |r.value.1| <= |s|
    decreases |s|
  {
    var t := Skip(s, ".replace(/");
    if t.None? then Some(([], s))
    else if t.value == "" then None
    else
      var u := Skip(t.value[1..], "/g,'");
      if u.None? then None
      else
        var to := UpTo(u.value, '\'');
        if to.None? || !(")" <= to.value.1) then None
        else
          var more := ReadChain(to.value.1[1..]);
          if more.None? then None
          else Some(([Escape(t.value[0], to.value.0)] + more.value.0, more.value.1))
  }

  function ReplaceAll(s: string, e: Escape): string {
    if s == "" then "" else (if s[0] == e.from then e.to else [s[0]]) + ReplaceAll(s[1..], e)
  }

  /** One replacement after the other. */
  function Replaced(s: string, es: seq<Escape>): string
    decreases |es|
  {
    if es == [] then s else Replaced(ReplaceAll(s, es[0]), es[1..])
  }

  // ---------------------------------------------------------------- the program

  /** The code of an argument list that ends its line. */
  function Argument(s: string): (r: Option<(string, string)>)
    ensures r.Some? ==> |r.value.1| < |s|
  {
    var line := UpTo(s, '\n');
    if line.None? || |line.value.0| < 2 || line.value.0[|line.value.0| - 2..] != ");" then None
    else Some((line.value.0[..|line.value.0| - 2], line.value.1))
  }

  /** A literal that ends its statement. */
  function Literal(s: string): (r: Option<(string, string)>)
    ensures r.Some? ==> |r.value.1| < |s|
  {
    var r := ReadLiteral(s);
    if r.None? then None
    else
      var rest := Skip(r.value.1, ";\n");
      if rest.None? then None else Some((r.value.0, rest.value))
  }

  /** Runs the statements up to the return: what is returned. */
  function RunBody(out: string, s: string, eval: Eval, es: seq<Escape>): Option<string>
    decreases |s|
  {
    var text, escaped, raw := Skip(s, "__out+=\""), Skip(s, "__out+=__esc("), Skip(s, "__out+=(");
    if s == "return __out;\n}\n" then Some(out)
    else if text.Some? then
      var r := Literal(text.value);
      if r.None? then None else RunBody(out + r.value.0, r.value.1, eval, es)
    else if escaped.Some? then
      var r := Argument(escaped.value);
      if r.None? then None else RunBody(out + Replaced(eval(r.value.0), es), r.value.1, eval, es)
    else if raw.Some? then
      var r := Argument(raw.value);
      if r.None? then None else RunBody(out + eval(r.value.0), r.value.1, eval, es)
    else None
  }

  /** Reads a whole program and calls its default export. */
  function Called(s: string, eval: Eval): Option<string> {
    var helper := Skip(s, "function __esc(s){return String(s)");
    if helper.None? then None
    else
      var chain := ReadChain(helper.value);
      if chain.None? then None
      else
        var start := Skip(chain.value.1, START);
        if start.None? then None
        else
          var out := Literal(start.value);
          if out.None? then None else RunBody(out.value.0, out.value.1, eval, chain.value.0)
  }

  // ---------------------------------------------------------------- what escaping should do

  function HtmlChar(c: char): string {
    match c
    case '&' => "&amp;"
    case '<' => "&lt;"
    case '>' => "&gt;"
    case '\"' => "&quot;"
    case '\'' => "&#39;"
    case _ => [c]
  }

  function Html(s: string): string {
    if s == "" then "" else HtmlChar(s[0]) + Html(s[1..])
  }

  /** Reads the five character references back. */
  function Unhtml(s: string): string
    decreases |s|
  {
    if s == "" then ""
    else if Skip(s, "&amp;").Some? then "&" + Unhtml(Skip(s, "&amp;").value)
    else if Skip(s, "&lt;").Some? then "<" + Unhtml(Skip(s, "&lt;").value)
    else if Skip(s, "&gt;").Some? then ">" + Unhtml(Skip(s, "&gt;").value)
    else if Skip(s, "&quot;").Some? then "\"" + Unhtml(Skip(s, "&quot;").value)
    else if Skip(s, "&#39;").Some? then "'" + Unhtml(Skip(s, "&#39;").value)
    else [s[0]] + Unhtml(s[1..])
  }

  lemma HtmlCharReads(c: char, rest: string)
    ensures Unhtml(HtmlChar(c) + rest) == [c] + Unhtml(rest)
  {
    hide Unhtml;
    var s := HtmlChar(c) + rest;
    SkipIs(HtmlChar(c), rest);
    UnhtmlStep(s);
    if c !in "&<>\"'" {
      assert s[0] == c && s[1..] == rest;
    } else {
      assert s[1] == HtmlChar(c)[1];
      if c == '<' || c == '>' {
        assert s[2] == HtmlChar(c)[2];
      }
    }
  }

  lemma UnhtmlStep(s: string)
    requires s != ""
    ensures Unhtml(s) ==
            if Skip(s, "&amp;").Some? then "&" + Unhtml(Skip(s, "&amp;").value)
            else if Skip(s, "&lt;").Some? then "<" + Unhtml(Skip(s, "&lt;").value)
            else if Skip(s, "&gt;").Some? then ">" + Unhtml(Skip(s, "&gt;").value)
            else if Skip(s, "&quot;").Some? then "\"" + Unhtml(Skip(s, "&quot;").value)
            else if Skip(s, "&#39;").Some? then "'" + Unhtml(Skip(s, "&#39;").value)
            else [s[0]] + Unhtml(s[1..])
  {
  }

  /** Escaped text holds no markup and no quote, and reads back as the text. */
  lemma {:induction false} HtmlIsSafe(s: string)
    ensures forall c :: c in Html(s) ==> c !in "<>\"'"
    ensures Unhtml(Html(s)) == s
  {
    hide Unhtml, HtmlChar;
    if s == "" {
      assert Unhtml("") == "" by {
        UnhtmlNothing();
      }
    } else {
      HtmlIsSafe(s[1..]);
      HtmlCharIsSafe(s[0]);
      HtmlCharReads(s[0], Html(s[1..]));
      assert [s[0]] + s[1..] == s;
    }
  }

  lemma HtmlCharIsSafe(c: char)
    ensures forall d :: d in HtmlChar(c) ==> d !in "<>\"'"
  {
  }

  lemma UnhtmlNothing()
    ensures Unhtml("") == ""
  {
  }

  // ---------------------------------------------------------------- the chain in the preamble

  const HTML_CHAIN: seq<Escape> :=
    [Escape('&', "&amp;"), Escape('<', "&lt;"), Escape('>', "&gt;"), Escape('\"', "&quot;"), Escape('\'', "&#39;")]

  lemma ReplaceStep(s: string, e: Escape)
    requires s != ""
    ensures ReplaceAll(s, e) == (if s[0] == e.from then e.to else [s[0]]) + ReplaceAll(s[1..], e)
  {
  }

  lemma {:induction false} ReplaceAppend(a: string, b: string, e: Escape)
    ensures ReplaceAll(a + b, e) == ReplaceAll(a, e) + ReplaceAll(b, e)
  {
    if a == "" {
      assert a + b == b;
    } else {
      hide ReplaceAll;
      ReplaceAppend(a[1..], b, e);
      assert (a + b)[0] == a[0] && (a + b)[1..] == a[1..] + b;
      ReplaceStep(a + b, e);
      ReplaceStep(a, e);
      Assoc(if a[0] == e.from then e.to else [a[0]], ReplaceAll(a[1..], e), ReplaceAll(b, e));
    }
  }

  lemma {:induction false} ReplacedAppend(a: string, b: string, es: seq<Escape>)
    ensures Replaced(a + b, es) == Replaced(a, es) + Replaced(b, es)
    decreases |es|
  {
    if es != [] {
      ReplaceAppend(a, b, es[0]);
      ReplacedAppend(ReplaceAll(a, es[0]), ReplaceAll(b, es[0]), es[1..]);
    }
  }

  lemma {:induction false} NothingReplaced(s: string, e: Escape)
    requires e.from !in s
    ensures ReplaceAll(s, e) == s
  {
    if s != "" {
      NothingReplaced(s[1..], e);
    }
  }

  lemma CharReplaced(c: char, e: Escape)
    ensures ReplaceAll([c], e) == if c == e.from then e.to else [c]
  {
    assert [c][1..] == "" && ReplaceAll("", e) == "";
  }

  lemma {:induction false} NoneReplaced(s: string, es: seq<Escape>)
    requires forall i :: 0 <= i < |es| ==> es[i].from !in s
    ensures Replaced(s, es) == s
    decreases |es|
  {
    if es != [] {
      NothingReplaced(s, es[0]);
      NoneReplaced(s, es[1..]);
    }
  }

  /** Later replacements leave what an earlier one put in, so each character is escaped by its own. */
  lemma {:induction false} CharThroughChain(c: char, es: seq<Escape>, i: nat)
    requires forall j :: 0 <= j < |es| && j < i ==> es[j].from != c
    requires i <= |es| && (i < |es| ==> es[i].from == c)
    requires i < |es| ==> forall j :: i < j < |es| ==> es[j].from !in es[i].to
    ensures Replaced([c], es) == if i < |es| then es[i].to else [c]
    decreases |es|
  {
    if es != [] {
      CharReplaced(c, es[0]);
      if i == 0 {
        NoneReplaced(es[0].to, es[1..]);
      } else {
        CharThroughChain(c, es[1..], i - 1);
      }
    }
  }

  /** The chain, applied from left to right, is the escaping character by character. */
  lemma {:induction false} ChainIsHtml(s: string)
    ensures Replaced(s, HTML_CHAIN) == Html(s)
  {
    if s == "" {
      NoneReplaced(s, HTML_CHAIN);
    } else {
      var c := s[0];
      var i := if c == '&' then 0 else if c == '<' then 1 else if c == '>' then 2
               else if c == '\"' then 3 else if c == '\'' then 4 else 5;
      CharThroughChain(c, HTML_CHAIN, i);
      ChainIsHtml(s[1..]);
      ReplacedAppend([c], s[1..], HTML_CHAIN);
      assert s == [c] + s[1..];
    }
  }

  lemma ChainNext(c: char, to: string, piece: string, rest: string)
    requires '\'' !in to && piece == ".replace(/" + ([c] + ("/g,'" + (to + "')")))
    ensures ReadChain(piece + rest) ==
            if ReadChain(rest).None? then None
            else Some(([Escape(c, to)] + ReadChain(rest).value.0, ReadChain(rest).value.1))
  {
    hide UpTo, Skip;
    var s, closing := piece + rest, ")" + rest;
    var text := to + (['\''] + closing);
    var middle := "/g,'" + text;
    assert s == ".replace(/" + ([c] + middle);
    SkipIs(".replace(/", [c] + middle);
    assert ([c] + middle)[1..] == middle;
    SkipIs("/g,'", text);
    UpToIs(to, '\'', closing);
    assert closing[1..] == rest;
  }

  lemma Pieces()
    ensures ".replace(/&/g,'&amp;')" == ".replace(/" + ("&" + ("/g,'" + ("&amp;" + "')")))
    ensures ".replace(/</g,'&lt;')" == ".replace(/" + ("<" + ("/g,'" + ("&lt;" + "')")))
    ensures ".replace(/>/g,'&gt;')" == ".replace(/" + (">" + ("/g,'" + ("&gt;" + "')")))
    ensures ".replace(/\"/g,'&quot;')" == ".replace(/" + ("\"" + ("/g,'" + ("&quot;" + "')")))
    ensures ".replace(/'/g,'&#39;')" == ".replace(/" + ("'" + ("/g,'" + ("&#39;" + "')")))
  {
  }

  const START := ";}\nexport default function(){\nlet __out=\""

  lemma ChainReads(rest: string)
    ensures ReadChain(".replace(/&/g,'&amp;')" + (".replace(/</g,'&lt;')" + (".replace(/>/g,'&gt;')" +
                      (".replace(/\"/g,'&quot;')" + (".replace(/'/g,'&#39;')" + (START + rest)))))) ==
            Some((HTML_CHAIN, START + rest))
  {
    hide ReadChain;
    var r5 := START + rest;
    var r4 := ".replace(/'/g,'&#39;')" + r5;
    var r3 := ".replace(/\"/g,'&quot;')" + r4;
    var r2 := ".replace(/>/g,'&gt;')" + r3;
    var r1 := ".replace(/</g,'&lt;')" + r2;
    Pieces();
    ChainEnds(r5);
    assert [Escape('\'', "&#39;")] + [] == HTML_CHAIN[4..];
    ChainNext('\'', "&#39;", ".replace(/'/g,'&#39;')", r5);
    assert ReadChain(r4) == Some((HTML_CHAIN[4..], r5));
    assert [Escape('\"', "&quot;")] + HTML_CHAIN[4..] == HTML_CHAIN[3..];
    ChainNext('\"', "&quot;", ".replace(/\"/g,'&quot;')", r4);
    assert ReadChain(r3) == Some((HTML_CHAIN[3..], r5));
    assert [Escape('>', "&gt;")] + HTML_CHAIN[3..] == HTML_CHAIN[2..];
    ChainNext('>', "&gt;", ".replace(/>/g,'&gt;')", r3);
    assert ReadChain(r2) == Some((HTML_CHAIN[2..], r5));
    assert [Escape('<', "&lt;")] + HTML_CHAIN[2..] == HTML_CHAIN[1..];
    ChainNext('<', "&lt;", ".replace(/</g,'&lt;')", r2);
    assert ReadChain(r1) == Some((HTML_CHAIN[1..], r5));
    assert [Escape('&', "&amp;")] + HTML_CHAIN[1..] == HTML_CHAIN;
    ChainNext('&', "&amp;", ".replace(/&/g,'&amp;')", r1);
  }

  /** A program that starts with the preamble runs its statements on an empty output and with the
      chain of the five replacements. */
  lemma PreambleReads(body: string, eval: Eval)
    ensures Called(PREAMBLE + body, eval) == RunBody("", body, eval, HTML_CHAIN)
  {
    hide ReadChain, RunBody, Skip, ReadLiteral, Literal;
    var tail := "\";\n" + body;
    var chain := ".replace(/&/g,'&amp;')" + (".replace(/</g,'&lt;')" + (".replace(/>/g,'&gt;')" +
                 (".replace(/\"/g,'&quot;')" + (".replace(/'/g,'&#39;')" + (START + tail)))));
    assert PREAMBLE + body == "function __esc(s){return String(s)" + chain by {
      assert ";}\nexport default function(){\nlet __out=\"\";\n" == START + "\";\n";
    }
    SkipIs("function __esc(s){return String(s)", chain);
    ChainReads(tail);
    SkipIs(START, tail);
    EmptyLiteral(body);
  }

  lemma ChainEnds(s: string)
    requires s != "" && s[0] == ';'
    ensures ReadChain(s) == Some(([], s))
  {
    SkipNot(s, ".replace(/", 0);
  }

  lemma EmptyLiteral(body: string)
    ensures Literal("\";\n" + body) == Some(("", body))
  {
    assert EscapedText("") + "\"" + (";\n" + body) == "\";\n" + body;
    LiteralRoundTrip("", ";\n" + body);
    SkipIs(";\n", body);
  }

  // ---------------------------------------------------------------- what a template renders

  /** A segment that is text, a comment, or one line of code whose value is put out. */
  predicate Renders(g: Segment) {
    !g.Code? && (g.Escaped? || g.Raw? ==> '\n' !in g.code)
  }

  function RenderedOne(g: Segment, eval: Eval): string {
    match g
    case Text(t) => t
    case Unclosed(t) => "<%" + t
    case Escaped(c) => Html(eval(c))
    case Raw(c) => eval(c)
    case Comment(_) => ""
    case Code(_) => ""
  }

  function Rendered(gs: seq<Segment>, eval: Eval): string {
    if gs == [] then "" else RenderedOne(gs[0], eval) + Rendered(gs[1..], eval)
  }

  lemma LineHolds(code: string, rest: string)
    requires '\n' !in code
    ensures Argument(code + (");\n" + rest)) == Some((code, rest))
  {
    assert code + (");\n" + rest) == code + ");" + (['\n'] + rest);
    UpToIs(code + ");", '\n', rest);
    assert (code + ");")[|code|..] == ");" && (code + ");")[..|code|] == code;
  }

  /** The statement of a segment puts out what the segment renders. */
  lemma StatementRuns(g: Segment, out: string, s: string, eval: Eval)
    requires Renders(g)
    ensures RunBody(out, Statement(g) + s, eval, HTML_CHAIN) ==
            RunBody(out + RenderedOne(g, eval), s, eval, HTML_CHAIN)
  {
    hide RunBody;
    match g
    case Text(_) => TextRuns(g, out, s, eval);
    case Unclosed(_) => TextRuns(g, out, s, eval);
    case Escaped(c) => EscapedRuns(c, out, s, eval);
    case Raw(c) => RawRuns(c, out, s, eval);
    case Comment(_) =>
      assert "" + s == s && out + "" == out;
  }

  lemma EscapedRuns(c: string, out: string, s: string, eval: Eval)
    requires '\n' !in c
    ensures RunBody(out, Statement(Escaped(c)) + s, eval, HTML_CHAIN) ==
            RunBody(out + Html(eval(c)), s, eval, HTML_CHAIN)
  {
    hide ReadLiteral, Html, Replaced, Argument, Skip;
    var whole := Statement(Escaped(c)) + s;
    assert whole == "__out+=__esc(" + (c + (");\n" + s));
    assert whole[0] == '_' && whole[7] == '_';
    SkipNot(whole, "__out+=\"", 7);
    SkipIs("__out+=__esc(", c + (");\n" + s));
    LineHolds(c, s);
    ChainIsHtml(eval(c));
    assert whole != "return __out;\n}\n";
  }

  lemma RawRuns(c: string, out: string, s: string, eval: Eval)
    requires '\n' !in c
    ensures RunBody(out, Statement(Raw(c)) + s, eval, HTML_CHAIN) == RunBody(out + eval(c), s, eval, HTML_CHAIN)
  {
    hide ReadLiteral, Replaced, Argument, Skip;
    var whole := Statement(Raw(c)) + s;
    assert whole == "__out+=(" + (c + (");\n" + s));
    assert whole[0] == '_' && whole[7] == '(';
    SkipNot(whole, "__out+=\"", 7);
    SkipNot(whole, "__out+=__esc(", 7);
    SkipIs("__out+=(", c + (");\n" + s));
    LineHolds(c, s);
    assert whole != "return __out;\n}\n";
  }

  lemma TextRuns(g: Segment, out: string, s: string, eval: Eval)
    requires g.Text? || g.Unclosed?
    ensures RunBody(out, Statement(g) + s, eval, HTML_CHAIN) ==
            RunBody(out + RenderedOne(g, eval), s, eval, HTML_CHAIN)
  {
    hide ReadLiteral, EscapedText, Statement, Replaced, Argument;
    var whole := Statement(g) + s;
    TextStatementAppendsText(g, s);
    assert whole[..8] == "__out+=\"";
    assert whole[..8][0] == '_';
    var rest := whole[8..];
    assert Skip(whole, "__out+=\"") == Some(rest);
    SkipIs(";\n", s);
    assert Literal(rest) == Some((Source(g), s));
    assert whole != "return __out;\n}\n";
  }

  lemma {:induction false} BodyRenders(gs: seq<Segment>, out: string, eval: Eval)
    requires forall i :: 0 <= i < |gs| ==> Renders(gs[i])
    ensures RunBody(out, Statements(gs) + "return __out;\n}\n", eval, HTML_CHAIN) == Some(out + Rendered(gs, eval))
    decreases |gs|
  {
    hide RunBody, Renders, RenderedOne, Statement;
    var end := "return __out;\n}\n";
    if gs == [] {
      assert Statements(gs) + end == end && out + "" == out;
      BodyEnds(out, eval);
    } else {
      var g, left := gs[0], Statements(gs[1..]) + end;
      Assoc(Statement(g), Statements(gs[1..]), end);
      StatementRuns(g, out, left, eval);
      BodyRenders(gs[1..], out + RenderedOne(g, eval), eval);
      Assoc(out, RenderedOne(g, eval), Rendered(gs[1..], eval));
    }
  }

  lemma BodyEnds(out: string, eval: Eval)
    ensures RunBody(out, "return __out;\n}\n", eval, HTML_CHAIN) == Some(out)
  {
  }

  /** Calling the compiled template returns its text as it is, comments taken out, each escaped tag
      as the escaped value of its code and each raw tag as the value. */
  lemma TemplateRenders(source: string, eval: Eval)
    requires forall i :: 0 <= i < |Segments(source)| ==> Renders(Segments(source)[i])
    ensures Called(Compiled(source), eval) == Some(Rendered(Segments(source), eval))
  {
    hide Segments, Statements, RunBody, Called, Rendered;
    var gs := Segments(source);
    assert CLOSING == "return __out;\n}\n";
    Assoc(PREAMBLE, Statements(gs), CLOSING);
    PreambleReads(Statements(gs) + CLOSING, eval);
    BodyRenders(gs, "", eval);
    assert "" + Rendered(gs, eval) == Rendered(gs, eval);
  }

  lemma {:induction false} PlainIsSource(gs: seq<Segment>, eval: Eval)
    requires forall i :: 0 <= i < |gs| ==> gs[i].Text? || gs[i].Unclosed?
    ensures Rendered(gs, eval) == Sources(gs)
  {
    if gs != [] {
      PlainIsSource(gs[1..], eval);
    }
  }

  /** A template without a closed tag is returned as it is, an unclosed one included. */
  lemma PlainTemplateReturnsItself(source: string, eval: Eval)
    requires forall i :: 0 <= i < |Segments(source)| ==> Segments(source)[i].Text? || Segments(source)[i].Unclosed?
    ensures Called(Compiled(source), eval) == Some(source)
  {
    hide Called, Compiled, Segments;
    SegmentsAreTheSource(source);
    TemplateRenders(source, eval);
    PlainIsSource(Segments(source), eval);
  }

  /** So a template that opens a tag nowhere is returned as it is. */
  lemma TextReturnsItself(source: string, eval: Eval)
    requires forall k :: 0 <= k < |source| - 1 ==> !(source[k] == '<' && source[k + 1] == '%')
    ensures Called(Compiled(source), eval) == Some(source)
  {
    hide Called, Compiled, Find;
    FindNoneIff(source, '<', '%');
    SegmentsAreTheSource(source);
    NoSegments();
    PlainTemplateReturnsItself(source, eval);
  }
}
