/**
 The part of JSON (RFC 8259) the replay tapes use: strings, null, arrays and objects, without
 insignificant white space. A char stands for one byte. Reading undoes printing.
 */
module Json {
  import opened Machine

  datatype Value = Null | Str(s: string) | Arr(items: seq<Value>) | Obj(members: seq<(string, Value)>)

  // ---------------------------------------------------------------- strings

  function HexDigit(n: nat): char
    requires n < 16
  {
    "0123456789abcdef"[n]
  }

  function DigitValue(c: char): Option<nat> {
    if '0' <= c <= '9' then Some(c as int - '0' as int)
    else if 'a' <= c <= 'f' then Some(c as int - 'a' as int + 10)
    else if 'A' <= c <= 'F' then Some(c as int - 'A' as int + 10)
    else None
  }

  function QuotedChar(c: char): string {
    match c
    case '\"' => "\\\""
    case '\\' => "\\\\"
    case '\n' => "\\n"
    case '\r' => "\\r"
    case '\t' => "\\t"
    case _ => if c < ' ' then "\\u00" + [HexDigit(c as int / 16), HexDigit(c as int % 16)] else [c]
  }

  function Escaped(s: string): string {
    if s == "" then "" else QuotedChar(s[0]) + Escaped(s[1..])
  }

  function Quoted(s: string): string {
    "\"" + Escaped(s) + "\""
  }

  /** One character of a string and what follows it (section 7 of RFC 8259); \u escapes beyond
      one byte are left undefined here. */
  function ReadChar(s: string): (r: Option<(char, string)>)
    ensures r.Some? ==> |r.value.1| < |s|
  {
    if s == "" || s[0] < ' ' || s[0] == '\"' then None
    else if s[0] != '\\' then Some((s[0], s[1..]))
    else if |s| < 2 then None
    else
      match s[1]
      case '\"' => Some(('\"', s[2..]))
      case '\\' => Some(('\\', s[2..]))
      case '/' => Some(('/', s[2..]))
      case 'b' => Some(('\U{0008}', s[2..]))
      case 'f' => Some(('\U{000C}', s[2..]))
      case 'n' => Some(('\n', s[2..]))
      case 'r' => Some(('\r', s[2..]))
      case 't' => Some(('\t', s[2..]))
      case 'u' => ReadHex(s)
      case _ => None
  }

  function ReadHex(s: string): (r: Option<(char, string)>)
    ensures r.Some? ==> |r.value.1| < |s|
  {
    if |s| < 6 || s[2] != '0' || s[3] != '0' || DigitValue(s[4]).None? || DigitValue(s[5]).None? then None
    else Some(((16 * DigitValue(s[4]).value + DigitValue(s[5]).value) as char, s[6..]))
  }

  /** The rest of a string after its opening quote. */
  function ReadString(s: string): (r: Option<(string, string)>)
    ensures r.Some? ==> |r.value.1| < |s|
    decreases |s|
  {
    if s != "" && s[0] == '\"' then Some(("", s[1..]))
    else
      var head := ReadChar(s);
      if head.None? then None
      else
        var tail := ReadString(head.value.1);
        if tail.None? then None else Some(([head.value.0] + tail.value.0, tail.value.1))
  }

  lemma HexRoundTrip(n: nat)
    requires n < 16
    ensures DigitValue(HexDigit(n)) == Some(n)
  {
  }

  lemma CharRoundTrip(c: char, rest: string)
    ensures ReadChar(QuotedChar(c) + rest) == Some((c, rest)) && QuotedChar(c)[0] != '\"'
  {
    var s := QuotedChar(c) + rest;
    assert s[|QuotedChar(c)|..] == rest;
    if c < ' ' {
      HexRoundTrip(c as int / 16);
      HexRoundTrip(c as int % 16);
    }
  }

  lemma {:induction false} StringRoundTrip(s: string, rest: string)
    ensures ReadString(Escaped(s) + "\"" + rest) == Some((s, rest))
  {
    hide QuotedChar, ReadChar;
    if s == "" {
      assert Escaped(s) + "\"" + rest == "\"" + rest;
      assert ("\"" + rest)[1..] == rest;
    } else {
      var tail := Escaped(s[1..]) + "\"" + rest;
      assert Escaped(s) + "\"" + rest == QuotedChar(s[0]) + tail;
      CharRoundTrip(s[0], tail);
      StringRoundTrip(s[1..], rest);
      assert [s[0]] + s[1..] == s;
    }
  }

  /** Which characters are escaped, and how: the short escapes, and four lower-case hexadecimal digits
      for the other control characters; all others stand for themselves. */
  lemma QuotedForms(c: char)
    ensures QuotedChar('\"') == "\\\"" && QuotedChar('\\') == "\\\\"
    ensures QuotedChar('\n') == "\\n" && QuotedChar('\r') == "\\r" && QuotedChar('\t') == "\\t"
    ensures QuotedChar('\U{0001}') == "\\u0001" && QuotedChar('\U{001F}') == "\\u001f"
    ensures c < ' ' && c !in "\n\r\t" ==> |QuotedChar(c)| == 6 && QuotedChar(c)[..4] == "\\u00"
    ensures c >= ' ' && c !in "\"\\" ==> QuotedChar(c) == [c]
  {
  }

  lemma {:induction false} EscapedSnoc(t: string, c: char)
    ensures Escaped(t + [c]) == Escaped(t) + QuotedChar(c)
  {
    hide QuotedChar;
    if t == "" {
      assert (t + [c])[1..] == "" && Escaped("") == "";
      assert QuotedChar(c) + "" == QuotedChar(c) && "" + QuotedChar(c) == QuotedChar(c);
    } else {
      EscapedSnoc(t[1..], c);
      assert (t + [c])[1..] == t[1..] + [c];
      Assoc(QuotedChar(t[0]), Escaped(t[1..]), QuotedChar(c));
    }
  }

  // ---------------------------------------------------------------- values

  function Print(v: Value): string {
    match v
    case Null => "null"
    case Str(s) => Quoted(s)
    case Arr(items) => "[" + PrintItems(items) + "]"
    case Obj(members) => "{" + PrintMembers(members) + "}"
  }

  function PrintItems(vs: seq<Value>): string {
    if vs == [] then ""
    else if |vs| == 1 then Print(vs[0])
    else Print(vs[0]) + "," + PrintItems(vs[1..])
  }

  function PrintMember(m: (string, Value)): string {
    Quoted(m.0) + ":" + Print(m.1)
  }

  function PrintMembers(ms: seq<(string, Value)>): string {
    if ms == [] then ""
    else if |ms| == 1 then PrintMember(ms[0])
    else PrintMember(ms[0]) + "," + PrintMembers(ms[1..])
  }

  predicate Starts(s: string, c: char) {
    s != "" && s[0] == c
  }

  /** A value and what follows it. */
  function Read(s: string): (r: Option<(Value, string)>)
    ensures r.Some? ==> |r.value.1| < |s|
    decreases |s|, 0
  {
    if Starts(s, 'n') && |s| >= 4 && s[1..4] == "ull" then Some((Null, s[4..]))
    else if Starts(s, '\"') then
      var str := ReadString(s[1..]);
      if str.None? then None else Some((Str(str.value.0), str.value.1))
    else if Starts(s, '[') && |s| > 1 && s[1] == ']' then Some((Arr([]), s[2..]))
    else if Starts(s, '[') then
      var items := ReadItems(s[1..]);
      if items.None? then None else Some((Arr(items.value.0), items.value.1))
    else if Starts(s, '{') && |s| > 1 && s[1] == '}' then Some((Obj([]), s[2..]))
    else if Starts(s, '{') then
      var members := ReadMembers(s[1..]);
      if members.None? then None else Some((Obj(members.value.0), members.value.1))
    else None
  }

  /** One or more values up to the closing bracket. */
  function ReadItems(s: string): (r: Option<(seq<Value>, string)>)
    ensures r.Some? ==> |r.value.1| < |s|
    decreases |s|, 1
  {
    var head := Read(s);
    if head.None? then None
    else
      var (v, rest) := head.value;
      if Starts(rest, ']') then Some(([v], rest[1..]))
      else if Starts(rest, ',') then
        var tail := ReadItems(rest[1..]);
        if tail.None? then None else Some(([v] + tail.value.0, tail.value.1))
      else None
  }

  function ReadMember(s: string): (r: Option<((string, Value), string)>)
    ensures r.Some? ==> |r.value.1| < |s|
    decreases |s|, 1
  {
    if !Starts(s, '\"') then None
    else
      var name := ReadString(s[1..]);
      if name.None? || !Starts(name.value.1, ':') then None
      else
        var v := Read(name.value.1[1..]);
        if v.None? then None else Some(((name.value.0, v.value.0), v.value.1))
  }

  function ReadMembers(s: string): (r: Option<(seq<(string, Value)>, string)>)
    ensures r.Some? ==> |r.value.1| < |s|
    decreases |s|, 2
  {
    var head := ReadMember(s);
    if head.None? then None
    else
      var (m, rest) := head.value;
      if Starts(rest, '}') then Some(([m], rest[1..]))
      else if Starts(rest, ',') then
        var tail := ReadMembers(rest[1..]);
        if tail.None? then None else Some(([m] + tail.value.0, tail.value.1))
      else None
  }

  // ---------------------------------------------------------------- reading undoes printing

  lemma StartOf(v: Value)
    ensures Print(v) != "" && Print(v)[0] in "n\"[{"
  {
  }

  lemma StartOfItems(vs: seq<Value>)
    requires vs != []
    ensures PrintItems(vs) != "" && PrintItems(vs)[0] in "n\"[{"
  {
    StartOf(vs[0]);
  }

  lemma StartOfMembers(ms: seq<(string, Value)>)
    requires ms != []
    ensures PrintMembers(ms) != "" && PrintMembers(ms)[0] == '\"'
  {
  }

  lemma ReadNull(rest: string)
    ensures Read("null" + rest) == Some((Null, rest))
  {
    DropLeft("null", rest);
    assert ("null" + rest)[1..4] == "ull";
  }

  lemma ReadStr(t: string, rest: string)
    ensures Read(Quoted(t) + rest) == Some((Str(t), rest))
  {
    hide Escaped, ReadString;
    StringRoundTrip(t, rest);
    var s := Quoted(t) + rest;
    assert s == "\"" + (Escaped(t) + "\"" + rest);
    DropLeft("\"", Escaped(t) + "\"" + rest);
  }

  lemma ReadArr(inner: string, items: seq<Value>, rest: string)
    requires inner == "" <==> items == []
    requires inner != "" ==> inner[0] != ']' && ReadItems(inner + "]" + rest) == Some((items, rest))
    ensures Read("[" + inner + "]" + rest) == Some((Arr(items), rest))
  {
    hide ReadItems;
    var s := "[" + inner + "]" + rest;
    if inner == "" {
      assert s == "[]" + rest;
      DropLeft("[]", rest);
    } else {
      assert s == "[" + (inner + "]" + rest);
      DropLeft("[", inner + "]" + rest);
      assert s[1] == inner[0];
    }
  }

  lemma ReadObj(inner: string, members: seq<(string, Value)>, rest: string)
    requires inner == "" <==> members == []
    requires inner != "" ==> inner[0] != '}' && ReadMembers(inner + "}" + rest) == Some((members, rest))
    ensures Read("{" + inner + "}" + rest) == Some((Obj(members), rest))
  {
    hide ReadMembers;
    var s := "{" + inner + "}" + rest;
    if inner == "" {
      assert s == "{}" + rest;
      DropLeft("{}", rest);
    } else {
      assert s == "{" + (inner + "}" + rest);
      DropLeft("{", inner + "}" + rest);
      assert s[1] == inner[0];
    }
  }

  /** Any value printed, whatever follows, is read back as that value. */
  lemma {:induction false} RoundTrip(v: Value, rest: string)
    ensures Read(Print(v) + rest) == Some((v, rest))
    decreases v, 0
  {
    hide Read, ReadItems, ReadMembers, Quoted;
    match v
    case Null => ReadNull(rest);
    case Str(t) => ReadStr(t, rest);
    case Arr(items) =>
      if items != [] {
        StartOfItems(items);
        ItemsRoundTrip(items, rest);
      }
      ReadArr(PrintItems(items), items, rest);
    case Obj(members) =>
      if members != [] {
        StartOfMembers(members);
        MembersRoundTrip(members, rest);
      }
      ReadObj(PrintMembers(members), members, rest);
  }

  lemma ItemsStep(first: string, v: Value, more: string, vs: seq<Value>, rest: string)
    requires Read(first + ("," + (more + "]" + rest))) == Some((v, "," + (more + "]" + rest)))
    requires ReadItems(more + "]" + rest) == Some((vs, rest))
    ensures ReadItems(first + "," + more + "]" + rest) == Some(([v] + vs, rest))
  {
    hide Read;
    var tail := "," + (more + "]" + rest);
    assert first + "," + more + "]" + rest == first + tail;
    DropLeft(",", more + "]" + rest);
  }

  lemma ItemsEnd(first: string, v: Value, rest: string)
    requires Read(first + ("]" + rest)) == Some((v, "]" + rest))
    ensures ReadItems(first + "]" + rest) == Some(([v], rest))
  {
    hide Read;
    var tail := "]" + rest;
    assert first + "]" + rest == first + tail && tail[0] == ']' && tail[1..] == rest;
  }

  lemma {:induction false} ItemsRoundTrip(vs: seq<Value>, rest: string)
    requires vs != []
    ensures ReadItems(PrintItems(vs) + "]" + rest) == Some((vs, rest))
    decreases vs, 1
  {
    hide Read, ReadItems, Print;
    if |vs| == 1 {
      RoundTrip(vs[0], "]" + rest);
      ItemsEnd(Print(vs[0]), vs[0], rest);
      assert [vs[0]] == vs;
    } else {
      var more := PrintItems(vs[1..]);
      ItemsRoundTrip(vs[1..], rest);
      RoundTrip(vs[0], "," + (more + "]" + rest));
      ItemsStep(Print(vs[0]), vs[0], more, vs[1..], rest);
      assert [vs[0]] + vs[1..] == vs;
    }
  }

  lemma MembersStep(first: string, m: (string, Value), more: string, ms: seq<(string, Value)>, rest: string)
    requires ReadMember(first + ("," + (more + "}" + rest))) == Some((m, "," + (more + "}" + rest)))
    requires ReadMembers(more + "}" + rest) == Some((ms, rest))
    ensures ReadMembers(first + "," + more + "}" + rest) == Some(([m] + ms, rest))
  {
    hide ReadMember;
    var tail := "," + (more + "}" + rest);
    assert first + "," + more + "}" + rest == first + tail;
    DropLeft(",", more + "}" + rest);
  }

  lemma MembersEnd(first: string, m: (string, Value), rest: string)
    requires ReadMember(first + ("}" + rest)) == Some((m, "}" + rest))
    ensures ReadMembers(first + "}" + rest) == Some(([m], rest))
  {
    hide ReadMember;
    var tail := "}" + rest;
    assert first + "}" + rest == first + tail && tail[0] == '}' && tail[1..] == rest;
  }

  lemma {:induction false} MemberRoundTrip(m: (string, Value), rest: string)
    ensures ReadMember(PrintMember(m) + rest) == Some((m, rest))
    decreases m, 0
  {
    hide Read, Print, Escaped, ReadString;
    var (name, v) := m;
    RoundTrip(v, rest);
    var tail := ":" + (Print(v) + rest);
    StringRoundTrip(name, tail);
    var s := PrintMember(m) + rest;
    assert s == "\"" + (Escaped(name) + "\"" + tail);
    DropLeft("\"", Escaped(name) + "\"" + tail);
    DropLeft(":", Print(v) + rest);
  }

  lemma {:induction false} MembersRoundTrip(ms: seq<(string, Value)>, rest: string)
    requires ms != []
    ensures ReadMembers(PrintMembers(ms) + "}" + rest) == Some((ms, rest))
    decreases ms, 1
  {
    hide ReadMember, ReadMembers, PrintMember;
    if |ms| == 1 {
      MemberRoundTrip(ms[0], "}" + rest);
      MembersEnd(PrintMember(ms[0]), ms[0], rest);
      assert [ms[0]] == ms;
    } else {
      var more := PrintMembers(ms[1..]);
      MembersRoundTrip(ms[1..], rest);
      MemberRoundTrip(ms[0], "," + (more + "}" + rest));
      MembersStep(PrintMember(ms[0]), ms[0], more, ms[1..], rest);
      assert [ms[0]] + ms[1..] == ms;
    }
  }

  /** A text is the print of at most one value. */
  lemma PrintInjective(a: Value, b: Value)
    requires Print(a) == Print(b)
    ensures a == b
  {
    RoundTrip(a, "");
    RoundTrip(b, "");
  }

  // ---------------------------------------------------------------- printing piece by piece

  /** Nothing in the text needs an escape. */
  predicate Plain(s: string) {
    forall i :: 0 <= i < |s| ==> s[i] >= ' ' && s[i] != '\"' && s[i] != '\\'
  }

  lemma {:induction false} PlainEscaped(s: string)
    requires Plain(s)
    ensures Escaped(s) == s
  {
    if s != "" {
      PlainEscaped(s[1..]);
      assert s == [s[0]] + s[1..];
    }
  }

  lemma PlainQuoted(s: string)
    requires Plain(s)
    ensures Quoted(s) == "\"" + s + "\""
  {
    PlainEscaped(s);
  }

  lemma {:induction false} PrintItemsSnoc(vs: seq<Value>, v: Value)
    ensures PrintItems(vs + [v]) == (if vs == [] then "" else PrintItems(vs) + ",") + Print(v)
  {
    hide Print;
    if vs == [] {
      assert vs + [v] == [v] && "" + Print(v) == Print(v);
    } else {
      PrintItemsSnoc(vs[1..], v);
      assert (vs + [v])[1..] == vs[1..] + [v];
      assert vs[1..] == [] ==> vs == [vs[0]];
      Assoc(Print(vs[0]) + ",", PrintItems(vs[1..]) + ",", Print(v));
      Assoc(Print(vs[0]) + ",", PrintItems(vs[1..]), ",");
    }
  }

  lemma PrintOne(a: (string, Value))
    ensures PrintMembers([a]) == PrintMember(a)
  {
  }

  lemma PrintMore(a: (string, Value), ms: seq<(string, Value)>)
    requires ms != []
    ensures PrintMembers([a] + ms) == PrintMember(a) + "," + PrintMembers(ms)
  {
    assert ([a] + ms)[1..] == ms;
  }

  /** "{" + a + "," + b + "}" and its longer kin, member by member. */
  lemma PrintTwo(a: (string, Value), b: (string, Value))
    ensures Print(Obj([a, b])) == "{" + PrintMember(a) + "," + PrintMember(b) + "}"
  {
    hide PrintMember, PrintMembers;
    var m, n := PrintMember(a), PrintMember(b);
    PrintOne(b);
    PrintMore(a, [b]);
    assert [a] + [b] == [a, b];
    Regroup("{", m, n);
  }

  lemma PrintThree(a: (string, Value), b: (string, Value), c: (string, Value))
    ensures Print(Obj([a, b, c])) == "{" + PrintMember(a) + "," + PrintMember(b) + "," + PrintMember(c) + "}"
  {
    hide PrintMember, PrintMembers;
    var m, n, o := PrintMember(a), PrintMember(b), PrintMember(c);
    PrintOne(c);
    PrintMore(b, [c]);
    PrintMore(a, [b, c]);
    assert [b] + [c] == [b, c] && [a] + [b, c] == [a, b, c];
    Regroup("{", m, n + "," + o);
    Regroup("{" + m + ",", n, o);
  }

  lemma PrintFour(a: (string, Value), b: (string, Value), c: (string, Value), d: (string, Value))
    ensures Print(Obj([a, b, c, d])) ==
            "{" + PrintMember(a) + "," + PrintMember(b) + "," + PrintMember(c) + "," + PrintMember(d) + "}"
  {
    hide PrintMember, PrintMembers;
    var m, n, o, p := PrintMember(a), PrintMember(b), PrintMember(c), PrintMember(d);
    PrintOne(d);
    PrintMore(c, [d]);
    PrintMore(b, [c, d]);
    PrintMore(a, [b, c, d]);
    assert [c] + [d] == [c, d] && [b] + [c, d] == [b, c, d] && [a] + [b, c, d] == [a, b, c, d];
    Regroup("{", m, n + "," + (o + "," + p));
    Regroup("{" + m + ",", n, o + "," + p);
    Regroup("{" + m + "," + n + ",", o, p);
  }

  lemma Regroup(x: string, m: string, n: string)
    ensures x + (m + "," + n) == x + m + "," + n
  {
  }
}
