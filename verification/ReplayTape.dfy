/**
 The replay tapes of src/replay_capture.c: a buffer that starts with a bracket, takes one JSON
 object a captured call, and is closed once at the end.
 */
module ReplayTape {
  import opened Machine
  import opened TextBuffer
  import Json

  datatype Entry =
    | KvGet(key: string, value: Option<string>)
    | KvRange(start: string, end: string, rows: seq<(string, string)>)
    | Module(path: string, contentHash: Option<string>)

  function OptionalJson(s: Option<string>): Json.Value {
    if s.None? then Json.Null else Json.Str(s.value)
  }

  /** An empty value counts as no value. */
  function Recorded(value: Option<string>): Option<string> {
    if value == Some("") then None else value
  }

  function RowJson(row: (string, string)): Json.Value {
    Json.Obj([("key", Json.Str(row.0)), ("value", Json.Str(row.1))])
  }

  function RowsJson(rows: seq<(string, string)>): (r: seq<Json.Value>)
    ensures |r| == |rows|
  {
    seq(|rows|, i requires 0 <= i < |rows| => RowJson(rows[i]))
  }

  /** The object a captured call is recorded as. */
  function EntryJson(e: Entry): Json.Value {
    match e
    case KvGet(key, value) =>
      Json.Obj([("op", Json.Str("get")), ("key", Json.Str(key)), ("value", OptionalJson(Recorded(value)))])
    case KvRange(start, end, rows) =>
      Json.Obj([("op", Json.Str("range")), ("start", Json.Str(start)), ("end", Json.Str(end)),
                ("results", Json.Arr(RowsJson(rows)))])
    case Module(path, hash) =>
      Json.Obj([("path", Json.Str(path)), ("content_hash", OptionalJson(hash))])
  }

  function EntriesJson(es: seq<Entry>): (r: seq<Json.Value>)
    ensures |r| == |es|
  {
    seq(|es|, i requires 0 <= i < |es| => EntryJson(es[i]))
  }

  /** What a closed tape holds. */
  function TapeText(es: seq<Entry>): string {
    Json.Print(Json.Arr(EntriesJson(es)))
  }

  /** A closed tape is one JSON array, read back as exactly the captured entries in order. */
  lemma TapeReadsBack(es: seq<Entry>)
    ensures Json.Read(TapeText(es)) == Some((Json.Arr(EntriesJson(es)), ""))
  {
    Json.RoundTrip(Json.Arr(EntriesJson(es)), "");
    assert TapeText(es) + "" == TapeText(es);
  }

  /** No value, or an empty one. */
  predicate Blank(value: Option<string>) {
    value.None? || value.value == ""
  }

  predicate SameRecord(a: Entry, b: Entry) {
    a == b || (a.KvGet? && b.KvGet? && a.key == b.key && Blank(a.value) && Blank(b.value))
  }

  lemma EntryJsonInjective(a: Entry, b: Entry)
    ensures EntryJson(a) == EntryJson(b) <==> SameRecord(a, b)
  {
    if EntryJson(a) == EntryJson(b) {
      var ma, mb := EntryJson(a).members, EntryJson(b).members;
      assert ma[0] == mb[0] && ma[1] == mb[1] && |ma| == |mb|;
      if |ma| > 2 {
        assert ma[2] == mb[2];
      }
      if a.KvRange? && b.KvRange? {
        assert ma[3] == mb[3];
        RowsInjective(a.rows, b.rows);
      }
    }
  }

  lemma RowsInjective(a: seq<(string, string)>, b: seq<(string, string)>)
    requires RowsJson(a) == RowsJson(b)
    ensures a == b
  {
    forall i | 0 <= i < |a|
      ensures a[i] == b[i]
    {
      assert RowsJson(a)[i] == RowsJson(b)[i];
      var ma, mb := RowJson(a[i]).members, RowJson(b[i]).members;
      assert ma[0] == mb[0] && ma[1] == mb[1];
    }
  }

  /** Two tapes have the same text if and only if they hold the same calls, except that a read of
      an empty value is not told from a read of no value. */
  lemma TapesEqualIff(a: seq<Entry>, b: seq<Entry>)
    ensures TapeText(a) == TapeText(b) <==>
            |a| == |b| &&
            forall i :: 0 <= i < |a| ==>
              a[i] == b[i] ||
              (a[i].KvGet? && b[i].KvGet? && a[i].key == b[i].key && Blank(a[i].value) && Blank(b[i].value))
  {
    hide EntryJson;
    if TapeText(a) == TapeText(b) {
      Json.PrintInjective(Json.Arr(EntriesJson(a)), Json.Arr(EntriesJson(b)));
      forall i | 0 <= i < |a|
        ensures SameRecord(a[i], b[i])
      {
        assert EntriesJson(a)[i] == EntriesJson(b)[i];
        EntryJsonInjective(a[i], b[i]);
      }
    }
    if |a| == |b| && forall i :: 0 <= i < |a| ==> SameRecord(a[i], b[i]) {
      forall i | 0 <= i < |a|
        ensures EntriesJson(a)[i] == EntriesJson(b)[i]
      {
        EntryJsonInjective(a[i], b[i]);
      }
      assert EntriesJson(a) == EntriesJson(b);
    }
  }

  /** An empty value and a missing one leave the same tape. */
  lemma EmptyReadsAsMissing(key: string)
    ensures TapeText([KvGet(key, Some(""))]) == TapeText([KvGet(key, None)])
  {
    TapesEqualIff([KvGet(key, Some(""))], [KvGet(key, None)]);
  }

  // ---------------------------------------------------------------- a tape read back

  /** The value of the first member of that name. */
  function Member(ms: seq<(string, Json.Value)>, name: string): Option<Json.Value> {
    if ms == [] then None
    else if ms[0].0 == name then Some(ms[0].1)
    else Member(ms[1..], name)
  }

  /** A string, or null for none. */
  function AsOptional(v: Option<Json.Value>): Option<Option<string>> {
    if v.None? then None
    else if v.value.Null? then Some(None)
    else if v.value.Str? then Some(Some(v.value.s))
    else None
  }

  function AsString(v: Option<Json.Value>): Option<string> {
    if AsOptional(v).Some? then AsOptional(v).value else None
  }

  function ReplayRow(v: Json.Value): Option<(string, string)> {
    if !v.Obj? then None
    else
      var key, value := AsString(Member(v.members, "key")), AsString(Member(v.members, "value"));
      if key.Some? && value.Some? then Some((key.value, value.value)) else None
  }

  function ReplayRows(vs: seq<Json.Value>): Option<seq<(string, string)>> {
    if vs == [] then Some([])
    else
      var row, rows := ReplayRow(vs[0]), ReplayRows(vs[1..]);
      if row.Some? && rows.Some? then Some([row.value] + rows.value) else None
  }

  /** The call an object of a tape stands for, by the names of its members. */
  function Replay(v: Json.Value): Option<Entry> {
    if !v.Obj? then None
    else if AsString(Member(v.members, "op")) == Some("get") then
      var key, value := AsString(Member(v.members, "key")), AsOptional(Member(v.members, "value"));
      if key.Some? && value.Some? then Some(KvGet(key.value, value.value)) else None
    else if AsString(Member(v.members, "op")) == Some("range") then
      var start, end := AsString(Member(v.members, "start")), AsString(Member(v.members, "end"));
      var rows := Member(v.members, "results");
      if start.Some? && end.Some? && rows.Some? && rows.value.Arr? && ReplayRows(rows.value.items).Some?
      then Some(KvRange(start.value, end.value, ReplayRows(rows.value.items).value))
      else None
    else
      var path, hash := AsString(Member(v.members, "path")), AsOptional(Member(v.members, "content_hash"));
      if path.Some? && hash.Some? then Some(Module(path.value, hash.value)) else None
  }

  function Faded(e: Entry): Entry {
    if e.KvGet? && e.value == Some("") then KvGet(e.key, None) else e
  }

  lemma MembersOfTwo(a: (string, Json.Value), b: (string, Json.Value), name: string)
    ensures Member([a, b], name) ==
            if a.0 == name then Some(a.1) else if b.0 == name then Some(b.1) else None
  {
    assert [a, b][1..] == [b];
    assert Member([b], name) == if b.0 == name then Some(b.1) else None;
  }

  lemma MembersOfThree(a: (string, Json.Value), b: (string, Json.Value), c: (string, Json.Value), name: string)
    ensures Member([a, b, c], name) == if a.0 == name then Some(a.1) else Member([b, c], name)
  {
    assert [a, b, c][1..] == [b, c];
  }

  lemma MembersOfFour(a: (string, Json.Value), b: (string, Json.Value), c: (string, Json.Value),
                      d: (string, Json.Value), name: string)
    ensures Member([a, b, c, d], name) == if a.0 == name then Some(a.1) else Member([b, c, d], name)
  {
    assert [a, b, c, d][1..] == [b, c, d];
  }

  lemma {:induction false} RowsReplay(rows: seq<(string, string)>)
    ensures ReplayRows(RowsJson(rows)) == Some(rows)
  {
    if rows != [] {
      var vs := RowsJson(rows);
      RowsReplay(rows[1..]);
      assert vs[1..] == RowsJson(rows[1..]) && vs[0] == RowJson(rows[0]);
      MembersOfTwo(("key", Json.Str(rows[0].0)), ("value", Json.Str(rows[0].1)), "key");
      MembersOfTwo(("key", Json.Str(rows[0].0)), ("value", Json.Str(rows[0].1)), "value");
      assert ReplayRow(vs[0]) == Some(rows[0]);
      assert [rows[0]] + rows[1..] == rows;
    }
  }

  /** Every captured call comes back from its object. */
  lemma EntryReplays(e: Entry)
    ensures Replay(EntryJson(e)) == Some(Faded(e))
  {
    hide Member, ReplayRows, RowsJson;
    var ms := EntryJson(e).members;
    match e
    case KvGet(_, _) =>
      forall name
        ensures Member(ms, name) ==
                if ms[0].0 == name then Some(ms[0].1) else if ms[1].0 == name then Some(ms[1].1)
                else if ms[2].0 == name then Some(ms[2].1) else None
      {
        MembersOfThree(ms[0], ms[1], ms[2], name);
        MembersOfTwo(ms[1], ms[2], name);
      }
    case KvRange(_, _, rows) =>
      RowsReplay(rows);
      forall name
        ensures Member(ms, name) ==
                if ms[0].0 == name then Some(ms[0].1) else if ms[1].0 == name then Some(ms[1].1)
                else if ms[2].0 == name then Some(ms[2].1) else if ms[3].0 == name then Some(ms[3].1) else None
      {
        MembersOfFour(ms[0], ms[1], ms[2], ms[3], name);
        MembersOfThree(ms[1], ms[2], ms[3], name);
        MembersOfTwo(ms[2], ms[3], name);
      }
    case Module(_, _) =>
      forall name
        ensures Member(ms, name) ==
                if ms[0].0 == name then Some(ms[0].1) else if ms[1].0 == name then Some(ms[1].1) else None
      {
        MembersOfTwo(ms[0], ms[1], name);
      }
  }

  /** A closed tape, parsed and taken apart by member names, gives the captured calls in order; a
      read of an empty value comes back as one of no value, everything else as it was. */
  lemma TapeReplays(es: seq<Entry>)
    ensures var r := Json.Read(TapeText(es));
            r.Some? && r.value.0.Arr? && r.value.1 == "" && |r.value.0.items| == |es| &&
            forall i :: 0 <= i < |es| ==>
              Replay(r.value.0.items[i]) ==
              if es[i].KvGet? && es[i].value == Some("") then Some(KvGet(es[i].key, None)) else Some(es[i])
  {
    hide EntryJson, Replay;
    TapeReadsBack(es);
    forall i | 0 <= i < |es|
      ensures Replay(EntriesJson(es)[i]) == Some(Faded(es[i]))
    {
      EntryReplays(es[i]);
    }
  }

  // ---------------------------------------------------------------- the text of each call

  /** A member printed after what comes before it, with the punctuation in one piece. */
  lemma Named(x: string, sep: string, name: string, v: Json.Value, piece: string)
    requires Json.Plain(name) && piece == sep + ("\"" + name + "\":")
    ensures x + sep + Json.PrintMember((name, v)) == x + piece + Json.Print(v)
  {
    hide Json.Print;
    var quoted := "\"" + name + "\"";
    Json.PlainQuoted(name);
    Assoc("\"" + name, "\"", ":");
    assert "\"" + ":" == "\":";
    assert quoted + ":" == "\"" + name + "\":";
    Assoc(sep, quoted + ":", Json.Print(v));
    Assoc(x, sep, quoted + ":" + Json.Print(v));
    Assoc(x, piece, Json.Print(v));
  }

  // The fixed pieces between the captured strings.
  function GetHead(): string { "{\"op\":\"get\",\"key\":" }
  function RangeHead(): string { "{\"op\":\"range\",\"start\":" }
  function ModuleHead(): string { "{\"path\":" }
  function RowHead(): string { "{\"key\":" }
  function ValuePiece(): string { ",\"value\":" }
  function EndPiece(): string { ",\"end\":" }
  function ResultsPiece(): string { ",\"results\":" }
  function HashPiece(): string { ",\"content_hash\":" }

  /** An object whose first two members are printed as one fixed piece and a value. */
  lemma HeadOfTwo(op: string, name: string, v: Json.Value, head: string)
    requires Json.Plain(op) && Json.Plain(name)
    requires head == "{\"op\":\"" + op + "\"" + (",\"" + name + "\":")
    ensures "{" + Json.PrintMember(("op", Json.Str(op))) + "," + Json.PrintMember((name, v)) == head + Json.Print(v)
  {
    hide Json.PrintMember, Json.Print;
    Opened(op);
    Commas(name);
    Named("{\"op\":\"" + op + "\"", ",", name, v, ",\"" + name + "\":");
  }

  lemma Commas(name: string)
    ensures ",\"" + name + "\":" == "," + ("\"" + name + "\":")
  {
    Assoc(",", "\"", name);
    Assoc(",", "\"" + name, "\":");
    assert "," + "\"" == ",\"";
  }

  lemma HeadOfOne(name: string, v: Json.Value, head: string)
    requires Json.Plain(name) && head == "{" + ("\"" + name + "\":")
    ensures "{" + Json.PrintMember((name, v)) == head + Json.Print(v)
  {
    hide Json.PrintMember, Json.Print;
    assert "" + ("\"" + name + "\":") == "\"" + name + "\":" && "{" + "" == "{";
    Named("{", "", name, v, "\"" + name + "\":");
  }

  /** Names and fixed pieces agree. */
  lemma Heads()
    ensures GetHead() == "{\"op\":\"" + "get" + "\"" + (",\"" + "key" + "\":")
    ensures RangeHead() == "{\"op\":\"" + "range" + "\"" + (",\"" + "start" + "\":")
    ensures ModuleHead() == "{" + ("\"" + "path" + "\":")
    ensures RowHead() == "{" + ("\"" + "key" + "\":")
  {
  }

  lemma PieceNames()
    ensures ValuePiece() == "," + ("\"" + "value" + "\":") && EndPiece() == "," + ("\"" + "end" + "\":")
    ensures ResultsPiece() == "," + ("\"" + "results" + "\":") && HashPiece() == "," + ("\"" + "content_hash" + "\":")
  {
  }

  lemma GetText(key: string, value: Option<string>)
    ensures Json.Print(EntryJson(KvGet(key, value))) ==
            GetHead() + Json.Quoted(key) + ValuePiece() + Json.Print(OptionalJson(Recorded(value))) + "}"
  {
    hide Json.PrintMember, Recorded, OptionalJson, Json.Quoted, GetHead, ValuePiece;
    var v := OptionalJson(Recorded(value));
    Json.PrintThree(("op", Json.Str("get")), ("key", Json.Str(key)), ("value", v));
    Heads();
    PieceNames();
    HeadOfTwo("get", "key", Json.Str(key), GetHead());
    Named(GetHead() + Json.Quoted(key), ",", "value", v, ValuePiece());
  }

  lemma RangeText(start: string, end: string, rows: seq<(string, string)>)
    ensures Json.Print(EntryJson(KvRange(start, end, rows))) ==
            RangeHead() + Json.Quoted(start) + EndPiece() + Json.Quoted(end) +
            ResultsPiece() + Json.Print(Json.Arr(RowsJson(rows))) + "}"
  {
    hide Json.PrintMember, RowsJson, Json.Quoted, Json.PrintItems, RangeHead, EndPiece, ResultsPiece;
    var v := Json.Arr(RowsJson(rows));
    Json.PrintFour(("op", Json.Str("range")), ("start", Json.Str(start)), ("end", Json.Str(end)), ("results", v));
    Heads();
    PieceNames();
    HeadOfTwo("range", "start", Json.Str(start), RangeHead());
    var x := RangeHead() + Json.Quoted(start);
    Named(x, ",", "end", Json.Str(end), EndPiece());
    Named(x + EndPiece() + Json.Quoted(end), ",", "results", v, ResultsPiece());
  }

  lemma ModuleText(path: string, hash: Option<string>)
    ensures Json.Print(EntryJson(Module(path, hash))) ==
            ModuleHead() + Json.Quoted(path) + HashPiece() + Json.Print(OptionalJson(hash)) + "}"
  {
    hide Json.PrintMember, OptionalJson, Json.Quoted, ModuleHead, HashPiece;
    Json.PrintTwo(("path", Json.Str(path)), ("content_hash", OptionalJson(hash)));
    Heads();
    PieceNames();
    HeadOfOne("path", Json.Str(path), ModuleHead());
    Named(ModuleHead() + Json.Quoted(path), ",", "content_hash", OptionalJson(hash), HashPiece());
  }

  lemma RowText(row: (string, string))
    ensures Json.Print(RowJson(row)) == RowHead() + Json.Quoted(row.0) + ValuePiece() + Json.Quoted(row.1) + "}"
  {
    hide Json.PrintMember, Json.Quoted, RowHead, ValuePiece;
    Json.PrintTwo(("key", Json.Str(row.0)), ("value", Json.Str(row.1)));
    Heads();
    PieceNames();
    HeadOfOne("key", Json.Str(row.0), RowHead());
    Named(RowHead() + Json.Quoted(row.0), ",", "value", Json.Str(row.1), ValuePiece());
  }

  /** The first member of an object that names its operation. */
  lemma Opened(op: string)
    requires Json.Plain(op)
    ensures "{" + Json.PrintMember(("op", Json.Str(op))) == "{\"op\":\"" + op + "\""
  {
    Named("{", "", "op", Json.Str(op), "\"op\":");
    assert "{" + "" == "{";
    Json.PlainQuoted(op);
    assert "{" + "\"op\":" == "{\"op\":";
    assert "{\"op\":" + ("\"" + op + "\"") == "{\"op\":\"" + op + "\"";
  }

  // ---------------------------------------------------------------- the tape

  /** What the buffer holds before it is closed. */
  function OpenText(es: seq<Entry>): string {
    "[" + Json.PrintItems(EntriesJson(es))
  }

  lemma Grows(es: seq<Entry>, e: Entry)
    ensures OpenText(es + [e]) == OpenText(es) + (if es == [] then "" else ",") + Json.Print(EntryJson(e))
  {
    hide Json.PrintItems, EntryJson, Json.Print;
    assert EntriesJson(es + [e]) == EntriesJson(es) + [EntryJson(e)];
    Json.PrintItemsSnoc(EntriesJson(es), EntryJson(e));
    var out, v := Json.PrintItems(EntriesJson(es)), Json.Print(EntryJson(e));
    if es == [] {
      NothingPrinted();
      assert "[" + ("" + v) == "[" + "" + "" + v;
    } else {
      Assoc("[", out + ",", v);
      Assoc("[", out, ",");
    }
  }

  lemma NothingPrinted()
    ensures Json.PrintItems([]) == ""
  {
  }

  method AppendJsonString(buf: Buffer, s: string)
    requires buf.Valid()
    modifies buf, buf.data
    ensures buf.Valid() && buf.Contents() == old(buf.Contents()) + Json.Quoted(s)
    ensures buf.data == old(buf.data) || fresh(buf.data)
  {
    hide Json.QuotedChar, Json.Escaped;
    buf.Append("\"");
    ghost var was := buf.Contents();
    NothingEscaped();
    assert s[..0] == "" && was + "" == was;
    for i := 0 to |s|
      invariant buf.Valid() && buf.Contents() == was + Json.Escaped(s[..i])
      invariant buf.data == old(buf.data) || fresh(buf.data)
    {
      Json.EscapedSnoc(s[..i], s[i]);
      assert s[..i + 1] == s[..i] + [s[i]];
      Assoc(was, Json.Escaped(s[..i]), Json.QuotedChar(s[i]));
      buf.Append(Json.QuotedChar(s[i]));
    }
    assert s[..|s|] == s;
    buf.Append("\"");
    ghost var before := old(buf.Contents());
    Assoc(before, "\"", Json.Escaped(s));
    Assoc(before, "\"" + Json.Escaped(s), "\"");
  }

  lemma NothingEscaped()
    ensures Json.Escaped("") == ""
  {
  }

  method AppendOptional(buf: Buffer, s: Option<string>)
    requires buf.Valid()
    modifies buf, buf.data
    ensures buf.Valid() && buf.Contents() == old(buf.Contents()) + Json.Print(OptionalJson(s))
    ensures buf.data == old(buf.data) || fresh(buf.data)
  {
    if s.Some? {
      AppendJsonString(buf, s.value);
    } else {
      buf.Append("null");
    }
  }

  class Tape {
    const buf: Buffer
    var count: nat
    ghost var entries: seq<Entry>

    ghost predicate Valid()
      reads this, buf, buf.data
    {
      buf.Valid() && count == |entries| && buf.Contents() == OpenText(entries)
    }

    constructor ()
      ensures Valid() && fresh(buf) && fresh(buf.data) && entries == []
    {
      buf := new Buffer(true);
      count, entries := 0, [];
      new;
      buf.Append("[");
      NothingPrinted();
    }

    /** Before every object but the first. */
    method Comma()
      requires Valid()
      modifies this`count, buf, buf.data
      ensures buf.Valid() && (buf.data == old(buf.data) || fresh(buf.data)) && count == old(count) + 1
      ensures buf.Contents() == OpenText(entries) + if entries == [] then "" else ","
    {
      if count > 0 {
        buf.Append(",");
      } else {
        assert OpenText(entries) + "" == OpenText(entries);
      }
      count := count + 1;
    }

    method CaptureGet(key: string, value: Option<string>)
      requires Valid()
      modifies this, buf, buf.data
      ensures Valid() && entries == old(entries) + [KvGet(key, value)]
    {
      hide Json.Print, EntryJson, OpenText;
      Comma();
      AppendGet(buf, key, value);
      Grows(entries, KvGet(key, value));
      entries := entries + [KvGet(key, value)];
    }

    method CaptureModule(path: string, hash: Option<string>)
      requires Valid()
      modifies this, buf, buf.data
      ensures Valid() && entries == old(entries) + [Module(path, hash)]
    {
      hide Json.Print, EntryJson, OpenText;
      Comma();
      AppendModule(buf, path, hash);
      Grows(entries, Module(path, hash));
      entries := entries + [Module(path, hash)];
    }

    method CaptureRange(start: string, end: string, rows: seq<(string, string)>)
      requires Valid()
      modifies this, buf, buf.data
      ensures Valid() && entries == old(entries) + [KvRange(start, end, rows)]
    {
      hide Json.Print, Json.Quoted, EntryJson, OpenText, RowsJson, RangeHead, EndPiece, ResultsPiece;
      Comma();
      ghost var was := buf.Contents();
      AppendRange(buf, start, end, rows);
      Grows(entries, KvRange(start, end, rows));
      entries := entries + [KvRange(start, end, rows)];
    }

    /** The closed tape. */
    method Finalize()
      requires Valid()
      modifies buf, buf.data
      ensures buf.Valid() && buf.Contents() == TapeText(entries)
    {
      buf.Append("]");
      buf.Ensure(1);
    }
  }

  lemma Pieces(was: string, a: string, b: string, c: string, d: string, e: string)
    ensures was + a + b + c + d + e == was + (a + b + c + d + e)
  {
    Assoc(was, a, b);
    Assoc(was, a + b, c);
    Assoc(was, a + b + c, d);
    Assoc(was, a + b + c + d, e);
  }

  method AppendGet(buf: Buffer, key: string, value: Option<string>)
    requires buf.Valid()
    modifies buf, buf.data
    ensures buf.Valid() && buf.Contents() == old(buf.Contents()) + Json.Print(EntryJson(KvGet(key, value)))
    ensures buf.data == old(buf.data) || fresh(buf.data)
  {
    hide Json.Print, Json.Quoted, EntryJson, OptionalJson, GetHead, ValuePiece;
    ghost var was := buf.Contents();
    buf.Append(GetHead());
    AppendJsonString(buf, key);
    buf.Append(ValuePiece());
    AppendOptional(buf, if value.Some? && |value.value| > 0 then value else None);
    buf.Append("}");
    GetText(key, value);
    Pieces(was, GetHead(), Json.Quoted(key), ValuePiece(), Json.Print(OptionalJson(Recorded(value))), "}");
  }

  method AppendModule(buf: Buffer, path: string, hash: Option<string>)
    requires buf.Valid()
    modifies buf, buf.data
    ensures buf.Valid() && buf.Contents() == old(buf.Contents()) + Json.Print(EntryJson(Module(path, hash)))
    ensures buf.data == old(buf.data) || fresh(buf.data)
  {
    hide Json.Print, Json.Quoted, EntryJson, OptionalJson, ModuleHead, HashPiece;
    ghost var was := buf.Contents();
    buf.Append(ModuleHead());
    AppendJsonString(buf, path);
    buf.Append(HashPiece());
    AppendOptional(buf, hash);
    buf.Append("}");
    ModuleText(path, hash);
    Pieces(was, ModuleHead(), Json.Quoted(path), HashPiece(), Json.Print(OptionalJson(hash)), "}");
  }

  method AppendRange(buf: Buffer, start: string, end: string, rows: seq<(string, string)>)
    requires buf.Valid()
    modifies buf, buf.data
    ensures buf.Valid() && buf.Contents() == old(buf.Contents()) + Json.Print(EntryJson(KvRange(start, end, rows)))
    ensures buf.data == old(buf.data) || fresh(buf.data)
  {
    hide Json.Print, Json.Quoted, EntryJson, RowsJson, RangeHead, EndPiece, ResultsPiece;
    ghost var was := buf.Contents();
    buf.Append(RangeHead());
    AppendJsonString(buf, start);
    buf.Append(EndPiece());
    AppendJsonString(buf, end);
    buf.Append(ResultsPiece());
    ghost var head := RangeHead() + Json.Quoted(start) + EndPiece() + Json.Quoted(end) + ResultsPiece();
    Pieces(was, RangeHead(), Json.Quoted(start), EndPiece(), Json.Quoted(end), ResultsPiece());
    AppendRows(buf, rows);
    buf.Append("}");
    RangeText(start, end, rows);
    ghost var list := Json.Print(Json.Arr(RowsJson(rows)));
    Assoc(was, head, list);
    Assoc(was, head + list, "}");
  }

  method AppendRow(buf: Buffer, row: (string, string))
    requires buf.Valid()
    modifies buf, buf.data
    ensures buf.Valid() && buf.Contents() == old(buf.Contents()) + Json.Print(RowJson(row))
    ensures buf.data == old(buf.data) || fresh(buf.data)
  {
    hide Json.Print, Json.Quoted, RowJson, RowHead, ValuePiece;
    ghost var was := buf.Contents();
    buf.Append(RowHead());
    AppendJsonString(buf, row.0);
    buf.Append(ValuePiece());
    AppendJsonString(buf, row.1);
    buf.Append("}");
    RowText(row);
    Pieces(was, RowHead(), Json.Quoted(row.0), ValuePiece(), Json.Quoted(row.1), "}");
  }

  method AppendRows(buf: Buffer, rows: seq<(string, string)>)
    requires buf.Valid()
    modifies buf, buf.data
    ensures buf.Valid() && buf.Contents() == old(buf.Contents()) + Json.Print(Json.Arr(RowsJson(rows)))
    ensures buf.data == old(buf.data) || fresh(buf.data)
  {
    hide Json.PrintItems, RowJson;
    ghost var start := buf.Contents();
    buf.Append("[");
    ghost var was := buf.Contents();
    NothingPrinted();
    assert RowsJson(rows[..0]) == [] && was + "" == was;
    for i := 0 to |rows|
      invariant buf.Valid() && buf.Contents() == was + Json.PrintItems(RowsJson(rows[..i]))
      invariant buf.data == old(buf.data) || fresh(buf.data)
    {
      ghost var done := Json.PrintItems(RowsJson(rows[..i]));
      assert RowsJson(rows[..i + 1]) == RowsJson(rows[..i]) + [RowJson(rows[i])];
      Json.PrintItemsSnoc(RowsJson(rows[..i]), RowJson(rows[i]));
      if i > 0 {
        buf.Append(",");
      } else {
        assert done == "" && was + "" == was && "" + Json.Print(RowJson(rows[i])) == Json.Print(RowJson(rows[i]));
      }
      AppendRow(buf, rows[i]);
      Assoc(was, done, ",");
      Assoc(was, done + ",", Json.Print(RowJson(rows[i])));
    }
    assert rows[..|rows|] == rows;
    buf.Append("]");
    ghost var list := Json.PrintItems(RowsJson(rows));
    Assoc(start, "[", list);
    Assoc(start, "[" + list, "]");
  }
}
