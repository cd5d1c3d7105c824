/**
 Tenant views of the key-value table (src/worker.c, src/kvstore.c, src/js_globals.c): a tenant's
 keys carry the prefix tenants/<id>/ in one shared table kept in key order. Each tenant sees a
 store of its own.
 */
module Tenants {
  import opened Machine
  import opened KvStore
  import opened OrderedTable

  const SLASH: u8 := 47

  /** "tenants/" */
  const ROOT: Key := [116, 101, 110, 97, 110, 116, 115, 47]

  /** %lu */
  function Decimal(n: nat): (r: Key)
    ensures r != [] && SLASH !in r && (n < 10 <==> |r| == 1)
  {
    if n < 10 then [48 + n] else Decimal(n / 10) + [48 + n % 10]
  }

  function Prefix(id: nat): Key {
    ROOT + Decimal(id) + [SLASH]
  }

  lemma {:induction false} DecimalApart(a: nat, b: nat)
    requires Decimal(a) == Decimal(b)
    ensures a == b
  {
    if a >= 10 && b >= 10 {
      assert Init(Decimal(a)) == Decimal(a / 10) && Init(Decimal(b)) == Decimal(b / 10);
      assert Last(Decimal(a)) == 48 + a % 10 && Last(Decimal(b)) == 48 + b % 10;
      DecimalApart(a / 10, b / 10);
    }
  }

  /** Neither of two tenants' prefixes starts with the other. */
  lemma PrefixesApart(a: nat, b: nat, x: Key, y: Key)
    requires Prefix(a) + x == Prefix(b) + y
    ensures a == b && x == y
  {
    var s := Prefix(a) + x;
    var da, db := Decimal(a), Decimal(b);
    assert s[|ROOT|..] == da + [SLASH] + x;
    assert s[|ROOT|..] == db + [SLASH] + y;
    UpToSlash(da, x, db, y);
    DecimalApart(a, b);
  }

  lemma {:induction false} UpToSlash(a: Key, x: Key, b: Key, y: Key)
    requires SLASH !in a && SLASH !in b && a + [SLASH] + x == b + [SLASH] + y
    ensures a == b && x == y
  {
    var s := a + [SLASH] + x;
    assert s[0] == if a == [] then SLASH else a[0];
    assert s[0] == if b == [] then SLASH else b[0];
    if a != [] && b != [] {
      assert s[1..] == a[1..] + [SLASH] + x;
      assert s[1..] == b[1..] + [SLASH] + y;
      UpToSlash(a[1..], x, b[1..], y);
    }
    assert x == s[|a| + 1..] && y == s[|b| + 1..];
  }

  // ---------------------------------------------------------------- order under a prefix

  lemma {:induction false} LessUnderPrefix(p: Key, a: Key, b: Key)
    ensures Less(p + a, p + b) <==> Less(a, b)
  {
    if p == [] {
      assert p + a == a && p + b == b;
    } else {
      assert (p + a)[1..] == p[1..] + a && (p + b)[1..] == p[1..] + b;
      LessUnderPrefix(p[1..], a, b);
    }
  }

  /** A key between two keys with a prefix has that prefix. */
  lemma {:induction false} BetweenHasPrefix(p: Key, s: Key, e: Key, k: Key)
    requires !Less(k, p + s) && Less(k, p + e)
    ensures p <= k
  {
    if p != [] {
      assert (p + s)[1..] == p[1..] + s && (p + e)[1..] == p[1..] + e;
      if k != [] {
        BetweenHasPrefix(p[1..], s, e, k[1..]);
      }
    }
  }

  // ---------------------------------------------------------------- one tenant's view

  function Strip(p: Pair, prefix: Key): Pair
    requires prefix <= p.key
  {
    Pair(p.key[|prefix|..], p.value)
  }

  /** The rows under a prefix, without it. */
  function View(t: Table, prefix: Key): Table {
    if t == [] then []
    else View(Init(t), prefix) + if prefix <= Last(t).key then [Strip(Last(t), prefix)] else []
  }

  lemma ViewSnoc(t: Table, p: Pair, prefix: Key)
    ensures View(t + [p], prefix) == View(t, prefix) + if prefix <= p.key then [Strip(p, prefix)] else []
  {
    assert Init(t + [p]) == t;
  }

  lemma ViewLast(t: Table, prefix: Key)
    requires t != []
    ensures prefix <= Last(t).key ==>
              View(t, prefix) != [] && Init(View(t, prefix)) == View(Init(t), prefix) &&
              Last(View(t, prefix)) == Strip(Last(t), prefix)
    ensures !(prefix <= Last(t).key) ==> View(t, prefix) == View(Init(t), prefix)
  {
  }

  lemma StripIs(p: Pair, prefix: Key, k: Key)
    ensures p.key == prefix + k <==> prefix <= p.key && Strip(p, prefix).key == k
    ensures prefix <= prefix + k && Strip(Pair(prefix + k, p.value), prefix) == Pair(k, p.value)
  {
    if prefix <= p.key {
      assert p.key == prefix + p.key[|prefix|..];
    }
    assert (prefix + k)[|prefix|..] == k;
  }

  lemma {:induction false} GetUnder(t: Table, prefix: Key, k: Key)
    ensures GetRow(t, prefix + k) == GetRow(View(t, prefix), k)
  {
    if t != [] {
      GetUnder(Init(t), prefix, k);
      StripIs(Last(t), prefix, k);
      ViewLast(t, prefix);
    }
  }

  lemma {:induction false} RemoveUnder(t: Table, prefix: Key, k: Key)
    ensures View(RemoveRow(t, prefix + k), prefix) == RemoveRow(View(t, prefix), k)
  {
    if t != [] {
      RemoveUnder(Init(t), prefix, k);
      StripIs(Last(t), prefix, k);
      ViewSnoc(RemoveRow(Init(t), prefix + k), Last(t), prefix);
      ViewLast(t, prefix);
    }
  }

  lemma {:induction false} RemoveElsewhere(t: Table, prefix: Key, k: Key)
    requires !(prefix <= k)
    ensures View(RemoveRow(t, k), prefix) == View(t, prefix)
  {
    if t != [] {
      RemoveElsewhere(Init(t), prefix, k);
      ViewSnoc(RemoveRow(Init(t), k), Last(t), prefix);
    }
  }

  lemma {:induction false} PutElsewhere(t: Table, prefix: Key, k: Key, v: Value)
    requires !(prefix <= k)
    ensures View(PutRow(t, k, v), prefix) == View(t, prefix)
  {
    ViewSnoc(t, Pair(k, v), prefix);
    if t == [] {
      assert [] + [Pair(k, v)] == [Pair(k, v)];
    } else {
      PutElsewhere(Init(t), prefix, k, v);
      ViewSnoc(PutRow(Init(t), k, v), Last(t), prefix);
      ViewSnoc(Init(t), Pair(k, v), prefix);
    }
  }

  lemma {:induction false} ViewBelow(t: Table, prefix: Key, k: Key)
    requires Sorted(t) && t != [] && Less(Last(t).key, prefix + k)
    ensures View(t, prefix) != [] ==> Less(Last(View(t, prefix)).key, k)
  {
    hide Less, View, Strip;
    var last, rest := Last(t), Init(t);
    ViewLast(t, prefix);
    if prefix <= last.key {
      StripIs(last, prefix, Strip(last, prefix).key);
      LessUnderPrefix(prefix, Strip(last, prefix).key, k);
    } else if rest != [] {
      assert Last(rest) == t[|t| - 2] && Sorted(rest);
      LessTransitive(Last(rest).key, last.key, prefix + k);
      ViewBelow(rest, prefix, k);
    } else {
      ViewEmpty(prefix);
    }
  }

  lemma ViewEmpty(prefix: Key)
    ensures View([], prefix) == []
  {
  }

  /** Writing under the prefix is writing to the view. */
  lemma {:induction false} PutUnder(t: Table, prefix: Key, k: Key, v: Value)
    requires Sorted(t)
    ensures View(PutRow(t, prefix + k, v), prefix) == PutRow(View(t, prefix), k, v)
  {
    hide View, PutRow, Less, Strip;
    var full := prefix + k;
    var row := Pair(full, v);
    StripIs(row, prefix, k);
    PutFirst(full, v);
    PutFirst(k, v);
    ViewEmpty(prefix);
    ViewSnoc(t, row, prefix);
    if t != [] {
      var last, rest := Last(t), Init(t);
      assert Sorted(rest);
      PutUnder(rest, prefix, k, v);
      PutLast(t, full, v);
      ViewLast(t, prefix);
      ViewSnoc(rest, row, prefix);
      ViewSnoc(PutRow(rest, full, v), last, prefix);
      if prefix <= last.key {
        PutUnderLast(View(t, prefix), prefix, last, k, v);
      } else if Less(last.key, full) {
        ViewBelow(t, prefix, k);
        PutAbove(View(t, prefix), k, v);
      }
    }
  }

  /** The two insertions compare alike at a last row under the prefix. */
  lemma PutUnderLast(view: Table, prefix: Key, last: Pair, k: Key, v: Value)
    requires prefix <= last.key && view != [] && Last(view) == Strip(last, prefix)
    ensures PutRow(view, k, v) ==
            if last.key == prefix + k then Init(view) + [Pair(k, v)]
            else if Less(last.key, prefix + k) then view + [Pair(k, v)]
            else PutRow(Init(view), k, v) + [Strip(last, prefix)]
  {
    hide PutRow, Less, Strip;
    PutLast(view, k, v);
    StripIs(last, prefix, k);
    StripIs(last, prefix, Strip(last, prefix).key);
    LessUnderPrefix(prefix, Strip(last, prefix).key, k);
  }

  /** A range under the prefix is the same range of the view, in the same order. */
  lemma {:induction false} BetweenUnder(t: Table, prefix: Key, start: Key, end: Key)
    ensures View(Between(t, prefix + start, prefix + end), prefix) == Between(View(t, prefix), start, end)
    ensures AllUnder(Between(t, prefix + start, prefix + end), prefix)
  {
    hide View, Between, Less, Strip;
    ViewEmpty(prefix);
    BetweenEmpty();
    if t != [] {
      var last, most := Last(t), Between(Init(t), prefix + start, prefix + end);
      BetweenUnder(Init(t), prefix, start, end);
      BetweenLast(t, prefix + start, prefix + end);
      ViewLast(t, prefix);
      ViewSnoc(most, last, prefix);
      if prefix <= last.key {
        BetweenLast(View(t, prefix), start, end);
        StripIs(last, prefix, Strip(last, prefix).key);
        LessUnderPrefix(prefix, Strip(last, prefix).key, start);
        LessUnderPrefix(prefix, Strip(last, prefix).key, end);
      } else if !Less(last.key, prefix + start) && Less(last.key, prefix + end) {
        BetweenHasPrefix(prefix, start, end, last.key);
      }
    }
  }

  predicate AllUnder(t: Table, prefix: Key) {
    forall i :: 0 <= i < |t| ==> prefix <= t[i].key
  }

  lemma {:induction false} LimitUnder(t: Table, prefix: Key, n: int)
    requires AllUnder(t, prefix)
    ensures |View(t, prefix)| == |t|
    ensures View(Limit(t, n), prefix) == Limit(View(t, prefix), n)
  {
    if t != [] {
      assert forall i :: 0 <= i < |Init(t)| ==> Init(t)[i] == t[i];
      LimitUnder(Init(t), prefix, n);
      ViewLast(t, prefix);
      if n >= 0 && |t| > n {
        assert t[..n] == Init(t)[..n];
        assert View(t, prefix)[..n] == View(Init(t), prefix)[..n];
      }
    }
  }

  // ---------------------------------------------------------------- any run of any tenants

  const KEY_BUF: nat := 512

  datatype Command =
    | Read(key: Key)
    | Write(key: Key, value: Value)
    | Erase(key: Key)
    | Scan(start: Key, end: Key, count: int)

  datatype Answer = Found(value: Option<Value>) | Done | Rows(rows: Table) | TooLong

  function Longest(c: Command): nat {
    if c.Scan? then Max(|c.start|, |c.end|) else |c.key|
  }

  /** One call of the kv object in a request of the tenant. */
  function Exec(t: Table, prefix: Key, c: Command): (Table, Answer) {
    if |prefix| + Longest(c) >= KEY_BUF then (t, TooLong)
    else
      match c
      case Read(k) => (t, Found(GetRow(t, prefix + k)))
      case Write(k, v) => (PutRow(t, prefix + k, v), Done)
      case Erase(k) => (RemoveRow(t, prefix + k), Done)
      case Scan(s, e, n) => (t, Rows(Shown(Limit(Between(t, prefix + s, prefix + e), n), prefix)))
  }

  /** The keys of a result with the prefix cut off where it is there. */
  function Shown(t: Table, prefix: Key): Table {
    if t == [] then []
    else Shown(Init(t), prefix) + [if prefix <= Last(t).key then Strip(Last(t), prefix) else Last(t)]
  }

  /** The same call on a store of one's own with room for shorter keys. */
  function Alone(t: Table, room: nat, c: Command): (Table, Answer) {
    if Longest(c) >= room then (t, TooLong)
    else
      match c
      case Read(k) => (t, Found(GetRow(t, k)))
      case Write(k, v) => (PutRow(t, k, v), Done)
      case Erase(k) => (RemoveRow(t, k), Done)
      case Scan(s, e, n) => (t, Rows(Limit(Between(t, s, e), n)))
  }

  lemma {:induction false} ShownIsView(t: Table, prefix: Key)
    requires AllUnder(t, prefix)
    ensures Shown(t, prefix) == View(t, prefix)
  {
    if t != [] {
      ShownIsView(Init(t), prefix);
      ViewLast(t, prefix);
    }
  }

  lemma LimitAllUnder(t: Table, prefix: Key, n: int)
    requires AllUnder(t, prefix)
    ensures AllUnder(Limit(t, n), prefix)
  {
  }

  /** A tenant's call acts on its view as on a store of its own. */
  lemma OwnCall(t: Table, prefix: Key, c: Command)
    requires Sorted(t) && |prefix| <= KEY_BUF
    ensures var (after, answer) := Exec(t, prefix, c);
            Alone(View(t, prefix), KEY_BUF - |prefix|, c) == (View(after, prefix), answer)
  {
    hide View, PutRow, RemoveRow, GetRow, Between, Shown, Limit;
    if c.Read? {
      GetUnder(t, prefix, c.key);
    } else if c.Write? {
      PutUnder(t, prefix, c.key, c.value);
    } else if c.Erase? {
      RemoveUnder(t, prefix, c.key);
    } else {
      var all := Between(t, prefix + c.start, prefix + c.end);
      BetweenUnder(t, prefix, c.start, c.end);
      LimitUnder(all, prefix, c.count);
      LimitAllUnder(all, prefix, c.count);
      ShownIsView(Limit(all, c.count), prefix);
    }
  }

  /** Another tenant's call leaves the view alone. */
  lemma ForeignCall(t: Table, id: nat, other: nat, c: Command)
    requires id != other
    ensures View(Exec(t, Prefix(other), c).0, Prefix(id)) == View(t, Prefix(id))
  {
    hide View, PutRow, RemoveRow, GetRow, Between, Shown, Limit, Prefix;
    if !c.Scan? {
      NotUnder(id, other, c.key);
      if c.Write? {
        PutElsewhere(t, Prefix(id), Prefix(other) + c.key, c.value);
      } else if c.Erase? {
        RemoveElsewhere(t, Prefix(id), Prefix(other) + c.key);
      }
    }
  }

  lemma NotUnder(id: nat, other: nat, k: Key)
    requires id != other
    ensures !(Prefix(id) <= Prefix(other) + k)
  {
    hide Prefix;
    if Prefix(id) <= Prefix(other) + k {
      var full := Prefix(other) + k;
      assert full == Prefix(id) + full[|Prefix(id)|..];
      PrefixesApart(id, other, full[|Prefix(id)|..], k);
    }
  }

  lemma ExecKeepsOrder(t: Table, prefix: Key, c: Command)
    requires Sorted(t)
    ensures Sorted(Exec(t, prefix, c).0)
  {
    if c.Write? {
      PutKeepsOrder(t, prefix + c.key, c.value);
    } else if c.Erase? {
      RemoveKeepsOrder(t, prefix + c.key);
    }
  }

  /** The table after the calls of a run, each with the tenant that made it. */
  function After(t: Table, cs: seq<(nat, Command)>): Table {
    if cs == [] then t else Exec(After(t, Init(cs)), Prefix(Last(cs).0), Last(cs).1).0
  }

  /** What one tenant was answered. */
  function Answers(t: Table, cs: seq<(nat, Command)>, id: nat): seq<Answer> {
    if cs == [] then []
    else
      Answers(t, Init(cs), id) +
      if Last(cs).0 == id then [Exec(After(t, Init(cs)), Prefix(id), Last(cs).1).1] else []
  }

  function CallsOf(cs: seq<(nat, Command)>, id: nat): seq<Command> {
    if cs == [] then []
    else CallsOf(Init(cs), id) + if Last(cs).0 == id then [Last(cs).1] else []
  }

  function AloneAfter(t: Table, room: nat, cs: seq<Command>): Table {
    if cs == [] then t else Alone(AloneAfter(t, room, Init(cs)), room, Last(cs)).0
  }

  function AloneAnswers(t: Table, room: nat, cs: seq<Command>): seq<Answer> {
    if cs == [] then []
    else AloneAnswers(t, room, Init(cs)) + [Alone(AloneAfter(t, room, Init(cs)), room, Last(cs)).1]
  }

  /** Whatever the tenants do, each gets the answers, and keeps the rows, that its own calls alone
      would give on a private store. */
  lemma {:induction false} TenantsAreAlone(t: Table, cs: seq<(nat, Command)>, id: nat)
    requires Sorted(t) && |Prefix(id)| <= KEY_BUF
    ensures Sorted(After(t, cs))
    ensures var room := KEY_BUF - |Prefix(id)|;
            View(After(t, cs), Prefix(id)) == AloneAfter(View(t, Prefix(id)), room, CallsOf(cs, id)) &&
            Answers(t, cs, id) == AloneAnswers(View(t, Prefix(id)), room, CallsOf(cs, id))
  {
    hide View, Exec, Alone, Prefix, Sorted;
    if cs != [] {
      var (who, c) := Last(cs);
      var before := After(t, Init(cs));
      TenantsAreAlone(t, Init(cs), id);
      ExecKeepsOrder(before, Prefix(who), c);
      if who == id {
        OwnCall(before, Prefix(id), c);
        assert Init(CallsOf(cs, id)) == CallsOf(Init(cs), id);
      } else {
        ForeignCall(before, id, who, c);
        assert CallsOf(cs, id) == CallsOf(Init(cs), id);
      }
    }
  }

  // ---------------------------------------------------------------- what a tenant finds

  predicate Fits(prefix: Key, c: Command) {
    |prefix| + Longest(c) < KEY_BUF
  }

  /** A call is refused, and changes nothing, exactly when a key of it takes 512 bytes or more under
      the prefix. */
  lemma TooLongIff(t: Table, prefix: Key, c: Command)
    ensures Exec(t, prefix, c).1 == TooLong <==>
            match c
            case Read(k) => |prefix + k| >= 512
            case Write(k, _) => |prefix + k| >= 512
            case Erase(k) => |prefix + k| >= 512
            case Scan(start, end, _) => |prefix + start| >= 512 || |prefix + end| >= 512
    ensures Exec(t, prefix, c).1 == TooLong ==> Exec(t, prefix, c).0 == t
  {
  }

  /** After a write a read of that key finds the value, and of any other what it found before. */
  lemma WriteThenRead(t: Table, prefix: Key, k: Key, v: Value, j: Key)
    requires Fits(prefix, Command.Write(k, v)) && Fits(prefix, Read(j))
    ensures Exec(Exec(t, prefix, Command.Write(k, v)).0, prefix, Read(j)).1 ==
            if j == k then Found(Some(v)) else Exec(t, prefix, Read(j)).1
  {
    hide GetRow, PutRow;
    SameUnder(prefix, j, k);
    GetAfterPut(t, prefix + k, v, prefix + j);
  }

  /** After an erase a read of that key finds nothing, and of any other what it found before. */
  lemma EraseThenRead(t: Table, prefix: Key, k: Key, j: Key)
    requires Fits(prefix, Erase(k)) && Fits(prefix, Read(j))
    ensures Exec(Exec(t, prefix, Erase(k)).0, prefix, Read(j)).1 ==
            if j == k then Found(None) else Exec(t, prefix, Read(j)).1
  {
    hide GetRow, RemoveRow;
    SameUnder(prefix, j, k);
    GetAfterRemove(t, prefix + k, prefix + j);
  }

  lemma SameUnder(prefix: Key, j: Key, k: Key)
    ensures prefix + j == prefix + k <==> j == k
  {
    DropLeft(prefix, j);
    DropLeft(prefix, k);
  }

  /** A scan without a limit finds exactly the rows from start up to but without end that reads
      find, in key order; with a limit the first of them. */
  lemma ScanFindsIff(t: Table, prefix: Key, start: Key, end: Key, n: int, k: Key, v: Value)
    requires Sorted(t) && Fits(prefix, Scan(start, end, n)) && Fits(prefix, Read(k))
    ensures var all, some := Exec(t, prefix, Scan(start, end, -1)).1, Exec(t, prefix, Scan(start, end, n)).1;
            all.Rows? && some.Rows? && Sorted(all.rows) &&
            (Pair(k, v) in all.rows <==>
               !Less(k, start) && Less(k, end) && Exec(t, prefix, Read(k)).1 == Found(Some(v))) &&
            some.rows <= all.rows && |some.rows| == if 0 <= n < |all.rows| then n else |all.rows|
  {
    hide GetRow, View, Between, Less, Sorted, Limit, Shown;
    var mine := View(t, prefix);
    OwnCall(t, prefix, Scan(start, end, -1));
    OwnCall(t, prefix, Scan(start, end, n));
    ViewKeepsOrder(t, prefix);
    BetweenKeepsOrder(mine, start, end);
    BetweenIff(mine, start, end, Pair(k, v));
    LimitIs(Between(mine, start, end), -1);
    LimitIs(Between(mine, start, end), n);
    GetUnder(t, prefix, k);
    GetRowIff(mine, k, v);
    assert Exec(t, prefix, Scan(start, end, -1)).1 == Rows(Between(mine, start, end));
    assert Exec(t, prefix, Scan(start, end, n)).1 == Rows(Limit(Between(mine, start, end), n));
    assert Exec(t, prefix, Read(k)).1 == Found(GetRow(mine, k));
  }

  lemma {:induction false} ViewMember(t: Table, prefix: Key, p: Pair)
    requires p in View(t, prefix)
    ensures Pair(prefix + p.key, p.value) in t
  {
    hide Strip;
    if p in View(Init(t), prefix) {
      ViewMember(Init(t), prefix, p);
    } else {
      StripIs(Last(t), prefix, p.key);
      assert Strip(Last(t), prefix).value == Last(t).value by {
        StripValue(Last(t), prefix);
      }
      assert Last(t) == Pair(prefix + p.key, p.value);
    }
  }

  lemma StripValue(p: Pair, prefix: Key)
    requires prefix <= p.key
    ensures Strip(p, prefix).value == p.value
  {
  }

  lemma {:induction false} ViewKeepsOrder(t: Table, prefix: Key)
    requires Sorted(t)
    ensures Sorted(View(t, prefix))
  {
    hide Less, Sorted, Strip, View;
    ViewEmpty(prefix);
    SortedNone();
    if t != [] {
      SortedInit(t);
      ViewKeepsOrder(Init(t), prefix);
      ViewLast(t, prefix);
      if prefix <= Last(t).key {
        var last := Strip(Last(t), prefix);
        StripIs(Last(t), prefix, last.key);
        forall p | p in View(Init(t), prefix)
          ensures Less(p.key, last.key)
        {
          ViewMember(Init(t), prefix, p);
          LessUnderPrefix(prefix, p.key, last.key);
        }
        SortedSnoc(View(Init(t), prefix), last);
        assert View(t, prefix) == Init(View(t, prefix)) + [last];
      }
    }
  }

  /** The number a key of decimal digits stands for. */
  function NumberOf(digits: Key): int {
    if digits == [] then 0 else 10 * NumberOf(Init(digits)) + Last(digits) as int - 48
  }

  /** The digits of a tenant number read back as that number, without leading zeros. */
  lemma {:induction false} DecimalReads(n: nat)
    ensures NumberOf(Decimal(n)) == n && (n > 0 ==> Decimal(n)[0] != 48)
    ensures forall i :: 0 <= i < |Decimal(n)| ==> 48 <= Decimal(n)[i] <= 57
  {
    if n < 10 {
      assert Init([48 + n]) == [];
    } else {
      DecimalReads(n / 10);
      assert Init(Decimal(n)) == Decimal(n / 10);
    }
  }

  /** The keys of tenant 42 start with "tenants/42/". */
  lemma PrefixText()
    ensures Prefix(42) == [116, 101, 110, 97, 110, 116, 115, 47, 52, 50, 47]
  {
    assert Decimal(4) == [52] && Decimal(42) == Decimal(4) + [50];
  }

  /** A 64-bit tenant number leaves room for keys of 482 bytes and more. */
  lemma RoomForKeys(id: u64)
    ensures |Prefix(id)| <= 29
  {
    assert Pow10(2) == 100;
    assert Pow10(4) == 10000;
    assert Pow10(6) == 1000000;
    assert Pow10(8) == 100000000;
    assert Pow10(10) == 10000000000;
    assert Pow10(12) == 1000000000000;
    assert Pow10(14) == 100000000000000;
    assert Pow10(16) == 10000000000000000;
    assert Pow10(18) == 1000000000000000000;
    assert Pow10(20) == 100000000000000000000;
    DecimalLength(id, 20);
  }

  function Pow10(n: nat): nat {
    if n == 0 then 1 else 10 * Pow10(n - 1)
  }

  lemma {:induction false} DecimalLength(v: nat, n: nat)
    requires v < Pow10(n) && n > 0
    ensures |Decimal(v)| <= n
    decreases n
  {
    if v >= 10 {
      assert Pow10(n) == 10 * Pow10(n - 1);
      DecimalLength(v / 10, n - 1);
    }
  }
}
