/**
 A table with a text primary key, kept in key order as ORDER BY walks it.
 */
module OrderedTable {
  import opened Machine
  import opened KvStore

  datatype Pair = Pair(key: Key, value: Value)

  // The table in key order, as ORDER BY key walks it.
  type Table = seq<Pair>

  // ---------------------------------------------------------------- key order

  /** memcmp order with the shorter key first. */
  predicate Less(a: Key, b: Key) {
    if b == [] then false
    else if a == [] then true
    else a[0] < b[0] || (a[0] == b[0] && Less(a[1..], b[1..]))
  }

  lemma {:induction false} LessTransitive(a: Key, b: Key, c: Key)
    requires Less(a, b) && Less(b, c)
    ensures Less(a, c)
  {
    if a != [] && a[0] == b[0] == c[0] {
      LessTransitive(a[1..], b[1..], c[1..]);
    }
  }

  lemma {:induction false} LessTotal(a: Key, b: Key)
    ensures a == b || Less(a, b) || Less(b, a)
    ensures !(Less(a, b) && Less(b, a)) && !Less(a, a)
  {
    if a != [] && b != [] && a[0] == b[0] {
      LessTotal(a[1..], b[1..]);
      assert a == [a[0]] + a[1..] && b == [b[0]] + b[1..];
    }
    if a != [] {
      LessTotal(a[1..], a[1..]);
    }
  }

  /** Byte by byte: the first byte in which two keys differ decides, else the shorter one is less. */
  lemma {:induction false} LessIff(a: Key, b: Key)
    ensures Less(a, b) <==>
            (|a| < |b| && a == b[..|a|]) ||
            exists i :: 0 <= i < Min(|a|, |b|) && a[..i] == b[..i] && a[i] < b[i]
  {
    if a != [] && b != [] && a[0] == b[0] {
      LessIff(a[1..], b[1..]);
      var n := Min(|a|, |b|);
      if i :| 0 <= i < n - 1 && a[1..][..i] == b[1..][..i] && a[1..][i] < b[1..][i] {
        LongerPrefix(a, b, i);
      }
      if i :| 0 <= i < n && a[..i] == b[..i] && a[i] < b[i] {
        assert i > 0;
        LongerPrefix(a, b, i - 1);
      }
      if |a| <= |b| {
        LongerPrefix(a, b, |a| - 1);
        assert a[1..][..|a| - 1] == a[1..] && a[..|a|] == a;
      }
    } else if a != [] && b != [] && a[0] < b[0] {
      assert a[..0] == b[..0];
    } else if a != [] && b != [] {
      forall i | 0 <= i < Min(|a|, |b|) && a[..i] == b[..i]
        ensures a[i] >= b[i]
      {
        if i > 0 {
          SameFirst(a, b, i);
        }
      }
      assert |a| < |b| ==> b[..|a|][0] == b[0];
    }
  }

  lemma SameFirst(a: Key, b: Key, i: nat)
    requires 0 < i <= |a| && i <= |b| && a[..i] == b[..i]
    ensures a[0] == b[0]
  {
    assert a[..i][0] == b[..i][0];
  }

  lemma LongerPrefix(a: Key, b: Key, i: nat)
    requires i < |a| && i < |b| && a[0] == b[0]
    ensures a[1..][..i] == b[1..][..i] <==> a[..i + 1] == b[..i + 1]
  {
    assert a[..i + 1] == [a[0]] + a[1..][..i] && b[..i + 1] == [b[0]] + b[1..][..i];
  }

  // ---------------------------------------------------------------- the table

  predicate Sorted(t: Table) {
    forall i, j :: 0 <= i < j < |t| ==> Less(t[i].key, t[j].key)
  }

  function GetRow(t: Table, k: Key): Option<Value> {
    if t == [] then None
    else if Last(t).key == k then Some(Last(t).value)
    else GetRow(Init(t), k)
  }

  /** INSERT OR REPLACE, keeping key order. */
  function PutRow(t: Table, k: Key, v: Value): Table {
    if t == [] then [Pair(k, v)]
    else if Last(t).key == k then Init(t) + [Pair(k, v)]
    else if Less(Last(t).key, k) then t + [Pair(k, v)]
    else PutRow(Init(t), k, v) + [Last(t)]
  }

  function RemoveRow(t: Table, k: Key): Table {
    if t == [] then []
    else if Last(t).key == k then RemoveRow(Init(t), k)
    else RemoveRow(Init(t), k) + [Last(t)]
  }

  /** key >= start AND key < end, in key order. */
  function Between(t: Table, start: Key, end: Key): Table {
    if t == [] then []
    else Between(Init(t), start, end) +
         if !Less(Last(t).key, start) && Less(Last(t).key, end) then [Last(t)] else []
  }

  /** LIMIT n; a negative n is no limit. */
  function Limit(t: Table, n: int): Table {
    if n < 0 || |t| <= n then t else t[..n]
  }

  lemma PutLast(t: Table, k: Key, v: Value)
    requires t != []
    ensures PutRow(t, k, v) ==
            if Last(t).key == k then Init(t) + [Pair(k, v)]
            else if Less(Last(t).key, k) then t + [Pair(k, v)]
            else PutRow(Init(t), k, v) + [Last(t)]
  {
  }

  lemma PutFirst(k: Key, v: Value)
    ensures PutRow([], k, v) == [] + [Pair(k, v)]
  {
  }

  lemma PutAbove(view: Table, k: Key, v: Value)
    requires view != [] ==> Less(Last(view).key, k)
    ensures PutRow(view, k, v) == view + [Pair(k, v)]
  {
    hide Less;
    LessTotal(k, k);
  }

  lemma BetweenLast(t: Table, start: Key, end: Key)
    requires t != []
    ensures var inside := !Less(Last(t).key, start) && Less(Last(t).key, end);
            Between(t, start, end) ==
              if inside then Between(Init(t), start, end) + [Last(t)] else Between(Init(t), start, end)
  {
  }

  lemma BetweenEmpty()
    ensures forall start, end :: Between([], start, end) == []
  {
  }

  lemma {:induction false} PutRowMembers(t: Table, k: Key, v: Value)
    ensures forall p :: p in PutRow(t, k, v) ==> p == Pair(k, v) || p in t
  {
    if t != [] {
      PutRowMembers(Init(t), k, v);
    }
  }

  lemma {:induction false} RemoveRowMembers(t: Table, k: Key)
    ensures forall p :: p in RemoveRow(t, k) ==> p in t
  {
    if t != [] {
      RemoveRowMembers(Init(t), k);
    }
  }

  lemma SortedInit(t: Table)
    requires Sorted(t) && t != []
    ensures Sorted(Init(t)) && forall p :: p in Init(t) ==> Less(p.key, Last(t).key)
  {
    forall p | p in Init(t)
      ensures Less(p.key, Last(t).key)
    {
      var i :| 0 <= i < |Init(t)| && Init(t)[i] == p;
      assert t[i] == p;
    }
  }

  lemma SortedSnoc(t: Table, p: Pair)
    requires Sorted(t) && forall q :: q in t ==> Less(q.key, p.key)
    ensures Sorted(t + [p])
  {
  }

  lemma {:induction false} PutKeepsOrder(t: Table, k: Key, v: Value)
    requires Sorted(t)
    ensures Sorted(PutRow(t, k, v))
  {
    hide Less, Sorted, PutRow;
    PutFirst(k, v);
    SortedNone();
    if t == [] {
      SortedSnoc([], Pair(k, v));
    } else {
      var last := Last(t);
      SortedInit(t);
      PutLast(t, k, v);
      if last.key == k {
        SortedSnoc(Init(t), Pair(k, v));
      } else if Less(last.key, k) {
        forall q | q in t
          ensures Less(q.key, k)
        {
          InitOrLast(t, q);
          if q in Init(t) {
            LessTransitive(q.key, last.key, k);
          }
        }
        SortedSnoc(t, Pair(k, v));
      } else {
        LessTotal(last.key, k);
        PutKeepsOrder(Init(t), k, v);
        PutRowMembers(Init(t), k, v);
        SortedSnoc(PutRow(Init(t), k, v), last);
      }
    }
  }

  lemma SortedNone()
    ensures Sorted([])
  {
  }

  lemma InitOrLast(t: Table, q: Pair)
    requires q in t
    ensures q in Init(t) || q == Last(t)
  {
  }

  lemma {:induction false} RemoveKeepsOrder(t: Table, k: Key)
    requires Sorted(t)
    ensures Sorted(RemoveRow(t, k))
  {
    hide Less, Sorted;
    if t != [] {
      SortedInit(t);
      RemoveKeepsOrder(Init(t), k);
      RemoveRowMembers(Init(t), k);
      SortedSnoc(RemoveRow(Init(t), k), Last(t));
    }
  }

  // ---------------------------------------------------------------- what a read finds

  lemma GetSnoc(t: Table, p: Pair, j: Key)
    ensures GetRow(t + [p], j) == if p.key == j then Some(p.value) else GetRow(t, j)
    ensures GetRow([], j) == None
  {
    assert Init(t + [p]) == t;
  }

  /** A put is found under its key, and every other key reads as before. */
  lemma {:induction false} GetAfterPut(t: Table, k: Key, v: Value, j: Key)
    ensures GetRow(PutRow(t, k, v), j) == if j == k then Some(v) else GetRow(t, j)
  {
    hide GetRow, PutRow, Less;
    PutFirst(k, v);
    GetSnoc([], Pair(k, v), j);
    if t != [] {
      var last, rest := Last(t), Init(t);
      assert t == rest + [last];
      PutLast(t, k, v);
      GetAfterPut(rest, k, v, j);
      GetSnoc(rest, last, j);
      GetSnoc(rest, Pair(k, v), j);
      GetSnoc(t, Pair(k, v), j);
      GetSnoc(PutRow(rest, k, v), last, j);
    }
  }

  /** A removed key is gone, and every other key reads as before. */
  lemma {:induction false} GetAfterRemove(t: Table, k: Key, j: Key)
    ensures GetRow(RemoveRow(t, k), j) == if j == k then None else GetRow(t, j)
  {
    hide GetRow;
    if t != [] {
      GetAfterRemove(Init(t), k, j);
      assert t == Init(t) + [Last(t)];
      GetSnoc(Init(t), Last(t), j);
      GetSnoc(RemoveRow(Init(t), k), Last(t), j);
    } else {
      GetSnoc([], Pair(k, []), j);
    }
  }

  /** In a table with one row a key, a read finds exactly the row there is. */
  lemma {:induction false} GetRowIff(t: Table, k: Key, v: Value)
    requires Sorted(t)
    ensures GetRow(t, k) == Some(v) <==> Pair(k, v) in t
  {
    hide Less;
    if t != [] {
      SortedInit(t);
      LessTotal(k, k);
      GetRowIff(Init(t), k, v);
      assert Pair(k, v) in t <==> Pair(k, v) in Init(t) || Pair(k, v) == Last(t);
    }
  }

  /** A range holds exactly the rows from start up to but without end. */
  lemma {:induction false} BetweenIff(t: Table, start: Key, end: Key, p: Pair)
    ensures p in Between(t, start, end) <==> p in t && !Less(p.key, start) && Less(p.key, end)
  {
    hide Less;
    if t != [] {
      BetweenIff(Init(t), start, end, p);
      assert p in t <==> p in Init(t) || p == Last(t);
    }
  }

  /** In key order. */
  lemma {:induction false} BetweenKeepsOrder(t: Table, start: Key, end: Key)
    requires Sorted(t)
    ensures Sorted(Between(t, start, end))
  {
    hide Less, Sorted, Between;
    SortedNone();
    BetweenEmpty();
    if t != [] {
      SortedInit(t);
      BetweenLast(t, start, end);
      BetweenKeepsOrder(Init(t), start, end);
      forall p | p in Between(Init(t), start, end)
        ensures Less(p.key, Last(t).key)
      {
        BetweenIff(Init(t), start, end, p);
      }
      SortedSnoc(Between(Init(t), start, end), Last(t));
    }
  }

  /** The first n rows, or all of them. */
  lemma LimitIs(t: Table, n: int)
    ensures Limit(t, n) <= t && |Limit(t, n)| == if 0 <= n < |t| then n else |t|
  {
  }
}
