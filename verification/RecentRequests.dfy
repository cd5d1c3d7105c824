/**
 The list of recent requests (src/js_globals.c, src/log_db.c): the largest request numbers of
 every worker database, merged. Cutting before the merge loses nothing.
 */
module RecentRequests {
  import opened Machine
  import opened Bits

  /** Strictly falling: ORDER BY request_id DESC over a primary key. */
  predicate Falling(s: seq<nat>) {
    forall i, j :: 0 <= i < j < |s| ==> s[i] > s[j]
  }

  function Cut(s: seq<nat>, limit: nat): seq<nat> {
    if |s| <= limit then s else s[..limit]
  }

  /** What the loop over the databases collects. */
  function Collected(dbs: seq<seq<nat>>, limit: nat): seq<nat> {
    if dbs == [] then [] else Collected(Init(dbs), limit) + Cut(Last(dbs), limit)
  }

  method Collect(dbs: seq<seq<nat>>, limit: nat) returns (all: array<nat>, total: nat)
    ensures fresh(all) && total <= all.Length && all[..total] == Collected(dbs, limit)
  {
    all := new nat[limit * |dbs|](_ => 0);
    total := 0;
    for w := 0 to |dbs|
      invariant total <= limit * w && all.Length == limit * |dbs|
      invariant all[..total] == Collected(dbs[..w], limit)
    {
      Room(limit, w, |dbs|);
      var entries := Cut(dbs[w], limit);
      ghost var start := total;
      for i := 0 to |entries|
        invariant total == start + i && start + |entries| <= all.Length
        invariant all[..total] == Collected(dbs[..w], limit) + entries[..i]
      {
        all[total] := entries[i];
        total := total + 1;
      }
      assert entries[..|entries|] == entries;
      assert Init(dbs[..w + 1]) == dbs[..w];
    }
    assert dbs[..|dbs|] == dbs;
  }

  lemma Room(limit: nat, w: nat, n: nat)
    requires w < n
    ensures limit * w + limit == limit * (w + 1) <= limit * n
  {
    assert limit * n - limit * (w + 1) == limit * (n - w - 1);
  }

  lemma {:induction false} CollectedMembers(dbs: seq<seq<nat>>, limit: nat, x: nat)
    ensures x in Collected(dbs, limit) <==> exists w :: 0 <= w < |dbs| && x in Cut(dbs[w], limit)
  {
    hide Cut;
    if dbs != [] {
      CollectedMembers(Init(dbs), limit, x);
      var n := |dbs| - 1;
      assert forall w :: 0 <= w < n ==> Init(dbs)[w] == dbs[w];
      if x in Collected(Init(dbs), limit) {
        var w :| 0 <= w < n && x in Cut(Init(dbs)[w], limit);
        assert x in Cut(dbs[w], limit);
      }
      assert Last(dbs) == dbs[n];
    }
  }

  lemma {:induction false} FlatMembers(dbs: seq<seq<nat>>, x: nat)
    ensures x in Flat(dbs) <==> exists w :: 0 <= w < |dbs| && x in dbs[w]
  {
    if dbs != [] {
      FlatMembers(Init(dbs), x);
      var n := |dbs| - 1;
      assert forall w :: 0 <= w < n ==> Init(dbs)[w] == dbs[w];
      if x in Flat(Init(dbs)) {
        var w :| 0 <= w < n && x in Init(dbs)[w];
        assert x in dbs[w];
      }
      assert Last(dbs) == dbs[n];
    }
  }

  /** In a falling list, what is larger than an element stands before it. */
  lemma {:induction false} RankBound(db: seq<nat>, i: nat, sorted: seq<nat>, j: nat)
    requires Falling(db) && Falling(sorted) && i < |db| && j < |sorted| && db[i] == sorted[j]
    requires forall x :: x in db ==> x in sorted
    ensures i <= j
    decreases i
  {
    if i > 0 {
      assert db[i - 1] in db;
      var m :| 0 <= m < |sorted| && sorted[m] == db[i - 1];
      RankBound(db, i - 1, sorted, m);
    }
  }

  /** The first elements agree when the smaller list holds the first elements of the larger. */
  lemma {:induction false} SamePrefix(sorted: seq<nat>, part: seq<nat>, k: nat)
    requires Falling(sorted) && Falling(part) && k <= |sorted|
    requires forall x :: x in part ==> x in sorted
    requires forall j :: 0 <= j < k ==> sorted[j] in part
    ensures k <= |part| && part[..k] == sorted[..k]
  {
    if k > 0 {
      SamePrefix(sorted, part, k - 1);
      var j := k - 1;
      forall m | 0 <= m < j
        ensures part[m] == sorted[m]
      {
        assert part[..j][m] == sorted[..j][m];
      }
      var i :| 0 <= i < |part| && part[i] == sorted[j];
      assert i >= j;
      assert part[j] in part;
      var m :| 0 <= m < |sorted| && sorted[m] == part[j];
      assert m >= j;
      assert part[..k] == part[..j] + [part[j]];
      assert sorted[..k] == sorted[..j] + [sorted[j]];
    }
  }

  /** Sorting the collected entries and cutting gives the largest numbers of the union. */
  lemma MergeIsExact(dbs: seq<seq<nat>>, limit: nat, sorted: seq<nat>, part: seq<nat>)
    requires forall w :: 0 <= w < |dbs| ==> Falling(dbs[w])
    requires Falling(sorted) && forall x :: x in sorted <==> x in Flat(dbs)
    requires Falling(part) && forall x :: x in part <==> x in Collected(dbs, limit)
    ensures Cut(part, limit) == Cut(sorted, limit)
  {
    var k := Min(limit, |sorted|);
    forall x | x in part
      ensures x in sorted
    {
      CollectedMembers(dbs, limit, x);
      FlatMembers(dbs, x);
      var w :| 0 <= w < |dbs| && x in Cut(dbs[w], limit);
      assert x in dbs[w];
    }
    forall j | 0 <= j < k
      ensures sorted[j] in part
    {
      TopIsCollected(dbs, limit, sorted, j);
    }
    SamePrefix(sorted, part, k);
    if |sorted| <= limit {
      NoMoreThan(part, sorted);
    }
  }

  lemma TopIsCollected(dbs: seq<seq<nat>>, limit: nat, sorted: seq<nat>, j: nat)
    requires forall w :: 0 <= w < |dbs| ==> Falling(dbs[w])
    requires Falling(sorted) && forall x :: x in sorted <==> x in Flat(dbs)
    requires j < |sorted| && j < limit
    ensures sorted[j] in Collected(dbs, limit)
  {
    var x := sorted[j];
    assert x in sorted;
    CollectedMembers(dbs, limit, x);
    FlatMembers(dbs, x);
    var w :| 0 <= w < |dbs| && x in dbs[w];
    var i :| 0 <= i < |dbs[w]| && dbs[w][i] == x;
    forall y | y in dbs[w]
      ensures y in sorted
    {
      FlatMembers(dbs, y);
    }
    RankBound(dbs[w], i, sorted, j);
    assert Cut(dbs[w], limit)[i] == x;
  }

  lemma PastEnd(part: seq<nat>, sorted: seq<nat>)
    requires Falling(part) && |sorted| < |part| && part[..|sorted|] == sorted
    ensures part[|sorted|] in part && part[|sorted|] !in sorted
  {
    forall m | 0 <= m < |sorted|
      ensures sorted[m] > part[|sorted|]
    {
      assert part[..|sorted|][m] == part[m];
    }
  }

  lemma NoMoreThan(part: seq<nat>, sorted: seq<nat>)
    requires Falling(part) && Falling(sorted) && |sorted| <= |part| && part[..|sorted|] == sorted
    requires forall x :: x in part ==> x in sorted
    ensures part == sorted
  {
    if |part| > |sorted| {
      PastEnd(part, sorted);
    }
  }

  // ---------------------------------------------------------------- request numbers

  // What is left of a worker number after a shift by 48 in 64 bits.
  const WORKER_NUMBERS: nat := 0x1_0000

  /** worker_id << 48 | counter, in 64 bits. */
  function RequestId(worker: nat, counter: nat): nat
    requires counter < U64_END
  {
    Or(worker * Pow2(48) % U64_END, counter)
  }

  /** The shift drops the worker's bits from the sixteenth on. */
  lemma RequestIdIs(w: nat, c: nat)
    requires c < U64_END
    ensures w % WORKER_NUMBERS < WORKER_NUMBERS
    ensures RequestId(w, c) == Or(w % WORKER_NUMBERS * Pow2(48), c)
  {
    hide Or, Pow2;
    Halves();
    var high := w / WORKER_NUMBERS;
    var low := w % WORKER_NUMBERS;
    assert (high * WORKER_NUMBERS + low) * Pow2(48) == high * (WORKER_NUMBERS * Pow2(48)) + low * Pow2(48);
    assert low * Pow2(48) <= (WORKER_NUMBERS - 1) * Pow2(48);
    DivModUnique(w * Pow2(48), U64_END, high, low * Pow2(48));
  }

  lemma Halves()
    ensures Pow2(16) == WORKER_NUMBERS && WORKER_NUMBERS * Pow2(48) == U64_END && Pow2(48) > 0
  {
    hide Pow2;
    PowerValues();
    Pow2Add(16, 48);
    Pow2Add(12, 4);
  }

  lemma {:induction false} OrIsSum(high: nat, k: nat, low: nat)
    requires low < Pow2(k)
    ensures Or(high * Pow2(k), low) == high * Pow2(k) + low
    decreases k
  {
    if k == 0 {
      assert Or(high, 0) == high;
    } else {
      var m := Pow2(k - 1);
      assert high * Pow2(k) == 2 * (high * m);
      OrIsSum(high, k - 1, low / 2);
      OrEven(high * m, low);
    }
  }

  lemma OrEven(a: nat, b: nat)
    ensures Or(2 * a, b) == 2 * Or(a, b / 2) + b % 2
  {
    if a == 0 || b == 0 {
      assert Or(a, b / 2) == if a == 0 then b / 2 else a;
    }
  }

  lemma {:induction false} OrSplits(high: nat, k: nat, c: nat)
    ensures Or(high * Pow2(k), c) == Or(high, Quotient(c, Pow2(k))) * Pow2(k) + c % Pow2(k)
    decreases k
  {
    hide Or, Pow2, Quotient;
    Pow2Step(k);
    QuotientIs(c, Pow2(k));
    if k > 0 {
      OrSplits(high, k - 1, c / 2);
      OrDoubles(high, Pow2(k - 1), c);
    }
  }

  lemma OrDoubles(high: nat, m: nat, c: nat)
    requires m > 0 && Or(high * m, c / 2) == Or(high, Quotient(c / 2, m)) * m + c / 2 % m
    ensures Or(high * (2 * m), c) == Or(high, Quotient(c, 2 * m)) * (2 * m) + c % (2 * m)
  {
    hide Or, Quotient;
    OrEven(high * m, c);
    ModHalf(c, m);
    HalfTwice(c, m);
    Doubles(high, m);
    Doubles(Or(high, Quotient(c / 2, m)), m);
  }

  lemma Doubles(a: nat, m: nat)
    ensures a * (2 * m) == 2 * (a * m)
  {
  }

  lemma HalfTwice(c: nat, m: nat)
    requires m > 0
    ensures Quotient(c, 2 * m) == Quotient(c / 2, m)
  {
    hide Quotient;
    var q, r := Quotient(c / 2, m), c / 2 % m;
    QuotientIs(c / 2, m);
    QuotientIs(c, 2 * m);
    Doubles(q, m);
    assert c == q * (2 * m) + (2 * r + c % 2);
    DivModUnique(c, 2 * m, q, 2 * r + c % 2);
  }

  /** What a counter adds to the worker's bits: c / 2^48. */
  function Spill(c: nat): nat {
    Quotient(c, Pow2(48))
  }

  /** And what stays below them. */
  function Below48(c: nat): (r: nat)
    ensures r < Pow2(48)
  {
    c % Pow2(48)
  }

  lemma SpillIff(c: nat)
    ensures Spill(c) > 0 <==> c >= Pow2(48)
  {
    hide Pow2;
  }

  lemma SpillBound(c: nat)
    requires c < U64_END
    ensures Spill(c) < WORKER_NUMBERS
  {
    hide Pow2, Quotient;
    Halves();
    QuotientIs(c, Pow2(48));
    FewerTimes(Spill(c), WORKER_NUMBERS, Pow2(48));
  }

  lemma FewerTimes(a: nat, b: nat, m: nat)
    requires a * m < b * m
    ensures a < b
  {
  }

  /** The worker that a number names in its upper sixteen bits. */
  function Named(w: nat, c: nat): nat {
    Or(w % WORKER_NUMBERS, Spill(c))
  }

  /** A number is made of the named worker and the lower 48 bits of the counter. */
  lemma NumberIs(w: nat, c: nat)
    requires c < U64_END
    ensures Named(w, c) < WORKER_NUMBERS && Below48(c) < Pow2(48) <= U64_END
    ensures RequestId(w, c) == Named(w, c) * Pow2(48) + Below48(c)
  {
    hide Or, Pow2, Quotient, RequestId;
    RequestIdIs(w, c);
    SpillBound(c);
    Halves();
    OrBound(w % WORKER_NUMBERS, Spill(c), 16);
    OrSplits(w % WORKER_NUMBERS, 48, c);
  }

  lemma NamedBelow48(w: nat, c: nat)
    requires w < WORKER_NUMBERS && c < Pow2(48)
    ensures Named(w, c) == w && Below48(c) == c && c < U64_END
  {
    hide Pow2;
    Halves();
    SpillIff(c);
  }

  /** A counter from 2^48 on spills into the worker's bits: the number is the one that the named
      worker gives out at c mod 2^48. */
  lemma RequestIdSpills(w: nat, c: nat)
    requires c < U64_END
    ensures Named(w, c) < WORKER_NUMBERS && Below48(c) < U64_END
    ensures RequestId(w, c) == RequestId(Named(w, c), Below48(c))
  {
    hide Pow2, RequestId, Named, Below48;
    NumberIs(w, c);
    NamedBelow48(Named(w, c), Below48(c));
    NumberIs(Named(w, c), Below48(c));
  }

  /** Two requests share a number if and only if they agree below 2^48 and in worker and counter
      above, or-ed together in sixteen bits. */
  lemma RequestIdsMeetIff(w: nat, c: nat, v: nat, d: nat)
    requires c < U64_END && d < U64_END
    ensures RequestId(w, c) == RequestId(v, d) <==> Below48(c) == Below48(d) && Named(w, c) == Named(v, d)
  {
    hide Pow2, RequestId, Named, Below48;
    NumberIs(w, c);
    NumberIs(v, d);
    if RequestId(w, c) == RequestId(v, d) {
      DivModUnique(RequestId(w, c), Pow2(48), Named(w, c), Below48(c));
      DivModUnique(RequestId(v, d), Pow2(48), Named(v, d), Below48(d));
    }
  }

  /** The first 65536 workers never share a number while their counters stay below 2^48. */
  lemma RequestIdsApart(w: nat, c: nat, v: nat, d: nat)
    requires w < WORKER_NUMBERS && v < WORKER_NUMBERS && c < Pow2(48) && d < Pow2(48)
    ensures c < U64_END && d < U64_END
    ensures RequestId(w, c) == RequestId(v, d) <==> w == v && c == d
  {
    hide Pow2, RequestId, Named, Below48;
    NamedBelow48(w, c);
    NamedBelow48(v, d);
    RequestIdsMeetIff(w, c, v, d);
  }

  /** Both limits are exact: worker 1 meets the first counter that spills, and worker 65536 meets
      worker 0 throughout. */
  lemma RequestIdsMeet(c: nat)
    requires c < U64_END
    ensures Pow2(48) < U64_END && RequestId(0, Pow2(48)) == RequestId(1, 0)
    ensures RequestId(WORKER_NUMBERS, c) == RequestId(0, c)
  {
    hide Pow2;
    Halves();
    assert WORKER_NUMBERS * Pow2(48) % U64_END == 0 * Pow2(48) % U64_END == 0;
    assert 1 * Pow2(48) % U64_END == Pow2(48);
    assert Or(0, Pow2(48)) == Pow2(48) && Or(Pow2(48), 0) == Pow2(48);
  }

  /** Within those limits numbers are ordered by worker first, and by age only within a worker. */
  lemma RequestIdsOrderIff(w: nat, c: nat, v: nat, d: nat)
    requires w < WORKER_NUMBERS && v < WORKER_NUMBERS && c < Pow2(48) && d < Pow2(48)
    ensures c < U64_END && d < U64_END
    ensures RequestId(w, c) > RequestId(v, d) <==> w > v || (w == v && c > d)
  {
    hide Pow2, RequestId, Named, Below48;
    NamedBelow48(w, c);
    NamedBelow48(v, d);
    NumberIs(w, c);
    NumberIs(v, d);
    if w > v {
      SmallerQuotient(Pow2(48), v, d, w, c);
    } else if w < v {
      SmallerQuotient(Pow2(48), w, c, v, d);
    }
  }

  /** So as many requests of a higher worker as are listed hide every request of a lower one,
      however much later that came. */
  lemma LaterRequestIsCut(sorted: seq<nat>, limit: nat, high: nat, low: nat, d: nat)
    requires Falling(sorted) && low < high < WORKER_NUMBERS && limit <= Pow2(48) && d < Pow2(48) <= U64_END
    requires forall c :: 0 <= c < limit ==> RequestId(high, c) in sorted
    ensures RequestId(low, d) !in Cut(sorted, limit)
  {
    hide Pow2, RequestId;
    var mine := Top(high, limit);
    forall i, j | 0 <= i < j < |mine|
      ensures mine[i] > mine[j]
    {
      RequestIdsOrderIff(high, limit - 1 - i, high, limit - 1 - j);
    }
    if j :| 0 <= j < |sorted| && j < limit && sorted[j] == RequestId(low, d) {
      RequestIdsOrderIff(high, 0, low, d);
      assert mine[limit - 1] == RequestId(high, 0) && mine[limit - 1] in sorted;
      var m :| 0 <= m < |sorted| && sorted[m] == mine[limit - 1];
      RankBound(mine, limit - 1, sorted, m);
    }
  }

  /** The first n requests of a worker, newest first. */
  function Top(w: nat, n: nat): (s: seq<nat>)
    requires n <= Pow2(48) <= U64_END
  {
    seq(n, i requires 0 <= i < n => RequestId(w, n - 1 - i))
  }
}
