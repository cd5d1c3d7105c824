/**
 The content-addressed trees of src/code_db.c: files stored under the hash of their content, one
 working tree a database, and recorded trees named by the hash of their listing. The hash
 function is any function to 40 bytes; what is claimed holds as long as no two inputs hashed so
 far collide.
 */
module CodeTrees {
  import opened Machine
  import opened OrderedTable
  import Wire

  type Bytes = seq<u8>
  type Hasher = Bytes -> Bytes

  const NEWLINE: u8 := 10
  const WORKING: Bytes := []

  // The three tables, and every input hashed so far.
  datatype Db = Db(files: map<Bytes, Bytes>, trees: map<(Bytes, Bytes), Table>,
                   deployments: map<(Bytes, Bytes), int>, hashed: set<Bytes>)

  const EMPTY_DB := Db(map[], map[], map[], {})

  function Tree(s: Db, id: Bytes, hash: Bytes): Table {
    if (id, hash) in s.trees then s.trees[(id, hash)] else []
  }

  // ---------------------------------------------------------------- the listing

  /** A path without a zero byte and a hash of 40 bytes. */
  predicate Listable(t: Table) {
    forall i :: 0 <= i < |t| ==> 0 !in t[i].key && |t[i].value| == 40
  }

  function Line(p: Pair): Bytes {
    p.key + [0] + p.value + [NEWLINE]
  }

  /** The Merkle input: path, zero byte, hash and newline for every entry. */
  function Listing(t: Table): Bytes {
    if t == [] then [] else Listing(Init(t)) + Line(Last(t))
  }

  lemma {:induction false} ListingAppend(a: Table, b: Table)
    ensures Listing(a + b) == Listing(a) + Listing(b)
  {
    hide Line;
    if b == [] {
      assert a + b == a;
    } else {
      ListingAppend(a, Init(b));
      assert Init(a + b) == a + Init(b);
      Assoc(Listing(a), Listing(Init(b)), Line(Last(b)));
    }
  }

  /** The line of row i: its path, a zero byte, its hash and a newline, between the lines before and
      after it. */
  lemma ListingAt(t: Table, i: nat)
    requires i < |t|
    ensures Listing(t) == Listing(t[..i]) + (t[i].key + [0] + t[i].value + [10]) + Listing(t[i + 1..])
    ensures Listing([]) == []
  {
    hide Line, Listing;
    SplitAt(t, i);
    var before, row, after := t[..i], [t[i]], t[i + 1..];
    var line := t[i].key + [0] + t[i].value + [10];
    ListingAppend(before + row, after);
    ListingAppend(before, row);
    ListingOne(t[i]);
    assert Listing(row) == line;
  }

  lemma SplitAt(t: Table, i: nat)
    requires i < |t|
    ensures t == t[..i] + [t[i]] + t[i + 1..]
  {
  }

  lemma ListingOne(p: Pair)
    ensures Listing([p]) == p.key + [0] + p.value + [10] && Listing([]) == []
  {
    assert Init([p]) == [];
    assert [] + Line(p) == Line(p);
  }

  lemma ListingUncons(t: Table)
    requires t != []
    ensures Listing(t) == Line(t[0]) + Listing(t[1..])
  {
    hide Line;
    ListingAppend([t[0]], t[1..]);
    assert [t[0]] + t[1..] == t;
    assert Init([t[0]]) == [];
    assert Listing([]) == [] && [] + Line(t[0]) == Line(t[0]);
  }

  lemma {:induction false} UpToZero(a: Bytes, x: Bytes, b: Bytes, y: Bytes)
    requires 0 !in a && 0 !in b && a + [0] + x == b + [0] + y
    ensures a == b && x == y
  {
    var s := a + [0] + x;
    assert s[0] == if a == [] then 0 else a[0];
    assert s[0] == if b == [] then 0 else b[0];
    if a != [] && b != [] {
      assert s[1..] == a[1..] + [0] + x;
      assert s[1..] == b[1..] + [0] + y;
      UpToZero(a[1..], x, b[1..], y);
    }
    assert x == s[|a| + 1..] && y == s[|b| + 1..];
  }

  lemma LinesApart(p: Pair, x: Bytes, q: Pair, y: Bytes)
    requires 0 !in p.key && |p.value| == 40 && 0 !in q.key && |q.value| == 40
    requires Line(p) + x == Line(q) + y
    ensures p == q && x == y
  {
    var restP, restQ := p.value + [NEWLINE] + x, q.value + [NEWLINE] + y;
    assert Line(p) + x == p.key + [0] + restP;
    assert Line(q) + y == q.key + [0] + restQ;
    UpToZero(p.key, restP, q.key, restQ);
    assert p.value == restP[..40] && x == restP[41..];
    assert q.value == restQ[..40] && y == restQ[41..];
  }

  /** Different trees have different listings. */
  lemma {:induction false} ListingInjective(a: Table, b: Table)
    requires Listable(a) && Listable(b) && Listing(a) == Listing(b)
    ensures a == b
  {
    hide Listing, Line;
    if a != [] && b != [] {
      ListingUncons(a);
      ListingUncons(b);
      LinesApart(a[0], Listing(a[1..]), b[0], Listing(b[1..]));
      ListingInjective(a[1..], b[1..]);
      assert a == [a[0]] + a[1..] && b == [b[0]] + b[1..];
    } else {
      ListingEmptyIff(a);
      ListingEmptyIff(b);
    }
  }

  lemma ListingEmptyIff(t: Table)
    ensures Listing(t) == [] <==> t == []
  {
  }

  // ---------------------------------------------------------------- the operations

  ghost predicate Hex(h: Hasher) {
    forall x :: |h(x)| == 40
  }

  predicate NoCollision(h: Hasher, inputs: set<Bytes>) {
    forall x, y :: x in inputs && y in inputs && h(x) == h(y) ==> x == y
  }

  /** INSERT OR IGNORE of the content, then the working tree entry. */
  function PutFile(h: Hasher, s: Db, id: Bytes, path: Bytes, content: Bytes): Db {
    s.(files := if h(content) in s.files then s.files else s.files[h(content) := content],
       trees := s.trees[(id, WORKING) := PutRow(Tree(s, id, WORKING), path, h(content))],
       hashed := s.hashed + {content})
  }

  function DeleteFile(s: Db, id: Bytes, path: Bytes): Db {
    s.(trees := s.trees[(id, WORKING) := RemoveRow(Tree(s, id, WORKING), path)])
  }

  function ClearTree(s: Db, id: Bytes): Db {
    s.(trees := s.trees[(id, WORKING) := []])
  }

  /** Some row of the tree is already there under the same key. */
  predicate Conflicts(t: Table, w: Table) {
    exists i :: 0 <= i < |w| && GetRow(t, w[i].key).Some?
  }

  function Merge(t: Table, w: Table): Table {
    if w == [] then t else PutRow(Merge(t, Init(w)), Last(w).key, Last(w).value)
  }

  /** The copy of the working tree under the hash of its listing; rolled back on a conflict. */
  function Snapshot(h: Hasher, s: Db, id: Bytes, now: int): (Db, Option<Bytes>) {
    var w := Tree(s, id, WORKING);
    if w == [] then (s, None)
    else
      var hash := h(Listing(w));
      var s1 := s.(hashed := s.hashed + {Listing(w)});
      if Conflicts(Tree(s, id, hash), w) then (s1, None)
      else
        (s1.(trees := s.trees[(id, hash) := Merge(Tree(s, id, hash), w)],
             deployments := s.deployments[(id, hash) := now]), Some(hash))
  }

  /** SELECT f.content FROM trees t JOIN files f. */
  function ReadFile(s: Db, id: Bytes, hash: Bytes, path: Bytes): Option<Bytes> {
    var sha := GetRow(Tree(s, id, hash), path);
    if sha.Some? && sha.value in s.files then Some(s.files[sha.value]) else None
  }

  // ---------------------------------------------------------------- the invariant

  predicate RowsStored(s: Db, t: Table) {
    Sorted(t) && Listable(t) && forall i :: 0 <= i < |t| ==> t[i].value in s.files
  }

  ghost predicate Inv(h: Hasher, s: Db) {
    (forall k :: k in s.trees ==> RowsStored(s, s.trees[k])) &&
    (forall sha :: sha in s.files ==> h(s.files[sha]) == sha && s.files[sha] in s.hashed) &&
    (forall id, hash :: (id, hash) in s.trees && hash != WORKING && s.trees[(id, hash)] != [] ==>
       Listing(s.trees[(id, hash)]) in s.hashed && hash == h(Listing(s.trees[(id, hash)])))
  }

  lemma {:induction false} PutRowStored(s: Db, t: Table, path: Bytes, sha: Bytes)
    requires RowsStored(s, t) && 0 !in path && |sha| == 40 && sha in s.files
    ensures RowsStored(s, PutRow(t, path, sha))
  {
    PutKeepsOrder(t, path, sha);
    PutRowMembers(t, path, sha);
    var u := PutRow(t, path, sha);
    forall i | 0 <= i < |u|
      ensures 0 !in u[i].key && |u[i].value| == 40 && u[i].value in s.files
    {
      assert u[i] in u;
      if u[i] != Pair(path, sha) {
        var j :| 0 <= j < |t| && t[j] == u[i];
      }
    }
  }

  lemma RowsStoredSubset(s: Db, t: Table, u: Table)
    requires RowsStored(s, t) && Sorted(u) && forall p :: p in u ==> p in t
    ensures RowsStored(s, u)
  {
    forall i | 0 <= i < |u|
      ensures 0 !in u[i].key && |u[i].value| == 40 && u[i].value in s.files
    {
      assert u[i] in t;
      var j :| 0 <= j < |t| && t[j] == u[i];
    }
  }

  // ---------------------------------------------------------------- what every operation keeps

  lemma PutFileKeepsInv(h: Hasher, s: Db, id: Bytes, path: Bytes, content: Bytes)
    requires Hex(h) && Inv(h, s) && 0 !in path
    ensures Inv(h, PutFile(h, s, id, path, content))
  {
    var after := PutFile(h, s, id, path, content);
    var w := Tree(s, id, WORKING);
    forall k | k in after.trees
      ensures RowsStored(after, after.trees[k])
    {
      if k == (id, WORKING) {
        MoreFiles(s, after, w);
        PutRowStored(after, w, path, h(content));
      } else {
        MoreFiles(s, after, s.trees[k]);
      }
    }
  }

  lemma MoreFiles(s: Db, after: Db, t: Table)
    requires RowsStored(s, t) && s.files.Keys <= after.files.Keys
    ensures RowsStored(after, t)
  {
  }

  lemma DeleteFileKeepsInv(h: Hasher, s: Db, id: Bytes, path: Bytes)
    requires Inv(h, s)
    ensures Inv(h, DeleteFile(s, id, path))
  {
    var after := DeleteFile(s, id, path);
    var w := Tree(s, id, WORKING);
    RemoveKeepsOrder(w, path);
    RemoveRowMembers(w, path);
    forall k | k in after.trees
      ensures RowsStored(after, after.trees[k])
    {
      if k == (id, WORKING) {
        MoreFiles(s, after, w);
        RowsStoredSubset(after, w, RemoveRow(w, path));
      } else {
        MoreFiles(s, after, s.trees[k]);
      }
    }
  }

  lemma ClearTreeKeepsInv(h: Hasher, s: Db, id: Bytes)
    requires Inv(h, s)
    ensures Inv(h, ClearTree(s, id))
  {
    forall k | k in ClearTree(s, id).trees
      ensures RowsStored(ClearTree(s, id), ClearTree(s, id).trees[k])
    {
      if k != (id, WORKING) {
        MoreFiles(s, ClearTree(s, id), s.trees[k]);
      }
    }
  }

  lemma {:induction false} MergeIntoNothing(w: Table)
    requires Sorted(w)
    ensures Merge([], w) == w
  {
    if w != [] {
      MergeIntoNothing(Init(w));
      assert w == Init(w) + [Last(w)];
      if Init(w) != [] {
        assert Last(Init(w)) == w[|w| - 2];
        LessTotal(Last(Init(w)).key, Last(w).key);
      }
    }
  }

  lemma {:induction false} GetRowOf(t: Table, i: nat)
    requires Sorted(t) && i < |t|
    ensures GetRow(t, t[i].key) == Some(t[i].value)
  {
    if i < |t| - 1 {
      assert Less(t[i].key, Last(t).key);
      LessTotal(t[i].key, Last(t).key);
      assert Init(t)[i] == t[i];
      GetRowOf(Init(t), i);
    }
  }

  /** A snapshot is taken exactly when there is something to record and this very tree has not
      been recorded before; the tree recorded is the working tree. Otherwise nothing changes. */
  lemma SnapshotIff(h: Hasher, s: Db, id: Bytes, now: int)
    requires Hex(h) && Inv(h, s)
    requires NoCollision(h, Snapshot(h, s, id, now).0.hashed)
    ensures var w := Tree(s, id, WORKING);
            var (after, hash) := Snapshot(h, s, id, now);
            (hash.Some? <==> w != [] && Tree(s, id, h(Listing(w))) != w) &&
            (hash.Some? ==>
               hash.value == h(Listing(w)) && Tree(s, id, hash.value) == [] &&
               after.trees == s.trees[(id, hash.value) := w] &&
               after.deployments == s.deployments[(id, hash.value) := now]) &&
            (hash.None? ==> after.trees == s.trees && after.deployments == s.deployments) &&
            after.files == s.files
  {
    hide Sorted, Merge, GetRow, Listing, Listable;
    var w := Tree(s, id, WORKING);
    if w != [] {
      var hash := h(Listing(w));
      var t := Tree(s, id, hash);
      assert |hash| == 40;
      if t == [] {
        NothingConflicts(w);
        MergeIntoNothing(w);
      } else {
        ListingInjective(t, w);
        OwnConflict(w);
      }
    }
  }

  lemma NothingConflicts(w: Table)
    ensures !Conflicts([], w)
  {
  }

  lemma OwnConflict(w: Table)
    requires Sorted(w) && w != []
    ensures Conflicts(w, w)
  {
    GetRowOf(w, 0);
  }

  lemma SnapshotKeepsInv(h: Hasher, s: Db, id: Bytes, now: int)
    requires Hex(h) && Inv(h, s)
    requires NoCollision(h, Snapshot(h, s, id, now).0.hashed)
    ensures Inv(h, Snapshot(h, s, id, now).0)
  {
    hide Sorted, Listing, Listable;
    SnapshotIff(h, s, id, now);
    var (after, hash) := Snapshot(h, s, id, now);
    forall k | k in after.trees
      ensures RowsStored(after, after.trees[k])
    {
      if k in s.trees {
        MoreFiles(s, after, s.trees[k]);
      }
      if (id, WORKING) in s.trees {
        MoreFiles(s, after, Tree(s, id, WORKING));
      }
    }
  }

  // ---------------------------------------------------------------- runs

  datatype Command =
    | Put(id: Bytes, path: Bytes, content: Bytes)
    | Delete(id: Bytes, path: Bytes)
    | Clear(id: Bytes)
    | Record(id: Bytes, now: int)

  function Step(h: Hasher, s: Db, c: Command): Db {
    match c
    case Put(id, path, content) => PutFile(h, s, id, path, content)
    case Delete(id, path) => DeleteFile(s, id, path)
    case Clear(id) => ClearTree(s, id)
    case Record(id, now) => Snapshot(h, s, id, now).0
  }

  function After(h: Hasher, s: Db, cs: seq<Command>): Db {
    if cs == [] then s else Step(h, After(h, s, Init(cs)), Last(cs))
  }

  /** Paths are C strings. */
  predicate Named(cs: seq<Command>) {
    forall i :: 0 <= i < |cs| && cs[i].Put? ==> 0 !in cs[i].path
  }

  lemma HashedGrows(h: Hasher, s: Db, c: Command)
    ensures s.hashed <= Step(h, s, c).hashed
  {
  }

  lemma {:induction false} RunKeepsInv(h: Hasher, s: Db, cs: seq<Command>)
    requires Hex(h) && Inv(h, s) && Named(cs) && NoCollision(h, After(h, s, cs).hashed)
    ensures Inv(h, After(h, s, cs))
    ensures s.hashed <= After(h, s, cs).hashed
  {
    hide Inv, Step;
    if cs != [] {
      var before, c := After(h, s, Init(cs)), Last(cs);
      HashedGrows(h, before, c);
      RunKeepsInv(h, s, Init(cs));
      StepKeepsInv(h, before, c);
    }
  }

  lemma StepKeepsInv(h: Hasher, s: Db, c: Command)
    requires Hex(h) && Inv(h, s) && (c.Put? ==> 0 !in c.path) && NoCollision(h, Step(h, s, c).hashed)
    ensures Inv(h, Step(h, s, c))
  {
    if c.Put? {
      PutFileKeepsInv(h, s, c.id, c.path, c.content);
    } else if c.Delete? {
      DeleteFileKeepsInv(h, s, c.id, c.path);
    } else if c.Clear? {
      ClearTreeKeepsInv(h, s, c.id);
    } else {
      SnapshotKeepsInv(h, s, c.id, c.now);
    }
  }

  /** One operation never changes a recorded tree or a stored file. */
  lemma StepKeepsRecorded(h: Hasher, s: Db, c: Command, id: Bytes, hash: Bytes)
    requires Hex(h) && Inv(h, s) && NoCollision(h, Step(h, s, c).hashed)
    requires hash != WORKING && Tree(s, id, hash) != []
    ensures Tree(Step(h, s, c), id, hash) == Tree(s, id, hash)
    ensures forall sha :: sha in s.files ==> sha in Step(h, s, c).files && Step(h, s, c).files[sha] == s.files[sha]
  {
    if c.Record? {
      SnapshotIff(h, s, c.id, c.now);
    }
  }

  /** A recorded tree, once there, lists and reads the same after any run. */
  lemma {:induction false} RecordedForGood(h: Hasher, s: Db, cs: seq<Command>, id: Bytes, hash: Bytes)
    requires Hex(h) && Inv(h, s) && Named(cs) && NoCollision(h, After(h, s, cs).hashed)
    requires hash != WORKING && Tree(s, id, hash) != []
    ensures Tree(After(h, s, cs), id, hash) == Tree(s, id, hash)
    ensures forall path :: ReadFile(After(h, s, cs), id, hash, path) == ReadFile(s, id, hash, path)
  {
    hide Step, NoCollision;
    if cs != [] {
      var before, c := After(h, s, Init(cs)), Last(cs);
      HashedGrows(h, before, c);
      FewerCollisions(h, before.hashed, After(h, s, cs).hashed);
      RecordedForGood(h, s, Init(cs), id, hash);
      RunKeepsInv(h, s, Init(cs));
      StepKeepsRecorded(h, before, c, id, hash);
      forall path
        ensures ReadFile(After(h, s, cs), id, hash, path) == ReadFile(before, id, hash, path)
      {
        RowHasFile(h, before, id, hash, path);
      }
    }
  }

  lemma FewerCollisions(h: Hasher, a: set<Bytes>, b: set<Bytes>)
    requires a <= b && NoCollision(h, b)
    ensures NoCollision(h, a)
  {
  }

  lemma {:induction false} GetRowMember(t: Table, k: Bytes)
    ensures GetRow(t, k).Some? ==> Pair(k, GetRow(t, k).value) in t
  {
    if t != [] && Last(t).key != k {
      GetRowMember(Init(t), k);
    }
  }

  lemma RowHasFile(h: Hasher, s: Db, id: Bytes, hash: Bytes, path: Bytes)
    requires Inv(h, s)
    ensures GetRow(Tree(s, id, hash), path).Some? ==> GetRow(Tree(s, id, hash), path).value in s.files
  {
    hide GetRow;
    var t := Tree(s, id, hash);
    GetRowMember(t, path);
    if GetRow(t, path).Some? {
      var i :| 0 <= i < |t| && t[i] == Pair(path, GetRow(t, path).value);
      assert t[i].value in s.files;
    }
  }

  /** What was put on a path is what is read there; every other file reads as before, in this
      working tree, in every recorded tree and in every other database. */
  lemma PutThenRead(h: Hasher, s: Db, id: Bytes, path: Bytes, content: Bytes, id2: Bytes, hash: Bytes, q: Bytes)
    requires Hex(h) && Inv(h, s) && NoCollision(h, PutFile(h, s, id, path, content).hashed)
    ensures ReadFile(PutFile(h, s, id, path, content), id2, hash, q) ==
            if (id2, hash) == (id, WORKING) && q == path then Some(content) else ReadFile(s, id2, hash, q)
  {
    hide GetRow, PutRow;
    GetAfterPut(Tree(s, id, WORKING), path, h(content), q);
    RowHasFile(h, s, id2, hash, q);
  }

  /** A deleted file is gone from the working tree, and every other file reads as before. */
  lemma DeleteThenRead(s: Db, id: Bytes, path: Bytes, id2: Bytes, hash: Bytes, q: Bytes)
    ensures ReadFile(DeleteFile(s, id, path), id2, hash, q) ==
            if (id2, hash) == (id, WORKING) && q == path then None else ReadFile(s, id2, hash, q)
  {
    hide GetRow, RemoveRow;
    GetAfterRemove(Tree(s, id, WORKING), path, q);
  }

  /** A cleared working tree holds no file, and every other tree reads as before. */
  lemma ClearThenRead(s: Db, id: Bytes, id2: Bytes, hash: Bytes, q: Bytes)
    ensures ReadFile(ClearTree(s, id), id2, hash, q) ==
            if (id2, hash) == (id, WORKING) then None else ReadFile(s, id2, hash, q)
  {
    assert GetRow([], q) == None;
  }

  /** The recorded tree reads like the working tree it was taken from, and every other tree as
      before. */
  lemma SnapshotThenRead(h: Hasher, s: Db, id: Bytes, now: int, id2: Bytes, hash: Bytes, q: Bytes)
    requires Hex(h) && Inv(h, s) && NoCollision(h, Snapshot(h, s, id, now).0.hashed)
    ensures var (after, name) := Snapshot(h, s, id, now);
            ReadFile(after, id2, hash, q) ==
            if name == Some(hash) && id2 == id then ReadFile(s, id, WORKING, q) else ReadFile(s, id2, hash, q)
  {
    hide Snapshot, Inv, NoCollision, GetRow;
    SnapshotIff(h, s, id, now);
  }

  // ---------------------------------------------------------------- the store

  class TreeDb {
    const hash: Hasher
    var files: map<Bytes, Bytes>
    var trees: map<(Bytes, Bytes), Table>
    var deployments: map<(Bytes, Bytes), int>
    ghost var hashed: set<Bytes>

    ghost function View(): Db
      reads this
    {
      Db(files, trees, deployments, hashed)
    }

    constructor (hash: Hasher)
      ensures View() == EMPTY_DB && this.hash == hash
    {
      this.hash := hash;
      files, trees, deployments, hashed := map[], map[], map[], {};
    }

    method StoreFile(id: Bytes, path: Bytes, content: Bytes)
      modifies this
      ensures View() == PutFile(hash, old(View()), id, path, content)
    {
      var sha := hash(content);
      hashed := hashed + {content};
      if sha !in files {
        files := files[sha := content];
      }
      var working := if (id, WORKING) in trees then trees[(id, WORKING)] else [];
      trees := trees[(id, WORKING) := PutRow(working, path, sha)];
    }

    /** The listing of a tree into a buffer of its exact size. */
    method BuildListing(t: Table) returns (buf: array<u8>)
      requires Listable(t)
      ensures fresh(buf) && buf[..] == Listing(t)
    {
      hide Listing, Line;
      var size := 0;
      NoLines(t);
      for i := 0 to |t|
        invariant size == |Listing(t[..i])|
      {
        ListingTake(t, i);
        size := size + |t[i].key| + 1 + 40 + 1;
      }
      buf := new u8[size](_ => 0);
      var pos := 0;
      for i := 0 to |t|
        invariant pos == |Listing(t[..i])| <= size == |Listing(t[..|t|])|
        invariant buf[..pos] == Listing(t[..i])
      {
        ListingTake(t, i);
        pos := AppendLine(buf, pos, t[i]);
      }
      assert t[..|t|] == t;
    }

    method AppendLine(buf: array<u8>, pos: nat, p: Pair) returns (q: nat)
      requires |p.value| == 40 && pos + |p.key| + 42 <= buf.Length
      modifies buf
      ensures q == pos + |p.key| + 42 && buf[..q] == old(buf[..pos]) + Line(p)
    {
      ghost var was := buf[..pos];
      q := Wire.Append(buf, pos, p.key);
      q := Wire.Append(buf, q, [0]);
      q := Wire.Append(buf, q, p.value);
      q := Wire.Append(buf, q, [NEWLINE]);
      assert was + p.key + [0] + p.value + [NEWLINE] == was + Line(p);
    }

    method Record(id: Bytes, now: int) returns (r: Option<Bytes>)
      requires forall k :: k in trees ==> Listable(trees[k])
      modifies this
      ensures (View(), r) == Snapshot(hash, old(View()), id, now)
    {
      hide Listable, Listing, Conflicts, Merge;
      var working := if (id, WORKING) in trees then trees[(id, WORKING)] else [];
      if working == [] {
        return None;
      }
      var buf := BuildListing(working);
      var name := hash(buf[..]);
      hashed := hashed + {buf[..]};
      var there := if (id, name) in trees then trees[(id, name)] else [];
      if Conflicts(there, working) {
        return None;
      }
      trees := trees[(id, name) := Merge(there, working)];
      deployments := deployments[(id, name) := now];
      r := Some(name);
    }

    method Drop(id: Bytes, path: Bytes)
      modifies this
      ensures View() == DeleteFile(old(View()), id, path)
    {
      var working := if (id, WORKING) in trees then trees[(id, WORKING)] else [];
      trees := trees[(id, WORKING) := RemoveRow(working, path)];
    }

    method Clear(id: Bytes)
      modifies this
      ensures View() == ClearTree(old(View()), id)
    {
      trees := trees[(id, WORKING) := []];
    }
  }

  lemma NoLines(t: Table)
    ensures t[..0] == [] && Listing([]) == []
  {
  }

  lemma ListingTake(t: Table, i: nat)
    requires i < |t| && Listable(t)
    ensures Listing(t[..i + 1]) == Listing(t[..i]) + Line(t[i])
    ensures |Line(t[i])| == |t[i].key| + 42
    ensures |Listing(t[..i + 1])| <= |Listing(t[..|t|])|
  {
    hide Line;
    assert t[..i + 1] == t[..i] + [t[i]];
    assert Init(t[..i] + [t[i]]) == t[..i];
    ListingAppend(t[..i + 1], t[i + 1..]);
    assert t[..|t|] == t[..i + 1] + t[i + 1..];
    LineSize(t[i]);
  }

  lemma LineSize(p: Pair)
    ensures |Line(p)| == |p.key| + |p.value| + 2
  {
  }
}
