/**
 Publication of src/code_store.c: an update fills a table of its own and swaps it in at the
 end; readers look up whatever table was swapped in last.
 */
module CodeStore {
  import opened Machine
  import opened CodeTable

  type Dict = map<Path, Entry>

  // A table as its readers see it.
  datatype Tree = Tree(dict: Dict, hash: string)

  datatype State = State(current: Tree, building: Option<Tree>)

  datatype Command =
    | Begin
    | Put(path: Path, data: seq<u8>, sourceHash: Option<string>)
    | PutStatic(path: Path, data: seq<u8>)
    | SetHash(hash: Option<string>)
    | End

  const NO_TREE := Tree(map[], "")
  const HASH_CHARS := 40

  /** snprintf into 41 bytes; no hash is the empty one. */
  function Trimmed(hash: Option<string>): string {
    if hash.None? then "" else hash.value[..Min(|hash.value|, HASH_CHARS)]
  }

  /** The lock allows one update at a time, and edits only inside an update. */
  predicate Legal(s: State, c: Command) {
    if c.Begin? then s.building.None? else s.building.Some?
  }

  function Edit(t: Tree, c: Command): Tree {
    match c
    case Put(p, d, h) => t.(dict := t.dict[p := Stored(p, d, h, false)])
    case PutStatic(p, d) => t.(dict := t.dict[p := Stored(p, d, None, true)])
    case SetHash(h) => t.(hash := Trimmed(h))
    case Begin => t
    case End => t
  }

  function Step(s: State, c: Command): State
    requires Legal(s, c)
  {
    match c
    case Begin => s.(building := Some(NO_TREE))
    case End => State(s.building.value, None)
    case Put(_, _, _) => s.(building := Some(Edit(s.building.value, c)))
    case PutStatic(_, _) => s.(building := Some(Edit(s.building.value, c)))
    case SetHash(_) => s.(building := Some(Edit(s.building.value, c)))
  }

  predicate Runs(cs: seq<Command>)
    decreases |cs|, 0
  {
    cs == [] || (Runs(Init(cs)) && Legal(After(Init(cs)), Last(cs)))
  }

  function After(cs: seq<Command>): State
    requires Runs(cs)
    decreases |cs|, 1
  {
    if cs == [] then State(NO_TREE, None) else Step(After(Init(cs)), Last(cs))
  }

  function Built(edits: seq<Command>): Tree {
    if edits == [] then NO_TREE else Edit(Built(Init(edits)), Last(edits))
  }

  /** The edits since the last Begin. */
  function Open(cs: seq<Command>): seq<Command> {
    if cs == [] || Last(cs).Begin? then [] else Open(Init(cs)) + [Last(cs)]
  }

  /** The edits of the last update that was ended. */
  function Published(cs: seq<Command>): seq<Command> {
    if cs == [] then []
    else if Last(cs).End? then Open(Init(cs))
    else Published(Init(cs))
  }

  /** An update is under way: a Begin without its End. */
  predicate Updating(cs: seq<Command>) {
    cs != [] && !Last(cs).End? && (Last(cs).Begin? || Updating(Init(cs)))
  }

  /** At every moment the readers see the whole of the last ended update, its own hash included,
      and nothing of the update under way or of any earlier one. */
  lemma {:induction false} ReadersSeeTheLastUpdate(cs: seq<Command>)
    requires Runs(cs)
    ensures After(cs).current == Built(Published(cs))
    ensures After(cs).building == if Updating(cs) then Some(Built(Open(cs))) else None
  {
    if cs != [] {
      ReadersSeeTheLastUpdate(Init(cs));
      if Updating(cs) && !Last(cs).Begin? {
        assert Init(Open(cs)) == Open(Init(cs)) && Last(Open(cs)) == Last(cs);
      }
    }
  }

  predicate Names(c: Command, p: Path) {
    (c.Put? || c.PutStatic?) && c.path == p
  }

  function LastFor(edits: seq<Command>, p: Path): (r: Option<Command>)
    ensures r.Some? ==> Names(r.value, p) && r.value in edits
  {
    if edits == [] then None
    else if Names(Last(edits), p) then Some(Last(edits))
    else LastFor(Init(edits), p)
  }

  /** A path of a built table holds what was put on it last, and only paths put are there. */
  lemma {:induction false} BuiltHoldsLastPuts(edits: seq<Command>, p: Path)
    ensures var d, w := Built(edits).dict, LastFor(edits, p);
            (p in d <==> w.Some?) &&
            (p in d ==>
               d[p] == if w.value.Put? then Stored(p, w.value.data, w.value.sourceHash, false)
                       else Stored(p, w.value.data, None, true))
  {
    if edits != [] {
      BuiltHoldsLastPuts(Init(edits), p);
    }
  }

  function LastHash(edits: seq<Command>): string {
    if edits == [] then ""
    else if Last(edits).SetHash? then Trimmed(Last(edits).hash)
    else LastHash(Init(edits))
  }

  lemma {:induction false} BuiltHasLastHash(edits: seq<Command>)
    ensures Built(edits).hash == LastHash(edits)
  {
    if edits != [] {
      BuiltHasLastHash(Init(edits));
    }
  }

  /** A module lookup answers with the bytecode if and only if the last ended update put the path
      last as a module; a static lookup likewise. */
  lemma LookupIff(cs: seq<Command>, p: Path)
    requires Runs(cs)
    ensures var d, w := After(cs).current.dict, LastFor(Published(cs), p);
            (p in d && !d[p].isStatic <==> w.Some? && w.value.Put?) &&
            (p in d && d[p].isStatic <==> w.Some? && w.value.PutStatic?)
    ensures var d, w := After(cs).current.dict, LastFor(Published(cs), p);
            w.Some? ==> p in d && d[p].data == w.value.data
  {
    ReadersSeeTheLastUpdate(cs);
    BuiltHoldsLastPuts(Published(cs), p);
  }

  // ---------------------------------------------------------------- position by position

  /** The last update that was ended runs from command b to command e. */
  predicate LastUpdate(cs: seq<Command>, b: nat, e: nat) {
    b < e < |cs| && cs[b].Begin? && cs[e].End? &&
    (forall j :: b < j < e ==> !cs[j].Begin? && !cs[j].End?) &&
    (forall j :: e < j < |cs| ==> !cs[j].End?)
  }

  lemma {:induction false} OpenIsSlice(cs: seq<Command>, b: nat)
    requires b < |cs| && cs[b].Begin? && forall j :: b < j < |cs| ==> !cs[j].Begin?
    ensures Open(cs) == cs[b + 1..]
  {
    if b < |cs| - 1 {
      OpenIsSlice(Init(cs), b);
      assert cs[b + 1..] == Init(cs)[b + 1..] + [Last(cs)];
    }
  }

  lemma {:induction false} PublishedIsSlice(cs: seq<Command>, b: nat, e: nat)
    requires LastUpdate(cs, b, e)
    ensures Published(cs) == cs[b + 1..e]
  {
    if e == |cs| - 1 {
      OpenIsSlice(Init(cs), b);
      assert Init(cs)[b + 1..] == cs[b + 1..e];
    } else {
      PublishedIsSlice(Init(cs), b, e);
      assert Init(cs)[b + 1..e] == cs[b + 1..e];
    }
  }

  lemma {:induction false} LastForAt(edits: seq<Command>, i: nat, p: Path)
    requires i <= |edits| && (i < |edits| ==> Names(edits[i], p))
    requires forall j :: 0 <= j < |edits| && (j > i || i == |edits|) ==> !Names(edits[j], p)
    ensures LastFor(edits, p) == if i < |edits| then Some(edits[i]) else None
  {
    if edits != [] && i != |edits| - 1 {
      assert !Names(edits[|edits| - 1], p);
      LastForAt(Init(edits), if i == |edits| then i - 1 else i, p);
    }
  }

  /** A reader finds under a path what the last command of that update on it put there: of a module
      the bytecode and the hash of its source, an absent hash as the empty one, and of a static
      file the content. A path that the update put nothing on is not there. */
  lemma ReadersFind(cs: seq<Command>, b: nat, e: nat, i: nat, p: Path)
    requires Runs(cs) && LastUpdate(cs, b, e) && b < i <= e
    requires i < e ==> (cs[i].Put? || cs[i].PutStatic?) && cs[i].path == p
    requires forall j :: b < j < e && (j > i || i == e) ==> !((cs[j].Put? || cs[j].PutStatic?) && cs[j].path == p)
    ensures var d := After(cs).current.dict;
            (p in d <==> i < e) &&
            (i < e ==> d[p].path == p && d[p].data == cs[i].data && d[p].isStatic == cs[i].PutStatic?) &&
            (i < e && cs[i].Put? ==>
               (cs[i].sourceHash.None? ==> d[p].sourceHash == "") &&
               (cs[i].sourceHash.Some? ==> d[p].sourceHash == cs[i].sourceHash.value))
  {
    hide Runs, After, Published, Built, LastFor;
    var edits := cs[b + 1..e];
    ReadersSeeTheLastUpdate(cs);
    PublishedIsSlice(cs, b, e);
    assert forall j :: 0 <= j < |edits| ==> edits[j] == cs[b + 1 + j];
    LastForAt(edits, i - b - 1, p);
    BuiltHoldsLastPuts(edits, p);
  }

  lemma {:induction false} LastHashAt(edits: seq<Command>, i: nat)
    requires i <= |edits| && (i < |edits| ==> edits[i].SetHash?)
    requires forall j :: 0 <= j < |edits| && (j > i || i == |edits|) ==> !edits[j].SetHash?
    ensures LastHash(edits) == if i < |edits| then Trimmed(edits[i].hash) else ""
  {
    if edits != [] && i != |edits| - 1 {
      assert !edits[|edits| - 1].SetHash?;
      LastHashAt(Init(edits), if i == |edits| then i - 1 else i);
    }
  }

  /** And the tree hash is the last one that update set, whole up to forty characters, cut to the
      first forty beyond, and empty when none was set. */
  lemma ReadersFindHash(cs: seq<Command>, b: nat, e: nat, i: nat)
    requires Runs(cs) && LastUpdate(cs, b, e) && b < i <= e && (i < e ==> cs[i].SetHash?)
    requires forall j :: b < j < e && (j > i || i == e) ==> !cs[j].SetHash?
    ensures var h := After(cs).current.hash;
            (i == e || cs[i].hash.None? ==> h == "") &&
            (i < e && cs[i].hash.Some? && |cs[i].hash.value| <= 40 ==> h == cs[i].hash.value) &&
            (i < e && cs[i].hash.Some? && |cs[i].hash.value| > 40 ==> h <= cs[i].hash.value && |h| == 40)
  {
    hide Runs, After, Published, Built, LastHash;
    var edits := cs[b + 1..e];
    ReadersSeeTheLastUpdate(cs);
    PublishedIsSlice(cs, b, e);
    assert forall j :: 0 <= j < |edits| ==> edits[j] == cs[b + 1 + j];
    LastHashAt(edits, i - b - 1);
    BuiltHasLastHash(edits);
  }

  // ---------------------------------------------------------------- the store

  class BytecodeStore {
    var current: HashTable
    var building: HashTable?

    ghost predicate Valid()
      reads this, current, current.entries, building, if building != null then {building.entries} else {}
    {
      current.Valid() &&
      (building != null ==>
         building != current && building.entries != current.entries && building.Valid())
    }

    ghost function View(): State
      reads this, current, building
    {
      State(Tree(current.dict, current.treeHash),
            if building == null then None else Some(Tree(building.dict, building.treeHash)))
    }

    constructor ()
      ensures Valid() && View() == State(NO_TREE, None)
    {
      Powers16And64();
      current := new HashTable(16);
      building := null;
    }

    method Get(path: Path) returns (r: Option<(seq<u8>, string)>)
      requires Valid()
      ensures var d := View().current.dict;
              r == if path in d && !d[path].isStatic then Some((d[path].data, d[path].sourceHash)) else None
    {
      var e := current.Find(path);
      r := if e.None? || e.value.isStatic then None else Some((e.value.data, e.value.sourceHash));
    }

    method GetStatic(path: Path) returns (r: Option<seq<u8>>)
      requires Valid()
      ensures var d := View().current.dict;
              r == if path in d && d[path].isStatic then Some(d[path].data) else None
    {
      var e := current.Find(path);
      r := if e.None? || !e.value.isStatic then None else Some(e.value.data);
    }

    method UpdateBegin()
      requires Valid() && Legal(View(), Begin)
      modifies this
      ensures Valid() && View() == Step(old(View()), Begin)
      ensures current == old(current) && fresh(building) && fresh(building.entries)
    {
      Powers16And64();
      building := new HashTable(64);
    }

    /** Room for one more doubling whenever it is due. */
    ghost predicate MayGrow()
      reads this, building
      requires building != null
    {
      building.count * 10 > building.entries.Length * 7 ==> building.entries.Length * 2 <= U32_END
    }

    method UpdatePut(path: Path, data: seq<u8>, sourceHash: Option<string>)
      requires Valid() && Legal(View(), Put(path, data, sourceHash)) && MayGrow()
      modifies building, building.entries
      ensures Valid() && View() == Step(old(View()), Put(path, data, sourceHash))
    {
      building.Insert(path, data, sourceHash, false);
    }

    method UpdatePutStatic(path: Path, data: seq<u8>)
      requires Valid() && Legal(View(), PutStatic(path, data)) && MayGrow()
      modifies building, building.entries
      ensures Valid() && View() == Step(old(View()), PutStatic(path, data))
    {
      building.Insert(path, data, None, true);
    }

    method UpdateSetHash(hash: Option<string>)
      requires Valid() && Legal(View(), SetHash(hash))
      modifies building
      ensures Valid() && View() == Step(old(View()), SetHash(hash))
    {
      building.treeHash := if hash.None? then "" else hash.value[..Min(|hash.value|, HASH_CHARS)];
    }

    method UpdateEnd()
      requires Valid() && Legal(View(), End)
      modifies this
      ensures Valid() && View() == Step(old(View()), End)
    {
      current := building;
      building := null;
    }
  }
}
