/**
 Machine integers and small generic helpers shared by every module.
 A C unsigned integer of width n is a natural number below 2^n; wherever the source
 wraps around, the reduction is written out.
 */
module Machine {
  const U32_END: nat := 0x1_0000_0000
  const U64_END: nat := 0x1_0000_0000_0000_0000
  const U64_MAX: nat := 0xFFFF_FFFF_FFFF_FFFF

  type u8 = x: int | 0 <= x < 0x100
  type u32 = x: int | 0 <= x < 0x1_0000_0000
  type u64 = x: int | 0 <= x < 0x1_0000_0000_0000_0000

  datatype Option<+T> = None | Some(value: T)

  function Min(a: int, b: int): int {
    if a <= b then a else b
  }

  function Max(a: int, b: int): int {
    if a <= b then b else a
  }

  function Last<T>(s: seq<T>): T
    requires s != []
  {
    s[|s| - 1]
  }

  function Init<T>(s: seq<T>): seq<T>
    requires s != []
  {
    s[..|s| - 1]
  }

  lemma Assoc<T>(a: seq<T>, b: seq<T>, c: seq<T>)
    ensures a + b + c == a + (b + c)
  {
  }

  lemma DropLeft<T>(a: seq<T>, b: seq<T>)
    ensures (a + b)[|a|..] == b
    ensures (a + b)[..|a|] == a
  {
  }

  lemma DropDrop<T>(d: seq<T>, i: nat, j: nat)
    requires i + j <= |d|
    ensures d[i..][j..] == d[i + j..]
  {
  }

  lemma SliceSlice<T>(s: seq<T>, a: nat, b: nat, i: nat, j: nat)
    requires a + j <= b <= |s| && i <= j
    ensures s[a..b][i..j] == s[a + i..a + j]
  {
    var x, y := s[a..b][i..j], s[a + i..a + j];
    assert |x| == |y| && forall k :: 0 <= k < |x| ==> x[k] == s[a + i + k] && y[k] == s[a + i + k];
  }

  lemma SliceDrop<T>(s: seq<T>, a: nat, b: nat, i: nat)
    requires a + i <= b <= |s|
    ensures s[a..b][i..] == s[a + i..b]
  {
    SliceSlice(s, a, b, i, b - a);
    assert s[a..b][i..b - a] == s[a..b][i..];
  }

  /** Concatenation of a sequence of sequences, built from the left end. */
  function Flat<T>(ss: seq<seq<T>>): seq<T> {
    if ss == [] then [] else Flat(Init(ss)) + Last(ss)
  }

  lemma {:induction false} FlatAppend<T>(a: seq<seq<T>>, b: seq<seq<T>>)
    ensures Flat(a + b) == Flat(a) + Flat(b)
  {
    if b == [] {
      assert a + b == a;
    } else {
      FlatAppend(a, Init(b));
      assert Init(a + b) == a + Init(b);
    }
  }

  lemma FlatSnoc<T>(ss: seq<seq<T>>, x: seq<T>)
    ensures Flat(ss + [x]) == Flat(ss) + x
  {
    assert Init(ss + [x]) == ss;
  }

  lemma FlatTake<T>(ss: seq<seq<T>>, i: nat)
    requires i <= |ss|
    ensures |Flat(ss[..i])| <= |Flat(ss)|
    ensures Flat(ss)[..|Flat(ss[..i])|] == Flat(ss[..i])
  {
    assert ss == ss[..i] + ss[i..];
    FlatAppend(ss[..i], ss[i..]);
  }

  lemma MultisetUnsnoc<T>(a: seq<T>)
    requires a != []
    ensures multiset(a) == multiset(Init(a)) + multiset{Last(a)}
  {
    assert a == Init(a) + [Last(a)];
  }
}
