/**
 The growable output buffers of src/ejs.c and src/replay_capture.c: an allocation that is
 replaced by a larger one when the next bytes do not fit. A char stands for one byte.
 */
module TextBuffer {
  import opened Machine

  class Buffer {
    const doubling: bool
    var data: array<char>
    var len: nat

    ghost predicate Valid()
      reads this, data
    {
      len <= data.Length
    }

    ghost function Contents(): string
      requires Valid()
      reads this, data
    {
      data[..len]
    }

    /** Doubling is the policy of the replay buffers, (cap + need) * 2 that of the templates. */
    constructor (doubling: bool)
      ensures Valid() && fresh(data) && Contents() == "" && this.doubling == doubling
    {
      this.doubling := doubling;
      data := new char[0];
      len := 0;
    }

    method NewCap(need: nat) returns (cap: nat)
      requires Valid() && len + need > data.Length
      ensures cap >= len + need && cap >= 2 * data.Length && (data.Length == 0 ==> cap >= 256)
      ensures doubling && cap > Max(2 * data.Length, 256) ==> cap < 2 * (len + need)
      ensures !doubling ==> cap == Max(2 * (data.Length + need), 256)
    {
      if doubling {
        cap := if data.Length > 0 then data.Length * 2 else 256;
        while cap < len + need
          invariant cap >= 2 * data.Length && cap > 0 && (data.Length == 0 ==> cap >= 256)
          invariant cap <= Max(2 * data.Length, 256) || cap < 2 * (len + need)
          decreases len + need - cap
        {
          cap := cap * 2;
        }
      } else {
        cap := Max((data.Length + need) * 2, 256);
      }
    }

    method Ensure(need: nat)
      requires Valid()
      modifies this
      ensures Valid() && len + need <= data.Length && Contents() == old(Contents()) && len == old(len)
      ensures data == old(data) || fresh(data)
    {
      if len + need > data.Length {
        var cap := NewCap(need);
        var bigger := new char[cap](_ => ' ');
        forall i | 0 <= i < len {
          bigger[i] := data[i];
        }
        data := bigger;
      }
    }

    method Append(s: string)
      requires Valid()
      modifies this, data
      ensures Valid() && Contents() == old(Contents()) + s && (data == old(data) || fresh(data))
    {
      ghost var was := Contents();
      Ensure(|s|);
      forall i | 0 <= i < |s| {
        data[len + i] := s[i];
      }
      len := len + |s|;
      assert Contents() == was + s;
    }
  }
}
