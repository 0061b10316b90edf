/** The fixed-size character buffer used by the log stream and by the asynchronous logger. */
module FixedBuffers {
  import opened Basics

  class FixedBuffer {
    const data: array<char>
    var cur: nat
    ghost var pieces: seq<seq<char>>  // what was appended since the last reset

    ghost predicate Valid()
      reads this, data
    {
      cur <= data.Length && data[..cur] == Flatten(pieces)
    }

    constructor (size: nat)
      ensures Valid() && pieces == [] && fresh(data) && data.Length == size && cur == 0
    {
      data := new char[size];
      cur := 0;
      pieces := [];
    }

    function Contents(): seq<char>
      requires Valid()
      reads this, data
    {
      data[..cur]
    }

    function Length(): nat
      reads this
    {
      cur
    }

    function Avail(): int
      reads this
    {
      data.Length - cur
    }

    method Reset()
      modifies this
      ensures Valid() && pieces == [] && cur == 0
    {
      cur := 0;
      pieces := [];
    }

    method Bzero()
      requires cur == 0 && pieces == []
      modifies data
      ensures Valid() && forall i :: 0 <= i < data.Length ==> data[i] == '\0'
    {
      forall i | 0 <= i < data.Length {
        data[i] := '\0';
      }
    }

    /** Moves the cursor over `len` characters already written behind it. */
    method Add(len: nat)
      requires Valid() && cur + len <= data.Length
      modifies this
      ensures Valid() && cur == old(cur) + len
      ensures pieces == old(pieces) + [data[old(cur)..cur]]
    {
      ghost var piece := data[cur..cur + len];
      FlattenSnoc(pieces, piece);
      assert data[..cur + len] == data[..cur] + piece;
      cur := cur + len;
      pieces := pieces + [piece];
    }

    /** Copies `buf` behind the cursor if more room than that is left; otherwise does nothing. */
    method Append(buf: seq<char>)
      requires Valid()
      modifies this, data
      ensures Valid()
      ensures pieces == if old(Avail()) > |buf| then old(pieces) + [buf] else old(pieces)
    {
      if Avail() > |buf| {
        var i := 0;
        while i < |buf|
          invariant 0 <= i <= |buf|
          invariant data[..cur] == old(data[..cur])
          invariant data[cur..cur + i] == buf[..i]
          modifies data
        {
          data[cur + i] := buf[i];
          i := i + 1;
        }
        assert data[cur..cur + |buf|] == buf;
        Add(|buf|);
      }
    }
  }
}
