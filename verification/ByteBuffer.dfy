/** The growing byte buffer between a socket and a parser: a window of readable bytes inside an array.
    Bytes are characters. */
module ByteBuffers {

  const CHEAP_PREPEND := 8
  const INITIAL_SIZE := 1024
  const EXTRA := 65536  // the spill buffer of readFd

  /** Where the first CRLF starts; the end of the text if there is none. */
  function FirstCRLF(s: string): (k: nat)
    ensures k <= |s|
  {
    if s == [] || (|s| >= 2 && s[0] == '\r' && s[1] == '\n') then 0 else 1 + FirstCRLF(s[1..])
  }

  ghost predicate CRLFAt(s: string, i: int) {
    0 <= i && i + 2 <= |s| && s[i] == '\r' && s[i + 1] == '\n'
  }

  /** The search is for the least position, and a miss is the end and nothing else. */
  lemma {:induction false} FirstCRLFIsFirst(s: string)
    ensures var k := FirstCRLF(s);
      && (forall i :: i < k ==> !CRLFAt(s, i))
      && (k < |s| ==> CRLFAt(s, k))
  {
    if s != [] && !CRLFAt(s, 0) {
      FirstCRLFIsFirst(s[1..]);
      forall i | i < FirstCRLF(s) ensures !CRLFAt(s, i) {
        assert i > 0 ==> CRLFAt(s, i) == CRLFAt(s[1..], i - 1);
      }
      assert forall i :: i > 0 ==> CRLFAt(s, i) == CRLFAt(s[1..], i - 1);
    }
  }

  lemma FirstCRLFUnique(s: string, k: nat)
    requires forall i :: i < k ==> !CRLFAt(s, i)
    requires CRLFAt(s, k) || k == |s|
    ensures FirstCRLF(s) == k
  {
    FirstCRLFIsFirst(s);
  }

  lemma Rejoined(before: string, s: string, k: nat)
    requires k <= |s|
    ensures before + s[..k] + s[k..] == before + s
  {
  }

  lemma DropAppend(s: string, more: string, k: nat)
    requires k <= |s|
    ensures (s + more)[k..] == s[k..] + more
  {
  }

  class Buffer {
    var buffer: array<char>
    var readerIndex: nat
    var writerIndex: nat
    ghost var received: string  // everything ever put in
    ghost var taken: nat        // how much of it was taken out

    ghost predicate Valid()
      reads this, buffer
    {
      && CHEAP_PREPEND <= readerIndex <= writerIndex <= buffer.Length
      && taken <= |received|
      && buffer[readerIndex..writerIndex] == received[taken..]
    }

    /** The readable bytes: what was put in and not yet taken out. */
    ghost function Contents(): string
      requires Valid()
      reads this, buffer
    {
      received[taken..]
    }

    constructor (initialSize: nat := INITIAL_SIZE)
      ensures Valid() && fresh(buffer) && received == "" && taken == 0 && Contents() == ""
      ensures WritableBytes() == initialSize
    {
      buffer := new char[CHEAP_PREPEND + initialSize](_ => '\0');
      readerIndex, writerIndex, received, taken := CHEAP_PREPEND, CHEAP_PREPEND, "", 0;
    }

    function ReadableBytes(): (n: int)
      requires Valid()
      reads this, buffer
      ensures n == |Contents()|
    {
      assert |buffer[readerIndex..writerIndex]| == |received[taken..]|;
      writerIndex - readerIndex
    }

    function WritableBytes(): int
      reads this
    {
      buffer.Length - writerIndex
    }

    function PrependableBytes(): int
      reads this
    {
      readerIndex
    }

    method RetrieveAll()
      requires Valid()
      modifies `readerIndex, `writerIndex, `taken
      ensures Valid() && Contents() == ""
      ensures readerIndex == CHEAP_PREPEND
      ensures WritableBytes() == buffer.Length - CHEAP_PREPEND
    {
      readerIndex, writerIndex := CHEAP_PREPEND, CHEAP_PREPEND;
      taken := |received|;
    }

    method Retrieve(len: nat)
      requires Valid() && len <= ReadableBytes()
      modifies `readerIndex, `writerIndex, `taken
      ensures Valid() && taken == old(taken) + len && Contents() == old(Contents())[len..]
      ensures readerIndex == if len < old(ReadableBytes()) then old(readerIndex) + len else CHEAP_PREPEND
    {
      if len < ReadableBytes() {
        assert buffer[readerIndex + len..writerIndex] == buffer[readerIndex..writerIndex][len..];
        readerIndex := readerIndex + len;
        taken := taken + len;
      } else {
        RetrieveAll();
      }
    }

    method RetrieveAsString(len: nat) returns (result: string)
      requires Valid() && len <= ReadableBytes()
      modifies `readerIndex, `writerIndex, `taken
      ensures Valid() && result + Contents() == old(Contents()) && |result| == len
    {
      result := buffer[readerIndex..readerIndex + len];
      assert result == buffer[readerIndex..writerIndex][..len];
      Retrieve(len);
    }

    method RetrieveAllAsString() returns (result: string)
      requires Valid()
      modifies `readerIndex, `writerIndex, `taken
      ensures Valid() && result == old(Contents()) && Contents() == ""
    {
      result := RetrieveAsString(ReadableBytes());
    }

    /** buffer_.resize to a larger size. */
    method Resize(size: nat)
      requires Valid() && buffer.Length <= size
      modifies `buffer
      ensures Valid() && fresh(buffer) && buffer.Length == size
      ensures buffer[..old(buffer.Length)] == old(buffer[..])
    {
      var grown := new char[size](_ => '\0');
      forall i | 0 <= i < buffer.Length {
        grown[i] := buffer[i];
      }
      assert grown[readerIndex..writerIndex] == buffer[readerIndex..writerIndex];
      buffer := grown;
    }

    /** Copies the readable bytes down, front to back, possibly over themselves. */
    method MoveDown()
      requires Valid()
      modifies `readerIndex, `writerIndex, buffer
      ensures Valid() && readerIndex == CHEAP_PREPEND
      ensures writerIndex - readerIndex == old(writerIndex - readerIndex)
    {
      var readable := ReadableBytes();
      ghost var was := buffer[readerIndex..writerIndex];
      var i := 0;
      while i < readable
        invariant 0 <= i <= readable
        invariant buffer[CHEAP_PREPEND..CHEAP_PREPEND + i] == was[..i]
        invariant forall j :: readerIndex + i <= j < writerIndex ==> buffer[j] == was[j - readerIndex]
        modifies buffer
      {
        buffer[CHEAP_PREPEND + i] := buffer[readerIndex + i];
        i := i + 1;
      }
      readerIndex := CHEAP_PREPEND;
      writerIndex := readerIndex + readable;
    }

    /** Makes room by growing the vector, or by moving the readable bytes down. */
    method MakeSpace(len: nat)
      requires Valid() && WritableBytes() < len
      modifies `buffer, `readerIndex, `writerIndex, buffer
      ensures Valid() && WritableBytes() >= len
      ensures if old(WritableBytes() + PrependableBytes()) < len + CHEAP_PREPEND
              then fresh(buffer) && WritableBytes() == len && readerIndex == old(readerIndex)
              else buffer == old(buffer) && readerIndex == CHEAP_PREPEND
    {
      if WritableBytes() + PrependableBytes() < len + CHEAP_PREPEND {
        Resize(writerIndex + len);
      } else {
        MoveDown();
      }
    }

    method EnsureWritableBytes(len: nat)
      requires Valid()
      modifies `buffer, `readerIndex, `writerIndex, buffer
      ensures Valid() && WritableBytes() >= len
      ensures buffer == old(buffer) || fresh(buffer)
      ensures len <= old(WritableBytes()) ==> buffer == old(buffer) && readerIndex == old(readerIndex)
    {
      if len > WritableBytes() {
        MakeSpace(len);
      }
    }

    /** Bytes already copied behind the readable ones become readable. */
    method Advance(n: nat)
      requires Valid() && n <= WritableBytes()
      modifies `writerIndex, `received
      ensures Valid() && writerIndex == old(writerIndex) + n
      ensures received == old(received) + old(buffer[writerIndex..writerIndex + n])
      ensures Contents() == old(Contents()) + old(buffer[writerIndex..writerIndex + n])
    {
      ghost var data := buffer[writerIndex..writerIndex + n];
      assert buffer[readerIndex..writerIndex + n] == buffer[readerIndex..writerIndex] + data;
      received := received + data;
      writerIndex := writerIndex + n;
    }

    /** Copies `data` behind the readable bytes, without making it readable. */
    method CopyIn(data: string)
      requires Valid() && |data| <= WritableBytes()
      modifies buffer
      ensures Valid() && buffer[writerIndex..writerIndex + |data|] == data
    {
      var i := 0;
      while i < |data|
        invariant 0 <= i <= |data|
        invariant buffer[readerIndex..writerIndex] == old(buffer[readerIndex..writerIndex])
        invariant buffer[writerIndex..writerIndex + i] == data[..i]
      {
        buffer[writerIndex + i] := data[i];
        i := i + 1;
      }
    }

    method Append(data: string)
      requires Valid()
      modifies this, buffer
      ensures Valid() && received == old(received) + data && taken == old(taken)
      ensures Contents() == old(Contents()) + data
      ensures buffer == old(buffer) || fresh(buffer)
    {
      EnsureWritableBytes(|data|);
      CopyIn(data);
      Advance(|data|);
    }

    /** How much one readFd can take: the writable area, and the spill buffer unless that area is larger. */
    function ReadCapacity(): int
      reads this
    {
      if WritableBytes() < EXTRA then WritableBytes() + EXTRA else WritableBytes()
    }

    /** A read in which the kernel hands over `incoming`: it fills the writable area, then the spill
        buffer, whose part is appended afterwards. */
    method ReadFd(incoming: string) returns (n: nat)
      requires Valid() && |incoming| <= ReadCapacity()
      modifies this, buffer
      ensures Valid() && n == |incoming|
      ensures received == old(received) + incoming && taken == old(taken)
      ensures Contents() == old(Contents()) + incoming
      ensures buffer == old(buffer) || fresh(buffer)
    {
      hide Valid, Contents;
      var writable := WritableBytes();
      ReceivedSoFar();
      n := |incoming|;
      if n <= writable {
        Take(incoming);
      } else {
        var extrabuf := incoming[writable..];
        Take(incoming[..writable]);
        Append(extrabuf);
        Rejoined(old(received), incoming, writable);
      }
      ReceivedSoFar();
      DropAppend(old(received), incoming, taken);
    }

    lemma ReceivedSoFar()
      requires Valid()
      ensures taken <= |received| && Contents() == received[taken..] && 0 <= WritableBytes()
    {
    }

    /** The kernel's part of a read that fits the writable area, and the index moved over it. */
    method Take(data: string)
      requires Valid() && |data| <= WritableBytes()
      modifies `writerIndex, `received, buffer
      ensures Valid() && received == old(received) + data
    {
      CopyIn(data);
      Advance(|data|);
    }

    /** std::search over the readable bytes.  The result is a position in the array; a miss gives the end
        of the readable bytes, never null. */
    method FindCRLF() returns (crlf: nat)
      requires Valid()
      ensures crlf == readerIndex + FirstCRLF(Contents())
    {
      crlf := readerIndex;
      ghost var s := Contents();
      while crlf < writerIndex && !(crlf + 1 < writerIndex && buffer[crlf] == '\r' && buffer[crlf + 1] == '\n')
        invariant readerIndex <= crlf <= writerIndex
        invariant forall i :: i < crlf - readerIndex ==> !CRLFAt(s, i)
      {
        assert forall i :: 0 <= i < |s| ==> s[i] == buffer[readerIndex..writerIndex][i];
        crlf := crlf + 1;
      }
      assert forall i :: 0 <= i < |s| ==> s[i] == buffer[readerIndex..writerIndex][i];
      FirstCRLFUnique(s, crlf - readerIndex);
    }
  }
}
