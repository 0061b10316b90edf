/** The asynchronous logger over its buffer objects.  Every method is one step of LoggerModel and is
    proved to take exactly that step. */
module AsyncLoggers {
  import opened Basics
  import opened FixedBuffers
  import opened LoggerModel
  import LoggerTheorems

  /** The slot that owns a buffer. */
  datatype Place = Current | Next | Queued(i: nat) | Spare1 | Spare2 | Taken(i: nat)

  class AsyncLogger {
    const size: nat
    var running: bool
    // shared with the front end, under the lock
    var currentBuffer: FixedBuffer?
    var nextBuffer: FixedBuffer?
    var buffers: seq<FixedBuffer>
    // local to the back end
    var stage: Stage
    var newBuffer1: FixedBuffer?
    var newBuffer2: FixedBuffer?
    var buffersToWrite: seq<FixedBuffer>
    var output: seq<Record>
    ghost var rounds: seq<seq<Buf>>           // what each swap took
    ghost var place: map<FixedBuffer, Place>  // the one slot of each buffer
    ghost var content: map<FixedBuffer, Buf>  // the lines in each buffer

    static ghost predicate At(place: map<FixedBuffer, Place>, b: FixedBuffer?, p: Place) {
      b != null ==> b in place && place[b] == p
    }

    static ghost predicate AllAt(place: map<FixedBuffer, Place>, s: seq<FixedBuffer>, queued: bool) {
      forall i :: 0 <= i < |s| ==> At(place, s[i], if queued then Queued(i) else Taken(i))
    }

    /** Every slot owns its buffer alone. */
    static ghost predicate Owned(place: map<FixedBuffer, Place>,
                                 current: FixedBuffer?, next: FixedBuffer?, buffers: seq<FixedBuffer>,
                                 spare1: FixedBuffer?, spare2: FixedBuffer?, taken: seq<FixedBuffer>)
    {
      && At(place, current, Current) && At(place, next, Next) && AllAt(place, buffers, true)
      && At(place, spare1, Spare1) && At(place, spare2, Spare2) && AllAt(place, taken, false)
    }

    /** Every owned buffer is tracked, and no two tracked buffers share storage. */
    static ghost predicate Apart(place: map<FixedBuffer, Place>, content: map<FixedBuffer, Buf>, size: nat) {
      && (forall b :: b in place ==> b in content)
      && (forall b :: b in content ==> b.data.Length == size)
      && (forall a, b :: a in content && b in content && a != b ==> a.data != b.data)
    }

    static lemma ApartUpdated(place: map<FixedBuffer, Place>, content: map<FixedBuffer, Buf>, size: nat,
                              place': map<FixedBuffer, Place>, b: FixedBuffer, v: Buf)
      requires Apart(place, content, size) && b in content
      requires forall x :: x in place' ==> x in place || x == b
      ensures Apart(place', content[b := v], size)
    {
    }

    static lemma ApartMoved(place: map<FixedBuffer, Place>, content: map<FixedBuffer, Buf>, size: nat,
                            place': map<FixedBuffer, Place>)
      requires Apart(place, content, size)
      requires forall x :: x in place' ==> x in place
      ensures Apart(place', content, size)
    {
    }

    ghost predicate Unshared()
      reads `place, `content, `currentBuffer, `nextBuffer, `newBuffer1, `newBuffer2, `buffers, `buffersToWrite
    {
      && Owned(place, currentBuffer, nextBuffer, buffers, newBuffer1, newBuffer2, buffersToWrite)
      && Apart(place, content, size)
    }

    ghost function Storage(): set<object>
      reads `content
    {
      content.Keys + set b | b in content :: b.data
    }

    lemma Outside()
      ensures this !in Storage()
    {
    }

    ghost predicate Stored()
      reads `content, Storage()
    {
      forall b :: b in content ==> b.Valid() && b.pieces == content[b]
    }

    ghost predicate Valid()
      reads this, Storage()
    {
      Unshared() && Stored()
    }

    static ghost function BufOf(content: map<FixedBuffer, Buf>, b: FixedBuffer?): Option<Buf> {
      if b == null then None else if b in content then Some(content[b]) else Some([])
    }

    static lemma NoBuf(content: map<FixedBuffer, Buf>, b: FixedBuffer?)
      ensures BufOf(content, null) == None && (BufOf(content, b) == None <==> b == null)
    {
    }

    static ghost function BufsOf(content: map<FixedBuffer, Buf>, s: seq<FixedBuffer>): seq<Buf> {
      seq(|s|, i requires 0 <= i < |s| => BufOf(content, s[i]).value)
    }

    ghost function View(): State
      reads this
    {
      State(size, running, BufOf(content, currentBuffer), BufOf(content, nextBuffer), BufsOf(content, buffers), stage,
            BufOf(content, newBuffer1), BufOf(content, newBuffer2), BufsOf(content, buffersToWrite), output, rounds)
    }

    static lemma BufsWithout(content: map<FixedBuffer, Buf>, s: seq<FixedBuffer>, b: FixedBuffer, v: Buf)
      requires b !in s
      ensures BufsOf(content[b := v], s) == BufsOf(content, s)
    {
    }

    /** The current buffer is in no other slot. */
    lemma CurrentAlone()
      requires Unshared() && currentBuffer != null
      ensures currentBuffer in place && currentBuffer in content && currentBuffer.data.Length == size
      ensures currentBuffer !in buffers && currentBuffer !in buffersToWrite
      ensures currentBuffer != nextBuffer && currentBuffer != newBuffer1 && currentBuffer != newBuffer2
      ensures forall b :: b in content && b != currentBuffer ==> b.data != currentBuffer.data
    {
    }

    constructor (size: nat)
      ensures Valid() && View() == Init(size)
    {
      hide Owned, Apart, FixedBuffer.Valid, FixedBuffer.Avail;
      this.size := size;
      running, stage := true, Head;
      var b1 := ZeroedBuffer(size);
      var b2 := ZeroedBuffer(size);
      var b3 := ZeroedBuffer(size);
      var b4 := ZeroedBuffer(size);
      currentBuffer, nextBuffer, newBuffer1, newBuffer2 := b1, b2, b3, b4;
      buffers, buffersToWrite, output, rounds := [], [], [], [];
      place := map[b1 := Current, b2 := Next, b3 := Spare1, b4 := Spare2];
      content := map[b1 := [], b2 := [], b3 := [], b4 := []];
      FourOwned(b1, b2, b3, b4, size);
      assert b1.Valid() && b2.Valid() && b3.Valid() && b4.Valid();
    }

    static method ZeroedBuffer(size: nat) returns (b: FixedBuffer)
      ensures fresh(b) && fresh(b.data) && b.data.Length == size
      ensures b.Valid() && b.pieces == []
    {
      b := new FixedBuffer(size);
      b.Bzero();
    }

    static lemma FourOwned(b1: FixedBuffer, b2: FixedBuffer, b3: FixedBuffer, b4: FixedBuffer, size: nat)
      requires b1 != b2 && b1 != b3 && b1 != b4 && b2 != b3 && b2 != b4 && b3 != b4
      requires b1.data != b2.data && b1.data != b3.data && b1.data != b4.data
      requires b2.data != b3.data && b2.data != b4.data && b3.data != b4.data
      requires b1.data.Length == b2.data.Length == b3.data.Length == b4.data.Length == size
      ensures var place := map[b1 := Current, b2 := Next, b3 := Spare1, b4 := Spare2];
        Owned(place, b1, b2, [], b3, b4, []) && Apart(place, map[b1 := [], b2 := [], b3 := [], b4 := []], size)
    {
    }

    /** Appends a line to the current buffer, if it has room. */
    method AppendHere(logline: Line)
      requires Valid() && currentBuffer != null
      modifies `content, currentBuffer, currentBuffer.data
      ensures Valid() && View() == LoggerModel.AppendHere(old(View()), logline)
    {
      hide Owned, Apart, BufsOf, FixedBuffer.Valid;
      CurrentAlone();
      CurrentRoom();
      assert currentBuffer.Valid() && BufOf(content, currentBuffer) == Some(currentBuffer.pieces);
      currentBuffer.Append(logline);
      content := content[currentBuffer := currentBuffer.pieces];
      ApartUpdated(place, old(content), size, place, currentBuffer, currentBuffer.pieces);
      BufsWithout(old(content), buffers, currentBuffer, currentBuffer.pieces);
      BufsWithout(old(content), buffersToWrite, currentBuffer, currentBuffer.pieces);
    }

    static lemma Rotated(place: map<FixedBuffer, Place>,
                         current: FixedBuffer, next: FixedBuffer?, buffers: seq<FixedBuffer>,
                         spare1: FixedBuffer?, spare2: FixedBuffer?, taken: seq<FixedBuffer>, b: FixedBuffer)
      requires Owned(place, current, next, buffers, spare1, spare2, taken)
      requires if next == null then b !in place else b == next
      ensures Owned(place[current := Queued(|buffers|)][b := Current], b, null, buffers + [current], spare1, spare2, taken)
    {
    }

    static lemma BufsSnoc(content: map<FixedBuffer, Buf>, s: seq<FixedBuffer>, b: FixedBuffer)
      ensures BufsOf(content, s + [b]) == BufsOf(content, s) + [BufOf(content, b).value]
    {
    }

    /** Queues the current buffer and makes the spare one current. */
    method RotateToNext()
      requires Valid() && currentBuffer != null && nextBuffer != null
      modifies `currentBuffer, `nextBuffer, `buffers, `place
      ensures Valid() && View() == LoggerModel.Rotate(old(View())) && currentBuffer != null
      ensures currentBuffer in content
    {
      hide Owned, Apart, BufsOf, FixedBuffer.Valid;
      CurrentAlone();
      NextOwned();
      Rotated(place, currentBuffer, nextBuffer, buffers, newBuffer1, newBuffer2, buffersToWrite, nextBuffer);
      BufsSnoc(content, buffers, currentBuffer);
      ApartMoved(place, content, size, place[currentBuffer := Queued(|buffers|)][nextBuffer := Current]);
      place := place[currentBuffer := Queued(|buffers|)][nextBuffer := Current];
      buffers := buffers + [currentBuffer];
      currentBuffer := nextBuffer;
      nextBuffer := null;
    }

    lemma NextOwned()
      requires Unshared() && nextBuffer != null
      ensures nextBuffer in place && nextBuffer in content && nextBuffer != currentBuffer
    {
    }

    /** Brings a buffer that no slot owns yet in as the spare one. */
    method Adopt(b: FixedBuffer)
      requires Valid() && nextBuffer == null && b !in content
      requires b.Valid() && b.pieces == [] && b.data.Length == size
      requires forall a :: a in content ==> a.data != b.data
      modifies `nextBuffer, `place, `content
      ensures Valid() && View() == old(View()).(next := Some([]))
      ensures nextBuffer == b && currentBuffer == old(currentBuffer)
      ensures forall a :: a in content ==> a in old(content) || a == b
    {
      hide Owned, BufsOf, FixedBuffer.Valid;
      Adopted(b);
      BufsWithout(content, buffers, b, []);
      BufsWithout(content, buffersToWrite, b, []);
      place := place[b := Next];
      content := content[b := []];
      nextBuffer := b;
    }

    lemma Adopted(b: FixedBuffer)
      requires Unshared() && nextBuffer == null && b !in place
      ensures Owned(place[b := Next], currentBuffer, b, buffers, newBuffer1, newBuffer2, buffersToWrite)
      ensures b !in buffers && b !in buffersToWrite && b != currentBuffer && b != newBuffer1 && b != newBuffer2
    {
    }

    /** The front end: one line, under the lock. */
    method Append(logline: Line)
      requires Valid() && currentBuffer != null
      modifies this, Storage()
      ensures Valid() && View() == LoggerModel.Append(old(View()), logline)
    {
      hide Unshared, Stored, BufsOf, LoggerModel.AppendHere;
      CurrentRoom();
      if currentBuffer.Avail() > |logline| {
        AppendHere(logline);
      } else {
        if nextBuffer == null {
          var b := new FixedBuffer(size);
          Adopt(b);
        }
        RotateToNext();
        AppendHere(logline);
      }
    }

    lemma CurrentRoom()
      requires Valid() && currentBuffer != null
      ensures View().current.Some? && currentBuffer.Avail() == LoggerModel.Avail(size, View().current.value)
      ensures currentBuffer in content
    {
      assert currentBuffer.data[..currentBuffer.cur] == Flatten(currentBuffer.pieces);
    }

    method Stop()
      requires Valid()
      modifies `running
      ensures Valid() && View() == old(View()).(running := false)
    {
      hide Unshared, Stored, Storage, BufOf, BufsOf;
      Outside();
      running := false;
    }

    // ----- the back end -----

    method LoopHead()
      requires Valid() && stage == Head
      requires AssertsHold(View())
      modifies `stage
      ensures Valid() && View() == LoggerModel.LoopHead(old(View()))
    {
      hide Unshared, Stored, Storage, BufOf, BufsOf;
      Outside();
      stage := if running then Swapping else Exited;
    }

    static ghost function AfterTake(place: map<FixedBuffer, Place>, full: nat): (r: map<FixedBuffer, Place>)
      ensures forall b :: b in r ==> b in place
    {
      map b | b in place ::
        match place[b]
        case Current => Taken(full)
        case Queued(i) => Taken(i)
        case Taken(i) => Queued(i)
        case p => p
    }

    static ghost function AfterRestock(place: map<FixedBuffer, Place>, spareNeeded: bool): (r: map<FixedBuffer, Place>)
      ensures forall b :: b in r ==> b in place
    {
      map b | b in place ::
        match place[b]
        case Spare1 => Current
        case Spare2 => if spareNeeded then Next else Spare2
        case p => p
    }

    static lemma TakenOwned(place: map<FixedBuffer, Place>,
                            current: FixedBuffer, next: FixedBuffer?, buffers: seq<FixedBuffer>,
                            spare1: FixedBuffer?, spare2: FixedBuffer?, taken: seq<FixedBuffer>)
      requires Owned(place, current, next, buffers, spare1, spare2, taken)
      ensures Owned(AfterTake(place, |buffers|), null, next, taken, spare1, spare2, buffers + [current])
    {
    }

    static lemma RestockOwned(place: map<FixedBuffer, Place>,
                              next: FixedBuffer?, buffers: seq<FixedBuffer>,
                              spare1: FixedBuffer?, spare2: FixedBuffer?, taken: seq<FixedBuffer>)
      requires Owned(place, null, next, buffers, spare1, spare2, taken)
      ensures Owned(AfterRestock(place, next == null),
                    spare1, if next == null then spare2 else next, buffers,
                    null, if next == null then null else spare2, taken)
    {
    }

    method TakeRound()
      requires Valid() && currentBuffer != null
      modifies `buffers, `buffersToWrite, `currentBuffer, `rounds, `place
      ensures Valid() && View() == LoggerModel.TakeRound(old(View()))
      ensures currentBuffer == null
    {
      hide Owned, Apart, BufsOf, AfterTake, FixedBuffer.Valid, Stored, Storage;
      Outside();
      TakenOwned(place, currentBuffer, nextBuffer, buffers, newBuffer1, newBuffer2, buffersToWrite);
      BufsSnoc(content, buffers, currentBuffer);
      rounds := rounds + [BufsOf(content, buffers + [currentBuffer])];
      ApartMoved(place, content, size, AfterTake(place, |buffers|));
      place := AfterTake(place, |buffers|);
      buffersToWrite, buffers := buffers + [currentBuffer], buffersToWrite;
      currentBuffer := null;
    }

    method Restock()
      requires Valid() && currentBuffer == null
      modifies `currentBuffer, `nextBuffer, `newBuffer1, `newBuffer2, `place
      ensures Valid() && View() == LoggerModel.Restock(old(View()))
    {
      hide Owned, Apart, BufsOf, BufOf, AfterRestock, FixedBuffer.Valid, Stored, Storage;
      Outside();
      NoBuf(content, nextBuffer);
      RestockOwned(place, nextBuffer, buffers, newBuffer1, newBuffer2, buffersToWrite);
      ApartMoved(place, content, size, AfterRestock(place, nextBuffer == null));
      place := AfterRestock(place, nextBuffer == null);
      currentBuffer := newBuffer1;
      newBuffer1 := null;
      if nextBuffer == null {
        nextBuffer := newBuffer2;
        newBuffer2 := null;
      }
    }

    /** The critical section of the back end. */
    method SwapBuffers()
      requires Valid() && stage == Swapping && currentBuffer != null
      modifies `buffers, `buffersToWrite, `currentBuffer, `nextBuffer, `newBuffer1, `newBuffer2, `rounds, `place, `stage
      ensures Valid() && View() == LoggerModel.Swap(old(View()))
    {
      hide Unshared, BufsOf, BufOf, FixedBuffer.Valid;
      CurrentRoom();
      TakeRound();
      Restock();
      stage := Trimming;
    }

    static lemma OwnedPrefix(place: map<FixedBuffer, Place>,
                             current: FixedBuffer?, next: FixedBuffer?, buffers: seq<FixedBuffer>,
                             spare1: FixedBuffer?, spare2: FixedBuffer?, taken: seq<FixedBuffer>, n: nat)
      requires Owned(place, current, next, buffers, spare1, spare2, taken) && n <= |taken|
      ensures Owned(place, current, next, buffers, spare1, spare2, taken[..n])
    {
    }

    static lemma BufsPrefix(content: map<FixedBuffer, Buf>, s: seq<FixedBuffer>, n: nat)
      requires n <= |s|
      ensures |BufsOf(content, s)| == |s| && BufsOf(content, s[..n]) == BufsOf(content, s)[..n]
    {
    }

    method KeepFirst(n: nat)
      requires Valid() && n <= |buffersToWrite|
      modifies `buffersToWrite
      ensures Valid() && View() == old(View()).(toWrite := old(View()).toWrite[..n])
      ensures buffersToWrite == old(buffersToWrite)[..n]
    {
      hide Owned, Apart, BufsOf;
      OwnedPrefix(place, currentBuffer, nextBuffer, buffers, newBuffer1, newBuffer2, buffersToWrite, n);
      BufsPrefix(content, buffersToWrite, n);
      buffersToWrite := buffersToWrite[..n];
    }

    /** Too large a round: leaves a notice and forgets all but the first two buffers. */
    method TrimRound()
      requires Valid() && stage == Trimming && AssertsHold(View())
      modifies `output, `buffersToWrite, `stage
      ensures Valid() && View() == LoggerModel.Trim(old(View()))
    {
      hide Unshared, BufsOf, FixedBuffer.Valid, Stored, Storage;
      Outside();
      ToWriteLength();
      if |buffersToWrite| > MAX_ROUND {
        output := output + [Notice(|buffersToWrite| - KEPT)];
        KeepFirst(KEPT);
      }
      stage := Writing;
    }

    lemma ToWriteLength()
      ensures |View().toWrite| == |buffersToWrite|
    {
    }

    lemma WrittenData(i: nat)
      requires Valid() && i < |buffersToWrite|
      ensures buffersToWrite[i].Valid()
      ensures buffersToWrite[i].Contents() == Flatten(View().toWrite[i])
    {
    }

    /** Writes every buffer of the round to the file, in order. */
    method WriteRound()
      requires Valid() && stage == Writing
      modifies `output, `buffersToWrite, `stage
      ensures Valid() && View() == LoggerModel.Write(old(View()))
    {
      hide Unshared, BufsOf, FixedBuffer.Valid, Stored, Storage;
      Outside();
      ghost var bufs := View().toWrite;
      ToWriteLength();
      var i := 0;
      while i < |buffersToWrite|
        modifies `output
        invariant 0 <= i <= |buffersToWrite| && Valid()
        invariant output == old(output) + DataOf(bufs[..i])
      {
        WrittenData(i);
        assert DataOf(bufs[..i + 1]) == DataOf(bufs[..i]) + [Data(Flatten(bufs[i]))];
        output := output + [Data(buffersToWrite[i].Contents())];
        i := i + 1;
      }
      assert bufs[..|bufs|] == bufs;
      if |buffersToWrite| > KEPT {
        KeepFirst(KEPT);
      }
      stage := Refilling;
    }

    /** A taken buffer is in no other slot. */
    lemma LastAlone()
      requires Unshared() && buffersToWrite != []
      ensures var n := |buffersToWrite| - 1; var b := buffersToWrite[n];
        && b in content && b in place
        && b !in buffers && b !in buffersToWrite[..n]
        && b != currentBuffer && b != nextBuffer && b != newBuffer1 && b != newBuffer2
        && forall a :: a in content && a != b ==> a.data != b.data
    {
    }

    static lemma Reclaimed(place: map<FixedBuffer, Place>,
                           current: FixedBuffer?, next: FixedBuffer?, buffers: seq<FixedBuffer>,
                           spare1: FixedBuffer?, spare2: FixedBuffer?, taken: seq<FixedBuffer>)
      requires Owned(place, current, next, buffers, spare1, spare2, taken) && taken != []
      ensures var n := |taken| - 1; var b := taken[n];
        && (spare1 == null ==> Owned(place[b := Spare1], current, next, buffers, b, spare2, taken[..n]))
        && (spare2 == null ==> Owned(place[b := Spare2], current, next, buffers, spare1, b, taken[..n]))
    {
    }

    /** Takes the last written buffer out of the round and empties it. */
    method PopReset() returns (b: FixedBuffer)
      requires Valid() && buffersToWrite != []
      modifies `buffersToWrite, `content, buffersToWrite[|buffersToWrite| - 1]
      ensures Valid()
      ensures View() == old(View()).(toWrite := old(View()).toWrite[..|old(View()).toWrite| - 1])
      ensures b in content && content[b] == [] && b == old(buffersToWrite[|buffersToWrite| - 1])
      ensures forall b :: b in buffersToWrite ==> b in old(buffersToWrite)
      ensures newBuffer1 == null ==>
        Owned(place[b := Spare1], currentBuffer, nextBuffer, buffers, b, newBuffer2, buffersToWrite)
      ensures newBuffer2 == null ==>
        Owned(place[b := Spare2], currentBuffer, nextBuffer, buffers, newBuffer1, b, buffersToWrite)
    {
      hide Owned, Apart, BufsOf, FixedBuffer.Valid;
      ghost var n := |buffersToWrite| - 1;
      LastAlone();
      Reclaimed(place, currentBuffer, nextBuffer, buffers, newBuffer1, newBuffer2, buffersToWrite);
      OwnedPrefix(place, currentBuffer, nextBuffer, buffers, newBuffer1, newBuffer2, buffersToWrite, n);
      BufsPrefix(content, buffersToWrite, n);
      b := buffersToWrite[|buffersToWrite| - 1];
      buffersToWrite := buffersToWrite[..|buffersToWrite| - 1];
      BufsWithout(content, buffers, b, []);
      BufsWithout(content, buffersToWrite, b, []);
      ApartUpdated(place, content, size, place, b, []);
      b.Reset();
      content := content[b := []];
    }

    method Reclaim1()
      requires Valid() && newBuffer1 == null && buffersToWrite != []
      modifies `newBuffer1, `buffersToWrite, `place, `content, buffersToWrite[|buffersToWrite| - 1]
      ensures Valid() && View() == LoggerModel.Reclaim1(old(View()))
      ensures forall b :: b in buffersToWrite ==> b in old(buffersToWrite)
    {
      hide Owned, Apart, BufsOf, FixedBuffer.Valid;
      ToWriteLength();
      newBuffer1 := PopReset();
      ApartUpdated(place, content, size, place[newBuffer1 := Spare1], newBuffer1, []);
      place := place[newBuffer1 := Spare1];
      assert content[newBuffer1 := []] == content;
    }

    method Reclaim2()
      requires Valid() && newBuffer2 == null && buffersToWrite != []
      modifies `newBuffer2, `buffersToWrite, `place, `content, buffersToWrite[|buffersToWrite| - 1]
      ensures Valid() && View() == LoggerModel.Reclaim2(old(View()))
    {
      hide Owned, Apart, BufsOf, FixedBuffer.Valid;
      ToWriteLength();
      newBuffer2 := PopReset();
      ApartUpdated(place, content, size, place[newBuffer2 := Spare2], newBuffer2, []);
      place := place[newBuffer2 := Spare2];
      assert content[newBuffer2 := []] == content;
    }

    lemma SpareFacts()
      requires Valid()
      ensures View().spare1.None? <==> newBuffer1 == null
      ensures View().spare2.None? <==> newBuffer2 == null
      ensures |View().toWrite| == |buffersToWrite|
      ensures forall b :: b in buffersToWrite ==> b in Storage()
    {
    }

    lemma ViewStage()
      ensures View().stage == stage
    {
    }

    method ClearRound()
      requires Valid()
      modifies `buffersToWrite, `stage
      ensures Valid() && View() == old(View()).(toWrite := [], stage := Head)
    {
      hide Unshared, BufsOf, FixedBuffer.Valid;
      KeepFirst(0);
      stage := Head;
    }

    static lemma ReclaimCases(s: State)
      ensures s.spare1.Some? ==> LoggerModel.Reclaim1(s) == s
      ensures s.spare2.Some? ==> LoggerModel.Reclaim2(s) == s
      ensures s.spare1.None? && s.toWrite != [] ==> LoggerModel.Reclaim1(s).spare2 == s.spare2
    {
    }

    /** Refills the empty spare slots from the buffers just written, and forgets the rest. */
    method Refill()
      requires Valid() && stage == Refilling && CanRefill(View())
      modifies this, Storage()
      ensures Valid() && View() == LoggerModel.Refill(old(View()))
    {
      hide Valid, View, Storage, LoggerModel.Reclaim1, LoggerModel.Reclaim2;
      ReclaimCases(View());
      ViewStage();
      SpareFacts();
      if newBuffer1 == null {
        Reclaim1();
      }
      SpareFacts();
      ReclaimCases(View());
      if newBuffer2 == null {
        Reclaim2();
      }
      ClearRound();
    }

    /** One turn of the back end's loop while no other thread interferes. */
    method ThreadTurn()
      requires Valid() && LoggerTheorems.Inv(View()) && stage == Head && running
      modifies this, Storage()
      ensures Valid() && LoggerTheorems.Inv(View()) && stage == Head
      ensures LoggerModel.Held(View()) == LoggerModel.Held(old(View()))
      ensures rounds == old(rounds) + [old(View()).buffers + [old(View()).current.value]]
      ensures View().buffers == [] && View().current == Some([])
      ensures output == FileOf(rounds)
    {
      hide Valid, LoggerTheorems.Inv, View, Storage, FileOf, LoggerModel.Held, LoggerTheorems.BackEnd, AssertsHold,
        CanRefill, LoggerModel.LoopHead, Swap, Trim, Write, LoggerModel.Refill;
      ghost var s := View();
      StageIs();
      LoggerTheorems.TurnFacts(s);
      BackEndIs(s);
      LoopHead();
      StageIs();
      BackEndIs(View());
      SwapBuffers();
      StageIs();
      BackEndIs(View());
      TrimRound();
      StageIs();
      BackEndIs(View());
      WriteRound();
      StageIs();
      BackEndIs(View());
      Refill();
      StageIs();
    }

    static lemma BackEndIs(s: State)
      requires LoggerTheorems.Inv(s)
      ensures AssertsHold(s) && s.current.Some? && (s.stage == Refilling ==> CanRefill(s))
      ensures LoggerTheorems.BackEnd(s) ==
        match s.stage
        case Head => LoggerModel.LoopHead(s)
        case Swapping => LoggerModel.Swap(s)
        case Trimming => LoggerModel.Trim(s)
        case Writing => LoggerModel.Write(s)
        case Refilling => LoggerModel.Refill(s)
        case Exited => s
    {
      LoggerTheorems.InvKept(s, StepBackEnd);
    }

    lemma StageIs()
      requires Valid()
      ensures View().stage == stage && View().running == running && View().rounds == rounds && View().out == output
      ensures View().current.Some? <==> currentBuffer != null
    {
    }
  }
}
