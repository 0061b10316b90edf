/** The event loop.  Its methods are the steps of LoopModel, except that DoPendingFunctors is also
    given as the loop it is, for a stretch in which no other thread interferes. */
module EventLoops {
  import opened LoopModel
  import LoopTheorems

  class EventLoop {
    var quit: bool
    var callingPendingFunctors: bool
    var pendingFunctors: seq<Functor>
    var functors: seq<Functor>  // the batch taken by doPendingFunctors, what is left of it
    var wakeupCounter: nat
    // where the threads are between two steps
    var pc: Pc
    var wakeReady: bool
    var inCallback: bool
    var loopOwes: bool
    ghost var pushers: set<Tid>
    ghost var quitters: set<Tid>
    ghost var pushed: seq<Functor>
    ghost var ran: seq<Functor>

    ghost function View(): State
      reads this
    {
      State(pc, quit, callingPendingFunctors, wakeReady, inCallback, loopOwes, wakeupCounter,
            pendingFunctors, functors, pushers, quitters, pushed, ran)
    }

    constructor ()
      ensures View() == Start()
    {
      quit, callingPendingFunctors, wakeReady, inCallback, loopOwes := false, false, false, false, false;
      pendingFunctors, functors, wakeupCounter, pc := [], [], 0, Checking;
      pushers, quitters, pushed, ran := {}, {}, [], [];
    }

    /** The locked part of queueInLoop. */
    method PushFunctor(cb: Functor)
      modifies `pendingFunctors, `pushed
      ensures View() == Queue(old(View()), cb)
    {
      pendingFunctors := pendingFunctors + [cb];
      pushed := pushed + [cb];
    }

    method Wakeup()
      modifies `wakeupCounter
      ensures wakeupCounter == old(wakeupCounter) + 1
    {
      wakeupCounter := wakeupCounter + 1;
    }

    // ----- other threads -----

    method QueueInLoopPush(ghost t: Tid, cb: Functor)
      requires Enabled(View(), Push(t, cb))
      modifies `pendingFunctors, `pushed, `pushers
      ensures View() == Take(old(View()), Push(t, cb))
    {
      PushFunctor(cb);
      pushers := pushers + {t};
    }

    method QueueInLoopWakeup(ghost t: Tid)
      requires Enabled(View(), WriteAfterPush(t))
      modifies `wakeupCounter, `pushers
      ensures View() == Take(old(View()), WriteAfterPush(t))
    {
      Wakeup();
      pushers := pushers - {t};
    }

    method QuitFlag(ghost t: Tid)
      requires Enabled(View(), Quit(t))
      modifies `quit, `quitters
      ensures View() == Take(old(View()), Quit(t))
    {
      quit := true;
      quitters := quitters + {t};
    }

    method QuitWakeup(ghost t: Tid)
      requires Enabled(View(), WriteAfterQuit(t))
      modifies `wakeupCounter, `quitters
      ensures View() == Take(old(View()), WriteAfterQuit(t))
    {
      Wakeup();
      quitters := quitters - {t};
    }

    // ----- the loop's thread -----

    method TestQuit()
      requires Enabled(View(), Check)
      modifies `pc
      ensures View() == Take(old(View()), Check)
    {
      pc := if quit then Stopped else Polling;
    }

    method PollReturn(reported: bool)
      requires Enabled(View(), PollReturns(reported))
      modifies `pc, `wakeReady
      ensures View() == Take(old(View()), PollReturns(reported))
    {
      wakeReady := reported;
      pc := Handling;
    }

    method HandleRead()
      requires Enabled(View(), ReadEventfd)
      modifies `wakeupCounter, `wakeReady
      ensures View() == Take(old(View()), ReadEventfd)
    {
      wakeupCounter := 0;
      wakeReady := false;
    }

    /** queueInLoop on the loop's own thread: it writes the eventfd only while functors are called. */
    method QueueInLoop(cb: Functor)
      requires !loopOwes
      modifies `pendingFunctors, `pushed, `wakeupCounter
      ensures View() == QueuedHere(old(View()), cb)
      ensures pendingFunctors == old(pendingFunctors) + [cb]
    {
      PushFunctor(cb);
      if callingPendingFunctors {
        Wakeup();
      }
    }

    method RunNextFunctor() returns (cb: Functor)
      requires Enabled(View(), RunNext)
      modifies `functors, `ran, `inCallback
      ensures View() == Take(old(View()), RunNext)
      ensures functors == old(functors)[1..] && cb == old(functors)[0] && ran == old(ran) + [cb] && inCallback
      ensures pc == Running && !loopOwes && old(functors) != []
    {
      cb := functors[0];
      functors := functors[1..];
      ran := ran + [cb];
      inCallback := true;
    }

    /** Runs the next functor and lets it queue what it wants. */
    method RunOne(script: Functor -> seq<Functor>) returns (cb: Functor)
      requires pc == Running && !loopOwes && functors != []
      requires LoopTheorems.Inv(View()) && LoopTheorems.InOrder(View())
      modifies `functors, `ran, `inCallback, `pendingFunctors, `pushed, `wakeupCounter
      ensures LoopTheorems.Inv(View()) && LoopTheorems.InOrder(View())
      ensures cb == old(functors)[0] && functors == old(functors)[1..] && ran == old(ran) + [cb]
      ensures pendingFunctors == old(pendingFunctors) + script(cb)
      ensures pc == Running && !loopOwes
    {
      hide LoopTheorems.Inv, LoopTheorems.InOrder, Take, QueuedHere;
      LoopTheorems.InvKept(View(), RunNext);
      LoopTheorems.OrderKept(View(), RunNext);
      cb := RunNextFunctor();
      var queued := script(cb);
      var i := 0;
      while i < |queued|
        invariant 0 <= i <= |queued|
        invariant LoopTheorems.Inv(View()) && LoopTheorems.InOrder(View())
        invariant functors == old(functors)[1..] && ran == old(ran) + [cb] && inCallback
        invariant pendingFunctors == old(pendingFunctors) + queued[..i]
      {
        LoopTheorems.QueuedHereKeeps(View(), queued[i]);
        QueueInLoop(queued[i]);
        assert queued[..i + 1] == queued[..i] + [queued[i]];
        i := i + 1;
      }
      assert queued[..i] == queued;
    }

    /** What running `batch` queues, functor by functor. */
    static ghost function Queued(script: Functor -> seq<Functor>, batch: seq<Functor>): seq<Functor> {
      if batch == [] then [] else Queued(script, batch[..|batch| - 1]) + script(batch[|batch| - 1])
    }

    /** Takes the pending functors and runs them all, in order, while no other thread interferes; what
        they queue stays pending, and then a wakeup is on its way. */
    method DoPendingFunctors(script: Functor -> seq<Functor>)
      requires pc == Handling && !wakeReady
      requires LoopTheorems.Inv(View()) && LoopTheorems.InOrder(View())
      modifies `pc, `callingPendingFunctors, `functors, `ran, `inCallback, `pendingFunctors, `pushed, `wakeupCounter
      ensures LoopTheorems.Inv(View()) && LoopTheorems.InOrder(View())
      ensures pc == Checking && !callingPendingFunctors
      ensures ran == old(ran + pendingFunctors)
      ensures pendingFunctors == Queued(script, old(pendingFunctors))
      ensures pendingFunctors != [] ==> LoopTheorems.WakeupOnTheWay(View())
    {
      ghost var taken := pendingFunctors;
      EnterAndTake();
      hide LoopTheorems.Inv, LoopTheorems.InOrder, LoopTheorems.WakeupOnTheWay, Take, View;
      ghost var done := 0;
      while functors != []
        invariant 0 <= done <= |taken| && functors == taken[done..]
        invariant ran == old(ran) + taken[..done]
        invariant pendingFunctors == Queued(script, taken[..done])
        invariant pc == Running && !loopOwes
        invariant LoopTheorems.Inv(View()) && LoopTheorems.InOrder(View())
        decreases |functors|
      {
        var cb := RunOne(script);
        assert taken[..done + 1] == taken[..done] + [cb];
        done := done + 1;
      }
      assert taken[..done] == taken;
      Leave();
    }

    method EnterAndTake()
      requires pc == Handling && !wakeReady
      requires LoopTheorems.Inv(View()) && LoopTheorems.InOrder(View())
      modifies `pc, `callingPendingFunctors, `functors, `pendingFunctors
      ensures View() == Take(Take(old(View()), EnterPending), TakePending)
      ensures LoopTheorems.Inv(View()) && LoopTheorems.InOrder(View())
      ensures functors == old(pendingFunctors) && pendingFunctors == [] && pc == Running && !loopOwes
    {
      LoopTheorems.InvKept(View(), EnterPending);
      LoopTheorems.OrderKept(View(), EnterPending);
      LoopTheorems.InvKept(Take(View(), EnterPending), TakePending);
      LoopTheorems.OrderKept(Take(View(), EnterPending), TakePending);
      callingPendingFunctors := true;
      functors, pendingFunctors := pendingFunctors, [];
      pc := Running;
    }

    method Leave()
      requires pc == Running && !loopOwes && functors == []
      requires LoopTheorems.Inv(View()) && LoopTheorems.InOrder(View())
      modifies `pc, `callingPendingFunctors, `inCallback
      ensures View() == Take(old(View()), LeavePending)
      ensures LoopTheorems.Inv(View()) && LoopTheorems.InOrder(View())
      ensures pc == Checking && !callingPendingFunctors
      ensures pendingFunctors != [] ==> LoopTheorems.WakeupOnTheWay(View())
    {
      hide LoopTheorems.InOrder;
      LoopTheorems.InvKept(View(), LeavePending);
      LoopTheorems.OrderKept(View(), LeavePending);
      callingPendingFunctors, inCallback := false, false;
      pc := Checking;
    }
  }
}
