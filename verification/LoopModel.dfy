/** The event loop's wakeup protocol as a state machine.  The loop's thread and any number of producer
    threads interleave between steps; pushing a functor and writing the eventfd are separate steps.
    Every functor has a number of its own. */
module LoopModel {

  type Tid = nat
  type Functor = nat

  /** Where the loop's thread is: at the loop test, inside poll, handling events, about to take the
      pending functors, running the ones it took, or out of the loop. */
  datatype Pc = Checking | Polling | Handling | Taking | Running | Stopped

  datatype State = State(
    pc: Pc,
    quit: bool,
    calling: bool,           // callingPendingFunctors_
    wakeReady: bool,         // poll reported the eventfd, and it has not been read yet
    inCallback: bool,        // a functor of the batch is being run
    loopOwes: bool,          // that functor queued another one and has yet to write the eventfd
    counter: nat,            // of the eventfd
    pending: seq<Functor>,
    batch: seq<Functor>,
    pushers: set<Tid>,       // pushed a functor, have yet to write the eventfd
    quitters: set<Tid>,      // asked to quit, have yet to write the eventfd
    pushed: seq<Functor>,    // history: every functor ever queued
    ran: seq<Functor>)       // history: every functor ever run

  ghost function Start(): State {
    Waiting([], 0)
  }

  /** The loop about to start, with functors its own thread queued before. */
  ghost function Waiting(queued: seq<Functor>, counter: nat): State {
    State(Checking, false, false, false, false, false, counter, queued, [], {}, {}, queued, [])
  }

  datatype Step =
    | Push(t: Tid, f: Functor)   // another thread: the locked part of queueInLoop
    | WriteAfterPush(t: Tid)     //   and its wakeup
    | Quit(t: Tid)               // another thread: quit
    | WriteAfterQuit(t: Tid)     //   and its wakeup
    | Check                      // the loop test
    | PollReturns(reported: bool)  // the timeout or events, a readable eventfd reported or left for the next turn
    | ReadEventfd                // handleRead
    | HandlerPushes(f: Functor)  // an event handler queues a functor
    | LoopQuits                  // a handler or functor asks the loop to quit
    | EnterPending
    | TakePending                // the locked swap
    | RunNext                    // starts the next functor of the batch
    | FunctorPushes(f: Functor)  // a running functor queues another one
    | FunctorWrites              //   and wakes the loop, since functors are being called
    | LeavePending

  ghost predicate Enabled(s: State, step: Step) {
    match step
    case Push(t, _) => t !in s.pushers && t !in s.quitters
    case Quit(t) => t !in s.pushers && t !in s.quitters
    case WriteAfterPush(t) => t in s.pushers
    case WriteAfterQuit(t) => t in s.quitters
    case Check => s.pc == Checking
    case PollReturns(reported) => s.pc == Polling && (reported ==> s.counter > 0)
    case ReadEventfd => s.pc == Handling && s.wakeReady
    case HandlerPushes(_) => s.pc == Handling
    case LoopQuits => s.pc == Handling || (s.pc == Running && s.inCallback && !s.loopOwes)
    case EnterPending => s.pc == Handling && !s.wakeReady
    case TakePending => s.pc == Taking
    case RunNext => s.pc == Running && !s.loopOwes && s.batch != []
    case FunctorPushes(_) => s.pc == Running && s.inCallback && !s.loopOwes
    case FunctorWrites => s.pc == Running && s.loopOwes
    case LeavePending => s.pc == Running && !s.loopOwes && s.batch == []
  }

  ghost function Queue(s: State, f: Functor): State {
    s.(pending := s.pending + [f], pushed := s.pushed + [f])
  }

  /** queueInLoop on the loop's own thread, both its steps. */
  ghost function QueuedHere(s: State, f: Functor): State {
    if s.calling then Queue(s, f).(counter := s.counter + 1) else Queue(s, f)
  }

  ghost function Take(s: State, step: Step): State
    requires Enabled(s, step)
  {
    match step
    case Push(t, f) => Queue(s, f).(pushers := s.pushers + {t})
    case WriteAfterPush(t) => s.(counter := s.counter + 1, pushers := s.pushers - {t})
    case Quit(t) => s.(quit := true, quitters := s.quitters + {t})
    case WriteAfterQuit(t) => s.(counter := s.counter + 1, quitters := s.quitters - {t})
    case Check => s.(pc := if s.quit then Stopped else Polling)
    case PollReturns(reported) => s.(pc := Handling, wakeReady := reported)
    case ReadEventfd => s.(counter := 0, wakeReady := false)
    case HandlerPushes(f) => Queue(s, f)
    case LoopQuits => s.(quit := true)
    case EnterPending => s.(pc := Taking, calling := true)
    case TakePending => s.(pc := Running, batch := s.pending, pending := [])
    case RunNext => s.(ran := s.ran + [s.batch[0]], batch := s.batch[1..], inCallback := true)
    case FunctorPushes(f) => Queue(s, f).(loopOwes := s.calling)
    case FunctorWrites => s.(counter := s.counter + 1, loopOwes := false)
    case LeavePending => s.(pc := Checking, calling := false, inCallback := false)
  }

  ghost predicate LegalRun(s: State, steps: seq<Step>)
    decreases |steps|
  {
    steps == [] || (Enabled(s, steps[0]) && LegalRun(Take(s, steps[0]), steps[1..]))
  }

  ghost function Run(s: State, steps: seq<Step>): State
    requires LegalRun(s, steps)
    decreases |steps|
  {
    if steps == [] then s else Run(Take(s, steps[0]), steps[1..])
  }
}
