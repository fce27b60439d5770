/**
  Delivery while the acquisition runs: in every execution in which nobody is kept waiting for ever,
  each record reaches the subscribers, whether or not a stop ever comes.
 */
module ChainDelivery {
  import opened Pipeline
  import opened Publisher
  import opened Subscriber
  import opened ChainCompletion

  // ----- how far off the first k deliveries of a thread are

  function Log(c: Chain, thread: Thread): nat {
    match thread
    case Processing => |c.process.log|
    case Summing => |c.zmq.log|
    case Writing => |c.writer.log|
    case Waiting => 0
  }

  function Delivered(c: Chain, thread: Thread): nat {
    match thread
    case Processing => |c.process.delivered|
    case Summing => |c.zmq.delivered|
    case Writing => |c.writer.delivered|
    case Waiting => 0
  }

  predicate HasLeft(c: Chain, thread: Thread) {
    match thread
    case Processing => c.process.Left()
    case Summing => c.zmq.Left()
    case Writing => c.writer.Left()
    case Waiting => c.done
  }

  /** Steps of the thread until it has delivered `k` items; those of the processing stage include its updates. */
  function DueIn(c: Chain, thread: Thread, k: nat): (n: nat)
    ensures n == 0 <==> Delivered(c, thread) >= k
  {
    match thread
    case Processing =>
      if |c.process.delivered| >= k then 0
      else 8 * (k - |c.process.delivered|)
           + if c.process.current == [] then ToNext(c.process) + 2 else if c.forwarded < 2 then 2 - c.forwarded else 0
    case Summing => Due(c.zmq, k)
    case Writing => Due(c.writer, k)
    case Waiting => k
  }

  /** The thread has been given `k` items and has not left before delivering them. */
  predicate Ready(c: Chain, thread: Thread, k: nat) {
    !thread.Waiting? && k <= Log(c, thread) && (Delivered(c, thread) < k ==> !HasLeft(c, thread))
  }

  /** No step makes it longer, and the thread's own make it shorter. */
  lemma DueStep(c: Chain, step: Step, thread: Thread, k: nat)
    requires Consistent(c) && Signals(c) && Possible(c, step) && Ready(c, thread, k)
    ensures Ready(After(c, step), thread, k) && DueIn(After(c, step), thread, k) <= DueIn(c, thread, k)
    ensures By(step, thread) && DueIn(c, thread, k) > 0 ==> DueIn(After(c, step), thread, k) < DueIn(c, thread, k)
  {
    hide Sent, NotifyType;
    match thread
    case Processing => DueProcessing(c, step, k);
    case Summing =>
      match step {
        case ZmqTurn(turn) => DueTurn(c.zmq, turn, c.signalled, k);
        case _ =>
      }
    case Writing =>
      match step {
        case WriterTurn(turn) => DueTurn(c.writer, turn, c.signalled, k);
        case _ =>
      }
    case Waiting =>
  }

  lemma DueTurn<T>(w: Worker<T>, turn: Turn, stop: bool, k: nat)
    requires w.Inv() && Enabled(w, turn) && k <= |w.log| && (|w.delivered| < k ==> !w.Left())
    ensures var v := Next(w, turn, stop);
            && v.log == w.log && (|v.delivered| < k ==> !v.Left())
            && Due(v, k) <= Due(w, k) && (Due(w, k) > 0 ==> Due(v, k) < Due(w, k))
  {
    TurnKeepsInv(w, turn, stop);
    if |w.delivered| < k {
      TurnsDeliver(w, turn, stop, k);
    }
  }

  lemma DueProcessing(c: Chain, step: Step, k: nat)
    requires Consistent(c) && Possible(c, step) && Ready(c, Processing, k)
    ensures Ready(After(c, step), Processing, k)
    ensures DueIn(After(c, step), Processing, k) <= DueIn(c, Processing, k)
    ensures By(step, Processing) && DueIn(c, Processing, k) > 0 ==>
              DueIn(After(c, step), Processing, k) < DueIn(c, Processing, k)
  {
    hide Sent, NotifyType;
    match step
    case ProcessTurn(turn) =>
      TurnKeepsInv(c.process, turn, c.stopped);
      if |c.process.delivered| < k {
        TurnsDeliver(c.process, turn, c.stopped, k);
      }
    case _ =>
  }

  lemma DueMoves(c: Chain, thread: Thread, k: nat)
    requires Consistent(c) && Ready(c, thread, k) && DueIn(c, thread, k) > 0
    ensures CanMove(c, thread)
  {
    hide Sent, NotifyType, ToNext;
    match thread
    case Processing =>
      if c.process.current != [] {
        var step := if c.forwarded < 2 then Forward else ProcessTurn(Finish);
        assert By(step, thread) && Possible(c, step);
      } else {
        var turn := TurnOf(c.process);
        assert By(ProcessTurn(turn), thread) && Possible(c, ProcessTurn(turn));
      }
    case Summing =>
      var turn := TurnOf(c.zmq);
      assert By(ZmqTurn(turn), thread) && Possible(c, ZmqTurn(turn));
    case Writing =>
      var turn := TurnOf(c.writer);
      assert By(WriterTurn(turn), thread) && Possible(c, WriterTurn(turn));
  }

  // ----- along an execution

  /** At moment `n` the thread is ready for its first `k` items, and no further off than `due` steps. */
  ghost predicate ReadyAt(at: nat -> seq<Step>, n: nat, thread: Thread, k: nat, due: nat) {
    Moment(at, n) && Ready(StateOf(at(n)), thread, k) && DueIn(StateOf(at(n)), thread, k) <= due
  }

  lemma {:induction false} StaysReady(at: nat -> seq<Step>, n: nat, m: nat, thread: Thread, k: nat, due: nat)
    requires Execution(at) && n <= m && ReadyAt(at, n, thread, k, due)
    ensures ReadyAt(at, m, thread, k, due)
    decreases m
  {
    if m == n {
    } else {
      StaysReady(at, n, m - 1, thread, k, due);
      NextMoment(at, m - 1, thread, k, due);
    }
  }

  lemma NextMoment(at: nat -> seq<Step>, n: nat, thread: Thread, k: nat, due: nat)
    requires Execution(at) && ReadyAt(at, n, thread, k, due)
    ensures ReadyAt(at, n + 1, thread, k, due)
    ensures (exists step :: step in Happens(at, n) && By(step, thread)) && due > 0 ==>
              ReadyAt(at, n + 1, thread, k, due - 1)
  {
    hide Consistent, Signals, Possible, After, Run, StateOf, Ready, DueIn, By;
    assert Moment(at, n) && Moment(at, n + 1);
    if Happens(at, n) == [] {
      assert at(n + 1) == at(n);
    } else {
      var step := Happens(at, n)[0];
      assert at(n + 1) == at(n) + [step] && Happens(at, n) == [step];
      StepOf(at(n), step);
      RunKeeps(at(n));
      DueStep(StateOf(at(n)), step, thread, k);
    }
  }

  lemma {:induction false} EventuallyDelivers(at: nat -> seq<Step>, n: nat, thread: Thread, k: nat, due: nat)
    returns (m: nat)
    requires Execution(at) && Fair(at) && ReadyAt(at, n, thread, k, due)
    ensures n <= m && Moment(at, m) && Delivered(StateOf(at(m)), thread) >= k
    decreases due
  {
    hide Consistent, Signals, Possible, After, Run, StateOf, Ready;
    assert ServedLater(at, n, thread);
    m :| n <= m && Served(at, m, thread);
    StaysReady(at, n, m, thread, k, due);
    var c := StateOf(at(m));
    if DueIn(c, thread, k) > 0 {
      RunKeeps(at(m));
      DueMoves(c, thread, k);
      NextMoment(at, m, thread, k, due);
      m := EventuallyDelivers(at, m + 1, thread, k, due - 1);
    }
  }

  /** Nothing logged or delivered is ever taken back. */
  ghost predicate Grows(c: Chain, d: Chain) {
    && c.process.log <= d.process.log
    && c.zmq.log <= d.zmq.log && c.zmq.delivered <= d.zmq.delivered
    && c.writer.log <= d.writer.log && c.writer.delivered <= d.writer.delivered
  }

  lemma StepGrows(c: Chain, step: Step)
    requires Consistent(c) && Possible(c, step)
    ensures Grows(c, After(c, step))
  {
    hide Sent, NotifyType;
    match step
    case ProcessTurn(turn) => TurnKeepsInv(c.process, turn, c.stopped);
    case ZmqTurn(turn) => TurnKeepsInv(c.zmq, turn, c.signalled);
    case WriterTurn(turn) => TurnKeepsInv(c.writer, turn, c.signalled);
    case _ =>
  }

  lemma {:induction false} ExecutionGrows(at: nat -> seq<Step>, n: nat, m: nat)
    requires Execution(at) && n <= m
    ensures Run(at(n)) && Run(at(m)) && Grows(StateOf(at(n)), StateOf(at(m)))
    decreases m
  {
    hide Consistent, Signals, Possible, After, Run, StateOf;
    assert Moment(at, n) && Moment(at, m);
    if m == n {
    } else {
      ExecutionGrows(at, n, m - 1);
      assert Moment(at, m - 1);
      if Happens(at, m - 1) == [] {
        assert at(m) == at(m - 1);
      } else {
        var step := Happens(at, m - 1)[0];
        assert at(m) == at(m - 1) + [step];
        StepOf(at(m - 1), step);
        RunKeeps(at(m - 1));
        StepGrows(StateOf(at(m - 1)), step);
      }
    }
  }

  // ----- every record arrives

  lemma {:induction false} FramesPrefix(rs: seq<Record>, ss: seq<Record>)
    requires rs <= ss
    ensures Frames(rs) <= Frames(ss)
  {
  }

  lemma {:induction false} NamedPrefix(rs: seq<Record>, ss: seq<Record>)
    requires rs <= ss
    ensures Named(rs) <= Named(ss)
    decreases |ss|
  {
    if |ss| == |rs| {
      assert rs == ss;
    } else {
      NamedPrefix(rs, ss[..|ss| - 1]);
    }
  }

  /** Once the processing stage has delivered `rs`, its subscribers have been given what they should get of it. */
  lemma GivenToSubscribers(c: Chain, rs: seq<Record>)
    requires Consistent(c) && Signals(c) && rs <= c.process.delivered
    ensures Frames(rs) <= c.zmq.log && Ready(c, Summing, |Frames(rs)|)
    ensures Frames(Named(rs)) <= c.writer.log && Ready(c, Writing, |Frames(Named(rs))|)
  {
    hide Sent, Frames, Named, NotifyType;
    AcquireGetsAll(Passed(c, 0));
    AcquireFrameGetsNamed(Passed(c, 1));
    FramesPrefix(rs, Passed(c, 0));
    NamedPrefix(rs, Passed(c, 1));
    FramesPrefix(Named(rs), Named(Passed(c, 1)));
    StillThere(c.zmq, Frames(rs));
    StillThere(c.writer, Frames(Named(rs)));
  }

  lemma StillThere<T>(w: Worker<T>, s: seq<T>)
    requires w.Inv() && s <= w.log && (w.Left() ==> w.queue == [])
    ensures |s| <= |w.log| && (|w.delivered| < |s| ==> !w.Left())
  {
    NothingLeftBehind(w);
  }

  lemma NothingLeftBehind<T>(w: Worker<T>)
    requires w.Inv()
    ensures w.Left() && w.queue == [] ==> w.delivered == w.log
  {
    if w.Left() && w.queue == [] {
      assert w.delivered + [] + [] + [] == w.delivered;
    }
  }

  lemma DeliveredIsPrefix<T>(w: Worker<T>, s: seq<T>)
    requires w.Inv() && s <= w.log && |s| <= |w.delivered|
    ensures s <= w.delivered
  {
    assert w.delivered <= w.log;
  }

  lemma ReadyToProcess(steps: seq<Step>)
    requires Run(steps) && NoneTooLate(steps)
    ensures Ready(StateOf(steps), Processing, |PublishedIn(steps)|)
  {
    RunKeeps(steps);
    LeftoverIsLate(steps);
    hide Run, StateOf, NoneTooLate, PublishedIn, Sent;
    NothingLeftBehind(StateOf(steps).process);
  }

  /**
    Every record that is not too late arrives, with or without a stop and whatever is published
    meanwhile: at some later moment the summing subscriber has been notified of a frame for each
    record published by moment `n`, in order, and the file writer for each with a file name.
   */
  lemma EveryRecordArrives(at: nat -> seq<Step>, n: nat) returns (m: nat)
    requires Execution(at) && Fair(at) && Moment(at, n) && NoneTooLate(at(n))
    ensures n <= m && Moment(at, m)
    ensures Frames(PublishedIn(at(n))) <= StateOf(at(m)).zmq.delivered
    ensures Frames(Named(PublishedIn(at(n)))) <= StateOf(at(m)).writer.delivered
  {
    hide Run, StateOf, NoneTooLate, PublishedIn, Possible, After, Ready, DueIn, Signals, Sent, Fair;
    var rs := PublishedIn(at(n));
    ReadyToProcess(at(n));
    var processed := EventuallyDelivers(at, n, Processing, |rs|, DueIn(StateOf(at(n)), Processing, |rs|));
    ExecutionGrows(at, n, processed);
    RunKeeps(at(n));
    RunKeeps(at(processed));
    var c := StateOf(at(processed));
    DeliveredIsPrefix(c.process, rs);
    GivenToSubscribers(c, rs);
    var summed := EventuallyDelivers(at, processed, Summing, |Frames(rs)|, DueIn(c, Summing, |Frames(rs)|));
    var named := |Frames(Named(rs))|;
    var written := EventuallyDelivers(at, processed, Writing, named, DueIn(c, Writing, named));
    m := if summed < written then written else summed;
    Arrived(at, processed, summed, m, rs);
    Arrived(at, processed, written, m, rs);
  }

  /** What is delivered at one moment is so at every later one. */
  lemma Arrived(at: nat -> seq<Step>, given: nat, n: nat, m: nat, rs: seq<Record>)
    requires Execution(at) && given <= n <= m && Moment(at, given) && Moment(at, n)
    requires Frames(rs) <= StateOf(at(given)).zmq.log && Frames(Named(rs)) <= StateOf(at(given)).writer.log
    ensures Moment(at, m)
    ensures |Frames(rs)| <= |StateOf(at(n)).zmq.delivered| ==> Frames(rs) <= StateOf(at(m)).zmq.delivered
    ensures |Frames(Named(rs))| <= |StateOf(at(n)).writer.delivered| ==>
              Frames(Named(rs)) <= StateOf(at(m)).writer.delivered
  {
    hide Run, StateOf, Frames, Named, Sent;
    assert Moment(at, m);
    ExecutionGrows(at, given, n);
    ExecutionGrows(at, n, m);
    RunKeeps(at(n));
    if |Frames(rs)| <= |StateOf(at(n)).zmq.delivered| {
      DeliveredIsPrefix(StateOf(at(n)).zmq, Frames(rs));
    }
    if |Frames(Named(rs))| <= |StateOf(at(n)).writer.delivered| {
      DeliveredIsPrefix(StateOf(at(n)).writer, Frames(Named(rs)));
    }
  }
}
