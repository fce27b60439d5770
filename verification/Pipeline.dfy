/**
  The acquisition chain: records go to the processing stage, which turns each into a frame and
  publishes it to the summing subscriber and to the file writer. Every turn of the three workers,
  every update and the two stop signals are separate steps that may interleave in any order.
 */
module Pipeline {
  import opened Publisher
  import opened Subscriber

  // ----- which subscriber gets what

  /** A record names its frame's file; only its identity matters here otherwise. */
  datatype Record = Record(id: int, fileName: string)

  datatype Frame = Frame(of: Record)

  function NotifyType(r: Record): bv8 {
    if r.fileName == "" then ACQUIRE else BOTH
  }

  /** What a subscriber registered under `mask` is sent for a list of records. */
  function Sent(rs: seq<Record>, mask: bv8): seq<Frame> {
    if rs == [] then []
    else Sent(rs[..|rs| - 1], mask) + if NotifyType(rs[|rs| - 1]) & mask != 0 then [Frame(rs[|rs| - 1])] else []
  }

  function Frames(rs: seq<Record>): (fs: seq<Frame>)
    ensures |fs| == |rs| && forall i :: 0 <= i < |rs| ==> fs[i] == Frame(rs[i])
  {
    if rs == [] then [] else Frames(rs[..|rs| - 1]) + [Frame(rs[|rs| - 1])]
  }

  function Named(rs: seq<Record>): seq<Record> {
    if rs == [] then []
    else Named(rs[..|rs| - 1]) + if rs[|rs| - 1].fileName != "" then [rs[|rs| - 1]] else []
  }

  /** The summing subscriber is sent every record. */
  lemma {:induction false} AcquireGetsAll(rs: seq<Record>)
    ensures Sent(rs, ACQUIRE) == Frames(rs)
  {
    if rs == [] {
    } else {
      AcquireGetsAll(rs[..|rs| - 1]);
    }
  }

  /** The file writer is sent exactly those with a file name. */
  lemma {:induction false} AcquireFrameGetsNamed(rs: seq<Record>)
    ensures Sent(rs, ACQUIRE_FRAME) == Frames(Named(rs))
  {
    if rs == [] {
    } else {
      var front, last := rs[..|rs| - 1], rs[|rs| - 1];
      AcquireFrameGetsNamed(front);
      if last.fileName != "" {
        assert (Named(front) + [last])[..|Named(front) + [last]| - 1] == Named(front);
      }
    }
  }

  lemma SentPush(rs: seq<Record>, r: Record, mask: bv8)
    ensures Sent(rs + [r], mask) == Sent(rs, mask) + if NotifyType(r) & mask != 0 then [Frame(r)] else []
  {
    assert (rs + [r])[..|rs + [r]| - 1] == rs;
  }

  // ----- the chain

  /**
    `stopped` is the first stage's completion signal and `signalled` the processing stage's own;
    `forwarded` counts the subscribers already updated with the frame in progress; `done` is set
    when the stop command's wait for the chain returns.
   */
  datatype Chain = Chain(
    process: Worker<Record>, zmq: Worker<Frame>, writer: Worker<Frame>,
    stopped: bool, signalled: bool, forwarded: nat, done: bool)

  function Initial(): Chain {
    Chain(Fresh(), Fresh(), Fresh(), false, false, 0, false)
  }

  datatype Step =
    | Publish(r: Record)        // the acquisition thread updates the processing stage
    | Stop                      // the first stage signals completion
    | ProcessTurn(turn: Turn)   // a turn of the processing stage's worker
    | Forward                   // one update out of its on_notify
    | Signal                    // its on_completed passes the completion on
    | ZmqTurn(turn: Turn)
    | WriterTurn(turn: Turn)
    | WaitReturns               // the stop command has seen the chain complete

  /** Whether a step can happen; nothing keeps a record from being published after the stop. */
  predicate Possible(c: Chain, step: Step) {
    match step
    case Publish(_) => true
    case Stop => !c.stopped
    case ProcessTurn(turn) =>
      && Enabled(c.process, turn)
      && (turn.Finish? ==> c.forwarded == 2)
      && (turn.Complete? ==> c.signalled && c.zmq.pc == Completed && c.writer.pc == Completed)
    case Forward => c.process.current != [] && c.forwarded < 2
    case Signal => c.process.pc == Exiting && !c.signalled
    case ZmqTurn(turn) => Enabled(c.zmq, turn)
    case WriterTurn(turn) => Enabled(c.writer, turn)
    case WaitReturns => c.stopped && c.process.pc == Completed && !c.done
  }

  function Pushed(w: Worker<Frame>, r: Record, mask: bv8): Worker<Frame> {
    if NotifyType(r) & mask != 0 then Updated(w, Frame(r)) else w
  }

  function After(c: Chain, step: Step): Chain
    requires Possible(c, step)
  {
    match step
    case Publish(r) => c.(process := Updated(c.process, r))
    case Stop => c.(stopped := true)
    case ProcessTurn(turn) =>
      c.(process := Next(c.process, turn, c.stopped), forwarded := if turn.Finish? then 0 else c.forwarded)
    case Forward =>
      var r := c.process.current[0];
      // the registration order: first the summing subscriber, then the file writer
      if c.forwarded == 0 then c.(zmq := Pushed(c.zmq, r, ACQUIRE), forwarded := 1)
      else c.(writer := Pushed(c.writer, r, ACQUIRE_FRAME), forwarded := 2)
    case Signal => c.(signalled := true)
    case ZmqTurn(turn) => c.(zmq := Next(c.zmq, turn, c.signalled))
    case WriterTurn(turn) => c.(writer := Next(c.writer, turn, c.signalled))
    case WaitReturns => c.(done := true)
  }

  /** A run: every step is possible where it is taken. */
  predicate Run(steps: seq<Step>)
    decreases |steps|, 0
  {
    steps == [] || (Run(steps[..|steps| - 1]) && Possible(StateOf(steps[..|steps| - 1]), steps[|steps| - 1]))
  }

  function StateOf(steps: seq<Step>): Chain
    requires Run(steps)
    decreases |steps|, 1
  {
    if steps == [] then Initial() else After(StateOf(steps[..|steps| - 1]), steps[|steps| - 1])
  }

  function PublishedIn(steps: seq<Step>): seq<Record> {
    if steps == [] then []
    else PublishedIn(steps[..|steps| - 1])
         + if steps[|steps| - 1].Publish? then [steps[|steps| - 1].r] else []
  }

  // ----- what every step keeps

  /** What the processing stage has passed to its `n`-th subscriber. */
  function Passed(c: Chain, n: nat): seq<Record> {
    c.process.delivered + if c.forwarded > n then c.process.current else []
  }

  ghost predicate Consistent(c: Chain) {
    && c.process.Inv() && c.zmq.Inv() && c.writer.Inv()
    && (c.process.current == [] ==> c.forwarded == 0) && c.forwarded <= 2
    && c.zmq.log == Sent(Passed(c, 0), ACQUIRE)
    && c.writer.log == Sent(Passed(c, 1), ACQUIRE_FRAME)
  }

  /** The signals: nobody has seen one that is not up, and the second comes after the first worker left. */
  ghost predicate Signals(c: Chain) {
    && (c.process.pc == SawStop || c.process.Left() ==> c.stopped)
    && (c.signalled ==> c.process.Left())
    && (c.process.pc == Completed ==> c.signalled && c.zmq.pc == Completed && c.writer.pc == Completed)
    && (c.zmq.pc == SawStop || c.zmq.Left() ==> c.signalled)
    && (c.writer.pc == SawStop || c.writer.Left() ==> c.signalled)
    && (c.zmq.Left() ==> c.zmq.queue == []) && (c.writer.Left() ==> c.writer.queue == [])
    && (c.done ==> c.process.pc == Completed)
  }

  lemma ConsistentStep(c: Chain, step: Step)
    requires Consistent(c) && Possible(c, step)
    ensures Consistent(After(c, step))
  {
    hide Sent, NotifyType, Enabled;
    var d := After(c, step);
    match step
    case Publish(r) =>
      UpdateKeepsInv(c.process, r);
    case ProcessTurn(turn) =>
      TurnKeepsInv(c.process, turn, c.stopped);
      ProcessTurnPasses(c, turn);
    case Forward =>
      var r := c.process.current[0];
      assert c.process.current == [r];
      SentPush(c.process.delivered, r, if c.forwarded == 0 then ACQUIRE else ACQUIRE_FRAME);
      assert c.process.delivered + [] == c.process.delivered;
      if c.forwarded == 0 {
        UpdateKeepsInv(c.zmq, Frame(r));
      } else {
        UpdateKeepsInv(c.writer, Frame(r));
      }
    case ZmqTurn(turn) =>
      TurnKeepsInv(c.zmq, turn, c.signalled);
    case WriterTurn(turn) =>
      TurnKeepsInv(c.writer, turn, c.signalled);
    case _ =>
  }

  /** A turn of the processing stage passes nothing on by itself. */
  lemma ProcessTurnPasses(c: Chain, turn: Turn)
    requires Consistent(c) && Possible(c, ProcessTurn(turn))
    ensures Passed(After(c, ProcessTurn(turn)), 0) == Passed(c, 0)
    ensures Passed(After(c, ProcessTurn(turn)), 1) == Passed(c, 1)
  {
    hide Sent, Moved;
    var d := After(c, ProcessTurn(turn));
    assert d.process.delivered + [] == d.process.delivered;
  }

  lemma SignalsStep(c: Chain, step: Step)
    requires Consistent(c) && Signals(c) && Possible(c, step)
    ensures Signals(After(c, step))
  {
    hide Sent, NotifyType, Moved;
  }

  /** A record published after the processing stage has left its loop is never taken up. */
  ghost predicate KeepsLost(c: Chain, d: Chain, step: Step) {
    if c.process.Left() then
      && d.process.Left() && d.process.delivered == c.process.delivered
      && d.process.queue == c.process.queue + if step.Publish? then [step.r] else []
    else
      d.process.Left() ==> d.process.queue == []
  }

  lemma LostStep(c: Chain, step: Step)
    requires Consistent(c) && Possible(c, step)
    ensures KeepsLost(c, After(c, step), step)
  {
    hide Sent, NotifyType, Moved;
  }

  lemma {:induction false} RunKeeps(steps: seq<Step>)
    requires Run(steps)
    ensures Consistent(StateOf(steps)) && Signals(StateOf(steps))
    ensures StateOf(steps).process.log == PublishedIn(steps)
  {
    if steps != [] {
      hide Consistent, Signals, Possible;
      var front, step := steps[..|steps| - 1], steps[|steps| - 1];
      RunKeeps(front);
      ConsistentStep(StateOf(front), step);
      SignalsStep(StateOf(front), step);
      LogStep(StateOf(front), step);
    } else {
      assert Initial().process.log == [];
    }
  }

  lemma LogStep(c: Chain, step: Step)
    requires Consistent(c) && Possible(c, step)
    ensures After(c, step).process.log == c.process.log + if step.Publish? then [step.r] else []
  {
    hide Sent;
    if step.ProcessTurn? {
      TurnKeepsInv(c.process, step.turn, c.stopped);
    }
  }

  // ----- the theorems

  /** Records published after the processing stage left its loop: no such step in the run. */
  predicate NoneTooLate(steps: seq<Step>)
    requires Run(steps)
  {
    steps == []
    || (&& NoneTooLate(steps[..|steps| - 1])
        && (steps[|steps| - 1].Publish? ==> !StateOf(steps[..|steps| - 1]).process.Left()))
  }

  /** No record is published after the first stage was told to stop. */
  predicate NoneAfterStop(steps: seq<Step>) {
    forall i, j :: 0 <= i < j < |steps| && steps[i].Stop? ==> !steps[j].Publish?
  }

  lemma {:induction false} LeftoverIsLate(steps: seq<Step>)
    requires Run(steps)
    ensures StateOf(steps).process.Left() ==> (StateOf(steps).process.queue == [] <==> NoneTooLate(steps))
    ensures !StateOf(steps).process.Left() ==> NoneTooLate(steps)
  {
    if steps == [] {
    } else {
      hide Consistent, Signals, Possible, After;
      var front, step := steps[..|steps| - 1], steps[|steps| - 1];
      LeftoverIsLate(front);
      RunKeeps(front);
      LostStep(StateOf(front), step);
    }
  }

  lemma {:induction false} StoppedMeansStop(steps: seq<Step>)
    requires Run(steps) && StateOf(steps).stopped
    ensures exists i :: 0 <= i < |steps| && steps[i].Stop?
  {
    if steps == [] {
    } else {
      var front, step := steps[..|steps| - 1], steps[|steps| - 1];
      if step.Stop? {
        assert steps[|steps| - 1].Stop?;
      } else {
        StoppedMeansStop(front);
        var i :| 0 <= i < |front| && front[i].Stop?;
        assert steps[i].Stop?;
      }
    }
  }

  /** If nothing is published after the stop, nothing is published too late. */
  lemma {:induction false} StoppingFirstIsEnough(steps: seq<Step>)
    requires Run(steps) && NoneAfterStop(steps)
    ensures NoneTooLate(steps)
  {
    if steps == [] {
    } else {
      var front, step := steps[..|steps| - 1], steps[|steps| - 1];
      assert NoneAfterStop(front) by {
        forall i, j | 0 <= i < j < |front| && front[i].Stop? ensures !front[j].Publish? {
          assert steps[i].Stop? && !steps[j].Publish?;
        }
      }
      StoppingFirstIsEnough(front);
      if step.Publish? && StateOf(front).process.Left() {
        RunKeeps(front);
        StoppedMeansStop(front);
        assert false;
      }
    }
  }

  /**
    At every point of every run: what the subscribers were notified of is a prefix of what they
    should get, in acquisition order, and nothing is lost on the way.
   */
  lemma {:induction false} NothingOutOfOrder(steps: seq<Step>)
    requires Run(steps)
    ensures var c := StateOf(steps);
            && c.process.delivered <= PublishedIn(steps)
            && c.zmq.delivered + c.zmq.current + c.zmq.items + c.zmq.queue == Frames(Passed(c, 0))
            && c.writer.delivered + c.writer.current + c.writer.items + c.writer.queue == Frames(Named(Passed(c, 1)))
  {
    RunKeeps(steps);
    var c := StateOf(steps);
    AcquireGetsAll(Passed(c, 0));
    AcquireFrameGetsNamed(Passed(c, 1));
  }

  /**
    Delivery: once the chain has completed, the summing subscriber has been notified of one frame
    per record in acquisition order and the file writer of exactly those with a file name, if and
    only if no record was published after the processing stage left its loop.
   */
  lemma {:induction false} WholeDelivery(steps: seq<Step>)
    requires Run(steps) && StateOf(steps).done
    ensures NoneTooLate(steps)
       <==> && StateOf(steps).zmq.delivered == Frames(PublishedIn(steps))
            && StateOf(steps).writer.delivered == Frames(Named(PublishedIn(steps)))
    ensures NoneAfterStop(steps) ==> NoneTooLate(steps)
  {
    RunKeeps(steps);
    LeftoverIsLate(steps);
    if NoneAfterStop(steps) {
      StoppingFirstIsEnough(steps);
    }
    var c := StateOf(steps);
    hide Consistent, Signals, Run, StateOf;
    AtCompletion(c);
    AcquireGetsAll(c.process.delivered);
    AcquireFrameGetsNamed(c.process.delivered);
    assert c.process.log == c.process.delivered + c.process.queue;
    if c.process.queue == [] {
      assert c.process.delivered + [] == c.process.delivered;
    }
  }

  /** When the wait has returned, all that is left anywhere is in the first queue. */
  lemma AtCompletion(c: Chain)
    requires Consistent(c) && Signals(c) && c.done
    ensures c.process.Left() && c.process.log == c.process.delivered + c.process.queue
    ensures c.zmq.delivered == Sent(c.process.delivered, ACQUIRE)
    ensures c.writer.delivered == Sent(c.process.delivered, ACQUIRE_FRAME)
  {
    assert c.process.delivered + [] + [] + c.process.queue == c.process.delivered + c.process.queue;
    assert c.process.delivered + [] == c.process.delivered;
    assert c.zmq.delivered + [] + [] + [] == c.zmq.delivered;
    assert c.writer.delivered + [] + [] + [] == c.writer.delivered;
  }

  /** For the second stage the hypothesis is a fact: its subscribers are never updated after its signal. */
  lemma {:induction false} SecondStageStopsFirst(steps: seq<Step>, step: Step)
    requires Run(steps) && Possible(StateOf(steps), step) && StateOf(steps).signalled
    ensures After(StateOf(steps), step).zmq.log == StateOf(steps).zmq.log
    ensures After(StateOf(steps), step).writer.log == StateOf(steps).writer.log
  {
    RunKeeps(steps);
    var c := StateOf(steps);
    if step.ZmqTurn? {
      TurnKeepsInv(c.zmq, step.turn, c.signalled);
    } else if step.WriterTurn? {
      TurnKeepsInv(c.writer, step.turn, c.signalled);
    }
  }

  lemma OneMoreStep(steps: seq<Step>, step: Step)
    requires Run(steps) && Possible(StateOf(steps), step)
    ensures Run(steps + [step]) && StateOf(steps + [step]) == After(StateOf(steps), step)
    ensures PublishedIn(steps + [step]) == PublishedIn(steps) + if step.Publish? then [step.r] else []
  {
    assert (steps + [step])[..|steps + [step]| - 1] == steps;
  }

  /** A run in which the stop comes first and the processing stage leaves before `r` is published. */
  function LateRun(r: Record): seq<Step> {
    [Stop, ProcessTurn(CheckStop), ProcessTurn(CheckQueues), Publish(r), Signal,
     ZmqTurn(CheckStop), ZmqTurn(CheckQueues), ZmqTurn(Complete),
     WriterTurn(CheckStop), WriterTurn(CheckQueues), WriterTurn(Complete),
     ProcessTurn(Complete), WaitReturns]
  }

  /** The chain after the first `k` steps of that run. */
  function LateState(r: Record, k: nat): Chain {
    var process: Worker<Record> :=
      if k <= 3 then Fresh<Record>().(pc := LatePc(k - 1))
      else Worker([r], [], [], [], [r], if k < 12 then Exiting else Completed);
    var idle: Worker<Frame> := Fresh();
    Chain(process, idle.(pc := LatePc(k - 5)), idle.(pc := LatePc(k - 8)), k >= 1, k >= 5, 0, k >= 13)
  }

  /** Where an empty worker is after `n` turns from the moment its signal is up. */
  function LatePc(n: int): Pc {
    if n <= 0 then Head else if n == 1 then SawStop else if n == 2 then Exiting else Completed
  }

  lemma LateStep(r: Record, k: nat)
    requires k < |LateRun(r)|
    ensures Possible(LateState(r, k), LateRun(r)[k])
    ensures After(LateState(r, k), LateRun(r)[k]) == LateState(r, k + 1)
  {
    if k < 6 {
    } else if k < 9 {
    } else {
    }
  }

  lemma {:induction false} LateRunGoes(r: Record, k: nat)
    requires k <= |LateRun(r)|
    ensures Run(LateRun(r)[..k]) && StateOf(LateRun(r)[..k]) == LateState(r, k)
    ensures PublishedIn(LateRun(r)[..k]) == if k < 4 then [] else [r]
  {
    hide Run, StateOf, PublishedIn, LateState, Possible, After;
    if k == 0 {
      NoSteps(r);
      assert LateRun(r)[..k] == [];
    } else {
      LateRunGoes(r, k - 1);
      LateStep(r, k - 1);
      var steps, step := LateRun(r)[..k - 1], LateRun(r)[k - 1];
      assert LateRun(r)[..k] == steps + [step];
      OneMoreStep(steps, step);
    }
  }

  lemma NoSteps(r: Record)
    ensures Run([]) && StateOf([]) == Initial() == LateState(r, 0) && PublishedIn([]) == []
  {
  }

  /** The acquisition thread is joined only after the wait, so this run is possible: its record is lost. */
  lemma LateRecordIsLost(r: Record)
    ensures var steps := LateRun(r);
            && Run(steps) && StateOf(steps).done
            && PublishedIn(steps) == [r] && StateOf(steps).zmq.delivered == []
  {
    LateRunGoes(r, 13);
    assert LateRun(r)[..13] == LateRun(r);
  }
}
