/**
  `Subscriber`: two queues and a worker. The worker's turns are a state machine, so that updates
  and the stop signal may fall between any two of them; the class runs the same turns as loops.
 */
module Subscriber {

  /** How many of `n` queued items one drain pass moves: its bound shrinks while it counts up. */
  function Moved(n: nat): nat {
    (n + 1) / 2
  }

  datatype Pc = Head | SawStop | Waking | Delivering | Exiting | Completed

  /**
    `log` is everything ever updated, `delivered` what `on_notify` has returned from, `current` the
    item it is working on. The worker's next turn is at `pc`.
   */
  datatype Worker<T> = Worker(log: seq<T>, delivered: seq<T>, current: seq<T>, items: seq<T>, queue: seq<T>, pc: Pc)
  {
    /** No loss and no reordering. */
    ghost predicate InOrder() {
      log == delivered + current + items + queue
    }

    /** The worker has left its loop for good. */
    predicate Left() {
      pc in {Exiting, Completed}
    }

    ghost predicate Inv() {
      && InOrder() && |current| <= 1
      && (current != [] ==> pc == Delivering)
      && (pc != Delivering ==> items == [])
    }
  }

  function Fresh<T>(): Worker<T> {
    Worker([], [], [], [], [], Head)
  }

  datatype Turn = CheckStop | CheckQueues | Drain | Take | Finish | Again | Complete

  predicate Enabled<T(==)>(w: Worker<T>, turn: Turn) {
    match turn
    case CheckStop => w.pc == Head
    case CheckQueues => w.pc == SawStop
    case Drain => w.pc == Waking
    case Take => w.pc == Delivering && w.current == [] && w.items != []
    case Finish => w.current != []
    case Again => w.pc == Delivering && w.current == [] && w.items == []
    case Complete => w.pc == Exiting
  }

  /** One turn of the worker; `stop` is whether the stop future is ready. */
  function Next<T(==)>(w: Worker<T>, turn: Turn, stop: bool): Worker<T>
    requires Enabled(w, turn)
  {
    match turn
    case CheckStop => w.(pc := if stop then SawStop else Waking)
    case CheckQueues => w.(pc := if w.items == [] && w.queue == [] then Exiting else Waking)
    case Drain =>
      var k := Moved(|w.queue|);
      w.(items := w.items + w.queue[..k], queue := w.queue[k..], pc := Delivering)
    case Take => w.(current := [w.items[0]], items := w.items[1..])
    case Finish => w.(delivered := w.delivered + w.current, current := [])
    case Again => w.(pc := Head)
    case Complete => w.(pc := Completed)
  }

  /** `update`, from any thread at any time. */
  function Updated<T>(w: Worker<T>, item: T): Worker<T> {
    w.(log := w.log + [item], queue := w.queue + [item])
  }

  lemma TurnKeepsInv<T>(w: Worker<T>, turn: Turn, stop: bool)
    requires w.Inv() && Enabled(w, turn)
    ensures Next(w, turn, stop).Inv() && Next(w, turn, stop).log == w.log
    ensures w.delivered <= Next(w, turn, stop).delivered
  {
    var n := Next(w, turn, stop);
    match turn
    case Drain =>
      var k := Moved(|w.queue|);
      assert w.queue == w.queue[..k] + w.queue[k..];
      assert n.delivered + n.current + n.items + n.queue
          == w.delivered + w.current + w.items + (w.queue[..k] + w.queue[k..]);
    case Take =>
      assert w.items == [w.items[0]] + w.items[1..];
      assert n.delivered + n.current + n.items + n.queue == w.delivered + [] + ([w.items[0]] + w.items[1..]) + w.queue;
    case Finish =>
      assert n.delivered + n.current == w.delivered + w.current;
    case _ =>
  }

  lemma UpdateKeepsInv<T>(w: Worker<T>, item: T)
    requires w.Inv()
    ensures Updated(w, item).Inv()
  {
    assert w.log + [item] == w.delivered + w.current + w.items + (w.queue + [item]);
  }

  // ----- after the stop signal

  /** Work left once the stop signal is up and updates have ceased. */
  function Work<T>(w: Worker<T>): nat {
    10 * |w.queue| + 5 * |w.items| + 3 * |w.current|
    + match w.pc
      case Waking => if w.queue == [] then 5 else 1
      case Delivering => 4
      case Head => 3
      case SawStop => 2
      case Exiting => 1
      case Completed => 0
  }

  /** Then every turn of the worker leaves less to do, so it completes whatever the scheduler picks. */
  lemma StoppedWorkDecreases<T>(w: Worker<T>, turn: Turn)
    requires w.Inv() && Enabled(w, turn)
    ensures Work(Next(w, turn, true)) < Work(w)
  {
  }

  /** And until it has completed it always has a turn to take. */
  lemma WorkerHasATurn<T>(w: Worker<T>)
    requires w.Inv() && w.pc != Completed
    ensures exists turn :: Enabled(w, turn)
  {
    assert Enabled(w, match w.pc
                      case Head => CheckStop
                      case SawStop => CheckQueues
                      case Waking => Drain
                      case Exiting => Complete
                      case _ => if w.current != [] then Finish else if w.items != [] then Take else Again);
  }

  /** Leaving the loop needs the signal and both queues empty. */
  lemma LeavesOnlyEmpty<T>(w: Worker<T>, turn: Turn, stop: bool)
    requires w.Inv() && Enabled(w, turn) && !w.Left() && Next(w, turn, stop).Left()
    ensures w.pc == SawStop && Next(w, turn, stop).delivered == w.log && w.queue == []
  {
  }

  // ----- delivery, whether or not the stop signal is up

  /** Turns until the next item is delivered, when one is there. */
  function ToNext<T>(w: Worker<T>): nat {
    if w.current != [] then 0
    else
      match w.pc
      case Delivering => if w.items != [] then 1 else 5
      case Waking => 2
      case SawStop => 3
      case Head => 4
      case _ => 0
  }

  /** Turns of the worker until it has delivered `k` items; updates do not add to them. */
  function Due<T>(w: Worker<T>, k: nat): (n: nat)
    ensures n == 0 <==> |w.delivered| >= k
  {
    if |w.delivered| >= k then 0 else 6 * (k - |w.delivered|) + ToNext(w)
  }

  /** While one of the first `k` items is undelivered every turn brings it nearer, and none leaves the loop. */
  lemma TurnsDeliver<T>(w: Worker<T>, turn: Turn, stop: bool, k: nat)
    requires w.Inv() && Enabled(w, turn) && !w.Left() && |w.delivered| < k <= |w.log|
    ensures Due(Next(w, turn, stop), k) < Due(w, k) && !Next(w, turn, stop).Left()
  {
  }

  lemma UpdatesWait<T>(w: Worker<T>, item: T, k: nat)
    ensures Due(Updated(w, item), k) == Due(w, k) && Updated(w, item).Left() == w.Left()
  {
  }

  /** What befalls a worker: a turn of its own, with the stop signal up or not, or an update. */
  datatype Event<T> = Turned(turn: Turn, stop: bool) | Arrived(item: T)

  ghost predicate Undergoes<T>(w: Worker<T>, events: seq<Event<T>>, v: Worker<T>)
    decreases |events|
  {
    if events == [] then v == w
    else
      match events[0]
      case Turned(turn, stop) => Enabled(w, turn) && Undergoes(Next(w, turn, stop), events[1..], v)
      case Arrived(item) => Undergoes(Updated(w, item), events[1..], v)
  }

  function TurnsIn<T>(events: seq<Event<T>>): (n: nat)
    ensures n <= |events|
  {
    if events == [] then 0 else (if events[0].Turned? then 1 else 0) + TurnsIn(events[1..])
  }

  /**
    Bounded delivery: whatever updates come in between, and whether or not the stop signal is up at
    any moment, the first `k` items are delivered after at most `Due` turns of the worker.
   */
  lemma {:induction false} DeliversInTime<T>(w: Worker<T>, events: seq<Event<T>>, v: Worker<T>, k: nat)
    requires w.Inv() && k <= |w.log| && (|w.delivered| < k ==> !w.Left())
    requires Undergoes(w, events, v) && TurnsIn(events) >= Due(w, k)
    ensures v.Inv() && w.log <= v.log && w.log[..k] <= v.delivered
    decreases |events|
  {
    hide Due, Enabled, Next;
    if events == [] {
      assert w.delivered <= w.log;
    } else {
      match events[0]
      case Turned(turn, stop) =>
        TurnKeepsInv(w, turn, stop);
        if |w.delivered| < k {
          TurnsDeliver(w, turn, stop, k);
        }
        DeliversInTime(Next(w, turn, stop), events[1..], v, k);
      case Arrived(item) =>
        UpdateKeepsInv(w, item);
        UpdatesWait(w, item, k);
        DeliversInTime(Updated(w, item), events[1..], v, k);
        assert Updated(w, item).log[..k] == w.log[..k];
    }
  }

  // ----- passes

  /** Drain passes needed to empty a queue of `n`. */
  function Passes(n: nat): nat {
    if n == 0 then 0 else 1 + Passes(n - Moved(n))
  }

  function Pow2(k: nat): nat {
    if k == 0 then 1 else 2 * Pow2(k - 1)
  }

  /** Logarithmically many: at most `k` passes exactly when there are fewer than 2^k items. */
  lemma {:induction false} PassesAreLogarithmic(n: nat, k: nat)
    ensures Passes(n) <= k <==> n < Pow2(k)
  {
    if n > 0 {
      assert n - Moved(n) == n / 2;
      if k > 0 {
        PassesAreLogarithmic(n / 2, k - 1);
      } else {
        assert Passes(n) >= 1;
      }
    } else {
      PowersArePositive(k);
    }
  }

  lemma {:induction false} PowersArePositive(k: nat)
    ensures Pow2(k) > 0
  {
    if k == 0 {
    } else {
      PowersArePositive(k - 1);
    }
  }

  // ----- runs of turns

  /** The turns can be taken from `w` in this order, and lead to `v`. */
  ghost predicate Leads<T>(w: Worker<T>, turns: seq<Turn>, stop: bool, v: Worker<T>)
    decreases |turns|
  {
    if turns == [] then v == w
    else Enabled(w, turns[0]) && Leads(Next(w, turns[0], stop), turns[1..], stop, v)
  }

  lemma {:induction false} LeadsOn<T>(u: Worker<T>, first: seq<Turn>, v: Worker<T>, second: seq<Turn>, w: Worker<T>,
                                      stop: bool)
    requires Leads(u, first, stop, v) && Leads(v, second, stop, w)
    ensures Leads(u, first + second, stop, w)
    decreases |first|
  {
    hide Enabled, Next;
    if first == [] {
      assert first + second == second;
    } else {
      LeadsOn(Next(u, first[0], stop), first[1..], v, second, w, stop);
      assert (first + second)[0] == first[0] && (first + second)[1..] == first[1..] + second;
    }
  }

  lemma OneTurnLeads<T>(w: Worker<T>, turn: Turn, stop: bool)
    requires Enabled(w, turn)
    ensures Leads(w, [turn], stop, Next(w, turn, stop))
  {
  }

  /** `on_notify` is called for one item and returns. */
  lemma DeliveryLeads<T>(w: Worker<T>, stop: bool)
    requires w.pc == Delivering && w.current == [] && w.items != []
    ensures Leads(w, [Take, Finish], stop, w.(delivered := w.delivered + [w.items[0]], items := w.items[1..]))
  {
    var taken := Next(w, Take, stop);
    OneTurnLeads(w, Take, stop);
    OneTurnLeads(taken, Finish, stop);
    LeadsOn(w, [Take], taken, [Finish], Next(taken, Finish, stop), stop);
    assert [Take] + [Finish] == [Take, Finish];
    assert Next(taken, Finish, stop) == w.(delivered := w.delivered + [w.items[0]], items := w.items[1..]);
  }

  /** The turns from the head of the loop to the drained queue. */
  function PassTurns(stop: bool): seq<Turn> {
    if stop then [CheckStop, CheckQueues, Drain] else [CheckStop, Drain]
  }

  /** They are taken when the stop is not up, or something is queued. */
  lemma PassLeads<T>(w: Worker<T>, stop: bool)
    requires w.pc == Head && w.items == [] && (stop ==> w.queue != [])
    ensures Leads(w, PassTurns(stop), stop, Next(w.(pc := Waking), Drain, stop))
  {
    var saw, waking := w.(pc := SawStop), w.(pc := Waking);
    OneTurnLeads(w, CheckStop, stop);
    OneTurnLeads(waking, Drain, stop);
    if stop {
      OneTurnLeads(saw, CheckQueues, stop);
      LeadsOn(saw, [CheckQueues], waking, [Drain], Next(waking, Drain, stop), stop);
      LeadsOn(w, [CheckStop], saw, [CheckQueues] + [Drain], Next(waking, Drain, stop), stop);
      assert [CheckStop] + ([CheckQueues] + [Drain]) == PassTurns(true);
    } else {
      LeadsOn(w, [CheckStop], waking, [Drain], Next(waking, Drain, stop), stop);
      assert [CheckStop] + [Drain] == PassTurns(false);
    }
  }

  /** From the head of the loop with the stop up and nothing queued, to the end. */
  lemma ExitLeads<T>(w: Worker<T>)
    requires w.pc == Head && w.items == [] && w.queue == []
    ensures Leads(w, [CheckStop, CheckQueues, Complete], true, w.(pc := Completed))
  {
    var saw, exiting := w.(pc := SawStop), w.(pc := Exiting);
    OneTurnLeads(w, CheckStop, true);
    OneTurnLeads(saw, CheckQueues, true);
    OneTurnLeads(exiting, Complete, true);
    LeadsOn(saw, [CheckQueues], exiting, [Complete], w.(pc := Completed), true);
    LeadsOn(w, [CheckStop], saw, [CheckQueues] + [Complete], w.(pc := Completed), true);
    assert [CheckStop] + ([CheckQueues] + [Complete]) == [CheckStop, CheckQueues, Complete];
  }

  lemma NoTurnLeads<T>(w: Worker<T>, stop: bool)
    ensures Leads(w, [], stop, w)
  {
  }

  lemma AgainLeads<T>(w: Worker<T>, stop: bool)
    requires w.pc == Delivering && w.current == [] && w.items == []
    ensures Leads(w, [Again], stop, w.(pc := Head))
  {
    OneTurnLeads(w, Again, stop);
  }

  /** Each pass at least halves what is not notified: first the items updated, then those notified. */
  ghost predicate Halving(marks: seq<(nat, nat)>) {
    forall i :: 0 < i < |marks| ==> 2 * marks[i].1 >= marks[i].0 + marks[i - 1].1
  }

  lemma HalvingPush(marks: seq<(nat, nat)>, m: (nat, nat))
    requires marks != [] && Halving(marks) && 2 * m.1 >= m.0 + marks[|marks| - 1].1
    ensures Halving(marks + [m])
  {
  }

  lemma HalvingStarts(m: (nat, nat))
    ensures Halving([m])
  {
  }

  lemma NothingJoined<T>(parts: seq<seq<T>>)
    ensures Joined(parts[..0]) == [] && parts[..|parts|] == parts
  {
  }

  lemma JoinedPush<T>(parts: seq<seq<T>>, i: nat)
    requires i < |parts|
    ensures Joined(parts[..i + 1]) == Joined(parts[..i]) + parts[i]
  {
    assert parts[..i + 1][..i] == parts[..i];
  }

  function Joined<T>(parts: seq<seq<T>>): seq<T> {
    if parts == [] then [] else Joined(parts[..|parts| - 1]) + parts[|parts| - 1]
  }

  class Queues<T(==)> {
    var items: seq<T>
    var protectedQueue: seq<T>
    var notified: seq<T>      // the calls of on_notify, in order
    var completions: nat      // the calls of on_completed
    ghost var log: seq<T>

    constructor ()
      ensures Valid() && log == [] && completions == 0 && AsWorker(Head) == Fresh()
    {
      items, protectedQueue, notified, completions, log := [], [], [], 0, [];
    }

    ghost predicate Valid()
      reads this
    {
      log == notified + items + protectedQueue
    }

    /** The worker in the state machine these queues stand for, between two deliveries. */
    ghost function AsWorker(pc: Pc): Worker<T>
      reads this
    {
      Worker(log, notified, [], items, protectedQueue, pc)
    }

    method Update(item: T)
      requires Valid()
      modifies this`protectedQueue, this`log
      ensures Valid() && log == old(log) + [item] && protectedQueue == old(protectedQueue) + [item]
      ensures forall pc :: AsWorker(pc) == Updated(old(AsWorker(pc)), item)
    {
      assert notified + items + (protectedQueue + [item]) == log + [item];
      protectedQueue := protectedQueue + [item];
      log := log + [item];
    }

    /** The counter goes up while the queue it is compared with gets shorter; it is the machine's turn. */
    method DrainPass()
      requires Valid()
      modifies this`items, this`protectedQueue
      ensures Valid()
      ensures items == old(items) + old(protectedQueue)[..Moved(|old(protectedQueue)|)]
      ensures protectedQueue == old(protectedQueue)[Moved(|old(protectedQueue)|)..]
      ensures forall stop :: AsWorker(Delivering) == Next(old(AsWorker(Waking)), Drain, stop)
    {
      ghost var queue := protectedQueue;
      var i := 0;
      while i < |protectedQueue|
        invariant 0 <= i <= |queue| && |protectedQueue| == |queue| - i && 2 * i <= |queue| + 1
        invariant items == old(items) + queue[..i] && protectedQueue == queue[i..]
        invariant Valid()
      {
        items := items + [protectedQueue[0]];
        protectedQueue := protectedQueue[1..];
        i := i + 1;
        assert queue == queue[..i] + queue[i..];
      }
    }

    /** One delivery: the item leaves the queue before `on_notify` is called with it. */
    method DeliverOne(ghost stop: bool)
      requires Valid() && items != []
      modifies this`items, this`notified
      ensures Valid() && items == old(items)[1..] && notified == old(notified) + [old(items)[0]]
      ensures Leads(old(AsWorker(Delivering)), [Take, Finish], stop, AsWorker(Delivering))
    {
      hide Leads;
      DeliveryLeads(AsWorker(Delivering), stop);
      var item := items[0];
      assert items == [item] + items[1..];
      items := items[1..];
      notified := notified + [item];
    }

    /** The machine's deliveries, one after the other, whatever the stop signal does meanwhile. */
    method DeliverAll(ghost stop: bool) returns (ghost turns: seq<Turn>)
      requires Valid()
      modifies this`items, this`notified
      ensures Valid() && items == [] && notified == old(notified) + old(items)
      ensures Leads(old(AsWorker(Delivering)), turns, stop, AsWorker(Delivering)) && |turns| == 2 * |old(items)|
    {
      hide Leads, Valid;
      ghost var all, k := items, 0;
      ghost var start := AsWorker(Delivering);
      turns := [];
      NoTurnLeads(start, stop);
      while |items| > 0
        invariant k <= |all| && items == all[k..] && notified + items == old(notified) + all
        invariant Valid()
        invariant Leads(start, turns, stop, AsWorker(Delivering)) && |turns| == 2 * k
      {
        ghost var before, delivered := AsWorker(Delivering), notified;
        DeliverOne(stop);
        LeadsOn(start, turns, before, [Take, Finish], AsWorker(Delivering), stop);
        turns := turns + [Take, Finish];
        assert notified + items == delivered + all[k..];
        k := k + 1;
      }
      assert notified + [] == notified;
    }

    /**
      The body of the worker's loop, entered while the stop future is not ready or something is
      queued: the first half of what is queued is notified, and the loop is at its head again.
     */
    method Pass(ghost stop: bool) returns (ghost turns: seq<Turn>)
      requires Valid() && items == [] && (stop ==> protectedQueue != [])
      modifies this`items, this`protectedQueue, this`notified
      ensures Valid() && items == [] && protectedQueue == old(protectedQueue)[Moved(|old(protectedQueue)|)..]
      ensures notified == old(notified) + old(protectedQueue)[..Moved(|old(protectedQueue)|)] && log == old(log)
      ensures Leads(old(AsWorker(Head)), turns, stop, AsWorker(Head))
    {
      hide Leads, Next;
      ghost var start := AsWorker(Head);
      PassLeads(start, stop);
      DrainPass();
      ghost var drained := AsWorker(Delivering);
      assert drained == Next(old(AsWorker(Waking)), Drain, stop);
      ghost var deliveries := DeliverAll(stop);
      ghost var delivered := AsWorker(Delivering);
      AgainLeads(delivered, stop);
      LeadsOn(drained, deliveries, delivered, [Again], AsWorker(Head), stop);
      turns := PassTurns(stop) + (deliveries + [Again]);
      LeadsOn(start, PassTurns(stop), drained, deliveries + [Again], AsWorker(Head), stop);
    }

    method UpdateAll(arrived: seq<T>)
      requires Valid()
      modifies this`protectedQueue, this`log
      ensures Valid() && log == old(log) + arrived && protectedQueue == old(protectedQueue) + arrived
    {
      for k := 0 to |arrived|
        invariant Valid() && log == old(log) + arrived[..k] && protectedQueue == old(protectedQueue) + arrived[..k]
      {
        Update(arrived[k]);
        assert arrived[..k + 1] == arrived[..k] + [arrived[k]];
      }
    }

    /**
      The worker's loop once the stop future is ready and nobody updates any more: a run of the
      machine from the head of its loop to completion.
     */
    method RunStopped() returns (passes: nat, ghost turns: seq<Turn>)
      requires Valid() && items == []
      modifies this
      ensures Valid() && items == [] && protectedQueue == []
      ensures log == old(log) && notified == log
      ensures passes == Passes(|old(protectedQueue)|)
      ensures completions == old(completions) + 1
      ensures Leads(old(AsWorker(Head)), turns, true, AsWorker(Completed))
    {
      hide Leads;
      ghost var start := AsWorker(Head);
      passes, turns := 0, [];
      NoTurnLeads(start, true);
      while |items| > 0 || |protectedQueue| > 0
        invariant Valid() && items == [] && log == old(log) && completions == old(completions)
        invariant passes + Passes(|protectedQueue|) == Passes(|old(protectedQueue)|)
        invariant Leads(start, turns, true, AsWorker(Head))
        decreases |protectedQueue|
      {
        ghost var here := AsWorker(Head);
        ghost var pass := Pass(true);
        LeadsOn(start, turns, here, pass, AsWorker(Head), true);
        turns := turns + pass;
        passes := passes + 1;
      }
      ExitLeads(AsWorker(Head));
      ghost var exit := [CheckStop, CheckQueues, Complete];
      LeadsOn(start, turns, AsWorker(Head), exit, AsWorker(Completed), true);
      turns := turns + exit;
      completions := completions + 1;
    }

    /** Some updates, and a pass with the stop future not ready. */
    method UpdatesThenPass(arrived: seq<T>)
      requires Valid() && items == []
      modifies this`items, this`protectedQueue, this`notified, this`log
      ensures Valid() && items == [] && log == old(log) + arrived
      ensures 2 * |notified| >= |log| + |old(notified)|
    {
      UpdateAll(arrived);
      ghost var queued := protectedQueue;
      assert |log| == |notified| + |queued|;
      ghost var turns := Pass(false);
    }

    /**
      The worker's thread: `arrivals` are the updates that come before each of the passes it makes
      until the stop future is ready. `marks` are the items updated and notified after each pass:
      every pass notifies of at least half of what is not notified by then.
     */
    method Run(arrivals: seq<seq<T>>) returns (ghost marks: seq<(nat, nat)>)
      requires Valid() && items == []
      modifies this
      ensures Valid() && items == [] && protectedQueue == [] && completions == old(completions) + 1
      ensures log == old(log) + Joined(arrivals) && notified == log
      ensures |marks| == |arrivals| + 1 && marks[0] == (|old(log)|, |old(notified)|) && Halving(marks)
      ensures forall i :: 0 <= i < |marks| ==> marks[i].0 == |old(log)| + |Joined(arrivals[..i])|
    {
      hide Valid, Joined, Halving, Passes, Leads;
      marks := [(|log|, |notified|)];
      NothingJoined(arrivals);
      HalvingStarts((|log|, |notified|));
      for i := 0 to |arrivals|
        invariant Valid() && items == [] && completions == old(completions) && |marks| == i + 1
        invariant log == old(log) + Joined(arrivals[..i]) && marks[i] == (|log|, |notified|)
        invariant marks[0] == (|old(log)|, |old(notified)|) && Halving(marks)
        invariant forall j :: 0 <= j <= i ==> marks[j].0 == |old(log)| + |Joined(arrivals[..j])|
      {
        ghost var before := log;
        UpdatesThenPass(arrivals[i]);
        JoinedPush(arrivals, i);
        assert log == old(log) + Joined(arrivals[..i + 1]);
        HalvingPush(marks, (|log|, |notified|));
        marks := marks + [(|log|, |notified|)];
      }
      var passes, turns := RunStopped();
    }
  }
}
