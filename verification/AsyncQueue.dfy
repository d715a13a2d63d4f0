/** The asynchronous transfers of the libusb wrapper as steps between lock releases: any
    threads submitting and cancelling, one worker, one thread handling events. */
module AsyncQueue {

  /** A submission: transfers are numbered in the order libusb_submit_transfer queued them, so a
      transfer submitted again from its callback is a new number. */
  type Id = nat

  /** Ran stands for whatever status the socket transfer came back with. */
  datatype Status = Ran | Cancelled

  /** What the worker has in hand: nothing; a transfer off the queue, with the cancelled flag it
      read; one that is run but not yet on the done queue; or the duty to write a wake-up. */
  datatype Worker = Idle | Holding(id: Id, cancelled: bool) | Finished(id: Id) | Waking

  /** The event thread: in poll; past the drain and before taking the done queue; or with the
      rest of a batch of callbacks to run. */
  datatype Events = Polling | Drained | Batch(list: seq<Id>)

  datatype State = State(
    submitted: seq<Id>,          // every submission, in order
    subq: seq<Id>, worker: Worker, doneq: seq<Id>, events: Events,
    pipe: nat,                   // wake-up bytes in the self-pipe
    called: seq<Id>,             // callbacks run, in order
    cancelled: set<Id>,          // flags set by libusb_cancel_transfer
    touched: set<Id>,            // transfers run on the socket
    status: map<Id, Status>)

  datatype Step = Submit | WorkerTake | WorkerRun | WorkerPush | WorkerWake | Cancel(id: Id) | Drain | Take | Callback | Rest

  function Init(): State {
    State([], [], Idle, [], Polling, 0, [], {}, {}, map[])
  }

  predicate Enabled(s: State, step: Step) {
    match step
    case Submit => true
    case WorkerTake => s.worker.Idle? && s.subq != []
    case WorkerRun => s.worker.Holding?
    case WorkerPush => s.worker.Finished?
    case WorkerWake => s.worker.Waking?
    case Cancel(id) => id < |s.submitted|
    case Drain => s.events.Polling?
    case Take => s.events.Drained?
    case Callback => s.events.Batch? && s.events.list != []
    case Rest => s.events.Batch? && s.events.list == []
  }

  /** A fresh context: nothing submitted, the worker idle, the event thread in poll, no wake-up
      written. A transfer can be submitted whatever the others are doing. */
  lemma Fresh(s: State)
    ensures var f := Init();
      && f.submitted == f.subq == f.doneq == f.called == [] && f.worker == Idle && f.events == Polling && f.pipe == 0
      && f.cancelled == f.touched == {} && f.status == map[]
    ensures Enabled(s, Submit)
  {}

  function Next(s: State, step: Step): State
    requires Enabled(s, step)
  {
    match step
    case Submit =>
      s.(submitted := s.submitted + [|s.submitted|], subq := s.subq + [|s.submitted|])
    case WorkerTake =>
      s.(subq := s.subq[1..], worker := Holding(s.subq[0], s.subq[0] in s.cancelled))
    case WorkerRun =>
      var id := s.worker.id;
      if s.worker.cancelled then s.(worker := Finished(id), status := s.status[id := Cancelled])
      else s.(worker := Finished(id), touched := s.touched + {id}, status := s.status[id := Ran])
    case WorkerPush =>
      s.(doneq := s.doneq + [s.worker.id], worker := Waking)
    case WorkerWake =>
      s.(pipe := s.pipe + 1, worker := Idle)
    case Cancel(id) =>
      if CancelFinds(s, id) then s.(cancelled := s.cancelled + {id}) else s
    case Drain =>
      s.(pipe := 0, events := Drained)
    case Take =>
      s.(events := Batch(s.doneq), doneq := [])
    case Callback =>
      s.(called := s.called + [s.events.list[0]], events := Batch(s.events.list[1..]))
    case Rest =>
      s.(events := Polling)
  }

  /** libusb_cancel_transfer answers NOT_FOUND once the callback was reached. */
  predicate CancelFinds(s: State, id: Id) {
    id !in s.called
  }

  function InHand(w: Worker): seq<Id> {
    if w.Holding? || w.Finished? then [w.id] else []
  }

  function InBatch(e: Events): seq<Id> {
    if e.Batch? then e.list else []
  }

  // ---- conservation ------------------------------------------------------------------

  /** Where every submission is, oldest first. */
  function Pipeline(s: State): seq<Id> {
    s.called + InBatch(s.events) + s.doneq + InHand(s.worker) + s.subq
  }

  ghost predicate Ordered(s: State) {
    && Pipeline(s) == s.submitted
    && forall i :: 0 <= i < |s.submitted| ==> s.submitted[i] == i
  }

  lemma WorkerOrdered(s: State, step: Step)
    requires Ordered(s) && Enabled(s, step) && (step.WorkerTake? || step.WorkerRun? || step.WorkerPush? || step.WorkerWake?)
    ensures Ordered(Next(s, step))
  {
    var called := s.called + InBatch(s.events);
    PipelineIs(s);
    PipelineIs(Next(s, step));
    if step.WorkerTake? {
      assert InHand(s.worker) + s.subq == [s.subq[0]] + s.subq[1..];
    } else if step.WorkerPush? {
      Pushed(called, s.doneq, InHand(s.worker), s.subq);
    }
  }

  lemma Pushed(called: seq<Id>, doneq: seq<Id>, hand: seq<Id>, subq: seq<Id>)
    ensures called + (doneq + hand) + ([] + subq) == called + doneq + (hand + subq)
  {}

  lemma Called(called: seq<Id>, list: seq<Id>, doneq: seq<Id>, later: seq<Id>)
    requires list != []
    ensures called + [list[0]] + list[1..] + doneq + later == called + list + doneq + later
  {
    assert list == [list[0]] + list[1..];
    assert called + [list[0]] + list[1..] == called + list;
  }

  lemma EventsOrdered(s: State, step: Step)
    requires Ordered(s) && Enabled(s, step) && (step.Drain? || step.Take? || step.Callback? || step.Rest?)
    ensures Ordered(Next(s, step))
  {
    PipelineIs(s);
    PipelineIs(Next(s, step));
    if step.Callback? {
      Called(s.called, s.events.list, s.doneq, InHand(s.worker) + s.subq);
    } else if step.Take? {
      assert s.called + [] + s.doneq == s.called + s.doneq + [];
    }
  }

  lemma PipelineIs(s: State)
    ensures Pipeline(s) == (s.called + InBatch(s.events)) + s.doneq + (InHand(s.worker) + s.subq)
  {}

  lemma StepOrdered(s: State, step: Step)
    requires Ordered(s) && Enabled(s, step)
    ensures Ordered(Next(s, step))
  {
    if step.Submit? {
      assert Pipeline(Next(s, step)) == Pipeline(s) + [|s.submitted|];
    } else if step.WorkerTake? || step.WorkerRun? || step.WorkerPush? || step.WorkerWake? {
      WorkerOrdered(s, step);
    } else if !step.Cancel? {
      EventsOrdered(s, step);
    }
  }

  // ---- wake-ups ----------------------------------------------------------------------

  /** Nothing waits on the done queue unnoticed. */
  ghost predicate Noticed(s: State) {
    s.doneq != [] ==> s.pipe > 0 || s.worker.Waking? || s.events.Drained?
  }

  lemma StepNoticed(s: State, step: Step)
    requires Noticed(s) && Enabled(s, step)
    ensures Noticed(Next(s, step))
  {}

  // ---- cancellation ------------------------------------------------------------------

  ghost predicate Flags(s: State) {
    && (forall id :: id in s.touched ==> id < |s.submitted| && id !in s.subq)
    && (s.worker.Holding? ==> s.worker.id !in s.touched)
    && (s.worker.Finished? ==> Reported(s, s.worker.id))
    && (forall id :: id in s.doneq || id in InBatch(s.events) || id in s.called ==> Reported(s, id))
  }

  /** The status says whether the transfer reached the socket. */
  ghost predicate Reported(s: State, id: Id) {
    id in s.status && (s.status[id] == Ran <==> id in s.touched)
  }

  /** In a list that counts up from 0, its parts hold the numbers they cover. */
  lemma Apart(a: seq<Id>, b: seq<Id>, c: seq<Id>, id: Id)
    requires forall i :: 0 <= i < |a + b + c| ==> (a + b + c)[i] == i
    ensures id in a <==> id < |a|
    ensures id in b <==> |a| <= id < |a| + |b|
    ensures id in c <==> |a| + |b| <= id < |a| + |b| + |c|
  {
    var p := a + b + c;
    assert forall i :: 0 <= i < |a| ==> a[i] == p[i];
    assert forall i :: 0 <= i < |b| ==> b[i] == p[|a| + i];
    assert forall i :: 0 <= i < |c| ==> c[i] == p[|a| + |b| + i];
    if id < |p| {
      assert p[id] == id;
    }
  }

  lemma Placed(s: State, id: Id)
    requires Ordered(s)
    ensures id in Pipeline(s) ==> id < |s.submitted|
    ensures id in s.subq ==> id !in s.called && id !in InBatch(s.events) && id !in s.doneq && id !in InHand(s.worker)
    ensures id in InHand(s.worker) ==> id !in s.called && id !in InBatch(s.events) && id !in s.doneq
  {
    Apart(s.called + InBatch(s.events) + s.doneq, InHand(s.worker), s.subq, id);
  }

  ghost predicate Inv(s: State) {
    Ordered(s) && Noticed(s) && Flags(s)
  }

  lemma TakeFlags(s: State)
    requires Inv(s) && Enabled(s, WorkerTake)
    ensures Flags(Next(s, WorkerTake))
  {
    assert s.subq[0] in s.subq;
    forall id | id in s.subq[1..] ensures id in s.subq {}
  }

  lemma RunFlags(s: State)
    requires Inv(s) && Enabled(s, WorkerRun)
    ensures Flags(Next(s, WorkerRun))
  {
    var t, id := Next(s, WorkerRun), s.worker.id;
    Placed(s, id);
    assert id in InHand(s.worker) && InHand(s.worker)[0] == id;
    assert id in Pipeline(s);
    forall k | k in t.touched ensures k < |t.submitted| && k !in t.subq {
      if k != id {
        assert k in s.touched;
      }
    }
    forall k | k in t.doneq || k in InBatch(t.events) || k in t.called ensures Reported(t, k) {
      assert Reported(s, k) && k != id;
    }
  }

  lemma EventFlags(s: State, step: Step)
    requires Inv(s) && Enabled(s, step) && !step.WorkerTake? && !step.WorkerRun?
    ensures Flags(Next(s, step))
  {
    var t := Next(s, step);
    forall id | id in t.doneq || id in InBatch(t.events) || id in t.called ensures Reported(t, id) {
      assert Reported(s, id);
    }
  }

  lemma StepInv(s: State, step: Step)
    requires Inv(s) && Enabled(s, step)
    ensures Inv(Next(s, step))
  {
    StepOrdered(s, step);
    StepNoticed(s, step);
    if step.WorkerTake? {
      TakeFlags(s);
    } else if step.WorkerRun? {
      RunFlags(s);
    } else {
      EventFlags(s, step);
    }
  }

  ghost predicate Runs(s: State, steps: seq<Step>)
    decreases |steps|
  {
    steps == [] || (Enabled(s, steps[0]) && Runs(Next(s, steps[0]), steps[1..]))
  }

  ghost function Run(s: State, steps: seq<Step>): State
    requires Runs(s, steps)
    decreases |steps|
  {
    if steps == [] then s else Run(Next(s, steps[0]), steps[1..])
  }

  lemma {:induction false} RunInv(s: State, steps: seq<Step>)
    requires Inv(s) && Runs(s, steps)
    ensures Inv(Run(s, steps))
    decreases |steps|
  {
    if steps != [] {
      StepInv(s, steps[0]);
      RunInv(Next(s, steps[0]), steps[1..]);
    }
  }

  /** Over every interleaving: callbacks run, batch in hand, done queue, transfer in flight and
      submit queue are the submissions in order, and no wake-up is lost. */
  lemma EveryRun(steps: seq<Step>)
    requires Runs(Init(), steps)
    ensures var s := Run(Init(), steps); Pipeline(s) == s.submitted && Noticed(s)
  {
    RunInv(Init(), steps);
  }

  /** When nothing is left anywhere, every submission has had its callback, once and in order. */
  lemma QuietMeansAllCalled(steps: seq<Step>)
    requires Runs(Init(), steps)
    requires var s := Run(Init(), steps);
      s.subq == [] && s.worker.Idle? && s.pipe == 0 && s.events.Polling?
    ensures Run(Init(), steps).called == Run(Init(), steps).submitted
  {
    EveryRun(steps);
  }

  /** A transfer cancelled while it was queued: it keeps off the socket wherever it is. */
  ghost predicate Spared(s: State, id: Id) {
    && id < |s.submitted| && id !in s.touched
    && (id in s.subq ==> id in s.cancelled)
    && (s.worker.Holding? && s.worker.id == id ==> s.worker.cancelled)
  }

  lemma StepSpared(s: State, step: Step, id: Id)
    requires Inv(s) && Enabled(s, step) && Spared(s, id)
    ensures Spared(Next(s, step), id)
  {
    if step.WorkerTake? && s.subq[0] == id {
      assert id in s.subq;
    }
  }

  lemma {:induction false} RunSpared(s: State, steps: seq<Step>, id: Id)
    requires Inv(s) && Runs(s, steps) && Spared(s, id)
    ensures Spared(Run(s, steps), id)
    decreases |steps|
  {
    if steps != [] {
      StepInv(s, steps[0]);
      StepSpared(s, steps[0], id);
      RunSpared(Next(s, steps[0]), steps[1..], id);
    }
  }

  /** Cancelling a queued transfer succeeds, the transfer never reaches the socket, whatever
      happens next, and if its callback runs it reads CANCELLED. */
  lemma CancelledWhileQueued(before: seq<Step>, id: Id, after: seq<Step>)
    requires Runs(Init(), before)
    requires var s := Run(Init(), before); id in s.subq && id < |s.submitted| && Runs(Next(s, Cancel(id)), after)
    ensures var s := Run(Init(), before); var t := Run(Next(s, Cancel(id)), after);
      CancelFinds(s, id) && id !in t.touched && (id in t.called ==> id in t.status && t.status[id] == Cancelled)
  {
    RunInv(Init(), before);
    var s := Run(Init(), before);
    Placed(s, id);
    StepInv(s, Cancel(id));
    assert id !in s.touched;
    assert Spared(Next(s, Cancel(id)), id);
    RunSpared(Next(s, Cancel(id)), after, id);
    RunInv(Next(s, Cancel(id)), after);
    var t := Run(Next(s, Cancel(id)), after);
    if id in t.called {
      assert Reported(t, id);
    }
  }

  /** Cancelling does nothing to a transfer the worker took before the flag was set. */
  lemma CancelInFlight(s: State, id: Id)
    requires Inv(s) && s.worker == Holding(id, false) && id < |s.submitted|
    ensures var t := Next(Next(s, Cancel(id)), WorkerRun); CancelFinds(s, id) && id in t.touched && t.status[id] == Ran
  {
    Placed(s, id);
    assert InHand(s.worker)[0] == id;
  }

  lemma OneStep(s: State, step: Step, steps: seq<Step>)
    requires Enabled(s, step) && steps == [step]
    ensures Runs(s, steps) && Run(s, steps) == Next(s, step)
  {
    assert steps[1..] == [];
  }

  lemma Reaches(c: State, id: Id, steps: seq<Step>)
    requires Runs(c, steps) && id in Run(c, steps).touched
    ensures !forall after :: Runs(c, after) ==> id !in Run(c, after).touched
  {}

  /** A cancel of a transfer that has not reached the socket keeps it off, whatever happens
      next, if and only if the worker has not taken it with its flag unset. */
  lemma CancelSparesIff(before: seq<Step>, id: Id)
    requires Runs(Init(), before)
    requires var s := Run(Init(), before); id < |s.submitted| && id !in s.touched
    ensures var s := Run(Init(), before); var c := Next(s, Cancel(id));
      (forall after :: Runs(c, after) ==> id !in Run(c, after).touched) <==> s.worker != Holding(id, false)
  {
    RunInv(Init(), before);
    var s := Run(Init(), before);
    var c := Next(s, Cancel(id));
    StepInv(s, Cancel(id));
    Placed(s, id);
    if s.worker == Holding(id, false) {
      CancelInFlight(s, id);
      var one := [WorkerRun];
      OneStep(c, WorkerRun, one);
      Reaches(c, id, one);
    } else {
      forall after | Runs(c, after) ensures id !in Run(c, after).touched {
        RunSpared(c, after, id);
      }
    }
  }

  /** The flag the worker read, and the CANCELLED it reports, come from a cancel. */
  ghost predicate Meant(s: State) {
    && (s.worker.Holding? && s.worker.cancelled ==> s.worker.id in s.cancelled)
    && (forall id :: id in s.status && s.status[id] == Cancelled ==> id in s.cancelled)
  }

  lemma {:induction false} RunMeant(s: State, steps: seq<Step>)
    requires Meant(s) && Runs(s, steps)
    ensures Meant(Run(s, steps))
    decreases |steps|
  {
    if steps != [] {
      RunMeant(Next(s, steps[0]), steps[1..]);
    }
  }

  /** Where a submission can be. */
  lemma Somewhere(s: State, id: Id)
    requires Ordered(s) && id < |s.submitted|
    ensures id in s.called || id in InBatch(s.events) || id in s.doneq || id in InHand(s.worker) || id in s.subq
  {
    assert Pipeline(s)[id] == id;
    PipelineIs(s);
    assert id in Pipeline(s);
  }

  /** So the first cancel of a transfer keeps it off the socket if and only if the transfer is
      still queued. */
  lemma FirstCancelSparesIff(before: seq<Step>, id: Id)
    requires Runs(Init(), before)
    requires var s := Run(Init(), before); id < |s.submitted| && id !in s.cancelled
    ensures var s := Run(Init(), before); var c := Next(s, Cancel(id));
      (forall after :: Runs(c, after) ==> id !in Run(c, after).touched) <==> id in s.subq
  {
    RunInv(Init(), before);
    RunMeant(Init(), before);
    var s := Run(Init(), before);
    var c := Next(s, Cancel(id));
    Placed(s, id);
    Somewhere(s, id);
    if id in s.touched {
      var none: seq<Step> := [];
      assert Run(c, none) == c && c.touched == s.touched;
      Reaches(c, id, none);
    } else {
      CancelSparesIff(before, id);
      OnlyQueued(s, id);
    }
  }

  lemma OnlyQueued(s: State, id: Id)
    requires Inv(s) && Meant(s) && id < |s.submitted| && id !in s.touched && id !in s.cancelled
    ensures id in s.subq <==> s.worker != Holding(id, false)
  {
    Somewhere(s, id);
    Placed(s, id);
    if s.worker.Finished? || s.worker.Holding? {
      assert InHand(s.worker) == [s.worker.id];
    }
  }

  // ---- the lock sections -------------------------------------------------------------------

  /** The fields of a context, changed by each section as the source changes them. */
  class Context {
    var subq: seq<Id>
    var doneq: seq<Id>
    var pipe: nat
    var cancelled: set<Id>
    var called: seq<Id>
    var worker: Worker
    var events: Events
    ghost var submitted: seq<Id>
    ghost var touched: set<Id>
    var status: map<Id, Status>
    var count: nat

    ghost function View(): State
      reads this
    {
      State(submitted, subq, worker, doneq, events, pipe, called, cancelled, touched, status)
    }

    ghost predicate Valid()
      reads this
    {
      count == |submitted|
    }

    constructor ()
      ensures Valid() && View() == Init()
    {
      subq, doneq, pipe, cancelled, called, worker, events := [], [], 0, {}, [], Idle, Polling;
      submitted, touched, status, count := [], {}, map[], 0;
    }

    method SubmitTransfer() returns (id: Id)
      requires Valid()
      modifies this`subq, this`submitted, this`count
      ensures Valid() && View() == Next(old(View()), Submit) && id == old(count)
    {
      id := count;
      subq := subq + [id];
      submitted := submitted + [id];
      count := count + 1;
    }

    /** One transfer by the worker, with nothing between its steps. */
    method WorkerTurn() returns (worked: bool)
      requires Valid() && worker.Idle?
      modifies this`subq, this`worker, this`status, this`touched, this`doneq, this`pipe
      ensures Valid() && worker.Idle? && worked == (old(subq) != [])
      ensures worked ==> IsTurn(old(View()), View())
      ensures !worked ==> View() == old(View())
    {
      if |subq| == 0 {
        return false;
      }
      ghost var s0 := View();
      var id, flag := subq[0], subq[0] in cancelled;
      subq := subq[1..];
      if flag {
        status := status[id := Cancelled];
      } else {
        touched := touched + {id};
        status := status[id := Ran];
      }
      doneq := doneq + [id];
      pipe := pipe + 1;
      worked := true;
      FourSteps(s0);
    }

    /** handle_events, with nothing between its steps: every finished transfer is called back. */
    method HandleEvents()
      requires Valid() && events.Polling?
      modifies this`pipe, this`events, this`doneq, this`called
      ensures Valid() && events.Polling? && pipe == 0 && doneq == []
      ensures called == old(called) + old(doneq) && Pipeline(View()) == old(Pipeline(View()))
    {
      ghost var p := Pipeline(View());
      pipe := 0;
      var list := doneq;
      doneq := [];
      events := Batch(list);
      assert Pipeline(View()) == p;
      while |list| > 0
        invariant events == Batch(list) && doneq == [] && pipe == 0 && Valid()
        invariant called + list == old(called) + old(doneq) && Pipeline(View()) == p
      {
        ghost var was := called;
        called := called + [list[0]];
        assert called + list[1..] == was + list;
        list := list[1..];
        events := Batch(list);
        assert Pipeline(View()) == p;
      }
      events := Polling;
      assert Pipeline(View()) == p;
    }

    method CancelTransfer(id: Id) returns (found: bool)
      requires Valid() && id < count
      modifies this`cancelled
      ensures Valid() && View() == Next(old(View()), Cancel(id)) && found == CancelFinds(old(View()), id)
    {
      found := id !in called;
      if found {
        cancelled := cancelled + {id};
      }
    }
  }

  /** Four worker steps lead from `s` to `t`. */
  ghost predicate IsTurn(s: State, t: State) {
    var steps := [WorkerTake, WorkerRun, WorkerPush, WorkerWake];
    Runs(s, steps) && t == Run(s, steps)
  }

  lemma FourSteps(s: State)
    requires s.worker.Idle? && s.subq != []
    ensures Runs(s, [WorkerTake, WorkerRun, WorkerPush, WorkerWake])
    ensures var id, flag := s.subq[0], s.subq[0] in s.cancelled;
      Run(s, [WorkerTake, WorkerRun, WorkerPush, WorkerWake])
      == s.(subq := s.subq[1..], doneq := s.doneq + [id], pipe := s.pipe + 1,
            status := s.status[id := if flag then Cancelled else Ran],
            touched := if flag then s.touched else s.touched + {id}, worker := Idle)
  {
    var a := Next(s, WorkerTake);
    var b := Next(a, WorkerRun);
    var c := Next(b, WorkerPush);
    assert [WorkerTake, WorkerRun, WorkerPush, WorkerWake][1..] == [WorkerRun, WorkerPush, WorkerWake];
    assert [WorkerRun, WorkerPush, WorkerWake][1..] == [WorkerPush, WorkerWake];
    assert [WorkerPush, WorkerWake][1..] == [WorkerWake];
    assert [WorkerWake][1..] == [];
    assert Run(c, [WorkerWake]) == Next(c, WorkerWake);
    assert Run(b, [WorkerPush, WorkerWake]) == Run(c, [WorkerWake]);
    assert Run(a, [WorkerRun, WorkerPush, WorkerWake]) == Run(b, [WorkerPush, WorkerWake]);
  }
}
