/** `async_offload`: a blocking task and any number of cancellations race for one completion
    handler. The shared `OffloadState` as a class, its steps on values, and exactly-once delivery
    over every interleaving of the two threads. */
module Offloading {
  import opened Options

  datatype Exn = Aborted | Raised(what: string)

  /** The arguments of one handler call; the handler of the void branch takes `ep` only. */
  datatype Delivery<+R> = Delivery(ep: Option<Exn>, result: Option<R>)

  /** Progress of the lambda posted to the blocking executor: not started; inside `func`; `ep` and
      `result` written; completion posted back. */
  datatype Stage = Queued | Running | Written | Posted

  datatype Task = CancelCompletion | FinalCompletion

  datatype State<R> = State(
    isVoid: bool,
    slotConnected: bool,
    cancelled: bool,
    completed: bool,
    handler: bool,
    ep: Option<Exn>,
    result: Option<R>,
    stage: Stage,
    ioQueue: seq<Task>,
    // Closures that have done their work and are not destroyed yet.
    ending: nat,
    deliveries: seq<Delivery<R>>,
    // What `func` did, for the statements only; and whether an empty optional was dereferenced.
    funcRuns: nat,
    returned: Option<R>,
    thrown: Option<Exn>,
    undefined: bool)

  datatype Event<R> =
    | CancelSignal
    | LoadCancelled(seen: bool)
    | FuncReturns(value: R)
    | FuncThrows(exn: Exn)
    | PostCompletion
    | RunTask(i: nat)
    | ClosureEnds

  /** The state right after initiation. */
  function Initiated<R>(isVoid: bool, slotConnected: bool): State<R> {
    State(isVoid, slotConnected, false, false, true, None, None, Queued, [], 0, [], 0, None, None, false)
  }

  /** Some closure still holds a shared pointer, so a weak one can be locked. */
  predicate Alive<R>(s: State<R>) {
    s.stage != Posted || s.ioQueue != [] || s.ending > 0
  }

  /** The relaxed load may miss a store but never invents one. */
  predicate Enabled<R>(s: State<R>, e: Event<R>) {
    match e
    case CancelSignal => true
    case LoadCancelled(seen) => s.stage == Queued && (seen ==> s.cancelled)
    case FuncReturns(_) => s.stage == Running
    case FuncThrows(_) => s.stage == Running
    case PostCompletion => s.stage == Written
    case RunTask(i) => i < |s.ioQueue|
    case ClosureEnds => s.ending > 0
  }

  /** Moving the handler out and calling it. */
  function Deliver<R>(s: State<R>, d: Delivery<R>): State<R> {
    if s.handler then s.(handler := false, deliveries := s.deliveries + [d])
    else s.(undefined := true)
  }

  function AfterTask<R>(s: State<R>, task: Task): State<R> {
    if s.completed then s
    else
      var t := s.(completed := true);
      match task
      case CancelCompletion => if !t.handler then t else Deliver(t, Delivery(Some(Aborted), None))
      case FinalCompletion => Deliver(t, Delivery(t.ep, t.result))
  }

  function Step<R>(s: State<R>, e: Event<R>): State<R>
    requires Enabled(s, e)
  {
    match e
    case CancelSignal =>
      if s.slotConnected && Alive(s) then s.(cancelled := true, ioQueue := s.ioQueue + [CancelCompletion]) else s
    case LoadCancelled(seen) =>
      if seen then s.(ep := Some(Aborted), stage := Written)
      else s.(stage := Running, funcRuns := s.funcRuns + 1)
    case FuncReturns(v) =>
      s.(result := if s.isVoid then None else Some(v), returned := Some(v), stage := Written)
    case FuncThrows(x) =>
      s.(ep := Some(x), thrown := Some(x), stage := Written)
    case PostCompletion =>
      s.(stage := Posted, ioQueue := s.ioQueue + [FinalCompletion], ending := s.ending + 1)
    case RunTask(i) =>
      AfterTask(s.(ioQueue := s.ioQueue[..i] + s.ioQueue[i + 1..], ending := s.ending + 1), s.ioQueue[i])
    case ClosureEnds => s.(ending := s.ending - 1)
  }

  predicate Legal<R>(s: State<R>, es: seq<Event<R>>)
    decreases |es|
  {
    es == [] || (Enabled(s, es[0]) && Legal(Step(s, es[0]), es[1..]))
  }

  function Run<R>(s: State<R>, es: seq<Event<R>>): State<R>
    requires Legal(s, es)
    decreases |es|
  {
    if es == [] then s else Run(Step(s, es[0]), es[1..])
  }

  /** How the suspended coroutine resumes from a delivery: it rethrows, or dereferences the result. */
  datatype Resumption<+R> = Throws(exn: Exn) | ReturnsVoid | ReturnsValue(value: R) | Undefined

  function Resume<R>(isVoid: bool, d: Delivery<R>): Resumption<R> {
    if d.ep.Some? then Throws(d.ep.value)
    else if isVoid then ReturnsVoid
    else if d.result.Some? then ReturnsValue(d.result.value)
    else Undefined
  }

  // The mutable state and the closures that share it

  class OffloadState<R> {
    const isVoid: bool
    const slotConnected: bool
    var cancelled: bool
    var completed: bool
    var handler: bool
    var ep: Option<Exn>
    var result: Option<R>
    var deliveries: seq<Delivery<R>>
    var stage: Stage
    var ioQueue: seq<Task>
    var ending: nat
    ghost var funcRuns: nat
    ghost var returned: Option<R>
    ghost var thrown: Option<Exn>

    ghost function View(): State<R>
      reads this
    {
      State(isVoid, slotConnected, cancelled, completed, handler, ep, result, stage, ioQueue, ending, deliveries,
            funcRuns, returned, thrown, false)
    }

    constructor (isVoid: bool, slotConnected: bool)
      ensures View() == Initiated(isVoid, slotConnected)
    {
      this.isVoid, this.slotConnected := isVoid, slotConnected;
      cancelled, completed, handler := false, false, true;
      ep, result, deliveries := None, None, [];
      stage, ioQueue, ending := Queued, [], 0;
      funcRuns, returned, thrown := 0, None, None;
    }

    /** The cancellation slot's handler, if one was assigned: it first locks the weak pointer. */
    method Cancel()
      modifies this
      ensures View() == Step(old(View()), CancelSignal)
    {
      if !slotConnected {
        return;
      }
      var locked := stage != Posted || ioQueue != [] || ending > 0;
      if locked {
        cancelled := true;
        ioQueue := ioQueue + [CancelCompletion];
      }
    }

    /** The first half of the blocking lambda: the relaxed load decides whether to run `func`. */
    method Start(seen: bool) returns (run: bool)
      requires Enabled(View(), LoadCancelled(seen))
      modifies this
      ensures run == !seen
      ensures View() == Step(old(View()), LoadCancelled(seen))
    {
      if !seen {
        stage := Running;
        funcRuns := funcRuns + 1;
        return true;
      }
      ep := Some(Aborted);
      stage := Written;
      return false;
    }

    /** `func` returned. */
    method Store(v: R)
      requires Enabled(View(), FuncReturns(v))
      modifies this
      ensures View() == Step(old(View()), FuncReturns(v))
    {
      if !isVoid {
        result := Some(v);
      } else {
        result := None;
      }
      returned := Some(v);
      stage := Written;
    }

    /** `func` threw. */
    method StoreException(x: Exn)
      requires Enabled(View(), FuncThrows(x))
      modifies this
      ensures View() == Step(old(View()), FuncThrows(x))
    {
      ep := Some(x);
      thrown := Some(x);
      stage := Written;
    }

    method Post()
      requires Enabled(View(), PostCompletion)
      modifies this
      ensures View() == Step(old(View()), PostCompletion)
    {
      ioQueue := ioQueue + [FinalCompletion];
      stage := Posted;
      ending := ending + 1;
    }

    /** A closure is destroyed, with its share of the state. */
    method EndClosure()
      requires Enabled(View(), ClosureEnds)
      modifies this
      ensures View() == Step(old(View()), ClosureEnds)
    {
      ending := ending - 1;
    }

    method TakeTask(i: nat) returns (task: Task)
      requires i < |ioQueue|
      modifies this`ioQueue, this`ending
      ensures task == old(ioQueue[i]) && ioQueue == old(ioQueue[..i] + ioQueue[i + 1..]) && ending == old(ending) + 1
    {
      task := ioQueue[i];
      ending := ending + 1;
      ioQueue := ioQueue[..i] + ioQueue[i + 1..];
    }

    /** `completed.exchange(true)`. */
    method Exchange() returns (before: bool)
      modifies this`completed
      ensures before == old(completed) && completed
    {
      before := completed;
      completed := true;
    }

    /** The completion posted by a cancellation. */
    method CompleteCancelled(i: nat)
      requires i < |ioQueue| && ioQueue[i] == CancelCompletion
      modifies this
      ensures View() == Step(old(View()), RunTask(i))
    {
      var _ := TakeTask(i);
      var before := Exchange();
      if before {
        return;
      }
      if !handler {
        return;
      }
      handler := false;
      deliveries := deliveries + [Delivery(Some(Aborted), None)];
    }

    /** The completion posted by the blocking lambda. It dereferences the handler slot, so it must
        be there when no completion has run. */
    method CompleteFinal(i: nat)
      requires i < |ioQueue| && ioQueue[i] == FinalCompletion
      requires !completed ==> handler
      modifies this
      ensures View() == Step(old(View()), RunTask(i))
    {
      var _ := TakeTask(i);
      var before := Exchange();
      if before {
        return;
      }
      handler := false;
      deliveries := deliveries + [Delivery(ep, result)];
    }
  }

  // Invariants

  /** The handler is gone exactly when a completion has won, it was called that often, and the final
      completion is queued, or has already run, once it is posted. */
  ghost predicate HandlerOnce<R>(s: State<R>) {
    && (s.completed <==> !s.handler)
    && |s.deliveries| == (if s.completed then 1 else 0)
    && !s.undefined
    && (FinalCompletion in s.ioQueue ==> s.stage == Posted)
    && (s.stage == Posted && FinalCompletion !in s.ioQueue ==> s.completed)
  }

  /** `ep` and `result` against what `func` did. */
  ghost predicate OutcomeStored<R>(s: State<R>) {
    && (s.stage == Queued ==> s.funcRuns == 0)
    && (s.stage == Queued || s.stage == Running ==> s.ep == None && s.returned == None && s.thrown == None)
    && (s.stage == Written || s.stage == Posted ==>
      || (s.ep == Some(Aborted) && s.cancelled && s.funcRuns == 0 && s.returned == None && s.thrown == None)
      || (s.ep == s.thrown && s.thrown.Some? && s.returned == None)
      || (s.ep == None && s.thrown == None && s.returned.Some?))
    && s.result == (if s.isVoid then None else s.returned)
    && s.funcRuns <= 1
  }

  /** A delivery is a cancellation, or `func`'s own outcome made after the blocking task finished. */
  ghost predicate DeliveredRight<R>(s: State<R>) {
    forall d :: d in s.deliveries ==>
      || (d == Delivery(Some(Aborted), None) && s.cancelled)
      || (s.stage == Posted && d == Delivery(s.ep, s.result))
  }

  lemma StepKeepsHandlerOnce<R>(s: State<R>, e: Event<R>)
    requires HandlerOnce(s) && Enabled(s, e)
    ensures HandlerOnce(Step(s, e))
  {
    if e.RunTask? {
      var i := e.i;
      assert s.ioQueue == s.ioQueue[..i] + [s.ioQueue[i]] + s.ioQueue[i + 1..];
    }
  }

  lemma StepKeepsOutcome<R>(s: State<R>, e: Event<R>)
    requires OutcomeStored(s) && HandlerOnce(s) && DeliveredRight(s) && Enabled(s, e)
    requires CancelCompletion in s.ioQueue ==> s.cancelled
    ensures var t := Step(s, e);
            OutcomeStored(t) && DeliveredRight(t) && (CancelCompletion in t.ioQueue ==> t.cancelled)
  {
    if e.RunTask? {
      var i := e.i;
      assert s.ioQueue[i] in s.ioQueue;
      assert s.ioQueue == s.ioQueue[..i] + [s.ioQueue[i]] + s.ioQueue[i + 1..];
    }
  }

  ghost predicate Invariant<R>(s: State<R>) {
    && HandlerOnce(s) && OutcomeStored(s) && DeliveredRight(s)
    && (CancelCompletion in s.ioQueue ==> s.cancelled)
  }

  lemma StepKeepsInvariant<R>(s: State<R>, e: Event<R>)
    requires Invariant(s) && Enabled(s, e)
    ensures Invariant(Step(s, e)) && Step(s, e).isVoid == s.isVoid
  {
    StepKeepsHandlerOnce(s, e);
    StepKeepsOutcome(s, e);
  }

  lemma {:induction false} RunKeepsInvariant<R>(s: State<R>, es: seq<Event<R>>)
    requires Invariant(s) && Legal(s, es)
    ensures Invariant(Run(s, es)) && Run(s, es).isVoid == s.isVoid
    decreases |es|
  {
    if es != [] {
      StepKeepsInvariant(s, es[0]);
      RunKeepsInvariant(Step(s, es[0]), es[1..]);
    }
  }

  // Theorems over every run

  /** On every run the handler is called at most once, nothing empty is dereferenced, and the
      handler is gone exactly when it was called; an expired weak pointer means it was. */
  lemma AtMostOneDelivery<R>(isVoid: bool, connected: bool, es: seq<Event<R>>)
    requires Legal(Initiated(isVoid, connected), es)
    ensures var s := Run(Initiated(isVoid, connected), es);
            && |s.deliveries| <= 1 && !s.undefined
            && (s.handler <==> s.deliveries == []) && (s.completed <==> |s.deliveries| == 1)
            && (!Alive(s) ==> |s.deliveries| == 1)
  {
    RunKeepsInvariant(Initiated(isVoid, connected), es);
  }

  /** The work left: each step other than a new cancellation uses some of it up. */
  function Work<R>(s: State<R>): nat {
    2 * |s.ioQueue| + s.ending + match s.stage
                                 case Queued => 6
                                 case Running => 5
                                 case Written => 4
                                 case Posted => 0
  }

  function Cancels<R>(es: seq<Event<R>>): nat {
    if es == [] then 0 else (if es[0].CancelSignal? then 1 else 0) + Cancels(es[1..])
  }

  lemma StepUsesWork<R>(s: State<R>, e: Event<R>)
    requires Enabled(s, e)
    ensures Work(Step(s, e)) <= Work(s) + if e.CancelSignal? then 2 else -1
  {
  }

  lemma {:induction false} WorkRunsOut<R>(s: State<R>, es: seq<Event<R>>)
    requires Legal(s, es)
    ensures |es| + Work(Run(s, es)) <= Work(s) + 3 * Cancels(es)
    decreases |es|
  {
    if es != [] {
      StepUsesWork(s, es[0]);
      WorkRunsOut(Step(s, es[0]), es[1..]);
    }
  }

  lemma WorkIsEnabled<R>(s: State<R>, v: R)
    requires Work(s) > 0
    ensures exists e :: Enabled(s, e) && !e.CancelSignal?
  {
    if s.ioQueue != [] {
      assert Enabled(s, RunTask(0));
    } else if s.ending > 0 {
      assert Enabled(s, ClosureEnds);
    } else if s.stage == Queued {
      assert Enabled(s, LoadCancelled(false));
    } else if s.stage == Running {
      assert Enabled(s, FuncReturns(v));
    } else {
      assert Enabled(s, PostCompletion);
    }
  }

  /** Exactly once: a run can always go on until all posted work has run, it has at most
      6 + 3 * cancellations steps, and then the handler has been called once. */
  lemma ExactlyOneDelivery<R>(isVoid: bool, connected: bool, es: seq<Event<R>>, v: R)
    requires Legal(Initiated(isVoid, connected), es)
    ensures var s := Run(Initiated(isVoid, connected), es);
            && |es| <= 6 + 3 * Cancels(es)
            && ((forall e :: Enabled(s, e) ==> e.CancelSignal?) ==> |s.deliveries| == 1)
            && (s.deliveries == [] ==> exists e :: Enabled(s, e) && !e.CancelSignal?)
  {
    var s := Run(Initiated(isVoid, connected), es);
    RunKeepsInvariant(Initiated(isVoid, connected), es);
    WorkRunsOut(Initiated(isVoid, connected), es);
    if Work(s) > 0 {
      WorkIsEnabled(s, v);
    }
  }

  /** Whatever is delivered resumes the coroutine properly: a null exception carries the value `func`
      returned, an exception is `func`'s own or the cancellation of a request that was cancelled;
      and `func` runs at most once. */
  lemma DeliveryIsOutcome<R>(isVoid: bool, connected: bool, es: seq<Event<R>>)
    requires Legal(Initiated(isVoid, connected), es)
    ensures var s := Run(Initiated(isVoid, connected), es);
            && s.funcRuns <= 1
            && forall d :: d in s.deliveries ==>
              match Resume(isVoid, d)
              case ReturnsValue(v) => !isVoid && s.returned == Some(v)
              case ReturnsVoid => isVoid && s.returned.Some?
              case Throws(x) => s.thrown == Some(x) || (x == Aborted && s.cancelled)
              case Undefined => false
  {
    RunKeepsInvariant(Initiated(isVoid, connected), es);
  }

  // Cancellation

  /** Steps of the io thread alone: queued completions, and closures that end. */
  predicate IoOnly<R>(es: seq<Event<R>>) {
    forall i :: 0 <= i < |es| ==> es[i].RunTask? || es[i].ClosureEnds?
  }

  /** Running all queued completions, first posted first. */
  function RunQueued<R>(n: nat): seq<Event<R>> {
    if n == 0 then [] else [RunTask(0)] + RunQueued<R>(n - 1)
  }

  lemma {:induction false} QueuedCanRun<R>(s: State<R>)
    ensures Legal(s, RunQueued<R>(|s.ioQueue|)) && Run(s, RunQueued<R>(|s.ioQueue|)).ioQueue == []
    ensures IoOnly(RunQueued<R>(|s.ioQueue|))
    decreases |s.ioQueue|
  {
    var es := RunQueued<R>(|s.ioQueue|);
    if s.ioQueue != [] {
      var t := Step(s, RunTask(0));
      assert t.ioQueue == s.ioQueue[1..];
      QueuedCanRun(t);
      assert es[1..] == RunQueued<R>(|t.ioQueue|);
    }
  }

  lemma TaskDelivers<R>(s: State<R>, e: Event<R>)
    requires HandlerOnce(s) && Enabled(s, e) && (e.RunTask? || e.ClosureEnds?)
    ensures var t := Step(s, e);
            && (e.RunTask? ==> |t.deliveries| == 1)
            && (s.deliveries != [] ==> t.deliveries == s.deliveries)
            && (e.ClosureEnds? ==> t.deliveries == s.deliveries && t.ioQueue == s.ioQueue)
            && (FinalCompletion !in s.ioQueue ==> FinalCompletion !in t.ioQueue)
            && (FinalCompletion !in s.ioQueue && s.deliveries == [] ==>
                  forall d :: d in t.deliveries ==> d == Delivery(Some(Aborted), None))
  {
    if e.RunTask? {
      assert s.ioQueue[e.i] in s.ioQueue;
    }
  }

  lemma {:induction false} QueueDelivers<R>(s: State<R>, tasks: seq<Event<R>>)
    requires HandlerOnce(s) && Legal(s, tasks) && IoOnly(tasks) && Run(s, tasks).ioQueue == []
    requires s.deliveries == [] ==> s.ioQueue != []
    ensures |Run(s, tasks).deliveries| == 1
    ensures s.deliveries != [] ==> Run(s, tasks).deliveries == s.deliveries
    ensures s.deliveries == [] && FinalCompletion !in s.ioQueue ==>
              Run(s, tasks).deliveries == [Delivery(Some(Aborted), None)]
    decreases |tasks|
  {
    if tasks != [] {
      TaskDelivers(s, tasks[0]);
      StepKeepsHandlerOnce(s, tasks[0]);
      QueueDelivers(Step(s, tasks[0]), tasks[1..]);
    }
  }

  /** A cancellation completes the operation at once: after a signal that comes before anything was
      delivered, the queued completions alone, in any order and without a step of the blocking task, call
      the handler once; the coroutine resumes with the abort, unless the task's own completion was already
      queued and may have come first. */
  lemma CancellationDelivers<R>(isVoid: bool, es: seq<Event<R>>, tasks: seq<Event<R>>)
    requires Legal(Initiated(isVoid, true), es) && Run(Initiated(isVoid, true), es).deliveries == []
    requires var s := Step(Run(Initiated(isVoid, true), es), CancelSignal);
             Legal(s, tasks) && IoOnly(tasks) && Run(s, tasks).ioQueue == []
    ensures var s := Run(Initiated(isVoid, true), es);
            var t := Run(Step(s, CancelSignal), tasks);
            && |t.deliveries| == 1
            && (FinalCompletion !in s.ioQueue ==> Resume(isVoid, t.deliveries[0]) == Throws(Aborted))
  {
    RunKeepsInvariant(Initiated(isVoid, true), es);
    SlotIsConstant(Initiated(isVoid, true), es);
    var s := Run(Initiated(isVoid, true), es);
    StepKeepsHandlerOnce(s, CancelSignal);
    QueueDelivers(Step(s, CancelSignal), tasks);
  }

  lemma {:induction false} SlotIsConstant<R>(s: State<R>, es: seq<Event<R>>)
    requires Legal(s, es)
    ensures Run(s, es).slotConnected == s.slotConnected
    decreases |es|
  {
    if es != [] {
      SlotIsConstant(Step(s, es[0]), es[1..]);
    }
  }

  /** A signal before the task starts can be seen by it, and then `func` never runs. */
  lemma SeenSignalSkipsFunc<R>(isVoid: bool, es: seq<Event<R>>, later: seq<Event<R>>)
    requires Legal(Initiated(isVoid, true), es) && Run(Initiated(isVoid, true), es).stage == Queued
    requires var s := Step(Run(Initiated(isVoid, true), es), CancelSignal);
             Enabled(s, LoadCancelled(true)) ==> Legal(Step(s, LoadCancelled(true)), later)
    ensures var s := Step(Run(Initiated(isVoid, true), es), CancelSignal);
            && Enabled(s, LoadCancelled(true))
            && Run(Step(s, LoadCancelled(true)), later).funcRuns == 0
            && Run(Step(s, LoadCancelled(true)), later).returned == None
  {
    RunKeepsInvariant(Initiated(isVoid, true), es);
    SlotIsConstant(Initiated(isVoid, true), es);
    var s := Step(Run(Initiated(isVoid, true), es), CancelSignal);
    FuncStaysOut(Step(s, LoadCancelled(true)), later);
  }

  /** Once every closure is gone nothing can change any more: a late signal finds the weak pointer empty. */
  lemma {:induction false} NothingAfterTheEnd<R>(s: State<R>, es: seq<Event<R>>)
    requires !Alive(s) && Legal(s, es)
    ensures Run(s, es) == s
    decreases |es|
  {
    if es != [] {
      NothingAfterTheEnd(Step(s, es[0]), es[1..]);
    }
  }

  lemma {:induction false} FuncStaysOut<R>(s: State<R>, es: seq<Event<R>>)
    requires Legal(s, es) && s.stage in {Written, Posted} && s.funcRuns == 0 && s.returned == None
    ensures Run(s, es).funcRuns == 0 && Run(s, es).returned == None
    decreases |es|
  {
    if es != [] {
      FuncStaysOut(Step(s, es[0]), es[1..]);
    }
  }

  lemma {:induction false} NoSignalNoCancel<R>(s: State<R>, es: seq<Event<R>>)
    requires Legal(s, es) && (CancelSignal !in es || !s.slotConnected)
    ensures Run(s, es).cancelled == s.cancelled
    decreases |es|
  {
    if es != [] {
      NoSignalNoCancel(Step(s, es[0]), es[1..]);
    }
  }

  /** Without a cancellation signal, or a slot that takes it, the caller gets precisely `func`'s outcome. */
  lemma UncancelledGetsOutcome<R>(isVoid: bool, connected: bool, es: seq<Event<R>>)
    requires Legal(Initiated(isVoid, connected), es) && (CancelSignal !in es || !connected)
    ensures var s := Run(Initiated(isVoid, connected), es);
            forall d :: d in s.deliveries ==>
              && s.funcRuns == 1
              && match Resume(isVoid, d)
                 case ReturnsValue(v) => !isVoid && s.returned == Some(v)
                 case ReturnsVoid => isVoid && s.returned.Some?
                 case Throws(x) => s.thrown == Some(x) && s.returned == None
                 case Undefined => false
  {
    RunKeepsInvariant(Initiated(isVoid, connected), es);
    NoSignalNoCancel(Initiated(isVoid, connected), es);
    FuncRan(Initiated(isVoid, connected), es);
  }

  ghost predicate RanIfDone<R>(s: State<R>) {
    s.returned.Some? || s.thrown.Some? || s.stage == Running ==> s.funcRuns >= 1
  }

  lemma StepKeepsRan<R>(s: State<R>, e: Event<R>)
    requires RanIfDone(s) && Enabled(s, e)
    ensures RanIfDone(Step(s, e))
  {
  }

  lemma {:induction false} FuncRan<R>(s: State<R>, es: seq<Event<R>>)
    requires Legal(s, es) && RanIfDone(s)
    ensures RanIfDone(Run(s, es))
    decreases |es|
  {
    if es != [] {
      StepKeepsRan(s, es[0]);
      FuncRan(Step(s, es[0]), es[1..]);
    }
  }

  /** The two threads never touch `ep` and `result` together: the only step that reads them finds
      the blocking task finished, and from then on no step of any run changes them. */
  lemma {:induction false} ReadsAfterWrites<R>(isVoid: bool, connected: bool, es: seq<Event<R>>, i: nat,
          later: seq<Event<R>>)
    requires Legal(Initiated(isVoid, connected), es)
    requires var s := Run(Initiated(isVoid, connected), es);
             i < |s.ioQueue| && s.ioQueue[i] == FinalCompletion && Legal(s, later)
    ensures var s := Run(Initiated(isVoid, connected), es);
            s.stage == Posted && Run(s, later).ep == s.ep && Run(s, later).result == s.result
  {
    RunKeepsInvariant(Initiated(isVoid, connected), es);
    PostedIsStable(Run(Initiated(isVoid, connected), es), later);
  }

  lemma StepKeepsPosted<R>(s: State<R>, e: Event<R>)
    requires s.stage == Posted && Enabled(s, e)
    ensures Step(s, e).stage == Posted && Step(s, e).ep == s.ep && Step(s, e).result == s.result
  {
    match e
    case RunTask(i) => TaskKeepsPosted(s.(ioQueue := s.ioQueue[..i] + s.ioQueue[i + 1..], ending := s.ending + 1),
                                       s.ioQueue[i]);
    case _ =>
  }

  lemma TaskKeepsPosted<R>(s: State<R>, task: Task)
    ensures var t := AfterTask(s, task);
            t.stage == s.stage && t.ep == s.ep && t.result == s.result
  {
  }

  lemma {:induction false} PostedIsStable<R>(s: State<R>, es: seq<Event<R>>)
    requires s.stage == Posted && Legal(s, es)
    ensures Run(s, es).stage == Posted && Run(s, es).ep == s.ep && Run(s, es).result == s.result
    decreases |es|
  {
    if es != [] {
      StepKeepsPosted(s, es[0]);
      PostedIsStable(Step(s, es[0]), es[1..]);
    }
  }
}
