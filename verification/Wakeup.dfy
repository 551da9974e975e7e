/**
 * No lost wakeup. Handlers run concurrently: each updates its change map under that map's lock,
 * then reads whether the controller is initialized, then may take the mutex and synchronise. The
 * three Synced callbacks set their flag under the mutex and synchronise too. Here they are
 * interleaved in every possible way.
 */
module Wakeup {
  import opened Options

  datatype Kind = Pods | Namespaces | Policies

  const KINDS: set<Kind> := {Pods, Namespaces, Policies}

  /** What a synchronisation is asked for: one kind of change, or everything. */
  datatype Request = Only(kind: Kind) | Everything

  /** Where a thread is. */
  datatype Pc =
    | Updating(kind: Kind)      // a handler that has not called Update yet
    | Updated(kind: Kind)       // Update has returned true
    | Announcing(kind: Kind)    // a Synced callback that has not set its flag yet
    | Calling(request: Request) // about to take the mutex for a synchronisation
    | Holding(request: Request) // has the mutex, has not looked at the flags yet
    | Flushing(todo: set<Kind>) // has the mutex, with these change maps still to flush
    | Done

  datatype Controller = Controller(
    pending: set<Kind>,  // the change maps that are not empty
    synced: set<Kind>,   // the sources that have been received
    initialized: bool,
    first: bool,         // the first synchronisation is still to come
    mutex: Option<nat>,
    threads: seq<Pc>)

  datatype Step =
    | Arrive(pc: Pc)             // an event, a callback or the ticker starts a thread
    | Run(t: nat, left: bool)    // a thread goes on; `left`: whether an Update leaves its map non-empty
    | Flush(t: nat, kind: Kind)  // a thread flushes one map, under that map's lock

  predicate Starts(pc: Pc) {
    pc.Updating? || pc.Announcing? || pc == Calling(Everything)
  }

  function At(c: Controller, t: nat, pc: Pc): Controller
    requires t < |c.threads|
  {
    c.(threads := c.threads[t := pc])
  }

  /** One step of one thread; None when it is not its turn. */
  function Do(c: Controller, step: Step): Option<Controller> {
    match step
    case Arrive(pc) =>
      if Starts(pc) then Some(c.(threads := c.threads + [pc])) else None
    case Flush(t, kind) =>
      if t < |c.threads| && c.threads[t].Flushing? && kind in c.threads[t].todo
      then Some(At(c.(pending := c.pending - {kind}), t, Flushing(c.threads[t].todo - {kind})))
      else None
    case Run(t, left) =>
      if t >= |c.threads| then None
      else
        match c.threads[t]
        case Updating(kind) =>
          Some(At(c.(pending := if left then c.pending + {kind} else c.pending - {kind}), t, if left then Updated(kind)
              else Done))
        case Updated(kind) => Some(At(c, t, if c.initialized then Calling(Only(kind)) else Done))
        case Announcing(kind) =>
          if c.mutex.Some? then None
          else Some(At(c.(synced := c.synced + {kind}, initialized := c.synced + {kind} == KINDS), t,
              Calling(Only(kind))))
        case Calling(request) => if c.mutex.Some? then None else Some(At(c.(mutex := Some(t)), t, Holding(request)))
        case Holding(request) =>
          if c.synced != KINDS then Some(At(c.(mutex := None), t, Done))
          else if c.first then Some(At(c.(first := false), t, Flushing(KINDS)))
          else Some(At(c, t, Flushing(if request.Only? then {request.kind} else {})))
        case Flushing(todo) => if todo == {} then Some(At(c.(mutex := None), t, Done)) else None
        case Done => None
  }

  ghost predicate Initial(c: Controller) {
    c == Controller({}, {}, false, true, None, [])
  }

  // ---------- the invariant ----------

  /** Some later step of this thread flushes this kind, now that everything has been received. */
  ghost predicate Obliged(c: Controller, pc: Pc, kind: Kind) {
    match pc
    case Updated(k) => k == kind
    case Calling(request) => c.first || request == Only(kind)
    case Holding(request) => c.first || request == Only(kind)
    case Flushing(todo) => kind in todo
    case _ => false
  }

  ghost predicate SomeoneObliged(c: Controller, kind: Kind) {
    exists t :: 0 <= t < |c.threads| && Obliged(c, c.threads[t], kind)
  }

  ghost predicate InMutex(pc: Pc) { pc.Holding? || pc.Flushing? }

  ghost predicate Sound(c: Controller) {
    && c.synced <= KINDS
    && (c.initialized <==> c.synced == KINDS)
    && (!c.first ==> c.synced == KINDS)
    && (c.mutex.Some? ==> c.mutex.value < |c.threads|)
    && (forall t :: 0 <= t < |c.threads| ==> (InMutex(c.threads[t]) <==> c.mutex == Some(t)))
    && (c.synced == KINDS ==> forall kind :: kind in c.pending ==> SomeoneObliged(c, kind))
  }

  lemma OtherStays(c: Controller, c': Controller, t: nat, kind: Kind)
    requires t < |c.threads| && |c'.threads| == |c.threads| && c'.first == c.first
    requires forall u :: 0 <= u < |c.threads| && u != t ==> c'.threads[u] == c.threads[u]
    requires SomeoneObliged(c, kind)
    requires Obliged(c, c.threads[t], kind) ==> Obliged(c', c'.threads[t], kind)
    ensures SomeoneObliged(c', kind)
  {
    var u :| 0 <= u < |c.threads| && Obliged(c, c.threads[u], kind);
    assert Obliged(c', c'.threads[u], kind);
  }

  /** Every step, of whichever thread, keeps the invariant. */
  lemma StepSound(c: Controller, step: Step)
    requires Sound(c) && Do(c, step).Some?
    ensures Sound(Do(c, step).value)
  {
    var c' := Do(c, step).value;
    if step.Arrive? {
      ArriveSound(c, step.pc);
    } else {
      var t := step.t;
      AllKinds();
      forall u | 0 <= u < |c'.threads| ensures InMutex(c'.threads[u]) <==> c'.mutex == Some(u) {}
      if c'.synced == KINDS {
        forall kind | kind in c'.pending ensures SomeoneObliged(c', kind) {
          StepObliges(c, step, t, kind);
        }
      }
    }
  }

  lemma AllKinds()
    ensures forall kind: Kind :: kind in KINDS
  {
    forall kind: Kind ensures kind in KINDS {
      assert kind == Pods || kind == Namespaces || kind == Policies;
    }
  }

  lemma ArriveSound(c: Controller, pc: Pc)
    requires Sound(c) && Do(c, Arrive(pc)).Some?
    ensures Sound(Do(c, Arrive(pc)).value)
  {
    var c' := Do(c, Arrive(pc)).value;
    forall kind | SomeoneObliged(c, kind) ensures SomeoneObliged(c', kind) {
      var u :| 0 <= u < |c.threads| && Obliged(c, c.threads[u], kind);
      assert c'.threads[u] == c.threads[u];
    }
  }

  /** After a step a kind still pending has a thread obliged to flush it. */
  lemma StepObliges(c: Controller, step: Step, t: nat, kind: Kind)
    requires Sound(c) && Do(c, step).Some? && !step.Arrive? && t == step.t
    requires var c' := Do(c, step).value; c'.synced == KINDS && kind in c'.pending
    ensures SomeoneObliged(Do(c, step).value, kind)
  {
    var c' := Do(c, step).value;
    var pc := c.threads[t];
    if step.Flush? {
      OtherStays(c, c', t, kind);
    } else {
      match pc
      case Updating(k) =>
        if k == kind {
          assert Obliged(c', c'.threads[t], kind);
        } else {
          OtherStays(c, c', t, kind);
        }
      case Updated(k) => OtherStays(c, c', t, kind);
      case Announcing(k) =>
        if c.first {
          assert Obliged(c', c'.threads[t], kind);
        } else {
          OtherStays(c, c', t, kind);
        }
      case Calling(_) => OtherStays(c, c', t, kind);
      case Holding(_) =>
        if c.first {
          assert Obliged(c', c'.threads[t], kind);
        } else {
          OtherStays(c, c', t, kind);
        }
      case Flushing(todo) => OtherStays(c, c', t, kind);
    }
  }

  // ---------- runs ----------

  ghost predicate IsRun(states: seq<Controller>, steps: seq<Step>) {
    && |states| == |steps| + 1 && Initial(states[0])
    && forall i :: 0 <= i < |steps| ==> Do(states[i], steps[i]) == Some(states[i + 1])
  }

  lemma {:induction false} RunSound(states: seq<Controller>, steps: seq<Step>, i: nat)
    requires IsRun(states, steps) && i < |states|
    ensures Sound(states[i])
  {
    if i > 0 {
      RunSound(states, steps, i - 1);
      assert Do(states[i - 1], steps[i - 1]) == Some(states[i - 1 + 1]);
      StepSound(states[i - 1], steps[i - 1]);
    }
  }

  /**
   * No lost wakeup: at every moment of every run, if all sources have been received and a change of
   * some kind is pending, some thread is still going to flush that kind.
   */
  lemma NoLostWakeup(states: seq<Controller>, steps: seq<Step>, i: nat, kind: Kind)
    requires IsRun(states, steps) && i < |states|
    requires states[i].synced == KINDS && kind in states[i].pending
    ensures SomeoneObliged(states[i], kind)
  {
    RunSound(states, steps, i);
  }

  /** So once every thread has come to its end nothing is pending. */
  lemma QuiescenceIsClean(states: seq<Controller>, steps: seq<Step>, i: nat)
    requires IsRun(states, steps) && i < |states| && states[i].synced == KINDS
    requires forall t :: 0 <= t < |states[i].threads| ==> states[i].threads[t].Done?
    ensures states[i].pending == {}
  {
    RunSound(states, steps, i);
    forall kind ensures kind !in states[i].pending {
      assert !SomeoneObliged(states[i], kind);
    }
  }

  // ---------- every thread comes to its end ----------

  /** A thread that has not ended, or the one it waits for, can go on. */
  lemma NoDeadlock(c: Controller, t: nat)
    requires Sound(c) && t < |c.threads| && !c.threads[t].Done?
    ensures exists step: Step :: !step.Arrive? && Do(c, step).Some?
  {
    if (c.threads[t].Announcing? || c.threads[t].Calling?) && c.mutex.Some? {
      HolderRuns(c, c.mutex.value);
    } else if c.threads[t].Flushing? {
      HolderRuns(c, t);
    } else {
      assert Do(c, Run(t, true)).Some?;
    }
  }

  lemma HolderRuns(c: Controller, t: nat)
    requires Sound(c) && t < |c.threads| && c.mutex == Some(t)
    ensures exists step: Step :: !step.Arrive? && Do(c, step).Some?
  {
    assert InMutex(c.threads[t]);
    if c.threads[t].Flushing? && c.threads[t].todo != {} {
      var kind :| kind in c.threads[t].todo;
      assert Do(c, Flush(t, kind)).Some?;
    } else {
      assert Do(c, Run(t, true)).Some?;
    }
  }

  function Left(pc: Pc): nat {
    match pc
    case Updating(_) => 8
    case Updated(_) => 7
    case Announcing(_) => 7
    case Calling(_) => 6
    case Holding(_) => 5
    case Flushing(todo) => 1 + |todo|
    case Done => 0
  }

  function LeftAll(threads: seq<Pc>): nat {
    if threads == [] then 0 else LeftAll(threads[..|threads| - 1]) + Left(threads[|threads| - 1])
  }

  lemma {:induction false} LeftChanges(threads: seq<Pc>, t: nat, pc: Pc)
    requires t < |threads|
    ensures LeftAll(threads[t := pc]) + Left(threads[t]) == LeftAll(threads) + Left(pc)
  {
    var n := |threads| - 1;
    if t == n {
      assert threads[t := pc][..n] == threads[..n];
    } else {
      assert threads[t := pc][..n] == threads[..n][t := pc];
      LeftChanges(threads[..n], t, pc);
    }
  }

  /** Every step but an arrival brings the end nearer: threads that have started end after boundedly many steps. */
  lemma StepEnds(c: Controller, step: Step)
    requires Do(c, step).Some? && !step.Arrive?
    ensures LeftAll(Do(c, step).value.threads) < LeftAll(c.threads)
  {
    ThreadNearer(c, step);
    LeftChanges(c.threads, step.t, Do(c, step).value.threads[step.t]);
  }

  lemma ThreadNearer(c: Controller, step: Step)
    requires Do(c, step).Some? && !step.Arrive?
    ensures step.t < |c.threads| == |Do(c, step).value.threads|
    ensures var pc := Do(c, step).value.threads[step.t];
            Do(c, step).value.threads == c.threads[step.t := pc] && Left(pc) < Left(c.threads[step.t])
  {
    KindsCount();
    if step.Flush? {
      var todo := c.threads[step.t].todo;
      assert |todo - {step.kind}| == |todo| - 1;
    }
  }

  lemma KindsCount()
    ensures |KINDS| == 3
  {
    assert KINDS == {Pods} + {Namespaces} + {Policies};
  }

  ghost predicate Goes(states: seq<Controller>, steps: seq<Step>) {
    |states| == |steps| + 1 && forall i :: 0 <= i < |steps| ==> Do(states[i], steps[i]) == Some(states[i + 1])
  }

  lemma {:induction false} EndsInTime(states: seq<Controller>, steps: seq<Step>)
    requires Goes(states, steps) && forall i :: 0 <= i < |steps| ==> !steps[i].Arrive?
    ensures |steps| + LeftAll(states[|steps|].threads) <= LeftAll(states[0].threads)
  {
    if steps != [] {
      var n := |steps| - 1;
      EndsInTime(states[..n + 1], steps[..n]);
      assert Do(states[n], steps[n]) == Some(states[n + 1]);
      StepEnds(states[n], steps[n]);
    }
  }

  /**
   * Once events stop, any way of going on reaches a state where no thread can go on; when all
   * sources have been received, nothing is pending then.
   */
  lemma StuckIsClean(states: seq<Controller>, steps: seq<Step>, i: nat)
    requires IsRun(states, steps) && i < |states| && states[i].synced == KINDS
    requires forall step: Step :: step.Arrive? || Do(states[i], step).None?
    ensures states[i].pending == {}
  {
    RunSound(states, steps, i);
    forall t | 0 <= t < |states[i].threads| ensures states[i].threads[t].Done? {
      if !states[i].threads[t].Done? {
        NoDeadlock(states[i], t);
      }
    }
    QuiescenceIsClean(states, steps, i);
  }
}
