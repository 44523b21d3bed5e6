/**
 * The reusable barrier of N lanes: the owner calls lane 0 itself, and every other lane is a worker
 * with a start and a done semaphore. Each read or write of a shared field, each semaphore operation
 * and the begin and end of each call is one step; between two steps any thread may run.
 */
module Lanes {
  import opened Wrappers
  import opened Division

  /** A function and its context, as the owner of a run hands them out. */
  type Fn = nat
  type Context = nat

  /** What has become of a lane in the current run. */
  datatype Call = NotCalled | InCall(f: Fn, c: Context) | Ended(f: Fn, c: Context) | CalledTwice

  function BeginCall(call: Call, f: Fn, c: Context): (r: Call) { if call.NotCalled? then InCall(f, c) else CalledTwice }

  function EndCall(call: Call): (r: Call) { if call.InCall? then Ended(call.f, call.c) else CalledTwice }

  datatype Pc =
    | Asleep
    | CheckStopping
    | ReadFunction
    | ReadContext(f: Fn)
    | InFunction
    | PostDone
    | Exited

  datatype Worker = Worker(start: nat, done: nat, pc: Pc)

  datatype Owner =
    | Idle
    | WriteFunction(k: nat, f: Fn, c: Context)
    | WriteContext(k: nat, f: Fn, c: Context)
    | Posting(k: nat, f: Fn, c: Context, lane: nat)
    | CallOwn(k: nat, f: Fn, c: Context)
    | InOwn(k: nat, f: Fn, c: Context)
    | Waiting(k: nat, f: Fn, c: Context, index: nat)
    | ClearFunction(k: nat, f: Fn, c: Context)
    | ClearContext(k: nat, f: Fn, c: Context)
    | Returned(k: nat, f: Fn, c: Context)
    | SetStopping
    | PostingStop(index: nat)
    | Joining(index: nat)
    | Destroyed

  datatype State = State(
    workers: seq<Worker>,
    calls: seq<Call>,
    function_: Option<Fn>,
    context: Option<Context>,
    stopping: bool,
    owner: Owner)

  function Started(lanes: nat): (r: State)
    requires lanes > 0
  {
    State(seq(lanes - 1, _ => Worker(0, 0, Asleep)), seq(lanes, _ => NotCalled), None, None, false, Idle)
  }

  datatype Action = Run(k: nat, f: Fn, c: Context) | Destroy | OwnerStep | WorkerStep(index: nat)

  function Set(s: State, i: nat, w: Worker): (r: State)
    requires i < |s.workers|
  {
    s.(workers := s.workers[i := w])
  }

  /** A run is refused when it asks for no lane or for more than there are. */
  function RunStep(s: State, k: nat, f: Fn, c: Context): (r: Option<State>) {
    if !(s.owner.Idle? || s.owner.Returned?) || k == 0 || k > |s.calls| then None
    else Some(s.(owner := WriteFunction(k, f, c), calls := seq(|s.calls|, _ => NotCalled)))
  }

  function OwnerNext(s: State): (r: Option<State>) {
    match s.owner
    case WriteFunction(k, f, c) => Some(s.(function_ := Some(f), owner := WriteContext(k, f, c)))
    case WriteContext(k, f, c) => Some(s.(context := Some(c), owner := Posting(k, f, c, 1)))
    case Posting(k, f, c, lane) =>
      if lane >= k then Some(s.(owner := CallOwn(k, f, c)))
      else if lane == 0 || lane > |s.workers| then None
      else
        var w := s.workers[lane - 1];
        Some(Set(s, lane - 1, w.(start := w.start + 1)).(owner := Posting(k, f, c, lane + 1)))
    case CallOwn(k, f, c) =>
      if s.calls == [] then None
          else Some(s.(calls := s.calls[0 := BeginCall(s.calls[0], f, c)], owner := InOwn(k, f, c)))
    case InOwn(k, f, c) =>
      if s.calls == [] then None else Some(s.(calls := s.calls[0 := EndCall(s.calls[0])], owner := Waiting(k, f, c, 0)))
    case Waiting(k, f, c, index) =>
      if index + 1 >= k then Some(s.(owner := ClearFunction(k, f, c)))
      else if index >= |s.workers| || s.workers[index].done == 0 then None
      else
        var w := s.workers[index];
        Some(Set(s, index, w.(done := w.done - 1)).(owner := Waiting(k, f, c, index + 1)))
    case ClearFunction(k, f, c) => Some(s.(function_ := None, owner := ClearContext(k, f, c)))
    case ClearContext(k, f, c) => Some(s.(context := None, owner := Returned(k, f, c)))
    case SetStopping => Some(s.(stopping := true, owner := PostingStop(0)))
    case PostingStop(index) =>
      if index >= |s.workers| then Some(s.(owner := Joining(0)))
      else
        var w := s.workers[index];
        Some(Set(s, index, w.(start := w.start + 1)).(owner := PostingStop(index + 1)))
    case Joining(index) =>
      if index >= |s.workers| then Some(s.(owner := Destroyed))
      else if !s.workers[index].pc.Exited? then None else Some(s.(owner := Joining(index + 1)))
    case _ => None
  }

  /** The loop of lane_entry; worker i serves lane i + 1. */
  function WorkerNext(s: State, i: nat): (r: Option<State>) {
    if i >= |s.workers| || i + 1 >= |s.calls| then None
    else
      var w := s.workers[i];
      match w.pc
      case Asleep => if w.start == 0 then None else Some(Set(s, i, w.(start := w.start - 1, pc := CheckStopping)))
      case CheckStopping => Some(Set(s, i, w.(pc := if s.stopping then Exited else ReadFunction)))
      case ReadFunction =>
        Some(Set(s, i, w.(pc := if s.function_.None? then Exited else ReadContext(s.function_.value))))
      case ReadContext(f) =>
        if s.context.None? then None
        else
          var calls := s.calls[i + 1 := BeginCall(s.calls[i + 1], f, s.context.value)];
          Some(Set(s, i, w.(pc := InFunction)).(calls := calls))
      case InFunction => Some(Set(s, i, w.(pc := PostDone)).(calls := s.calls[i + 1 := EndCall(s.calls[i + 1])]))
      case PostDone => Some(Set(s, i, w.(done := w.done + 1, pc := Asleep)))
      case Exited => None
  }

  function Next(s: State, a: Action): (r: Option<State>) {
    match a
    case Run(k, f, c) => RunStep(s, k, f, c)
    case Destroy => if s.owner.Idle? || s.owner.Returned? then Some(s.(owner := SetStopping)) else None
    case OwnerStep => OwnerNext(s)
    case WorkerStep(i) => WorkerNext(s, i)
  }

  function RunOf(s: State, actions: seq<Action>): (r: Option<State>)
    decreases |actions|
  {
    if actions == [] then Some(s)
    else
      match Next(s, actions[0])
      case None => None
      case Some(next) => RunOf(next, actions[1..])
  }

  // ----- what holds between steps -----

  /** A worker that nobody has woken. */
  predicate Resting(w: Worker) { w == Worker(0, 0, Asleep) }

  /** A worker whose lane has been started and not yet waited for: where it is says what its call is. */
  predicate Working(w: Worker, call: Call, f: Fn, c: Context) {
    match w.pc
    case Asleep => (w.start == 1 && w.done == 0 && call.NotCalled?)
        || (w.start == 0 && w.done == 1 && call == Ended(f, c))
    case CheckStopping => w.start == 0 && w.done == 0 && call.NotCalled?
    case ReadFunction => w.start == 0 && w.done == 0 && call.NotCalled?
    case ReadContext(g) => w.start == 0 && w.done == 0 && call.NotCalled? && g == f
    case InFunction => w.start == 0 && w.done == 0 && call == InCall(f, c)
    case PostDone => w.start == 0 && w.done == 0 && call == Ended(f, c)
    case Exited => false
  }

  predicate Stopping(w: Worker) {
    w.done == 0 && ((w.pc.Asleep? && w.start == 1) || (w.start == 0 && (w.pc.CheckStopping? || w.pc.Exited?)))
  }

  /** How far a lane has got, when lanes below from have been waited for and lanes below to started. */
  predicate AtLane(w: Worker, call: Call, lane: nat, f: Fn, c: Context, from: nat, to: nat) {
    if lane < from then Resting(w) && call == Ended(f, c)
    else if lane < to then Working(w, call, f, c)
    else Resting(w) && call.NotCalled?
  }

  predicate Progress(s: State, k: nat, f: Fn, c: Context, from: nat, to: nat) {
    && 1 <= k <= |s.calls| && from <= to && |s.calls| == |s.workers| + 1
    && forall lane | 1 <= lane < |s.calls| :: AtLane(s.workers[lane - 1], s.calls[lane], lane, f, c, from, to)
  }

  predicate Holds(s: State, f: Fn, c: Context) { s.function_ == Some(f) && s.context == Some(c) }

  /** Every lane of a run has been called once with what the run was given, and no other lane. */
  predicate AllCalled(s: State, k: nat, f: Fn, c: Context) {
    1 <= k <= |s.calls| && forall i | 0 <= i < |s.calls| :: s.calls[i] == if i < k then Ended(f, c) else NotCalled
  }

  predicate AllResting(s: State) { forall i | 0 <= i < |s.workers| :: Resting(s.workers[i]) }

  predicate Fresh(s: State) { forall i | 0 <= i < |s.calls| :: s.calls[i].NotCalled? }

  /** The owner is about to write a field that workers read. */
  predicate Writing(o: Owner) {
    o.WriteFunction? || o.WriteContext? || o.ClearFunction? || o.ClearContext? || o.SetStopping?
  }

  predicate OwnerInv(s: State) {
    match s.owner
    case Idle => AllResting(s)
    case WriteFunction(k, f, c) => AllResting(s) && Fresh(s) && 1 <= k <= |s.calls|
    case WriteContext(k, f, c) => AllResting(s) && Fresh(s) && 1 <= k <= |s.calls| && s.function_ == Some(f)
    case Posting(k, f, c, lane) => Holds(s, f, c) && Progress(s, k, f, c, 1, lane) && 1 <= lane <= k
        && s.calls[0].NotCalled?
    case CallOwn(k, f, c) => Holds(s, f, c) && Progress(s, k, f, c, 1, k) && s.calls[0].NotCalled?
    case InOwn(k, f, c) => Holds(s, f, c) && Progress(s, k, f, c, 1, k) && s.calls[0] == InCall(f, c)
    case Waiting(k, f, c, index) => Holds(s, f, c) && Progress(s, k, f, c, index + 1, k) && s.calls[0] == Ended(f, c)
    case ClearFunction(k, f, c) => AllResting(s) && AllCalled(s, k, f, c)
    case ClearContext(k, f, c) => AllResting(s) && AllCalled(s, k, f, c) && s.function_ == None
    case Returned(k, f, c) => AllResting(s) && AllCalled(s, k, f, c) && s.function_ == None && s.context == None
    case SetStopping => AllResting(s)
    case PostingStop(index) =>
      s.stopping && index <= |s.workers|
      && forall i | 0 <= i < |s.workers| :: if i < index then Stopping(s.workers[i]) else Resting(s.workers[i])
    case Joining(index) =>
      && s.stopping && index <= |s.workers| && (forall i | 0 <= i < |s.workers| :: Stopping(s.workers[i]))
      && forall i | 0 <= i < index :: s.workers[i].pc.Exited?
    case Destroyed => forall i | 0 <= i < |s.workers| :: s.workers[i].pc.Exited?
  }

  predicate Inv(s: State) {
    && |s.calls| == |s.workers| + 1 && OwnerInv(s)
    && (s.stopping ==> s.owner.PostingStop? || s.owner.Joining? || s.owner.Destroyed?)
  }

  // ----- steps of the owner -----

  lemma PostingStarts(s: State, k: nat, f: Fn, c: Context)
    requires AllResting(s) && Fresh(s) && 1 <= k <= |s.calls| && |s.calls| == |s.workers| + 1
    ensures Progress(s, k, f, c, 1, 1) && s.calls[0].NotCalled?
  {
    forall lane | 1 <= lane < |s.calls| ensures AtLane(s.workers[lane - 1], s.calls[lane], lane, f, c, 1, 1) {
      assert Resting(s.workers[lane - 1]);
    }
  }

  /** Starting the next lane. */
  lemma PostMoves(s: State, k: nat, f: Fn, c: Context, lane: nat)
    requires Progress(s, k, f, c, 1, lane) && 1 <= lane < k
    ensures var w := s.workers[lane - 1]; Progress(Set(s, lane - 1, w.(start := w.start + 1)), k, f, c, 1, lane + 1)
  {
    var w := s.workers[lane - 1];
    var next := Set(s, lane - 1, w.(start := w.start + 1));
    forall j | 1 <= j < |next.calls| ensures AtLane(next.workers[j - 1], next.calls[j], j, f, c, 1, lane + 1) {
      assert AtLane(s.workers[j - 1], s.calls[j], j, f, c, 1, lane);
    }
  }

  /** Waiting for a lane ends only when its call has ended. */
  lemma WaitMoves(s: State, k: nat, f: Fn, c: Context, index: nat)
    requires Progress(s, k, f, c, index + 1, k) && index + 1 < k && s.workers[index].done > 0
    ensures var w := s.workers[index]; Progress(Set(s, index, w.(done := w.done - 1)), k, f, c, index + 2, k)
  {
    var w := s.workers[index];
    var next := Set(s, index, w.(done := w.done - 1));
    assert AtLane(s.workers[index + 1 - 1], s.calls[index + 1], index + 1, f, c, index + 1, k);
    forall j | 1 <= j < |next.calls| ensures AtLane(next.workers[j - 1], next.calls[j], j, f, c, index + 2, k) {
      assert AtLane(s.workers[j - 1], s.calls[j], j, f, c, index + 1, k);
    }
  }

  /** When the last lane has been waited for, all have been called and nobody is awake. */
  lemma WaitEnds(s: State, k: nat, f: Fn, c: Context)
    requires Progress(s, k, f, c, k, k) && s.calls[0] == Ended(f, c)
    ensures AllResting(s) && AllCalled(s, k, f, c)
  {
    forall i | 0 <= i < |s.workers| ensures Resting(s.workers[i]) {
      assert AtLane(s.workers[i + 1 - 1], s.calls[i + 1], i + 1, f, c, k, k);
    }
    forall i | 0 <= i < |s.calls| ensures s.calls[i] == if i < k then Ended(f, c) else NotCalled {
      if i > 0 {
        assert AtLane(s.workers[i - 1], s.calls[i], i, f, c, k, k);
      }
    }
  }

  lemma OwnCallMoves(s: State, k: nat, f: Fn, c: Context, call: Call)
    requires Progress(s, k, f, c, 1, k)
    ensures Progress(s.(calls := s.calls[0 := call]), k, f, c, 1, k)
  {
  }

  lemma OwnerRuns(s: State)
    requires Inv(s) && OwnerNext(s).Some?
    requires !s.owner.SetStopping? && !s.owner.PostingStop? && !s.owner.Joining?
    ensures Inv(OwnerNext(s).value)
  {
    hide AtLane, Working, Set;
    match s.owner
    case WriteContext(k, f, c) => PostingStarts(s, k, f, c);
      PostingStarts(OwnerNext(s).value, k, f, c);
    case Posting(k, f, c, lane) =>
      if lane < k {
        PostMoves(s, k, f, c, lane);
        var w := s.workers[lane - 1];
        SetKeepsFields(s, lane - 1, w.(start := w.start + 1));
      }
    case CallOwn(k, f, c) => OwnCallMoves(s, k, f, c, BeginCall(s.calls[0], f, c));
    case InOwn(k, f, c) => OwnCallMoves(s, k, f, c, EndCall(s.calls[0]));
    case Waiting(k, f, c, index) =>
      if index + 1 < k {
        WaitMoves(s, k, f, c, index);
        var w := s.workers[index];
        SetKeepsFields(s, index, w.(done := w.done - 1));
      } else {
        WaitEnds(s, k, f, c);
      }
    case _ =>
  }

  lemma SetKeepsFields(s: State, i: nat, w: Worker)
    requires i < |s.workers|
    ensures var n := Set(s, i, w);
            n.calls == s.calls && n.function_ == s.function_ && n.context == s.context && n.stopping == s.stopping
                && |n.workers| == |s.workers|
  {
  }

  lemma OwnerStops(s: State)
    requires Inv(s) && OwnerNext(s).Some? && (s.owner.SetStopping? || s.owner.PostingStop? || s.owner.Joining?)
    ensures Inv(OwnerNext(s).value)
  {
  }

  // ----- steps of the workers -----

  /** A started worker goes from its wake-up to its call, and from its call to its post. */
  lemma WorkingStep(s: State, i: nat, f: Fn, c: Context)
    requires i < |s.workers| && |s.calls| == |s.workers| + 1 && !s.stopping && Holds(s, f, c) && WorkerNext(s, i).Some?
    requires Working(s.workers[i], s.calls[i + 1], f, c)
    ensures var n := WorkerNext(s, i).value;
            && |n.workers| == |s.workers| && |n.calls| == |s.calls| && Working(n.workers[i], n.calls[i + 1], f, c)
            && (forall j | 0 <= j < |s.workers| && j != i :: n.workers[j] == s.workers[j])
            && (forall j | 0 <= j < |s.calls| && j != i + 1 :: n.calls[j] == s.calls[j])
            && n.owner == s.owner && n.stopping == s.stopping && Holds(n, f, c)
  {
  }

  lemma WorkerMoves(s: State, i: nat, k: nat, f: Fn, c: Context, from: nat, to: nat)
    requires Progress(s, k, f, c, from, to) && Holds(s, f, c) && !s.stopping && WorkerNext(s, i).Some? && 1 <= from
    ensures var n := WorkerNext(s, i).value;
            Progress(n, k, f, c, from, to) && Holds(n, f, c) && n.calls[0] == s.calls[0] && n.owner == s.owner
                && n.stopping == s.stopping
  {
    hide Working;
    assert AtLane(s.workers[i + 1 - 1], s.calls[i + 1], i + 1, f, c, from, to);
    WorkingStep(s, i, f, c);
    var n := WorkerNext(s, i).value;
    forall j | 1 <= j < |n.calls| ensures AtLane(n.workers[j - 1], n.calls[j], j, f, c, from, to) {
      assert AtLane(s.workers[j - 1], s.calls[j], j, f, c, from, to);
    }
  }

  lemma WorkerStops(s: State, i: nat)
    requires Inv(s) && WorkerNext(s, i).Some? && (s.owner.PostingStop? || s.owner.Joining?)
    ensures Inv(WorkerNext(s, i).value)
  {
  }

  lemma WorkerKeeps(s: State, i: nat)
    requires Inv(s) && WorkerNext(s, i).Some?
    ensures Inv(WorkerNext(s, i).value)
  {
    hide Progress, WorkerNext;
    match s.owner
    case Posting(k, f, c, lane) => WorkerMoves(s, i, k, f, c, 1, lane); SameSizes(s, i);
    case CallOwn(k, f, c) => WorkerMoves(s, i, k, f, c, 1, k); SameSizes(s, i);
    case InOwn(k, f, c) => WorkerMoves(s, i, k, f, c, 1, k); SameSizes(s, i);
    case Waiting(k, f, c, index) => WorkerMoves(s, i, k, f, c, index + 1, k); SameSizes(s, i);
    case PostingStop(_) => WorkerStops(s, i);
    case Joining(_) => WorkerStops(s, i);
    case _ => RestingIsStill(s, i);
  }

  lemma SameSizes(s: State, i: nat)
    requires WorkerNext(s, i).Some?
    ensures |WorkerNext(s, i).value.calls| == |s.calls| && |WorkerNext(s, i).value.workers| == |s.workers|
  {
  }

  lemma RestingIsStill(s: State, i: nat)
    requires i < |s.workers| ==> Resting(s.workers[i]) || s.workers[i].pc.Exited?
    ensures WorkerNext(s, i).None?
  {
  }

  // ----- every run -----

  lemma StepKeeps(s: State, a: Action)
    requires Inv(s) && Next(s, a).Some?
    ensures Inv(Next(s, a).value)
  {
    hide OwnerNext, WorkerNext;
    match a
    case OwnerStep =>
      if s.owner.SetStopping? || s.owner.PostingStop? || s.owner.Joining? {
        OwnerStops(s);
      } else {
        OwnerRuns(s);
      }
    case WorkerStep(i) => WorkerKeeps(s, i);
    case Run(_, _, _) =>
    case Destroy =>
  }

  lemma {:induction false} RunsKeep(s: State, actions: seq<Action>)
    requires Inv(s) && RunOf(s, actions).Some?
    ensures Inv(RunOf(s, actions).value)
    decreases |actions|
  {
    hide Next, Inv;
    if actions != [] {
      StepKeeps(s, actions[0]);
      RunsKeep(Next(s, actions[0]).value, actions[1..]);
    }
  }

  lemma StartedOk(lanes: nat)
    requires lanes > 0
    ensures Inv(Started(lanes))
  {
  }

  /**
   * Whenever a run has returned, its function has been called with its context exactly once on each
   * of its lanes and on no other, all calls have ended, and every semaphore is back at zero.
   */
  lemma RunsCallEachLaneOnce(lanes: nat, actions: seq<Action>)
    requires lanes > 0 && RunOf(Started(lanes), actions).Some?
    requires RunOf(Started(lanes), actions).value.owner.Returned?
    ensures var s := RunOf(Started(lanes), actions).value;
            var Returned(k, f, c) := s.owner;
            && (forall i | 0 <= i < |s.calls| :: s.calls[i] == if i < k then Ended(f, c) else NotCalled)
            && (forall i | 0 <= i < |s.workers| ::
                  s.workers[i].start == 0 && s.workers[i].done == 0 && s.workers[i].pc.Asleep?)
  {
    hide RunOf;
    StartedOk(lanes);
    RunsKeep(Started(lanes), actions);
  }

  predicate Reading(w: Worker) { w.pc.CheckStopping? || w.pc.ReadFunction? || w.pc.ReadContext? }

  /** While the owner writes a shared field no worker is reading one, or can without being woken. */
  lemma NoReadWhileWriting(lanes: nat, actions: seq<Action>)
    requires lanes > 0 && RunOf(Started(lanes), actions).Some? && Writing(RunOf(Started(lanes), actions).value.owner)
    ensures var s := RunOf(Started(lanes), actions).value;
            forall i | 0 <= i < |s.workers| :: !Reading(s.workers[i]) && s.workers[i].start == 0
                && WorkerNext(s, i).None?
  {
    hide RunOf;
    StartedOk(lanes);
    RunsKeep(Started(lanes), actions);
  }

  /** A destroyed pool has no worker left. */
  lemma DestroyJoinsAll(lanes: nat, actions: seq<Action>)
    requires lanes > 0 && RunOf(Started(lanes), actions).Some? && RunOf(Started(lanes), actions).value.owner.Destroyed?
    ensures var s := RunOf(Started(lanes), actions).value; forall i | 0 <= i < |s.workers| :: s.workers[i].pc.Exited?
  {
    hide RunOf;
    StartedOk(lanes);
    RunsKeep(Started(lanes), actions);
  }

  /** The owner is in the middle of a run or of destroying the pool. */
  predicate Busy(o: Owner) { !o.Idle? && !o.Returned? && !o.Destroyed? }

  /** No deadlock: while the owner is busy it can go on, or the worker it waits for can. */
  lemma SomethingCanStep(lanes: nat, actions: seq<Action>) returns (a: Action)
    requires lanes > 0 && RunOf(Started(lanes), actions).Some? && Busy(RunOf(Started(lanes), actions).value.owner)
    ensures (a.OwnerStep? || a.WorkerStep?) && Next(RunOf(Started(lanes), actions).value, a).Some?
  {
    hide RunOf;
    StartedOk(lanes);
    RunsKeep(Started(lanes), actions);
    var s := RunOf(Started(lanes), actions).value;
    a := OwnerStep;
    match s.owner
    case Waiting(k, f, c, index) =>
      if index + 1 < k && s.workers[index].done == 0 {
        assert AtLane(s.workers[index + 1 - 1], s.calls[index + 1], index + 1, f, c, index + 1, k);
        a := WorkerStep(index);
      }
    case Joining(index) =>
      if index < |s.workers| && !s.workers[index].pc.Exited? {
        assert Stopping(s.workers[index]);
        a := WorkerStep(index);
      }
    case _ =>
  }

  // ----- every run and every destruction ends -----

  /** How many steps a worker can take before it sleeps again, for each time it has been woken. */
  function Energy(w: Worker): (r: nat) {
    6 * w.start +
    match w.pc
    case CheckStopping => 5
    case ReadFunction => 4
    case ReadContext(_) => 3
    case InFunction => 2
    case PostDone => 1
    case _ => 0
  }

  function TotalEnergy(workers: seq<Worker>): (r: nat) {
    if workers == [] then 0 else Energy(workers[0]) + TotalEnergy(workers[1..])
  }

  function Left(from: nat, to: nat): (r: nat) { if from < to then to - from else 0 }

  /** How many steps the owner can still take, each post of a start counted with the worker's steps that follow it. */
  function OwnerSteps(o: Owner, workers: nat): (r: nat) {
    match o
    case WriteFunction(k, _, _) => 8 * Left(1, k) + 8
    case WriteContext(k, _, _) => 8 * Left(1, k) + 7
    case Posting(k, _, _, lane) => 7 * Left(lane, k) + Left(1, k) + 6
    case CallOwn(k, _, _) => Left(1, k) + 5
    case InOwn(k, _, _) => Left(1, k) + 4
    case Waiting(k, _, _, index) => Left(index + 1, k) + 3
    case ClearFunction(_, _, _) => 2
    case ClearContext(_, _, _) => 1
    case SetStopping => 8 * workers + 3
    case PostingStop(index) => 7 * Left(index, workers) + workers + 2
    case Joining(index) => Left(index, workers) + 1
    case _ => 0
  }

  function StepsLeft(s: State): (r: nat) { OwnerSteps(s.owner, |s.workers|) + TotalEnergy(s.workers) }

  lemma {:induction false} EnergyOfUpdate(workers: seq<Worker>, i: nat, w: Worker)
    requires i < |workers|
    ensures TotalEnergy(workers[i := w]) + Energy(workers[i]) == TotalEnergy(workers) + Energy(w)
    decreases |workers|
  {
    hide Energy;
    var next := workers[i := w];
    if i == 0 {
      assert next[1..] == workers[1..];
    } else {
      assert next[1..] == workers[1..][i - 1 := w];
      EnergyOfUpdate(workers[1..], i - 1, w);
    }
  }

  lemma EnergyOfSet(s: State, i: nat, w: Worker)
    requires i < |s.workers|
    ensures TotalEnergy(Set(s, i, w).workers) + Energy(s.workers[i]) == TotalEnergy(s.workers) + Energy(w)
  {
    EnergyOfUpdate(s.workers, i, w);
  }

  lemma SemaphoreEnergy(s: State, i: nat, start: nat, done: nat)
    requires i < |s.workers|
    ensures var w := s.workers[i];
            TotalEnergy(Set(s, i, w.(start := start, done := done)).workers) + 6 * w.start
                == TotalEnergy(s.workers) + 6 * start
  {
    var w := s.workers[i];
    EnergyOfSet(s, i, w.(start := start, done := done));
  }

  lemma PostLowers(s: State)
    requires OwnerNext(s).Some? && s.owner.Posting?
    ensures StepsLeft(OwnerNext(s).value) < StepsLeft(s)
  {
    hide TotalEnergy, Energy;
    var lane := s.owner.lane;
    if lane < s.owner.k {
      var w := s.workers[lane - 1];
      SemaphoreEnergy(s, lane - 1, w.start + 1, w.done);
    }
  }

  lemma WaitLowers(s: State)
    requires OwnerNext(s).Some? && s.owner.Waiting?
    ensures StepsLeft(OwnerNext(s).value) < StepsLeft(s)
  {
    hide TotalEnergy, Energy;
    var index := s.owner.index;
    if index + 1 < s.owner.k {
      var w := s.workers[index];
      SemaphoreEnergy(s, index, w.start, w.done - 1);
    }
  }

  lemma PostStopLowers(s: State)
    requires OwnerNext(s).Some? && s.owner.PostingStop?
    ensures StepsLeft(OwnerNext(s).value) < StepsLeft(s)
  {
    hide TotalEnergy, Energy;
    var index := s.owner.index;
    if index < |s.workers| {
      var w := s.workers[index];
      SemaphoreEnergy(s, index, w.start + 1, w.done);
    }
  }

  lemma OwnerLowers(s: State)
    requires OwnerNext(s).Some?
    ensures StepsLeft(OwnerNext(s).value) < StepsLeft(s)
  {
    hide TotalEnergy, Energy;
    match s.owner
    case Posting(_, _, _, _) => PostLowers(s);
    case Waiting(_, _, _, _) => WaitLowers(s);
    case PostingStop(_) => PostStopLowers(s);
    case _ =>
  }

  lemma WorkerLowers(s: State, i: nat)
    requires WorkerNext(s, i).Some?
    ensures StepsLeft(WorkerNext(s, i).value) < StepsLeft(s)
  {
    hide TotalEnergy;
    var next := WorkerNext(s, i).value;
    assert next.workers == Set(s, i, next.workers[i]).workers;
    EnergyOfSet(s, i, next.workers[i]);
  }

  /** Every step but the owner's beginning of a run or of destruction leaves fewer steps to be taken. */
  lemma StepLowers(s: State, a: Action)
    requires Next(s, a).Some? && (a.OwnerStep? || a.WorkerStep?)
    ensures StepsLeft(Next(s, a).value) < StepsLeft(s)
  {
    hide StepsLeft, OwnerNext, WorkerNext;
    if a.OwnerStep? {
      OwnerLowers(s);
    } else {
      WorkerLowers(s, a.index);
    }
  }

  /** A schedule of the steps of owner and workers, without a new run. */
  predicate OnlySteps(schedule: seq<Action>) {
    forall i | 0 <= i < |schedule| :: schedule[i].OwnerStep? || schedule[i].WorkerStep?
  }

  lemma {:induction false} SchedulesAreBounded(s: State, schedule: seq<Action>)
    requires OnlySteps(schedule) && RunOf(s, schedule).Some?
    ensures |schedule| + StepsLeft(RunOf(s, schedule).value) <= StepsLeft(s)
    decreases |schedule|
  {
    hide Next, StepsLeft;
    if schedule != [] {
      assert schedule[0].OwnerStep? || schedule[0].WorkerStep?;
      StepLowers(s, schedule[0]);
      SchedulesAreBounded(Next(s, schedule[0]).value, schedule[1..]);
    }
  }

  /** The run an owner is in or has returned from, and whether it is destroying the pool. */
  predicate SameTask(o: Owner, next: Owner) {
    match o
    case Idle => next.Idle?
    case Returned(k, f, c) => next == o
    case SetStopping => next.SetStopping? || next.PostingStop? || next.Joining? || next.Destroyed?
    case PostingStop(_) => next.SetStopping? || next.PostingStop? || next.Joining? || next.Destroyed?
    case Joining(_) => next.SetStopping? || next.PostingStop? || next.Joining? || next.Destroyed?
    case Destroyed => next.Destroyed?
    case _ =>
      && (next.WriteFunction? || next.WriteContext? || next.Posting? || next.CallOwn? || next.InOwn? || next.Waiting?
          || next.ClearFunction? || next.ClearContext? || next.Returned?)
      && next.k == o.k && next.f == o.f && next.c == o.c
  }

  lemma {:induction false} SchedulesKeepTask(s: State, schedule: seq<Action>)
    requires OnlySteps(schedule) && RunOf(s, schedule).Some?
    ensures SameTask(s.owner, RunOf(s, schedule).value.owner)
    decreases |schedule|
  {
    hide Next, SameTask;
    if schedule == [] {
      TaskStays(s);
    } else {
      assert schedule[0].OwnerStep? || schedule[0].WorkerStep?;
      var next := Next(s, schedule[0]).value;
      StepKeepsTask(s, schedule[0]);
      SchedulesKeepTask(next, schedule[1..]);
      TasksChain(s.owner, next.owner, RunOf(s, schedule).value.owner);
    }
  }

  lemma TaskStays(s: State)
    ensures SameTask(s.owner, s.owner)
  {
  }

  lemma TasksChain(a: Owner, b: Owner, c: Owner)
    requires SameTask(a, b) && SameTask(b, c)
    ensures SameTask(a, c)
  {
  }

  lemma StepKeepsTask(s: State, a: Action)
    requires Next(s, a).Some? && (a.OwnerStep? || a.WorkerStep?)
    ensures SameTask(s.owner, Next(s, a).value.owner)
  {
  }

  /** Neither the owner nor any worker can take a step. */
  ghost predicate Stuck(s: State) { forall a: Action :: (a.OwnerStep? || a.WorkerStep?) ==> Next(s, a).None? }

  /**
   * Every run ends under every schedule: after a run on k lanes has begun, at most 8k steps of owner
   * and workers can follow, and when no further step can be taken the run has returned.
   */
  lemma RunsEnd(lanes: nat, actions: seq<Action>, k: nat, f: Fn, c: Context, schedule: seq<Action>)
    requires lanes > 0 && RunOf(Started(lanes), actions).Some?
    requires RunStep(RunOf(Started(lanes), actions).value, k, f, c).Some? && OnlySteps(schedule)
    requires RunOf(RunStep(RunOf(Started(lanes), actions).value, k, f, c).value, schedule).Some?
    ensures var end := RunOf(RunStep(RunOf(Started(lanes), actions).value, k, f, c).value, schedule).value;
            |schedule| <= 8 * k && (Stuck(end) ==> end.owner == Returned(k, f, c))
  {
    hide RunOf, StepsLeft, SameTask;
    var s := RunOf(Started(lanes), actions).value;
    StartedOk(lanes);
    RunsKeep(Started(lanes), actions);
    var begun := RunStep(s, k, f, c).value;
    RestingHasNoSteps(s);
    BegunHas(s, k, f, c);
    SchedulesAreBounded(begun, schedule);
    SchedulesKeepTask(begun, schedule);
    var end := RunOf(begun, schedule).value;
    if Stuck(end) {
      EndsIdle(lanes, actions, Run(k, f, c), schedule);
      assert end.owner == Returned(k, f, c) by {
        ReturnsItsRun(begun, end);
      }
    }
  }

  lemma ReturnsItsRun(begun: State, end: State)
    requires begun.owner.WriteFunction? && SameTask(begun.owner, end.owner) && !Busy(end.owner)
    ensures end.owner == Returned(begun.owner.k, begun.owner.f, begun.owner.c)
  {
  }

  lemma RestingHasNoSteps(s: State)
    requires AllResting(s)
    ensures TotalEnergy(s.workers) == 0
  {
    NoEnergy(s.workers);
  }

  lemma {:induction false} NoEnergy(workers: seq<Worker>)
    requires forall i | 0 <= i < |workers| :: Resting(workers[i])
    ensures TotalEnergy(workers) == 0
    decreases |workers|
  {
    if workers != [] {
      assert Resting(workers[0]);
      NoEnergy(workers[1..]);
    }
  }

  lemma BegunHas(s: State, k: nat, f: Fn, c: Context)
    requires RunStep(s, k, f, c).Some? && TotalEnergy(s.workers) == 0
    ensures RunStep(s, k, f, c).value.owner == WriteFunction(k, f, c) && StepsLeft(RunStep(s, k, f, c).value) == 8 * k
  {
  }

  lemma {:induction false} RunSum(s: State, a: seq<Action>, b: seq<Action>)
    requires RunOf(s, a).Some?
    ensures RunOf(s, a + b) == RunOf(RunOf(s, a).value, b)
    decreases |a|
  {
    hide Next;
    if a == [] {
      assert a + b == b;
    } else {
      assert (a + b)[1..] == a[1..] + b;
      RunSum(Next(s, a[0]).value, a[1..], b);
    }
  }

  /** A schedule that cannot be continued has ended with an owner that has nothing left to do. */
  lemma EndsIdle(lanes: nat, actions: seq<Action>, begin: Action, schedule: seq<Action>)
    requires lanes > 0 && RunOf(Started(lanes), actions).Some?
    requires Next(RunOf(Started(lanes), actions).value, begin).Some?
    requires RunOf(Next(RunOf(Started(lanes), actions).value, begin).value, schedule).Some?
    requires Stuck(RunOf(Next(RunOf(Started(lanes), actions).value, begin).value, schedule).value)
    ensures !Busy(RunOf(Next(RunOf(Started(lanes), actions).value, begin).value, schedule).value.owner)
  {
    hide Next, Busy;
    var s := RunOf(Started(lanes), actions).value;
    var all := actions + ([begin] + schedule);
    assert ([begin] + schedule)[1..] == schedule;
    RunSum(Started(lanes), actions, [begin] + schedule);
    assert RunOf(s, [begin] + schedule) == RunOf(Next(s, begin).value, schedule);
    if Busy(RunOf(Started(lanes), all).value.owner) {
      var a := SomethingCanStep(lanes, all);
      assert false;
    }
  }

  /** So does every destruction, after at most 8 steps for each worker and three more, with every worker gone. */
  lemma DestructionEnds(lanes: nat, actions: seq<Action>, schedule: seq<Action>)
    requires lanes > 0 && RunOf(Started(lanes), actions).Some? && OnlySteps(schedule)
    requires Next(RunOf(Started(lanes), actions).value, Destroy).Some?
    requires RunOf(Next(RunOf(Started(lanes), actions).value, Destroy).value, schedule).Some?
    ensures var end := RunOf(Next(RunOf(Started(lanes), actions).value, Destroy).value, schedule).value;
            |schedule| <= 8 * (lanes - 1) + 3 && (Stuck(end) ==> end.owner.Destroyed?)
  {
    hide RunOf, SameTask;
    var s := RunOf(Started(lanes), actions).value;
    StartedOk(lanes);
    RunsKeep(Started(lanes), actions);
    LanesStay(Started(lanes), actions);
    RestingHasNoSteps(s);
    var begun := Next(s, Destroy).value;
    SchedulesAreBounded(begun, schedule);
    SchedulesKeepTask(begun, schedule);
    var end := RunOf(begun, schedule).value;
    if Stuck(end) {
      EndsIdle(lanes, actions, Destroy, schedule);
      assert end.owner.Destroyed? by {
        DestroysPool(begun, end);
      }
    }
  }

  lemma DestroysPool(begun: State, end: State)
    requires begun.owner.SetStopping? && SameTask(begun.owner, end.owner) && !Busy(end.owner)
    ensures end.owner.Destroyed?
  {
  }

  lemma {:induction false} LanesStay(s: State, actions: seq<Action>)
    requires RunOf(s, actions).Some?
    ensures |RunOf(s, actions).value.workers| == |s.workers|
    decreases |actions|
  {
    hide Next;
    if actions != [] {
      OneLanesStay(s, actions[0]);
      LanesStay(Next(s, actions[0]).value, actions[1..]);
    }
  }

  lemma OneLanesStay(s: State, a: Action)
    requires Next(s, a).Some?
    ensures |Next(s, a).value.workers| == |s.workers|
  {
  }

  // ----- the work a lane does -----

  /** Lane does the indices lane, lane + k, lane + 2k and so on below the count. */
  predicate InStride(index: nat, lane: nat, k: nat)
    requires k > 0
  {
    index % k == lane
  }

  /** Each index is done by exactly one lane. */
  lemma StridesCoverOnce(index: nat, k: nat)
    requires k > 0
    ensures index % k < k && InStride(index, index % k, k)
    ensures forall lane | 0 <= lane < k && InStride(index, lane, k) :: lane == index % k
  {
  }

  method PersistLane<T>(results: array<T>, produce: nat -> T, lane: nat, activeLanes: nat)
    requires lane < activeLanes
    modifies results
    ensures forall i | 0 <= i < results.Length ::
      results[i] == if InStride(i, lane, activeLanes) then produce(i) else old(results[i])
  {
    var index := lane;
    SmallModulus(lane, activeLanes);
    while index < results.Length
      invariant index % activeLanes == lane
      invariant forall i | 0 <= i < results.Length ::
        results[i] == if i < index && InStride(i, lane, activeLanes) then produce(i) else old(results[i])
    {
      results[index] := produce(index);
      forall i | index < i < index + activeLanes ensures i % activeLanes != lane {
        BetweenStrides(index, i - index, lane, activeLanes);
      }
      NextStride(index, activeLanes);
      index := index + activeLanes;
    }
  }

  lemma SmallModulus(lane: nat, k: nat)
    requires lane < k
    ensures lane % k == lane && forall i | 0 <= i < lane :: i % k == i
  {
  }

  lemma NextStride(index: nat, k: nat)
    requires k > 0
    ensures (index + k) % k == index % k
  {
    var q, r := index / k, index % k;
    assert index + k == (q + 1) * k + r;
    DivisionUnique(index + k, k, q + 1, r);
  }

  lemma BetweenStrides(index: nat, step: nat, lane: nat, k: nat)
    requires 0 < step < k && index % k == lane
    ensures (index + step) % k != lane
  {
    var q, r := index / k, index % k;
    assert index == q * k + r;
    if r + step < k {
      DivisionUnique(index + step, k, q, r + step);
    } else {
      assert index + step == (q + 1) * k + (r + step - k);
      DivisionUnique(index + step, k, q + 1, r + step - k);
    }
  }

  // ----- all lanes at once -----

  /** The shared results, how often each has been written, and the index each lane is at. */
  datatype Work<T> = Work(results: seq<Option<T>>, writes: seq<nat>, at: seq<nat>)

  function WorkBegun<T>(count: nat, activeLanes: nat): (r: Work<T>) {
    Work(seq(count, _ => None), seq(count, _ => 0), seq(activeLanes, lane => lane))
  }

  /** One turn of a lane's loop; None when the lane is done. */
  function LaneTurn<T>(produce: nat -> T, w: Work<T>, lane: nat): (r: Option<Work<T>>)
    requires |w.writes| == |w.results|
  {
    if lane >= |w.at| || w.at[lane] >= |w.results| then None
    else
      var index := w.at[lane];
      Some(Work(w.results[index := Some(produce(index))], w.writes[index := w.writes[index] + 1],
                w.at[lane := index + |w.at|]))
  }

  /** The lanes take turns in any order. */
  function Turns<T>(produce: nat -> T, w: Work<T>, schedule: seq<nat>): (r: Option<Work<T>>)
    requires |w.writes| == |w.results|
    decreases |schedule|
  {
    if schedule == [] then Some(w)
    else
      match LaneTurn(produce, w, schedule[0])
      case None => None
      case Some(next) => Turns(produce, next, schedule[1..])
  }

  /** A slot holds its own result, written once, as soon as its lane is past it, and nothing before. */
  predicate SlotOk<T(==)>(produce: nat -> T, w: Work<T>, i: nat)
    requires i < |w.results| == |w.writes| && w.at != []
  {
    var lane := i % |w.at|;
    if i < w.at[lane] then w.results[i] == Some(produce(i)) && w.writes[i] == 1
    else w.results[i] == None && w.writes[i] == 0
  }

  ghost predicate WorkOk<T>(produce: nat -> T, w: Work<T>) {
    && |w.writes| == |w.results| && w.at != []
       && (forall lane | 0 <= lane < |w.at| :: InStride(w.at[lane], lane, |w.at|))
    && forall i | 0 <= i < |w.results| :: SlotOk(produce, w, i)
  }

  lemma TurnKeepsWork<T>(produce: nat -> T, w: Work<T>, lane: nat)
    requires WorkOk(produce, w) && LaneTurn(produce, w, lane).Some?
    ensures WorkOk(produce, LaneTurn(produce, w, lane).value)
  {
    var next, index, k := LaneTurn(produce, w, lane).value, w.at[lane], |w.at|;
    NextStride(index, k);
    forall i | 0 <= i < |next.results| ensures SlotOk(produce, next, i) {
      assert SlotOk(produce, w, i);
      StridesCoverOnce(i, k);
      if i % k == lane && index < i < index + k {
        BetweenStrides(index, i - index, lane, k);
      }
    }
  }

  lemma {:induction false} TurnsKeepWork<T>(produce: nat -> T, w: Work<T>, schedule: seq<nat>)
    requires WorkOk(produce, w) && Turns(produce, w, schedule).Some?
    ensures WorkOk(produce, Turns(produce, w, schedule).value)
    ensures |Turns(produce, w, schedule).value.at| == |w.at|
    ensures |Turns(produce, w, schedule).value.results| == |w.results|
    decreases |schedule|
  {
    hide WorkOk;
    assert |w.writes| == |w.results| by {
      WorkFits(produce, w);
    }
    if schedule != [] {
      TurnKeepsWork(produce, w, schedule[0]);
      TurnsKeepWork(produce, LaneTurn(produce, w, schedule[0]).value, schedule[1..]);
    }
  }

  lemma WorkFits<T>(produce: nat -> T, w: Work<T>)
    requires WorkOk(produce, w)
    ensures |w.writes| == |w.results|
  {
  }

  /**
   * However the turns of the lanes are interleaved, no slot is ever written twice or with another's
   * result, and when every lane is done each slot has been written exactly once.
   */
  lemma LanesCoverOnce<T>(produce: nat -> T, count: nat, activeLanes: nat, schedule: seq<nat>)
    requires activeLanes > 0 && Turns(produce, WorkBegun(count, activeLanes), schedule).Some?
    ensures var w := Turns(produce, WorkBegun(count, activeLanes), schedule).value;
            && |w.results| == |w.writes| == count && |w.at| == activeLanes
            && (forall i | 0 <= i < count ::
                  w.writes[i] <= 1 && (w.writes[i] == 1 <==> w.results[i] == Some(produce(i))))
            && ((forall lane | 0 <= lane < activeLanes :: w.at[lane] >= count) ==>
                  forall i | 0 <= i < count :: w.writes[i] == 1 && w.results[i] == Some(produce(i)))
  {
    hide Turns;
    var begun := WorkBegun<T>(count, activeLanes);
    forall lane | 0 <= lane < activeLanes ensures lane % activeLanes == lane {
      SmallModulus(lane, activeLanes);
    }
    forall i | 0 <= i < count ensures SlotOk(produce, begun, i) {
      StartIsEmpty(i, activeLanes);
    }
    TurnsKeepWork(produce, begun, schedule);
    var w := Turns(produce, begun, schedule).value;
    forall i | 0 <= i < count
      ensures w.writes[i] <= 1 && (w.writes[i] == 1 <==> w.results[i] == Some(produce(i)))
      ensures w.at[i % activeLanes] >= count ==> w.writes[i] == 1
    {
      assert SlotOk(produce, w, i);
      StridesCoverOnce(i, activeLanes);
    }
  }

  lemma StartIsEmpty(i: nat, k: nat)
    requires k > 0
    ensures i % k <= i && 0 <= i % k < k
  {
  }
}
