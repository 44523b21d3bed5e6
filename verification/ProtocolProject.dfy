/**
 * What requests on the Project are answered over a run, told by the answers alone: a Project that
 * runs can neither be run again nor unloaded until it is frozen, one that is there cannot be opened
 * again, and one that is not there can only be opened.
 */
module ProtocolProject {
  import opened Wrappers
  import opened Sequences
  import opened Outbound
  import opened Protocol

  /** A request that was carried out: whether policy allowed it, what came of outer work, and the answer given. */
  datatype Verdict =
    Verdict(op: Op, allowed: bool, succeeds: bool, value: RuntimeValue, diagnostics: seq<Diagnostic>, reply: Message)

  predicate Succeeded(a: Verdict) { a.reply.Response? && a.reply.ok }

  /** Whatever makes a Project active. */
  predicate Opens(op: Op) { op.Load? || op.Publish? || op.Build? || op.Rebuild? }

  /** The project state that the answers so far tell of. */
  function Follow(state: ProjectState, a: Verdict): (r: ProjectState) {
    if !Succeeded(a) then state
    else if Opens(a.op) then Loaded
    else if a.op.RunProject? then Run
    else if a.op.FreezeProject? then Freeze
    else if a.op.Unload? then Unloaded
    else state
  }

  function StateAfter(history: seq<Verdict>): (r: ProjectState) {
    if history == [] then Unloaded else Follow(StateAfter(Init(history)), Last(history))
  }

  /** What can be done in a state; some requests also need outer work to succeed. */
  predicate Possible(state: ProjectState, op: Op, succeeds: bool) {
    if Opens(op) then state.Unloaded? && succeeds
    else if op.RunProject? || op.Unload? then state.Loaded? || state.Freeze?
    else if op.FreezeProject? then state.Run?
    else if op.GetValue? then !state.Unloaded? && succeeds
    else if op.SnapIc? || op.ResetIc? then succeeds
    else true
  }

  /** The answer that is due, by what was answered before. */
  predicate Due(state: ProjectState, a: Verdict) {
    && a.reply.Response? && a.reply.release && a.reply.diagnostics == a.diagnostics
    && (a.reply.ok <==> a.allowed && Possible(state, a.op, a.succeeds))
    && a.reply.payload == if a.reply.ok && a.op.GetState? then StateOf(state)
                          else if a.reply.ok && a.op.GetValue? then ValueOf(a.value) else NoPayload
  }

  /** The answer a step leaves to be given. */
  function Answers(s: State, a: Action, next: State): (r: seq<Verdict>) {
    if a.OfServer? && a.act.Execute? && s.server.Serving? && next.server.Serving? && next.server.at.Responding? then
      var Execute(allowed, succeeds, value, diagnostics) := a.act;
      match s.server.m
      case Asked(_, _, AskServer(op)) =>
        [Verdict(op, allowed, succeeds, value, diagnostics, next.server.at.reply)]
      case Console(op) => [Verdict(op, allowed, succeeds, value, diagnostics, next.server.at.reply)]
      case _ => []
    else []
  }

  /** The answers of a run, in order. */
  function History(encode: Encoder, s: State, actions: seq<Action>): (r: seq<Verdict>)
    decreases |actions|
  {
    if actions == [] || Next(encode, s, actions[0]).None? then []
    else
      var next := Next(encode, s, actions[0]).value;
      Answers(s, actions[0], next) + History(encode, next, actions[1..])
  }

  /** The state of the machine is what the answers tell. */
  predicate Matches(s: State, state: ProjectState) { s.project == state && (s.hasProject <==> !state.Unloaded?) }

  lemma OthersLeaveProject(encode: Encoder, s: State, a: Action)
    requires Next(encode, s, a).Some? && !(a.OfServer? && a.act.Execute?)
    ensures var next := Next(encode, s, a).value; next.project == s.project && next.hasProject == s.hasProject
  {
    hide IoNext, ServeNext;
    if a.OfServer? {
      if a.act.RouteNext? || a.act.Respond? || a.act.PublishNext? {
        DeliveriesLeaveProject(s, a.act);
      } else {
        StepsLeaveProject(s, a.act);
      }
    }
  }

  lemma DeliveriesLeaveProject(s: State, act: ServeAct)
    requires ServeNext(s, act).Some? && (act.RouteNext? || act.Respond? || act.PublishNext?)
    ensures ServeNext(s, act).value.project == s.project && ServeNext(s, act).value.hasProject == s.hasProject
  {
    hide Enqueue;
  }

  lemma StepsLeaveProject(s: State, act: ServeAct)
    requires ServeNext(s, act).Some? && !act.Execute? && !act.RouteNext? && !act.Respond? && !act.PublishNext?
    ensures ServeNext(s, act).value.project == s.project && ServeNext(s, act).value.hasProject == s.hasProject
  {
    hide Close, Without;
  }

  /** An operation succeeds exactly where it is possible, and leaves the state its success tells of. */
  lemma OperationFollows(state: ProjectState, hasProject: bool, a: Verdict)
    requires hasProject <==> !state.Unloaded?
    ensures var changed := Operate(a.op, state, hasProject, a.succeeds);
            && (changed.ok <==> Possible(state, a.op, a.succeeds))
            && (changed.hasProject <==> !changed.project.Unloaded?)
            && (Succeeded(a) == changed.ok ==> changed.project == Follow(state, a))
            && (a.op.GetState? ==> changed.ok && changed.project == state)
  {
  }

  /** Carrying out a request gives the answer that is due, and leaves what that answer tells. */
  lemma ExecuteAnswers(s: State, act: ServeAct, state: ProjectState)
    requires Matches(s, state) && act.Execute? && ServeNext(s, act).Some?
    ensures var next := ServeNext(s, act).value; var a := Answers(s, OfServer(act), next);
            |a| == 1 && Due(state, a[0]) && Matches(next, Follow(state, a[0]))
  {
    hide Operate, Possible, Follow;
    var a := Answers(s, OfServer(act), ServeNext(s, act).value)[0];
    OperationFollows(state, s.hasProject, a);
    RefusalLeaves(state, a);
  }

  lemma RefusalLeaves(state: ProjectState, a: Verdict)
    ensures !Succeeded(a) ==> Follow(state, a) == state
  {
  }

  lemma {:induction false} HistoryFollows(encode: Encoder, s: State, actions: seq<Action>, before: seq<Verdict>)
    requires RunOf(encode, s, actions).Some? && Matches(s, StateAfter(before))
    ensures var all := before + History(encode, s, actions);
            && Matches(RunOf(encode, s, actions).value, StateAfter(all))
            && forall i | |before| <= i < |all| :: Due(StateAfter(all[..i]), all[i])
    decreases |actions|
  {
    hide Next, Matches, Due, StateAfter, Answers;
    if actions == [] {
      assert before + History(encode, s, actions) == before;
    } else {
      var next := Next(encode, s, actions[0]).value;
      var one := Answers(s, actions[0], next);
      var more := before + one;
      StepFollows(encode, s, actions[0], before);
      HistoryFollows(encode, next, actions[1..], more);
      var all := before + History(encode, s, actions);
      assert all == more + History(encode, next, actions[1..]);
      forall i | |before| <= i < |all| ensures Due(StateAfter(all[..i]), all[i]) {
        if i < |more| {
          assert all[..i] == before && all[i] == one[0];
        }
      }
    }
  }

  lemma StepFollows(encode: Encoder, s: State, a: Action, before: seq<Verdict>)
    requires Next(encode, s, a).Some? && Matches(s, StateAfter(before))
    ensures var next := Next(encode, s, a).value; var one := Answers(s, a, next);
            && |one| <= 1 && Matches(next, StateAfter(before + one))
            && (one != [] ==> Due(StateAfter(before), one[0]))
  {
    hide ServeNext, IoNext, Due, Follow;
    var next := Next(encode, s, a).value;
    if a.OfServer? && a.act.Execute? {
      ExecuteAnswers(s, a.act, StateAfter(before));
      var one := Answers(s, a, next);
      assert one == [one[0]];
      Snoc(before, one[0]);
    } else {
      OthersLeaveProject(encode, s, a);
      NothingAdded(before);
    }
  }

  /** Every request of every run is answered as the answers before it demand. */
  lemma AnswersAreDue(encode: Encoder, gateLimit: nat, actions: seq<Action>)
    requires RunOf(encode, Initial(gateLimit), actions).Some?
    ensures var history := History(encode, Initial(gateLimit), actions);
            && Matches(RunOf(encode, Initial(gateLimit), actions).value, StateAfter(history))
            && forall i | 0 <= i < |history| :: Due(StateAfter(history[..i]), history[i])
  {
    hide RunOf, History, Due;
    var nothing: seq<Verdict> := [];
    HistoryFollows(encode, Initial(gateLimit), actions, nothing);
    assert nothing + History(encode, Initial(gateLimit), actions) == History(encode, Initial(gateLimit), actions);
  }

  // ----- running and freezing -----

  /** No request of that kind succeeds between two places. */
  predicate NoneOf(history: seq<Verdict>, from: nat, end: nat, ops: set<Op>)
    requires end <= |history|
  {
    forall i | from <= i < end :: !(Succeeded(history[i]) && history[i].op in ops)
  }

  lemma {:induction false} StaysRunning(history: seq<Verdict>, from: nat, end: nat)
    requires from < end <= |history| && Succeeded(history[from]) && history[from].op.RunProject?
    requires forall i | 0 <= i < |history| :: Due(StateAfter(history[..i]), history[i])
    requires NoneOf(history, from, end, {FreezeProject})
    ensures StateAfter(history[..end]).Run?
    decreases end
  {
    hide Follow, Due, StateAfter;
    OneMore(history, end - 1);
    if from < end - 1 {
      StaysRunning(history, from, end - 1);
    }
    assert Due(StateAfter(history[..end - 1]), history[end - 1]);
    RunningStep(StateAfter(history[..end - 1]), history[end - 1], end - 1 == from);
  }

  lemma RunningStep(state: ProjectState, a: Verdict, first: bool)
    requires Due(state, a) && (if first then Succeeded(a) && a.op.RunProject? else state.Run?)
    requires !(Succeeded(a) && a.op.FreezeProject?)
    ensures Follow(state, a).Run?
  {
  }

  lemma OneMore(history: seq<Verdict>, i: nat)
    requires i < |history|
    ensures StateAfter(history[..i + 1]) == Follow(StateAfter(history[..i]), history[i])
  {
    assert Init(history[..i + 1]) == history[..i];
  }

  lemma {:induction false} StaysStopped(history: seq<Verdict>, from: nat, end: nat)
    requires from < end <= |history| && Succeeded(history[from]) && history[from].op.FreezeProject?
    requires forall i | 0 <= i < |history| :: Due(StateAfter(history[..i]), history[i])
    requires NoneOf(history, from, end, {RunProject, Unload})
    ensures StateAfter(history[..end]).Loaded? || StateAfter(history[..end]).Freeze?
    decreases end
  {
    hide Follow, Due, StateAfter;
    OneMore(history, end - 1);
    if from < end - 1 {
      StaysStopped(history, from, end - 1);
    }
    assert Due(StateAfter(history[..end - 1]), history[end - 1]);
    StoppedStep(StateAfter(history[..end - 1]), history[end - 1], end - 1 == from);
  }

  lemma StoppedStep(state: ProjectState, a: Verdict, first: bool)
    requires Due(state, a) && (if first then Succeeded(a) && a.op.FreezeProject? else state.Loaded? || state.Freeze?)
    requires !(Succeeded(a) && (a.op.RunProject? || a.op.Unload?))
    ensures Follow(state, a).Loaded? || Follow(state, a).Freeze?
  {
  }

  /**
   * In every run: after a RUN that succeeded, RUN and UNLOAD are refused until a FREEZE succeeds, which
   * one that is allowed does; after that FREEZE both succeed again where they are allowed, until one has.
   */
  lemma RunUntilFreeze(encode: Encoder, gateLimit: nat, actions: seq<Action>, i: nat, j: nat)
    requires RunOf(encode, Initial(gateLimit), actions).Some?
    requires var history := History(encode, Initial(gateLimit), actions); i < j < |history| && Succeeded(history[i])
    ensures var history := History(encode, Initial(gateLimit), actions); var a := history[j];
            && (history[i].op.RunProject? && NoneOf(history, i, j, {FreezeProject})
                ==> (a.op.RunProject? || a.op.Unload? ==> !Succeeded(a))
                    && (a.op.FreezeProject? ==> Succeeded(a) == a.allowed))
            && (history[i].op.FreezeProject? && NoneOf(history, i, j, {RunProject, Unload})
                ==> (a.op.RunProject? || a.op.Unload? ==> Succeeded(a) == a.allowed)
                    && (a.op.FreezeProject? ==> !Succeeded(a)))
  {
    hide RunOf, History, StateAfter, NoneOf, Follow;
    AnswersAreDue(encode, gateLimit, actions);
    var history := History(encode, Initial(gateLimit), actions);
    if history[i].op.RunProject? && NoneOf(history, i, j, {FreezeProject}) {
      StaysRunning(history, i, j);
    }
    if history[i].op.FreezeProject? && NoneOf(history, i, j, {RunProject, Unload}) {
      StaysStopped(history, i, j);
    }
  }

  // ----- what other requests are answered -----

  /** A LOGIN succeeds exactly when it registers its connection, and only then says the project state. */
  lemma LoginIsAnswered(s: State, act: ServeAct)
    requires ServeNext(s, act).Some? && (act.CommitLogin? || act.Register?)
    requires ServeNext(s, act).value.server.at.Responding?
    ensures var next := ServeNext(s, act).value; var Asked(c, request, ask) := s.server.m;
            var reply := next.server.at.reply;
            && reply.Response? && reply.request == request && reply.release && reply.diagnostics == []
            && (reply.ok <==> c !in s.registry && c in next.registry)
            && reply.payload == if reply.ok then StateOf(s.project) else NoPayload
  {
  }

  /** A client action succeeds exactly when its sender is logged in and was not seen closing, and says nothing else. */
  lemma ActionIsAnswered(s: State, act: ServeAct)
    requires ServeNext(s, act).Some? && (act.CheckClient? || act.RouteNext?)
    requires ServeNext(s, act).value.server.at.Responding?
    ensures var Asked(c, request, ask) := s.server.m; var reply := ServeNext(s, act).value.server.at.reply;
            && reply.Response? && reply.request == request && reply.release && reply.diagnostics == []
            && reply.payload == NoPayload
            && (reply.ok <==> act.RouteNext? || (s.connections[c].committed && !act.sawClosing))
  {
    hide Enqueue;
  }

  /** A transport thread refuses an id it knows, which stays taken, and whoever has not logged in. */
  lemma RefusalIsAnswered(encode: Encoder, c: Id, k: Connection, act: IoAct)
    requires (act.Reserve? || act.CheckLogin?) && IoNext(encode, c, k, act).Moved?
    requires IoNext(encode, c, k, act).k.io.Answering?
    ensures var reply := IoNext(encode, c, k, act).k.io.reply;
            && reply.Response? && !reply.ok && reply.payload == NoPayload && reply.diagnostics == []
            && (act.Reserve? ==> reply.request == act.request && !reply.release)
            && (act.Reserve? ==> k.closeStarted || act.request in k.outstanding)
            && (act.CheckLogin? ==> k.io.Reserved? && reply.request == k.io.request && reply.release)
            && (act.CheckLogin? ==> !k.committed && !k.io.ask.AskLogin?)
  {
  }
}
