/**
 * A Project opened when the program starts: transport threads are already at work, but the loop has
 * not begun. Such a start reaches what the machine reaches when the first message it takes is a
 * console request for that Project, so every statement about reachable states is about it as well.
 */
module ProtocolStart {
  import opened Bytes
  import opened Wrappers
  import opened Outbound
  import opened Protocol

  /** The steps that can be taken while the loop has not begun. */
  predicate BeforeLoop(io: seq<Action>) { forall i | 0 <= i < |io| :: !io[i].OfServer? }

  /** The startup request has been carried out. */
  function Opened(s: State): (r: State) { s.(project := Loaded, hasProject := true) }

  /** What a request for no value leaves unread. */
  const NOTHING := RuntimeValue(0, 0, 0)

  predicate Startup(op: Op) { op.Load? || op.Publish? || op.Rebuild? }

  /** Other threads do not notice what the Server thread is doing, and leave its fields alone. */
  lemma OthersDoNotSee(encode: Encoder, s: State, server: Server, a: Action)
    requires !a.OfServer? && !s.server.Exited? && !server.Exited? && Next(encode, s, a).Some?
    ensures var next := Next(encode, s, a).value;
            && Next(encode, s.(server := server), a) == Some(next.(server := server))
            && next.server == s.server && next.project == s.project && next.hasProject == s.hasProject
            && next.running == s.running && next.registry == s.registry
  {
    hide IoNext;
  }

  lemma {:induction false} OthersRun(encode: Encoder, s: State, server: Server, io: seq<Action>)
    requires BeforeLoop(io) && !s.server.Exited? && !server.Exited? && RunOf(encode, s, io).Some?
    ensures var next := RunOf(encode, s, io).value;
            && RunOf(encode, s.(server := server), io) == Some(next.(server := server))
            && next.server == s.server && next.project == s.project && next.hasProject == s.hasProject
            && next.running == s.running && next.registry == s.registry
    decreases |io|
  {
    hide Next;
    if io != [] {
      assert !io[0].OfServer?;
      OthersDoNotSee(encode, s, server, io[0]);
      OthersRun(encode, Next(encode, s, io[0]).value, server, io[1..]);
    }
  }

  /** A console request is taken; the Project it asks for is opened, with nobody registered to be told of it. */
  function Taking(op: Op): (r: seq<Action>) { [OfConsole(op)] + ([OfServer(Pop)] + []) }

  function Opening(): (r: seq<Action>) {
    [OfServer(Execute(true, true, NOTHING, []))]
    + ([OfServer(Respond)] + ([OfServer(PublishNext)] + ([OfServer(Leave)] + [])))
  }

  lemma Takes(encode: Encoder, gateLimit: nat, op: Op)
    ensures RunOf(encode, Initial(gateLimit), Taking(op))
         == Some(Initial(gateLimit).(server := Serving(Console(op), Got)))
  {
    hide RunOf;
    var s := Initial(gateLimit);
    var asked := s.(queue := [Console(op)]);
    var taken := s.(server := Serving(Console(op), Got));
    assert s.queue + [Console(op)] == asked.queue && asked.queue[1..] == [];
    RunOfNothing(encode, taken);
    Then(encode, asked, OfServer(Pop), taken, [], taken);
    Then(encode, s, OfConsole(op), asked, [OfServer(Pop)] + [], taken);
  }

  lemma Opens(encode: Encoder, s: State, op: Op)
    requires Startup(op) && s.server == Serving(Console(op), Got)
    requires !s.hasProject && s.running && s.registry == []
    ensures RunOf(encode, s, Opening()) == Some(Opened(s).(server := Looping))
  {
    hide RunOf, Next;
    var m, open := Console(op), Opened(s);
    var executed := open.(server := Serving(m, Responding(Response(0, true, true, NoPayload, []), s.project)));
    var responded := open.(server := Serving(m, Publishing(s.project, 0)));
    var published := open.(server := Serving(m, Leaving));
    var left := open.(server := Looping);
    OpeningSteps(encode, s, op, executed, responded, published, left);
    RunOfNothing(encode, left);
    Then(encode, published, OfServer(Leave), left, [], left);
    Then(encode, responded, OfServer(PublishNext), published, [OfServer(Leave)] + [], left);
    Then(encode, executed, OfServer(Respond), responded, [OfServer(PublishNext)] + ([OfServer(Leave)] + []), left);
    Then(encode, s, OfServer(Execute(true, true, NOTHING, [])), executed,
        [OfServer(Respond)] + ([OfServer(PublishNext)] + ([OfServer(Leave)] + [])), left);
  }

  lemma OpeningSteps(encode: Encoder, s: State, op: Op, executed: State, responded: State, published: State,
      left: State)
    requires Startup(op) && s.server == Serving(Console(op), Got)
    requires !s.hasProject && s.running && s.registry == []
    requires var m, open := Console(op), Opened(s);
             && executed == open.(server := Serving(m, Responding(Response(0, true, true, NoPayload, []), s.project)))
             && responded == open.(server := Serving(m, Publishing(s.project, 0)))
             && published == open.(server := Serving(m, Leaving)) && left == open.(server := Looping)
    ensures Next(encode, s, OfServer(Execute(true, true, NOTHING, []))) == Some(executed)
    ensures Next(encode, executed, OfServer(Respond)) == Some(responded)
    ensures Next(encode, responded, OfServer(PublishNext)) == Some(published)
    ensures Next(encode, published, OfServer(Leave)) == Some(left)
  {
    hide IoNext, Enqueue, Close;
  }

  /**
   * Whatever other threads did before a startup Project was opened, and whatever happens after it:
   * the machine reaches the same state from its start without a Project.
   */
  lemma StartupIsReached(encode: Encoder, gateLimit: nat, op: Op, io: seq<Action>, more: seq<Action>)
      returns (actions: seq<Action>)
    requires Startup(op) && BeforeLoop(io) && RunOf(encode, Initial(gateLimit), io).Some?
    ensures RunOf(encode, Initial(gateLimit), actions)
         == RunOf(encode, Opened(RunOf(encode, Initial(gateLimit), io).value), more)
  {
    hide RunOf;
    var start := Initial(gateLimit);
    var serving := Serving(Console(op), Got);
    OthersRun(encode, start, serving, io);
    var s := RunOf(encode, start, io).value;
    Takes(encode, gateLimit, op);
    Opens(encode, s.(server := serving), op);
    RunSum(encode, start, Taking(op), io);
    RunSum(encode, start, Taking(op) + io, Opening());
    RunSum(encode, start, Taking(op) + io + Opening(), more);
    actions := Taking(op) + io + Opening() + more;
  }
}
