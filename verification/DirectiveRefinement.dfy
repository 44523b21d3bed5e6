/**
 * The executor works on a flat stream of lexemes that enters and leaves files. Over files whose
 * conditional groups nest, running it is the same as evaluating their trees of groups recursively.
 */
module DirectiveRefinement {
  import opened Bytes
  import opened Wrappers
  import opened Sequences
  import opened Directives

  datatype Lexeme = Word(at: Range) | Mark(d: Directive)

  // ----- the stream machine: lexical input, executor and what came out -----

  /** What reaches semantic analysis: a word with the definitions in force at it, or an include. */
  datatype Emission =
    | Word(file: FileId, at: Range, macros: Macros)
    | Included(request: Request, target: FileId)

  type Log = seq<Emission>

  /** The files, their source bytes and how an include request finds its file. */
  datatype World =
    World(texts: map<FileId, seq<Lexeme>>, source: FileId -> bytes, resolve: Request -> Option<FileId>)

  datatype Position = Position(file: FileId, rest: seq<Lexeme>)

  datatype Machine = Machine(exec: Exec, input: seq<Position>, log: Log)

  datatype Reason =
    | ByDirective(error: Error)
    | Unresolved(request: Request)
    | TooDeep(request: Request)
    | NotEntered(request: Request)

  datatype Run =
    | Going(m: Machine)
    | Completed(macros: Macros, log: Log)
    | Stopped(reason: Reason, log: Log)

  function Move(input: seq<Position>, rest: seq<Lexeme>): (r: seq<Position>)
    requires input != []
  {
    Init(input) + [Position(Last(input).file, rest)]
  }

  function Enter(w: World, m: Machine, request: Request, target: FileId): (r: Run) {
    if target !in w.texts || |m.input| == INCLUDE_LIMIT then Stopped(TooDeep(request), m.log)
    else
      match EnterFile(m.exec, target)
      case None => Stopped(NotEntered(request), m.log)
      case Some(exec) =>
        Going(Machine(exec, m.input + [Position(target, w.texts[target])], m.log + [Included(request, target)]))
  }

  function TakeMark(w: World, m: Machine, file: FileId, d: Directive): (r: Run) {
    match Execute(m.exec, file, d, w.source(file))
    case Refused(error) => Stopped(ByDirective(error), m.log)
    case Done(exec, None) => Going(m.(exec := exec))
    case Done(exec, Some(request)) =>
      match w.resolve(request)
      case None => Stopped(Unresolved(request), m.log)
      case Some(target) => Enter(w, m.(exec := exec), request, target)
  }

  function Leave(m: Machine): (r: Run)
    requires m.input != []
  {
    match FinishFile(m.exec, Last(m.input).file)
    case Refused(error) => Stopped(ByDirective(error), m.log)
    case Done(exec, _) =>
      if |m.input| == 1 then Completed(exec.macros, m.log) else Going(Machine(exec, Init(m.input), m.log))
  }

  function Step(w: World, m: Machine): (r: Run)
    requires m.input != []
  {
    var file, rest := Last(m.input).file, Last(m.input).rest;
    if rest == [] then Leave(m)
    else
      var moved := m.(input := Move(m.input, rest[1..]));
      match rest[0]
      case Word(at) =>
        Going(if Active(m.exec.conditionals) then moved.(log := m.log + [Emission.Word(file, at, m.exec.macros)])
            else moved)
      case Mark(d) => TakeMark(w, moved, file, d)
  }

  function RunFor(w: World, r: Run, n: nat): (result: Run)
    decreases n
  {
    if n == 0 then r else
      match r
      case Going(m) => if m.input == [] then r else RunFor(w, Step(w, m), n - 1)
      case _ => r
  }

  lemma {:induction false} RunForSum(w: World, r: Run, a: nat, b: nat)
    ensures RunFor(w, r, a + b) == RunFor(w, RunFor(w, r, a), b)
    decreases a
  {
    hide Step;
    if a > 0 && r.Going? && r.m.input != [] {
      RunForSum(w, Step(w, r.m), a - 1, b);
    }
  }

  /** Entering the root: the executor's own entry cannot fail once lexical input has started. */
  function Start(w: World, root: FileId, macros: Macros): (r: Run)
    requires root in w.texts
  {
    match EnterFile(Exec([], [], macros), root)
    case None => Stopped(NotEntered(Request(root, NoForm, Range(0, 0))), [])
    case Some(exec) => Going(Machine(exec, [Position(root, w.texts[root])], []))
  }

  // ----- trees of conditional groups, and their meaning -----

  datatype Block = End | Then(item: Item, rest: Block)

  datatype Item =
    | Plain(at: Range)
    | Lone(d: Directive)
    | Group(open: Directive, body: Block, other: Option<Other>, close: Directive)

  datatype Other = Other(mark: Directive, body: Block)

  predicate BlockOk(b: Block) { b.Then? ==> ItemOk(b.item) && BlockOk(b.rest) }

  predicate ItemOk(i: Item) {
    match i
    case Plain(_) => true
    case Lone(d) => !IsConditional(d.kind)
    case Group(open, body, other, close) =>
      && (open.kind.Ifdef? || open.kind.Ifndef?) && BlockOk(body) && close.kind.Endif?
      && (other.Some? ==> other.value.mark.kind.Else? && BlockOk(other.value.body))
  }

  function Flatten(b: Block): (r: seq<Lexeme>) {
    match b
    case End => []
    case Then(item, rest) => FlattenItem(item) + Flatten(rest)
  }

  function FlattenItem(i: Item): (r: seq<Lexeme>) {
    match i
    case Plain(at) => [Lexeme.Word(at)]
    case Lone(d) => [Mark(d)]
    case Group(open, body, other, close) =>
      [Mark(open)] + (Flatten(body) + ((if other.Some? then FlattenOther(other.value) else []) + [Mark(close)]))
  }

  function FlattenOther(o: Other): (r: seq<Lexeme>) { [Mark(o.mark)] + Flatten(o.body) }

  type Trees = map<FileId, Block>

  ghost predicate Flattens(w: World, trees: Trees) {
    && w.texts.Keys == trees.Keys && NO_FILE !in trees
    && forall f | f in trees :: BlockOk(trees[f]) && w.texts[f] == Flatten(trees[f])
  }

  datatype Meaning = Finished(macros: Macros, log: Log) | Halted(reason: Reason, log: Log)

  /** Where a block stands: its file, whether it is read, and how deep in groups and in files. */
  datatype Place = Place(file: FileId, active: bool, groups: nat, depth: nat)

  function EvalBlock(w: World, trees: Trees, p: Place, b: Block, macros: Macros, log: Log): (r: Meaning)
    decreases INCLUDE_LIMIT - p.depth, b
  {
    match b
    case End => Finished(macros, log)
    case Then(item, rest) =>
      match EvalItem(w, trees, p, item, macros, log)
      case Halted(reason, log) => Halted(reason, log)
      case Finished(macros, log) => EvalBlock(w, trees, p, rest, macros, log)
  }

  function EvalItem(w: World, trees: Trees, p: Place, i: Item, macros: Macros, log: Log): (r: Meaning)
    decreases INCLUDE_LIMIT - p.depth, i
  {
    match i
    case Plain(at) => Finished(macros, if p.active then log + [Emission.Word(p.file, at, macros)] else log)
    case Lone(d) =>
      if IsConditional(d.kind) then Finished(macros, log)
      else
        (match EffectOf(p.active, macros, p.file, d, w.source(p.file))
         case Changed(macros) => Finished(macros, log)
         case Failed(error) => Halted(ByDirective(error), log)
         case Requested(request) =>
           match w.resolve(request)
           case None => Halted(Unresolved(request), log)
           case Some(target) =>
             if target !in trees || p.depth >= INCLUDE_LIMIT then Halted(TooDeep(request), log)
             else
               var inside := Place(target, true, p.groups, p.depth + 1);
               EvalBlock(w, trees, inside, trees[target], macros, log + [Included(request, target)]))
    case Group(open, body, other, _) =>
      var condition := Condition(macros, open, w.source(p.file));
      if p.groups == CONDITIONAL_LIMIT then Halted(ByDirective(Error(ConditionalDepthExceeded, p.file, open.at)), log)
      else if p.active && condition.None? then Halted(ByDirective(Error(MalformedOperand, p.file, open.name)), log)
      else
        match EvalBlock(w, trees, Branch(p, p.active && condition.value), body, macros, log)
        case Halted(reason, log) => Halted(reason, log)
        case Finished(macros, log) =>
          match other
          case None => Finished(macros, log)
          case Some(o) => EvalBlock(w, trees, Branch(p, p.active && !condition.value), o.body, macros, log)
  }

  function Branch(p: Place, active: bool): (r: Place) { p.(active := active, groups := p.groups + 1) }

  function EvalRoot(w: World, trees: Trees, root: FileId, macros: Macros): (r: Meaning)
    requires root in trees
  {
    EvalBlock(w, trees, Place(root, true, 0, 1), trees[root], macros, [])
  }

  // ----- the machine computes the meaning -----

  /** The machine stands at a place with some lexemes of its file still to come. */
  ghost predicate Ready(m: Machine, p: Place, rest: seq<Lexeme>) {
    && m.input != [] && Last(m.input) == Position(p.file, rest) && p.file != NO_FILE
    && |m.input| == |m.exec.entries| == p.depth <= INCLUDE_LIMIT
    && Last(m.exec.entries).file == p.file && Last(m.exec.entries).floor <= |m.exec.conditionals|
    && |m.exec.conditionals| == p.groups <= CONDITIONAL_LIMIT && Active(m.exec.conditionals) == p.active
  }

  /** What the machine becomes once the part meant has been read: only definitions, log and position have moved. */
  function After(m: Machine, rest: seq<Lexeme>, meaning: Meaning): (r: Run)
    requires m.input != []
  {
    match meaning
    case Halted(reason, log) => Stopped(reason, log)
    case Finished(macros, log) => Going(Machine(m.exec.(macros := macros), Move(m.input, rest), log))
  }

  lemma AfterIsReady(m: Machine, p: Place, rest: seq<Lexeme>, more: seq<Lexeme>, macros: Macros, log: Log)
    requires Ready(m, p, rest)
    ensures m.input != []
    ensures var r := After(m, more, Finished(macros, log)).m; Ready(r, p, more) && forall again, x ::
            After(r, again, x) == After(m, again, x)
  {
    var r := After(m, more, Finished(macros, log)).m;
    assert Init(r.input) == Init(m.input);
  }

  lemma OneStep(w: World, m: Machine)
    requires m.input != []
    ensures RunFor(w, Going(m), 1) == Step(w, m)
  {
    hide Step;
    assert RunFor(w, Step(w, m), 0) == Step(w, m);
  }

  lemma {:induction false} BlockRuns(w: World, trees: Trees, p: Place, b: Block, rest: seq<Lexeme>, m: Machine)
      returns (n: nat)
    requires Flattens(w, trees) && BlockOk(b) && Ready(m, p, Flatten(b) + rest)
    ensures RunFor(w, Going(m), n) == After(m, rest, EvalBlock(w, trees, p, b, m.exec.macros, m.log))
    decreases INCLUDE_LIMIT - p.depth, b
  {
    hide Step, RunFor, EvalItem, FlattenItem, Ready, Flattens, ItemOk;
    match b
    case End =>
      n := 0;
      assert Flatten(b) + rest == rest;
      Stays(w, m, p, rest);
    case Then(item, tail) =>
      assert Flatten(b) + rest == FlattenItem(item) + (Flatten(tail) + rest);
      n := ItemRuns(w, trees, p, item, Flatten(tail) + rest, m);
      var meaning := EvalItem(w, trees, p, item, m.exec.macros, m.log);
      if meaning.Finished? {
        AfterIsReady(m, p, FlattenItem(item) + (Flatten(tail) + rest), Flatten(tail) + rest, meaning.macros,
            meaning.log);
        var k := BlockRuns(w, trees, p, tail, rest, After(m, Flatten(tail) + rest, meaning).m);
        RunForSum(w, Going(m), n, k);
        n := n + k;
      }
  }

  lemma Stays(w: World, m: Machine, p: Place, rest: seq<Lexeme>)
    requires Ready(m, p, rest)
    ensures RunFor(w, Going(m), 0) == After(m, rest, Finished(m.exec.macros, m.log))
  {
    assert Move(m.input, rest) == m.input;
  }

  lemma {:induction false} ItemRuns(w: World, trees: Trees, p: Place, i: Item, rest: seq<Lexeme>, m: Machine)
      returns (n: nat)
    requires Flattens(w, trees) && ItemOk(i) && Ready(m, p, FlattenItem(i) + rest)
    ensures RunFor(w, Going(m), n) == After(m, rest, EvalItem(w, trees, p, i, m.exec.macros, m.log))
    decreases INCLUDE_LIMIT - p.depth, i, 2
  {
    match i
    case Plain(at) =>
      n := 1;
      OneStep(w, m);
      assert ([Lexeme.Word(at)] + rest)[1..] == rest;
    case Lone(d) => n := LoneRuns(w, trees, p, d, rest, m);
    case Group(_, _, _, _) => n := GroupRuns(w, trees, p, i, rest, m);
  }

  /** The lexemes of an included file are read to its end and the file is left, back where the include stood. */
  lemma {:induction false} LoneRuns(w: World, trees: Trees, p: Place, d: Directive, rest: seq<Lexeme>, m: Machine)
      returns (n: nat)
    requires Flattens(w, trees) && !IsConditional(d.kind) && Ready(m, p, [Mark(d)] + rest)
    ensures RunFor(w, Going(m), n) == After(m, rest, EvalItem(w, trees, p, Lone(d), m.exec.macros, m.log))
    decreases INCLUDE_LIMIT - p.depth, Lone(d), 0
  {
    hide RunFor, EvalBlock, Flatten, BlockOk, ActiveEffect;
    assert ([Mark(d)] + rest)[1..] == rest;
    n := 1;
    OneStep(w, m);
    var effect := EffectOf(p.active, m.exec.macros, p.file, d, w.source(p.file));
    if effect.Requested? && w.resolve(effect.request).Some? {
      var target := w.resolve(effect.request).value;
      if target in trees && p.depth < INCLUDE_LIMIT {
        var inside := Place(target, true, p.groups, p.depth + 1);
        var inner := Step(w, m).m;
        assert inner.input == Move(m.input, rest) + [Position(target, Flatten(trees[target]))];
        assert Flatten(trees[target]) + [] == Flatten(trees[target]);
        var k := BlockRuns(w, trees, inside, trees[target], [], inner);
        RunForSum(w, Going(m), 1, k);
        n := 1 + k;
        var meaning := EvalBlock(w, trees, inside, trees[target], inner.exec.macros, inner.log);
        if meaning.Finished? {
          LeaveStep(w, After(inner, [], meaning).m);
          RunForSum(w, Going(m), n, 1);
          n := n + 1;
          assert Init(Move(inner.input, [])) == Move(m.input, rest);
          assert Init(inner.exec.entries) == m.exec.entries;
        }
      }
    }
  }

  lemma LeaveStep(w: World, m: Machine)
    requires |m.input| > 1 && Last(m.input).rest == [] && m.exec.entries != [] && Last(m.input).file != NO_FILE
    requires Last(m.exec.entries) == Entry(Last(m.input).file, |m.exec.conditionals|)
    ensures RunFor(w, Going(m), 1) == Going(Machine(m.exec.(entries := Init(m.exec.entries)), Init(m.input), m.log))
  {
    OneStep(w, m);
  }

  /** The stack of groups as it is inside a group that has been opened. */
  function Within(m: Machine, rest: seq<Lexeme>, f: Frame): (r: Machine)
    requires m.input != []
  {
    Machine(m.exec.(conditionals := m.exec.conditionals + [f]), Move(m.input, rest), m.log)
  }

  lemma OpenStep(w: World, p: Place, open: Directive, rest: seq<Lexeme>, m: Machine)
    requires Ready(m, p, [Mark(open)] + rest) && (open.kind.Ifdef? || open.kind.Ifndef?) && p.groups < CONDITIONAL_LIMIT
    requires p.active ==> Condition(m.exec.macros, open, w.source(p.file)).Some?
    ensures var condition := p.active && Condition(m.exec.macros, open, w.source(p.file)).value;
            var r := Within(m, rest, Frame(p.file, open.at, p.active, condition, condition, false));
            RunFor(w, Going(m), 1) == Going(r) && Ready(r, Branch(p, condition), rest)
  {
    OneStep(w, m);
    assert ([Mark(open)] + rest)[1..] == rest;
  }

  lemma ElseStep(w: World, p: Place, mark: Directive, rest: seq<Lexeme>, m: Machine, f: Frame)
    requires m.input != [] && mark.kind.Else? && f.file == p.file && !f.elseSeen && f.parentActive == p.active
    requires Ready(m, p, rest) && p.groups < CONDITIONAL_LIMIT
    ensures var flipped := f.(elseSeen := true, branchActive := f.parentActive && !f.condition);
            var before, after := Within(m, [Mark(mark)] + rest, f), Within(m, rest, flipped);
            RunFor(w, Going(before), 1) == Going(after) && Ready(after, Branch(p, p.active && !f.condition), rest)
  {
    var flipped := f.(elseSeen := true, branchActive := f.parentActive && !f.condition);
    var before := Within(m, [Mark(mark)] + rest, f);
    OneStep(w, before);
    assert ([Mark(mark)] + rest)[1..] == rest;
    assert Init(before.input) == Init(m.input);
    assert Init(before.exec.conditionals) + [flipped] == m.exec.conditionals + [flipped];
  }

  lemma CloseStep(w: World, p: Place, close: Directive, rest: seq<Lexeme>, m: Machine, f: Frame)
    requires m.input != [] && close.kind.Endif? && f.file == p.file && Ready(m, p, rest)
    ensures RunFor(w, Going(Within(m, [Mark(close)] + rest, f)), 1) == Going(m)
  {
    var before := Within(m, [Mark(close)] + rest, f);
    OneStep(w, before);
    assert ([Mark(close)] + rest)[1..] == rest;
    assert Init(before.input) == Init(m.input);
    assert Init(before.exec.conditionals) == m.exec.conditionals;
    assert Move(m.input, rest) == m.input;
  }

  lemma ReadyBounds(m: Machine, p: Place, rest: seq<Lexeme>)
    requires Ready(m, p, rest)
    ensures m.input != [] && p.groups <= CONDITIONAL_LIMIT
  {
  }

  lemma AfterWithin(m: Machine, x: seq<Lexeme>, rest: seq<Lexeme>, more: seq<Lexeme>, f: Frame, macros: Macros,
      log: Log)
    requires m.input != []
    ensures var meaning := Finished(macros, log);
            After(Within(m, x, f), more, meaning) == Going(Within(After(m, rest, meaning).m, more, f))
  {
    assert Init(Move(m.input, x)) == Init(m.input) && Init(Move(m.input, rest)) == Init(m.input);
  }

  lemma GroupText(open: Directive, body: Block, other: Option<Other>, close: Directive, rest: seq<Lexeme>)
    ensures var tail := if other.Some?
            then [Mark(other.value.mark)] + (Flatten(other.value.body) + ([Mark(close)] + rest))
                        else [Mark(close)] + rest;
            FlattenItem(Group(open, body, other, close)) + rest == [Mark(open)] + (Flatten(body) + tail)
  {
    hide Flatten;
    var b := Flatten(body);
    if other.Some? {
      var o := Flatten(other.value.body);
      assert [Mark(open)] + (b + (([Mark(other.value.mark)] + o) + [Mark(close)])) + rest
          == [Mark(open)] + (b + ([Mark(other.value.mark)] + (o + ([Mark(close)] + rest))));
    } else {
      assert [Mark(open)] + (b + ([] + [Mark(close)])) + rest == [Mark(open)] + (b + ([Mark(close)] + rest));
    }
  }

  lemma {:induction false} GroupRuns(w: World, trees: Trees, p: Place, i: Item, rest: seq<Lexeme>, m: Machine)
      returns (n: nat)
    requires Flattens(w, trees) && ItemOk(i) && i.Group? && Ready(m, p, FlattenItem(i) + rest)
    ensures RunFor(w, Going(m), n) == After(m, rest, EvalItem(w, trees, p, i, m.exec.macros, m.log))
    decreases INCLUDE_LIMIT - p.depth, i, 1
  {
    hide RunFor, Step, EvalBlock, Flatten, FlattenItem, BlockOk, Flattens, Condition, Ready, Within;
    var Group(open, body, other, close) := i;
    var condition := Condition(m.exec.macros, open, w.source(p.file));
    var tail := if other.Some? then [Mark(other.value.mark)] + (Flatten(other.value.body) + ([Mark(close)] + rest))
                else [Mark(close)] + rest;
    GroupText(open, body, other, close, rest);
    ReadyBounds(m, p, FlattenItem(i) + rest);
    if p.groups == CONDITIONAL_LIMIT || (p.active && condition.None?) {
      n := 1;
      OpenRefused(w, p, open, Flatten(body) + tail, m);
      return;
    }
    var chosen := p.active && condition.value;
    var f := Frame(p.file, open.at, p.active, chosen, chosen, false);
    OpenStep(w, p, open, Flatten(body) + tail, m);
    var begun := Within(m, Flatten(body) + tail, f);
    var k := BlockRuns(w, trees, Branch(p, chosen), body, tail, begun);
    WithinKeeps(m, Flatten(body) + tail, f);
    RunForSum(w, Going(m), 1, k);
    n := 1 + k;
    var meaning := EvalBlock(w, trees, Branch(p, chosen), body, m.exec.macros, m.log);
    if meaning.Finished? {
      var more := TailRuns(w, trees, p, i, rest, m, f, meaning.macros, meaning.log);
      AfterWithin(m, Flatten(body) + tail, rest, tail, f, meaning.macros, meaning.log);
      RunForSum(w, Going(m), n, more);
      n := n + more;
    }
  }

  lemma WithinKeeps(m: Machine, rest: seq<Lexeme>, f: Frame)
    requires m.input != []
    ensures Within(m, rest, f).exec.macros == m.exec.macros && Within(m, rest, f).log == m.log
  {
  }

  lemma OpenRefused(w: World, p: Place, open: Directive, rest: seq<Lexeme>, m: Machine)
    requires Ready(m, p, [Mark(open)] + rest) && (open.kind.Ifdef? || open.kind.Ifndef?)
    requires p.groups == CONDITIONAL_LIMIT || (p.active && Condition(m.exec.macros, open, w.source(p.file)).None?)
    ensures var error := if p.groups == CONDITIONAL_LIMIT then Error(ConditionalDepthExceeded, p.file, open.at)
                         else Error(MalformedOperand, p.file, open.name);
            RunFor(w, Going(m), 1) == Stopped(ByDirective(error), m.log)
  {
    OneStep(w, m);
  }

  /** The rest of a group once its first branch has been read. */
  lemma {:induction false} TailRuns(w: World, trees: Trees, p: Place, i: Item, rest: seq<Lexeme>,
      m: Machine, f: Frame, macros: Macros, log: Log) returns (n: nat)
    requires Flattens(w, trees) && i.Group? && ItemOk(i)
    requires exists before :: Ready(m, p, before)
    requires f.file == p.file && !f.elseSeen && f.parentActive == p.active && p.groups < CONDITIONAL_LIMIT
    ensures m.input != []
    ensures var Group(_, _, other, close) := i;
            var tail := if other.Some?
                then [Mark(other.value.mark)] + (Flatten(other.value.body) + ([Mark(close)] + rest))
                        else [Mark(close)] + rest;
            var meaning := if other.None? then Finished(macros, log)
                           else EvalBlock(w, trees, Branch(p, p.active && !f.condition), other.value.body, macros, log);
            RunFor(w, Going(Within(After(m, rest, Finished(macros, log)).m, tail, f)), n) == After(m, rest, meaning)
    decreases INCLUDE_LIMIT - p.depth, i, 0
  {
    hide RunFor, Step, EvalBlock, Flatten, BlockOk, Flattens, Ready, Within;
    var Group(_, _, other, close) := i;
    var before :| Ready(m, p, before);
    AfterIsReady(m, p, before, rest, macros, log);
    var base := After(m, rest, Finished(macros, log)).m;
    match other
    case None =>
      n := 1;
      CloseStep(w, p, close, rest, base, f);
    case Some(o) =>
      var last := [Mark(close)] + rest;
      var inner := Flatten(o.body) + last;
      AfterIsReady(base, p, rest, inner, macros, log);
      var moved := After(base, inner, Finished(macros, log)).m;
      WithinMoves(m, base, moved, rest, inner, [Mark(o.mark)] + inner, f, macros, log);
      ElseStep(w, p, o.mark, inner, moved, f);
      var flipped := f.(elseSeen := true, branchActive := f.parentActive && !f.condition);
      var branch := Branch(p, p.active && !f.condition);
      WithinKeeps(moved, inner, flipped);
      var k := BlockRuns(w, trees, branch, o.body, last, Within(moved, inner, flipped));
      RunForSum(w, Going(Within(moved, [Mark(o.mark)] + inner, f)), 1, k);
      n := 1 + k;
      var meaning := EvalBlock(w, trees, branch, o.body, macros, log);
      if meaning.Finished? {
        AfterWithin(moved, inner, rest, last, flipped, meaning.macros, meaning.log);
        AfterIsReady(moved, p, inner, rest, meaning.macros, meaning.log);
        CloseStep(w, p, close, rest, After(moved, rest, meaning).m, flipped);
        RunForSum(w, Going(Within(moved, [Mark(o.mark)] + inner, f)), n, 1);
        n := n + 1;
      }
  }

  lemma WithinMoves(m: Machine, base: Machine, moved: Machine, rest: seq<Lexeme>, inner: seq<Lexeme>, x: seq<Lexeme>,
      f: Frame,
      macros: Macros, log: Log)
    requires m.input != [] && After(m, rest, Finished(macros, log)) == Going(base)
    requires base.input != [] && After(base, inner, Finished(macros, log)) == Going(moved)
    ensures moved.input != [] && Within(base, x, f) == Within(moved, x, f)
    ensures moved.exec.macros == macros && moved.log == log
  {
    assert Init(moved.input) == Init(base.input);
  }

  // ----- whole programs -----

  lemma {:induction false} EndedStays(w: World, r: Run, n: nat)
    requires !r.Going?
    ensures RunFor(w, r, n) == r
  {
  }

  function Ended(meaning: Meaning): (r: Run) {
    match meaning
    case Finished(macros, log) => Completed(macros, log)
    case Halted(reason, log) => Stopped(reason, log)
  }

  /**
   * The machine always comes to an end, and ends as the tree evaluator says: with its definitions
   * and its words and includes, or with its error after the same words and includes.
   */
  lemma ProgramRuns(w: World, trees: Trees, root: FileId, macros: Macros) returns (n: nat)
    requires Flattens(w, trees) && root in trees
    ensures forall k | k >= n :: RunFor(w, Start(w, root, macros), k) == Ended(EvalRoot(w, trees, root, macros))
  {
    hide RunFor, EvalBlock, Flatten, BlockOk;
    var start := Start(w, root, macros);
    var m := start.m;
    var p := Place(root, true, 0, 1);
    assert Flatten(trees[root]) + [] == Flatten(trees[root]);
    n := BlockRuns(w, trees, p, trees[root], [], m);
    var meaning := EvalRoot(w, trees, root, macros);
    if meaning.Finished? {
      var last := After(m, [], meaning).m;
      OneStep(w, last);
      RunForSum(w, start, n, 1);
      n := n + 1;
    }
    forall k | k >= n ensures RunFor(w, start, k) == Ended(meaning) {
      RunForSum(w, start, n, k - n);
      EndedStays(w, Ended(meaning), k - n);
    }
  }

  // ----- runs over any streams, nested or not -----

  /** Lexical input and executor stand in the same files. */
  ghost predicate InStep(m: Machine) {
    && Sound(m.exec) && m.input != [] && |m.input| == |m.exec.entries|
    && forall i | 0 <= i < |m.input| :: m.input[i].file == m.exec.entries[i].file
  }

  lemma StepInStep(w: World, m: Machine)
    requires InStep(m) && NO_FILE !in w.texts
    ensures Step(w, m).Going? ==> InStep(Step(w, m).m)
    ensures !(Step(w, m).Stopped? && Step(w, m).reason.NotEntered?)
  {
    hide WellCached, EffectOf, BeginConditional;
    var file, rest := Last(m.input).file, Last(m.input).rest;
    EntriesKeepSound(m.exec, file);
    if rest != [] && rest[0].Mark? {
      var d, source := rest[0].d, w.source(file);
      if Execute(m.exec, file, d, source).Done? {
        ExecuteKeepsSound(m.exec, file, d, source);
        ExecuteKeepsEntries(m.exec, file, d, source);
        var exec := Execute(m.exec, file, d, source).st;
        forall target ensures EnterFile(exec, target).Some? ==> Sound(EnterFile(exec, target).value) {
          EntriesKeepSound(exec, target);
        }
      }
    }
  }

  lemma ExecuteKeepsEntries(st: Exec, file: FileId, d: Directive, source: bytes)
    requires Execute(st, file, d, source).Done?
    ensures Execute(st, file, d, source).st.entries == st.entries
  {
  }

  /**
   * In every reachable state the cached flags are the conjunctions, and the executor never refuses a file input has
   * entered.
   */
  lemma {:induction false} RunsInStep(w: World, root: FileId, macros: Macros, n: nat)
    requires root in w.texts && NO_FILE !in w.texts
    ensures var r := RunFor(w, Start(w, root, macros), n);
            (r.Going? ==> InStep(r.m)) && !(r.Stopped? && r.reason.NotEntered?)
  {
    hide Step, Sound;
    if n == 0 {
      RootSound(root, macros);
      assert [] + [Entry(root, 0)] == [Entry(root, 0)];
    } else {
      RunsInStep(w, root, macros, n - 1);
      var r := RunFor(w, Start(w, root, macros), n - 1);
      RunForSum(w, Start(w, root, macros), n - 1, 1);
      if r.Going? {
        StepInStep(w, r.m);
        OneStep(w, r.m);
      }
    }
  }

  lemma RootSound(root: FileId, macros: Macros)
    requires root != NO_FILE
    ensures Sound(Exec([], [Entry(root, 0)], macros))
  {
  }

  /** Everything at or below the entry of base is as it was in base. */
  ghost predicate Guards(base: Machine, m: Machine)
    requires InStep(base)
  {
    var level := |base.exec.entries|;
    && InStep(m) && |m.input| >= level && m.exec.entries[..level] == base.exec.entries
    && m.input[..level - 1] == Init(base.input)
    && |base.exec.conditionals| <= |m.exec.conditionals|
       && m.exec.conditionals[..|base.exec.conditionals|] == base.exec.conditionals
  }

  /** A stack whose bottom part is as before has the bottom of that part as before. */
  lemma BottomKept<T>(a: seq<T>, b: seq<T>, n: nat, below: seq<T>)
    requires |below| <= n <= |a| && n <= |b| && a[..n] == b[..n] && a[..|below|] == below
    ensures b[..|below|] == below
  {
    assert b[..|below|] == b[..n][..|below|] && a[..|below|] == a[..n][..|below|];
  }

  /** No directive reaches below the floor of its own file. */
  lemma ExecuteKeepsBelow(st: Exec, file: FileId, d: Directive, source: bytes)
    requires Execute(st, file, d, source).Done?
    ensures st.entries != []
    ensures var next, floor := Execute(st, file, d, source).st, Last(st.entries).floor;
            && next.entries == st.entries && floor <= |st.conditionals| && floor <= |next.conditionals|
            && next.conditionals[..floor] == st.conditionals[..floor]
  {
    hide EffectOf, Condition;
  }

  /** Executing a directive, or reading a word, in a file at or above the level of base. */
  lemma GuardsMove(base: Machine, m: Machine, next: Machine)
    requires InStep(base) && Guards(base, m) && InStep(next)
             && Last(base.exec.entries).floor == |base.exec.conditionals|
    requires next.exec.entries == m.exec.entries && |next.input| == |m.input| && Init(next.input) == Init(m.input)
    requires var floor := Last(m.exec.entries).floor;
             && floor <= |m.exec.conditionals| && floor <= |next.exec.conditionals|
             && next.exec.conditionals[..floor] == m.exec.conditionals[..floor]
    ensures Guards(base, next)
  {
    hide Sound;
    LevelsRise(base, m);
    BottomKept(m.exec.conditionals, next.exec.conditionals, Last(m.exec.entries).floor, base.exec.conditionals);
    assert next.input[..|base.input| - 1] == Init(next.input)[..|base.input| - 1];
    assert m.input[..|base.input| - 1] == Init(m.input)[..|base.input| - 1];
  }

  lemma LevelsRise(base: Machine, m: Machine)
    requires InStep(base) && Guards(base, m) && Last(base.exec.entries).floor == |base.exec.conditionals|
    ensures Last(m.exec.entries).floor >= |base.exec.conditionals|
  {
    hide WellCached;
    assert m.exec.entries[|base.exec.entries| - 1] == Last(base.exec.entries);
  }

  lemma GuardsEnter(base: Machine, m: Machine, next: Machine)
    requires InStep(base) && Guards(base, m) && InStep(next) && next.exec.conditionals == m.exec.conditionals
    requires |next.exec.entries| == |m.exec.entries| + 1 && Init(next.exec.entries) == m.exec.entries
    requires |next.input| == |m.input| + 1 && Init(next.input) == m.input
    ensures Guards(base, next)
  {
    hide Sound;
    var level := |base.exec.entries|;
    assert next.exec.entries[..level] == Init(next.exec.entries)[..level];
    assert next.input[..level - 1] == Init(next.input)[..level - 1];
  }

  lemma GuardsLeave(base: Machine, m: Machine, next: Machine)
    requires InStep(base) && Guards(base, m) && Last(base.exec.entries).floor == |base.exec.conditionals|
    requires next.exec.conditionals == m.exec.conditionals && |m.exec.conditionals| == Last(m.exec.entries).floor
    requires next.exec.entries == Init(m.exec.entries) && next.input == Init(m.input)
             && (next.input != [] ==> InStep(next))
    ensures if |next.input| >= |base.input| then Guards(base, next)
            else next.exec.conditionals == base.exec.conditionals && next.exec.entries == Init(base.exec.entries)
                 && next.input == Init(base.input)
  {
    hide Sound;
    var level := |base.exec.entries|;
    if |m.input| > level {
      assert next.exec.entries[..level] == m.exec.entries[..level];
      assert next.input[..level - 1] == m.input[..level - 1];
    } else {
      assert m.exec.entries[..level] == m.exec.entries && m.input[..level - 1] == Init(m.input);
      assert m.exec.conditionals[..|base.exec.conditionals|] == m.exec.conditionals;
    }
  }

  lemma MoveMoves(input: seq<Position>, rest: seq<Lexeme>)
    requires input != []
    ensures |Move(input, rest)| == |input| && Init(Move(input, rest)) == Init(input)
  {
  }

  lemma FloorsFit(m: Machine)
    requires InStep(m)
    ensures m.exec.entries != [] && Last(m.exec.entries).floor <= |m.exec.conditionals|
  {
    hide WellCached;
  }

  lemma StepGuards(w: World, base: Machine, m: Machine)
    requires InStep(base) && Guards(base, m) && NO_FILE !in w.texts && Step(w, m).Going?
    requires Last(base.exec.entries).floor == |base.exec.conditionals|
    ensures var next := Step(w, m).m;
            if |next.input| >= |base.input| then Guards(base, next)
            else next.exec.conditionals == base.exec.conditionals && next.exec.entries == Init(base.exec.entries)
                 && next.input == Init(base.input)
  {
    hide Sound, Execute, Guards, Move, InStep, Active;
    assert InStep(m) && |m.input| >= |base.input| by {
      GuardsMeans(base, m);
    }
    InStepReads(m);
    StepInStep(w, m);
    FloorsFit(m);
    var file, rest := Last(m.input).file, Last(m.input).rest;
    var next := Step(w, m).m;
    if rest == [] {
      GuardsLeave(base, m, next);
    } else {
      MoveMoves(m.input, rest[1..]);
      if rest[0].Word? {
        GuardsMove(base, m, next);
      } else {
        var d, source := rest[0].d, w.source(file);
        var outcome := Execute(m.exec, file, d, source);
        ExecuteKeepsBelow(m.exec, file, d, source);
        if outcome.request.None? {
          GuardsMove(base, m, next);
        } else {
          RequestChangesNothing(m.exec, file, d, source);
          var moved := m.(input := Move(m.input, rest[1..]));
          SnocEntered(next, moved);
          assert Init(next.input) == moved.input;
          InStepMoves(m, moved);
          GuardsMove(base, m, moved);
          GuardsEnter(base, moved, next);
        }
      }
    }
  }

  lemma GuardsMeans(base: Machine, m: Machine)
    requires InStep(base) && Guards(base, m)
    ensures InStep(m) && |m.input| >= |base.input|
  {
  }

  lemma RequestChangesNothing(st: Exec, file: FileId, d: Directive, source: bytes)
    requires Execute(st, file, d, source).Done? && Execute(st, file, d, source).request.Some?
    ensures Execute(st, file, d, source).st == st
  {
    hide EffectOf, Condition;
  }

  lemma SnocEntered(next: Machine, moved: Machine)
    ensures forall e: Entry :: Init(moved.exec.entries + [e]) == moved.exec.entries
    ensures forall p: Position :: Init(moved.input + [p]) == moved.input
  {
  }

  lemma InStepMoves(m: Machine, moved: Machine)
    requires InStep(m) && Last(m.input).rest != [] && moved == m.(input := Move(m.input, Last(m.input).rest[1..]))
    ensures InStep(moved)
  {
    hide Sound;
  }

  lemma GoingBefore(w: World, r: Run, n: nat)
    requires RunFor(w, r, n).Going?
    ensures r.Going?
  {
  }

  /** For part of a run more files are open than a given number. */
  ghost predicate StaysAbove(w: World, r: Run, from: nat, to: nat, level: int) {
    forall k | from <= k < to :: RunFor(w, r, k).Going? && |RunFor(w, r, k).m.input| > level
  }

  lemma StaysAboveNext(w: World, r: Run, next: Run, n: nat, level: int)
    requires StaysAbove(w, r, 0, n + 1, level) && RunFor(w, r, 1) == next
    ensures StaysAbove(w, next, 0, n, level)
  {
    hide RunFor;
    forall k | 0 <= k < n ensures RunFor(w, next, k).Going? && |RunFor(w, next, k).m.input| > level {
      RunForSum(w, r, 1, k);
    }
  }

  /**
   * Include isolation: whatever a file contains, from entering it to leaving it again the groups of
   * the file that includes it are untouched, and so is whether that file is being read.
   */
  lemma {:induction false} IncludeIsolation(w: World, base: Machine, m: Machine, n: nat)
    requires InStep(base) && Guards(base, m) && NO_FILE !in w.texts
             && Last(base.exec.entries).floor == |base.exec.conditionals|
    requires StaysAbove(w, Going(m), 0, n, |base.input| - 1)
    requires RunFor(w, Going(m), n).Going? && |RunFor(w, Going(m), n).m.input| < |base.input|
    ensures var left := RunFor(w, Going(m), n).m;
            && left.exec.conditionals == base.exec.conditionals && left.exec.entries == Init(base.exec.entries)
            && left.input == Init(base.input) && Active(left.exec.conditionals) == Active(base.exec.conditionals)
    decreases n
  {
    hide Step, Sound;
    assert RunFor(w, Going(m), 0) == Going(m);
    assert n > 0 && m.input != [];
    OneStep(w, m);
    RunForSum(w, Going(m), 1, n - 1);
    assert Step(w, m).Going? by {
      GoingBefore(w, Step(w, m), n - 1);
    }
    StepGuards(w, base, m);
    var next := Step(w, m).m;
    if n > 1 {
      StaysAboveNext(w, Going(m), Going(next), n - 1, |base.input| - 1);
      assert |next.input| >= |base.input| by {
        assert RunFor(w, Going(m), 1) == Going(next);
      }
      hide RunFor, StaysAbove, Guards;
      IncludeIsolation(w, base, next, n - 1);
    }
  }

  /** A run seen from one of its states. */
  lemma RunsFrom(w: World, start: Run, from: nat, base: Machine, level: nat, n: nat)
    requires from <= n && RunFor(w, start, from) == Going(base)
    requires StaysAbove(w, start, from, n, level)
    ensures StaysAbove(w, Going(base), 0, n - from, level)
    ensures RunFor(w, Going(base), n - from) == RunFor(w, start, n)
  {
    hide RunFor;
    forall k | 0 <= k < n - from
      ensures RunFor(w, Going(base), k).Going? && |RunFor(w, Going(base), k).m.input| > level
    {
      RunForSum(w, start, from, k);
    }
    RunForSum(w, start, from, n - from);
  }

  lemma AboveAt(w: World, r: Run, from: nat, to: nat, level: int)
    requires StaysAbove(w, r, from, to, level) && from < to
    ensures RunFor(w, r, from).Going? && |RunFor(w, r, from).m.input| > level
  {
  }

  lemma InStepReads(m: Machine)
    requires InStep(m)
    ensures m.input != []
  {
  }

  /** A step that enters a file leaves the groups as they are and puts the file's floor on top of them. */
  lemma EnteringGuards(w: World, m: Machine)
    requires InStep(m) && NO_FILE !in w.texts && Step(w, m).Going? && |Step(w, m).m.input| > |m.input|
    ensures Last(m.input).rest != []
    ensures var base := Step(w, m).m;
            && InStep(base) && Guards(base, base) && base.exec.conditionals == m.exec.conditionals
            && Init(base.exec.entries) == m.exec.entries && Last(base.exec.entries).floor == |base.exec.conditionals|
            && |base.input| == |m.input| + 1 && Init(base.input) == Move(m.input, Last(m.input).rest[1..])
  {
    hide WellCached, Condition, DefineEffect;
    StepInStep(w, m);
  }

  lemma IsolatedFrom(w: World, start: Run, j: nat, n: nat)
    requires NO_FILE !in w.texts && j + 1 < n && RunFor(w, start, j).Going? && InStep(RunFor(w, start, j).m)
    requires StaysAbove(w, start, j + 1, n, |RunFor(w, start, j).m.input|)
    requires RunFor(w, start, n).Going? && |RunFor(w, start, n).m.input| <= |RunFor(w, start, j).m.input|
    ensures var before, after := RunFor(w, start, j).m, RunFor(w, start, n).m;
            && after.exec.conditionals == before.exec.conditionals && after.exec.entries == before.exec.entries
            && before.input != [] && Last(before.input).rest != []
            && after.input == Move(before.input, Last(before.input).rest[1..])
  {
    hide *;
    var before := RunFor(w, start, j).m;
    assert before.input != [] by {
      InStepReads(before);
    }
    RunForSum(w, start, j, 1);
    OneStep(w, before);
    assert Step(w, before).Going? && |Step(w, before).m.input| > |before.input| by {
      AboveAt(w, start, j + 1, n, |before.input|);
    }
    var base := Step(w, before).m;
    EnteringGuards(w, before);
    RunsFrom(w, start, j + 1, base, |before.input|, n);
    IncludeIsolation(w, base, base, n - (j + 1));
  }

  /**
   * In every run: from the step that enters an included file to the first step after which that file
   * has been left, whatever is included in between, the groups and files of the includer are restored
   * and it goes on behind the directive.
   */
  lemma IncludesAreIsolated(w: World, root: FileId, macros: Macros, j: nat, n: nat)
    requires root in w.texts && NO_FILE !in w.texts && j + 1 < n
    requires RunFor(w, Start(w, root, macros), j).Going? && RunFor(w, Start(w, root, macros), n).Going?
    requires StaysAbove(w, Start(w, root, macros), j + 1, n, |RunFor(w, Start(w, root, macros), j).m.input|)
    requires |RunFor(w, Start(w, root, macros), n).m.input| <= |RunFor(w, Start(w, root, macros), j).m.input|
    ensures var before, after := RunFor(w, Start(w, root, macros), j).m, RunFor(w, Start(w, root, macros), n).m;
            && after.exec.conditionals == before.exec.conditionals && after.exec.entries == before.exec.entries
            && Active(after.exec.conditionals) == Active(before.exec.conditionals)
            && before.input != [] && Last(before.input).rest != []
            && after.input == Move(before.input, Last(before.input).rest[1..])
  {
    hide RunFor, InStep, Active, Move, StaysAbove;
    RunsInStep(w, root, macros, j);
    IsolatedFrom(w, Start(w, root, macros), j, n);
  }
}
