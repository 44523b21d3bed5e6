/** A run that completes has read only files whose conditional groups nest: each is some tree of groups written out. */
module DirectiveNesting {
  import opened Bytes
  import opened Wrappers
  import opened Sequences
  import opened Directives
  import opened DirectiveRefinement

  /** The groups left open by some lexemes, each with whether its #else was seen; None when one is out of place. */
  function Scan(ls: seq<Lexeme>, open: seq<bool>): (r: Option<seq<bool>>) {
    if ls == [] then Some(open)
    else
      match ScanOne(ls[0], open)
      case None => None
      case Some(next) => Scan(ls[1..], next)
  }

  function ScanOne(l: Lexeme, open: seq<bool>): (r: Option<seq<bool>>) {
    match l
    case Word(_) => Some(open)
    case Mark(d) =>
      if d.kind.Ifdef? || d.kind.Ifndef? then Some(open + [false])
      else if d.kind.Else? then if open == [] || Last(open) then None else Some(Init(open) + [true])
      else if d.kind.Endif? then if open == [] then None else Some(Init(open))
      else Some(open)
  }

  predicate Nested(ls: seq<Lexeme>) { Scan(ls, []) == Some([]) }

  lemma {:induction false} ScanConcat(a: seq<Lexeme>, b: seq<Lexeme>, open: seq<bool>)
    ensures Scan(a + b, open) == if Scan(a, open).None? then None else Scan(b, Scan(a, open).value)
    decreases |a|
  {
    if a == [] {
      assert a + b == b;
    } else {
      assert (a + b)[1..] == a[1..] + b;
      if ScanOne(a[0], open).Some? {
        ScanConcat(a[1..], b, ScanOne(a[0], open).value);
      }
    }
  }

  /** Reads as many whole items as there are before an #else or #endif of the enclosing group. */
  lemma {:induction false} ParseBlock(ls: seq<Lexeme>, open: seq<bool>) returns (b: Block, tail: seq<Lexeme>)
    requires Scan(ls, open) == Some([])
    ensures BlockOk(b) && ls == Flatten(b) + tail && Scan(tail, open) == Some([])
    ensures if open == [] then tail == [] else
              tail != [] && tail[0].Mark? && (tail[0].d.kind.Endif? || (tail[0].d.kind.Else? && !Last(open)))
    decreases |ls|
  {
    if ls == [] || (ls[0].Mark? && (ls[0].d.kind.Endif? || ls[0].d.kind.Else?)) {
      b, tail := End, ls;
      assert Flatten(b) + tail == ls;
    } else {
      var item, more := ParseItem(ls, open);
      var rest: Block;
      rest, tail := ParseBlock(more, open);
      b := Then(item, rest);
      assert ls == FlattenItem(item) + (Flatten(rest) + tail);
    }
  }

  lemma WithoutElse(ls: seq<Lexeme>, body: Block, t: seq<Lexeme>) returns (item: Item)
    requires ls != [] && ls[0].Mark? && (ls[0].d.kind.Ifdef? || ls[0].d.kind.Ifndef?) && BlockOk(body)
    requires ls[1..] == Flatten(body) + t && t != [] && t[0].Mark? && t[0].d.kind.Endif?
    ensures ItemOk(item) && ls == FlattenItem(item) + t[1..] && |t| < |ls|
  {
    hide Flatten, BlockOk, FlattenItem;
    item := Group(ls[0].d, body, None, t[0].d);
    GroupText(ls[0].d, body, None, t[0].d, t[1..]);
    assert ls == [ls[0]] + ls[1..] && t == [t[0]] + t[1..];
  }

  lemma WithElse(ls: seq<Lexeme>, body: Block, t: seq<Lexeme>, second: Block, u: seq<Lexeme>) returns (item: Item)
    requires ls != [] && ls[0].Mark? && (ls[0].d.kind.Ifdef? || ls[0].d.kind.Ifndef?) && BlockOk(body)
             && BlockOk(second)
    requires ls[1..] == Flatten(body) + t && t != [] && t[0].Mark? && t[0].d.kind.Else?
    requires t[1..] == Flatten(second) + u && u != [] && u[0].Mark? && u[0].d.kind.Endif?
    ensures ItemOk(item) && ls == FlattenItem(item) + u[1..] && |u| < |ls|
  {
    hide Flatten, BlockOk, FlattenItem;
    item := Group(ls[0].d, body, Some(Other(t[0].d, second)), u[0].d);
    GroupText(ls[0].d, body, item.other, u[0].d, u[1..]);
    assert ls == [ls[0]] + ls[1..] && t == [t[0]] + t[1..] && u == [u[0]] + u[1..];
  }

  lemma {:induction false} ParseItem(ls: seq<Lexeme>, open: seq<bool>) returns (item: Item, more: seq<Lexeme>)
    requires Scan(ls, open) == Some([]) && ls != [] && !(ls[0].Mark? && (ls[0].d.kind.Endif? || ls[0].d.kind.Else?))
    ensures ItemOk(item) && ls == FlattenItem(item) + more && Scan(more, open) == Some([]) && |more| < |ls|
    decreases |ls|, 1
  {
    hide Flatten, BlockOk;
    more := ls[1..];
    if ls[0].Word? {
      item := Plain(ls[0].at);
    } else if ls[0].d.kind.Ifdef? || ls[0].d.kind.Ifndef? {
      item, more := ParseGroup(ls, open);
    } else {
      item := Lone(ls[0].d);
    }
  }

  lemma {:induction false} ParseGroup(ls: seq<Lexeme>, open: seq<bool>) returns (item: Item, more: seq<Lexeme>)
    requires Scan(ls, open) == Some([]) && ls != [] && ls[0].Mark? && (ls[0].d.kind.Ifdef? || ls[0].d.kind.Ifndef?)
    ensures ItemOk(item) && ls == FlattenItem(item) + more && Scan(more, open) == Some([]) && |more| < |ls|
    decreases |ls|, 0
  {
    hide Flatten, BlockOk, FlattenItem, ItemOk;
    var rest := ls[1..];
    var body, t := ParseBlock(rest, open + [false]);
    assert |rest| == |Flatten(body)| + |t|;
    assert Init(open + [false]) == open && Init(open + [true]) == open;
    if t[0].d.kind.Endif? {
      item := WithoutElse(ls, body, t);
      more := t[1..];
    } else {
      var second, u := ParseBlock(t[1..], open + [true]);
      item := WithElse(ls, body, t, second, u);
      more := u[1..];
    }
  }

  ghost predicate WritesTree(ls: seq<Lexeme>) { exists b :: BlockOk(b) && Flatten(b) == ls }

  lemma NestedIsTree(ls: seq<Lexeme>) returns (b: Block)
    requires Nested(ls)
    ensures BlockOk(b) && Flatten(b) == ls
  {
    var tail;
    b, tail := ParseBlock(ls, []);
  }

  // ----- every run -----

  function Elses(c: seq<Frame>): (r: seq<bool>) { seq(|c|, i requires 0 <= i < |c| => c[i].elseSeen) }

  /** The groups opened in the file at level i. */
  function Own(m: Machine, i: nat): (r: seq<Frame>)
    requires i < |m.exec.entries| && Levelled(m.exec)
  {
    m.exec.conditionals[m.exec.entries[i].floor..
      if i + 1 < |m.exec.entries| then m.exec.entries[i + 1].floor else |m.exec.conditionals|]
  }

  ghost predicate ReadUpTo(w: World, pos: Position, own: seq<Frame>) {
    pos.file in w.texts && exists read :: w.texts[pos.file] == read + pos.rest && Scan(read, []) == Some(Elses(own))
  }

  /** The files a log has entered, beside the root. */
  ghost predicate Entered(log: Log, f: FileId) { exists e :: e in log && e.Included? && e.target == f }

  /** Files under way are read up to their open groups; every other file entered so far nests. */
  ghost predicate Tracked(w: World, root: FileId, m: Machine) {
    && InStep(m)
    && (forall i | 0 <= i < |m.input| :: ReadUpTo(w, m.input[i], Own(m, i)))
    && (forall f | Entered(m.log, f) || f == root ::
          f in w.texts && (Nested(w.texts[f]) || exists i :: 0 <= i < |m.input| && m.input[i].file == f))
  }

  lemma ReadOne(w: World, pos: Position, own: seq<Frame>, after: seq<Frame>)
    requires ReadUpTo(w, pos, own) && pos.rest != [] && ScanOne(pos.rest[0], Elses(own)) == Some(Elses(after))
    ensures ReadUpTo(w, pos.(rest := pos.rest[1..]), after)
  {
    var read :| w.texts[pos.file] == read + pos.rest && Scan(read, []) == Some(Elses(own));
    ScanConcat(read, [pos.rest[0]], []);
    assert Scan([pos.rest[0]], Elses(own)) == Some(Elses(after));
    assert w.texts[pos.file] == (read + [pos.rest[0]]) + pos.rest[1..];
  }

  lemma ReadAll(w: World, pos: Position)
    requires ReadUpTo(w, pos, []) && pos.rest == []
    ensures Nested(w.texts[pos.file])
  {
    var read :| w.texts[pos.file] == read + pos.rest && Scan(read, []) == Some(Elses([]));
    assert read + pos.rest == read && Elses([]) == [];
  }

  lemma ElsesOfPush(c: seq<Frame>, f: Frame)
    ensures Elses(c + [f]) == Elses(c) + [f.elseSeen]
  {
  }

  lemma ElsesOfPop(c: seq<Frame>)
    requires c != []
    ensures Elses(c) != [] && Elses(Init(c)) == Init(Elses(c)) && Last(Elses(c)) == Last(c).elseSeen
  {
  }

  /** A stack above a level, as its top changes. */
  lemma AbovePush(c: seq<Frame>, f: Frame, floor: nat)
    requires floor <= |c|
    ensures (c + [f])[floor..] == c[floor..] + [f] && (c + [f])[..floor] == c[..floor]
  {
  }

  lemma AbovePop(c: seq<Frame>, floor: nat)
    requires floor < |c|
    ensures c[floor..] != [] && Init(c)[floor..] == Init(c[floor..]) && Last(c[floor..]) == Last(c)
    ensures floor <= |Init(c)| && Init(c)[..floor] == c[..floor]
  {
  }

  lemma PushScans(c: seq<Frame>, f: Frame, floor: nat)
    requires floor <= |c| && !f.elseSeen
    ensures (c + [f])[..floor] == c[..floor] && Elses((c + [f])[floor..]) == Elses(c[floor..]) + [false]
  {
    hide Elses;
    AbovePush(c, f, floor);
    ElsesOfPush(c[floor..], f);
  }

  lemma PopScans(c: seq<Frame>, floor: nat)
    requires floor < |c|
    ensures floor <= |Init(c)| && Init(c)[..floor] == c[..floor]
    ensures Elses(c[floor..]) != [] && Last(Elses(c[floor..])) == Last(c).elseSeen
    ensures Elses(Init(c)[floor..]) == Init(Elses(c[floor..]))
  {
    hide Elses;
    AbovePop(c, floor);
    ElsesOfPop(c[floor..]);
  }

  lemma FlipScans(c: seq<Frame>, f: Frame, floor: nat)
    requires floor < |c| && f.elseSeen
    ensures var next := Init(c) + [f];
            && floor <= |next| && next[..floor] == c[..floor] && Elses(c[floor..]) != []
            && Elses(next[floor..]) == Init(Elses(c[floor..])) + [true]
  {
    hide Elses;
    PopScans(c, floor);
    AbovePush(Init(c), f, floor);
    ElsesOfPush(Init(c)[floor..], f);
  }

  /** A successful directive moves the groups of its own file as the scan does, and no others. */
  lemma MarkScans(st: Exec, file: FileId, d: Directive, source: bytes)
    requires Levelled(st) && Execute(st, file, d, source).Done?
    ensures var next, floor := Execute(st, file, d, source).st, Last(st.entries).floor;
            && next.entries == st.entries && floor <= |next.conditionals|
               && next.conditionals[..floor] == st.conditionals[..floor]
            && ScanOne(Mark(d), Elses(st.conditionals[floor..])) == Some(Elses(next.conditionals[floor..]))
  {
    hide EffectOf, Condition, Elses, Levelled;
    var next, floor := Execute(st, file, d, source).st, Last(st.entries).floor;
    if d.kind.Ifdef? || d.kind.Ifndef? {
      PushScans(st.conditionals, Last(next.conditionals), floor);
    } else if d.kind.Else? {
      FlipScans(st.conditionals, Last(next.conditionals), floor);
      PopScans(st.conditionals, floor);
    } else if d.kind.Endif? {
      PopScans(st.conditionals, floor);
    }
  }

  lemma SliceOfPrefix<T>(a: seq<T>, b: seq<T>, n: nat, from: nat, to: nat)
    requires from <= to <= n && n <= |a| && n <= |b| && a[..n] == b[..n]
    ensures a[from..to] == b[from..to]
  {
    forall k | from <= k < to ensures a[k] == b[k] {
      assert a[..n][k] == a[k] && b[..n][k] == b[k];
    }
  }

  lemma OwnKept(m: Machine, next: Machine, i: nat)
    requires Levelled(m.exec) && Levelled(next.exec) && i + 1 < |m.exec.entries| && next.exec.entries == m.exec.entries
    requires var floor := Last(m.exec.entries).floor;
             floor <= |next.exec.conditionals| && next.exec.conditionals[..floor] == m.exec.conditionals[..floor]
    ensures Own(next, i) == Own(m, i)
  {
    var floor := Last(m.exec.entries).floor;
    var from, to := m.exec.entries[i].floor, m.exec.entries[i + 1].floor;
    assert to <= floor && from <= to;
    SliceOfPrefix(next.exec.conditionals, m.exec.conditionals, floor, from, to);
  }

  /** Reading one lexeme of the innermost file without leaving or entering any. */
  lemma AdvanceTracks(w: World, root: FileId, m: Machine, exec: Exec, log: Log)
    requires Tracked(w, root, m) && Last(m.input).rest != []
    requires var next := Machine(exec, Move(m.input, Last(m.input).rest[1..]), log);
      && InStep(next) && exec.entries == m.exec.entries && (forall f :: Entered(log, f) <==> Entered(m.log, f))
      && (var floor := Last(exec.entries).floor;
          && floor <= |exec.conditionals| && exec.conditionals[..floor] == m.exec.conditionals[..floor]
          && ScanOne(Last(m.input).rest[0], Elses(m.exec.conditionals[floor..]))
             == Some(Elses(exec.conditionals[floor..])))
    ensures Tracked(w, root, Machine(exec, Move(m.input, Last(m.input).rest[1..]), log))
  {
    hide Scan, ScanOne, Elses, WellCached, Entered;
    var next := Machine(exec, Move(m.input, Last(m.input).rest[1..]), log);
    var last := |m.input| - 1;
    forall i | 0 <= i < |next.input| ensures ReadUpTo(w, next.input[i], Own(next, i)) {
      if i < last {
        OwnKept(m, next, i);
        assert next.input[i] == m.input[i];
      } else {
        assert ReadUpTo(w, m.input[last], Own(m, last));
        var floor := Last(exec.entries).floor;
        assert Own(m, last) == m.exec.conditionals[floor..] && Own(next, last) == exec.conditionals[floor..];
        ReadOne(w, m.input[last], Own(m, last), Own(next, last));
      }
    }
    forall f | Entered(log, f) || f == root
      ensures f in w.texts && (Nested(w.texts[f]) || exists i :: 0 <= i < |next.input| && next.input[i].file == f)
    {
      if !Nested(w.texts[f]) {
        var i :| 0 <= i < |m.input| && m.input[i].file == f;
        assert next.input[i].file == f;
      }
    }
  }

  lemma EnteredMore(log: Log, e: Emission)
    ensures forall f :: Entered(log + [e], f) <==> Entered(log, f) || (e.Included? && e.target == f)
  {
    forall f | Entered(log, f) ensures Entered(log + [e], f) {
      var x :| x in log && x.Included? && x.target == f;
      assert x in log + [e];
    }
    assert e in log + [e];
  }

  lemma EnterTracks(w: World, root: FileId, m: Machine, request: Request, target: FileId)
    requires Tracked(w, root, m) && target in w.texts && NO_FILE !in w.texts && |m.input| < INCLUDE_LIMIT
    ensures var r := Enter(w, m, request, target); r.Going? && (InStep(r.m) ==> Tracked(w, root, r.m))
  {
    hide Scan, Elses, WellCached, Entered;
    var next := Enter(w, m, request, target).m;
    if InStep(next) {
      EnteredMore(m.log, Included(request, target));
      var last := |m.input|;
      forall i | 0 <= i < |next.input| ensures ReadUpTo(w, next.input[i], Own(next, i)) {
        if i < last {
          assert Own(next, i) == Own(m, i) && next.input[i] == m.input[i];
        } else {
          assert Own(next, last) == [];
          NothingRead(w, target);
        }
      }
      forall f | Entered(next.log, f) || f == root
        ensures f in w.texts && (Nested(w.texts[f]) || exists i :: 0 <= i < |next.input| && next.input[i].file == f)
      {
        if f == target {
          assert next.input[last].file == f;
        } else if !Nested(w.texts[f]) {
          var i :| 0 <= i < |m.input| && m.input[i].file == f;
          assert next.input[i].file == f;
        }
      }
    }
  }

  lemma NothingRead(w: World, f: FileId)
    requires f in w.texts
    ensures ReadUpTo(w, Position(f, w.texts[f]), [])
  {
    assert w.texts[f] == [] + w.texts[f];
    assert Elses([]) == [];
  }

  /** A file is left only when it has closed every group it opened. */
  lemma OwnIsClosed(m: Machine)
    requires InStep(m) && Last(m.input).rest == [] && !Leave(m).Stopped?
    ensures Own(m, |m.input| - 1) == []
  {
    hide WellCached;
  }

  lemma LeavingNests(w: World, root: FileId, m: Machine, f: FileId)
    requires Tracked(w, root, m) && Last(m.input).rest == [] && !Leave(m).Stopped? && (Entered(m.log, f) || f == root)
    ensures f in w.texts && (Nested(w.texts[f]) || exists i :: 0 <= i < |m.input| - 1 && Init(m.input)[i].file == f)
  {
    hide Scan, Elses, WellCached, Entered, Nested, ReadUpTo, Own;
    var last := |m.input| - 1;
    OwnIsClosed(m);
    assert ReadUpTo(w, m.input[last], Own(m, last));
    ReadAll(w, m.input[last]);
    hide Leave;
    if !Nested(w.texts[f]) {
      var i :| 0 <= i < |m.input| && m.input[i].file == f;
      assert Init(m.input)[i].file == f;
    }
  }

  lemma LeaveTracks(w: World, root: FileId, m: Machine)
    requires Tracked(w, root, m) && Last(m.input).rest == []
    ensures Leave(m).Going? && InStep(Leave(m).m) ==> Tracked(w, root, Leave(m).m)
    ensures Leave(m).Completed?
            ==> Leave(m).log == m.log && forall f | Entered(m.log, f) || f == root :: f in w.texts && Nested(w.texts[f])
  {
    hide Scan, Elses, WellCached, Entered, Nested, ReadUpTo;
    if !Leave(m).Stopped? {
      forall f | Entered(m.log, f) || f == root
        ensures f in w.texts && (Nested(w.texts[f]) || exists i :: 0 <= i < |m.input| - 1 && Init(m.input)[i].file == f)
      {
        LeavingNests(w, root, m, f);
      }
      if Leave(m).Going? && InStep(Leave(m).m) {
        forall i | 0 <= i < |m.input| - 1 ensures ReadUpTo(w, Leave(m).m.input[i], Own(Leave(m).m, i)) {
          assert Own(Leave(m).m, i) == Own(m, i);
        }
      }
    }
  }

  lemma TakeMarkTracks(w: World, root: FileId, m: Machine, d: Directive)
    requires Tracked(w, root, m) && NO_FILE !in w.texts && Last(m.input).rest != [] && Last(m.input).rest[0] == Mark(d)
    requires Step(w, m).Going? && InStep(Step(w, m).m)
    ensures Tracked(w, root, Step(w, m).m)
  {
    hide Scan, Elses, WellCached, Entered, Nested, ReadUpTo, Execute;
    var file, rest := Last(m.input).file, Last(m.input).rest;
    var done := Execute(m.exec, file, d, w.source(file));
    MarkScans(m.exec, file, d, w.source(file));
    ExecuteKeepsSound(m.exec, file, d, w.source(file));
    AdvanceTracks(w, root, m, done.st, m.log);
    if done.request.Some? {
      var moved := Machine(done.st, Move(m.input, rest[1..]), m.log);
      EnterTracks(w, root, moved, done.request.value, w.resolve(done.request.value).value);
    }
  }

  lemma TakeWordTracks(w: World, root: FileId, m: Machine, at: Range)
    requires Tracked(w, root, m) && Last(m.input).rest != [] && Last(m.input).rest[0] == Lexeme.Word(at)
    requires InStep(Step(w, m).m)
    ensures Tracked(w, root, Step(w, m).m)
  {
    hide Scan, Elses, WellCached, Entered, Nested, ReadUpTo;
    EnteredMore(m.log, Emission.Word(Last(m.input).file, at, m.exec.macros));
    AdvanceTracks(w, root, m, m.exec, Step(w, m).m.log);
  }

  lemma StepTracks(w: World, root: FileId, m: Machine)
    requires Tracked(w, root, m) && NO_FILE !in w.texts
    ensures Step(w, m).Going? ==> Tracked(w, root, Step(w, m).m)
    ensures Step(w, m).Completed? ==>
      var log := Step(w, m).log; forall f | Entered(log, f) || f == root :: f in w.texts && Nested(w.texts[f])
  {
    hide Scan, Sound, Entered, Nested, ReadUpTo, Execute, Leave;
    StepInStep(w, m);
    var rest := Last(m.input).rest;
    if rest == [] {
      LeaveTracks(w, root, m);
    } else if Step(w, m).Going? {
      match rest[0]
      case Word(at) => TakeWordTracks(w, root, m, at);
      case Mark(d) => TakeMarkTracks(w, root, m, d);
    }
  }

  /** A run that completes has read only nested files: the root and every file the log says was included. */
  lemma {:induction false} CompletedRunsNest(w: World, root: FileId, macros: Macros, n: nat)
    requires root in w.texts && NO_FILE !in w.texts
    ensures var r := RunFor(w, Start(w, root, macros), n);
            && (r.Going? ==> Tracked(w, root, r.m))
            && (r.Completed? ==> forall f | Entered(r.log, f) || f == root :: f in w.texts && WritesTree(w.texts[f]))
  {
    hide Step, Nested, Flatten, BlockOk, Tracked;
    var start := Start(w, root, macros);
    if n == 0 {
      RunsInStep(w, root, macros, 0);
      StartTracks(w, root, macros);
    } else {
      CompletedRunsNest(w, root, macros, n - 1);
      RunForSum(w, start, n - 1, 1);
      var r := RunFor(w, start, n - 1);
      if r.Going? {
        RunsInStep(w, root, macros, n - 1);
        OneStep(w, r.m);
        StepTracks(w, root, r.m);
        var next := Step(w, r.m);
        if next.Completed? {
          forall f | Entered(next.log, f) || f == root ensures f in w.texts && WritesTree(w.texts[f]) {
            var b := NestedIsTree(w.texts[f]);
          }
        }
      } else {
        EndedStays(w, r, 1);
      }
    }
  }

  lemma StartTracks(w: World, root: FileId, macros: Macros)
    requires root in w.texts && NO_FILE !in w.texts && InStep(Start(w, root, macros).m)
    ensures Tracked(w, root, Start(w, root, macros).m)
  {
    NothingRead(w, root);
    var m := Start(w, root, macros).m;
    assert Own(m, 0) == [];
    assert m.input[0].file == root;
  }
}
