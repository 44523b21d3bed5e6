/**
 * What directives mean, in terms of what a caller sees: which names are defined, what is read and
 * what is asked for. The names are given by where they stand in the source.
 */
module DirectiveMeaning {
  import opened Bytes
  import opened Wrappers
  import opened Sequences
  import opened Directives
  import opened DirectiveRefinement

  /** A range of the source spells a text. */
  predicate Spells(source: bytes, r: Range, x: bytes) { x != [] && |x| == r.length && Occurs(source, r.offset, x) }

  lemma ViewSpells(source: bytes, r: Range, x: bytes)
    ensures RangeView(source, r) == Some(x) <==> Spells(source, r, x)
  {
    if RangeView(source, r) == Some(x) {
      OccursSlice(source, r.offset, r.offset + r.length);
    }
    if Spells(source, r, x) {
      SliceOccurs(source, r.offset, x);
    }
  }

  /** In an active place #ifdef goes on exactly when the name is defined, and #ifndef exactly when it is not. */
  lemma IfdefChooses(st: Exec, file: FileId, d: Directive, source: bytes, x: bytes)
    requires Active(st.conditionals) && Execute(st, file, d, source).Done? && Spells(source, d.name, x)
    requires d.kind.Ifdef? || d.kind.Ifndef?
    ensures var next := Execute(st, file, d, source).st;
            && (d.kind.Ifdef? ==> (Active(next.conditionals) <==> x in st.macros))
            && (d.kind.Ifndef? ==> (Active(next.conditionals) <==> x !in st.macros))
            && next.macros == st.macros && next.entries == st.entries && |next.conditionals| == |st.conditionals| + 1
  {
    ViewSpells(source, d.name, x);
  }

  /** There it is refused for its operand exactly when its name is not in the source. */
  lemma IfdefNeedsName(st: Exec, file: FileId, d: Directive, source: bytes)
    requires Active(st.conditionals) && CurrentFloor(st, file).Some? && |st.conditionals| < CONDITIONAL_LIMIT
    requires d.kind.Ifdef? || d.kind.Ifndef?
    ensures Execute(st, file, d, source).Done? <==> exists x :: Spells(source, d.name, x)
  {
    forall x ensures RangeView(source, d.name) == Some(x) <==> Spells(source, d.name, x) {
      ViewSpells(source, d.name, x);
    }
    if Execute(st, file, d, source).Done? {
      assert Spells(source, d.name, RangeView(source, d.name).value);
    }
  }

  /** What is open while a group is read: the same groups below it. */
  predicate Opens(st: Exec, within: Exec) {
    within.conditionals != [] && Init(within.conditionals) == st.conditionals
  }

  /** Its #else goes on exactly where the first branch did not, and its #endif comes back to where it began. */
  lemma GroupTurns(st: Exec, file: FileId, open: Directive, source: bytes, within: Exec, mark: Directive)
    requires Active(st.conditionals) && Execute(st, file, open, source).Done?
    requires (open.kind.Ifdef? || open.kind.Ifndef?) && (mark.kind.Else? || mark.kind.Endif?)
    requires within.conditionals == Execute(st, file, open, source).st.conditionals
    requires Execute(within, file, mark, source).Done?
    ensures var opened_, next := Execute(st, file, open, source).st, Execute(within, file, mark, source).st;
            && next.macros == within.macros && next.entries == within.entries
            && (mark.kind.Endif? ==> next.conditionals == st.conditionals)
            && (mark.kind.Else? ==> Opens(st, next))
            && (mark.kind.Else? ==> (Active(next.conditionals) <==> !Active(opened_.conditionals)))
  {
    hide EffectOf, Condition, CurrentFloor;
    var frame := Last(within.conditionals);
    Snoc(st.conditionals, frame);
    if mark.kind.Else? {
      Snoc(st.conditionals, Last(Execute(within, file, mark, source).st.conditionals));
    }
  }

  /** A place that is not active stays so: nothing is defined or asked for, and a group begun there is skipped whole. */
  lemma SkippedStays(st: Exec, file: FileId, d: Directive, source: bytes)
    requires !Active(st.conditionals) && Execute(st, file, d, source).Done?
    ensures var done := Execute(st, file, d, source);
            && done.st.macros == st.macros && done.request == None
            && (!d.kind.Else? && !d.kind.Endif? ==> !Active(done.st.conditionals))
  {
  }

  /**
   * In an active place #define succeeds exactly when the name, and the replacement if there is one, are in
   * the source and do not change a definition; it then defines that name so and leaves all others alone.
   */
  lemma DefineSets(st: Exec, file: FileId, d: Directive, source: bytes, x: bytes, replacement: Option<bytes>)
    requires Active(st.conditionals) && CurrentFloor(st, file).Some? && d.kind.Define?
    requires Spells(source, d.name, x)
    requires if replacement.Some? then Spells(source, d.replacement, replacement.value) else d.replacement.length == 0
    ensures var done := Execute(st, file, d, source);
            && (done.Done? <==> (x in st.macros ==> st.macros[x] == replacement))
            && (done.Done? ==> done.st == st.(macros := st.macros[x := replacement]) && done.request == None)
            && (done.Refused? ==> done.error == Error(InvalidMacroDefinition, file, d.at))
  {
    ViewSpells(source, d.name, x);
    if replacement.Some? {
      ViewSpells(source, d.replacement, replacement.value);
    }
  }

  lemma DefineNeedsNames(st: Exec, file: FileId, d: Directive, source: bytes)
    requires Active(st.conditionals) && d.kind.Define? && Execute(st, file, d, source).Done?
    ensures exists x :: Spells(source, d.name, x)
    ensures d.replacement.length == 0 || exists y :: Spells(source, d.replacement, y)
  {
    ViewSpells(source, d.name, RangeView(source, d.name).value);
    if d.replacement.length != 0 {
      ViewSpells(source, d.replacement, RangeView(source, d.replacement).value);
    }
  }

  /** #undef takes that name away, defined or not, and no other. */
  lemma UndefRemoves(st: Exec, file: FileId, d: Directive, source: bytes, x: bytes)
    requires Active(st.conditionals) && CurrentFloor(st, file).Some? && d.kind.Undef? && Spells(source, d.name, x)
    ensures var done := Execute(st, file, d, source);
            done.Done? && done.st == st.(macros := st.macros - {x}) && done.request == None
  {
    ViewSpells(source, d.name, x);
  }

  /** A file is asked for exactly by an #include with a form and a locator in an active place, and with just those. */
  lemma IncludeRequests(st: Exec, file: FileId, d: Directive, source: bytes)
    requires CurrentFloor(st, file).Some?
    ensures var done := Execute(st, file, d, source);
            && (done.Done? && done.request.Some?
                <==> d.kind.Include? && Active(st.conditionals) && !d.form.NoForm? && d.locator.length != 0)
            && (done.Done? && done.request.Some?
                ==> done.st == st && done.request.value == Request(file, d.form, d.locator))
  {
  }

  /**
   * Outside the directives of groups: #if and #elif are refused everywhere, anything else is passed
   * over where nothing is read, and where it is read only #define, #undef and #include can succeed.
   */
  lemma PlainSucceeds(st: Exec, file: FileId, d: Directive, source: bytes)
    requires CurrentFloor(st, file).Some? && !d.kind.Ifdef? && !d.kind.Ifndef? && !d.kind.Else? && !d.kind.Endif?
    ensures var done := Execute(st, file, d, source);
            && (d.kind.If? || d.kind.Elif? ==> done == Refused(Error(UnsupportedDirective, file, d.at)))
            && (!Active(st.conditionals) && !d.kind.If? && !d.kind.Elif? ==> done == Done(st, None))
            && (Active(st.conditionals) && done.Done? ==> d.kind.Define? || d.kind.Undef? || d.kind.Include?)
            && (Active(st.conditionals) && d.kind.Include? && done.Refused?
                ==> done.error == Error(InvalidInclude, file, d.at))
            && (Active(st.conditionals) && d.kind.Invalid? ==> done == Refused(Error(MalformedOperand, file, d.at)))
            && (Active(st.conditionals) && (d.kind.Line? || d.kind.ErrorLine? || d.kind.Pragma? || d.kind.Unknown?)
                ==> done == Refused(Error(UnsupportedDirective, file, d.at)))
  {
  }

  /** The group that is innermost, if it was opened in the file being executed since it was entered. */
  predicate OwnGroup(st: Exec, file: FileId) {
    && CurrentFloor(st, file).Some? && |st.conditionals| > CurrentFloor(st, file).value
    && Last(st.conditionals).file == file
  }

  /** #else and #endif need such a group, #else one that has had none; groups are opened up to 256 deep. */
  lemma GroupSucceeds(st: Exec, file: FileId, d: Directive, source: bytes)
    requires CurrentFloor(st, file).Some?
    ensures var done := Execute(st, file, d, source);
            && (d.kind.Else? ==> (done.Done? <==> OwnGroup(st, file) && !Last(st.conditionals).elseSeen))
            && (d.kind.Else? && done.Refused?
                ==> done.error == Error(if OwnGroup(st, file) then DuplicateElse else UnmatchedElse, file, d.at))
            && (d.kind.Endif? ==> (done.Done? <==> OwnGroup(st, file)))
            && (d.kind.Endif? && done.Refused? ==> done.error == Error(UnmatchedEndif, file, d.at))
            && ((d.kind.Ifdef? || d.kind.Ifndef?) && |st.conditionals| == 256
                ==> done == Refused(Error(ConditionalDepthExceeded, file, d.at)))
            && ((d.kind.Ifdef? || d.kind.Ifndef?) && |st.conditionals| != 256 && done.Refused?
                ==> done.error == Error(MalformedOperand, file, d.name))
  {
    hide EffectOf, Condition;
  }

  // ----- groups -----

  /** What is read in a place that is not active leaves definitions and output as they were. */
  lemma {:induction false} SkippedIsSilent(w: World, trees: Trees, p: Place, b: Block, macros: Macros, log: Log)
    requires !p.active && EvalBlock(w, trees, p, b, macros, log).Finished?
    ensures EvalBlock(w, trees, p, b, macros, log) == Finished(macros, log)
    decreases b
  {
    if b.Then? {
      SkippedItemIsSilent(w, trees, p, b.item, macros, log);
      SkippedIsSilent(w, trees, p, b.rest, macros, log);
    }
  }

  lemma {:induction false} SkippedItemIsSilent(w: World, trees: Trees, p: Place, i: Item, macros: Macros, log: Log)
    requires !p.active && EvalItem(w, trees, p, i, macros, log).Finished?
    ensures EvalItem(w, trees, p, i, macros, log) == Finished(macros, log)
    decreases i
  {
    match i
    case Group(_, body, other, _) =>
      SkippedIsSilent(w, trees, Branch(p, false), body, macros, log);
      if other.Some? {
        SkippedIsSilent(w, trees, Branch(p, false), other.value.body, macros, log);
      }
    case _ =>
  }

  /** The branch that is read, given whether the first one is. */
  function BranchOf(i: Item, first: bool): (r: Block)
    requires i.Group?
  {
    if first then i.body else if i.other.Some? then i.other.value.body else End
  }

  /**
   * A group in an active place that is read to its end means one of its branches: under #ifdef the
   * first exactly when the name is defined, under #ifndef exactly when it is not.
   */
  lemma GroupReads(w: World, trees: Trees, p: Place, i: Item, macros: Macros, log: Log, x: bytes)
    requires p.active && i.Group? && ItemOk(i) && Spells(w.source(p.file), i.open.name, x)
    requires EvalItem(w, trees, p, i, macros, log).Finished?
    ensures var first := if i.open.kind.Ifdef? then x in macros else x !in macros;
            EvalItem(w, trees, p, i, macros, log)
            == EvalBlock(w, trees, Branch(p, true), BranchOf(i, first), macros, log)
  {
    hide Flatten, BlockOk;
    ViewSpells(w.source(p.file), i.open.name, x);
    if !EvalBlock(w, trees, Branch(p, true), i.body, macros, log).Finished?
       || Condition(macros, i.open, w.source(p.file)) == Some(false) {
      SkippedIsSilent(w, trees, Branch(p, false), i.body, macros, log);
    } else if i.other.Some? {
      var read := EvalBlock(w, trees, Branch(p, true), i.body, macros, log);
      SkippedIsSilent(w, trees, Branch(p, false), i.other.value.body, read.macros, read.log);
    }
  }

  /**
   * Behind a #define the branch of that name under #ifdef is read and the one under #ifndef is not;
   * behind an #undef it is the other way round.
   */
  lemma DefinitionsDecide(w: World, trees: Trees, p: Place, d: Directive, i: Item, macros: Macros, log: Log, x: bytes)
    requires p.active && (d.kind.Define? || d.kind.Undef?) && Spells(w.source(p.file), d.name, x)
    requires i.Group? && ItemOk(i) && Spells(w.source(p.file), i.open.name, x)
    requires EvalItem(w, trees, p, Lone(d), macros, log).Finished?
    ensures var r := EvalItem(w, trees, p, Lone(d), macros, log);
            && r.log == log
            && (EvalItem(w, trees, p, i, r.macros, r.log).Finished?
                ==> EvalItem(w, trees, p, i, r.macros, r.log)
                    == EvalBlock(w, trees, Branch(p, true), BranchOf(i, d.kind.Define? <==> i.open.kind.Ifdef?),
                                 r.macros, r.log))
  {
    hide EvalBlock, ItemOk;
    ViewSpells(w.source(p.file), d.name, x);
    var r := EvalItem(w, trees, p, Lone(d), macros, log);
    assert x in r.macros <==> d.kind.Define?;
    if EvalItem(w, trees, p, i, r.macros, r.log).Finished? {
      assert i.open.kind.Ifdef? || i.open.kind.Ifndef? by {
        OpensGroup(i);
      }
      GroupReads(w, trees, p, i, r.macros, r.log, x);
    }
  }

  lemma OpensGroup(i: Item)
    requires i.Group? && ItemOk(i)
    ensures i.open.kind.Ifdef? || i.open.kind.Ifndef?
  {
  }
}
