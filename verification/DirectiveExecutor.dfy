/** The executor object: two fixed arrays, their depths, and the macro table it works on. */
module DirectiveExecutor {
  import opened Bytes
  import opened Wrappers
  import opened Sequences
  import opened Directives

  class Executor {
    const conditionals: array<Frame>
    const fileEntries: array<Entry>
    var conditionalDepth: nat
    var fileDepth: nat
    var macros: Macros

    ghost predicate Valid()
      reads this
    {
      && conditionals.Length == CONDITIONAL_LIMIT && fileEntries.Length == INCLUDE_LIMIT
      && conditionalDepth <= CONDITIONAL_LIMIT && fileDepth <= INCLUDE_LIMIT
    }

    ghost function State(): (r: Exec)
      requires Valid()
      reads this, conditionals, fileEntries
    {
      Exec(conditionals[..conditionalDepth], fileEntries[..fileDepth], macros)
    }

    /** The fields changed, or did not, exactly as the outcome says. */
    twostate predicate Came(outcome: Outcome, ok: bool, new request: Option<Request>, new error: Option<Error>)
      requires old(Valid())
      reads this, conditionals, fileEntries
    {
      Valid() &&
      match outcome
      case Done(st, requested) => ok && State() == st && request == requested && error == None
      case Refused(refusal) => !ok && State() == old(State()) && request == None && error == Some(refusal)
    }

    constructor (macros: Macros)
      ensures Valid() && State() == Exec([], [], macros) && fresh(conditionals) && fresh(fileEntries)
    {
      conditionals := new Frame[CONDITIONAL_LIMIT](_ => Frame(NO_FILE, Range(0, 0), true, false, false, false));
      fileEntries := new Entry[INCLUDE_LIMIT](_ => Entry(NO_FILE, 0));
      conditionalDepth, fileDepth := 0, 0;
      this.macros := macros;
    }

    method Reset()
      requires Valid()
      modifies this`conditionalDepth, this`fileDepth
      ensures Valid() && State() == Exec([], [], macros)
    {
      conditionalDepth, fileDepth := 0, 0;
    }

    method IsActive() returns (active: bool)
      requires Valid()
      ensures active == Active(State().conditionals)
    {
      return conditionalDepth == 0 || conditionals[conditionalDepth - 1].branchActive;
    }

    method CurrentFileEntry(file: FileId) returns (found: bool, floor: nat)
      requires Valid()
      ensures found == CurrentFloor(State(), file).Some? && (found ==> CurrentFloor(State(), file) == Some(floor))
    {
      floor := 0;
      if file == NO_FILE || fileDepth == 0 || fileEntries[fileDepth - 1].file != file {
        return false, 0;
      }
      floor := fileEntries[fileDepth - 1].floor;
      found := floor <= conditionalDepth;
    }

    method EnterFile(file: FileId) returns (ok: bool)
      requires Valid()
      modifies this`fileDepth, fileEntries
      ensures Valid()
      ensures match Directives.EnterFile(old(State()), file)
              case Some(st) => ok && State() == st
              case None => !ok && State() == old(State())
    {
      if file == NO_FILE || fileDepth == fileEntries.Length {
        return false;
      }
      fileEntries[fileDepth] := Entry(file, conditionalDepth);
      fileDepth := fileDepth + 1;
      assert State().entries == old(State().entries) + [Entry(file, conditionalDepth)];
      return true;
    }

    method BeginConditional(file: FileId, d: Directive, source: bytes) returns (ok: bool, error: Option<Error>)
      requires Valid() && (d.kind.Ifdef? || d.kind.Ifndef?)
      modifies this`conditionalDepth, conditionals
      ensures Came(Directives.BeginConditional(old(State()), file, d, source), ok, None, error)
    {
      if conditionalDepth == conditionals.Length {
        return false, Some(Error(ConditionalDepthExceeded, file, d.at));
      }
      var parentActive := IsActive();
      var condition := false;
      if parentActive {
        var spelling := RangeView(source, d.name);
        if spelling.None? {
          return false, Some(Error(MalformedOperand, file, d.name));
        }
        condition := spelling.value in macros;
        if d.kind.Ifndef? {
          condition := !condition;
        }
      }
      var frame := Frame(file, d.at, parentActive, condition, parentActive && condition, false);
      conditionals[conditionalDepth] := frame;
      conditionalDepth := conditionalDepth + 1;
      assert State().conditionals == old(State().conditionals) + [frame];
      return true, None;
    }

    method Execute(file: FileId, d: Directive, source: bytes)
      returns (ok: bool, request: Option<Request>, error: Option<Error>)
      requires Valid()
      modifies this`conditionalDepth, this`macros, conditionals
      ensures Came(Directives.Execute(old(State()), file, d, source), ok, request, error)
    {
      hide RangeView;
      request := None;
      var found, floor := CurrentFileEntry(file);
      if !found {
        return false, None, Some(Error(FileEntryMismatch, file, d.at));
      }
      match d.kind {
        case Ifdef =>
          ok, error := BeginConditional(file, d, source);
          return;
        case Ifndef =>
          ok, error := BeginConditional(file, d, source);
          return;
        case Else =>
          if conditionalDepth <= floor || conditionals[conditionalDepth - 1].file != file {
            return false, None, Some(Error(UnmatchedElse, file, d.at));
          }
          var current := conditionals[conditionalDepth - 1];
          if current.elseSeen {
            return false, None, Some(Error(DuplicateElse, file, d.at));
          }
          var flipped := current.(elseSeen := true, branchActive := current.parentActive && !current.condition);
          conditionals[conditionalDepth - 1] := flipped;
          assert State().conditionals == Init(old(State().conditionals)) + [flipped];
          return true, None, None;
        case Endif =>
          if conditionalDepth <= floor || conditionals[conditionalDepth - 1].file != file {
            return false, None, Some(Error(UnmatchedEndif, file, d.at));
          }
          conditionalDepth := conditionalDepth - 1;
          assert State().conditionals == Init(old(State().conditionals));
          return true, None, None;
        case If => return false, None, Some(Error(UnsupportedDirective, file, d.at));
        case Elif => return false, None, Some(Error(UnsupportedDirective, file, d.at));
        case _ =>
      }
      var active := IsActive();
      if !active {
        return true, None, None;
      }
      match d.kind {
        case Define => ok, error := Define(file, d, source);
        case Undef =>
          var spelling := RangeView(source, d.name);
          if spelling.None? {
            return false, None, Some(Error(MalformedOperand, file, d.name));
          }
          macros := macros - {spelling.value};
          return true, None, None;
        case Include =>
          if d.form == NoForm || d.locator.length == 0 {
            return false, None, Some(Error(InvalidInclude, file, d.at));
          }
          return true, Some(Request(file, d.form, d.locator)), None;
        case Invalid => return false, None, Some(Error(MalformedOperand, file, d.at));
        case _ => return false, None, Some(Error(UnsupportedDirective, file, d.at));
      }
    }

    method Define(file: FileId, d: Directive, source: bytes) returns (ok: bool, error: Option<Error>)
      requires Valid()
      modifies this`macros
      ensures match DefineEffect(old(macros), file, d, source)
              case Changed(changed) => ok && error == None && macros == changed
              case Failed(refusal) => !ok && error == Some(refusal) && macros == old(macros)
              case Requested(_) => false
    {
      var name := RangeView(source, d.name);
      if name.None? {
        return false, Some(Error(MalformedOperand, file, d.name));
      }
      var replacement: Option<bytes> := None;
      if d.replacement.length != 0 {
        replacement := RangeView(source, d.replacement);
        if replacement.None? {
          return false, Some(Error(MalformedOperand, file, d.replacement));
        }
      }
      match Defined(macros, name.value, replacement)
      case None => return false, Some(Error(InvalidMacroDefinition, file, d.at));
      case Some(changed) =>
        macros := changed;
        return true, None;
    }

    method FinishFile(file: FileId) returns (ok: bool, error: Option<Error>)
      requires Valid()
      modifies this`fileDepth
      ensures Came(Directives.FinishFile(old(State()), file), ok, None, error)
    {
      var found, floor := CurrentFileEntry(file);
      if !found {
        return false, Some(Error(FileEntryMismatch, file, Range(0, 0)));
      }
      if conditionalDepth > floor {
        var opening := conditionals[conditionalDepth - 1];
        return false, Some(Error(UnterminatedConditional, opening.file, opening.at));
      }
      fileDepth := fileDepth - 1;
      assert State().entries == Init(old(State().entries));
      return true, None;
    }
  }
}
