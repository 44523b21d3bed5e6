/**
 * Preprocessing directives and what executing one does to the executor's fields, as a function of
 * their values. DirectiveExecutor is proved to compute it.
 */
module Directives {
  import opened Bytes
  import opened Wrappers
  import opened Sequences

  const CONDITIONAL_LIMIT := 256
  const INCLUDE_LIMIT := 256

  /** A file handle; zero is the invalid one. */
  type FileId = nat
  const NO_FILE: FileId := 0

  datatype Range = Range(offset: nat, length: nat)

  datatype Kind =
    | Invalid | Include | Define | Undef | If | Ifdef | Ifndef | Elif | Else | Endif
    | Line | ErrorLine | Pragma | Unknown

  datatype Form = NoForm | Quoted | Angled

  datatype Directive = Directive(kind: Kind, at: Range, form: Form, locator: Range, name: Range, replacement: Range)

  datatype Request = Request(source: FileId, form: Form, locator: Range)

  datatype ErrorKind =
    | MalformedOperand | InvalidMacroDefinition | UnsupportedDirective | InvalidInclude | FileEntryMismatch
    | UnmatchedElse | DuplicateElse | UnmatchedEndif | ConditionalDepthExceeded | UnterminatedConditional

  datatype Error = Error(kind: ErrorKind, file: FileId, at: Range)

  /** The active definitions, by spelling; an empty replacement is None. */
  type Macros = map<bytes, Option<bytes>>

  datatype Frame =
    Frame(file: FileId, at: Range, parentActive: bool, condition: bool, branchActive: bool, elseSeen: bool)

  datatype Entry = Entry(file: FileId, floor: nat)

  datatype Exec = Exec(conditionals: seq<Frame>, entries: seq<Entry>, macros: Macros)

  datatype Outcome =
    | Done(st: Exec, request: Option<Request>)
    | Refused(error: Error)

  function RangeView(source: bytes, r: Range): (result: Option<bytes>) {
    if r.length == 0 || r.offset + r.length > |source| then None else Some(source[r.offset..r.offset + r.length])
  }

  predicate IsConditional(k: Kind) { k.Ifdef? || k.Ifndef? || k.Else? || k.Endif? }

  predicate Active(conditionals: seq<Frame>) { conditionals == [] || Last(conditionals).branchActive }

  /** The conditional floor of the file being executed, if it is that file. */
  function CurrentFloor(st: Exec, file: FileId): (r: Option<nat>) {
    if file == NO_FILE || st.entries == [] || Last(st.entries).file != file
        || Last(st.entries).floor > |st.conditionals|
    then None
    else Some(Last(st.entries).floor)
  }

  /** What an #ifdef or #ifndef tests. */
  function Condition(macros: Macros, d: Directive, source: bytes): (r: Option<bool>) {
    match RangeView(source, d.name)
    case None => None
    case Some(name) => Some((name in macros) != d.kind.Ifndef?)
  }

  /** Repeating a definition is allowed, changing it is not. */
  function Defined(macros: Macros, name: bytes, replacement: Option<bytes>): (r: Option<Macros>) {
    if name !in macros then Some(macros[name := replacement])
    else if macros[name] == replacement then Some(macros)
    else None
  }

  function DefineEffect(macros: Macros, file: FileId, d: Directive, source: bytes): (r: Effect) {
    match RangeView(source, d.name)
    case None => Failed(Error(MalformedOperand, file, d.name))
    case Some(name) =>
      if d.replacement.length != 0 && RangeView(source, d.replacement).None? then
        Failed(Error(MalformedOperand, file, d.replacement))
      else
        match Defined(macros, name, if d.replacement.length == 0 then None else RangeView(source, d.replacement))
        case None => Failed(Error(InvalidMacroDefinition, file, d.at))
        case Some(changed) => Changed(changed)
  }

  datatype Effect =
    | Changed(macros: Macros)
    | Requested(request: Request)
    | Failed(error: Error)

  /** What a directive that is no part of a conditional group does where it is active. */
  function ActiveEffect(macros: Macros, file: FileId, d: Directive, source: bytes): (r: Effect)
    requires !IsConditional(d.kind) && !d.kind.If? && !d.kind.Elif?
  {
    match d.kind
    case Define => DefineEffect(macros, file, d, source)
    case Undef =>
      (match RangeView(source, d.name)
       case None => Failed(Error(MalformedOperand, file, d.name))
       case Some(name) => Changed(macros - {name}))
    case Include =>
      if d.form.NoForm? || d.locator.length == 0 then Failed(Error(InvalidInclude, file, d.at))
      else Requested(Request(file, d.form, d.locator))
    case Invalid => Failed(Error(MalformedOperand, file, d.at))
    case _ => Failed(Error(UnsupportedDirective, file, d.at))
  }

  /** A directive outside the four that delimit groups: #if and #elif are refused even where inactive. */
  function EffectOf(active: bool, macros: Macros, file: FileId, d: Directive, source: bytes): (r: Effect)
    requires !IsConditional(d.kind)
  {
    if d.kind.If? || d.kind.Elif? then Failed(Error(UnsupportedDirective, file, d.at))
    else if !active then Changed(macros)
    else ActiveEffect(macros, file, d, source)
  }

  function BeginConditional(st: Exec, file: FileId, d: Directive, source: bytes): (r: Outcome) {
    var parent := Active(st.conditionals);
    if |st.conditionals| == CONDITIONAL_LIMIT then Refused(Error(ConditionalDepthExceeded, file, d.at))
    else if parent && Condition(st.macros, d, source).None? then Refused(Error(MalformedOperand, file, d.name))
    else
      var condition := parent && Condition(st.macros, d, source).value;
      Done(st.(conditionals := st.conditionals + [Frame(file, d.at, parent, condition, parent && condition, false)]),
          None)
  }

  function Execute(st: Exec, file: FileId, d: Directive, source: bytes): (r: Outcome) {
    match CurrentFloor(st, file)
    case None => Refused(Error(FileEntryMismatch, file, d.at))
    case Some(floor) =>
      if d.kind.Ifdef? || d.kind.Ifndef? then BeginConditional(st, file, d, source)
      else if d.kind.Else? then
        if |st.conditionals| <= floor || Last(st.conditionals).file != file then
          Refused(Error(UnmatchedElse, file, d.at))
        else if Last(st.conditionals).elseSeen then Refused(Error(DuplicateElse, file, d.at))
        else
          var top := Last(st.conditionals);
          var flipped := top.(elseSeen := true, branchActive := top.parentActive && !top.condition);
          Done(st.(conditionals := Init(st.conditionals) + [flipped]), None)
      else if d.kind.Endif? then
        if |st.conditionals| <= floor || Last(st.conditionals).file != file then
          Refused(Error(UnmatchedEndif, file, d.at))
        else Done(st.(conditionals := Init(st.conditionals)), None)
      else
        match EffectOf(Active(st.conditionals), st.macros, file, d, source)
        case Changed(macros) => Done(st.(macros := macros), None)
        case Requested(request) => Done(st, Some(request))
        case Failed(error) => Refused(error)
  }

  function EnterFile(st: Exec, file: FileId): (r: Option<Exec>) {
    if file == NO_FILE || |st.entries| == INCLUDE_LIMIT then None
    else Some(st.(entries := st.entries + [Entry(file, |st.conditionals|)]))
  }

  function FinishFile(st: Exec, file: FileId): (r: Outcome) {
    match CurrentFloor(st, file)
    case None => Refused(Error(FileEntryMismatch, file, Range(0, 0)))
    case Some(floor) =>
      if |st.conditionals| > floor then
        Refused(Error(UnterminatedConditional, Last(st.conditionals).file, Last(st.conditionals).at))
      else Done(st.(entries := Init(st.entries)), None)
  }

  // ----- what holds of the stacks after any sequence of operations -----

  /** The branch of a group that is being read was chosen by its condition. */
  predicate Chosen(f: Frame) { f.condition != f.elseSeen }

  /** The cached flag of every open group says whether all groups around it, itself included, are in a chosen branch. */
  ghost predicate WellCached(conditionals: seq<Frame>) {
    forall i | 0 <= i < |conditionals| ::
      && conditionals[i].branchActive == AllChosen(conditionals[..i + 1])
      && conditionals[i].parentActive == AllChosen(conditionals[..i])
  }

  predicate AllChosen(conditionals: seq<Frame>) { forall j | 0 <= j < |conditionals| :: Chosen(conditionals[j]) }

  /** Floors rise with the entries and never pass the open groups; both stacks stay within their arrays. */
  ghost predicate Levelled(st: Exec) {
    && |st.conditionals| <= CONDITIONAL_LIMIT && |st.entries| <= INCLUDE_LIMIT
    && (forall i | 0 <= i < |st.entries| :: st.entries[i].floor <= |st.conditionals| && st.entries[i].file != NO_FILE)
    && (forall i, j | 0 <= i < j < |st.entries| :: st.entries[i].floor <= st.entries[j].floor)
  }

  ghost predicate Sound(st: Exec) { WellCached(st.conditionals) && Levelled(st) }

  lemma ActiveIsConjunction(st: Exec)
    requires Sound(st)
    ensures Active(st.conditionals) <==> AllChosen(st.conditionals)
  {
    if st.conditionals != [] {
      assert st.conditionals[..|st.conditionals| - 1 + 1] == st.conditionals;
    }
  }

  lemma PushKeepsCache(c: seq<Frame>, f: Frame)
    requires WellCached(c) && f.parentActive == AllChosen(c) && f.branchActive == (f.parentActive && Chosen(f))
    ensures WellCached(c + [f])
  {
    var r := c + [f];
    forall i | 0 <= i < |r|
      ensures r[i].branchActive == AllChosen(r[..i + 1]) && r[i].parentActive == AllChosen(r[..i])
    {
      if i < |c| {
        assert r[..i + 1] == c[..i + 1] && r[..i] == c[..i];
      } else {
        assert r[..i + 1] == c + [f] && r[..i] == c;
        assert AllChosen(c + [f]) <==> AllChosen(c) && Chosen(f) by {
          assert forall j | 0 <= j < |c| :: (c + [f])[j] == c[j];
          assert (c + [f])[|c|] == f;
        }
      }
    }
  }

  lemma PopKeepsCache(c: seq<Frame>)
    requires WellCached(c) && c != []
    ensures WellCached(Init(c)) && Last(c).parentActive == AllChosen(Init(c))
  {
    var r := Init(c);
    forall i | 0 <= i < |r|
      ensures r[i].branchActive == AllChosen(r[..i + 1]) && r[i].parentActive == AllChosen(r[..i])
    {
      assert r[..i + 1] == c[..i + 1] && r[..i] == c[..i];
    }
  }

  lemma ExecuteKeepsLevelled(st: Exec, file: FileId, d: Directive, source: bytes)
    requires Levelled(st) && Execute(st, file, d, source).Done?
    ensures Levelled(Execute(st, file, d, source).st)
  {
    hide EffectOf, Condition, Active;
    var last := |st.entries| - 1;
    assert forall i | 0 <= i < last :: st.entries[i].floor <= st.entries[last].floor;
  }

  lemma ExecuteKeepsCache(st: Exec, file: FileId, d: Directive, source: bytes)
    requires WellCached(st.conditionals) && Execute(st, file, d, source).Done?
    requires Active(st.conditionals) == AllChosen(st.conditionals)
    ensures WellCached(Execute(st, file, d, source).st.conditionals)
  {
    hide WellCached, AllChosen, EffectOf, Condition;
    var next := Execute(st, file, d, source).st;
    if d.kind.Ifdef? || d.kind.Ifndef? {
      PushKeepsCache(st.conditionals, Last(next.conditionals));
    } else if d.kind.Else? {
      PopKeepsCache(st.conditionals);
      PushKeepsCache(Init(st.conditionals), Last(next.conditionals));
    } else if d.kind.Endif? {
      PopKeepsCache(st.conditionals);
    }
  }

  /**
   * Every directive, file entry and file exit keeps the cached flags equal to the conjunction of the enclosing
   * choices.
   */
  lemma ExecuteKeepsSound(st: Exec, file: FileId, d: Directive, source: bytes)
    requires Sound(st) && Execute(st, file, d, source).Done?
    ensures Sound(Execute(st, file, d, source).st)
  {
    hide WellCached, AllChosen, Execute, Levelled;
    ActiveIsConjunction(st);
    ExecuteKeepsCache(st, file, d, source);
    ExecuteKeepsLevelled(st, file, d, source);
  }

  lemma EntriesKeepSound(st: Exec, file: FileId)
    requires Sound(st)
    ensures EnterFile(st, file).Some? ==> Sound(EnterFile(st, file).value)
    ensures FinishFile(st, file).Done? ==> Sound(FinishFile(st, file).st)
  {
    hide WellCached;
  }
}
