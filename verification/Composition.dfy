/**
 * Composing the manifest of a Project: a depth-first walk over Project references that keeps the
 * paths visited and under way, the inputs declared, the kind each path is used with, and the files
 * found so far. Here as a function of those fields; ManifestComposer is proved to compute it.
 */
module Composition {
  import opened Bytes
  import opened Wrappers
  import opened Paths

  const DEPTH_LIMIT := 256
  const MAX_INDEX := 0xFFFF_FFFF
  const NO_FILE := 0xFFFF_FFFF

  datatype Kind = Project | Header | Source | Assign

  /** One item of a Project configuration; its path is not empty. */
  datatype Dependency = Dependency(kind: Kind, path: Path)

  /** Where a Project was named: by which file, with which locator. */
  datatype Locator = Locator(declaring: nat, absolute: bool, path: Path)

  datatype Entry = Entry(locator: Locator, content: bytes)

  datatype Status = ConfigurationInvalid | IoError | OtherFailure(code: nat)

  /** What reading a configuration file yields, which may differ for the root. */
  datatype Loaded = Config(content: bytes, dependencies: seq<Dependency>) | Failed(status: Status)

  type Loader = (Path, bool) -> Loaded

  datatype State = State(visited: set<Path>, active: set<Path>, inputs: set<Path>, kinds: map<Path, Kind>,
      files: seq<Entry>)

  datatype Outcome = Done(st: State) | Refused(status: Status)

  /** The path a dependency means, seen from the file that declares it. */
  function Resolve(from: Path, q: Path): (r: Path) { Normal(Join(Parent(from), q)) }

  function AddKind(kinds: map<Path, Kind>, path: Path, kind: Kind): (r: Option<map<Path, Kind>>) {
    if path !in kinds then Some(kinds[path := kind]) else if kinds[path] == kind then Some(kinds) else None
  }

  /** Registers the dependencies of one file, before any of them is visited. */
  function Declare(st: State, from: Path, dependencies: seq<Dependency>): (r: Outcome)
    decreases |dependencies|
  {
    if dependencies == [] then Done(st)
    else
      var d := dependencies[0];
      var child := Resolve(from, d.path);
      match AddKind(st.kinds, child, d.kind)
      case None => Refused(ConfigurationInvalid)
      case Some(kinds) =>
        if d.kind.Header? then Declare(st.(kinds := kinds), from, dependencies[1..])
        else if child in st.inputs then Refused(ConfigurationInvalid)
        else Declare(st.(kinds := kinds, inputs := st.inputs + {child}), from, dependencies[1..])
  }

  /** The references to other Projects, in the order of declaration. */
  function References(dependencies: seq<Dependency>): (r: seq<Path>) {
    if dependencies == [] then []
    else (if dependencies[0].kind.Project? then [dependencies[0].path] else []) + References(dependencies[1..])
  }

  function EntryOf(locator: Locator, content: bytes): (r: Entry) {
    Entry(locator.(path := Normal(locator.path)), content)
  }

  predicate IsRoot(locator: Locator) { locator.declaring == NO_FILE }

  function Visit(load: Loader, st: State, path: Path, locator: Locator, depth: nat): (r: Outcome)
    decreases DEPTH_LIMIT + 1 - depth, 1, 0
  {
    if depth > DEPTH_LIMIT then Refused(ConfigurationInvalid)
    else
      match AddKind(st.kinds, path, Project)
      case None => Refused(ConfigurationInvalid)
      case Some(kinds) =>
        if path in st.active || path in st.visited then Refused(ConfigurationInvalid)
        else
          match load(path, IsRoot(locator))
          case Failed(status) => Refused(status)
          case Config(content, dependencies) =>
            if |st.files| > MAX_INDEX || Normal(locator.path) == EMPTY then Refused(IoError)
            else
              var entered := State(st.visited + {path}, st.active + {path}, st.inputs, kinds,
                  st.files + [EntryOf(locator, content)]);
              match Declare(entered, path, dependencies)
              case Refused(status) => Refused(status)
              case Done(declared) =>
                match VisitAll(load, declared, path, |st.files|, References(dependencies), depth)
                case Refused(status) => Refused(status)
                case Done(end) => Done(end.(active := end.active - {path}))
  }

  function VisitAll(load: Loader, st: State, from: Path, index: nat, references: seq<Path>, depth: nat): (r: Outcome)
    decreases DEPTH_LIMIT + 1 - depth, 0, |references|
  {
    if references == [] || depth > DEPTH_LIMIT then Done(st)
    else
      var q := references[0];
      match Visit(load, st, Resolve(from, q), Locator(index, q.rooted, q), depth + 1)
      case Refused(status) => Refused(status)
      case Done(next) => VisitAll(load, next, from, index, references[1..], depth)
  }

  const FRESH := State({}, {}, {}, map[], [])

  function Compose(load: Loader, root: Path): (r: Outcome) {
    Visit(load, FRESH, root, Locator(NO_FILE, false, Filename(root)), 1)
  }

  // ----- what is composed: the tree of references -----

  datatype Tree = Node(path: Path, locator: Path, content: bytes, dependencies: seq<Dependency>, children: Forest)

  datatype Forest = Nothing | More(first: Tree, rest: Forest)

  /** The references from a path, unfolded; none when the unfolding is too deep or a file cannot be read. */
  function Expand(load: Loader, path: Path, locator: Path, isRoot: bool, depth: nat): (r: Option<Tree>)
    decreases DEPTH_LIMIT + 1 - depth, 1, 0
  {
    if depth > DEPTH_LIMIT || Normal(locator) == EMPTY then None
    else
      match load(path, isRoot)
      case Failed(_) => None
      case Config(content, dependencies) =>
        match ExpandAll(load, path, References(dependencies), depth)
        case None => None
        case Some(children) => Some(Node(path, locator, content, dependencies, children))
  }

  function ExpandAll(load: Loader, from: Path, references: seq<Path>, depth: nat): (r: Option<Forest>)
    decreases DEPTH_LIMIT + 1 - depth, 0, |references|
  {
    if references == [] || depth > DEPTH_LIMIT then Some(Nothing)
    else
      match Expand(load, Resolve(from, references[0]), references[0], false, depth + 1)
      case None => None
      case Some(first) =>
        match ExpandAll(load, from, references[1..], depth)
        case None => None
        case Some(rest) => Some(More(first, rest))
  }

  /** The Projects of a tree, each before those it references. */
  function Preorder(t: Tree): (r: seq<Path>) { [t.path] + ForestPreorder(t.children) }

  function ForestPreorder(f: Forest): (r: seq<Path>) {
    match f
    case Nothing => []
    case More(first, rest) => Preorder(first) + ForestPreorder(rest)
  }

  datatype Use = Use(path: Path, kind: Kind)

  function UsesOf(from: Path, dependencies: seq<Dependency>): (r: seq<Use>) {
    seq(|dependencies|,
        i requires 0 <= i < |dependencies| => Use(Resolve(from, dependencies[i].path), dependencies[i].kind))
  }

  /** With which kind each path is used, anywhere in the tree. */
  function Uses(t: Tree): (r: seq<Use>) {
    [Use(t.path, Project)] + (UsesOf(t.path, t.dependencies) + ForestUses(t.children))
  }

  function ForestUses(f: Forest): (r: seq<Use>) {
    match f
    case Nothing => []
    case More(first, rest) => Uses(first) + ForestUses(rest)
  }

  function InputsOf(from: Path, dependencies: seq<Dependency>): (r: seq<Path>) {
    if dependencies == [] then []
    else
      (if dependencies[0].kind.Header? then [] else [Resolve(from, dependencies[0].path)])
      + InputsOf(from, dependencies[1..])
  }

  /** What is declared as anything but a header, anywhere in the tree. */
  function Inputs(t: Tree): (r: seq<Path>) { InputsOf(t.path, t.dependencies) + ForestInputs(t.children) }

  function ForestInputs(f: Forest): (r: seq<Path>) {
    match f
    case Nothing => []
    case More(first, rest) => Inputs(first) + ForestInputs(rest)
  }

  /** The files of the manifest: the preorder of the tree, with parents by their place in it. */
  function Entries(t: Tree, declaring: nat, absolute: bool, index: nat): (r: seq<Entry>) {
    [EntryOf(Locator(declaring, absolute, t.locator), t.content)] + ForestEntries(t.children, index, index + 1)
  }

  function ForestEntries(f: Forest, declaring: nat, index: nat): (r: seq<Entry>) {
    match f
    case Nothing => []
    case More(first, rest) =>
      Entries(first, declaring, first.locator.rooted, index) + ForestEntries(rest, declaring, index + |Preorder(first)|)
  }

  // ----- the three ways a walk can be refused, each on its own -----

  function AddKinds(kinds: map<Path, Kind>, uses: seq<Use>): (r: Option<map<Path, Kind>>)
    decreases |uses|
  {
    if uses == [] then Some(kinds)
    else
      match AddKind(kinds, uses[0].path, uses[0].kind)
      case None => None
      case Some(more) => AddKinds(more, uses[1..])
  }

  function AddNew(known: set<Path>, paths: seq<Path>): (r: Option<set<Path>>)
    decreases |paths|
  {
    if paths == [] then Some(known) else if paths[0] in known then None else AddNew(known + {paths[0]}, paths[1..])
  }

  lemma {:induction false} AddKindsConcat(kinds: map<Path, Kind>, a: seq<Use>, b: seq<Use>)
    ensures AddKinds(kinds, a + b)
            == match AddKinds(kinds, a) { case None => None case Some(more) => AddKinds(more, b) }
    decreases |a|
  {
    hide AddKind;
    if a == [] {
      assert a + b == b;
    } else {
      assert (a + b)[1..] == a[1..] + b;
      if AddKind(kinds, a[0].path, a[0].kind).Some? {
        AddKindsConcat(AddKind(kinds, a[0].path, a[0].kind).value, a[1..], b);
      }
    }
  }

  lemma {:induction false} AddNewConcat(known: set<Path>, a: seq<Path>, b: seq<Path>)
    ensures AddNew(known, a + b) == match AddNew(known, a) { case None => None case Some(more) => AddNew(more, b) }
    decreases |a|
  {
    if a == [] {
      assert a + b == b;
    } else {
      assert (a + b)[1..] == a[1..] + b;
      if a[0] !in known {
        AddNewConcat(known + {a[0]}, a[1..], b);
      }
    }
  }

  /** Kinds can all be added exactly when no path is used with two of them. */
  predicate Agree(uses: seq<Use>) {
    forall i, j | 0 <= i < |uses| && 0 <= j < |uses| && uses[i].path == uses[j].path :: uses[i].kind == uses[j].kind
  }

  predicate Distinct(paths: seq<Path>) { forall i, j | 0 <= i < j < |paths| :: paths[i] != paths[j] }

  lemma {:induction false} AddKindsExactly(kinds: map<Path, Kind>, uses: seq<Use>)
    ensures AddKinds(kinds, uses).Some? <==>
      Agree(uses) && forall i | 0 <= i < |uses| && uses[i].path in kinds :: kinds[uses[i].path] == uses[i].kind
    decreases |uses|
  {
    if uses != [] {
      var u, rest := uses[0], uses[1..];
      assert forall i | 0 <= i < |rest| :: rest[i] == uses[i + 1];
      if AddKind(kinds, u.path, u.kind).Some? {
        var more := AddKind(kinds, u.path, u.kind).value;
        AddKindsExactly(more, rest);
        if AddKinds(more, rest).Some? {
          forall i | 0 <= i < |uses| && uses[i].path == u.path ensures uses[i].kind == u.kind {
            if i > 0 {
              assert rest[i - 1].path in more && more[u.path] == u.kind;
            }
          }
          forall i, j | 0 <= i < |uses| && 0 <= j < |uses|
              && uses[i].path == uses[j].path ensures uses[i].kind == uses[j].kind {
            if i > 0 && j > 0 {
              assert rest[i - 1].path == rest[j - 1].path;
            }
          }
          forall i | 0 <= i < |uses| && uses[i].path in kinds ensures kinds[uses[i].path] == uses[i].kind {
            if i > 0 {
              assert rest[i - 1].path in more;
            }
          }
        }
      }
    }
  }

  lemma {:induction false} AddNewExactly(known: set<Path>, paths: seq<Path>)
    ensures AddNew(known, paths).Some? <==> Distinct(paths) && forall i | 0 <= i < |paths| :: paths[i] !in known
    decreases |paths|
  {
    if paths != [] && paths[0] !in known {
      var rest := paths[1..];
      AddNewExactly(known + {paths[0]}, rest);
      assert forall i | 0 <= i < |rest| :: rest[i] == paths[i + 1];
      if AddNew(known, paths).Some? {
        forall i, j | 0 <= i < j < |paths| ensures paths[i] != paths[j] {
          assert rest[j - 1] != paths[0];
          if i > 0 {
            assert rest[i - 1] != rest[j - 1];
          }
        }
      }
    }
  }
}
