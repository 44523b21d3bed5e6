/** Composing succeeds exactly for well-formed reference trees, and what it yields is the tree's preorder. */
module CompositionTheorems {
  import opened Bytes
  import opened Wrappers
  import opened Paths
  import opened Composition

  /** Nothing that is about to be entered, used or declared stands against what already is. */
  predicate Allows(st: State, nodes: seq<Path>, uses: seq<Use>, inputs: seq<Path>) {
    && AddNew(st.visited, nodes).Some? && AddKinds(st.kinds, uses).Some? && AddNew(st.inputs, inputs).Some?
    && |st.files| + |nodes| <= MAX_INDEX + 1
  }

  function After(st: State, nodes: seq<Path>, uses: seq<Use>, inputs: seq<Path>, entries: seq<Entry>): (r: State)
    requires Allows(st, nodes, uses, inputs)
  {
    State(AddNew(st.visited, nodes).value, st.active, AddNew(st.inputs, inputs).value,
        AddKinds(st.kinds, uses).value, st.files + entries)
  }

  datatype Part = Part(nodes: seq<Path>, uses: seq<Use>, inputs: seq<Path>, entries: seq<Entry>)

  predicate Fits(st: State, p: Part) { Allows(st, p.nodes, p.uses, p.inputs) }

  function Put(st: State, p: Part): (r: State)
    requires Fits(st, p)
  {
    After(st, p.nodes, p.uses, p.inputs, p.entries)
  }

  function Both(p: Part, q: Part): (r: Part) {
    Part(p.nodes + q.nodes, p.uses + q.uses, p.inputs + q.inputs, p.entries + q.entries)
  }

  lemma FitsBoth(st: State, p: Part, q: Part)
    requires |p.entries| == |p.nodes|
    ensures Fits(st, Both(p, q)) <==> Fits(st, p) && Fits(Put(st, p), q)
    ensures Fits(st, Both(p, q)) ==> Put(st, Both(p, q)) == Put(Put(st, p), q)
  {
    hide AddNew, AddKinds;
    AddNewConcat(st.visited, p.nodes, q.nodes);
    AddNewConcat(st.inputs, p.inputs, q.inputs);
    AddKindsConcat(st.kinds, p.uses, q.uses);
    assert st.files + (p.entries + q.entries) == (st.files + p.entries) + q.entries;
  }

  /** A walk does what its part of the manifest says, or is refused when that does not fit. */
  ghost predicate Meets(out: Outcome, st: State, p: Part) {
    (out.Done? <==> Fits(st, p)) && (out.Done? ==> out.st == Put(st, p))
  }

  // ----- the parts -----

  function Entering(path: Path, entry: Entry): (r: Part) { Part([path], [Use(path, Project)], [], [entry]) }

  function Declaring(from: Path, dependencies: seq<Dependency>): (r: Part) {
    Part([], UsesOf(from, dependencies), InputsOf(from, dependencies), [])
  }

  function Whole(t: Tree, declaring: nat, absolute: bool, index: nat): (r: Part) {
    Part(Preorder(t), Uses(t), Inputs(t), Entries(t, declaring, absolute, index))
  }

  function WholeForest(f: Forest, declaring: nat, index: nat): (r: Part) {
    Part(ForestPreorder(f), ForestUses(f), ForestInputs(f), ForestEntries(f, declaring, index))
  }

  lemma {:induction false} EntriesMatch(t: Tree, declaring: nat, absolute: bool, index: nat)
    ensures |Entries(t, declaring, absolute, index)| == |Preorder(t)|
    decreases t
  {
    ForestEntriesMatch(t.children, index, index + 1);
  }

  lemma {:induction false} ForestEntriesMatch(f: Forest, declaring: nat, index: nat)
    ensures |ForestEntries(f, declaring, index)| == |ForestPreorder(f)|
    decreases f
  {
    match f
    case Nothing =>
    case More(first, rest) =>
      EntriesMatch(first, declaring, first.locator.rooted, index);
      ForestEntriesMatch(rest, declaring, index + |Preorder(first)|);
  }

  lemma WholeIsBoth(t: Tree, declaring: nat, absolute: bool, index: nat)
    ensures Whole(t, declaring, absolute, index)
         == Both(Entering(t.path, EntryOf(Locator(declaring, absolute, t.locator), t.content)),
                 Both(Declaring(t.path, t.dependencies), WholeForest(t.children, index, index + 1)))
  {
    assert forall f: seq<Path> :: [] + f == f;
    assert forall f: seq<Entry> :: [] + f == f;
  }

  // ----- declaring -----

  lemma UsesOfFirst(from: Path, dependencies: seq<Dependency>)
    requires dependencies != []
    ensures UsesOf(from, dependencies)
            == [Use(Resolve(from, dependencies[0].path), dependencies[0].kind)] + UsesOf(from, dependencies[1..])
  {
  }

  lemma {:induction false} DeclareMeets(st: State, from: Path, dependencies: seq<Dependency>)
    requires |st.files| <= MAX_INDEX + 1
    ensures Meets(Declare(st, from, dependencies), st, Declaring(from, dependencies))
    decreases |dependencies|
  {
    hide Resolve, AddKind;
    if dependencies == [] {
      assert st.files + [] == st.files;
    } else {
      UsesOfFirst(from, dependencies);
      var d := dependencies[0];
      var child := Resolve(from, d.path);
      match AddKind(st.kinds, child, d.kind)
      case None =>
      case Some(kinds) =>
        var rest := UsesOf(from, dependencies[1..]);
        assert ([Use(child, d.kind)] + rest)[1..] == rest;
        if d.kind.Header? {
          assert [] + InputsOf(from, dependencies[1..]) == InputsOf(from, dependencies[1..]);
          DeclareMeets(st.(kinds := kinds), from, dependencies[1..]);
        } else if child !in st.inputs {
          assert ([child] + InputsOf(from, dependencies[1..]))[1..] == InputsOf(from, dependencies[1..]);
          DeclareMeets(st.(kinds := kinds, inputs := st.inputs + {child}), from, dependencies[1..]);
        }
    }
  }

  // ----- entering -----

  lemma EnterFits(st: State, path: Path, entry: Entry)
    ensures Fits(st, Entering(path, entry)) <==>
      path !in st.visited && AddKind(st.kinds, path, Project).Some? && |st.files| <= MAX_INDEX
    ensures Fits(st, Entering(path, entry)) ==>
      Put(st, Entering(path, entry))
          == State(st.visited + {path}, st.active, st.inputs, AddKind(st.kinds, path, Project).value,
             st.files + [entry])
  {
    hide AddKind;
    var none: seq<Path>, unused: seq<Use> := [], [];
    assert [path][1..] == none && [Use(path, Project)][1..] == unused;
    assert AddNew(st.visited + {path}, none) == Some(st.visited + {path}) && AddNew(st.inputs, none) == Some(st.inputs);
    assert forall kinds :: AddKinds(kinds, unused) == Some(kinds);
  }

  // ----- parts one after the other -----

  /** What fits is done part by part. */
  lemma ThenMeets(st: State, p: Part, q: Part, out: Outcome)
    requires |p.entries| == |p.nodes| && Fits(st, p) && Meets(out, Put(st, p), q)
    ensures Meets(out, st, Both(p, q))
  {
    hide Fits, Put, Both;
    FitsBoth(st, p, q);
  }

  lemma ThenRefused(st: State, p: Part, q: Part, status: Status)
    requires |p.entries| == |p.nodes| && !Fits(st, p)
    ensures Meets(Refused(status), st, Both(p, q))
  {
    hide Fits, Put, Both;
    FitsBoth(st, p, q);
  }

  lemma {:induction false} AddNewGrows(known: set<Path>, paths: seq<Path>)
    requires AddNew(known, paths).Some?
    ensures known <= AddNew(known, paths).value
    decreases |paths|
  {
    if paths != [] {
      AddNewGrows(known + {paths[0]}, paths[1..]);
    }
  }

  lemma PutGrows(st: State, p: Part)
    requires Fits(st, p)
    ensures st.visited <= Put(st, p).visited && Put(st, p).active == st.active
            && |Put(st, p).files| == |st.files| + |p.entries|
  {
    AddNewGrows(st.visited, p.nodes);
  }

  /** Visiting marks a path as under way and unmarks it again. */
  lemma Unmarked(st: State, path: Path, p: Part, out: Outcome)
    requires path !in st.active && Meets(out, st.(active := st.active + {path}), p)
    ensures Meets(if out.Done? then Done(out.st.(active := out.st.active - {path})) else out, st, p)
  {
    hide AddNew, AddKinds;
    assert st.active + {path} - {path} == st.active;
  }

  function Inside(load: Loader, st: State, path: Path, locator: Locator, content: bytes,
      dependencies: seq<Dependency>, kinds: map<Path, Kind>,
      depth: nat): (r: Outcome)
    requires depth <= DEPTH_LIMIT
  {
    var entered := State(st.visited + {path}, st.active + {path}, st.inputs, kinds,
        st.files + [EntryOf(locator, content)]);
    match Declare(entered, path, dependencies)
    case Refused(status) => Refused(status)
    case Done(declared) => VisitAll(load, declared, path, |st.files|, References(dependencies), depth)
  }

  /** A path that can be entered: what is declared in its file and what is visited from it decide the rest. */
  lemma {:induction false} InsideMeets(load: Loader, st: State, path: Path, locator: Locator, content: bytes,
      dependencies: seq<Dependency>,
      depth: nat)
    requires st.active <= st.visited && depth <= DEPTH_LIMIT
    requires path !in st.visited && AddKind(st.kinds, path, Project).Some? && |st.files| <= MAX_INDEX
    ensures var forest := ExpandAll(load, path, References(dependencies), depth);
            var out := Inside(load, st, path, locator, content, dependencies, AddKind(st.kinds, path, Project).value,
                depth);
            if forest.None? then out.Refused?
            else Meets(out, st.(active := st.active + {path}),
                   Whole(Node(path, locator.path, content, dependencies, forest.value), locator.declaring,
                       locator.absolute, |st.files|))
    decreases DEPTH_LIMIT + 1 - depth, 0, |References(dependencies)| + 1
  {
    hide AddKind, Normal, Declare, References, Meets, Fits, Put, Whole, WholeForest, Both, EntryOf, UsesOf, InputsOf;
    var marked := st.(active := st.active + {path});
    var entry := EntryOf(locator, content);
    var enter, declare := Entering(path, entry), Declaring(path, dependencies);
    EnterFits(marked, path, entry);
    var entered := Put(marked, enter);
    var forest := ExpandAll(load, path, References(dependencies), depth);
    var after := Declare(entered, path, dependencies);
    DeclareMeets(entered, path, dependencies);
    MeetsFits(after, entered, declare);
    if after.Done? {
      PutGrows(entered, declare);
      VisitAllMeets(load, after.st, path, |st.files|, References(dependencies), depth);
    }
    if forest.Some? {
      var t := Node(path, locator.path, content, dependencies, forest.value);
      var whole := WholeForest(forest.value, |st.files|, |st.files| + 1);
      var out := Inside(load, st, path, locator, content, dependencies, AddKind(st.kinds, path, Project).value, depth);
      WholeIsBoth(t, locator.declaring, locator.absolute, |st.files|);
      if after.Done? {
        ThenMeets(entered, declare, whole, out);
      } else {
        ThenRefused(entered, declare, whole, out.status);
      }
      ThenMeets(marked, enter, Both(declare, whole), out);
    }
  }

  lemma MeetsFits(out: Outcome, st: State, p: Part)
    requires Meets(out, st, p)
    ensures (out.Done? <==> Fits(st, p)) && (out.Done? ==> out.st == Put(st, p))
  {
  }

  lemma {:induction false} VisitMeets(load: Loader, st: State, path: Path, locator: Locator, depth: nat)
    requires st.active <= st.visited
    ensures var t := Expand(load, path, locator.path, IsRoot(locator), depth);
            var out := Visit(load, st, path, locator, depth);
            if t.None? then out.Refused?
                else Meets(out, st, Whole(t.value, locator.declaring, locator.absolute, |st.files|))
    decreases DEPTH_LIMIT + 1 - depth, 1, 0
  {
    hide AddKind, Normal, Declare, References, Meets, Fits, Put, Whole, WholeForest, Both, EntryOf, UsesOf, InputsOf;
    hide Declaring, Entering;
    if depth <= DEPTH_LIMIT && load(path, IsRoot(locator)).Config? && Normal(locator.path) != EMPTY {
      var Config(content, dependencies) := load(path, IsRoot(locator));
      var enter := Entering(path, EntryOf(locator, content));
      EnterFits(st, path, EntryOf(locator, content));
      var forest := ExpandAll(load, path, References(dependencies), depth);
      if Fits(st, enter) {
        InsideMeets(load, st, path, locator, content, dependencies, depth);
        if forest.Some? {
          var t := Node(path, locator.path, content, dependencies, forest.value);
          Unmarked(st, path, Whole(t, locator.declaring, locator.absolute, |st.files|),
            Inside(load, st, path, locator, content, dependencies, AddKind(st.kinds, path, Project).value, depth));
        }
      } else if forest.Some? {
        var t := Node(path, locator.path, content, dependencies, forest.value);
        WholeIsBoth(t, locator.declaring, locator.absolute, |st.files|);
        EnteringIsOne(path, EntryOf(locator, content));
        ThenRefused(st, enter,
            Both(Declaring(path, dependencies), WholeForest(forest.value, |st.files|, |st.files| + 1)),
          Visit(load, st, path, locator, depth).status);
      }
    }
  }

  lemma EnteringIsOne(path: Path, entry: Entry)
    ensures |Entering(path, entry).entries| == |Entering(path, entry).nodes|
  {
  }

  lemma {:induction false} VisitAllMeets(load: Loader, st: State, from: Path, index: nat, references: seq<Path>,
      depth: nat)
    requires st.active <= st.visited && depth <= DEPTH_LIMIT && |st.files| <= MAX_INDEX + 1 && index < |st.files|
    ensures var f := ExpandAll(load, from, references, depth);
            var out := VisitAll(load, st, from, index, references, depth);
            if f.None? then out.Refused? else Meets(out, st, WholeForest(f.value, index, |st.files|))
    decreases DEPTH_LIMIT + 1 - depth, 0, |references|
  {
    hide Resolve, Meets, Fits, Put, Both, Whole, WholeForest;
    var f := ExpandAll(load, from, references, depth);
    if references == [] {
      NothingMeets(st, index);
    } else {
      var q, rest := references[0], references[1..];
      var locator := Locator(index, q.rooted, q);
      var child := Resolve(from, q);
      if index == NO_FILE {
        FullRefuses(load, st, child, locator, depth + 1);
        if f.Some? {
          FullFitsNothing(st, f.value, index);
          RefusedMeets(st, WholeForest(f.value, index, |st.files|), Visit(load, st, child, locator, depth + 1).status);
        }
        return;
      }
      VisitMeets(load, st, child, locator, depth + 1);
      var first := Expand(load, child, q, false, depth + 1);
      if first.Some? {
        var t := first.value;
        ExpandKeepsLocator(load, child, q, false, depth + 1);
        var whole := Whole(t, index, q.rooted, |st.files|);
        var out := Visit(load, st, child, locator, depth + 1);
        MeetsFits(out, st, whole);
        EntriesMatch(t, index, q.rooted, |st.files|);
        WholeParts(t, index, q.rooted, |st.files|);
        if out.Done? {
          PutGrows(st, whole);
          FitsBounds(st, whole);
          VisitAllMeets(load, out.st, from, index, rest, depth);
        }
        var more := ExpandAll(load, from, rest, depth);
        if more.Some? {
          MoreIsBoth(t, more.value, index, |st.files|);
          var tail := WholeForest(more.value, index, |st.files| + |Preorder(t)|);
          if out.Done? {
            ThenMeets(st, whole, tail, VisitAll(load, out.st, from, index, rest, depth));
          } else {
            ThenRefused(st, whole, tail, out.status);
          }
        }
      }
    }
  }

  lemma RefusedMeets(st: State, p: Part, status: Status)
    ensures !Fits(st, p) ==> Meets(Refused(status), st, p)
  {
  }

  lemma FullRefuses(load: Loader, st: State, path: Path, locator: Locator, depth: nat)
    requires |st.files| > MAX_INDEX
    ensures Visit(load, st, path, locator, depth).Refused?
  {
    hide Normal, AddKind, Declare;
  }

  lemma FullFitsNothing(st: State, f: Forest, index: nat)
    requires |st.files| > MAX_INDEX && f.More?
    ensures !Fits(st, WholeForest(f, index, |st.files|))
  {
    hide AddNew, AddKinds;
  }

  lemma ExpandKeepsLocator(load: Loader, path: Path, locator: Path, isRoot: bool, depth: nat)
    requires Expand(load, path, locator, isRoot, depth).Some?
    ensures var t := Expand(load, path, locator, isRoot, depth).value; t.locator == locator && t.path == path
  {
    hide Normal, References;
  }

  lemma WholeParts(t: Tree, declaring: nat, absolute: bool, index: nat)
    ensures var p := Whole(t, declaring, absolute, index);
            p.entries == Entries(t, declaring, absolute, index) && p.nodes == Preorder(t)
  {
  }

  lemma FitsBounds(st: State, p: Part)
    requires Fits(st, p)
    ensures |st.files| + |p.nodes| <= MAX_INDEX + 1
  {
  }

  lemma MoreIsBoth(t: Tree, rest: Forest, declaring: nat, index: nat)
    ensures WholeForest(More(t, rest), declaring, index)
         == Both(Whole(t, declaring, t.locator.rooted, index), WholeForest(rest, declaring, index + |Preorder(t)|))
  {
  }

  lemma NothingMeets(st: State, index: nat)
    requires |st.files| <= MAX_INDEX + 1
    ensures Meets(Done(st), st, WholeForest(Nothing, index, |st.files|))
  {
    assert st.files + [] == st.files;
  }

  // ----- composing from nothing -----

  predicate Conditions(t: Tree) {
    Distinct(Preorder(t)) && Distinct(Inputs(t)) && Agree(Uses(t)) && |Preorder(t)| <= MAX_INDEX + 1
  }

  /**
   * Composition succeeds exactly when every Project reached from the root can be read, within 256
   * levels, each is referenced once, no path is used with two kinds and no source, assign or Project
   * is declared twice. The files are then the preorder of the references in declaration order.
   */
  lemma ComposesExactly(load: Loader, root: Path)
    ensures var t := Expand(load, root, Filename(root), true, 1);
            && (Compose(load, root).Done? <==> t.Some? && Conditions(t.value))
            && (Compose(load, root).Done? ==> Compose(load, root).st.files == Entries(t.value, NO_FILE, false, 0))
  {
    hide Visit, Expand, AddNew, AddKinds, Agree, Distinct, Preorder, Uses, Inputs, Entries, Filename;
    var locator := Locator(NO_FILE, false, Filename(root));
    VisitMeets(load, FRESH, root, locator, 1);
    var t := Expand(load, root, Filename(root), true, 1);
    if t.Some? {
      AddNewExactly({}, Preorder(t.value));
      AddNewExactly({}, Inputs(t.value));
      AddKindsExactly(map[], Uses(t.value));
      assert [] + Entries(t.value, NO_FILE, false, 0) == Entries(t.value, NO_FILE, false, 0);
    }
  }

  /** Entries from a place on declare places no lower than the given one, and before their own. */
  predicate Backward(entries: seq<Entry>, lowest: nat, index: nat) {
    forall i | 0 <= i < |entries| :: lowest <= entries[i].locator.declaring < index + i
  }

  lemma BackwardConcat(a: seq<Entry>, b: seq<Entry>, lowest: nat, index: nat)
    requires Backward(a, lowest, index) && Backward(b, lowest, index + |a|)
    ensures Backward(a + b, lowest, index)
  {
    forall i | 0 <= i < |a + b| ensures lowest <= (a + b)[i].locator.declaring < index + i {
      if i >= |a| {
        var k := i - |a|;
        assert (a + b)[i] == b[k] && lowest <= b[k].locator.declaring < index + |a| + k;
      }
    }
  }

  /** Every parent comes before its children: below the first entry all links point back inside the tree. */
  lemma {:induction false} ParentsFirst(t: Tree, declaring: nat, absolute: bool, index: nat)
    ensures var e := Entries(t, declaring, absolute, index);
            e[0].locator.declaring == declaring && Backward(e[1..], index, index + 1)
    decreases t
  {
    ForestParentsFirst(t.children, index, index + 1);
    assert Entries(t, declaring, absolute, index)[1..] == ForestEntries(t.children, index, index + 1);
  }

  lemma {:induction false} ForestParentsFirst(f: Forest, declaring: nat, index: nat)
    requires declaring < index
    ensures Backward(ForestEntries(f, declaring, index), declaring, index)
    decreases f
  {
    hide Entries;
    match f
    case Nothing =>
    case More(first, rest) =>
      var head := Entries(first, declaring, first.locator.rooted, index);
      ParentsFirst(first, declaring, first.locator.rooted, index);
      EntriesMatch(first, declaring, first.locator.rooted, index);
      EntriesNotEmpty(first, declaring, first.locator.rooted, index);
      ForestParentsFirst(rest, declaring, index + |Preorder(first)|);
      assert head == [head[0]] + head[1..];
      BackwardConcat([head[0]], head[1..], declaring, index);
      BackwardConcat(head, ForestEntries(rest, declaring, index + |Preorder(first)|), declaring, index);
  }

  lemma EntriesNotEmpty(t: Tree, declaring: nat, absolute: bool, index: nat)
    ensures Entries(t, declaring, absolute, index) != []
  {
  }

  lemma OneReference(d: Dependency)
    ensures References([]) == [] && References([d]) == if d.kind == Project then [d.path] else []
  {
    assert [d][1..] == [];
  }

  /** The references of a file are the Projects among its dependencies, in the order of declaration. */
  lemma {:induction false} ReferencesGrow(dependencies: seq<Dependency>, d: Dependency)
    ensures References([]) == []
    ensures References(dependencies + [d]) == References(dependencies) + if d.kind == Project then [d.path] else []
    decreases |dependencies|
  {
    OneReference(d);
    var more := if d.kind == Project then [d.path] else [];
    if dependencies == [] {
      assert dependencies + [d] == [d] && [] + more == more;
    } else {
      var all, rest := dependencies + [d], dependencies[1..];
      assert all[0] == dependencies[0] && all[1..] == rest + [d];
      ReferencesGrow(rest, d);
      var first := if dependencies[0].kind.Project? then [dependencies[0].path] else [];
      assert References(all) == first + References(rest + [d]) && References(dependencies) == first + References(rest);
    }
  }
}
