/** Rebuilding the paths of a manifest from the stored parent links and locators. */
module PathReplay {
  import opened Wrappers
  import opened Sequences
  import opened Paths
  import opened Composition
  import Theorems = CompositionTheorems

  /** The path an entry stands for, given the path of the file that declares it. */
  function Rebuild(from: Path, locator: Locator): (r: Path) {
    if locator.absolute then Normal(locator.path) else Normal(Join(Parent(from), locator.path))
  }

  function ReplayFrom(paths: seq<Path>, entries: seq<Entry>): (r: Option<seq<Path>>)
    decreases |entries|
  {
    if entries == [] then Some(paths)
    else
      var l := entries[0].locator;
      if l.declaring >= |paths| then None else ReplayFrom(paths + [Rebuild(paths[l.declaring], l)], entries[1..])
  }

  predicate RootMatches(root: Path, e: Entry) {
    e.locator.declaring == NO_FILE && !e.locator.absolute && e.locator.path == Filename(root)
  }

  function Replay(root: Path, files: seq<Entry>): (r: Option<seq<Path>>) {
    if files == [] || !RootMatches(root, files[0]) then None else ReplayFrom([root], files[1..])
  }

  /** The loop of the verifier. */
  method RebuildPaths(root: Path, files: seq<Entry>) returns (paths: Option<seq<Path>>)
    ensures paths == Replay(root, files)
  {
    hide Rebuild, RootMatches;
    if |files| == 0 {
      return None;
    }
    var resolved: seq<Path> := [];
    var index := 0;
    while index < |files|
      invariant 0 <= index <= |files| && |resolved| == index
      invariant index > 0 ==> ReplayFrom(resolved, files[index..]) == Replay(root, files)
    {
      var l := files[index].locator;
      if index == 0 {
        if !RootMatches(root, files[index]) {
          return None;
        }
        resolved := resolved + [root];
        assert resolved == [root];
      } else {
        assert files[index..][1..] == files[index + 1..];
        if l.declaring >= index {
          return None;
        }
        resolved := resolved + [Rebuild(resolved[l.declaring], l)];
      }
      index := index + 1;
    }
    return Some(resolved);
  }

  // ----- replay of what was composed -----

  lemma {:induction false} ReplayConcat(paths: seq<Path>, a: seq<Entry>, b: seq<Entry>)
    ensures ReplayFrom(paths, a + b)
            == match ReplayFrom(paths, a) { case None => None case Some(more) => ReplayFrom(more, b) }
    decreases |a|
  {
    hide Rebuild;
    if a == [] {
      assert a + b == b;
    } else {
      assert (a + b)[1..] == a[1..] + b;
      var l := a[0].locator;
      if l.declaring < |paths| {
        ReplayConcat(paths + [Rebuild(paths[l.declaring], l)], a[1..], b);
      }
    }
  }

  /** A normal absolute path, as every visited path is. */
  predicate Settled(p: Path) { p.rooted && Plain(true, p.parts) }

  /** Each Project of a tree is where its locator says, seen from the one that references it. */
  predicate Linked(t: Tree)
    decreases t
  {
    Settled(t.path) && ForestLinked(t.path, t.children)
  }

  predicate ForestLinked(from: Path, f: Forest)
    decreases f
  {
    f.More? ==>
      && f.first.path == Resolve(from, f.first.locator) && Proper(f.first.locator) && Linked(f.first)
      && ForestLinked(from, f.rest)
  }

  /**
   * Names behind so many steps up mean a file that many directories above the one that names it, both
   * to the composer and when its path is rebuilt; above the root nothing is left to go up.
   */
  lemma ResolvesBeside(from: Path, k: nat, names: seq<Name>, declaring: nat)
    requires Settled(from) && from.parts != [] && !from.trailing
    requires names != [] && forall i | 0 <= i < |names| :: IsName(names[i])
    ensures var q, above := Path(false, Ups(k) + names, false), Left(|from.parts|, k + 1);
            && Resolve(from, q) == Path(true, from.parts[..above] + names, false)
            && Rebuild(from, Locator(declaring, false, q)) == Path(true, from.parts[..above] + names, false)
  {
    hide Normal;
    var directory := Path(true, from.parts[..|from.parts| - 1], false);
    ParentAndName(from);
    ParentIsPlain(from);
    OnlyParent(from, Parent(from), Filename(from));
    NormalFrom(directory, k, names, false);
    assert directory.parts[..Left(|directory.parts|, k)] == from.parts[..Left(|from.parts|, k + 1)];
  }

  /** An absolute path is where it says, whichever file names it. */
  lemma ResolvesAbsolute(from: Path, q: Path, declaring: nat)
    requires Settled(q) && (q.trailing ==> q.parts != [])
    ensures Resolve(from, q) == q && Rebuild(from, Locator(declaring, true, q)) == q
  {
    hide Normal;
    assert q.trailing ==> q.parts[|q.parts| - 1] != DOT_DOT;
    NormalOfPlain(q);
  }

  /** Only one directory and name make up a path. */
  lemma OnlyParent(p: Path, directory: Path, name: Path)
    requires p.parts != [] && !p.trailing && Join(directory, name) == p && !directory.trailing && !name.rooted
    requires |name.parts| <= 1 && name != EMPTY && name.parts != []
    ensures directory == Path(p.rooted, p.parts[..|p.parts| - 1], false)
  {
    assert p.parts == directory.parts + name.parts;
  }

  /** Normalising a locator before storing it does not move what it stands for. */
  lemma StoredLocator(from: Path, q: Path, declaring: nat)
    requires Settled(from) && Proper(q)
    ensures Rebuild(from, Locator(declaring, q.rooted, Normal(q))) == Resolve(from, q) && Settled(Resolve(from, q))
  {
    hide Normal, Plain;
    ParentIsPlain(from);
    NormalIsPlain(Join(Parent(from), q));
    if q.rooted {
      NormalIdempotent(q);
    } else {
      NormalThroughJoin(Parent(from), q);
    }
  }

  lemma {:induction false} TreeReplays(t: Tree, from: Path, declaring: nat, paths: seq<Path>)
    requires declaring < |paths| && paths[declaring] == from && Settled(from)
    requires Linked(t) && t.path == Resolve(from, t.locator) && Proper(t.locator)
    ensures ReplayFrom(paths, Entries(t, declaring, t.locator.rooted, |paths|)) == Some(paths + Preorder(t))
    decreases t, 1
  {
    hide Rebuild, Resolve, Settled, ForestEntries, ForestPreorder, ForestLinked;
    StoredLocator(from, t.locator, declaring);
    var e, rest := Entries(t, declaring, t.locator.rooted, |paths|), ForestEntries(t.children, |paths|, |paths| + 1);
    var more := paths + [t.path];
    assert e[1..] == rest && e[0] == EntryOf(Locator(declaring, t.locator.rooted, t.locator), t.content);
    ForestReplays(t.children, t.path, |paths|, more);
    assert more + ForestPreorder(t.children) == paths + Preorder(t);
  }

  lemma {:induction false} ForestReplays(f: Forest, from: Path, declaring: nat, paths: seq<Path>)
    requires declaring < |paths| && paths[declaring] == from && Settled(from) && ForestLinked(from, f)
    ensures ReplayFrom(paths, ForestEntries(f, declaring, |paths|)) == Some(paths + ForestPreorder(f))
    decreases f, 0
  {
    hide Rebuild, Resolve, Settled, Entries, Preorder, Linked;
    match f
    case Nothing => assert paths + ForestPreorder(f) == paths;
    case More(first, rest) =>
      var more := paths + Preorder(first);
      TreeReplays(first, from, declaring, paths);
      ForestReplays(rest, from, declaring, more);
      ReplayConcat(paths, Entries(first, declaring, first.locator.rooted, |paths|),
          ForestEntries(rest, declaring, |more|));
      assert more + ForestPreorder(rest) == paths + ForestPreorder(f);
  }

  /** Configuration items have paths that are not empty. */
  ghost predicate ProperLoader(load: Loader) {
    forall path, isRoot :: load(path, isRoot).Config? ==>
      forall i | 0 <= i < |load(path, isRoot).dependencies| :: Proper(load(path, isRoot).dependencies[i].path)
  }

  lemma {:induction false} ReferencesAreProper(dependencies: seq<Dependency>)
    requires forall i | 0 <= i < |dependencies| :: Proper(dependencies[i].path)
    ensures forall i | 0 <= i < |References(dependencies)| :: Proper(References(dependencies)[i])
    decreases |dependencies|
  {
    hide Proper;
    if dependencies != [] {
      ReferencesAreProper(dependencies[1..]);
    }
  }

  lemma {:induction false} ExpandLinks(load: Loader, path: Path, locator: Path, isRoot: bool, depth: nat)
    requires ProperLoader(load) && Settled(path) && Expand(load, path, locator, isRoot, depth).Some?
    ensures Linked(Expand(load, path, locator, isRoot, depth).value)
            && Expand(load, path, locator, isRoot, depth).value.path == path
    ensures Expand(load, path, locator, isRoot, depth).value.locator == locator
    decreases DEPTH_LIMIT + 1 - depth, 1, 0
  {
    hide Settled, Proper, References, Normal;
    ReferencesAreProper(load(path, isRoot).dependencies);
    ExpandAllLinks(load, path, References(load(path, isRoot).dependencies), depth);
  }

  lemma {:induction false} ExpandAllLinks(load: Loader, from: Path, references: seq<Path>, depth: nat)
    requires ProperLoader(load) && Settled(from) && depth <= DEPTH_LIMIT
             && ExpandAll(load, from, references, depth).Some?
    requires forall i | 0 <= i < |references| :: Proper(references[i])
    ensures ForestLinked(from, ExpandAll(load, from, references, depth).value)
    decreases DEPTH_LIMIT + 1 - depth, 0, |references|
  {
    hide Settled, Proper, Resolve;
    if references != [] {
      var q := references[0];
      StoredLocator(from, q, 0);
      ExpandLinks(load, Resolve(from, q), q, false, depth + 1);
      ExpandAllLinks(load, from, references[1..], depth);
    }
  }

  lemma RootLocator(root: Path)
    requires Settled(root) && Normal(Filename(root)) != EMPTY
    ensures Normal(Filename(root)) == Filename(root)
  {
    if Filename(root) != EMPTY {
      var last := Last(root.parts);
      assert root.parts[|root.parts| - 1] == last;
      var none: seq<Name> := [];
      assert [last][1..] == none;
      assert Fold(false, [], [last]) == [last];
    }
  }

  /** Whatever was composed, the stored links give back at each index exactly the path that was visited. */
  lemma ComposedReplays(load: Loader, root: Path)
    requires ProperLoader(load) && Settled(root) && Compose(load, root).Done?
    ensures var t := Expand(load, root, Filename(root), true, 1);
            t.Some? && Replay(root, Compose(load, root).st.files) == Some(Preorder(t.value))
  {
    hide Compose, Settled, Filename, ForestEntries, ForestPreorder, Normal, Linked;
    Theorems.ComposesExactly(load, root);
    ExpandLinks(load, root, Filename(root), true, 1);
    var t := Expand(load, root, Filename(root), true, 1).value;
    ExpandHasName(load, root, Filename(root), true, 1);
    RootLocator(root);
    var e := Entries(t, NO_FILE, false, 0);
    RootForest(t);
    assert e[1..] == ForestEntries(t.children, 0, 1);
    ForestReplays(t.children, root, 0, [root]);
  }

  lemma RootForest(t: Tree)
    requires Linked(t)
    ensures ForestLinked(t.path, t.children)
  {
  }

  lemma ExpandHasName(load: Loader, path: Path, locator: Path, isRoot: bool, depth: nat)
    requires Expand(load, path, locator, isRoot, depth).Some?
    ensures Normal(locator) != EMPTY
  {
    hide References;
  }

  // ----- what the entries hold -----

  /** An entry holds the content read at its path, and a locator in its normal form. */
  predicate Records(load: Loader, e: Entry, path: Path, isRoot: bool) {
    load(path, isRoot).Config? && e.content == load(path, isRoot).content && Normal(e.locator.path) == e.locator.path
  }

  ghost predicate AllRecord(load: Loader, entries: seq<Entry>, paths: seq<Path>, root: bool) {
    |entries| == |paths| && forall i | 0 <= i < |entries| :: Records(load, entries[i], paths[i], root && i == 0)
  }

  lemma RecordsConcat(load: Loader, a: seq<Entry>, p: seq<Path>, b: seq<Entry>, q: seq<Path>, root: bool)
    requires AllRecord(load, a, p, root) && AllRecord(load, b, q, false) && a != []
    ensures AllRecord(load, a + b, p + q, root)
  {
    hide Records;
  }

  lemma {:induction false} TreeRecords(load: Loader, path: Path, locator: Path, isRoot: bool, depth: nat,
      declaring: nat, absolute: bool, index: nat)
    requires ProperLoader(load) && Proper(locator) && Expand(load, path, locator, isRoot, depth).Some?
    ensures var t := Expand(load, path, locator, isRoot, depth).value;
            AllRecord(load, Entries(t, declaring, absolute, index), Preorder(t), isRoot)
    decreases DEPTH_LIMIT + 1 - depth, 1, 0
  {
    hide Proper, References, Normal, Records, ForestEntries, ForestPreorder;
    var t := Expand(load, path, locator, isRoot, depth).value;
    var dependencies := load(path, isRoot).dependencies;
    ReferencesAreProper(dependencies);
    ForestRecords(load, path, References(dependencies), depth, index, index + 1);
    NormalIdempotent(locator);
    var first := EntryOf(Locator(declaring, absolute, locator), t.content);
    FirstRecords(load, first, path, isRoot);
    RecordsConcat(load, [first], [path], ForestEntries(t.children, index, index + 1), ForestPreorder(t.children),
        isRoot);
  }

  lemma FirstRecords(load: Loader, e: Entry, path: Path, isRoot: bool)
    requires load(path, isRoot).Config? && e.content == load(path, isRoot).content
    requires Normal(e.locator.path) == e.locator.path
    ensures AllRecord(load, [e], [path], isRoot)
  {
  }

  lemma {:induction false} ForestRecords(load: Loader, from: Path, references: seq<Path>, depth: nat, declaring: nat,
      index: nat)
    requires ProperLoader(load) && depth <= DEPTH_LIMIT && ExpandAll(load, from, references, depth).Some?
    requires forall i | 0 <= i < |references| :: Proper(references[i])
    ensures var f := ExpandAll(load, from, references, depth).value;
            AllRecord(load, ForestEntries(f, declaring, index), ForestPreorder(f), false)
    decreases DEPTH_LIMIT + 1 - depth, 0, |references|
  {
    hide Proper, Resolve, Records, Preorder, Entries;
    if references != [] {
      var q := references[0];
      var f := ExpandAll(load, from, references, depth).value;
      ExpandNames(load, Resolve(from, q), q, false, depth + 1);
      TreeRecords(load, Resolve(from, q), q, false, depth + 1, declaring, q.rooted, index);
      var next := index + |Preorder(f.first)|;
      ForestRecords(load, from, references[1..], depth, declaring, next);
      var head, paths := Entries(f.first, declaring, q.rooted, index), Preorder(f.first);
      assert head != [] by {
        HasEntry(f.first, declaring, q.rooted, index);
      }
      RecordsConcat(load, head, paths, ForestEntries(f.rest, declaring, next), ForestPreorder(f.rest), false);
    }
  }

  lemma ExpandNames(load: Loader, path: Path, locator: Path, isRoot: bool, depth: nat)
    requires Expand(load, path, locator, isRoot, depth).Some?
    ensures Expand(load, path, locator, isRoot, depth).value.locator == locator
  {
    hide References;
  }

  lemma HasEntry(t: Tree, declaring: nat, absolute: bool, index: nat)
    ensures Entries(t, declaring, absolute, index) != []
  {
  }

  /** A composed manifest holds, in the order of the walk, the content read at each path and how it was named. */
  lemma ComposedRecords(load: Loader, root: Path)
    requires ProperLoader(load) && Settled(root) && Compose(load, root).Done?
    ensures var t := Expand(load, root, Filename(root), true, 1);
            t.Some? && AllRecord(load, Compose(load, root).st.files, Preorder(t.value), true)
  {
    hide Compose, Filename, Entries, Preorder, Normal, AllRecord;
    Theorems.ComposesExactly(load, root);
    ExpandHasName(load, root, Filename(root), true, 1);
    RootLocator(root);
    ProperName(root);
    TreeRecords(load, root, Filename(root), true, 1, NO_FILE, false, 0);
  }

  lemma ProperName(root: Path)
    requires Normal(Filename(root)) != EMPTY
    ensures Proper(Filename(root))
  {
    NothingFolds();
  }

  lemma NothingFolds()
    ensures Normal(EMPTY) == EMPTY
  {
  }
}
