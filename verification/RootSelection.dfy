/** BUILD picks the semantic roots it replays from the roots of the old and of the current configuration. */
module RootSelection {
  import opened Wrappers
  import Paths
  import Composition
  import PathReplay

  type FileId = nat

  predicate Sorted(s: seq<FileId>) { forall i, j | 0 <= i < j < |s| :: s[i] <= s[j] }

  predicate Ascending(s: seq<FileId>) { forall i, j | 0 <= i < j < |s| :: s[i] < s[j] }

  function Members(s: seq<FileId>): (r: set<FileId>) { set x | x in s }

  /** Sorting and removing duplicates leaves one sequence for one set. */
  lemma {:induction false} AscendingUnique(a: seq<FileId>, b: seq<FileId>)
    requires Ascending(a) && Ascending(b) && forall x :: x in a <==> x in b
    ensures a == b
    decreases |a|
  {
    if a == [] {
      assert forall x :: x in b ==> x in a;
      assert forall i | 0 <= i < |b| :: b[i] in a;
    } else {
      assert a[0] in b && b != [] && b[0] in a;
      assert a[0] == b[0];
      forall x ensures x in a[1..] <==> x in b[1..] {
        assert x in a[1..] <==> x in a && x != a[0];
        assert x in b[1..] <==> x in b && x != b[0];
      }
      AscendingUnique(a[1..], b[1..]);
      assert a == [a[0]] + a[1..] && b == [b[0]] + b[1..];
    }
  }

  /** Sorts and removes duplicates, here one value at a time. */
  method NormalizeFileIds(values: seq<FileId>) returns (result: seq<FileId>)
    ensures Ascending(result) && forall x :: x in result <==> x in values
  {
    result := [];
    var i := 0;
    while i < |values|
      invariant 0 <= i <= |values| && Ascending(result)
      invariant forall x :: x in result <==> x in values[..i]
    {
      var at := 0;
      while at < |result| && result[at] < values[i]
        invariant 0 <= at <= |result| && forall k | 0 <= k < at :: result[k] < values[i]
      {
        at := at + 1;
      }
      assert values[..i + 1] == values[..i] + [values[i]];
      if at == |result| || result[at] != values[i] {
        ghost var before := result;
        result := result[..at] + [values[i]] + result[at..];
        assert forall x :: x in result <==> x in before || x == values[i] by {
          assert before == before[..at] + before[at..];
        }
      }
      i := i + 1;
    }
    assert values[..i] == values;
  }

  method ContainsFileId(values: seq<FileId>, value: FileId) returns (found: bool)
    requires Sorted(values)
    ensures found <==> value in values
  {
    var low, high := 0, |values|;
    while low < high
      invariant 0 <= low <= high <= |values|
      invariant forall i | 0 <= i < low :: values[i] < value
      invariant forall i | high <= i < |values| :: values[i] >= value
    {
      var mid := (low + high) / 2;
      if values[mid] < value {
        low := mid + 1;
      } else {
        high := mid;
      }
    }
    found := low < |values| && values[low] == value;
  }

  /** The values of one sequence that are not in another, in their order. */
  function Difference(left: seq<FileId>, right: seq<FileId>): (r: seq<FileId>) {
    if left == [] then []
    else Difference(left[..|left| - 1], right) + if left[|left| - 1] in right then [] else [left[|left| - 1]]
  }

  lemma {:induction false} DifferenceMembers(left: seq<FileId>, right: seq<FileId>)
    ensures forall x :: x in Difference(left, right) <==> x in left && x !in right
    decreases |left|
  {
    if left != [] {
      DifferenceMembers(left[..|left| - 1], right);
      assert left == left[..|left| - 1] + [left[|left| - 1]];
    }
  }

  /** The merge of two sorted sequences computes their exact difference. */
  method AppendFileIdDifference(left: seq<FileId>, right: seq<FileId>, output: seq<FileId>)
      returns (result: seq<FileId>)
    requires Sorted(left) && Sorted(right)
    ensures result == output + Difference(left, right)
  {
    result := output;
    var leftIndex, rightIndex := 0, 0;
    assert left[..0] == [];
    while leftIndex < |left|
      invariant 0 <= leftIndex <= |left| && 0 <= rightIndex <= |right|
      invariant result == output + Difference(left[..leftIndex], right)
      invariant forall k | 0 <= k < rightIndex :: leftIndex < |left| ==> right[k] < left[leftIndex]
    {
      while rightIndex < |right| && right[rightIndex] < left[leftIndex]
        invariant 0 <= rightIndex <= |right|
        invariant forall k | 0 <= k < rightIndex :: right[k] < left[leftIndex]
      {
        rightIndex := rightIndex + 1;
      }
      ghost var taken := left[..leftIndex + 1];
      assert taken[..leftIndex] == left[..leftIndex] && taken[leftIndex] == left[leftIndex];
      assert left[leftIndex] in right <==> rightIndex < |right| && right[rightIndex] == left[leftIndex];
      if rightIndex >= |right| || left[leftIndex] != right[rightIndex] {
        result := result + [left[leftIndex]];
      }
      leftIndex := leftIndex + 1;
    }
    assert left[..leftIndex] == left;
  }

  // ----- the roots of the persisted configuration -----

  datatype SavedFile = SavedFile(currentMember: bool, kind: Composition.Kind, dependencies: seq<FileId>)

  /** The answer of a path lookup, which may itself fail. */
  datatype Lookup = LookupFails(status: nat) | Unknown | Found(id: FileId)

  /** What a persisted SourceSave knows of paths and files. */
  datatype Saved = Saved(valid: bool, find: Paths.Path -> Lookup, file: FileId -> Option<SavedFile>)

  datatype Status = Success | ArtifactInvalid | IoError | OfLookup(status: nat)

  datatype Collected = Roots(values: seq<FileId>) | Refused(status: Status)

  predicate IsRootKind(k: Composition.Kind) { k.Header? || k.Source? }

  predicate DependenciesOk(saved: Saved, dependencies: seq<FileId>) {
    forall i | 0 <= i < |dependencies| :: saved.file(dependencies[i]).Some?
        && saved.file(dependencies[i]).value.currentMember
  }

  /** A path that is a current Project whose dependencies are all current. */
  predicate ProjectOk(saved: Saved, path: Paths.Path) {
    && saved.find(path).Found? && saved.file(saved.find(path).id).Some?
    && var project := saved.file(saved.find(path).id).value;
       project.currentMember && project.kind.Project? && DependenciesOk(saved, project.dependencies)
  }

  function ProjectStatus(saved: Saved, path: Paths.Path): (r: Status) {
    match saved.find(path)
    case LookupFails(status) => OfLookup(status)
    case _ => if ProjectOk(saved, path) then Success else ArtifactInvalid
  }

  /** The headers and sources a Project depends on directly. */
  predicate IsRootOf(saved: Saved, path: Paths.Path, root: FileId) {
    && ProjectOk(saved, path) && root in saved.file(saved.find(path).id).value.dependencies
    && saved.file(root).value.kind in {Composition.Header, Composition.Source}
  }

  method AppendRoots(saved: Saved, path: Paths.Path, roots: seq<FileId>) returns (status: Status, more: seq<FileId>)
    ensures status == ProjectStatus(saved, path)
    ensures status == Success ==>
      ProjectOk(saved, path) && forall x :: x in more <==> x in roots || IsRootOf(saved, path, x)
  {
    more := roots;
    var found := saved.find(path);
    if found.LookupFails? {
      return OfLookup(found.status), more;
    }
    if found.Unknown? || saved.file(found.id).None? {
      return ArtifactInvalid, more;
    }
    var project := saved.file(found.id).value;
    if !project.currentMember || project.kind != Composition.Project {
      return ArtifactInvalid, more;
    }
    var i := 0;
    while i < |project.dependencies|
      invariant 0 <= i <= |project.dependencies| && DependenciesOk(saved, project.dependencies[..i])
      invariant forall x :: x in more <==>
        x in roots || (x in project.dependencies[..i] && saved.file(x).Some? && IsRootKind(saved.file(x).value.kind))
    {
      var d := project.dependencies[i];
      assert project.dependencies[..i + 1] == project.dependencies[..i] + [d];
      if saved.file(d).None? || !saved.file(d).value.currentMember {
        return ArtifactInvalid, more;
      }
      if IsRootKind(saved.file(d).value.kind) {
        more := more + [d];
      }
      i := i + 1;
    }
    assert project.dependencies[..i] == project.dependencies;
    return Success, more;
  }

  /** Which paths the file system can resolve. */
  type Resolver = Paths.Path -> bool

  /** The path of the next entry, given those of the entries before it. */
  function NextPath(root: Paths.Path, paths: seq<Paths.Path>, e: Composition.Entry): (r: Option<Paths.Path>) {
    if paths == [] then (if PathReplay.RootMatches(root, e) then Some(root) else None)
    else if e.locator.declaring >= |paths| then None
    else Some(PathReplay.Rebuild(paths[e.locator.declaring], e.locator))
  }

  /** What is wrong with the next entry, if anything; the root has been resolved before. */
  function NextStatus(resolves: Resolver, root: Paths.Path, saved: Saved, paths: seq<Paths.Path>,
      e: Composition.Entry): (r: Status) {
    match NextPath(root, paths, e)
    case None => ArtifactInvalid
    case Some(path) => if paths != [] && !resolves(path) then IoError else ProjectStatus(saved, path)
  }

  /** The paths of the first entries, all of them resolved and current Projects. */
  ghost predicate GoodSoFar(resolves: Resolver, root: Paths.Path, saved: Saved, files: seq<Composition.Entry>,
      paths: seq<Paths.Path>) {
    && (if files == [] then paths == [] else PathReplay.Replay(root, files) == Some(paths)) && |paths| == |files|
    && forall i | 0 <= i < |paths| :: (i > 0 ==> resolves(paths[i])) && ProjectStatus(saved, paths[i]) == Success
  }

  /** Replaying one entry more. */
  lemma NextReplays(root: Paths.Path, files: seq<Composition.Entry>, paths: seq<Paths.Path>, e: Composition.Entry)
    requires if files == [] then paths == [] else PathReplay.Replay(root, files) == Some(paths) && |paths| == |files|
    ensures PathReplay.Replay(root, files + [e])
         == match NextPath(root, paths, e) { case None => None case Some(path) => Some(paths + [path]) }
  {
    hide PathReplay.Rebuild, PathReplay.RootMatches;
    assert [e][1..] == [];
    if files == [] {
      assert files + [e] == [e] && paths + [root] == [root];
    } else {
      assert (files + [e])[1..] == files[1..] + [e];
      PathReplay.ReplayConcat([root], files[1..], [e]);
    }
  }

  lemma GoodMeans(resolves: Resolver, root: Paths.Path, saved: Saved, files: seq<Composition.Entry>,
      paths: seq<Paths.Path>)
    requires GoodSoFar(resolves, root, saved, files, paths)
    ensures |paths| == |files| && (files != [] ==> PathReplay.Replay(root, files) == Some(paths))
  {
  }

  lemma GoodNext(resolves: Resolver, root: Paths.Path, saved: Saved, files: seq<Composition.Entry>,
      paths: seq<Paths.Path>,
      e: Composition.Entry)
    requires GoodSoFar(resolves, root, saved, files, paths) && NextStatus(resolves, root, saved, paths, e) == Success
    ensures NextPath(root, paths, e).Some?
    ensures GoodSoFar(resolves, root, saved, files + [e], paths + [NextPath(root, paths, e).value])
  {
    hide PathReplay.Replay, NextPath, ProjectStatus;
    NextReplays(root, files, paths, e);
  }

  /** A root of the Project at one of some paths. */
  predicate IsRootAmong(saved: Saved, paths: seq<Paths.Path>, x: FileId) {
    exists i :: 0 <= i < |paths| && IsRootOf(saved, paths[i], x)
  }

  lemma RootsOfNext(saved: Saved, paths: seq<Paths.Path>, path: Paths.Path)
    ensures forall x ::
      IsRootAmong(saved, paths + [path], x) <==> IsRootAmong(saved, paths, x) || IsRootOf(saved, path, x)
  {
    hide IsRootOf;
    var more := paths + [path];
    forall x ensures IsRootAmong(saved, more, x) <==> IsRootAmong(saved, paths, x) || IsRootOf(saved, path, x) {
      assert more[|paths|] == path;
      if IsRootAmong(saved, paths, x) {
        var i :| 0 <= i < |paths| && IsRootOf(saved, paths[i], x);
        assert more[i] == paths[i];
      }
    }
  }

  /**
   * The roots are those of the Projects at the paths the manifest stands for; otherwise the first
   * entry that cannot be rebuilt, resolved, looked up or used decides what is reported.
   */
  method CollectPersistedConfigurationRoots(resolves: Resolver, root: Paths.Path, files: seq<Composition.Entry>,
      saved: Saved)
    returns (result: Collected)
    ensures match result
            case Roots(values) =>
              && saved.valid && resolves(root) && files != []
              && PathReplay.Replay(root, files).Some? && Ascending(values)
              && var paths := PathReplay.Replay(root, files).value;
                 && GoodSoFar(resolves, root, saved, files, paths)
                 && forall x :: x in values <==> IsRootAmong(saved, paths, x)
            case Refused(status) =>
              if !saved.valid || files == [] then status == ArtifactInvalid
              else if !resolves(root) then status == IoError
              else exists i, paths ::
                && 0 <= i < |files| && GoodSoFar(resolves, root, saved, files[..i], paths)
                && status == NextStatus(resolves, root, saved, paths, files[i]) != Success
  {
    if !saved.valid || |files| == 0 {
      return Refused(ArtifactInvalid);
    }
    if !resolves(root) {
      return Refused(IoError);
    }
    var roots: seq<FileId> := [];
    var paths: seq<Paths.Path> := [];
    var index := 0;
    assert files[..0] == [];
    while index < |files|
      invariant 0 <= index <= |files| == |files[..index]| + (|files| - index)
      invariant GoodSoFar(resolves, root, saved, files[..index], paths)
      invariant forall x :: x in roots <==> IsRootAmong(saved, paths, x)
    {
      hide GoodSoFar, NextPath, ProjectStatus, IsRootAmong, IsRootOf, ProjectOk;
      var e := files[index];
      assert files[..index + 1] == files[..index] + [e];
      GoodMeans(resolves, root, saved, files[..index], paths);
      var next := NextPath(root, paths, e);
      if next.None? {
        return Refused(ArtifactInvalid);
      }
      var path := next.value;
      if index > 0 && !resolves(path) {
        return Refused(IoError);
      }
      var status;
      status, roots := AppendRoots(saved, path, roots);
      if status != Success {
        return Refused(status);
      }
      GoodNext(resolves, root, saved, files[..index], paths, e);
      RootsOfNext(saved, paths, path);
      paths := paths + [path];
      index := index + 1;
    }
    assert files[..index] == files;
    GoodMeans(resolves, root, saved, files, paths);
    var values := NormalizeFileIds(roots);
    return Roots(values);
  }

  // ----- selection -----

  /** Semantic dependents of invalidated roots, from the persisted topology. */
  type Closure = seq<FileId> -> seq<FileId>

  method IntersectInto(roots: seq<FileId>, current: seq<FileId>, output: seq<FileId>) returns (result: seq<FileId>)
    requires Sorted(current)
    ensures Members(result) == Members(output) + Members(roots) * Members(current)
  {
    result := output;
    var i := 0;
    while i < |roots|
      invariant 0 <= i <= |roots|
      invariant Members(result) == Members(output) + Members(roots[..i]) * Members(current)
    {
      assert roots[..i + 1] == roots[..i] + [roots[i]] && Members([roots[i]]) == {roots[i]};
      MembersConcat(roots[..i], [roots[i]]);
      MembersConcat(result, [roots[i]]);
      assert roots[i] in current <==> roots[i] in Members(current);
      var found := ContainsFileId(current, roots[i]);
      if found {
        result := result + [roots[i]];
      }
      i := i + 1;
    }
    assert roots[..i] == roots;
  }

  method NormalizedRoots(values: seq<FileId>) returns (result: seq<FileId>)
    ensures Ascending(result) && Members(result) == Members(values)
  {
    result := NormalizeFileIds(values);
  }

  /** The values of one ascending sequence that are not in another, as a set. */
  method AddDifference(left: seq<FileId>, right: seq<FileId>, output: seq<FileId>) returns (result: seq<FileId>)
    requires Ascending(left) && Ascending(right)
    ensures Members(result) == Members(output) + (Members(left) - Members(right))
  {
    result := AppendFileIdDifference(left, right, output);
    DifferenceMembers(left, right);
  }

  lemma MembersConcat(a: seq<FileId>, b: seq<FileId>)
    ensures Members(a + b) == Members(a) + Members(b)
  {
  }

  /** The roots invalidated and to be replayed, before and after dependents are added. */
  method SelectRoots(affected: seq<FileId>, old_: seq<FileId>, current: seq<FileId>, configurationChanged: bool,
      preprocessorChanged: bool, closure: Closure)
          returns (invalidated: seq<FileId>, dependents: seq<FileId>, replay: seq<FileId>)
    requires Ascending(old_) && Ascending(current)
    ensures dependents == closure(invalidated)
    ensures Ascending(replay) && (configurationChanged ==> Ascending(invalidated))
            && (!configurationChanged ==> invalidated == affected)
    ensures configurationChanged ==>
      Members(invalidated)
          == Members(affected) + (Members(old_) - Members(current))
             + (if preprocessorChanged then Members(old_) else {})
    ensures Members(replay) ==
      if !configurationChanged then Members(affected) + Members(dependents)
      else (Members(affected) + Members(dependents)) * Members(current) + (Members(current) - Members(old_))
           + (if preprocessorChanged then Members(current) else {})
  {
    assert Members([]) == {} && (Ascending(current) ==> Sorted(current));
    hide Members, Ascending, Sorted;
    invalidated, replay := affected, [];
    if !configurationChanged {
      replay := affected;
    } else {
      replay := IntersectInto(affected, current, []);
      invalidated := AddDifference(old_, current, invalidated);
      replay := AddDifference(current, old_, replay);
      if preprocessorChanged {
        MembersConcat(invalidated, old_);
        MembersConcat(replay, current);
        invalidated := invalidated + old_;
        replay := replay + current;
      }
      invalidated := NormalizedRoots(invalidated);
      replay := NormalizedRoots(replay);
    }
    dependents := closure(invalidated);
    if configurationChanged {
      replay := IntersectInto(dependents, current, replay);
    } else {
      MembersConcat(replay, dependents);
      replay := replay + dependents;
    }
    replay := NormalizedRoots(replay);
  }

  /** What the selection guarantees once the configuration has changed, whatever the dependents are. */
  method SelectionCovers(affected: seq<FileId>, old_: seq<FileId>, current: seq<FileId>, preprocessorChanged: bool,
      closure: Closure)
    returns (invalidated: seq<FileId>, dependents: seq<FileId>, replay: seq<FileId>)
    requires Ascending(old_) && Ascending(current)
    ensures Members(replay) <= Members(current)
    ensures (Members(invalidated) + Members(dependents)) * Members(current) <= Members(replay)
    ensures Members(current) - Members(old_) <= Members(replay)
    ensures preprocessorChanged ==> replay == current
  {
    invalidated, dependents, replay := SelectRoots(affected, old_, current, true, preprocessorChanged, closure);
    if preprocessorChanged {
      assert Members(replay) == Members(current);
      assert forall x :: x in replay <==> x in Members(replay);
      assert forall x :: x in current <==> x in Members(current);
      AscendingUnique(replay, current);
    }
  }
}
