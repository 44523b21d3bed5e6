/** The composer object. */
module ManifestComposer {
  import opened Wrappers
  import opened Paths
  import opened Composition

  class Composer {
    const load: Loader
    var visited: set<Path>
    var active: set<Path>
    var uniqueInputs: set<Path>
    var kinds: map<Path, Kind>
    var files: seq<Entry>

    ghost function Fields(): (r: State)
      reads this
    {
      State(visited, active, uniqueInputs, kinds, files)
    }

    /** The object reached the state of the outcome, or failed with its status. */
    ghost predicate Reached(out: Outcome, failure: Option<Status>)
      reads this
    {
      match out
      case Done(st) => failure == None && Fields() == st
      case Refused(status) => failure == Some(status)
    }

    constructor (load: Loader)
      ensures this.load == load && Fields() == FRESH
    {
      this.load := load;
      visited, active, uniqueInputs, kinds, files := {}, {}, {}, map[], [];
    }

    method RegisterKind(path: Path, kind: Kind) returns (ok: bool)
      modifies this`kinds
      ensures match AddKind(old(kinds), path, kind)
              case None => !ok && kinds == old(kinds)
              case Some(more) => ok && kinds == more
    {
      if path !in kinds {
        kinds := kinds[path := kind];
        return true;
      }
      return kinds[path] == kind;
    }

    /** Registers every dependency, and keeps the references to Projects for later. */
    method DeclareDependencies(path: Path, dependencies: seq<Dependency>)
        returns (failure: Option<Status>, pending: seq<Path>)
      modifies this`kinds, this`uniqueInputs
      ensures Reached(Declare(old(Fields()), path, dependencies), failure)
      ensures failure.None? ==> pending == References(dependencies)
    {
      hide Resolve, AddKind;
      pending := [];
      var i := 0;
      while i < |dependencies|
        invariant 0 <= i <= |dependencies|
        invariant Declare(Fields(), path, dependencies[i..]) == Declare(old(Fields()), path, dependencies)
        invariant pending + References(dependencies[i..]) == References(dependencies)
      {
        var d := dependencies[i];
        var child := Resolve(path, d.path);
        assert dependencies[i..][1..] == dependencies[i + 1..];
        var registered := RegisterKind(child, d.kind);
        if !registered {
          return Some(ConfigurationInvalid), pending;
        }
        if d.kind != Header {
          if child in uniqueInputs {
            return Some(ConfigurationInvalid), pending;
          }
          uniqueInputs := uniqueInputs + {child};
        }
        if d.kind == Project {
          pending := pending + [d.path];
        }
        i := i + 1;
      }
      return None, pending;
    }

    method VisitPending(path: Path, currentFile: nat, pending: seq<Path>, depth: nat) returns (failure: Option<Status>)
      requires depth <= DEPTH_LIMIT
      modifies this
      ensures Reached(VisitAll(load, old(Fields()), path, currentFile, pending, depth), failure)
      decreases DEPTH_LIMIT + 1 - depth, 0
    {
      hide Resolve, Visit;
      var j := 0;
      while j < |pending|
        invariant 0 <= j <= |pending|
        invariant VisitAll(load, Fields(), path, currentFile, pending[j..], depth)
               == VisitAll(load, old(Fields()), path, currentFile, pending, depth)
      {
        var q := pending[j];
        assert pending[j..][1..] == pending[j + 1..];
        failure := VisitProject(Resolve(path, q), Locator(currentFile, q.rooted, q), depth + 1);
        if failure.Some? {
          return;
        }
        j := j + 1;
      }
      return None;
    }

    /** All dependencies are registered before any Project among them is visited. */
    method ProcessDependencies(path: Path, currentFile: nat, dependencies: seq<Dependency>, depth: nat)
        returns (failure: Option<Status>)
      requires depth <= DEPTH_LIMIT
      modifies this
      ensures Reached(match Declare(old(Fields()), path, dependencies)
                      case Refused(status) => Refused(status)
                      case Done(declared) => VisitAll(load, declared, path, currentFile, References(dependencies),
                          depth), failure)
      decreases DEPTH_LIMIT + 1 - depth, 1
    {
      hide Declare, VisitAll, References;
      var pending: seq<Path>;
      failure, pending := DeclareDependencies(path, dependencies);
      if failure.None? {
        failure := VisitPending(path, currentFile, pending, depth);
      }
    }

    method VisitProject(path: Path, locator: Locator, depth: nat) returns (failure: Option<Status>)
      modifies this
      ensures Reached(Visit(load, old(Fields()), path, locator, depth), failure)
      decreases DEPTH_LIMIT + 1 - depth, 2
    {
      hide AddKind, Normal, Declare, VisitAll, EntryOf;
      if depth > DEPTH_LIMIT {
        return Some(ConfigurationInvalid);
      }
      var registered := RegisterKind(path, Project);
      if !registered {
        return Some(ConfigurationInvalid);
      }
      if path in active {
        return Some(ConfigurationInvalid);
      }
      if path in visited {
        return Some(ConfigurationInvalid);
      }
      active := active + {path};
      match load(path, IsRoot(locator))
      case Failed(status) =>
        active := active - {path};
        return Some(status);
      case Config(content, dependencies) =>
        if |files| > MAX_INDEX {
          active := active - {path};
          return Some(IoError);
        }
        var currentFile := |files|;
        if Normal(locator.path) == EMPTY {
          active := active - {path};
          return Some(IoError);
        }
        files := files + [EntryOf(locator, content)];
        visited := visited + {path};
        failure := ProcessDependencies(path, currentFile, dependencies, depth);
        active := active - {path};
    }

    method Compose(root: Path) returns (failure: Option<Status>)
      requires Fields() == FRESH
      modifies this
      ensures Reached(Composition.Compose(load, root), failure)
      ensures failure.Some? ==> files == []
    {
      hide Visit, Filename;
      failure := VisitProject(root, Locator(NO_FILE, false, Filename(root)), 1);
      if failure.Some? {
        files := [];
      }
    }
  }
}
