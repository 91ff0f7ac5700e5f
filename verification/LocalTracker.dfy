/** Pending local changes with generations: src/sync/local-tracker.ts. */
module LocalTracker {
  import opened Wrappers

  /** Paths are only compared here. */
  type Path(==, !new)

  /** The fields of the tracker; the rename maps go from new path to old path. */
  datatype State = State(
    dirtyPaths: set<Path>,
    renamePairs: map<Path, Path>,
    folderRenamePairs: map<Path, Path>,
    generations: map<Path, nat>,
    initialized: bool)

  datatype Snapshot = Snapshot(
    dirtyPaths: set<Path>,
    renamePairs: map<Path, Path>,
    folderRenamePairs: map<Path, Path>,
    generations: Option<map<Path, nat>>,
    initialized: bool)

  const EMPTY := State({}, map[], map[], map[], false)

  function Generation(generations: map<Path, nat>, p: Path): nat {
    if p in generations then generations[p] else 0
  }

  function Bumped(generations: map<Path, nat>, paths: set<Path>): map<Path, nat> {
    map p | p in generations.Keys + paths :: Generation(generations, p) + if p in paths then 1 else 0
  }

  /** markDirty of each path of a set. */
  function MarkAll(s: State, paths: set<Path>): State {
    s.(dirtyPaths := s.dirtyPaths + paths, generations := Bumped(s.generations, paths))
  }

  lemma OneMoreMarked(s: State, done: set<Path>, path: Path)
    requires path !in done
    ensures MarkAll(MarkAll(s, done), {path}) == MarkAll(s, done + {path})
  {
    assert s.dirtyPaths + done + {path} == s.dirtyPaths + (done + {path});
    assert Bumped(Bumped(s.generations, done), {path}) == Bumped(s.generations, done + {path});
  }

  function Resolved(pairs: map<Path, Path>, oldPath: Path): Path {
    if oldPath in pairs then pairs[oldPath] else oldPath
  }

  /** One more rename on top of the pairs, with chains collapsed and returns cancelled. */
  function Collapsed(pairs: map<Path, Path>, newPath: Path, oldPath: Path): map<Path, Path> {
    var resolved := Resolved(pairs, oldPath);
    if resolved == newPath then pairs - {oldPath} else (pairs - {oldPath})[newPath := resolved]
  }

  function MarkRenamed(s: State, newPath: Path, oldPath: Path): State {
    MarkAll(s, {oldPath, Resolved(s.renamePairs, oldPath), newPath})
      .(renamePairs := Collapsed(s.renamePairs, newPath, oldPath))
  }

  function MarkFolderRenamed(s: State, newPath: Path, oldPath: Path): State {
    MarkAll(s, {oldPath, Resolved(s.folderRenamePairs, oldPath), newPath})
      .(folderRenamePairs := Collapsed(s.folderRenamePairs, newPath, oldPath))
  }

  function Captured(s: State): Snapshot {
    Snapshot(s.dirtyPaths, s.renamePairs, s.folderRenamePairs, Some(s.generations), s.initialized)
  }

  predicate Unchanged(generations: map<Path, nat>, captured: Option<map<Path, nat>>, p: Path) {
    captured.None? || Generation(generations, p) == Generation(captured.value, p)
  }

  /** Whether a captured pair is still the live one, with both endpoints untouched since. */
  predicate Consumed(live: map<Path, Path>, captured: map<Path, Path>, generations: map<Path, nat>,
                     capturedGenerations: Option<map<Path, nat>>, key: Path) {
    && key in captured && key in live && live[key] == captured[key]
    && Unchanged(generations, capturedGenerations, key) && Unchanged(generations, capturedGenerations, captured[key])
  }

  function DeleteMatching(live: map<Path, Path>, captured: map<Path, Path>, generations: map<Path, nat>,
                          capturedGenerations: Option<map<Path, nat>>): map<Path, Path> {
    map k | k in live && !Consumed(live, captured, generations, capturedGenerations, k) :: live[k]
  }

  function RelationsAcknowledged(s: State, snap: Snapshot): State {
    s.(renamePairs := DeleteMatching(s.renamePairs, snap.renamePairs, s.generations, snap.generations),
       folderRenamePairs := DeleteMatching(s.folderRenamePairs, snap.folderRenamePairs, s.generations,
                                           snap.generations))
  }

  function Acknowledged(s: State, snap: Snapshot): State {
    RelationsAcknowledged(s, snap)
      .(dirtyPaths := (set p | p in s.dirtyPaths &&
                       !(p in snap.dirtyPaths && Unchanged(s.generations, snap.generations, p))),
        initialized := true)
  }

  function PathAcknowledged(s: State, path: Path, expected: nat): State {
    if Generation(s.generations, path) != expected then s
    else s.(dirtyPaths := s.dirtyPaths - {path}, renamePairs := s.renamePairs - {path})
  }

  // ---------------------------------------------------------------- nothing marked later is swept away

  /** A report from the vault. */
  datatype Mark =
    Dirty(path: Path) | Renamed(newPath: Path, oldPath: Path) | FolderRenamed(newPath: Path, oldPath: Path)

  function Report(s: State, m: Mark): State {
    match m
    case Dirty(path) => MarkAll(s, {path})
    case Renamed(n, o) => MarkRenamed(s, n, o)
    case FolderRenamed(n, o) => MarkFolderRenamed(s, n, o)
  }

  function ReportAll(s: State, marks: seq<Mark>): State {
    if marks == [] then s else Report(ReportAll(s, marks[..|marks| - 1]), marks[|marks| - 1])
  }

  /** The paths one report touches. */
  predicate Names(m: Mark, p: Path) {
    match m
    case Dirty(path) => p == path
    case Renamed(n, o) => p == n || p == o
    case FolderRenamed(n, o) => p == n || p == o
  }

  /** One report bumps and dirties the paths it names. */
  lemma ReportMarks(s: State, m: Mark, p: Path)
    ensures var t := Report(s, m);
            && Generation(t.generations, p) >= Generation(s.generations, p)
            && (Generation(t.generations, p) == Generation(s.generations, p) ==>
                  (p in t.dirtyPaths <==> p in s.dirtyPaths) && !Names(m, p))
            && (Generation(t.generations, p) > Generation(s.generations, p) ==> p in t.dirtyPaths)
            && (p in s.dirtyPaths ==> p in t.dirtyPaths)
  {
  }

  /** The path is named by the report, or is where the renamed file or folder first was. */
  predicate Touched(s: State, m: Mark, p: Path) {
    match m
    case Dirty(path) => p == path
    case Renamed(n, o) => p == n || p == o || (o in s.renamePairs && p == s.renamePairs[o])
    case FolderRenamed(n, o) => p == n || p == o || (o in s.folderRenamePairs && p == s.folderRenamePairs[o])
  }

  /** A report moves the generation of exactly the paths it touches, by one, and dirties them. */
  lemma ReportTouchesExactly(s: State, m: Mark, p: Path)
    ensures var t := Report(s, m);
            && Generation(t.generations, p) == Generation(s.generations, p) + (if Touched(s, m, p) then 1 else 0)
            && (p in t.dirtyPaths <==> p in s.dirtyPaths || Touched(s, m, p))
            && t.initialized == s.initialized
  {
  }

  /** Generations never go back, grow on every named path, and a grown path is dirty. */
  lemma {:induction false} MarksGrow(s: State, marks: seq<Mark>, p: Path)
    ensures var t := ReportAll(s, marks);
            && Generation(t.generations, p) >= Generation(s.generations, p)
            && (Generation(t.generations, p) == Generation(s.generations, p) ==>
                  (p in t.dirtyPaths <==> p in s.dirtyPaths) && forall m | m in marks :: !Names(m, p))
            && (Generation(t.generations, p) > Generation(s.generations, p) ==> p in t.dirtyPaths)
  {
    if marks != [] {
      var rest, last := marks[..|marks| - 1], marks[|marks| - 1];
      MarksGrow(s, rest, p);
      ReportMarks(ReportAll(s, rest), last, p);
      assert forall m | m in marks :: m in rest || m == last;
    }
  }

  /** What a clean cycle's acknowledgment leaves dirty is exactly what was touched after its snapshot. */
  lemma AcknowledgeKeepsLaterMarks(s: State, marks: seq<Mark>, p: Path)
    ensures var left := Acknowledged(ReportAll(s, marks), Captured(s));
            && (p in left.dirtyPaths <==> Generation(left.generations, p) > Generation(s.generations, p))
            && ((exists m | m in marks :: Names(m, p)) ==> p in left.dirtyPaths)
  {
    MarksGrow(s, marks, p);
  }

  predicate Grown(s: State, t: State, p: Path) {
    Generation(t.generations, p) > Generation(s.generations, p)
  }

  /** A captured pair is gone exactly when it is still live with its value and neither end was touched since; every
      other live pair stays. */
  ghost predicate PairsLeft(s: State, t: State, captured: map<Path, Path>, live: map<Path, Path>,
                            left: map<Path, Path>) {
    && (forall key :: key in left <==>
          key in live &&
          (key in captured && captured[key] == live[key] ==> Grown(s, t, key) || Grown(s, t, captured[key])))
    && (forall key | key in left :: left[key] == live[key])
  }

  /** After any later reports both kinds of pairs are consumed exactly so, a named path counts as touched, and dirty
      paths stay. */
  lemma AcknowledgeKeepsLaterPairs(s: State, marks: seq<Mark>)
    ensures var t := ReportAll(s, marks);
            var left := RelationsAcknowledged(t, Captured(s));
            && PairsLeft(s, t, s.renamePairs, t.renamePairs, left.renamePairs)
            && PairsLeft(s, t, s.folderRenamePairs, t.folderRenamePairs, left.folderRenamePairs)
            && left.dirtyPaths == t.dirtyPaths
            && (forall m, p | m in marks && Names(m, p) :: Grown(s, t, p))
  {
    var t := ReportAll(s, marks);
    forall p
      ensures Generation(t.generations, p) >= Generation(s.generations, p)
      ensures !Grown(s, t, p) ==> forall m | m in marks :: !Names(m, p)
    {
      MarksGrow(s, marks, p);
    }
  }

  // ---------------------------------------------------------------- rename collapse against the filesystem

  datatype FileEvent = Created(path: Path) | Moved(newPath: Path, oldPath: Path)

  /** Where each file stands now, and the address it first had. */
  type Filesystem = map<Path, Path>

  predicate Possible(files: Filesystem, e: FileEvent) {
    match e
    case Created(p) => p !in files
    case Moved(n, o) => o in files && n !in files
  }

  function After(files: Filesystem, e: FileEvent): Filesystem
    requires Possible(files, e)
  {
    match e
    case Created(p) => files[p := p]
    case Moved(n, o) => (files - {o})[n := files[o]]
  }

  function Observed(s: State, e: FileEvent): State {
    match e
    case Created(p) => Report(s, Dirty(p))
    case Moved(n, o) => Report(s, Renamed(n, o))
  }

  ghost predicate PossibleRun(files: Filesystem, events: seq<FileEvent>)
    decreases events
  {
    events == [] || (Possible(files, events[0]) && PossibleRun(After(files, events[0]), events[1..]))
  }

  function AfterAll(files: Filesystem, events: seq<FileEvent>): Filesystem
    requires PossibleRun(files, events)
    decreases events
  {
    if events == [] then files else AfterAll(After(files, events[0]), events[1..])
  }

  function ObservedAll(s: State, events: seq<FileEvent>): State
    decreases events
  {
    if events == [] then s else ObservedAll(Observed(s, events[0]), events[1..])
  }

  /** The files that are not where they were first seen. */
  function MovedFiles(files: Filesystem): map<Path, Path> {
    map p | p in files && files[p] != p :: files[p]
  }

  ghost predicate Unmoved(files: Filesystem) {
    forall p | p in files :: files[p] == p
  }

  /** Both addresses of every pair are dirty. */
  ghost predicate EndpointsDirty(s: State) {
    forall p | p in s.renamePairs :: p in s.dirtyPaths && s.renamePairs[p] in s.dirtyPaths
  }

  lemma ObservedStep(s: State, files: Filesystem, e: FileEvent)
    requires s.renamePairs == MovedFiles(files) && EndpointsDirty(s) && Possible(files, e)
    ensures Observed(s, e).renamePairs == MovedFiles(After(files, e)) && EndpointsDirty(Observed(s, e))
  {
  }

  lemma {:induction false} ObservedRun(s: State, files: Filesystem, events: seq<FileEvent>)
    requires s.renamePairs == MovedFiles(files) && EndpointsDirty(s) && PossibleRun(files, events)
    ensures ObservedAll(s, events).renamePairs == MovedFiles(AfterAll(files, events))
    ensures EndpointsDirty(ObservedAll(s, events))
    decreases events
  {
    if events != [] {
      ObservedStep(s, files, events[0]);
      ObservedRun(Observed(s, events[0]), After(files, events[0]), events[1..]);
    }
  }

  /** From an empty tracker, the pairs are exactly the moved files, whatever the chains, swaps and returns. */
  lemma CollapseRefinesFilesystem(files: Filesystem, events: seq<FileEvent>)
    requires Unmoved(files) && PossibleRun(files, events)
    ensures ObservedAll(EMPTY, events).renamePairs == MovedFiles(AfterAll(files, events))
    ensures EndpointsDirty(ObservedAll(EMPTY, events))
  {
    assert MovedFiles(files) == map[];
    ObservedRun(EMPTY, files, events);
  }

  /** Folder renames collapse on their own pairs exactly as file renames do on theirs. */
  lemma FoldersCollapseAlike(s: State, newPath: Path, oldPath: Path)
    ensures var t := Report(s, FolderRenamed(newPath, oldPath));
            var like := Report(s.(renamePairs := s.folderRenamePairs), Renamed(newPath, oldPath));
            && t.folderRenamePairs == like.renamePairs && t.renamePairs == s.renamePairs
            && t.dirtyPaths == like.dirtyPaths && t.generations == like.generations && t.initialized == s.initialized
  {
  }

  // ---------------------------------------------------------------- the class

  class LocalChangeTracker {
    var dirtyPaths: set<Path>
    var renamePairs: map<Path, Path>
    var folderRenamePairs: map<Path, Path>
    var generations: map<Path, nat>
    var initialized: bool

    ghost function View(): State
      reads this
    {
      State(dirtyPaths, renamePairs, folderRenamePairs, generations, initialized)
    }

    constructor ()
      ensures View() == EMPTY
    {
      dirtyPaths, renamePairs, folderRenamePairs, generations, initialized := {}, map[], map[], map[], false;
    }

    method MarkDirty(path: Path)
      modifies this`dirtyPaths, this`generations
      ensures View() == Report(old(View()), Dirty(path))
    {
      generations := generations[path := Generation(generations, path) + 1];
      dirtyPaths := dirtyPaths + {path};
      assert generations == Bumped(old(generations), {path});
    }

    method MarkEach(paths: set<Path>)
      modifies this`dirtyPaths, this`generations
      ensures View() == MarkAll(old(View()), paths)
    {
      ghost var before, done: set<Path> := View(), {};
      var rest := paths;
      while rest != {}
        invariant done !! rest && done + rest == paths
        invariant View() == MarkAll(before, done)
      {
        var path :| path in rest;
        MarkDirty(path);
        OneMoreMarked(before, done, path);
        rest, done := rest - {path}, done + {path};
      }
    }

    method MarkRenamed(newPath: Path, oldPath: Path)
      modifies this
      ensures View() == Report(old(View()), Renamed(newPath, oldPath))
    {
      var resolved := Resolved(renamePairs, oldPath);
      renamePairs := renamePairs - {oldPath};
      MarkEach({oldPath, resolved, newPath});
      if resolved == newPath {
        return;
      }
      renamePairs := renamePairs[newPath := resolved];
    }

    method MarkFolderRenamed(newPath: Path, oldPath: Path)
      modifies this
      ensures View() == Report(old(View()), FolderRenamed(newPath, oldPath))
    {
      var resolved := Resolved(folderRenamePairs, oldPath);
      folderRenamePairs := folderRenamePairs - {oldPath};
      MarkEach({oldPath, resolved, newPath});
      if resolved == newPath {
        return;
      }
      folderRenamePairs := folderRenamePairs[newPath := resolved];
    }

    method TakeSnapshot() returns (snap: Snapshot)
      ensures snap == Captured(View())
    {
      snap := Snapshot(dirtyPaths, renamePairs, folderRenamePairs, Some(generations), initialized);
    }

    /** Delete each captured pair that is still live and untouched. */
    static method DeleteMatchingPairs(live: map<Path, Path>, captured: map<Path, Path>, generations: map<Path, nat>,
                                      capturedGenerations: Option<map<Path, nat>>) returns (left: map<Path, Path>)
      ensures left == DeleteMatching(live, captured, generations, capturedGenerations)
    {
      left := live;
      var rest := captured.Keys;
      while rest != {}
        invariant rest <= captured.Keys
        invariant left ==
                  map k | k in live && !(k !in rest && Consumed(live, captured, generations, capturedGenerations, k)) ::
                    live[k]
      {
        var key :| key in rest;
        if key in left && left[key] == captured[key] && Unchanged(generations, capturedGenerations, key) &&
           Unchanged(generations, capturedGenerations, captured[key]) {
          left := left - {key};
        }
        rest := rest - {key};
      }
    }

    method AcknowledgeRelations(snap: Snapshot)
      modifies this`renamePairs, this`folderRenamePairs
      ensures View() == RelationsAcknowledged(old(View()), snap)
    {
      renamePairs := DeleteMatchingPairs(renamePairs, snap.renamePairs, generations, snap.generations);
      folderRenamePairs := DeleteMatchingPairs(folderRenamePairs, snap.folderRenamePairs, generations,
                                               snap.generations);
    }

    method Acknowledge(snap: Snapshot)
      modifies this
      ensures View() == Acknowledged(old(View()), snap)
    {
      var rest := snap.dirtyPaths;
      while rest != {}
        invariant rest <= snap.dirtyPaths
        invariant dirtyPaths == set p | p in old(dirtyPaths) &&
                    !(p in snap.dirtyPaths - rest && Unchanged(generations, snap.generations, p))
        invariant renamePairs == old(renamePairs) && folderRenamePairs == old(folderRenamePairs)
        invariant generations == old(generations)
      {
        var p :| p in rest;
        if Unchanged(generations, snap.generations, p) {
          dirtyPaths := dirtyPaths - {p};
        }
        rest := rest - {p};
      }
      AcknowledgeRelations(snap);
      initialized := true;
    }

    method AcknowledgePath(path: Path, expectedGeneration: nat)
      modifies this`dirtyPaths, this`renamePairs
      ensures View() == PathAcknowledged(old(View()), path, expectedGeneration)
    {
      if Generation(generations, path) != expectedGeneration {
        return;
      }
      dirtyPaths := dirtyPaths - {path};
      renamePairs := renamePairs - {path};
    }
  }
}
