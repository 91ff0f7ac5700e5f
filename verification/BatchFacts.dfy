/** What one batch observed: the inputs of buildFactComponents in src/sync/plan-admission-graph.ts. */
module BatchFacts {
  import opened SyncTypes
  import opened Wrappers

  type Path = string

  datatype Located = Located(path: Path, identity: Option<string>)

  /** One observed file or folder; an empty `hash` is none, and `resolved` says that its own path was resolved. */
  datatype Entity =
    Entity(path: Path, identity: Option<string>, isDirectory: bool, hash: string, size: nat, resolved: bool)

  datatype Entry = Entry(path: Path, local: Option<Entity>, remote: Option<Entity>, prevSync: Option<Located>)

  datatype Evidence =
    | Rename(oldPath: Path, newPath: Path, isFolder: bool)
    | AliasClaim(requestedPath: Path, resolvedPath: Path)
    | StableIdentity(occurrences: seq<Path>)

  datatype Observation =
    | AliasSeen(requestedPath: Path, resolvedPath: Path, isDirectory: bool)
    | PresentUnresolved(requestedPath: Path, returnedPath: Path)
    | Unknown(requestedPath: Path)
    | Resolved(requestedPath: Path)

  /** What was read at a candidate on one side: an exact or aliased entity, an absence proven by stat, or neither. */
  datatype Reading =
    | Present(side: Side, requestedPath: Path, entity: Entity)
    | AbsentByStat(side: Side, requestedPath: Path)
    | Unproven(side: Side, requestedPath: Path)

  datatype CandidateFact = CandidateFact(requestedPath: Path, local: Reading, remote: Reading)

  datatype Batch = Batch(entries: seq<Entry>, evidence: seq<Evidence>, observations: seq<Observation>,
                         candidateFacts: seq<CandidateFact>)
}
