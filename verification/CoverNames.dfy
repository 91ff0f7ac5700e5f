/** The preservation cover at real addresses: src/sync/conflict-action-contract.ts over src/sync/conflict.ts. */
module CoverNames {
  import opened ConflictNames
  import opened PreservationCover

  /** An anchor whose printed candidates parse back. */
  predicate ParsableAnchor(anchor: string) {
    FileName(anchor) != "" && OneLine(Stem(FileName(anchor))) && !ConflictExtension(Extension(FileName(anchor)))
  }

  /** A full SHA-256 that tells these versions apart. */
  ghost predicate IsSha(sha: Content -> Digest, versions: seq<Content>) {
    && (forall i | 0 <= i < |versions| :: IsDigest(sha(versions[i]).text))
    && (forall i, j | 0 <= i < j < |versions| :: sha(versions[i]) != sha(versions[j]))
  }

  /** Each version's candidate is the anchor with the version's digest. */
  function AnchoredAt(anchor: string, sha: Content -> Digest, newId: Content -> Identity): Naming {
    Naming(v => Path.Path(InsertConflictSuffix(anchor, sha(v).text)), sha, newId)
  }

  /** isCanonicalCandidatePath */
  predicate IsCanonicalCandidatePath(anchor: string, candidate: string) {
    var hint := DirectConflictCandidateHint(candidate);
    hint.Some? && hint.value.basePath == anchor && candidate == InsertConflictSuffix(anchor, hint.value.sha256)
  }

  /** Distinct digests give distinct candidates, whatever the anchor. */
  lemma AnchoredNamesApart(anchor: string, sha: Content -> Digest, newId: Content -> Identity, versions: seq<Content>)
    requires IsSha(sha, versions)
    ensures NamesApart(AnchoredAt(anchor, sha, newId), versions)
  {
    var n := AnchoredAt(anchor, sha, newId);
    forall i, j | 0 <= i < j < |versions| ensures n.at(versions[i]) != n.at(versions[j]) {
      if n.at(versions[i]) == n.at(versions[j]) {
        PrintIsInjective(anchor, sha(versions[i]).text, sha(versions[j]).text);
      }
    }
  }

  /** On a parsable anchor every decided cover passes the whole contract check, canonical addresses included. */
  lemma AnchoredCoverPasses(anchor: string, sha: Content -> Digest, newId: Content -> Identity, w: World,
                            versions: seq<Content>, originals: seq<PreservationCover.Path>)
    requires IsSha(sha, versions) && ParsableAnchor(anchor)
    requires forall i | 0 <= i < |versions| :: Available(AnchoredAt(anchor, sha, newId), w, versions[i])
    ensures var cover := CoverOf(AnchoredAt(anchor, sha, newId), w, versions, originals);
            && IsCoverProtocol(AnchoredAt(anchor, sha, newId), cover)
            && forall p | p in cover.candidatePaths :: IsCanonicalCandidatePath(anchor, p.text)
  {
    var n := AnchoredAt(anchor, sha, newId);
    AnchoredNamesApart(anchor, sha, newId, versions);
    DecidedCoverPasses(n, w, versions, originals);
    forall p | p in Candidates(n, versions) ensures IsCanonicalCandidatePath(anchor, p.text) {
      var i :| 0 <= i < |versions| && n.at(versions[i]) == p;
      PrintParses(anchor, sha(versions[i]).text);
    }
  }

  /** On any other anchor a candidate is canonical only if the extension happens to carry its own digest. */
  lemma UnparsableAnchorFails(anchor: string, d: string)
    requires IsDigest(d) && !ParsableAnchor(anchor)
    requires ConflictExtension(Extension(FileName(anchor))) ==> Extension(FileName(anchor)) != Suffix(d)
    ensures !IsCanonicalCandidatePath(anchor, InsertConflictSuffix(anchor, d))
  {
    PrintParses(anchor, d);
    var hint := DirectConflictCandidateHint(InsertConflictSuffix(anchor, d));
    if hint.Some? && hint.value.basePath == anchor {
      ParsedDigest(anchor, d);
    }
  }

  lemma ParsedDigest(anchor: string, d: string)
    requires IsDigest(d)
    requires var hint := DirectConflictCandidateHint(InsertConflictSuffix(anchor, d));
             hint.Some? && hint.value.basePath == anchor
    ensures DirectConflictCandidateHint(InsertConflictSuffix(anchor, d)).value.sha256 == d
  {
    ParsedPrintsBack(InsertConflictSuffix(anchor, d));
    PrintIsInjective(anchor, DirectConflictCandidateHint(InsertConflictSuffix(anchor, d)).value.sha256, d);
  }
}
