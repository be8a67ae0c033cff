/** The immutable attempt directory: what may be written, the reference manifest stored in
    `final.json`, and the verifier that recomputes it
    (src/kvcot/discovery/attempt_artifacts.py, src/kvcot/discovery/attempt_verification.py). */
module AttemptArtifacts {
  import opened Prelude

  // ---------------------------------------------------------------- paths and roles

  datatype Worker = FullKV | RKV

  datatype WorkerFile =
    | Command | Stdout | Stderr | Progress | Result | ResultEnvelope | Envelope | Timing | Memory | Termination
    | PairIdentities | SemanticSwaps | ReplayEvidence | PairRecords | ScientificSummary

  /** A relative path of the directory. `Other` is any path in neither of the role tables. */
  datatype Path =
    | Invocation | Preflight | Provenance | Completion | ProcessOutcome
    | Failure | FinalWriteFailure | FinalVerificationFailure
    | FinalJson
    | OfWorker(worker: Worker, file: WorkerFile)
    | Other(text: string)

  datatype SemanticRole =
    | TopLevelRole(of: Path)
    | WorkerEnvelope
    | WorkerRole(file: WorkerFile)
    | UnknownRole

  /** `semantic_role_for`. Both envelope file names share one role; `final.json` has none. */
  function SemanticRoleFor(path: Path): SemanticRole {
    match path
    case FinalJson => UnknownRole
    case Other(_) => UnknownRole
    case OfWorker(_, file) => if file.Envelope? || file.ResultEnvelope? then WorkerEnvelope else WorkerRole(file)
    case _ => TopLevelRole(path)
  }

  /** The role tables: `final.json` and stray paths have no role, and two paths share one only if
      they are the same file of the two workers, or envelopes. */
  lemma RolesTellPathsApart(p: Path, q: Path)
    ensures SemanticRoleFor(p) == UnknownRole <==> p.FinalJson? || p.Other?
    ensures SemanticRoleFor(p) == SemanticRoleFor(q) <==>
              || p == q
              || ((p.FinalJson? || p.Other?) && (q.FinalJson? || q.Other?))
              || (p.OfWorker? && q.OfWorker?
                  && (p.file == q.file || (p.file in {Envelope, ResultEnvelope} && q.file in {Envelope, ResultEnvelope})))
  {
  }

  // ---------------------------------------------------------------- contents and references

  /** One manifest entry as read back from JSON: any field but the path may be missing. */
  datatype Reference = Reference(path: Path, role: Option<SemanticRole>, sha256: Option<int>, size: Option<nat>)

  /** A file's content. `FinalPayload` is a parsed `final.json`; its manifest may be missing. */
  datatype Content = Data(bytes: seq<int>) | FinalPayload(passed: bool, manifest: Option<seq<Reference>>)

  type Directory = map<Path, Content>

  /** SHA-256 and file size, as functions of content. */
  datatype Measure = Measure(sha256: Content -> int, size: Content -> nat)

  ghost predicate CollisionFree(m: Measure) {
    forall c, d :: m.sha256(c) == m.sha256(d) ==> c == d
  }

  // ---------------------------------------------------------------- building the manifest

  function ReferenceTo(m: Measure, path: Path, content: Content): Reference {
    Reference(path, Some(SemanticRoleFor(path)), Some(m.sha256(content)), Some(m.size(content)))
  }

  /** The order in which the directory listing (`rglob`, sorted) names the files. */
  predicate Lists(listing: seq<Path>, files: Directory) {
    Distinct(listing) && Elements(listing) == files.Keys
  }

  function PathsOf(references: seq<Reference>): seq<Path> {
    seq(|references|, i requires 0 <= i < |references| => references[i].path)
  }

  /** The manifest of a directory: every listed file except `final.json`, in listing order. */
  function ManifestOf(m: Measure, files: Directory, listing: seq<Path>): seq<Reference>
    requires forall p :: p in listing ==> p in files
  {
    if listing == [] then [] else
      var rest, last := listing[..|listing| - 1], listing[|listing| - 1];
      ManifestOf(m, files, rest) + (if last == FinalJson then [] else [ReferenceTo(m, last, files[last])])
  }

  /** `build_attempt_references(attempt, exclude=("final.json",))`. */
  method BuildAttemptReferences(m: Measure, files: Directory, listing: seq<Path>) returns (references: seq<Reference>)
    requires forall p :: p in listing ==> p in files
    ensures references == ManifestOf(m, files, listing)
  {
    references := [];
    for n := 0 to |listing|
      invariant references == ManifestOf(m, files, listing[..n])
    {
      var path := listing[n];
      assert listing[..n + 1][..n] == listing[..n];
      if path != FinalJson {
        references := references + [ReferenceTo(m, path, files[path])];
      }
    }
    assert listing[..|listing|] == listing;
  }

  /** The manifest names every listed file but `final.json`, once, and describes each. */
  lemma {:induction false} ManifestIsComplete(m: Measure, files: Directory, listing: seq<Path>)
    requires Distinct(listing) && forall p :: p in listing ==> p in files
    ensures Distinct(PathsOf(ManifestOf(m, files, listing)))
    ensures Elements(PathsOf(ManifestOf(m, files, listing))) == Elements(listing) - {FinalJson}
    ensures forall r :: r in ManifestOf(m, files, listing) ==> r.path in files && r == ReferenceTo(m, r.path, files[r.path])
  {
    if listing == [] {
    } else {
      var rest, last := listing[..|listing| - 1], listing[|listing| - 1];
      ManifestIsComplete(m, files, rest);
      var before := ManifestOf(m, files, rest);
      assert listing == rest + [last];
      ElementsSnoc(rest, last);
      if last != FinalJson {
        assert last !in Elements(PathsOf(before));
        assert PathsOf(before + [ReferenceTo(m, last, files[last])]) == PathsOf(before) + [last];
        ElementsSnoc(PathsOf(before), last);
      } else {
        assert before + [] == before;
      }
    }
  }

  function NotFinal(): Path -> bool { (p: Path) => p != FinalJson }

  /** Entries come in the order of the listing. */
  lemma {:induction false} ManifestInListingOrder(m: Measure, files: Directory, listing: seq<Path>)
    requires forall p :: p in listing ==> p in files
    ensures PathsOf(ManifestOf(m, files, listing)) == Filter(listing, NotFinal())
  {
    if listing != [] {
      var rest, last := listing[..|listing| - 1], listing[|listing| - 1];
      ManifestInListingOrder(m, files, rest);
      var before := ManifestOf(m, files, rest);
      assert PathsOf(before + [ReferenceTo(m, last, files[last])]) == PathsOf(before) + [last];
      assert before + [] == before;
    }
  }

  // ---------------------------------------------------------------- verifying the manifest

  /** A reference that describes the file it names. */
  predicate Describes(m: Measure, files: Directory, r: Reference) {
    && r.path in files
    && SemanticRoleFor(r.path) != UnknownRole
    && r == ReferenceTo(m, r.path, files[r.path])
  }

  /** A manifest that is faithful to a directory: a duplicate-free bijection with every file
      except `final.json`, completion included, each entry describing its file. */
  ghost predicate Faithful(m: Measure, files: Directory, references: seq<Reference>) {
    && Distinct(PathsOf(references))
    && Elements(PathsOf(references)) == files.Keys - {FinalJson}
    && Completion in files
    && forall i :: 0 <= i < |references| ==> Describes(m, files, references[i])
  }

  /** What a directory must be to be accepted. */
  ghost predicate Accepted(m: Measure, files: Directory) {
    && FinalJson in files
    && files[FinalJson].FinalPayload?
    && files[FinalJson].manifest.Some?
    && Faithful(m, files, files[FinalJson].manifest.value)
  }

  datatype Reason =
    | FinalMissing
    | FinalUnparseable
    | NoManifest
    | DuplicateReference
    | ReferencesFinal
    | OmitsCompletion
    | UnreferencedFiles
    | MissingFile(path: Path)
    | NoKnownRole(path: Path)
    | ConflictingRole(path: Path)
    | SizeChanged(path: Path)
    | HashChanged(path: Path)

  /** The reasons one reference contributes: none exactly when it describes its file. */
  method CheckReference(m: Measure, files: Directory, r: Reference) returns (reasons: seq<Reason>)
    ensures reasons == [] <==> Describes(m, files, r)
    ensures MissingFile(r.path) in reasons <==> r.path !in files
    ensures NoKnownRole(r.path) in reasons <==> r.path in files && (r.role.None? || r.role == Some(UnknownRole))
    ensures ConflictingRole(r.path) in reasons <==>
              r.path in files && r.role.Some? && r.role != Some(UnknownRole) && r.role != Some(SemanticRoleFor(r.path))
    ensures SizeChanged(r.path) in reasons <==> r.path in files && r.size != Some(m.size(files[r.path]))
    ensures HashChanged(r.path) in reasons <==> r.path in files && r.sha256 != Some(m.sha256(files[r.path]))
  {
    if r.path !in files { return [MissingFile(r.path)]; }
    reasons := [];
    if r.role.None? || r.role.value == UnknownRole {
      reasons := reasons + [NoKnownRole(r.path)];
    } else if r.role.value != SemanticRoleFor(r.path) {
      reasons := reasons + [ConflictingRole(r.path)];
    }
    if r.size != Some(m.size(files[r.path])) { reasons := reasons + [SizeChanged(r.path)]; }
    if r.sha256 != Some(m.sha256(files[r.path])) { reasons := reasons + [HashChanged(r.path)]; }
  }

  method CheckReferences(m: Measure, files: Directory, references: seq<Reference>) returns (reasons: seq<Reason>)
    ensures reasons == [] <==> forall i :: 0 <= i < |references| ==> Describes(m, files, references[i])
  {
    reasons := [];
    for n := 0 to |references|
      invariant reasons == [] <==> forall i :: 0 <= i < n ==> Describes(m, files, references[i])
    {
      var found := CheckReference(m, files, references[n]);
      reasons := reasons + found;
    }
  }

  /** The checks on the listed paths as a whole. */
  method CheckListing(files: Directory, listed: seq<Path>) returns (reasons: seq<Reason>)
    ensures reasons == [] <==> && Distinct(listed) && FinalJson !in listed && Completion in listed
                               && files.Keys - {FinalJson} <= Elements(listed)
    ensures DuplicateReference in reasons <==> !Distinct(listed)
    ensures ReferencesFinal in reasons <==> FinalJson in listed
    ensures OmitsCompletion in reasons <==> Completion !in listed
    ensures UnreferencedFiles in reasons <==> exists p :: p in files && p != FinalJson && p !in listed
  {
    DistinctIffCardinality(listed);
    reasons := [];
    if |listed| != |Elements(listed)| { reasons := reasons + [DuplicateReference]; }
    if FinalJson in listed { reasons := reasons + [ReferencesFinal]; }
    if Completion !in listed { reasons := reasons + [OmitsCompletion]; }
    var unlisted := (files.Keys - {FinalJson}) - Elements(listed);
    assert forall p :: p in files && p != FinalJson && p !in listed ==> p in unlisted;
    assert forall p :: p in unlisted ==> p in files && p != FinalJson && p !in listed;
    if unlisted != {} {
      var p :| p in unlisted;
      reasons := reasons + [UnreferencedFiles];
    }
  }

  /** The two kinds of check together say that the manifest is faithful. */
  lemma FaithfulIff(m: Measure, files: Directory, references: seq<Reference>)
    ensures Faithful(m, files, references) <==>
              && Distinct(PathsOf(references)) && FinalJson !in PathsOf(references) && Completion in PathsOf(references)
              && files.Keys - {FinalJson} <= Elements(PathsOf(references))
              && forall i :: 0 <= i < |references| ==> Describes(m, files, references[i])
  {
    var listed := PathsOf(references);
    assert forall p :: p in listed <==> p in Elements(listed);
    if forall i :: 0 <= i < |references| ==> Describes(m, files, references[i]) {
      assert forall i :: 0 <= i < |listed| ==> listed[i] == references[i].path && listed[i] in files;
      assert Elements(listed) <= files.Keys;
    }
  }

  /** `verify_final_reference_manifest`: no reason exactly when the directory is accepted. */
  method VerifyFinalReferenceManifest(m: Measure, files: Directory) returns (verified: bool, reasons: seq<Reason>)
    ensures verified == (reasons == [])
    ensures verified <==> Accepted(m, files)
    ensures FinalJson !in files ==> reasons == [FinalMissing]
    ensures FinalJson in files && files[FinalJson].Data? ==> reasons == [FinalUnparseable]
    ensures FinalJson in files && files[FinalJson].FinalPayload? && files[FinalJson].manifest.None? ==> reasons == [NoManifest]
  {
    if FinalJson !in files { return false, [FinalMissing]; }
    if files[FinalJson].Data? { return false, [FinalUnparseable]; }
    if files[FinalJson].manifest.None? { return false, [NoManifest]; }
    var references := files[FinalJson].manifest.value;
    var onListing := CheckListing(files, PathsOf(references));
    var onReferences := CheckReferences(m, files, references);
    FaithfulIff(m, files, references);
    reasons := onListing + onReferences;
    verified := reasons == [];
  }

  // ---------------------------------------------------------------- what acceptance is worth

  /** Spelled out: in an accepted directory exactly one reference names each file but `final.json`, by
      its role, size and hash, completion is among them, and no file is a stray. */
  lemma AcceptedSays(m: Measure, files: Directory, p: Path)
    requires Accepted(m, files) && p in files && p != FinalJson
    ensures Completion in files && !p.Other?
    ensures exists i ::
              && 0 <= i < |files[FinalJson].manifest.value|
              && files[FinalJson].manifest.value[i] ==
                   Reference(p, Some(SemanticRoleFor(p)), Some(m.sha256(files[p])), Some(m.size(files[p])))
              && forall j :: 0 <= j < |files[FinalJson].manifest.value| && files[FinalJson].manifest.value[j].path == p ==> j == i
  {
    var references := files[FinalJson].manifest.value;
    assert p in Elements(PathsOf(references));
    var i :| 0 <= i < |references| && PathsOf(references)[i] == p;
    assert Describes(m, files, references[i]);
    forall j | 0 <= j < |references| && references[j].path == p
      ensures j == i
    {
      assert PathsOf(references)[j] == PathsOf(references)[i];
    }
  }

  /** Round trip: a freshly built manifest is accepted exactly when completion is on record
      and every file has a known role. */
  lemma BuiltManifestAccepted(m: Measure, files: Directory, references: seq<Reference>, passed: bool)
    requires FinalJson !in files
    requires Distinct(PathsOf(references)) && Elements(PathsOf(references)) == files.Keys
    requires forall i :: 0 <= i < |references| ==>
               references[i].path in files && references[i] == ReferenceTo(m, references[i].path, files[references[i].path])
    ensures Accepted(m, files[FinalJson := FinalPayload(passed, Some(references))])
            <==> Completion in files && forall p :: p in files ==> SemanticRoleFor(p) != UnknownRole
  {
    var after := files[FinalJson := FinalPayload(passed, Some(references))];
    assert after.Keys - {FinalJson} == files.Keys;
    forall p | p in files
      ensures exists i :: 0 <= i < |references| && references[i].path == p
    {
      assert p in Elements(PathsOf(references));
      var i :| 0 <= i < |references| && PathsOf(references)[i] == p;
    }
    if Completion in files && forall p :: p in files ==> SemanticRoleFor(p) != UnknownRole {
      assert forall i :: 0 <= i < |references| ==> references[i].path != FinalJson;
      assert forall i :: 0 <= i < |references| ==> Describes(m, after, references[i]);
    } else if Completion in files {
      var p :| p in files && SemanticRoleFor(p) == UnknownRole;
      var i :| 0 <= i < |references| && references[i].path == p;
      assert !Describes(m, after, references[i]);
    }
  }

  /** Tamper evidence: `final.json` is accepted in one directory only. Any file added,
      removed or changed makes a different directory, and so is rejected. */
  lemma AcceptedDirectoryIsUnique(m: Measure, files: Directory, changed: Directory)
    requires CollisionFree(m)
    requires Accepted(m, files) && FinalJson in changed && changed[FinalJson] == files[FinalJson]
    ensures Accepted(m, changed) <==> changed == files
  {
    if Accepted(m, changed) {
      var references := files[FinalJson].manifest.value;
      assert changed.Keys - {FinalJson} == files.Keys - {FinalJson};
      assert changed.Keys == changed.Keys - {FinalJson} + {FinalJson};
      assert files.Keys == files.Keys - {FinalJson} + {FinalJson};
      forall p | p in files && p != FinalJson
        ensures changed[p] == files[p]
      {
        assert p in Elements(PathsOf(references));
        var i :| 0 <= i < |references| && PathsOf(references)[i] == p;
        assert Describes(m, files, references[i]) && Describes(m, changed, references[i]);
        assert m.sha256(changed[p]) == m.sha256(files[p]);
      }
    }
  }

  /** A file the manifest does not list makes the directory rejected, now and after any
      further write: nothing is ever removed or overwritten. */
  lemma UnlistedFileRejectsForever(m: Measure, files: Directory, later: Directory, p: Path)
    requires FinalJson in files && files[FinalJson].FinalPayload? && files[FinalJson].manifest.Some?
    requires p in files && p != FinalJson && p !in PathsOf(files[FinalJson].manifest.value)
    requires forall q :: q in files ==> q in later && later[q] == files[q]
    ensures !Accepted(m, later)
  {
    assert p !in Elements(PathsOf(files[FinalJson].manifest.value));
    assert p in later.Keys - {FinalJson};
  }
}
