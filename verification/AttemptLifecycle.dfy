/** One `b2a-calibrate --execute` attempt as a sequence of immutable writes, any of which may
    fail before or after its rename takes effect (src/kvcot/cli.py, src/kvcot/discovery/b2a_execute.py). */
module AttemptLifecycle {
  import opened Prelude
  import opened AttemptArtifacts

  /** What may be raised: an Exception, or a BaseException such as KeyboardInterrupt, which the
      handlers for Exception let pass. */
  datatype Signal = Error | Interrupt

  /** A failing write leaves the file absent, or present with the caller told it failed
      (the rename happened, the directory sync did not). */
  datatype Fault = NoFault | BeforeRename(signal: Signal) | AfterRename(signal: Signal)

  /** How the work between preflight and completion ends. */
  datatype Body = WorkersRaise(signal: Signal) | WorkersFinish(overallPassed: bool)

  /** Everything outside the code's control in one attempt. `fault` gives the fault of the
      first write to each path, `fallbackFault` that of the command's own completion record;
      `interference` is what others write between the manifest and its verification. The three
      `Option<Signal>` fields say what is raised, if anything, between completion and `final.json`
      (by the pre-final verification or the manifest), after it (by its verification, or before
      the coordinator returns), and by the command's report of the result. */
  datatype World = World(
    fault: Path -> Fault,
    fallbackFault: Fault,
    configLoads: bool,
    provenanceCollected: bool,
    overridesGiven: bool,
    blockers: bool,
    deviceUsable: bool,
    workerFiles: Directory,
    body: Body,
    prefinalVerified: bool,
    manifestRaises: Option<Signal>,
    verificationRaises: Option<Signal>,
    reportRaises: Option<Signal>,
    interference: Directory,
    content: Path -> Content,
    listing: Directory -> seq<Path>,
    measure: Measure)

  /** Paths only the worker processes and the coordinator's process record may take. */
  predicate WorkerOwned(path: Path) {
    path.OfWorker? || path.ProcessOutcome? || path.Other?
  }

  ghost predicate Sane(w: World) {
    && (forall p :: p in w.workerFiles ==> WorkerOwned(p))
    && (forall p :: p in w.interference ==> WorkerOwned(p))
    && (forall d :: Lists(w.listing(d), d))
    && CollisionFree(w.measure)
  }

  datatype CoordinatorResult = Returned(overallPassed: bool) | Raised(signal: Signal)

  datatype CommandResult = Exit(code: int) | Exception

  // ---------------------------------------------------------------- the directory and its steps

  /** The attempt directory, and this process's writes that took effect, oldest first. */
  datatype Disk = Disk(files: Directory, writes: seq<Write>)

  /** A write that took effect: where, and what it wrote. */
  datatype Write = Write(path: Path, content: Content)

  function Put(d: Disk, path: Path, content: Content, fault: Fault): Disk {
    if path in d.files || fault.BeforeRename? then d
    else Disk(d.files[path := content], d.writes + [Write(path, content)])
  }

  /** What the write raises, if anything: an existing path is refused with an Exception. */
  function Raises(d: Disk, path: Path, fault: Fault): Option<Signal> {
    if path in d.files then Some(Error) else if fault.NoFault? then None else Some(fault.signal)
  }

  /** What gets past a best-effort record, whose own Exception is swallowed: `signal`, or an
      interrupt of the record. */
  function Past(d: Disk, path: Path, fault: Fault, signal: Signal): Signal {
    if Raises(d, path, fault) == Some(Interrupt) then Interrupt else signal
  }

  /** One write of this world's content for `path`, with its fault. */
  function Record(w: World, d: Disk, path: Path): Disk {
    Put(d, path, w.content(path), w.fault(path))
  }

  /** `final.json`: the manifest of what is there now, written after whatever others do. */
  ghost function WithFinal(w: World, d: Disk, passed: bool): Disk
    requires Sane(w)
  {
    assert Lists(w.listing(d.files), d.files);
    assert forall p :: p in w.listing(d.files) ==> p in Elements(w.listing(d.files));
    var manifest := ManifestOf(w.measure, d.files, w.listing(d.files));
    Put(Disk(d.files + w.interference, d.writes), FinalJson, FinalPayload(passed, Some(manifest)), w.fault(FinalJson))
  }

  datatype Outcome<+R> = Outcome(disk: Disk, result: R)

  /** The coordinator's tail: completion, manifest, `final.json`, verification. Whatever the write
      of `final.json` raises becomes an Exception, once the record of it is made. */
  ghost function Finish(w: World, d: Disk): Outcome<CoordinatorResult>
    requires Sane(w) && w.body.WorkersFinish?
  {
    var completed := Record(w, d, Completion);
    var raised := Raises(d, Completion, w.fault(Completion));
    if raised.Some? then Outcome(completed, Raised(raised.value))
    else if w.body.overallPassed && !w.prefinalVerified then Outcome(completed, Raised(Error))
    else if w.manifestRaises.Some? then Outcome(completed, Raised(w.manifestRaises.value))
    else
      var final := WithFinal(w, completed, w.body.overallPassed);
      if Raises(completed, FinalJson, w.fault(FinalJson)).Some? then RecordAndRaise(w, final, FinalWriteFailure)
      else if w.verificationRaises.Some? then Outcome(final, Raised(w.verificationRaises.value))
      else if !Accepted(w.measure, final.files) then RecordAndRaise(w, final, FinalVerificationFailure)
      else Outcome(final, Returned(w.body.overallPassed))
  }

  /** A best-effort record, and the coordinator's own Exception after it. */
  function RecordAndRaise(w: World, d: Disk, path: Path): Outcome<CoordinatorResult> {
    Outcome(Record(w, d, path), Raised(Past(d, path, w.fault(path), Error)))
  }

  /** The handler of the whole: an Exception is recorded in `failure.json`, an interrupt is not. */
  function Handle(w: World, o: Outcome<CoordinatorResult>): Outcome<CoordinatorResult> {
    if o.result == Raised(Error) then Outcome(Record(w, o.disk, Failure), Raised(Past(o.disk, Failure, w.fault(Failure), Error)))
    else o
  }

  /** `run_b2a_calibration`: workers, tail, handler. */
  ghost function Calibrate(w: World, d: Disk): Outcome<CoordinatorResult>
    requires Sane(w)
  {
    var worked := Disk(d.files + w.workerFiles, d.writes);
    Handle(w, if w.body.WorkersRaise? then Outcome(worked, Raised(w.body.signal)) else Finish(w, worked))
  }

  /** The command's `finally`: a completion record, unless one is there. */
  function Fallback(w: World, d: Disk): Disk {
    if Completion in d.files then d else Put(d, Completion, w.content(Completion), w.fallbackFault)
  }

  /** The command's own part, up to the coordinator: the directory, and whether it goes on. */
  function Prepare(w: World, d: Disk): Outcome<bool> {
    var invoked := Record(w, d, Invocation);
    if Raises(d, Invocation, w.fault(Invocation)).Some? then Outcome(invoked, false)
    else if !w.configLoads then Outcome(Record(w, invoked, Failure), false)
    else if !w.provenanceCollected then Outcome(invoked, false)
    else
      var provenanced := Record(w, invoked, Provenance);
      if Raises(invoked, Provenance, w.fault(Provenance)).Some? || w.overridesGiven then Outcome(provenanced, false)
      else if w.blockers || !w.deviceUsable then Outcome(Record(w, provenanced, Failure), false)
      else
        Outcome(Record(w, provenanced, Preflight), Raises(provenanced, Preflight, w.fault(Preflight)).None?)
  }

  /** The whole command, from the freshly created directory. */
  ghost function Run(w: World): Outcome<CommandResult>
    requires Sane(w)
  {
    var prepared := Prepare(w, Disk(map[], []));
    if !prepared.result then Outcome(prepared.disk, Exception)
    else
      var o := Calibrate(w, prepared.disk);
      var disk := Fallback(w, o.disk);
      if o.result.Raised? || w.reportRaises.Some? || (Completion !in o.disk.files && w.fallbackFault != NoFault)
      then Outcome(disk, Exception)
      else Outcome(disk, Exit(if o.result.overallPassed then 0 else 2))
  }

  // ---------------------------------------------------------------- the code itself

  class Attempt {
    var files: Directory
    ghost var writes: seq<Write>

    ghost function Now(): Disk
      reads this
    {
      Disk(files, writes)
    }

    constructor ()
      ensures Now() == Disk(map[], [])
    {
      files, writes := map[], [];
    }

    /** `atomic_write_json`: refuses an existing path; otherwise the file appears unless the
        write failed before its rename. */
    method AtomicWrite(path: Path, content: Content, fault: Fault) returns (raised: Option<Signal>)
      modifies this
      ensures Now() == Put(old(Now()), path, content, fault)
      ensures raised == Raises(old(Now()), path, fault)
    {
      if path in files { return Some(Error); }
      if fault.BeforeRename? { return Some(fault.signal); }
      files := files[path := content];
      writes := writes + [Write(path, content)];
      raised := if fault.AfterRename? then Some(fault.signal) else None;
    }

    /** Files appearing, or changing, by another process's hand. */
    method OthersWrite(theirs: Directory)
      modifies this`files
      ensures Now() == Disk(old(files) + theirs, old(writes))
    {
      files := files + theirs;
    }

    /** A failure record on the way out of raising `signal`: the record's own Exception is
        swallowed, or replaces the one on its way; an interrupt of it passes. */
    method AddRecord(path: Path, w: World, signal: Signal) returns (past: Signal)
      modifies this
      ensures Now() == Record(w, old(Now()), path)
      ensures past == Past(old(Now()), path, w.fault(path), signal)
    {
      var raised := AtomicWrite(path, w.content(path), w.fault(path));
      past := if raised == Some(Interrupt) then Interrupt else signal;
    }

    method WriteFinal(w: World, passed: bool) returns (raised: Option<Signal>)
      requires Sane(w)
      modifies this
      ensures Now() == WithFinal(w, old(Now()), passed)
      ensures raised == Raises(Disk(old(files) + w.interference, old(writes)), FinalJson, w.fault(FinalJson))
    {
      assert Lists(w.listing(files), files);
      assert forall p :: p in w.listing(files) ==> p in Elements(w.listing(files));
      var references := BuildAttemptReferences(w.measure, files, w.listing(files));
      OthersWrite(w.interference);
      raised := AtomicWrite(FinalJson, FinalPayload(passed, Some(references)), w.fault(FinalJson));
    }

    method FinishRun(w: World) returns (r: CoordinatorResult)
      requires Sane(w) && w.body.WorkersFinish?
      modifies this
      ensures Outcome(Now(), r) == Finish(w, old(Now()))
    {
      var raised := AtomicWrite(Completion, w.content(Completion), w.fault(Completion));
      if raised.Some? { return Raised(raised.value); }
      if w.body.overallPassed && !w.prefinalVerified { return Raised(Error); }
      if w.manifestRaises.Some? { return Raised(w.manifestRaises.value); }
      raised := WriteFinal(w, w.body.overallPassed);
      if raised.Some? {
        var past := AddRecord(FinalWriteFailure, w, Error);
        return Raised(past);
      }
      if w.verificationRaises.Some? { return Raised(w.verificationRaises.value); }
      var verified, reasons := VerifyFinalReferenceManifest(w.measure, files);
      if !verified {
        var past := AddRecord(FinalVerificationFailure, w, Error);
        return Raised(past);
      }
      return Returned(w.body.overallPassed);
    }

    method RunCalibration(w: World) returns (r: CoordinatorResult)
      requires Sane(w)
      modifies this
      ensures Outcome(Now(), r) == Calibrate(w, old(Now()))
    {
      OthersWrite(w.workerFiles);
      if w.body.WorkersRaise? {
        r := Raised(w.body.signal);
      } else {
        r := FinishRun(w);
      }
      if r == Raised(Error) {
        var past := AddRecord(Failure, w, Error);
        r := Raised(past);
      }
    }

    method PrepareRun(w: World) returns (goesOn: bool)
      modifies this
      ensures Outcome(Now(), goesOn) == Prepare(w, old(Now()))
    {
      var raised := AtomicWrite(Invocation, w.content(Invocation), w.fault(Invocation));
      if raised.Some? { return false; }
      if !w.configLoads {
        var ignored := AddRecord(Failure, w, Error);
        return false;
      }
      if !w.provenanceCollected { return false; }
      raised := AtomicWrite(Provenance, w.content(Provenance), w.fault(Provenance));
      if raised.Some? || w.overridesGiven { return false; }
      if w.blockers || !w.deviceUsable {
        var ignored := AddRecord(Failure, w, Error);
        return false;
      }
      raised := AtomicWrite(Preflight, w.content(Preflight), w.fault(Preflight));
      goesOn := raised.None?;
    }

    /** `cmd_b2a_calibrate --execute`. */
    method Execute(w: World) returns (r: CommandResult)
      requires Sane(w) && Now() == Disk(map[], [])
      modifies this
      ensures Outcome(Now(), r) == Run(w)
    {
      var goesOn := PrepareRun(w);
      if !goesOn { return Exception; }
      var coordinated := RunCalibration(w);
      if Completion !in files {
        var raised := AtomicWrite(Completion, w.content(Completion), w.fallbackFault);
        if raised.Some? { return Exception; }
      }
      if coordinated.Raised? || w.reportRaises.Some? { return Exception; }
      return Exit(if coordinated.overallPassed then 0 else 2);
    }
  }

  // ---------------------------------------------------------------- what may happen, stated of the world

  /** The command gets as far as launching the workers. */
  predicate ReachesCoordinator(w: World) {
    && w.configLoads && w.provenanceCollected && !w.overridesGiven && !w.blockers && w.deviceUsable
    && w.fault(Invocation) == NoFault && w.fault(Provenance) == NoFault && w.fault(Preflight) == NoFault
  }

  /** The coordinator gets as far as writing `final.json`. */
  predicate ReachesFinal(w: World) {
    && ReachesCoordinator(w)
    && w.body.WorkersFinish?
    && w.fault(Completion) == NoFault
    && (w.body.overallPassed ==> w.prefinalVerified)
    && w.manifestRaises.None?
  }

  /** Every worker file has a known role, and nothing changed after the manifest was built. */
  predicate CleanDirectory(w: World) {
    && (forall p :: p in w.workerFiles ==> SemanticRoleFor(p) != UnknownRole)
    && w.workerFiles + w.interference == w.workerFiles
  }

  /** No failure record can be written for a `final.json` whose rename took effect although its
      caller was told otherwise: neither of the two, or an interrupt of the first skips the second. */
  predicate FinalWriteUnrecorded(w: World) {
    && w.fault(FinalJson).AfterRename?
    && w.fault(FinalWriteFailure).BeforeRename?
    && (w.fault(FinalWriteFailure).signal.Interrupt? || w.fault(Failure).BeforeRename?)
  }

  /** `final.json` was written as it should, and what came after it raised without leaving a
      record: an interrupt, a raise whose record was lost, or a raise of the report. */
  predicate AftermathUnrecorded(w: World) {
    && w.fault(FinalJson) == NoFault
    && match w.verificationRaises
       case Some(Interrupt) => true
       case Some(Error) => w.fault(Failure).BeforeRename?
       case None => w.reportRaises.Some?
  }

  predicate SilentlyComplete(w: World) {
    FinalWriteUnrecorded(w) || AftermathUnrecorded(w)
  }

  predicate FailureRecord(p: Path) {
    p.Failure? || p.FinalWriteFailure? || p.FinalVerificationFailure?
  }

  predicate HasFailureRecord(files: Directory) {
    Failure in files || FinalWriteFailure in files || FinalVerificationFailure in files
  }

  /** `final.json` carries a manifest that lists the completion record as it now is, and no failure record. */
  ghost predicate FinalListsCompletion(m: Measure, files: Directory) {
    && FinalJson in files && files[FinalJson].FinalPayload? && files[FinalJson].manifest.Some?
    && Completion in files
    && ReferenceTo(m, Completion, files[Completion]) in files[FinalJson].manifest.value
    && (forall p :: p in PathsOf(files[FinalJson].manifest.value) ==> !FailureRecord(p))
  }

  /** Rejected now, and after anything that could still be written. */
  ghost predicate RejectedForever(m: Measure, files: Directory) {
    forall later: Directory :: files.Keys <= later.Keys && (forall p :: p in files ==> later[p] == files[p])
      ==> !Accepted(m, later)
  }

  /** The write of `earlier` precedes the write of `later`. */
  ghost predicate WrittenBefore(writes: seq<Write>, earlier: Path, later: Path) {
    exists i, j :: 0 <= i < j < |writes| && writes[i].path == earlier && writes[j].path == later
  }

  // ---------------------------------------------------------------- write-once, over the whole run

  predicate NoPathTwice(writes: seq<Write>) {
    forall i, j :: 0 <= i < j < |writes| ==> writes[i].path != writes[j].path
  }

  /** Every write of this process is there with the content it wrote. */
  predicate AllStand(d: Disk) {
    forall i :: 0 <= i < |d.writes| ==>
      && !WorkerOwned(d.writes[i].path)
      && d.writes[i].path in d.files && d.files[d.writes[i].path] == d.writes[i].content
  }

  /** No path twice, every write still there, and nothing else there that is this process's to write. */
  ghost predicate WriteOnce(d: Disk) {
    && NoPathTwice(d.writes)
    && AllStand(d)
    && forall p :: p in d.files && !WorkerOwned(p) ==> Written(d.writes, p)
  }

  predicate Written(writes: seq<Write>, p: Path) {
    exists i :: 0 <= i < |writes| && writes[i].path == p
  }

  lemma PutKeepsWriteOnce(d: Disk, path: Path, content: Content, fault: Fault)
    requires WriteOnce(d) && !WorkerOwned(path)
    ensures WriteOnce(Put(d, path, content, fault))
    ensures d.writes <= Put(d, path, content, fault).writes
    ensures forall p :: p in d.files ==> p in Put(d, path, content, fault).files && Put(d, path, content, fault).files[p] == d.files[p]
  {
    if path !in d.files && !fault.BeforeRename? {
      var after := Put(d, path, content, fault);
      hide WorkerOwned;
      NewPathKeepsAllStand(d, Write(path, content));
      hide AllStand, NoPathTwice;
      forall p | p in after.files && !WorkerOwned(p)
        ensures Written(after.writes, p)
      {
        StaysWritten(d.writes, Write(path, content), p);
      }
    }
  }

  lemma NewPathKeepsAllStand(d: Disk, write: Write)
    requires NoPathTwice(d.writes) && AllStand(d) && write.path !in d.files && !WorkerOwned(write.path)
    ensures NoPathTwice(d.writes + [write])
    ensures AllStand(Disk(d.files[write.path := write.content], d.writes + [write]))
  {
    hide WorkerOwned;
  }

  lemma StaysWritten(writes: seq<Write>, write: Write, p: Path)
    ensures Written(writes, p) || p == write.path ==> Written(writes + [write], p)
  {
    if Written(writes, p) {
      var i :| 0 <= i < |writes| && writes[i].path == p;
      assert (writes + [write])[i].path == p;
    }
    assert (writes + [write])[|writes|] == write;
  }

  lemma OthersKeepWriteOnce(d: Disk, theirs: Directory)
    requires WriteOnce(d) && forall p :: p in theirs ==> WorkerOwned(p)
    ensures WriteOnce(Disk(d.files + theirs, d.writes))
  {
  }

  lemma PrepareKeepsWriteOnce(w: World, d: Disk)
    requires WriteOnce(d)
    ensures WriteOnce(Prepare(w, d).disk)
  {
    var invoked := Record(w, d, Invocation);
    PutKeepsWriteOnce(d, Invocation, w.content(Invocation), w.fault(Invocation));
    PutKeepsWriteOnce(invoked, Failure, w.content(Failure), w.fault(Failure));
    var provenanced := Record(w, invoked, Provenance);
    PutKeepsWriteOnce(invoked, Provenance, w.content(Provenance), w.fault(Provenance));
    PutKeepsWriteOnce(provenanced, Failure, w.content(Failure), w.fault(Failure));
    PutKeepsWriteOnce(provenanced, Preflight, w.content(Preflight), w.fault(Preflight));
  }

  lemma WithFinalKeepsWriteOnce(w: World, d: Disk, passed: bool)
    requires Sane(w) && WriteOnce(d)
    ensures WriteOnce(WithFinal(w, d, passed))
  {
    var others := Disk(d.files + w.interference, d.writes);
    OthersKeepWriteOnce(d, w.interference);
    assert Lists(w.listing(d.files), d.files);
    assert forall p :: p in w.listing(d.files) ==> p in Elements(w.listing(d.files));
    var manifest := ManifestOf(w.measure, d.files, w.listing(d.files));
    PutKeepsWriteOnce(others, FinalJson, FinalPayload(passed, Some(manifest)), w.fault(FinalJson));
  }

  lemma RecordKeepsWriteOnce(w: World, d: Disk, path: Path)
    requires WriteOnce(d) && !WorkerOwned(path)
    ensures WriteOnce(Record(w, d, path))
  {
    PutKeepsWriteOnce(d, path, w.content(path), w.fault(path));
  }

  lemma FinishKeepsWriteOnce(w: World, d: Disk)
    requires Sane(w) && WriteOnce(d) && w.body.WorkersFinish?
    ensures WriteOnce(Finish(w, d).disk)
  {
    hide WriteOnce, Sane, Accepted, Put;
    var completed := Record(w, d, Completion);
    RecordKeepsWriteOnce(w, d, Completion);
    var final := WithFinal(w, completed, w.body.overallPassed);
    WithFinalKeepsWriteOnce(w, completed, w.body.overallPassed);
    RecordKeepsWriteOnce(w, final, FinalWriteFailure);
    RecordKeepsWriteOnce(w, final, FinalVerificationFailure);
  }

  lemma CalibrateKeepsWriteOnce(w: World, d: Disk)
    requires Sane(w) && WriteOnce(d)
    ensures WriteOnce(Calibrate(w, d).disk)
  {
    var worked := Disk(d.files + w.workerFiles, d.writes);
    OthersKeepWriteOnce(d, w.workerFiles);
    PutKeepsWriteOnce(worked, Failure, w.content(Failure), w.fault(Failure));
    if w.body.WorkersFinish? {
      FinishKeepsWriteOnce(w, worked);
      PutKeepsWriteOnce(Finish(w, worked).disk, Failure, w.content(Failure), w.fault(Failure));
    }
  }

  /** However the run ends: no path is written twice, and what was written is still there. */
  lemma RunIsWriteOnce(w: World)
    requires Sane(w)
    ensures WriteOnce(Run(w).disk)
  {
    var empty := Disk(map[], []);
    var prepared := Prepare(w, empty);
    PrepareKeepsWriteOnce(w, empty);
    CalibrateKeepsWriteOnce(w, prepared.disk);
    PutKeepsWriteOnce(Calibrate(w, prepared.disk).disk, Completion, w.content(Completion), w.fallbackFault);
  }

  // ---------------------------------------------------------------- the directory when the manifest is built

  /** The workers' files are there as they left them, and nothing else but the command's own records. */
  ghost predicate HoldsWorkerFiles(w: World, files: Directory) {
    && (forall p :: WorkerOwned(p) ==> (p in files <==> p in w.workerFiles))
    && (forall p :: p in w.workerFiles && p in files ==> files[p] == w.workerFiles[p])
    && FinalJson !in files && !HasFailureRecord(files)
  }

  lemma PreparedFiles(w: World)
    ensures var o := Prepare(w, Disk(map[], []));
            && (o.result <==> ReachesCoordinator(w))
            && Completion !in o.disk.files && FinalJson !in o.disk.files
            && (forall p :: p in o.disk.files ==> !WorkerOwned(p))
            && (o.result ==> !HasFailureRecord(o.disk.files))
  {
  }

  lemma PreparedDirectory(w: World)
    requires Sane(w)
    ensures Prepare(w, Disk(map[], [])).result <==> ReachesCoordinator(w)
    ensures var o := Prepare(w, Disk(map[], [])); Completion !in o.disk.files && FinalJson !in o.disk.files
    ensures var o := Prepare(w, Disk(map[], []));
            o.result ==> HoldsWorkerFiles(w, o.disk.files + w.workerFiles) && Completion !in o.disk.files + w.workerFiles
  {
    PreparedFiles(w);
    hide Prepare, ReachesCoordinator;
  }

  /** What the manifest describes once completion is recorded. */
  ghost predicate AtManifest(w: World, files: Directory) {
    HoldsWorkerFiles(w, files) && Completion in files
  }

  /** `references` is the complete, faithful manifest of a directory without `final.json`. */
  ghost predicate IsManifest(m: Measure, files: Directory, references: seq<Reference>) {
    && Distinct(PathsOf(references)) && Elements(PathsOf(references)) == files.Keys
    && forall i :: 0 <= i < |references| ==>
         references[i].path in files && references[i] == ReferenceTo(m, references[i].path, files[references[i].path])
  }

  /** `final.json` appears beside whatever others did after the manifest was built. */
  function Sealed(files: Directory, interference: Directory, passed: bool, references: seq<Reference>): Directory {
    (files + interference)[FinalJson := FinalPayload(passed, Some(references))]
  }

  lemma FinalIsSealed(w: World, d: Disk, passed: bool) returns (references: seq<Reference>)
    requires Sane(w) && FinalJson !in d.files && !w.fault(FinalJson).BeforeRename?
    ensures IsManifest(w.measure, d.files, references)
    ensures WithFinal(w, d, passed).files == Sealed(d.files, w.interference, passed, references)
  {
    var listing := w.listing(d.files);
    assert Lists(listing, d.files);
    assert forall p :: p in listing <==> p in Elements(listing);
    ManifestIsComplete(w.measure, d.files, listing);
    references := ManifestOf(w.measure, d.files, listing);
  }

  lemma SealedListsCompletion(m: Measure, files: Directory, interference: Directory, passed: bool, references: seq<Reference>)
    requires IsManifest(m, files, references)
    requires Completion in files && Completion !in interference && !HasFailureRecord(files)
    ensures FinalListsCompletion(m, Sealed(files, interference, passed, references))
  {
    assert forall p :: p in PathsOf(references) <==> p in Elements(PathsOf(references));
    assert Completion in PathsOf(references);
    var i :| 0 <= i < |PathsOf(references)| && PathsOf(references)[i] == Completion;
    assert references[i] in references;
  }

  /** Without failure records, the sealed directory is accepted exactly when every file has a
      known role and nobody changed anything after the manifest was built. */
  lemma SealedAcceptedIff(m: Measure, files: Directory, interference: Directory, passed: bool, references: seq<Reference>)
    requires CollisionFree(m) && IsManifest(m, files, references)
    requires Completion in files && FinalJson !in files && FinalJson !in interference
    ensures Accepted(m, Sealed(files, interference, passed, references)) <==>
              && (forall p :: p in files ==> SemanticRoleFor(p) != UnknownRole)
              && files + interference == files
  {
    var final := FinalPayload(passed, Some(references));
    var plain, after := files[FinalJson := final], Sealed(files, interference, passed, references);
    BuiltManifestAccepted(m, files, references, passed);
    UndisturbedIff(files, interference, final);
    if Accepted(m, plain) {
      AcceptedDirectoryIsUnique(m, plain, after);
    } else {
      var p :| p in files && SemanticRoleFor(p) == UnknownRole;
      UnknownRoleIsRejected(m, after, p);
    }
  }

  lemma UndisturbedIff(files: Directory, interference: Directory, final: Content)
    requires FinalJson !in files && FinalJson !in interference
    ensures (files + interference)[FinalJson := final] == files[FinalJson := final] <==> files + interference == files
  {
    var both := files + interference;
    if both[FinalJson := final] == files[FinalJson := final] {
      assert both.Keys == both[FinalJson := final].Keys - {FinalJson};
      assert files.Keys == files[FinalJson := final].Keys - {FinalJson};
      forall p | p in files
        ensures both[p] == files[p]
      {
        assert both[FinalJson := final][p] == files[FinalJson := final][p];
      }
    }
  }

  /** At the manifest, that is what `CleanDirectory` says. */
  lemma CleanIff(w: World, files: Directory)
    requires Sane(w) && AtManifest(w, files)
    ensures CleanDirectory(w) <==>
              (forall p :: p in files ==> SemanticRoleFor(p) != UnknownRole) && files + w.interference == files
  {
    assert forall p :: p in w.workerFiles + w.interference ==> WorkerOwned(p);
    if w.workerFiles + w.interference == w.workerFiles {
      forall p | p in w.interference
        ensures p in files && files[p] == w.interference[p]
      {
        assert (w.workerFiles + w.interference)[p] == w.interference[p];
      }
    }
    if files + w.interference == files {
      forall p | p in w.interference
        ensures p in w.workerFiles && w.workerFiles[p] == w.interference[p]
      {
        assert (files + w.interference)[p] == w.interference[p];
      }
    }
  }

  lemma UnknownRoleIsRejected(m: Measure, files: Directory, p: Path)
    requires p in files && p != FinalJson && SemanticRoleFor(p) == UnknownRole
    ensures !Accepted(m, files)
  {
    if FinalJson in files && files[FinalJson].FinalPayload? && files[FinalJson].manifest.Some? {
      var references := files[FinalJson].manifest.value;
      if p in PathsOf(references) {
        var i :| 0 <= i < |references| && PathsOf(references)[i] == p;
        assert !Describes(m, files, references[i]);
      } else {
        assert p !in Elements(PathsOf(references));
      }
    }
  }

  /** Once `final.json` is there, a failure record makes the directory rejected forever. */
  lemma FailureRecordRejectsForever(m: Measure, files: Directory, record: Path)
    requires FinalListsCompletion(m, files) && record in files && FailureRecord(record)
    ensures RejectedForever(m, files) && !Accepted(m, files)
  {
    forall later: Directory | files.Keys <= later.Keys && (forall p :: p in files ==> later[p] == files[p])
      ensures !Accepted(m, later)
    {
      UnlistedFileRejectsForever(m, files, later, record);
    }
    UnlistedFileRejectsForever(m, files, files, record);
  }

  // ---------------------------------------------------------------- where a run ends

  /** The coordinator's starting directory, once the workers are done. */
  function Worked(w: World): Disk {
    var prepared := Prepare(w, Disk(map[], [])).disk;
    Disk(prepared.files + w.workerFiles, prepared.writes)
  }

  function Completed(w: World): Disk {
    Record(w, Worked(w), Completion)
  }

  /** The directory right after the attempt to write `final.json`. */
  ghost function Final(w: World): Disk
    requires Sane(w) && w.body.WorkersFinish?
  {
    WithFinal(w, Completed(w), w.body.overallPassed)
  }

  /** Where the failure records a coordinator tries to add after `final.json` leave the directory. */
  ghost function Condemned(w: World): Disk
    requires Sane(w) && w.body.WorkersFinish?
  {
    if w.fault(FinalJson) != NoFault then TwoRecords(w, Final(w), FinalWriteFailure)
    else match w.verificationRaises
         case Some(Interrupt) => Final(w)
         case Some(Error) => Record(w, Final(w), Failure)
         case None => if CleanDirectory(w) then Final(w) else TwoRecords(w, Final(w), FinalVerificationFailure)
  }

  /** The first record, and `failure.json` unless writing the first was interrupted. */
  function TwoRecords(w: World, d: Disk, first: Path): Disk {
    if Raises(d, first, w.fault(first)) == Some(Interrupt) then Record(w, d, first) else Record(w, Record(w, d, first), Failure)
  }

  predicate FinalAppears(w: World) {
    ReachesFinal(w) && !w.fault(FinalJson).BeforeRename?
  }

  predicate RunSucceeds(w: World) {
    && ReachesFinal(w) && w.fault(FinalJson) == NoFault && CleanDirectory(w)
    && w.verificationRaises.None? && w.reportRaises.None?
  }

  lemma CompletedDirectory(w: World)
    requires Sane(w) && ReachesFinal(w)
    ensures Raises(Worked(w), Completion, w.fault(Completion)).None?
    ensures AtManifest(w, Completed(w).files)
    ensures |Completed(w).writes| > 0 && Completed(w).writes[|Completed(w).writes| - 1].path == Completion
  {
    PreparedDirectory(w);
    assert HoldsWorkerFiles(w, Worked(w).files);
  }

  /** What `final.json` does when its rename takes effect. */
  lemma FinalDirectory(w: World)
    requires Sane(w) && FinalAppears(w)
    ensures FinalListsCompletion(w.measure, Final(w).files)
    ensures Accepted(w.measure, Final(w).files) <==> CleanDirectory(w)
    ensures !HasFailureRecord(Final(w).files)
    ensures Final(w).writes == Completed(w).writes + [Write(FinalJson, Final(w).files[FinalJson])]
  {
    CompletedDirectory(w);
    FinalAddsItself(w, Completed(w), w.body.overallPassed);
    FinalLists(w, Completed(w), w.body.overallPassed);
    FinalAcceptedIffClean(w, Completed(w), w.body.overallPassed);
  }

  lemma FinalAddsItself(w: World, completed: Disk, passed: bool)
    requires Sane(w) && AtManifest(w, completed.files) && !w.fault(FinalJson).BeforeRename?
    ensures !HasFailureRecord(WithFinal(w, completed, passed).files)
    ensures FinalJson in WithFinal(w, completed, passed).files
    ensures WithFinal(w, completed, passed).writes == completed.writes + [Write(FinalJson, WithFinal(w, completed, passed).files[FinalJson])]
  {
    hide Lists, CollisionFree;
  }

  lemma FinalLists(w: World, completed: Disk, passed: bool)
    requires Sane(w) && AtManifest(w, completed.files) && !w.fault(FinalJson).BeforeRename?
    ensures FinalListsCompletion(w.measure, WithFinal(w, completed, passed).files)
  {
    var references := FinalIsSealed(w, completed, passed);
    hide IsManifest, FinalListsCompletion;
    SealedListsCompletion(w.measure, completed.files, w.interference, passed, references);
  }

  lemma FinalAcceptedIffClean(w: World, completed: Disk, passed: bool)
    requires Sane(w) && AtManifest(w, completed.files) && !w.fault(FinalJson).BeforeRename?
    ensures Accepted(w.measure, WithFinal(w, completed, passed).files) <==> CleanDirectory(w)
  {
    hide IsManifest, Accepted, WithFinal, CleanDirectory;
    var references := FinalIsSealed(w, completed, passed);
    SealedAcceptedIff(w.measure, completed.files, w.interference, passed, references);
    CleanIff(w, completed.files);
  }

  lemma FinishWithoutFinal(w: World, d: Disk)
    requires Sane(w) && w.body.WorkersFinish? && FinalJson !in d.files
    requires w.fault(FinalJson).BeforeRename? || w.fault(Completion) != NoFault
             || (w.body.overallPassed && !w.prefinalVerified) || w.manifestRaises.Some?
    ensures FinalJson !in Finish(w, d).disk.files && Finish(w, d).result.Raised?
  {
    hide Accepted;
  }

  /** Runs that never reach `final.json`, or whose rename of it does not happen. */
  lemma RunWithoutFinal(w: World)
    requires Sane(w) && !FinalAppears(w)
    ensures FinalJson !in Run(w).disk.files && Run(w).result == Exception
  {
    hide Accepted, Finish, WithFinal, Sane;
    PreparedDirectory(w);
    if ReachesCoordinator(w) {
      hide ReachesCoordinator, Prepare;
      assert FinalJson !in Worked(w).files;
      if w.body.WorkersFinish? {
        FinishWithoutFinal(w, Worked(w));
      }
      assert FinalJson !in Calibrate(w, Prepare(w, Disk(map[], [])).disk).disk.files;
    }
  }

  /** Runs in which `final.json` appears end in the sealed directory itself, or with it and
      whatever failure records could still be added. */
  lemma RunWithFinal(w: World)
    requires Sane(w) && FinalAppears(w)
    ensures Run(w) == if RunSucceeds(w) then Outcome(Final(w), Exit(if w.body.overallPassed then 0 else 2))
                      else Outcome(Condemned(w), Exception)
  {
    PreparedDirectory(w);
    CoordinatorWithFinal(w);
    hide Sane, ReachesCoordinator, Prepare, Calibrate, CleanDirectory, Condemned, Final;
  }

  lemma CoordinatorWithFinal(w: World)
    requires Sane(w) && FinalAppears(w)
    ensures var o := Calibrate(w, Prepare(w, Disk(map[], [])).disk);
            && o.disk == (if RunSucceeds(w) then Final(w) else Condemned(w)) && Completion in o.disk.files
            && (o.result.Returned? <==> w.fault(FinalJson) == NoFault && w.verificationRaises.None? && CleanDirectory(w))
            && (o.result.Returned? ==> o.result.overallPassed == w.body.overallPassed)
  {
    FinishWithFinal(w);
    FinalHasCompletion(w);
    RecordedTwice(w, Final(w), FinalWriteFailure);
    RecordedTwice(w, Final(w), FinalVerificationFailure);
    assert Worked(w) == Disk(Prepare(w, Disk(map[], [])).disk.files + w.workerFiles, Prepare(w, Disk(map[], [])).disk.writes);
    hide Sane, Prepare, CleanDirectory, Finish, Final, Worked, TwoRecords, RecordAndRaise, ReachesCoordinator;
  }

  lemma FinalHasCompletion(w: World)
    requires Sane(w) && FinalAppears(w)
    ensures Completion in Final(w).files
  {
    FinalDirectory(w);
    hide Final;
  }

  lemma RecordedTwice(w: World, d: Disk, path: Path)
    ensures Handle(w, RecordAndRaise(w, d, path)).disk == TwoRecords(w, d, path) && Handle(w, RecordAndRaise(w, d, path)).result.Raised?
    ensures Completion in d.files ==> Completion in TwoRecords(w, d, path).files
  {
  }

  lemma FinishWithFinal(w: World)
    requires Sane(w) && FinalAppears(w)
    ensures Finish(w, Worked(w)) ==
              if w.fault(FinalJson) != NoFault then RecordAndRaise(w, Final(w), FinalWriteFailure)
              else if w.verificationRaises.Some? then Outcome(Final(w), Raised(w.verificationRaises.value))
              else if !CleanDirectory(w) then RecordAndRaise(w, Final(w), FinalVerificationFailure)
              else Outcome(Final(w), Returned(w.body.overallPassed))
  {
    CompletedDirectory(w);
    FinalDirectory(w);
    hide Sane, CleanDirectory, Accepted, FinalListsCompletion, WithFinal, RecordAndRaise, Worked, ReachesCoordinator, HoldsWorkerFiles, Record;
  }

  /** A record added beside `final.json` leaves everything else as it was. */
  lemma RecordBesideFinal(w: World, d: Disk, path: Path)
    requires FailureRecord(path) && FinalListsCompletion(w.measure, d.files)
    ensures FinalListsCompletion(w.measure, Record(w, d, path).files)
    ensures d.writes <= Record(w, d, path).writes
    ensures !w.fault(path).BeforeRename? ==> path in Record(w, d, path).files
    ensures w.fault(path).BeforeRename? ==> Record(w, d, path) == d
    ensures HasFailureRecord(d.files) ==> HasFailureRecord(Record(w, d, path).files)
  {
  }

  lemma CondemnedDirectory(w: World)
    requires Sane(w) && FinalAppears(w) && !RunSucceeds(w)
    ensures FinalListsCompletion(w.measure, Condemned(w).files)
    ensures Final(w).writes <= Condemned(w).writes
    ensures HasFailureRecord(Condemned(w).files) ==> RejectedForever(w.measure, Condemned(w).files) && !Accepted(w.measure, Condemned(w).files)
    ensures !HasFailureRecord(Condemned(w).files) ==> Condemned(w) == Final(w)
    ensures CleanDirectory(w) ==> (HasFailureRecord(Condemned(w).files) <==> !SilentlyComplete(w))
  {
    CondemnedRecords(w);
    var files := Condemned(w).files;
    hide *;
    forall record | record in files && FailureRecord(record)
      ensures RejectedForever(w.measure, files) && !Accepted(w.measure, files)
    {
      FailureRecordRejectsForever(w.measure, files, record);
    }
    HasOne(files);
  }

  lemma HasOne(files: Directory)
    ensures HasFailureRecord(files) ==> exists record :: record in files && FailureRecord(record)
  {
    assert FailureRecord(Failure) && FailureRecord(FinalWriteFailure) && FailureRecord(FinalVerificationFailure);
  }

  lemma CondemnedRecords(w: World)
    requires Sane(w) && FinalAppears(w) && !RunSucceeds(w)
    ensures FinalListsCompletion(w.measure, Condemned(w).files)
    ensures Final(w).writes <= Condemned(w).writes
    ensures !HasFailureRecord(Condemned(w).files) ==> Condemned(w) == Final(w)
    ensures CleanDirectory(w) ==> (HasFailureRecord(Condemned(w).files) <==> !SilentlyComplete(w))
  {
    hide Final, FinalListsCompletion, Accepted, CleanDirectory, Record, TwoRecords, Raises, Sane, HasFailureRecord, ReachesCoordinator;
    FinalDirectory(w);
    var final := Final(w);
    TwoRecordsBesideFinal(w, final, FinalWriteFailure);
    TwoRecordsBesideFinal(w, final, FinalVerificationFailure);
    OneRecordBesideFinal(w, final, Failure);
  }

  lemma OneRecordBesideFinal(w: World, d: Disk, path: Path)
    requires FailureRecord(path) && FinalListsCompletion(w.measure, d.files) && !HasFailureRecord(d.files)
    ensures FinalListsCompletion(w.measure, Record(w, d, path).files) && d.writes <= Record(w, d, path).writes
    ensures HasFailureRecord(Record(w, d, path).files) <==> !w.fault(path).BeforeRename?
    ensures !HasFailureRecord(Record(w, d, path).files) ==> Record(w, d, path) == d
  {
    RecordBesideFinal(w, d, path);
    hide FinalListsCompletion;
  }

  lemma TwoRecordsBesideFinal(w: World, d: Disk, first: Path)
    requires first == FinalWriteFailure || first == FinalVerificationFailure
    requires FinalListsCompletion(w.measure, d.files) && !HasFailureRecord(d.files)
    ensures var both := TwoRecords(w, d, first);
            && FinalListsCompletion(w.measure, both.files) && d.writes <= both.writes
            && (HasFailureRecord(both.files) <==>
                 !w.fault(first).BeforeRename? || (!w.fault(first).signal.Interrupt? && !w.fault(Failure).BeforeRename?))
            && (!HasFailureRecord(both.files) ==> both == d)
  {
    RecordBesideFinal(w, d, first);
    RecordBesideFinal(w, Record(w, d, first), Failure);
    hide FinalListsCompletion;
  }

  // ---------------------------------------------------------------- the guarantees of one run

  /** `final.json` present: a completion record was written before it, and it lists that
      record with the content it still has. */
  lemma FinalImpliesCompletion(w: World)
    requires Sane(w)
    ensures FinalJson in Run(w).disk.files ==>
              FinalListsCompletion(w.measure, Run(w).disk.files) && WrittenBefore(Run(w).disk.writes, Completion, FinalJson)
  {
    if FinalAppears(w) {
      RunWithFinal(w);
      CompletedDirectory(w);
      FinalDirectory(w);
      var writes, n := Run(w).disk.writes, |Completed(w).writes|;
      if !RunSucceeds(w) {
        CondemnedDirectory(w);
      }
      assert Final(w).writes <= writes;
      assert writes[n - 1] == Final(w).writes[n - 1] && writes[n] == Final(w).writes[n];
      assert writes[n - 1].path == Completion && writes[n].path == FinalJson;
    } else {
      RunWithoutFinal(w);
    }
  }

  /** And it states the outcome the gates reached. */
  lemma FinalStatesOutcome(w: World)
    requires Sane(w)
    ensures FinalJson in Run(w).disk.files ==>
              w.body.WorkersFinish? && Run(w).disk.files[FinalJson].FinalPayload? && Run(w).disk.files[FinalJson].passed == w.body.overallPassed
  {
    hide Run, Final, TwoRecords, CleanDirectory, ReachesCoordinator, Record, Sane;
    if FinalAppears(w) {
      RunWithFinal(w);
      FinalOutcome(w);
      RecordsKeepFinal(w, Final(w), FinalWriteFailure);
      RecordsKeepFinal(w, Final(w), FinalVerificationFailure);
    } else {
      RunWithoutFinal(w);
    }
  }

  lemma FinalOutcome(w: World)
    requires Sane(w) && FinalAppears(w)
    ensures FinalJson in Final(w).files && Final(w).files[FinalJson].FinalPayload? && Final(w).files[FinalJson].passed == w.body.overallPassed
  {
    CompletedDirectory(w);
    hide Completed;
  }

  lemma RecordsKeepFinal(w: World, d: Disk, first: Path)
    requires FinalJson in d.files && first != FinalJson
    ensures FinalJson in TwoRecords(w, d, first).files && TwoRecords(w, d, first).files[FinalJson] == d.files[FinalJson]
    ensures FinalJson in Record(w, d, Failure).files && Record(w, d, Failure).files[FinalJson] == d.files[FinalJson]
  {
  }

  /** The command returns normally exactly when every step up to a clean, verified
      `final.json` went well. Then the verifier accepts what is there, no failure record
      exists, and `final.json` was the last thing written. */
  lemma NormalReturn(w: World)
    requires Sane(w)
    ensures Run(w).result.Exit? <==> RunSucceeds(w)
    ensures Run(w).result.Exit? ==>
              && Run(w).result.code == (if w.body.overallPassed then 0 else 2)
              && Accepted(w.measure, Run(w).disk.files) && !HasFailureRecord(Run(w).disk.files)
              && |Run(w).disk.writes| > 0 && Run(w).disk.writes[|Run(w).disk.writes| - 1].path == FinalJson
  {
    if FinalAppears(w) {
      RunWithFinal(w);
      FinalDirectory(w);
    } else {
      RunWithoutFinal(w);
    }
  }

  /** A failure record beside `final.json` makes the verifier reject, then and forever. */
  lemma FailureBesideFinalIsFatal(w: World)
    requires Sane(w)
    ensures FinalJson in Run(w).disk.files && HasFailureRecord(Run(w).disk.files) ==> RejectedForever(w.measure, Run(w).disk.files)
  {
    if FinalAppears(w) {
      RunWithFinal(w);
      FinalDirectory(w);
      if !RunSucceeds(w) {
        CondemnedDirectory(w);
      }
    } else {
      RunWithoutFinal(w);
    }
  }

  /** What is accepted: the runs that returned normally, and the ones that raised once
      `final.json` was there and left no failure record. */
  lemma AcceptedIff(w: World)
    requires Sane(w)
    ensures Accepted(w.measure, Run(w).disk.files) <==>
              ReachesFinal(w) && CleanDirectory(w) && (RunSucceeds(w) || SilentlyComplete(w))
    ensures Accepted(w.measure, Run(w).disk.files) && Run(w).result == Exception <==>
              ReachesFinal(w) && CleanDirectory(w) && SilentlyComplete(w)
  {
    if FinalAppears(w) {
      RunWithFinal(w);
      FinalDirectory(w);
      if !RunSucceeds(w) {
        CondemnedDirectory(w);
      }
    } else {
      RunWithoutFinal(w);
    }
  }

  // ---------------------------------------------------------------- what a run leaves behind

  /** The path is this process's own, and the fault lets its write take effect. */
  predicate Appears(w: World, path: Path) { !w.fault(path).BeforeRename? }

  /** An Exception, and no interrupt, is what a launched run has raised when the handler of the
      whole is reached: whichever step comes first to raise. An interrupt of a best-effort record
      takes the place of the Exception it was to record. */
  predicate HandlerReached(w: World) {
    match w.body
    case WorkersRaise(signal) => signal == Error
    case WorkersFinish(passed) =>
      if w.fault(Completion) != NoFault then w.fault(Completion).signal == Error
      else if passed && !w.prefinalVerified then true
      else if w.manifestRaises.Some? then w.manifestRaises == Some(Error)
      else if w.fault(FinalJson) != NoFault then w.fault(FinalWriteFailure) == NoFault || w.fault(FinalWriteFailure).signal == Error
      else if w.verificationRaises.Some? then w.verificationRaises == Some(Error)
      else !CleanDirectory(w) && (w.fault(FinalVerificationFailure) == NoFault || w.fault(FinalVerificationFailure).signal == Error)
  }

  /** A refusal before launch that is recorded: the configuration does not load, or after the
      provenance is on record, blockers or no usable device. */
  predicate RefusalRecorded(w: World) {
    && w.fault(Invocation) == NoFault
    && (|| !w.configLoads
        || (w.provenanceCollected && w.fault(Provenance) == NoFault && !w.overridesGiven && (w.blockers || !w.deviceUsable)))
  }

  /** The preflight record is due: nothing before it refused or failed. */
  predicate PreflightDue(w: World) {
    && w.fault(Invocation) == NoFault && w.configLoads && w.provenanceCollected && w.fault(Provenance) == NoFault
    && !w.overridesGiven && !w.blockers && w.deviceUsable
  }

  /** Which paths exist when the command is over, told from the world alone. */
  predicate Leaves(w: World, path: Path) {
    match path
    case Invocation => Appears(w, Invocation)
    case Provenance => Appears(w, Provenance) && w.fault(Invocation) == NoFault && w.configLoads && w.provenanceCollected
    case Preflight => Appears(w, Preflight) && PreflightDue(w)
    case Failure => Appears(w, Failure) && (if ReachesCoordinator(w) then HandlerReached(w) else RefusalRecorded(w))
    case Completion => ReachesCoordinator(w) && ((w.body.WorkersFinish? && Appears(w, Completion)) || !w.fallbackFault.BeforeRename?)
    case FinalJson => ReachesFinal(w) && Appears(w, FinalJson)
    case FinalWriteFailure => ReachesFinal(w) && w.fault(FinalJson) != NoFault && Appears(w, FinalWriteFailure)
    case FinalVerificationFailure =>
      ReachesFinal(w) && w.fault(FinalJson) == NoFault && w.verificationRaises.None? && !CleanDirectory(w)
      && Appears(w, FinalVerificationFailure)
    case _ => ReachesCoordinator(w) && (path in w.workerFiles || (ReachesFinal(w) && path in w.interference))
  }

  /** What a file of others holds when the command is over. */
  function TheirContent(w: World, path: Path): Content
    requires path in w.workerFiles || path in w.interference
  {
    if path in w.interference && (ReachesFinal(w) || path !in w.workerFiles) then w.interference[path] else w.workerFiles[path]
  }

  /** A run leaves exactly those files: this process's own, but for `final.json`, with the content
      they were to have, the others' as they were last written. */
  lemma RunLeaves(w: World, path: Path)
    requires Sane(w)
    ensures path in Run(w).disk.files <==> Leaves(w, path)
    ensures path in Run(w).disk.files && !WorkerOwned(path) && path != FinalJson ==> Run(w).disk.files[path] == w.content(path)
    ensures path in Run(w).disk.files && WorkerOwned(path) ==>
              (path in w.workerFiles || path in w.interference) && Run(w).disk.files[path] == TheirContent(w, path)
  {
    PreparedLeaves(w, path);
    PreparedDirectory(w);
    if ReachesCoordinator(w) {
      CoordinatorLeaves(w, path);
      CoordinatorLeaves(w, Completion);
    }
    hide Calibrate, Prepare, Sane, CleanDirectory, HandlerReached, RefusalRecorded, PreflightDue, ReachesFinal, HoldsWorkerFiles;
  }

  lemma PreparedLeaves(w: World, path: Path)
    requires Sane(w)
    ensures var files := Prepare(w, Disk(map[], [])).disk.files;
            && (!ReachesCoordinator(w) ==> (path in files <==> Leaves(w, path)))
            && (ReachesCoordinator(w) ==> (path in files <==> path in [Invocation, Provenance, Preflight]))
            && (path in files ==> !WorkerOwned(path) && path != FinalJson && files[path] == w.content(path))
  {
    hide HandlerReached, CleanDirectory, Sane;
  }

  /** The directory when the workers are done. */
  lemma WorkedLeaves(w: World, path: Path)
    requires Sane(w) && ReachesCoordinator(w)
    ensures path in Worked(w).files <==> path in [Invocation, Provenance, Preflight] || path in w.workerFiles
    ensures path in Worked(w).files ==>
              Worked(w).files[path] == if path in w.workerFiles then w.workerFiles[path] else w.content(path)
  {
    PreparedLeaves(w, path);
    hide Prepare, ReachesCoordinator, Leaves;
  }

  lemma CompletedLeaves(w: World, path: Path)
    requires Sane(w) && ReachesCoordinator(w)
    ensures path in Completed(w).files <==>
              path in [Invocation, Provenance, Preflight] || path in w.workerFiles || (path == Completion && Appears(w, Completion))
    ensures path in Completed(w).files ==>
              Completed(w).files[path] == if path in w.workerFiles then w.workerFiles[path] else w.content(path)
    ensures Raises(Worked(w), Completion, w.fault(Completion)) ==
              if w.fault(Completion) == NoFault then None else Some(w.fault(Completion).signal)
  {
    WorkedLeaves(w, path);
    WorkedLeaves(w, Completion);
    hide Worked, ReachesCoordinator;
  }

  /** A tail that stops before `final.json`. */
  lemma FinishBeforeFinal(w: World)
    requires Sane(w) && ReachesCoordinator(w) && w.body.WorkersFinish? && !ReachesFinal(w)
    ensures Finish(w, Worked(w)).disk == Completed(w)
    ensures Finish(w, Worked(w)).result == Raised(Error) <==> HandlerReached(w)
  {
    CompletedLeaves(w, Completion);
    hide Worked, ReachesCoordinator, WithFinal, Accepted, CleanDirectory, Record;
  }

  lemma FinalLeaves(w: World, path: Path)
    requires Sane(w) && ReachesFinal(w)
    ensures path in Final(w).files <==> path in Completed(w).files || path in w.interference || (path == FinalJson && Appears(w, FinalJson))
    ensures path in Final(w).files && path != FinalJson ==>
              Final(w).files[path] == if path in w.interference then w.interference[path] else Completed(w).files[path]
    ensures Raises(Completed(w), FinalJson, w.fault(FinalJson)) ==
              if w.fault(FinalJson) == NoFault then None else Some(w.fault(FinalJson).signal)
  {
    CompletedLeaves(w, FinalJson);
    hide Completed, ReachesFinal;
  }

  lemma FinishAtFinal(w: World)
    requires Sane(w) && ReachesFinal(w)
    ensures Finish(w, Worked(w)) ==
              if w.fault(FinalJson) != NoFault then RecordAndRaise(w, Final(w), FinalWriteFailure)
              else if w.verificationRaises.Some? then Outcome(Final(w), Raised(w.verificationRaises.value))
              else if !CleanDirectory(w) then RecordAndRaise(w, Final(w), FinalVerificationFailure)
              else Outcome(Final(w), Returned(w.body.overallPassed))
  {
    CompletedLeaves(w, Completion);
    FinalLeaves(w, FinalJson);
    if FinalAppears(w) {
      FinishWithFinal(w);
    }
    hide Sane, CleanDirectory, Accepted, WithFinal, RecordAndRaise, Worked, ReachesCoordinator, Record;
  }

  lemma RecordLeaves(w: World, d: Disk, record: Path, path: Path)
    requires record !in d.files
    ensures var o := RecordAndRaise(w, d, record);
            && (path in o.disk.files <==> path in d.files || (path == record && Appears(w, record)))
            && (path in o.disk.files ==> o.disk.files[path] == if path in d.files then d.files[path] else w.content(record))
            && (o.result == Raised(Error) <==> w.fault(record) == NoFault || w.fault(record).signal == Error)
  {
  }

  /** The tail, file by file; and whether what it raises is for the handler. */
  lemma FinishLeaves(w: World, path: Path)
    requires Sane(w) && ReachesCoordinator(w) && w.body.WorkersFinish?
    ensures var o := Finish(w, Worked(w));
            && (path in o.disk.files <==>
                 if path == Failure then false
                 else if path == Completion then Appears(w, Completion) else Leaves(w, path))
            && (o.result == Raised(Error) <==> HandlerReached(w))
            && (path in o.disk.files && !WorkerOwned(path) && path != FinalJson ==> o.disk.files[path] == w.content(path))
            && (path in o.disk.files && WorkerOwned(path) ==>
                 (path in w.workerFiles || path in w.interference) && o.disk.files[path] == TheirContent(w, path))
  {
    hide Sane, Finish, Completed, Worked, Final, RecordAndRaise, CleanDirectory, ReachesCoordinator;
    CompletedLeaves(w, path);
    TheirsAreOthers(w, path);
    LaunchRecordsLeft(w, path);
    if ReachesFinal(w) {
      FinalLeaves(w, path);
      FinalLeaves(w, FinalWriteFailure);
      FinalLeaves(w, FinalVerificationFailure);
      CompletedLeaves(w, FinalWriteFailure);
      CompletedLeaves(w, FinalVerificationFailure);
      TheirsAreOthers(w, FinalWriteFailure);
      TheirsAreOthers(w, FinalVerificationFailure);
      FinishAtFinal(w);
      RecordLeaves(w, Final(w), FinalWriteFailure, path);
      RecordLeaves(w, Final(w), FinalVerificationFailure, path);
    } else {
      FinishBeforeFinal(w);
    }
  }

  lemma TheirsAreOthers(w: World, path: Path)
    requires Sane(w)
    ensures path in w.workerFiles || path in w.interference ==> WorkerOwned(path)
  {
  }

  lemma CoordinatorLeaves(w: World, path: Path)
    requires Sane(w) && ReachesCoordinator(w)
    ensures var files := Calibrate(w, Prepare(w, Disk(map[], [])).disk).disk.files;
            && (path in files <==> if path == Completion then w.body.WorkersFinish? && Appears(w, Completion) else Leaves(w, path))
            && (path in files && !WorkerOwned(path) && path != FinalJson ==> files[path] == w.content(path))
            && (path in files && WorkerOwned(path) ==>
                 (path in w.workerFiles || path in w.interference) && files[path] == TheirContent(w, path))
  {
    hide Sane, Prepare, Finish, CleanDirectory, ReachesCoordinator, ReachesFinal;
    WorkedLeaves(w, path);
    WorkedLeaves(w, Failure);
    TheirsAreOthers(w, path);
    TheirsAreOthers(w, Failure);
    if w.body.WorkersFinish? {
      FinishLeaves(w, path);
      FinishLeaves(w, Failure);
    } else {
      NothingFinal(w);
    }
    LaunchRecordsLeft(w, path);
  }

  lemma LaunchRecordsLeft(w: World, path: Path)
    requires ReachesCoordinator(w)
    ensures path in [Invocation, Provenance, Preflight] ==> Leaves(w, path) && !WorkerOwned(path)
    ensures Leaves(w, Failure) <==> Appears(w, Failure) && HandlerReached(w)
  {
  }

  lemma NothingFinal(w: World)
    requires w.body.WorkersRaise?
    ensures !ReachesFinal(w)
  {
  }

  /** A run that raised, without a failure record, over a directory the verifier accepts. */
  ghost predicate RaisedYetAccepted(w: World)
    requires Sane(w)
  {
    Run(w).result == Exception && Accepted(w.measure, Run(w).disk.files) && !HasFailureRecord(Run(w).disk.files)
  }

  /** Such runs exist, whatever the hash and the listing order: `lost` has faulty writes only; no
      write fails in `interrupted`, whose verification is cut short, nor in `unreported`, whose
      report cannot be printed. */
  lemma SilentlyCompleteRun(measure: Measure, listing: Directory -> seq<Path>) returns (lost: World, interrupted: World, unreported: World)
    requires CollisionFree(measure) && forall d :: Lists(listing(d), d)
    ensures lost.measure == interrupted.measure == unreported.measure == measure
    ensures lost.listing == interrupted.listing == unreported.listing == listing
    ensures Sane(lost) && lost.verificationRaises.None? && lost.reportRaises.None? && RaisedYetAccepted(lost)
    ensures Sane(interrupted) && (forall p :: interrupted.fault(p) == NoFault) && interrupted.reportRaises.None? && RaisedYetAccepted(interrupted)
    ensures Sane(unreported) && (forall p :: unreported.fault(p) == NoFault) && unreported.verificationRaises.None? && RaisedYetAccepted(unreported)
  {
    var fault := (p: Path) => match p
                               case FinalJson => AfterRename(Error)
                               case FinalWriteFailure => BeforeRename(Error)
                               case Failure => BeforeRename(Error)
                               case _ => NoFault;
    lost := Uneventful(fault, None, None, listing, measure);
    interrupted := Uneventful(_ => NoFault, Some(Interrupt), None, listing, measure);
    unreported := Uneventful(_ => NoFault, None, Some(Error), listing, measure);
    UneventfulReachesFinal(lost);
    UneventfulReachesFinal(interrupted);
    UneventfulReachesFinal(unreported);
    hide RaisedYetAccepted, Sane, ReachesFinal, CleanDirectory;
    SilentRunsLookComplete(lost);
    SilentRunsLookComplete(interrupted);
    SilentRunsLookComplete(unreported);
  }

  /** A world in which all else goes well. */
  function Uneventful(fault: Path -> Fault, verificationRaises: Option<Signal>, reportRaises: Option<Signal>,
                      listing: Directory -> seq<Path>, measure: Measure): World {
    World(fault, NoFault, true, true, false, false, true, map[], WorkersFinish(true), true, None, verificationRaises, reportRaises, map[],
          (p: Path) => Data([]), listing, measure)
  }

  lemma UneventfulReachesFinal(w: World)
    requires CollisionFree(w.measure) && forall d :: Lists(w.listing(d), d)
    requires w == Uneventful(w.fault, w.verificationRaises, w.reportRaises, w.listing, w.measure)
    requires forall p :: p in [Invocation, Provenance, Preflight, Completion] ==> w.fault(p) == NoFault
    ensures Sane(w) && ReachesFinal(w) && CleanDirectory(w)
  {
    hide CollisionFree, Lists;
    assert Invocation in [Invocation, Provenance, Preflight, Completion];
  }

  /** Every silently complete run that reaches `final.json` over a clean directory is such a one. */
  lemma SilentRunsLookComplete(w: World)
    requires Sane(w) && ReachesFinal(w) && CleanDirectory(w) && SilentlyComplete(w)
    ensures RaisedYetAccepted(w)
  {
    AcceptedIff(w);
    NormalReturn(w);
    RunWithFinal(w);
    CondemnedDirectory(w);
    hide Run, Accepted, Sane, CleanDirectory, ReachesFinal;
  }
}
