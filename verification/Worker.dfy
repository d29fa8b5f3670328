/** The worker: ordered writes into its version directory, the summary last, killed at any moment. */
module Worker {
  import opened Base
  import opened Json
  import opened Publication

  datatype Write = Write(path: JsString, bytes: Bytes)

  /** What the worker's stages come to. `writes` are the files the evaluation writes, in order. */
  datatype Evaluation =
    | NotAdmitted(reasons: Json)
    | BadSigningKey
    | Failed(writes: seq<Write>, reasonCode: JsString)
    | Evaluated(
        writes: seq<Write>,
        signedReceipt: Option<Bytes>,
        artifactRoot: JsString,
        disposition: JsString,
        reasonCodes: Json,
        evaluationDigest: JsString)

  const REASON_CODE_KEY: JsString := Ascii("reasonCode")
  const REASONS_KEY: JsString := Ascii("reasons")
  const REASON_CODES_KEY: JsString := Ascii("reasonCodes")
  const DIGEST_KEY: JsString := Ascii("evaluationDigest")
  const NOT_ADMITTED: JsString := Ascii("NOT_ADMITTED")
  const SIGNATURE_INVALID: JsString := Ascii("SIGNATURE_INVALID")

  type Files = map<JsString, FileNode>

  function Put(files: Files, w: Write): Files {
    files[w.path := File(w.bytes)]
  }

  function Apply(files: Files, writes: seq<Write>): Files {
    if writes == [] then files else Put(Apply(files, writes[..|writes| - 1]), writes[|writes| - 1])
  }

  /** The files written before the summary. */
  function BodyWrites(e: Evaluation): seq<Write> {
    match e
    case NotAdmitted(_) => []
    case BadSigningKey => []
    case Failed(writes, _) => writes
    case Evaluated(writes, signed, _, _, _, _) =>
      writes + if signed.Some? then [Write(RECEIPT_FILE, signed.value)] else []
  }

  /** Every bundle member is a file that can be read back. */
  predicate BundleReadable(files: Files, artifactRoot: JsString) {
    forall name :: name in Required(artifactRoot) ==> name in files && files[name].File?
  }

  /** The digests of the bundle members as they are on disk. */
  function Bundle(hash: Hash, files: Files, artifactRoot: JsString): map<JsString, Json>
    requires BundleReadable(files, artifactRoot)
  {
    map name | name in Required(artifactRoot) :: Str(hash(files[name].bytes))
  }

  /** The summary the worker writes; None where reading back a bundle member throws. */
  function SummaryOf(hash: Hash, e: Evaluation, files: Files): Option<Json> {
    match e
    case NotAdmitted(reasons) =>
      Some(Obj(map[OK_KEY := Bool(false), REASON_CODE_KEY := Str(NOT_ADMITTED), REASONS_KEY := reasons]))
    case BadSigningKey => Some(Obj(map[OK_KEY := Bool(false), REASON_CODE_KEY := Str(SIGNATURE_INVALID)]))
    case Failed(_, code) => Some(Obj(map[OK_KEY := Bool(false), REASON_CODE_KEY := Str(code)]))
    case Evaluated(_, _, root, disposition, reasonCodes, digest) =>
      if !BundleReadable(files, root) then None
      else Some(Obj(map[OK_KEY := Bool(true), DISPOSITION_KEY := Str(disposition), REASON_CODES_KEY := reasonCodes,
                        DIGEST_KEY := Str(digest), BUNDLE_KEY := Obj(Bundle(hash, files, root))]))
  }

  /** No stage before the last writes the summary file. */
  ghost predicate LeavesSummaryAlone(writes: seq<Write>) {
    forall k :: 0 <= k < |writes| ==> writes[k].path != SUMMARY_FILE
  }

  lemma {:induction false} BodyHasNoSummary(files: Files, writes: seq<Write>)
    requires SUMMARY_FILE !in files && LeavesSummaryAlone(writes)
    ensures SUMMARY_FILE !in Apply(files, writes)
  {
    if writes != [] {
      var last := |writes| - 1;
      assert forall k :: 0 <= k < last ==> writes[..last][k] == writes[k];
      BodyHasNoSummary(files, writes[..last]);
    }
  }

  ghost predicate NulFreeWrites(writes: seq<Write>) {
    forall k :: 0 <= k < |writes| ==> 0 !in writes[k].path
  }

  lemma SummaryFileHasNoNul()
    ensures 0 !in SUMMARY_FILE && 0 !in CONTRACT_FILE && SUMMARY_FILE != CONTRACT_FILE
  {
    assert |SUMMARY_FILE| == 22 && |CONTRACT_FILE| == 18;
  }

  /** The top-level script, killed after `steps` writes if it gets that far. */
  method EvaluateInStaging(hash: Hash, stringify: Json -> Bytes, e: Evaluation, start: Files, steps: nat)
    returns (files: Files, completed: bool)
    requires SUMMARY_FILE !in start && LeavesSummaryAlone(BodyWrites(e))
    requires NoNulPaths(start) && NulFreeWrites(BodyWrites(e))
    ensures NoNulPaths(files)
    ensures completed <==> steps > |BodyWrites(e)| && SummaryOf(hash, e, Apply(start, BodyWrites(e))).Some?
    ensures !completed ==> SUMMARY_FILE !in files
    ensures completed ==>
      files == Put(Apply(start, BodyWrites(e)),
                   Write(SUMMARY_FILE, stringify(SummaryOf(hash, e, Apply(start, BodyWrites(e))).value)))
  {
    var writes := BodyWrites(e);
    hide BodyWrites, SummaryOf;
    files := start;
    for k := 0 to |writes|
      invariant k <= steps && files == Apply(start, writes[..k]) && SUMMARY_FILE !in files && NoNulPaths(files)
    {
      if k == steps { return files, false; }
      assert writes[..k + 1][..k] == writes[..k];
      files := Put(files, writes[k]);
    }
    assert writes[..|writes|] == writes;
    if |writes| == steps { return files, false; }
    var summary := SummaryOf(hash, e, files);
    if summary.None? { return files, false; }
    SummaryFileHasNoNul();
    return Put(files, Write(SUMMARY_FILE, stringify(summary.value))), true;
  }

  // ---------- worker and supervisor together ----------

  lemma KeysDiffer()
    ensures OK_KEY != DISPOSITION_KEY && OK_KEY != BUNDLE_KEY && OK_KEY != REASON_CODE_KEY && OK_KEY != REASON_CODES_KEY
    ensures OK_KEY != REASONS_KEY
    ensures DISPOSITION_KEY != BUNDLE_KEY && DISPOSITION_KEY != REASON_CODES_KEY && DISPOSITION_KEY != DIGEST_KEY
    ensures BUNDLE_KEY != REASON_CODES_KEY && BUNDLE_KEY != DIGEST_KEY && OK_KEY != DIGEST_KEY
  {
    assert |OK_KEY| == 2 && |DISPOSITION_KEY| == 11 && |BUNDLE_KEY| == 6 && |REASON_CODE_KEY| == 10;
    assert |REASONS_KEY| == 7 && |REASON_CODES_KEY| == 11 && |DIGEST_KEY| == 16;
    assert DISPOSITION_KEY[0] == 0x64 && REASON_CODES_KEY[0] == 0x72;
  }

  /** A refusing worker is never published. */
  lemma RefusingSummaryIsNotAuthoritative(r: Readers, contract: Bytes, body: Files, files: Files, e: Evaluation)
    requires !e.Evaluated?
    ensures SummaryOf(r.hash, e, body).Some?
    ensures !Authoritative(r, contract, files, SummaryOf(r.hash, e, body).value)
  {
    KeysDiffer();
    hide OK_KEY, REASON_CODE_KEY, REASONS_KEY;
  }

  /**
   An honest worker that finished in time is published: its summary names exactly the required members with the
   digests they have on disk, provided the receipt it leaves is one for the contract, with the disposition it reports.
   */
  lemma HonestWorkerIsPublished(r: Readers, stringify: Json -> Bytes, contract: Bytes, e: Evaluation, start: Files,
      run: WorkerRun, clock: Clock, hardMs: int)
    requires e.Evaluated? && SUMMARY_FILE !in start && LeavesSummaryAlone(BodyWrites(e))
    requires var body := Apply(start, BodyWrites(e));
      && SummaryOf(r.hash, e, body).Some?
      && run.files == Put(body, Write(SUMMARY_FILE, stringify(SummaryOf(r.hash, e, body).value)))
      && r.parse(stringify(SummaryOf(r.hash, e, body).value)) == SummaryOf(r.hash, e, body)
    requires run.status == Some(0) && !run.timedOut && !run.killed
    requires clock.beforeWorker < hardMs && clock.beforePublish < hardMs && clock.afterPublish < hardMs
    requires r.artifactRoot(contract) == Some(e.artifactRoot)
    requires RECEIPT_FILE in run.files && run.files[RECEIPT_FILE].File?
    requires r.receipt(contract, run.files[RECEIPT_FILE].bytes) == Some(ReceiptView(e.artifactRoot, e.disposition))
    ensures Publishable(r, contract, run, clock, hardMs, false)
  {
    var body := Apply(start, BodyWrites(e));
    BodyHasNoSummary(start, BodyWrites(e));
    hide BodyWrites, Apply;
    EvaluatedIsAuthoritative(r, contract, e, body, run.files);
    hide Authoritative, SummaryOf;
  }

  lemma EvaluatedIsAuthoritative(r: Readers, contract: Bytes, e: Evaluation, body: Files, files: Files)
    requires e.Evaluated? && SUMMARY_FILE !in body && SummaryOf(r.hash, e, body).Some?
    requires exists bytes :: files == Put(body, Write(SUMMARY_FILE, bytes))
    requires r.artifactRoot(contract) == Some(e.artifactRoot)
    requires RECEIPT_FILE in files && files[RECEIPT_FILE].File?
    requires r.receipt(contract, files[RECEIPT_FILE].bytes) == Some(ReceiptView(e.artifactRoot, e.disposition))
    ensures Authoritative(r, contract, files, SummaryOf(r.hash, e, body).value)
  {
    KeysDiffer();
    SummaryIsNotABundleMember(e.artifactRoot);
    hide OK_KEY, DISPOSITION_KEY, BUNDLE_KEY, REASON_CODE_KEY, REASON_CODES_KEY, DIGEST_KEY, Required, SUMMARY_FILE;
    var summary := SummaryOf(r.hash, e, body).value;
    var bundle := Bundle(r.hash, body, e.artifactRoot);
    assert MemberOf(summary, BUNDLE_KEY) == Obj(bundle);
    assert bundle.Keys == Required(e.artifactRoot);
    assert ManifestHolds(r.hash, files, bundle);
  }

  /**
   How the process ends once it has written what it writes: it exits, it crashes with a status of its own, or it is
   killed, by the deadline or from outside, which leaves no status.
   */
  datatype ProcessEnding = Exits | Fails(status: int) | Killed(byDeadline: bool)

  /** What the supervisor sees of it. A script that did not get to its summary did not exit with zero. */
  function EndedRun(files: Files, summarized: bool, ending: ProcessEnding): WorkerRun {
    match ending
    case Exits => WorkerRun(files, false, false, Some(if summarized then 0 else 1))
    case Fails(status) => WorkerRun(files, false, false, Some(if status == 0 then 1 else status))
    case Killed(byDeadline) => WorkerRun(files, byDeadline, true, None)
  }

  /** The summary of a worker that starts with the contract alone. */
  function WrittenSummary(hash: Hash, contract: Bytes, e: Evaluation): Option<Json> {
    SummaryOf(hash, e, Apply(map[CONTRACT_FILE := File(contract)], BodyWrites(e)))
  }

  /** The one summary that is written, if one is, is read back as it was. */
  predicate SummaryReadsBack(r: Readers, stringify: Json -> Bytes, contract: Bytes, e: Evaluation) {
    var summary := WrittenSummary(r.hash, contract, e);
    summary.Some? ==> r.parse(stringify(summary.value)) == summary
  }

  /** What an honest run needs to be published, besides completing. */
  ghost predicate Presentable(r: Readers, stringify: Json -> Bytes, contract: Bytes, e: Evaluation, files: Files,
      clock: Clock, hardMs: int)
  {
    && e.Evaluated?
    && clock.beforeWorker < hardMs && clock.beforePublish < hardMs && clock.afterPublish < hardMs
    && r.artifactRoot(contract) == Some(e.artifactRoot)
    && RECEIPT_FILE in files && files[RECEIPT_FILE].File?
    && r.receipt(contract, files[RECEIPT_FILE].bytes) == Some(ReceiptView(e.artifactRoot, e.disposition))
    && SummaryReadsBack(r, stringify, contract, e)
  }

  /**
   The worker under its supervisor. Killed or crashed at any of its writes, or killed after the last of them and before
   it exits, it is aborted before `current` is flipped; having exited in time with a receipt for the contract, it is
   published; having refused, it never is.
   */
  method SuperviseWorker(dir: OutputDir, r: Readers, stringify: Json -> Bytes, contract: Bytes, token: JsString,
      e: Evaluation, steps: nat, ending: ProcessEnding, clock: Clock, hardMs: int, linkFails: bool)
    returns (o: Outcome, files: Files, summarized: bool)
    requires LeavesSummaryAlone(BodyWrites(e)) && NulFreeWrites(BodyWrites(e))
    requires r.artifactRoot(contract).Some? ==> 0 !in r.artifactRoot(contract).value
    requires ListsBundles(r)
    requires VersionName(token) !in dir.entries && PendingName(token) !in dir.entries
    modifies dir
    ensures o.Busy? <==> LOCK in old(dir.entries)
    ensures !o.Busy? && !(summarized && ending.Exits?) ==>
      && o.Aborted? && dir.entries == AfterAbort(old(dir.entries), dir.listable, token, false)
      && (Clean(dir.entries) <==> dir.listable || Clean(old(dir.entries)))
    ensures o.Published? ==>
      summarized && ending.Exits? && Current(old(dir.entries), dir.entries, dir.listable, token, files)
    ensures !o.Busy? && summarized && ending.Exits? && !linkFails ==>
      (Presentable(r, stringify, contract, e, files, clock, hardMs) ==> o.Published?)
    ensures !e.Evaluated? && SummaryReadsBack(r, stringify, contract, e) ==> !o.Published?
  {
    var start := map[CONTRACT_FILE := File(contract)];
    SummaryFileHasNoNul();
    BodyHasNoSummary(start, BodyWrites(e));
    ghost var body := Apply(start, BodyWrites(e));
    hide Apply, Authoritative, BodyWrites, Current, Crashes, LeavesSummaryAlone, NulFreeWrites, PendingName, Presentable,
      VersionName, AfterAbort, Clean, ListsBundles;
    assert NoNulPaths(start);
    files, summarized := EvaluateInStaging(r.hash, stringify, e, start, steps);
    var run := EndedRun(files, summarized, ending);
    if summarized && ending.Exits? && Presentable(r, stringify, contract, e, files, clock, hardMs) {
      PresentableIsPublishable(r, stringify, contract, e, start, run, clock, hardMs);
    }
    if summarized && !e.Evaluated? {
      RefusingSummaryIsNotAuthoritative(r, contract, body, files, e);
    }
    o := dir.Supervise(r, contract, token, run, clock, hardMs, linkFails);
  }

  lemma PresentableIsPublishable(r: Readers, stringify: Json -> Bytes, contract: Bytes, e: Evaluation, start: Files,
      run: WorkerRun, clock: Clock, hardMs: int)
    requires start == map[CONTRACT_FILE := File(contract)] && SUMMARY_FILE !in start
    requires LeavesSummaryAlone(BodyWrites(e))
    requires Presentable(r, stringify, contract, e, run.files, clock, hardMs)
    requires var body := Apply(start, BodyWrites(e));
      && SummaryOf(r.hash, e, body).Some?
      && run.files == Put(body, Write(SUMMARY_FILE, stringify(SummaryOf(r.hash, e, body).value)))
    requires run.status == Some(0) && !run.timedOut && !run.killed
    ensures Publishable(r, contract, run, clock, hardMs, false)
  {
    hide Publishable, SummaryOf, BodyWrites, Apply, Put;
    HonestWorkerIsPublished(r, stringify, contract, e, start, run, clock, hardMs);
  }
}
