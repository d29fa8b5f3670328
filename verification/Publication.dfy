/** The supervisor: run the worker under a deadline, then publish its version or leave nothing behind. */
module Publication {
  import opened Base
  import opened Ordering
  import opened Json

  // ---------- the output directory ----------

  datatype FileNode = File(bytes: Bytes) | Folder

  /** An entry of the output directory; a version directory holds its files by relative path. */
  datatype Node = Version(files: map<JsString, FileNode>) | Link(target: JsString) | Other

  const VERSION_PREFIX: JsString := Ascii(".v-")
  const PENDING_PREFIX: JsString := Ascii(".current-")
  const CURRENT: JsString := Ascii("current")
  const LOCK: JsString := Ascii(".promotion-lock")
  const CONTRACT_FILE: JsString := Ascii("work-contract.json")
  const SUMMARY_FILE: JsString := Ascii("supervised-result.json")
  const RECEIPT_FILE: JsString := Ascii("receipt.json")
  const PLAN_FILE: JsString := Ascii("plan.json")
  const INDEX_SUFFIX: JsString := Ascii("/evidence/index.json")

  predicate StartsWith(s: JsString, prefix: JsString) {
    |prefix| <= |s| && s[..|prefix|] == prefix
  }

  /** The names a purge removes. */
  predicate Doomed(name: JsString) {
    StartsWith(name, VERSION_PREFIX) || StartsWith(name, PENDING_PREFIX) || name == CURRENT
  }

  /** No version, no pending link, no `current`. */
  ghost predicate Clean(entries: map<JsString, Node>) {
    forall name :: name in entries ==> !Doomed(name)
  }

  function VersionName(token: JsString): JsString { VERSION_PREFIX + token }

  function PendingName(token: JsString): JsString { PENDING_PREFIX + token }

  lemma NamesAreDoomed(token: JsString)
    ensures Doomed(VersionName(token)) && Doomed(PendingName(token)) && Doomed(CURRENT) && !Doomed(LOCK)
    ensures VersionName(token) != CURRENT && PendingName(token) != CURRENT && VersionName(token) != PendingName(token)
    ensures VersionName(token) != LOCK && PendingName(token) != LOCK && CURRENT != LOCK
  {
    assert VersionName(token)[..3] == VERSION_PREFIX && PendingName(token)[..9] == PENDING_PREFIX;
    assert VersionName(token)[1] == 0x76 && PendingName(token)[1] == 0x63 && LOCK[1] == 0x70;
    assert CURRENT[0] == 0x63 && VersionName(token)[0] == 0x2E && PendingName(token)[0] == 0x2E && LOCK[0] == 0x2E;
    assert LOCK[..3][1] != VERSION_PREFIX[1] && LOCK[..9][1] != PENDING_PREFIX[1];
  }

  // ---------- what the worker leaves ----------

  /** A worker's whole effect: the files of its version directory and how the process ended. */
  datatype WorkerRun = WorkerRun(
    files: map<JsString, FileNode>,
    timedOut: bool,
    killed: bool,
    status: Option<int>)

  /** What the supervisor reads off a clock: before the worker, after it, before and after publication. */
  datatype Clock = Clock(beforeWorker: int, afterWorker: int, beforePublish: int, afterPublish: int)

  /** What a receipt says to the supervisor. */
  datatype ReceiptView = ReceiptView(artifactRoot: JsString, disposition: JsString)

  /**
   The parsers: JSON, the order in which a summary's text lists its bundle, a receipt under the contract that selects
   its version, and a contract's artifact root.
   */
  datatype Readers = Readers(
    parse: Bytes -> Option<Json>,
    order: Bytes -> seq<JsString>,
    receipt: (Bytes, Bytes) -> Option<ReceiptView>,
    artifactRoot: Bytes -> Option<JsString>,
    hash: Hash)

  const OK_KEY: JsString := Ascii("ok")
  const DISPOSITION_KEY: JsString := Ascii("disposition")
  const BUNDLE_KEY: JsString := Ascii("bundle")

  /** `root.replace(/\/+$/, "")` */
  function WithoutTrailingSlashes(root: JsString): JsString {
    if root != [] && root[|root| - 1] == SLASH then WithoutTrailingSlashes(root[..|root| - 1]) else root
  }

  function IndexPath(artifactRoot: JsString): JsString {
    WithoutTrailingSlashes(artifactRoot) + INDEX_SUFFIX
  }

  /** The members every published bundle must have. */
  function Required(artifactRoot: JsString): set<JsString> {
    {RECEIPT_FILE, PLAN_FILE, IndexPath(artifactRoot)}
  }

  /** `names.join("\0")`. */
  function JoinNul(names: seq<JsString>): JsString {
    if names == [] then []
    else if |names| == 1 then names[0]
    else names[0] + [0] + JoinNul(names[1..])
  }

  ghost predicate NulFree(names: seq<JsString>) {
    forall k :: 0 <= k < |names| ==> 0 !in names[k]
  }

  lemma FirstNul(a: JsString, x: JsString)
    requires 0 !in a
    ensures var l := a + [0] + x;
            l[|a|] == 0 && (forall k :: 0 <= k < |a| ==> l[k] != 0) && l[..|a|] == a && l[|a| + 1..] == x
  {
    forall k | 0 <= k < |a| ensures a[k] != 0 { assert a[k] in a; }
  }

  lemma SplitAtNul(a: JsString, x: JsString, b: JsString, y: JsString)
    requires 0 !in a && 0 !in b && a + [0] + x == b + [0] + y
    ensures a == b && x == y
  {
    FirstNul(a, x);
    FirstNul(b, y);
    assert |a| == |b|;
  }

  lemma NoNulInside(a: JsString, b: JsString, y: JsString)
    requires 0 !in a
    ensures a != b + [0] + y
  {
    assert (b + [0] + y)[|b|] == 0;
    assert 0 in b + [0] + y;
  }

  /** Joined by NUL, nonempty lists without NUL compare as the lists do. */
  lemma {:induction false} JoinNulIsInjective(xs: seq<JsString>, ys: seq<JsString>)
    requires NulFree(xs) && NulFree(ys) && xs != [] && ys != [] && JoinNul(xs) == JoinNul(ys)
    ensures xs == ys
  {
    assert 0 !in xs[0] && 0 !in ys[0];
    if |xs| == 1 || |ys| == 1 {
      if |ys| > 1 { NoNulInside(xs[0], ys[0], JoinNul(ys[1..])); }
      if |xs| > 1 { NoNulInside(ys[0], xs[0], JoinNul(xs[1..])); }
    } else {
      SplitAtNul(xs[0], JoinNul(xs[1..]), ys[0], JoinNul(ys[1..]));
      JoinNulIsInjective(xs[1..], ys[1..]);
    }
    assert xs == [xs[0]] + xs[1..] && ys == [ys[0]] + ys[1..];
  }

  /** With a NUL inside a name, different lists can be joined to the same text. */
  lemma JoinedNamesCanCollide()
    ensures JoinNul([[0x61, 0, 0x62]]) == JoinNul([[0x61], [0x62]])
  {
    assert [[0x61], [0x62]][1..] == [[0x62]];
  }

  // ---------- what is published ----------

  /** A member is a file with the digest the manifest gives it. */
  ghost predicate MemberHolds(hash: Hash, files: map<JsString, FileNode>, bundle: map<JsString, Json>, name: JsString) {
    name in bundle && name in files && files[name].File? && bundle[name] == Str(hash(files[name].bytes))
  }

  ghost predicate ManifestHolds(hash: Hash, files: map<JsString, FileNode>, bundle: map<JsString, Json>) {
    forall name :: name in bundle ==> MemberHolds(hash, files, bundle, name)
  }

  /** The summary reports success, and the receipt is one for the contract with the disposition it reports. */
  ghost predicate Bound(r: Readers, contract: Bytes, files: map<JsString, FileNode>, summary: Json) {
    && MemberOf(summary, OK_KEY) == Bool(true)
    && RECEIPT_FILE in files && files[RECEIPT_FILE].File?
    && (var receipt, root := r.receipt(contract, files[RECEIPT_FILE].bytes), r.artifactRoot(contract);
        && receipt.Some? && root.Some?
        && receipt.value.artifactRoot == root.value
        && MemberOf(summary, DISPOSITION_KEY) == Str(receipt.value.disposition)
        && MemberOf(summary, BUNDLE_KEY).Obj?)
  }

  /** The version is bound to the contract and complete: what a publication promises its readers. */
  ghost predicate Authoritative(r: Readers, contract: Bytes, files: map<JsString, FileNode>, summary: Json) {
    && Bound(r, contract, files, summary)
    && MemberOf(summary, BUNDLE_KEY).members.Keys == Required(r.artifactRoot(contract).value)
    && ManifestHolds(r.hash, files, MemberOf(summary, BUNDLE_KEY).members)
  }

  /** In the order the manifest lists its members, a folder is met before any member that does not hold. */
  ghost predicate FolderComesFirst(hash: Hash, files: map<JsString, FileNode>, bundle: map<JsString, Json>,
      names: seq<JsString>)
  {
    exists k ::
      && 0 <= k < |names| && names[k] in files && files[names[k]].Folder?
      && forall j :: 0 <= j < k ==> MemberHolds(hash, files, bundle, names[j])
  }

  /** Reviewing the version throws: its summary is `null`, or a folder is read as a file. */
  ghost predicate Crashes(r: Readers, contract: Bytes, files: map<JsString, FileNode>, summary: Json,
      names: seq<JsString>)
  {
    || summary.Null?
    || (Bound(r, contract, files, summary)
        && JoinNul(Sorted(MemberOf(summary, BUNDLE_KEY).members.Keys))
           == JoinNul(Sorted(Required(r.artifactRoot(contract).value)))
        && FolderComesFirst(r.hash, files, MemberOf(summary, BUNDLE_KEY).members, names))
  }

  datatype AbortReason = DeadlineExceeded | InfrastructureFailure | ReportedByWorker

  /** What `evaluateSupervised` comes to; `Threw` is an exception that leaves it. */
  datatype Outcome = Busy | Aborted(reason: AbortReason) | Threw | Published(summary: Json)

  /** The worker finished in time and wrote a summary that can be read. */
  ghost predicate Finished(r: Readers, run: WorkerRun, clock: Clock, hardMs: int) {
    && clock.beforeWorker < hardMs
    && !run.timedOut && !(run.killed && clock.afterWorker >= hardMs - 50)
    && run.status == Some(0)
    && SUMMARY_FILE in run.files && run.files[SUMMARY_FILE].File?
    && r.parse(run.files[SUMMARY_FILE].bytes).Some?
  }

  /** The run gets as far as flipping `current` onto its version. */
  ghost predicate ReachesPublication(r: Readers, contract: Bytes, run: WorkerRun, clock: Clock, hardMs: int,
      linkFails: bool)
  {
    && Finished(r, run, clock, hardMs)
    && Authoritative(r, contract, run.files, r.parse(run.files[SUMMARY_FILE].bytes).value)
    && clock.beforePublish < hardMs && !linkFails
  }

  /** Everything a publication needs. */
  ghost predicate Publishable(r: Readers, contract: Bytes, run: WorkerRun, clock: Clock, hardMs: int, linkFails: bool) {
    ReachesPublication(r, contract, run, clock, hardMs, linkFails) && clock.afterPublish < hardMs
  }

  /** An exception leaves the supervisor: the worker finished, and reviewing what it left throws. */
  ghost predicate Throws(r: Readers, contract: Bytes, run: WorkerRun, clock: Clock, hardMs: int) {
    && Finished(r, run, clock, hardMs)
    && (var bytes := run.files[SUMMARY_FILE].bytes;
        Crashes(r, contract, run.files, r.parse(bytes).value, r.order(bytes)))
  }

  /** The deadline stops the run: before the worker, during it, before publication, or right after it. */
  ghost predicate DeadlineStops(r: Readers, contract: Bytes, run: WorkerRun, clock: Clock, hardMs: int, linkFails: bool) {
    || clock.beforeWorker >= hardMs
    || run.timedOut || (run.killed && clock.afterWorker >= hardMs - 50)
    || (Finished(r, run, clock, hardMs)
        && Authoritative(r, contract, run.files, r.parse(run.files[SUMMARY_FILE].bytes).value)
        && (clock.beforePublish >= hardMs || (!linkFails && clock.afterPublish >= hardMs)))
  }

  /** The worker finished and said so itself: its summary does not report success. */
  ghost predicate WorkerRefuses(r: Readers, run: WorkerRun, clock: Clock, hardMs: int) {
    && Finished(r, run, clock, hardMs)
    && MemberOf(r.parse(run.files[SUMMARY_FILE].bytes).value, OK_KEY) != Bool(true)
  }

  /** Why a run is aborted: the deadline, the worker's own word, or else the infrastructure. */
  ghost predicate AbortsFor(reason: AbortReason, r: Readers, contract: Bytes, run: WorkerRun, clock: Clock, hardMs: int,
      linkFails: bool)
  {
    && (reason.DeadlineExceeded? <==> DeadlineStops(r, contract, run, clock, hardMs, linkFails))
    && (reason.ReportedByWorker? <==> WorkerRefuses(r, run, clock, hardMs))
  }

  ghost predicate Aborts(r: Readers, contract: Bytes, run: WorkerRun, clock: Clock, hardMs: int, linkFails: bool) {
    !Publishable(r, contract, run, clock, hardMs, linkFails) && !Throws(r, contract, run, clock, hardMs)
  }

  /** `Object.entries` of a parsed bundle goes through exactly its members. */
  ghost predicate ListsBundles(r: Readers) {
    forall bytes :: r.parse(bytes).Some? && MemberOf(r.parse(bytes).value, BUNDLE_KEY).Obj? ==>
      Elements(r.order(bytes)) == MemberOf(r.parse(bytes).value, BUNDLE_KEY).members.Keys
  }

  /** No name has a NUL: neither a file nor the artifact root that the contract's schema admits. */
  ghost predicate NulFreeNames(r: Readers, contract: Bytes, run: WorkerRun) {
    NoNulPaths(run.files) && (r.artifactRoot(contract).Some? ==> 0 !in r.artifactRoot(contract).value)
  }

  /** The verdict on a finished worker's files. */
  datatype Review = Sound | Unsound(reason: AbortReason) | Crash

  /** Paths have no NUL: the operating system has no such file. */
  ghost predicate NoNulPaths(files: map<JsString, FileNode>) {
    forall name :: name in files ==> 0 !in name
  }

  lemma ManifestNamesAreRequired(keys: set<JsString>, required: set<JsString>)
    requires required != {} && forall name :: name in required ==> name != [] && 0 !in name
    requires forall name :: name in keys ==> 0 !in name
    ensures JoinNul(Sorted(keys)) == JoinNul(Sorted(required)) <==> keys == required
  {
    SortedFacts(keys);
    SortedFacts(required);
    var xs, ys := Sorted(keys), Sorted(required);
    assert |ys| > 0;
    forall k | 0 <= k < |xs| ensures 0 !in xs[k] { assert xs[k] in Elements(xs); }
    forall k | 0 <= k < |ys| ensures ys[k] != [] && 0 !in ys[k] { assert ys[k] in Elements(ys); }
    JoinedNonempty(ys);
    if JoinNul(xs) == JoinNul(ys) && xs != [] { JoinNulIsInjective(xs, ys); }
  }

  lemma JoinedNonempty(ys: seq<JsString>)
    requires |ys| > 0 && ys[0] != []
    ensures JoinNul(ys) != []
  {
  }

  lemma RequiredNames(root: JsString)
    requires 0 !in root
    ensures Required(root) != {} && forall name :: name in Required(root) ==> name != [] && 0 !in name
  {
    assert RECEIPT_FILE in Required(root);
    assert |RECEIPT_FILE| == 12 && |PLAN_FILE| == 9 && |INDEX_SUFFIX| == 20;
    StrippedNulFree(root);
  }

  lemma {:induction false} StrippedNulFree(root: JsString)
    requires 0 !in root
    ensures 0 !in WithoutTrailingSlashes(root)
  {
    if root != [] && root[|root| - 1] == SLASH { StrippedNulFree(root[..|root| - 1]); }
  }

  /** The digest loop over the manifest, in its own order; a member that is a folder makes reading it throw. */
  method ReviewMembers(hash: Hash, files: map<JsString, FileNode>, bundle: map<JsString, Json>, names: seq<JsString>)
    returns (v: Review)
    requires Elements(names) == bundle.Keys
    ensures v.Sound? <==> ManifestHolds(hash, files, bundle)
    ensures v.Crash? <==> FolderComesFirst(hash, files, bundle, names)
    ensures v.Unsound? ==> v.reason.InfrastructureFailure?
  {
    assert forall name :: name in names <==> name in Elements(names);
    for k := 0 to |names|
      invariant forall j :: 0 <= j < k ==> MemberHolds(hash, files, bundle, names[j])
    {
      var name := names[k];
      assert name in bundle;
      if name !in files { return Unsound(InfrastructureFailure); }
      if files[name].Folder? { return Crash; }
      if bundle[name] != Str(hash(files[name].bytes)) { return Unsound(InfrastructureFailure); }
    }
    return Sound;
  }

  /** Everything between a readable summary and publication. */
  method ReviewVersion(r: Readers, contract: Bytes, files: map<JsString, FileNode>, summary: Json, names: seq<JsString>)
    returns (v: Review)
    requires NoNulPaths(files)
    requires r.artifactRoot(contract).Some? ==> 0 !in r.artifactRoot(contract).value
    requires MemberOf(summary, BUNDLE_KEY).Obj? ==> Elements(names) == MemberOf(summary, BUNDLE_KEY).members.Keys
    ensures v.Sound? <==> Authoritative(r, contract, files, summary)
    ensures v.Crash? <==> Crashes(r, contract, files, summary, names)
    ensures v.Unsound? ==>
      !v.reason.DeadlineExceeded? && (v.reason.ReportedByWorker? <==> MemberOf(summary, OK_KEY) != Bool(true))
    ensures v.Sound? ==> MemberOf(summary, OK_KEY) == Bool(true)
  {
    if summary.Null? { return Crash; }
    if MemberOf(summary, OK_KEY) != Bool(true) { return Unsound(ReportedByWorker); }
    if RECEIPT_FILE !in files || !files[RECEIPT_FILE].File? { return Unsound(InfrastructureFailure); }
    var root := r.artifactRoot(contract);
    var receipt := r.receipt(contract, files[RECEIPT_FILE].bytes);
    if receipt.None? || root.None? { return Unsound(InfrastructureFailure); }
    if receipt.value.artifactRoot != root.value || MemberOf(summary, DISPOSITION_KEY) != Str(receipt.value.disposition) {
      return Unsound(InfrastructureFailure);
    }
    var bundle := MemberOf(summary, BUNDLE_KEY);
    var required := Required(root.value);
    RequiredNames(root.value);
    hide Required, ManifestHolds, FolderComesFirst;
    if !bundle.Obj? || JoinNul(Sorted(bundle.members.Keys)) != JoinNul(Sorted(required)) {
      return Unsound(InfrastructureFailure);
    }
    v := ReviewMembers(r.hash, files, bundle.members, names);
    if ManifestHolds(r.hash, files, bundle.members) { HeldNamesAreRequired(r.hash, files, bundle.members, required); }
  }

  /** A manifest that holds has no NUL in its names, so the joined comparison is the comparison of the names. */
  lemma HeldNamesAreRequired(hash: Hash, files: map<JsString, FileNode>, bundle: map<JsString, Json>,
      required: set<JsString>)
    requires NoNulPaths(files) && ManifestHolds(hash, files, bundle)
    requires required != {} && forall name :: name in required ==> name != [] && 0 !in name
    ensures JoinNul(Sorted(bundle.Keys)) == JoinNul(Sorted(required)) <==> bundle.Keys == required
  {
    forall name | name in bundle.Keys ensures 0 !in name { assert MemberHolds(hash, files, bundle, name); }
    ManifestNamesAreRequired(bundle.Keys, required);
  }

  // ---------- states of the output directory ----------

  type Entries = map<JsString, Node>

  /** What is left after `purgeVersions`: a directory that cannot be listed stays as it is. */
  function Purged(entries: Entries, listable: bool): Entries {
    map name | name in entries && !(listable && Doomed(name)) :: entries[name]
  }

  lemma UndisturbedByNothing(entries: Entries)
    ensures Undisturbed(entries, entries)
  {
  }

  lemma ListedBundle(r: Readers, bytes: Bytes)
    requires ListsBundles(r) && r.parse(bytes).Some?
    ensures var bundle := MemberOf(r.parse(bytes).value, BUNDLE_KEY);
            bundle.Obj? ==> Elements(r.order(bytes)) == bundle.members.Keys
  {
  }

  /** Names that no purge touches are as they were. */
  ghost predicate Undisturbed(before: Entries, after: Entries) {
    && (forall name :: name in before && !Doomed(name) ==> name in after && after[name] == before[name])
    && forall name :: name in after && !Doomed(name) ==> name in before
  }

  /** The directory once the worker is done: what the first purge left, and this run's version. */
  function Staged(before: Entries, listable: bool, token: JsString, files: map<JsString, FileNode>): Entries {
    Purged(before, listable)[VersionName(token) := Version(files)]
  }

  /** The directory once `current` is flipped onto the version. */
  function Flipped(before: Entries, listable: bool, token: JsString, files: map<JsString, FileNode>): Entries {
    Staged(before, listable, token, files)[CURRENT := Link(VersionName(token))]
  }

  /** The directory after an abort: the version is gone, and `current` dangles if it was flipped and cannot be seen. */
  function AfterAbort(before: Entries, listable: bool, token: JsString, flipped: bool): Entries {
    Purged(if flipped then before[CURRENT := Link(VersionName(token))] else before, listable)
  }

  /** After a publication: `current` names a version that holds the worker's files, and there is no other one. */
  ghost predicate Current(before: Entries, after: Entries, listable: bool, token: JsString,
      files: map<JsString, FileNode>)
  {
    && Undisturbed(before, after)
    && CURRENT in after && after[CURRENT] == Link(VersionName(token))
    && VersionName(token) in after && after[VersionName(token)] == Version(files)
    && (listable ==> forall name :: name in after && Doomed(name) ==> name == CURRENT || name == VersionName(token))
  }

  /** Of the names gone through so far, the doomed ones are removed. */
  ghost predicate PurgedSoFar(entries: Entries, names: seq<JsString>, kept: Entries) {
    && (forall name :: name in kept <==> name in entries && !(name in names && Doomed(name)))
    && forall name :: name in kept ==> kept[name] == entries[name]
  }

  lemma NothingPurged(entries: Entries)
    ensures Purged(entries, false) == entries && PurgedSoFar(entries, [], entries)
  {
    hide Doomed;
  }

  lemma PurgeStep(entries: Entries, names: seq<JsString>, next: JsString, kept: Entries)
    requires PurgedSoFar(entries, names, kept)
    ensures PurgedSoFar(entries, names + [next], if Doomed(next) then kept - {next} else kept)
  {
    hide Doomed;
  }

  lemma AllPurged(entries: Entries, names: seq<JsString>, kept: Entries)
    requires PurgedSoFar(entries, names, kept) && Elements(names) == entries.Keys
    ensures kept == Purged(entries, true)
  {
    hide Doomed;
    assert forall name :: name in names <==> name in Elements(names);
  }

  lemma StagedThenAborted(before: Entries, listable: bool, token: JsString, files: map<JsString, FileNode>)
    requires VersionName(token) !in before
    ensures Purged(Staged(before, listable, token, files) - {VersionName(token)}, listable)
            == AfterAbort(before, listable, token, false)
    ensures Purged(Flipped(before, listable, token, files) - {VersionName(token)}, listable)
            == AfterAbort(before, listable, token, true)
  {
    NamesAreDoomed(token);
    hide Doomed, VersionName;
  }

  lemma StagedTwice(before: Entries, listable: bool, token: JsString, first: map<JsString, FileNode>,
      files: map<JsString, FileNode>)
    ensures Staged(before, listable, token, first)[VersionName(token) := Version(files)]
            == Staged(before, listable, token, files)
  {
  }

  lemma NothingPending(before: Entries, listable: bool, token: JsString, files: map<JsString, FileNode>, node: Node)
    requires PendingName(token) !in before
    ensures var now := Staged(before, listable, token, files);
            now[PendingName(token) := node] - {PendingName(token)} == now && now - {PendingName(token)} == now
  {
    NamesAreDoomed(token);
    hide Doomed, VersionName, PendingName;
  }

  lemma PurgedWithLock(before: Entries, listable: bool)
    requires LOCK !in before
    ensures Purged(before[LOCK := Other], listable) == Purged(before, listable)[LOCK := Other]
    ensures LOCK !in Purged(before, listable)
  {
    NamesAreDoomed([]);
    hide Doomed;
  }

  lemma SetThenUnlock(now: Entries, name: JsString, node: Node)
    requires LOCK !in now && name != LOCK
    ensures now[LOCK := Other][name := node] - {LOCK} == now[name := node]
    ensures now[LOCK := Other] - {LOCK} == now
    ensures now[LOCK := Other][name := node] == now[name := node][LOCK := Other]
  {
  }

  /** Taking the lock and giving it back changes nothing else. */
  lemma LockRoundTrip(before: Entries, listable: bool, token: JsString, files: map<JsString, FileNode>)
    requires LOCK !in before
    ensures Staged(before[LOCK := Other], listable, token, files) - {LOCK} == Staged(before, listable, token, files)
    ensures Flipped(before[LOCK := Other], listable, token, files) - {LOCK} == Flipped(before, listable, token, files)
  {
    NamesAreDoomed(token);
    PurgedWithLock(before, listable);
    hide VersionName, Purged;
    SetThenUnlock(Purged(before, listable), VersionName(token), Version(files));
    SetThenUnlock(Staged(before, listable, token, files), CURRENT, Link(VersionName(token)));
  }

  lemma LockThroughAbort(before: Entries, listable: bool, token: JsString, flipped: bool)
    requires LOCK !in before
    ensures AfterAbort(before[LOCK := Other], listable, token, flipped) - {LOCK}
            == AfterAbort(before, listable, token, flipped)
  {
    NamesAreDoomed(token);
    SetThenUnlock(before, CURRENT, Link(VersionName(token)));
    var start := if flipped then before[CURRENT := Link(VersionName(token))] else before;
    PurgedWithLock(start, listable);
    hide VersionName, Purged;
    SetThenUnlock(Purged(start, listable), CURRENT, Other);
  }

  lemma DoomedUpdateDisturbsNothing(before: Entries, now: Entries, name: JsString, node: Node)
    requires Undisturbed(before, now) && Doomed(name)
    ensures Undisturbed(before, now[name := node])
  {
    hide Doomed;
  }

  lemma PurgeDisturbsNothing(before: Entries, now: Entries, listable: bool)
    requires Undisturbed(before, now)
    ensures Undisturbed(before, Purged(now, listable))
  {
    hide Doomed;
  }

  /** Whatever the outcome, names that no purge touches are as they were. */
  lemma OutcomesDisturbNothing(before: Entries, listable: bool, token: JsString, files: map<JsString, FileNode>,
      flipped: bool)
    ensures Undisturbed(before, Staged(before, listable, token, files))
    ensures Undisturbed(before, Flipped(before, listable, token, files))
    ensures Undisturbed(before, AfterAbort(before, listable, token, flipped))
  {
    NamesAreDoomed(token);
    UndisturbedByNothing(before);
    hide Undisturbed, Doomed, VersionName, Purged;
    var version := VersionName(token);
    PurgeDisturbsNothing(before, before, listable);
    DoomedUpdateDisturbsNothing(before, Purged(before, listable), version, Version(files));
    DoomedUpdateDisturbsNothing(before, Staged(before, listable, token, files), CURRENT, Link(version));
    DoomedUpdateDisturbsNothing(before, before, CURRENT, Link(version));
    PurgeDisturbsNothing(before, if flipped then before[CURRENT := Link(version)] else before, listable);
  }

  lemma FlippedIsCurrent(before: Entries, listable: bool, token: JsString, files: map<JsString, FileNode>)
    ensures Current(before, Flipped(before, listable, token, files), listable, token, files)
  {
    NamesAreDoomed(token);
    hide Doomed, VersionName;
  }

  /**
   An abort leaves nothing exactly when the directory can be listed, or had nothing to begin with and the abort came
   before `current` was flipped.
   */
  lemma AbortIsCleanExactly(before: Entries, listable: bool, token: JsString, flipped: bool)
    ensures Clean(AfterAbort(before, listable, token, flipped)) <==> listable || (Clean(before) && !flipped)
  {
    NamesAreDoomed(token);
    hide Doomed, VersionName;
    var after := AfterAbort(before, listable, token, flipped);
    if !listable && flipped { assert CURRENT in after; }
    if !listable && !flipped && !Clean(before) {
      var name :| name in before && Doomed(name);
      assert name in after;
    }
  }

  // ---------- whether every abort leaves nothing ----------

  /** No run that aborts under these parsers, contract and deadline leaves a version, a pending link or a `current`. */
  ghost predicate EveryAbortIsClean(r: Readers, contract: Bytes, hardMs: int, before: Entries, listable: bool,
      token: JsString)
  {
    forall run, clock, linkFails ::
      NulFreeNames(r, contract, run) && Aborts(r, contract, run, clock, hardMs, linkFails) ==>
        Clean(AfterAbort(before, listable, token, ReachesPublication(r, contract, run, clock, hardMs, linkFails)))
  }

  /**
   Where anything can be published at all, every abort leaves nothing exactly when the directory can be listed. The
   witness is the publishable run itself, found past the deadline after the flip.
   */
  lemma EveryAbortIsCleanExactly(r: Readers, contract: Bytes, hardMs: int, before: Entries, listable: bool,
      token: JsString, run: WorkerRun, clock: Clock)
    requires NulFreeNames(r, contract, run) && ListsBundles(r) && Publishable(r, contract, run, clock, hardMs, false)
    ensures EveryAbortIsClean(r, contract, hardMs, before, listable, token) <==> listable
  {
    var late := clock.(afterPublish := hardMs);
    PublishableNeverThrows(r, contract, run, late, hardMs);
    AbortIsCleanExactly(before, listable, token, true);
    hide AfterAbort, NulFreeNames, Authoritative, Finished;
    assert ReachesPublication(r, contract, run, late, hardMs, false) && Aborts(r, contract, run, late, hardMs, false);
    if listable {
      forall flipped ensures Clean(AfterAbort(before, true, token, flipped)) {
        AbortIsCleanExactly(before, true, token, flipped);
      }
    }
  }

  /** A version whose manifest holds is not one whose review throws. */
  lemma PublishableNeverThrows(r: Readers, contract: Bytes, run: WorkerRun, clock: Clock, hardMs: int)
    requires Finished(r, run, clock, hardMs)
    requires Authoritative(r, contract, run.files, r.parse(run.files[SUMMARY_FILE].bytes).value)
    requires ListsBundles(r)
    ensures !Throws(r, contract, run, clock, hardMs)
  {
    var bytes := run.files[SUMMARY_FILE].bytes;
    var summary := r.parse(bytes).value;
    var names := r.order(bytes);
    var bundle := MemberOf(summary, BUNDLE_KEY).members;
    assert Elements(names) == bundle.Keys;
    forall k | 0 <= k < |names| ensures MemberHolds(r.hash, run.files, bundle, names[k]) {
      assert names[k] in Elements(names);
    }
  }

  // ---------- the supervisor ----------

  class OutputDir {
    /** Whether the directory can be read; one that can be written but not read cannot be purged. */
    const listable: bool
    var entries: Entries

    constructor (listable: bool, entries: Entries)
      ensures this.listable == listable && this.entries == entries
    {
      this.listable, this.entries := listable, entries;
    }

    /** `purgeVersions`. */
    method Purge()
      modifies this
      ensures entries == Purged(old(entries), listable)
    {
      hide *;
      NothingPurged(entries);
      if !listable { return; }
      var names := Sorted(entries.Keys);
      SortedFacts(entries.Keys);
      var kept := entries;
      for k := 0 to |names|
        invariant PurgedSoFar(old(entries), names[..k], kept)
      {
        assert names[..k + 1] == names[..k] + [names[k]];
        PurgeStep(old(entries), names[..k], names[k], kept);
        if Doomed(names[k]) { kept := kept - {names[k]}; }
      }
      assert names[..|names|] == names;
      AllPurged(old(entries), names, kept);
      entries := kept;
    }

    /** `abort`: drop this run's version, then everything a purge can see. */
    method Abort(token: JsString)
      modifies this
      ensures entries == Purged(old(entries) - {VersionName(token)}, listable)
    {
      entries := entries - {VersionName(token)};
      Purge();
    }

    /**
     `evaluateSupervised`: `run` is whatever the worker did to its version directory, `clock` whatever the clock said,
     `linkFails` whether publication by symlink and rename failed.
     */
    method Supervise(r: Readers, contract: Bytes, token: JsString, run: WorkerRun, clock: Clock, hardMs: int,
        linkFails: bool)
      returns (o: Outcome)
      requires NulFreeNames(r, contract, run) && ListsBundles(r)
      requires VersionName(token) !in entries && PendingName(token) !in entries
      modifies this
      ensures Undisturbed(old(entries), entries)
      ensures o.Busy? <==> LOCK in old(entries)
      ensures o.Busy? ==> entries == old(entries)
      ensures o.Published? <==> LOCK !in old(entries) && Publishable(r, contract, run, clock, hardMs, linkFails)
      ensures o.Published? ==> entries == Flipped(old(entries), listable, token, run.files)
      ensures o.Published? ==> Current(old(entries), entries, listable, token, run.files)
      ensures o.Published? ==> r.parse(run.files[SUMMARY_FILE].bytes) == Some(o.summary)
      ensures o.Threw? <==> LOCK !in old(entries) && Throws(r, contract, run, clock, hardMs)
      ensures o.Threw? ==> entries == Staged(old(entries), listable, token, run.files)
      ensures o.Aborted? <==> LOCK !in old(entries) && Aborts(r, contract, run, clock, hardMs, linkFails)
      ensures o.Aborted? ==> AbortsFor(o.reason, r, contract, run, clock, hardMs, linkFails)
      ensures o.Aborted? ==>
        var flipped := ReachesPublication(r, contract, run, clock, hardMs, linkFails);
        && entries == AfterAbort(old(entries), listable, token, flipped)
        && (Clean(entries) <==> listable || (Clean(old(entries)) && !flipped))
    {
      hide *;
      if LOCK in entries {
        UndisturbedByNothing(entries);
        return Busy;
      }
      NamesAreDoomed(token);
      ghost var before := entries;
      ghost var flipped := ReachesPublication(r, contract, run, clock, hardMs, linkFails);
      entries := entries[LOCK := Other];
      o := SuperviseLocked(r, contract, token, run, clock, hardMs, linkFails);
      LockRoundTrip(before, listable, token, run.files);
      LockThroughAbort(before, listable, token, flipped);
      OutcomesDisturbNothing(before, listable, token, run.files, flipped);
      FlippedIsCurrent(before, listable, token, run.files);
      AbortIsCleanExactly(before, listable, token, flipped);
      entries := entries - {LOCK};
    }

    /** What happens between taking the lock and giving it back. */
    method SuperviseLocked(r: Readers, contract: Bytes, token: JsString, run: WorkerRun, clock: Clock, hardMs: int,
        linkFails: bool)
      returns (o: Outcome)
      requires NulFreeNames(r, contract, run) && ListsBundles(r)
      requires VersionName(token) !in entries && PendingName(token) !in entries
      modifies this
      ensures !o.Busy?
      ensures o.Published? <==> Publishable(r, contract, run, clock, hardMs, linkFails)
      ensures o.Published? ==> entries == Flipped(old(entries), listable, token, run.files)
      ensures o.Published? ==> r.parse(run.files[SUMMARY_FILE].bytes) == Some(o.summary)
      ensures o.Threw? <==> Throws(r, contract, run, clock, hardMs)
      ensures o.Threw? ==> entries == Staged(old(entries), listable, token, run.files)
      ensures o.Aborted? <==> Aborts(r, contract, run, clock, hardMs, linkFails)
      ensures o.Aborted? ==> AbortsFor(o.reason, r, contract, run, clock, hardMs, linkFails)
      ensures o.Aborted? ==>
        entries == AfterAbort(old(entries), listable, token,
                              ReachesPublication(r, contract, run, clock, hardMs, linkFails))
    {
      var version, pending := VersionName(token), PendingName(token);
      var handed := map[CONTRACT_FILE := File(contract)];
      hide Authoritative, Crashes, PendingName, VersionName, Purged, AfterAbort, ListsBundles;
      ghost var before := entries;
      StagedThenAborted(before, listable, token, handed);
      StagedThenAborted(before, listable, token, run.files);
      StagedTwice(before, listable, token, handed, run.files);
      NothingPending(before, listable, token, run.files, Link(version));
      Purge();
      entries := entries[version := Version(handed)];
      assert entries == Staged(before, listable, token, handed);
      hide Staged;
      if clock.beforeWorker >= hardMs {
        Abort(token);
        return Aborted(DeadlineExceeded);
      }
      entries := entries[version := Version(run.files)];
      if run.timedOut || (run.killed && clock.afterWorker >= hardMs - 50) {
        Abort(token);
        return Aborted(DeadlineExceeded);
      }
      if run.status != Some(0) || SUMMARY_FILE !in run.files {
        Abort(token);
        return Aborted(InfrastructureFailure);
      }
      if !run.files[SUMMARY_FILE].File? || r.parse(run.files[SUMMARY_FILE].bytes).None? {
        Abort(token);
        return Aborted(InfrastructureFailure);
      }
      var bytes := run.files[SUMMARY_FILE].bytes;
      var summary := r.parse(bytes).value;
      ListedBundle(r, bytes);
      if Authoritative(r, contract, run.files, summary) {
        PublishableNeverThrows(r, contract, run, clock, hardMs);
      }
      var review := ReviewVersion(r, contract, run.files, summary, r.order(bytes));
      if review.Crash? { return Threw; }
      if review.Unsound? {
        Abort(token);
        return Aborted(review.reason);
      }
      if clock.beforePublish >= hardMs {
        Abort(token);
        return Aborted(DeadlineExceeded);
      }
      if linkFails {
        entries := entries - {pending};
        Abort(token);
        return Aborted(InfrastructureFailure);
      }
      entries := entries[pending := Link(version)];
      entries := entries - {pending};
      entries := entries[CURRENT := Link(version)];
      assert entries == Flipped(before, listable, token, run.files);
      if clock.afterPublish >= hardMs {
        Abort(token);
        return Aborted(DeadlineExceeded);
      }
      return Published(summary);
    }
  }

  // ---------- where the promise fails ----------

  /**
   An empty directory that cannot be listed, and a run that gets as far as the flip and is found past the deadline right
   after it: the run is aborted, its version removed, and a `current` that names it stays.
   */
  method LateDeadlineLeavesCurrent(r: Readers, contract: Bytes, token: JsString, run: WorkerRun, clock: Clock,
      hardMs: int)
    returns (dir: OutputDir, o: Outcome)
    requires NulFreeNames(r, contract, run) && ListsBundles(r)
    requires ReachesPublication(r, contract, run, clock, hardMs, false) && clock.afterPublish >= hardMs
    ensures fresh(dir) && !dir.listable && o == Aborted(DeadlineExceeded)
    ensures dir.entries == map[CURRENT := Link(VersionName(token))] && !Clean(dir.entries)
  {
    hide Authoritative, Finished, ListsBundles, NulFreeNames, VersionName;
    dir := new OutputDir(false, map[]);
    PublishableNeverThrows(r, contract, run, clock, hardMs);
    o := dir.Supervise(r, contract, token, run, clock, hardMs, false);
  }

  /** A run that finished and whose summary says `null`: the supervisor throws, and the version stays. */
  method NullSummaryLeavesVersion(r: Readers, contract: Bytes, token: JsString, run: WorkerRun, clock: Clock,
      hardMs: int)
    returns (dir: OutputDir, o: Outcome)
    requires NulFreeNames(r, contract, run) && ListsBundles(r)
    requires Finished(r, run, clock, hardMs) && r.parse(run.files[SUMMARY_FILE].bytes) == Some(Null)
    ensures fresh(dir) && dir.listable && o.Threw?
    ensures dir.entries == map[VersionName(token) := Version(run.files)]
  {
    assert Throws(r, contract, run, clock, hardMs);
    hide Throws, Finished, ListsBundles, NulFreeNames, VersionName;
    dir := new OutputDir(true, map[]);
    o := dir.Supervise(r, contract, token, run, clock, hardMs, false);
  }

  /**
   A run that would be published, but for one required member other than the receipt, which is a folder: the supervisor
   throws, and the version stays.
   */
  method FolderLeavesVersion(r: Readers, contract: Bytes, token: JsString, run: WorkerRun, clock: Clock, hardMs: int,
      member: JsString)
    returns (dir: OutputDir, o: Outcome)
    requires NulFreeNames(r, contract, run) && ListsBundles(r) && Publishable(r, contract, run, clock, hardMs, false)
    requires member in Required(r.artifactRoot(contract).value) && member != RECEIPT_FILE
    ensures fresh(dir) && dir.listable && o.Threw?
    ensures dir.entries == map[VersionName(token) := Version(run.files[member := Folder])]
  {
    var broken := run.(files := run.files[member := Folder]);
    FolderMakesItThrow(r, contract, run, clock, hardMs, member);
    hide Throws, Publishable, ListsBundles, NulFreeNames, VersionName;
    dir := new OutputDir(true, map[]);
    o := dir.Supervise(r, contract, token, broken, clock, hardMs, false);
  }

  lemma FolderMakesItThrow(r: Readers, contract: Bytes, run: WorkerRun, clock: Clock, hardMs: int, member: JsString)
    requires NulFreeNames(r, contract, run) && ListsBundles(r) && Publishable(r, contract, run, clock, hardMs, false)
    requires member in Required(r.artifactRoot(contract).value) && member != RECEIPT_FILE
    ensures var broken := run.(files := run.files[member := Folder]);
            NulFreeNames(r, contract, broken) && Throws(r, contract, broken, clock, hardMs)
  {
    var root := r.artifactRoot(contract).value;
    var bytes := run.files[SUMMARY_FILE].bytes;
    var bundle := MemberOf(r.parse(bytes).value, BUNDLE_KEY).members;
    SummaryIsNotABundleMember(root);
    RequiredNames(root);
    ListedBundle(r, bytes);
    hide Required, RECEIPT_FILE, SUMMARY_FILE, BUNDLE_KEY, OK_KEY, DISPOSITION_KEY, JoinNul;
    assert member in Elements(r.order(bytes));
    FolderIsMet(r.hash, run.files, bundle, r.order(bytes), member);
  }

  lemma FolderIsMet(hash: Hash, files: map<JsString, FileNode>, bundle: map<JsString, Json>, names: seq<JsString>,
      member: JsString)
    requires ManifestHolds(hash, files, bundle) && Elements(names) == bundle.Keys && member in names
    ensures FolderComesFirst(hash, files[member := Folder], bundle, names)
  {
    var k := FirstPlace(names, member);
    forall j | 0 <= j < k ensures MemberHolds(hash, files[member := Folder], bundle, names[j]) {
      assert names[j] in Elements(names) && names[j] in bundle;
      assert MemberHolds(hash, files, bundle, names[j]);
    }
  }

  lemma {:induction false} FirstPlace(names: seq<JsString>, name: JsString) returns (k: nat)
    requires name in names
    ensures k < |names| && names[k] == name && forall j :: 0 <= j < k ==> names[j] != name
  {
    if names[0] == name {
      k := 0;
    } else {
      assert name in names[1..];
      var rest := FirstPlace(names[1..], name);
      k := rest + 1;
      forall j | 0 <= j < k ensures names[j] != name {
        if j > 0 { assert names[j] == names[1..][j - 1]; }
      }
    }
  }

  lemma SummaryIsNotABundleMember(artifactRoot: JsString)
    ensures SUMMARY_FILE !in Required(artifactRoot)
  {
    assert |SUMMARY_FILE| == 22 && |RECEIPT_FILE| == 12 && |PLAN_FILE| == 9 && |INDEX_SUFFIX| == 20;
    var index := IndexPath(artifactRoot);
    assert index[|index| - 1] == INDEX_SUFFIX[19] && index[|index| - 6] == INDEX_SUFFIX[14];
    assert SUMMARY_FILE[16] == 0x74 && INDEX_SUFFIX[14] == 0x78;
    assert |index| == 22 ==> index[16] == INDEX_SUFFIX[14];
  }

  // ---------- there are such runs ----------

  /** The digests of the required members. */
  function ManifestFor(hash: Hash, root: JsString, files: JsString -> Bytes): map<JsString, Json> {
    map name | name in Required(root) :: Str(hash(files(name)))
  }

  function SummaryFor(hash: Hash, view: ReceiptView, files: JsString -> Bytes): Json {
    Obj(map[OK_KEY := Bool(true), DISPOSITION_KEY := Str(view.disposition),
            BUNDLE_KEY := Obj(ManifestFor(hash, view.artifactRoot, files))])
  }

  /** Readers that know one summary text. */
  function ReadersFor(hash: Hash, view: ReceiptView, files: JsString -> Bytes): Readers {
    Readers(b => if b == files(SUMMARY_FILE) then Some(SummaryFor(hash, view, files)) else None,
            _ => Sorted(Required(view.artifactRoot)), (_, _) => Some(view), _ => Some(view.artifactRoot), hash)
  }

  function RunFor(root: JsString, files: JsString -> Bytes): WorkerRun {
    WorkerRun(map name | name in Required(root) + {SUMMARY_FILE} :: File(files(name)), false, false, Some(0))
  }

  lemma SummaryForSays(hash: Hash, view: ReceiptView, files: JsString -> Bytes)
    ensures var summary := SummaryFor(hash, view, files);
      && MemberOf(summary, OK_KEY) == Bool(true) && MemberOf(summary, DISPOSITION_KEY) == Str(view.disposition)
      && MemberOf(summary, BUNDLE_KEY) == Obj(ManifestFor(hash, view.artifactRoot, files))
  {
    assert |OK_KEY| == 2 && |DISPOSITION_KEY| == 11 && |BUNDLE_KEY| == 6;
    hide OK_KEY, DISPOSITION_KEY, BUNDLE_KEY, ManifestFor;
  }

  lemma ManifestForHolds(hash: Hash, root: JsString, files: JsString -> Bytes)
    ensures ManifestFor(hash, root, files).Keys == Required(root)
    ensures ManifestHolds(hash, RunFor(root, files).files, ManifestFor(hash, root, files))
  {
    hide Required, SUMMARY_FILE;
  }

  lemma RunForIsNulFree(root: JsString, files: JsString -> Bytes)
    requires 0 !in root
    ensures NoNulPaths(RunFor(root, files).files)
  {
    RequiredNames(root);
    assert 0 !in SUMMARY_FILE;
    hide Required, SUMMARY_FILE;
  }

  lemma ReadersForListBundles(hash: Hash, view: ReceiptView, files: JsString -> Bytes)
    ensures ListsBundles(ReadersFor(hash, view, files))
  {
    SummaryForSays(hash, view, files);
    ManifestForHolds(hash, view.artifactRoot, files);
    SortedFacts(Required(view.artifactRoot));
    hide Required, SUMMARY_FILE, SummaryFor, ManifestFor, BUNDLE_KEY, Sorted, MemberOf;
  }

  lemma RunForHas(root: JsString, files: JsString -> Bytes)
    ensures var run := RunFor(root, files);
      && SUMMARY_FILE in run.files && run.files[SUMMARY_FILE] == File(files(SUMMARY_FILE))
      && RECEIPT_FILE in run.files && run.files[RECEIPT_FILE] == File(files(RECEIPT_FILE))
      && run.status == Some(0) && !run.timedOut && !run.killed
  {
    assert RECEIPT_FILE in Required(root);
    hide Required, RECEIPT_FILE, SUMMARY_FILE;
  }

  lemma RunForIsAuthoritative(hash: Hash, contract: Bytes, view: ReceiptView, files: JsString -> Bytes)
    ensures Authoritative(ReadersFor(hash, view, files), contract, RunFor(view.artifactRoot, files).files,
                          SummaryFor(hash, view, files))
  {
    SummaryForSays(hash, view, files);
    ManifestForHolds(hash, view.artifactRoot, files);
    RunForHas(view.artifactRoot, files);
    hide Required, RECEIPT_FILE, SUMMARY_FILE, RunFor, SummaryFor, ManifestFor, ManifestHolds, MemberOf, OK_KEY,
      DISPOSITION_KEY, BUNDLE_KEY, Sorted;
  }

  lemma ReadersForRead(hash: Hash, contract: Bytes, view: ReceiptView, files: JsString -> Bytes)
    ensures var r := ReadersFor(hash, view, files);
      r.parse(files(SUMMARY_FILE)) == Some(SummaryFor(hash, view, files))
      && r.artifactRoot(contract) == Some(view.artifactRoot)
  {
    hide Required, SUMMARY_FILE, Sorted, SummaryFor;
  }

  /** For any hash, contract, artifact root and files there are readers under which a run with those files is published. */
  lemma PublishableRunExists(hash: Hash, contract: Bytes, view: ReceiptView, files: JsString -> Bytes, clock: Clock,
      hardMs: int)
    requires 0 !in view.artifactRoot && clock.beforeWorker < hardMs && clock.beforePublish < hardMs
    ensures var r, run := ReadersFor(hash, view, files), RunFor(view.artifactRoot, files);
      && NulFreeNames(r, contract, run) && ListsBundles(r)
      && ReachesPublication(r, contract, run, clock, hardMs, false)
  {
    RunForIsNulFree(view.artifactRoot, files);
    RunForHas(view.artifactRoot, files);
    RunForIsAuthoritative(hash, contract, view, files);
    ReadersForRead(hash, contract, view, files);
    ReadersForListBundles(hash, view, files);
    hide Authoritative, ListsBundles, NoNulPaths, ReadersFor, RECEIPT_FILE, Required, RunFor, SUMMARY_FILE, SummaryFor;
  }
}
