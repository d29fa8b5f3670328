/** The names a publication uses, what each outcome leaves under them, and what a worker writes, spelled out. */
module PublicationText {
  import opened Base
  import opened Json
  import opened Publication
  import opened Worker

  // ---------- names ----------

  ghost predicate MustGo(name: JsString) {
    || (exists rest :: name == Ascii(".v-") + rest)
    || (exists rest :: name == Ascii(".current-") + rest)
    || name == Ascii("current")
  }

  /** A purge removes version directories, pending links and `current`, and nothing else. */
  lemma DoomedExactly(name: JsString)
    ensures Doomed(name) <==> MustGo(name)
  {
    StartsExactly(name, VERSION_PREFIX);
    StartsExactly(name, PENDING_PREFIX);
  }

  lemma StartsExactly(s: JsString, prefix: JsString)
    ensures StartsWith(s, prefix) <==> exists rest :: s == prefix + rest
  {
    if StartsWith(s, prefix) { assert s == prefix + s[|prefix|..]; }
    if rest :| s == prefix + rest { assert s[..|prefix|] == prefix; }
  }

  lemma NamesAreSpelled(token: JsString)
    ensures VersionName(token) == Ascii(".v-") + token && PendingName(token) == Ascii(".current-") + token
    ensures CURRENT == Ascii("current") && LOCK == Ascii(".promotion-lock")
  {
  }

  lemma FilesAreSpelled()
    ensures CONTRACT_FILE == Ascii("work-contract.json") && SUMMARY_FILE == Ascii("supervised-result.json")
    ensures RECEIPT_FILE == Ascii("receipt.json") && PLAN_FILE == Ascii("plan.json")
  {
  }

  lemma KeysAreSpelled()
    ensures OK_KEY == Ascii("ok") && DISPOSITION_KEY == Ascii("disposition") && BUNDLE_KEY == Ascii("bundle")
  {
  }

  ghost predicate Slashes(s: JsString) {
    forall k :: 0 <= k < |s| ==> s[k] == 0x2F
  }

  lemma {:induction false} StrippedExactly(root: JsString, base: JsString, slashes: JsString)
    requires root == base + slashes && Slashes(slashes) && (base == [] || base[|base| - 1] != 0x2F)
    ensures WithoutTrailingSlashes(root) == base
  {
    if slashes != [] {
      var less := slashes[..|slashes| - 1];
      assert root[..|root| - 1] == base + less && root[|root| - 1] == slashes[|slashes| - 1];
      StrippedExactly(root[..|root| - 1], base, less);
    } else {
      assert root == base;
    }
  }

  /** The bundle is the receipt, the plan, and the index under the artifact root, whatever slashes the root ends in. */
  lemma RequiredExactly(base: JsString, slashes: JsString)
    requires Slashes(slashes) && (base == [] || base[|base| - 1] != 0x2F)
    ensures Required(base + slashes) ==
      {Ascii("receipt.json"), Ascii("plan.json"), base + Ascii("/evidence/index.json")}
  {
    StrippedExactly(base + slashes, base, slashes);
    hide WithoutTrailingSlashes;
  }

  // ---------- what is left ----------

  /** The first purge leaves what it does not remove, or everything if it cannot see it. */
  ghost predicate PurgeLeaves(before: Entries, listable: bool, name: JsString, node: Node) {
    name in before && before[name] == node && (listable ==> !MustGo(name))
  }

  lemma PurgedExactly(before: Entries, listable: bool, name: JsString, node: Node)
    ensures name in Purged(before, listable) && Purged(before, listable)[name] == node <==>
      PurgeLeaves(before, listable, name, node)
  {
    DoomedExactly(name);
    hide Doomed;
  }

  /** An exception leaves this run's version beside what the first purge left. */
  lemma StagedExactly(before: Entries, listable: bool, token: JsString, files: map<JsString, FileNode>, name: JsString,
      node: Node)
    ensures name in Staged(before, listable, token, files) && Staged(before, listable, token, files)[name] == node <==>
      if name == Ascii(".v-") + token then node == Version(files) else PurgeLeaves(before, listable, name, node)
  {
    PurgedExactly(before, listable, name, node);
    NamesAreSpelled(token);
    hide Purged, VersionName, PurgeLeaves;
  }

  /** A publication leaves `current` besides, as a link to the version. */
  lemma FlippedExactly(before: Entries, listable: bool, token: JsString, files: map<JsString, FileNode>, name: JsString,
      node: Node)
    ensures name in Flipped(before, listable, token, files) && Flipped(before, listable, token, files)[name] == node <==>
      if name == Ascii("current") then node == Link(Ascii(".v-") + token)
      else if name == Ascii(".v-") + token then node == Version(files)
      else PurgeLeaves(before, listable, name, node)
  {
    StagedExactly(before, listable, token, files, name, node);
    NamesAreSpelled(token);
    hide Staged, VersionName, PurgeLeaves;
  }

  /** An abort leaves what a purge leaves; where nothing can be seen that is everything, a flipped `current` included. */
  lemma AbortExactly(before: Entries, listable: bool, token: JsString, flipped: bool, name: JsString, node: Node)
    ensures name in AfterAbort(before, listable, token, flipped)
            && AfterAbort(before, listable, token, flipped)[name] == node <==>
      if !listable && flipped && name == Ascii("current") then node == Link(Ascii(".v-") + token)
      else PurgeLeaves(before, listable, name, node)
  {
    var start := if flipped then before[CURRENT := Link(VersionName(token))] else before;
    PurgedExactly(start, listable, name, node);
    NamesAreSpelled(token);
    hide Purged, VersionName, CURRENT;
  }

  // ---------- what a worker writes ----------

  /** A file is what was last written under its path, or what was there before. */
  lemma {:induction false} AppliedExactly(files: Files, writes: seq<Write>, path: JsString, node: FileNode)
    ensures path in Apply(files, writes) && Apply(files, writes)[path] == node <==>
      || (exists k :: 0 <= k < |writes| && writes[k].path == path && node == File(writes[k].bytes)
                      && forall j :: k < j < |writes| ==> writes[j].path != path)
      || (path in files && files[path] == node && forall j :: 0 <= j < |writes| ==> writes[j].path != path)
  {
    if writes != [] {
      var front, last := writes[..|writes| - 1], writes[|writes| - 1];
      AppliedExactly(files, front, path, node);
      assert forall j :: 0 <= j < |front| ==> front[j] == writes[j];
    }
  }

  /** The members of an object, in literals. */
  ghost predicate Says(j: Json, members: map<JsString, Json>) {
    j.Obj? && j.members == members
  }

  /** A refusal says so, with its reason code, and with the reasons of a refused admission. */
  ghost predicate Refuses(j: Json, e: Evaluation) {
    match e
    case NotAdmitted(reasons) =>
      Says(j, map[Ascii("ok") := Bool(false), Ascii("reasonCode") := Str(Ascii("NOT_ADMITTED")),
                  Ascii("reasons") := reasons])
    case BadSigningKey =>
      Says(j, map[Ascii("ok") := Bool(false), Ascii("reasonCode") := Str(Ascii("SIGNATURE_INVALID"))])
    case Failed(_, code) => Says(j, map[Ascii("ok") := Bool(false), Ascii("reasonCode") := Str(code)])
    case Evaluated(_, _, _, _, _, _) => false
  }

  lemma RefusalIsWritten(hash: Hash, e: Evaluation, files: Files)
    requires !e.Evaluated?
    ensures SummaryOf(hash, e, files).Some? && Refuses(SummaryOf(hash, e, files).value, e)
  {
  }

  /** The digests of the bundle's files, under their names. */
  ghost predicate Manifests(hash: Hash, files: Files, base: JsString, bundle: Json) {
    && bundle.Obj?
    && bundle.members.Keys == {Ascii("receipt.json"), Ascii("plan.json"), base + Ascii("/evidence/index.json")}
    && forall name :: name in bundle.members ==>
      name in files && files[name].File? && bundle.members[name] == Str(hash(files[name].bytes))
  }

  ghost predicate Reports(j: Json, e: Evaluation, bundle: Json)
    requires e.Evaluated?
  {
    Says(j, map[Ascii("ok") := Bool(true), Ascii("disposition") := Str(e.disposition),
                Ascii("reasonCodes") := e.reasonCodes, Ascii("evaluationDigest") := Str(e.evaluationDigest),
                Ascii("bundle") := bundle])
  }

  /** A summary of success is written when every file of the bundle can be read back. */
  lemma SuccessNeedsBundle(hash: Hash, e: Evaluation, files: Files, base: JsString, slashes: JsString)
    requires e.Evaluated? && e.artifactRoot == base + slashes && Slashes(slashes)
    requires base == [] || base[|base| - 1] != 0x2F
    ensures SummaryOf(hash, e, files).Some? <==>
      forall name :: name in {Ascii("receipt.json"), Ascii("plan.json"), base + Ascii("/evidence/index.json")} ==>
        name in files && files[name].File?
  {
    hide Required;
    RequiredExactly(base, slashes);
  }

  lemma BundleManifests(hash: Hash, files: Files, base: JsString, slashes: JsString)
    requires Slashes(slashes) && (base == [] || base[|base| - 1] != 0x2F) && BundleReadable(files, base + slashes)
    ensures Manifests(hash, files, base, Obj(Bundle(hash, files, base + slashes)))
  {
    hide Required;
    RequiredExactly(base, slashes);
    assert Bundle(hash, files, base + slashes).Keys == Required(base + slashes);
  }

  /** It has the disposition, the reasons, the digest of the evaluation, and the manifest. */
  lemma SuccessIsWritten(hash: Hash, e: Evaluation, files: Files, base: JsString, slashes: JsString)
    requires e.Evaluated? && e.artifactRoot == base + slashes && Slashes(slashes)
    requires (base == [] || base[|base| - 1] != 0x2F) && SummaryOf(hash, e, files).Some?
    ensures exists bundle :: Manifests(hash, files, base, bundle) && Reports(SummaryOf(hash, e, files).value, e, bundle)
  {
    hide Bundle, BundleReadable, Manifests;
    BundleManifests(hash, files, base, slashes);
  }

  /** Before the summary come the evaluation's own files, and then the signed receipt if there is one. */
  lemma BodyIsWritten(e: Evaluation)
    ensures e.NotAdmitted? || e.BadSigningKey? ==> BodyWrites(e) == []
    ensures e.Failed? || (e.Evaluated? && e.signedReceipt.None?) ==> BodyWrites(e) == e.writes
    ensures e.Evaluated? && e.signedReceipt.Some? ==>
      BodyWrites(e) == e.writes + [Write(Ascii("receipt.json"), e.signedReceipt.value)]
  {
  }
}
