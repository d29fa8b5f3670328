/** The member names of the canonicalized documents, and the tags that tell the names of one document apart. */
module MemberNames {
  import opened Base

  /** Length and last character: enough to tell the member names of each document apart. */
  function Tag(name: JsString): nat {
    if name == [] then 0 else |name| * 0x1_0000 + name[|name| - 1]
  }

  const K_ARGV: JsString := Ascii("argv")
  const K_ARTIFACT_ID: JsString := Ascii("artifactId")
  const K_ARTIFACTS: JsString := Ascii("artifacts")
  const K_BASE_COMMIT: JsString := Ascii("baseCommit")
  const K_BINDING: JsString := Ascii("binding")
  const K_BUILTIN_ID: JsString := Ascii("builtinId")
  const K_BYTE_LENGTH: JsString := Ascii("byteLength")
  const K_CANDIDATE: JsString := Ascii("candidate")
  const K_CANDIDATE_ID: JsString := Ascii("candidateId")
  const K_CAPABILITY_INDEX: JsString := Ascii("capabilityIndex")
  const K_CHECK_ID: JsString := Ascii("checkId")
  const K_CHECKS: JsString := Ascii("checks")
  const K_COMPILED_PLAN: JsString := Ascii("compiledPlan")
  const K_COMPLETED_AT: JsString := Ascii("completedAt")
  const K_DEPENDS_ON: JsString := Ascii("dependsOn")
  const K_DIGEST: JsString := Ascii("digest")
  const K_EFFECT: JsString := Ascii("effect")
  const K_ENV_ALLOWLIST: JsString := Ascii("envAllowlist")
  const K_EVIDENCE: JsString := Ascii("evidence")
  const K_FILESYSTEM: JsString := Ascii("filesystem")
  const K_ID: JsString := Ascii("id")
  const K_INPUT_MANIFEST: JsString := Ascii("inputManifest")
  const K_INPUTS: JsString := Ascii("inputs")
  const K_KERNEL_RELEASE: JsString := Ascii("kernelRelease")
  const K_KIND: JsString := Ascii("kind")
  const K_MEDIA_TYPE: JsString := Ascii("mediaType")
  const K_NETWORK: JsString := Ascii("network")
  const K_OUTCOME: JsString := Ascii("outcome")
  const K_OUTPUT_SCHEMA_ID: JsString := Ascii("outputSchemaId")
  const K_PACK_DIGEST: JsString := Ascii("packDigest")
  const K_PACK_ID: JsString := Ascii("packId")
  const K_PACK_VERSION: JsString := Ascii("packVersion")
  const K_PACKS: JsString := Ascii("packs")
  const K_PHASE: JsString := Ascii("phase")
  const K_PLAN_DIGEST: JsString := Ascii("planDigest")
  const K_PROFILE: JsString := Ascii("profile")
  const K_PROFILE_ID: JsString := Ascii("profileId")
  const K_REASON_CODES: JsString := Ascii("reasonCodes")
  const K_REDUCER_RELEASE: JsString := Ascii("reducerRelease")
  const K_REPOSITORY_ID: JsString := Ascii("repositoryId")
  const K_RESULT_CONSUMER: JsString := Ascii("resultConsumer")
  const K_SCHEMA: JsString := Ascii("schema")
  const K_SCHEMA_VERSION: JsString := Ascii("schemaVersion")
  const K_SOURCE_DIGESTS: JsString := Ascii("sourceDigests")
  const K_STARTED_AT: JsString := Ascii("startedAt")
  const K_TIMEOUT_SECONDS: JsString := Ascii("timeoutSeconds")
  const K_VALIDATOR: JsString := Ascii("validator")
  const K_VALIDATOR_DIGEST: JsString := Ascii("validatorDigest")
  const K_VALIDATOR_ID: JsString := Ascii("validatorId")
  const K_VERSION: JsString := Ascii("version")
  const K_WORK_CONTRACT: JsString := Ascii("workContract")

  lemma Tags1()
    ensures Tag(K_ARGV) == 0x40076
    ensures Tag(K_ARTIFACT_ID) == 0xA0064
    ensures Tag(K_ARTIFACTS) == 0x90073
    ensures Tag(K_BASE_COMMIT) == 0xA0074
    ensures Tag(K_BINDING) == 0x70067
    ensures Tag(K_BUILTIN_ID) == 0x90064
    ensures Tag(K_BYTE_LENGTH) == 0xA0068
    ensures Tag(K_CANDIDATE) == 0x90065
    ensures Tag(K_CANDIDATE_ID) == 0xB0064
  {
  }

  lemma Tags2()
    ensures Tag(K_CAPABILITY_INDEX) == 0xF0078
    ensures Tag(K_CHECK_ID) == 0x70064
    ensures Tag(K_CHECKS) == 0x60073
    ensures Tag(K_COMPILED_PLAN) == 0xC006E
    ensures Tag(K_COMPLETED_AT) == 0xB0074
    ensures Tag(K_DEPENDS_ON) == 0x9006E
    ensures Tag(K_DIGEST) == 0x60074
    ensures Tag(K_EFFECT) == 0x60074
    ensures Tag(K_ENV_ALLOWLIST) == 0xC0074
  {
  }

  lemma Tags3()
    ensures Tag(K_EVIDENCE) == 0x80065
    ensures Tag(K_FILESYSTEM) == 0xA006D
    ensures Tag(K_ID) == 0x20064
    ensures Tag(K_INPUT_MANIFEST) == 0xD0074
    ensures Tag(K_INPUTS) == 0x60073
    ensures Tag(K_KERNEL_RELEASE) == 0xD0065
    ensures Tag(K_KIND) == 0x40064
    ensures Tag(K_MEDIA_TYPE) == 0x90065
    ensures Tag(K_NETWORK) == 0x7006B
  {
  }

  lemma Tags4()
    ensures Tag(K_OUTCOME) == 0x70065
    ensures Tag(K_OUTPUT_SCHEMA_ID) == 0xE0064
    ensures Tag(K_PACK_DIGEST) == 0xA0074
    ensures Tag(K_PACK_ID) == 0x60064
    ensures Tag(K_PACK_VERSION) == 0xB006E
    ensures Tag(K_PACKS) == 0x50073
    ensures Tag(K_PHASE) == 0x50065
    ensures Tag(K_PLAN_DIGEST) == 0xA0074
    ensures Tag(K_PROFILE) == 0x70065
  {
  }

  lemma Tags5()
    ensures Tag(K_PROFILE_ID) == 0x90064
    ensures Tag(K_REASON_CODES) == 0xB0073
    ensures Tag(K_REDUCER_RELEASE) == 0xE0065
    ensures Tag(K_REPOSITORY_ID) == 0xC0064
    ensures Tag(K_RESULT_CONSUMER) == 0xE0072
    ensures Tag(K_SCHEMA) == 0x60061
    ensures Tag(K_SCHEMA_VERSION) == 0xD006E
    ensures Tag(K_SOURCE_DIGESTS) == 0xD0073
    ensures Tag(K_STARTED_AT) == 0x90074
  {
  }

  lemma Tags6()
    ensures Tag(K_TIMEOUT_SECONDS) == 0xE0073
    ensures Tag(K_VALIDATOR) == 0x90072
    ensures Tag(K_VALIDATOR_DIGEST) == 0xF0074
    ensures Tag(K_VALIDATOR_ID) == 0xB0064
    ensures Tag(K_VERSION) == 0x7006E
    ensures Tag(K_WORK_CONTRACT) == 0xC0074
  {
  }

  lemma NameTags()
    ensures Tag(K_ARGV) == 0x40076
    ensures Tag(K_ARTIFACT_ID) == 0xA0064
    ensures Tag(K_ARTIFACTS) == 0x90073
    ensures Tag(K_BASE_COMMIT) == 0xA0074
    ensures Tag(K_BINDING) == 0x70067
    ensures Tag(K_BUILTIN_ID) == 0x90064
    ensures Tag(K_BYTE_LENGTH) == 0xA0068
    ensures Tag(K_CANDIDATE) == 0x90065
    ensures Tag(K_CANDIDATE_ID) == 0xB0064
    ensures Tag(K_CAPABILITY_INDEX) == 0xF0078
    ensures Tag(K_CHECK_ID) == 0x70064
    ensures Tag(K_CHECKS) == 0x60073
    ensures Tag(K_COMPILED_PLAN) == 0xC006E
    ensures Tag(K_COMPLETED_AT) == 0xB0074
    ensures Tag(K_DEPENDS_ON) == 0x9006E
    ensures Tag(K_DIGEST) == 0x60074
    ensures Tag(K_EFFECT) == 0x60074
    ensures Tag(K_ENV_ALLOWLIST) == 0xC0074
    ensures Tag(K_EVIDENCE) == 0x80065
    ensures Tag(K_FILESYSTEM) == 0xA006D
    ensures Tag(K_ID) == 0x20064
    ensures Tag(K_INPUT_MANIFEST) == 0xD0074
    ensures Tag(K_INPUTS) == 0x60073
    ensures Tag(K_KERNEL_RELEASE) == 0xD0065
    ensures Tag(K_KIND) == 0x40064
    ensures Tag(K_MEDIA_TYPE) == 0x90065
    ensures Tag(K_NETWORK) == 0x7006B
    ensures Tag(K_OUTCOME) == 0x70065
    ensures Tag(K_OUTPUT_SCHEMA_ID) == 0xE0064
    ensures Tag(K_PACK_DIGEST) == 0xA0074
    ensures Tag(K_PACK_ID) == 0x60064
    ensures Tag(K_PACK_VERSION) == 0xB006E
    ensures Tag(K_PACKS) == 0x50073
    ensures Tag(K_PHASE) == 0x50065
    ensures Tag(K_PLAN_DIGEST) == 0xA0074
    ensures Tag(K_PROFILE) == 0x70065
    ensures Tag(K_PROFILE_ID) == 0x90064
    ensures Tag(K_REASON_CODES) == 0xB0073
    ensures Tag(K_REDUCER_RELEASE) == 0xE0065
    ensures Tag(K_REPOSITORY_ID) == 0xC0064
    ensures Tag(K_RESULT_CONSUMER) == 0xE0072
    ensures Tag(K_SCHEMA) == 0x60061
    ensures Tag(K_SCHEMA_VERSION) == 0xD006E
    ensures Tag(K_SOURCE_DIGESTS) == 0xD0073
    ensures Tag(K_STARTED_AT) == 0x90074
    ensures Tag(K_TIMEOUT_SECONDS) == 0xE0073
    ensures Tag(K_VALIDATOR) == 0x90072
    ensures Tag(K_VALIDATOR_DIGEST) == 0xF0074
    ensures Tag(K_VALIDATOR_ID) == 0xB0064
    ensures Tag(K_VERSION) == 0x7006E
    ensures Tag(K_WORK_CONTRACT) == 0xC0074
  {
    hide Tag;
    Tags1(); Tags2(); Tags3(); Tags4(); Tags5(); Tags6();
  }
}
