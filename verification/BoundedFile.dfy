/** The streamed file hash with its preview, and the preview's decoding. */
module BoundedFile {
  import opened Base
  import opened Text
  import opened Utf8Stream

  /** An incremental hash: it digests the concatenation of its updates. */
  class HashState {
    var absorbed: Bytes

    constructor ()
      ensures absorbed == []
    {
      absorbed := [];
    }

    method Update(bytes: Bytes)
      modifies this
      ensures absorbed == old(absorbed) + bytes
    {
      absorbed := absorbed + bytes;
    }

    method Finish(hash: Hash) returns (d: Digest)
      ensures d == hash(absorbed)
    {
      d := hash(absorbed);
    }
  }

  /** `TextDecoder("utf-8", { fatal: true })` used with `stream: true`. */
  class StreamDecoder {
    var pending: Bytes

    constructor ()
      ensures pending == []
    {
      pending := [];
    }

    /** Decode one more chunk; false is the decoder's exception. */
    method Decode(chunk: Bytes) returns (ok: bool)
      modifies this
      ensures ok <==> FeedAll(old(pending), chunk).Some?
      ensures ok ==> FeedAll(old(pending), chunk) == Some(pending)
    {
      ghost var start := pending;
      var k := 0;
      while k < |chunk|
        invariant 0 <= k <= |chunk|
        invariant FeedAll(pending, chunk[k..]) == FeedAll(start, chunk)
      {
        match Feed(pending, chunk[k]) {
          case None => return false;
          case Some(p) => pending := p;
        }
        assert chunk[k..][1..] == chunk[k + 1..];
        k := k + 1;
      }
      return true;
    }

    /** The final, non-streaming decode: it throws on an unfinished character. */
    method Flush() returns (ok: bool)
      ensures ok <==> pending == []
    {
      ok := pending == [];
    }
  }

  datatype Inspected = Inspected(digest: Digest, byteLength: nat, preview: Bytes, utf8Valid: bool)

  datatype FileError = InvalidBounds | NotBoundedRegularFile | ChangedDuringRead | GrewDuringRead

  /**
   What the host answers about one descriptor: the file's type and bytes, how many bytes each read call returns at
   most (0 is an early end), whether the second stat agrees with the first, and whether the final probe reads a byte.
   */
  datatype Host = Host(isFile: bool, file: Bytes, readCounts: nat -> nat, stable: bool, grew: bool)

  const CHUNK_BYTES: nat := 64 * 1024

  /** How many bytes the first `n` reads return, were there no end to the file: at most a chunk at a time. */
  ghost function BytesRead(host: Host, n: nat): nat {
    if n == 0 then 0 else BytesRead(host, n - 1) + Min(host.readCounts(n - 1), Min(CHUNK_BYTES, Max(1, |host.file|)))
  }

  /** Reads that all return something get through the file. */
  ghost predicate ReadsToEnd(host: Host) {
    exists n: nat :: (forall k :: 0 <= k < n ==> host.readCounts(k) > 0) && BytesRead(host, n) >= |host.file|
  }

  lemma {:induction false} BytesReadGrow(host: Host, m: nat, n: nat)
    requires m <= n
    ensures BytesRead(host, m) <= BytesRead(host, n)
  {
    if m < n { BytesReadGrow(host, m, n - 1); }
  }

  lemma ReachesEnd(host: Host, n: nat)
    requires (forall k :: 0 <= k < n ==> host.readCounts(k) > 0) && BytesRead(host, n) >= |host.file|
    ensures ReadsToEnd(host)
  {
  }

  /** A read that returns nothing before the end is the last one. */
  lemma StopsShort(host: Host, turn: nat)
    requires host.readCounts(turn) == 0 && BytesRead(host, turn) < |host.file|
    ensures !ReadsToEnd(host)
  {
    forall n: nat | forall k :: 0 <= k < n ==> host.readCounts(k) > 0 ensures BytesRead(host, n) < |host.file| {
      assert n <= turn;
      BytesReadGrow(host, n, turn);
    }
  }

  /** `hashBoundedRegularFile`. */
  method HashBoundedRegularFile(hash: Hash, host: Host, maxBytes: nat, previewBytes: nat, validateUtf8: bool)
    returns (r: Result<Inspected, FileError>)
    ensures r.Ok? ==> r.value == Inspected(
                        hash(host.file),
                        |host.file|,
                        host.file[..Min(previewBytes, |host.file|)],
                        validateUtf8 ==> Utf8(host.file))
    ensures var bounded, whole := host.isFile && |host.file| <= maxBytes, host.stable && ReadsToEnd(host);
      && (r == Err(InvalidBounds) <==> previewBytes > maxBytes)
      && (r == Err(NotBoundedRegularFile) <==> previewBytes <= maxBytes && !bounded)
      && (r == Err(ChangedDuringRead) <==> previewBytes <= maxBytes && bounded && !whole)
      && (r == Err(GrewDuringRead) <==> previewBytes <= maxBytes && bounded && whole && host.grew)
  {
    hide BytesRead, FeedAll, ReadsToEnd;
    if previewBytes > maxBytes { return Err(InvalidBounds); }
    if !host.isFile || |host.file| > maxBytes { return Err(NotBoundedRegularFile); }
    var expectedSize := |host.file|;
    var digest := new HashState();
    var decoder := new StreamDecoder();
    var preview := new Byte[Min(previewBytes, expectedSize)](k => 0);
    var offset, utf8Valid := ReadChunks(host, digest, decoder, preview, validateUtf8);
    FeedAllDecidesUtf8(host.file);
    assert host.file[..expectedSize] == host.file;
    if validateUtf8 && utf8Valid {
      utf8Valid := decoder.Flush();
    }
    if offset != expectedSize || !host.stable { return Err(ChangedDuringRead); }
    if host.grew { return Err(GrewDuringRead); }
    assert preview[..] == host.file[..preview.Length];
    var d := digest.Finish(hash);
    return Ok(Inspected(d, expectedSize, preview[..], utf8Valid));
  }

  /** The reading loop: hash, preview and decoder take in the file chunk by chunk until a read returns nothing. */
  method ReadChunks(host: Host, digest: HashState, decoder: StreamDecoder, preview: array<Byte>, validateUtf8: bool)
    returns (offset: nat, utf8Valid: bool)
    requires digest.absorbed == [] && decoder.pending == [] && preview.Length <= |host.file|
    modifies digest, decoder, preview
    ensures offset <= |host.file| && (offset == |host.file| <==> ReadsToEnd(host))
    ensures digest.absorbed == host.file[..offset]
    ensures forall k :: 0 <= k < preview.Length && k < offset ==> preview[k] == host.file[k]
    ensures validateUtf8 ==> (utf8Valid <==> FeedAll([], host.file[..offset]).Some?)
    ensures validateUtf8 && utf8Valid ==> FeedAll([], host.file[..offset]) == Some(decoder.pending)
    ensures !validateUtf8 ==> utf8Valid
  {
    hide FeedAll, ReadsToEnd;
    var expectedSize := |host.file|;
    var chunkLength := Min(CHUNK_BYTES, Max(1, expectedSize));
    var turn := 0;
    offset, utf8Valid := 0, true;
    NothingFed();
    while offset < expectedSize
      invariant offset == Min(expectedSize, BytesRead(host, turn))
      invariant forall k :: 0 <= k < turn ==> host.readCounts(k) > 0
      invariant digest.absorbed == host.file[..offset]
      invariant forall k :: 0 <= k < preview.Length && k < offset ==> preview[k] == host.file[k]
      invariant validateUtf8 ==> (utf8Valid <==> FeedAll([], host.file[..offset]).Some?)
      invariant validateUtf8 && utf8Valid ==> FeedAll([], host.file[..offset]) == Some(decoder.pending)
      invariant !validateUtf8 ==> utf8Valid
      decreases expectedSize - offset
    {
      var count := Min(host.readCounts(turn), Min(chunkLength, expectedSize - offset));
      if count == 0 {
        StopsShort(host, turn);
        return;
      }
      var bytes := host.file[offset..offset + count];
      digest.Update(bytes);
      CopyInto(preview, offset, bytes);
      assert host.file[..offset + count] == host.file[..offset] + bytes;
      FeedAllConcat([], host.file[..offset], bytes);
      if validateUtf8 && utf8Valid {
        utf8Valid := decoder.Decode(bytes);
      }
      offset, turn := offset + count, turn + 1;
    }
    ReachesEnd(host, turn);
  }

  lemma NothingFed()
    ensures forall file: Bytes :: FeedAll([], file[..0]) == Some([])
  {
  }

  /** Copy the part of `bytes` that still fits into the preview at `offset`. */
  method CopyInto(preview: array<Byte>, offset: nat, bytes: Bytes)
    modifies preview
    ensures forall k :: 0 <= k < preview.Length ==>
      preview[k] == if offset <= k < offset + |bytes| then bytes[k - offset] else old(preview[k])
  {
    if offset < preview.Length {
      var n := Min(|bytes|, preview.Length - offset);
      forall k | 0 <= k < n {
        preview[offset + k] := bytes[k];
      }
    }
  }

  // ---------- decoding a preview ----------

  datatype Preview = Preview(text: JsString, returnedBytes: nat)

  /** `decodePreview`: drop at most three bytes to end on a whole character. */
  method DecodePreview(bytes: Bytes) returns (r: Option<Preview>)
    ensures r.Some? ==>
      var n := r.value.returnedBytes;
      && |bytes| - 3 <= n <= |bytes|
      && Text.Decode(bytes[..n]) == Some(r.value.text)
      && forall m :: n < m <= |bytes| ==> !Utf8(bytes[..m])
    ensures r.None? ==> forall m :: 0 <= m <= |bytes| && |bytes| - 3 <= m ==> !Utf8(bytes[..m])
  {
    var trim := 0;
    while trim <= Min(3, |bytes|)
      invariant 0 <= trim <= Min(3, |bytes|) + 1
      invariant forall m :: |bytes| - trim < m <= |bytes| ==> !Utf8(bytes[..m])
      decreases 4 - trim
    {
      var candidate := bytes[..|bytes| - trim];
      DecodeSucceedsOnUtf8(candidate);
      match Text.Decode(candidate) {
        case Some(text) => return Some(Preview(text, |candidate|));
        case None =>
      }
      trim := trim + 1;
    }
    return None;
  }

  /**
   Every prefix of a UTF-8 file has a UTF-8 prefix at most three bytes shorter, so `decodePreview` never gives up on
   one.
   */
  lemma PreviewOfUtf8File(file: Bytes, k: nat)
    requires Utf8(file) && k <= |file|
    ensures exists m :: 0 <= m <= k && k - 3 <= m && Utf8(file[..k][..m])
  {
    FeedAllDecidesUtf8(file);
    assert file == file[..k] + file[k..];
    FeedAllConcat([], file[..k], file[k..]);
    var whole := PendingSplit(file[..k]);
    assert file[..k][..|whole|] == whole;
  }

  /** The preview of a UTF-8 file decodes to the whole characters it holds, and drops exactly the unfinished one. */
  method InspectText(hash: Hash, host: Host, maxBytes: nat, previewBytes: nat)
    returns (r: Result<Inspected, FileError>, text: Option<Preview>)
    ensures r.Ok? ==> (text.Some? <==> Utf8(host.file))
    ensures r.Ok? && text.Some? ==>
      var n := text.value.returnedBytes;
      var shown := Min(previewBytes, |host.file|);
      && shown - 3 <= n <= shown
      && Text.Decode(host.file[..n]) == Some(text.value.text)
      && (n < shown ==> FeedAll([], host.file[n..shown]) == Some(host.file[n..shown]))
  {
    text := None;
    r := HashBoundedRegularFile(hash, host, maxBytes, previewBytes, true);
    if r.Ok? && r.value.utf8Valid {
      var shown := r.value.preview;
      text := DecodePreview(shown);
      PreviewOfUtf8File(host.file, |shown|);
      var n := text.value.returnedBytes;
      assert shown[..n] == host.file[..n];
      DecodeSucceedsOnUtf8(shown[..n]);
      PreviewTail(host.file, |shown|, n);
    }
  }

  lemma PreviewTail(file: Bytes, shown: nat, n: nat)
    requires Utf8(file) && n <= shown <= |file| && Utf8(file[..shown][..n])
    requires forall m :: n < m <= shown ==> !Utf8(file[..shown][..m])
    ensures n < shown ==> FeedAll([], file[n..shown]) == Some(file[n..shown])
  {
    hide CharLength, FeedAll, IsChar;
    var b := file[..shown];
    FeedAllDecidesUtf8(file);
    assert file == b + file[shown..];
    FeedAllConcat([], b, file[shown..]);
    var whole := PendingSplit(b);
    var q := FeedAll([], b).value;
    assert b[..|whole|] == whole;
    if n > |whole| {
      FewerBytesStayUnfinished(b, shown - n);
    }
    assert file[n..shown] == q;
    if q != [] {
      PartialPends(q, |q|);
      assert q[..|q|] == q;
    }
  }
}
