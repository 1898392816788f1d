/** The content-addressed caches of `oci.rs`: one task filling a blob or a layer.
    SHA-256 is any function from bytes to digests. */
module BlobCache {
  import opened Wrappers

  type Byte = b: nat | b < 256
  type Bytes = seq<Byte>
  type Digest = nat
  type Hash = Bytes -> Digest

  const U64_MAX: nat := 0xFFFF_FFFF_FFFF_FFFF
  const NAME_ATTEMPTS: nat := 8

  datatype Descriptor = Descriptor(digest: Digest, size: nat)

  datatype Compression = Identity | Gzip | Zstd

  /** A cache file's name: the blob's digest, or the layer's diff ID, digest and codec. */
  datatype Key = BlobKey(digest: Digest) | LayerKey(diffId: Digest, compressed: Digest, compression: Compression)

  datatype Path = Final(key: Key) | Partial(key: Key, unique: nat)

  datatype Node = File(content: Bytes) | Directory(empty: bool) | Special

  datatype CacheError =
    | TooLarge | Transport | Status | InvalidHeader | Decompression | Io
    | SizeMismatch(actual: nat) | DigestMismatch(actual: Digest) | DiffIdMismatch(actual: Digest)

  /** What a task wants in the cache, with the ceilings it works under. */
  datatype Request =
    | BlobRequest(descriptor: Descriptor)
    | LayerRequest(descriptor: Descriptor, diffId: Digest, compression: Compression, limit: nat)

  function KeyOf(r: Request): Key {
    match r
    case BlobRequest(d) => BlobKey(d.digest)
    case LayerRequest(d, diffId, compression, _) => LayerKey(diffId, d.digest, compression)
  }

  /** The length as the code counts it, by saturating additions on 64 bits. */
  function Size(bytes: Bytes): nat {
    if |bytes| <= U64_MAX then |bytes| else U64_MAX
  }

  /** The content belongs under the key. */
  predicate Matches(hash: Hash, key: Key, content: Bytes) {
    match key
    case BlobKey(digest) => hash(content) == digest
    case LayerKey(diffId, _, _) => hash(content) == diffId
  }

  /** And it is what this request, not just its key, asked for. */
  predicate Satisfies(hash: Hash, r: Request, content: Bytes) {
    && Matches(hash, KeyOf(r), content)
    && (r.BlobRequest? ==> Size(content) == r.descriptor.size)
    && (r.LayerRequest? ==> |content| <= r.limit)
  }

  datatype FileState = Missing | Valid | Corrupt

  /** `verify_cache_file` and `verify_uncompressed_layer_file`. The blob's size is looked at
      only after its digest, the layer's before. */
  function Verify(hash: Hash, r: Request, node: Option<Node>, readable: bool): Result<FileState, CacheError> {
    if node.None? then Ok(Missing)
    else if !node.value.File? then Ok(Corrupt)
    else
      var content := node.value.content;
      if r.LayerRequest? && |content| > r.limit then Err(TooLarge)
      else if !readable then Err(Io)
      else if !Matches(hash, KeyOf(r), content) then Ok(Corrupt)
      else if r.BlobRequest? && Size(content) != r.descriptor.size then Err(SizeMismatch(Size(content)))
      else Ok(Valid)
  }

  /** The next chunk may be written: the running total stays within the request. */
  predicate Fits(r: Request, got: Bytes) {
    if r.BlobRequest? then Size(got) <= r.descriptor.size else |got| <= r.limit
  }

  /** The last checks before a rename. `raw` is the registry's bytes: the blob itself, or the
      stream a layer was decoded from. */
  function Refusal(hash: Hash, r: Request, raw: Bytes, got: Bytes): Option<CacheError> {
    if Size(raw) != r.descriptor.size then Some(SizeMismatch(Size(raw)))
    else if hash(raw) != r.descriptor.digest then Some(DigestMismatch(hash(raw)))
    else if r.LayerRequest? && hash(got) != r.diffId then Some(DiffIdMismatch(hash(got)))
    else None
  }

  /** Without a refusal it was the disk. */
  function Reason(refusal: Option<CacheError>): CacheError {
    if refusal.Some? then refusal.value else Io
  }

  /** What looking at an entry answers, case by case. */
  lemma VerifiedExactly(hash: Hash, r: Request, node: Option<Node>, readable: bool)
    ensures
      var state := Verify(hash, r, node, readable);
      var tooLong := r.LayerRequest? && node.Some? && node.value.File? && |node.value.content| > r.limit;
      && (state == Ok(Missing) <==> node.None?)
      && (state == Ok(Valid) <==>
          readable && node.Some? && node.value.File? && Satisfies(hash, r, node.value.content))
      && (state == Ok(Corrupt) <==>
          && node.Some?
          && (!node.value.File? || (!tooLong && readable && !Matches(hash, KeyOf(r), node.value.content))))
      && (state.Err? ==>
            && node.Some? && node.value.File?
            && state.error == if tooLong then TooLarge
                              else if !readable then Io else SizeMismatch(Size(node.value.content)))
  {
  }

  // ----- One task

  datatype Chunk = Lost | Chunk(bytes: Bytes, written: bool)

  datatype HeaderDigest = Absent | Malformed | Present(digest: Digest)

  datatype Response =
    | NoResponse
    | Response(success: bool, header: HeaderDigest, contentLength: Option<nat>, chunks: seq<Chunk>)

  /** Reads of the decoder: an error, or decoded bytes. */
  datatype Decoded = Decoded(pieces: seq<Chunk>, raw: Bytes)

  /** What file operations answer, and the random names tried for the work file. */
  datatype Disk = Disk(names: seq<nat>, readable: bool, removable: bool, creatable: bool, synced: bool, renamed: bool)

  function Body(chunks: seq<Chunk>): Bytes {
    if chunks == [] then []
    else if chunks[0].Lost? then Body(chunks[1..])
    else chunks[0].bytes + Body(chunks[1..])
  }

  /** Receiving chunk after chunk on top of what has been received. */
  function Receive(r: Request, chunks: seq<Chunk>, lost: CacheError, got: Bytes): Result<Bytes, CacheError> {
    if chunks == [] then Ok(got)
    else if chunks[0].Lost? then Err(lost)
    else
      var next := got + chunks[0].bytes;
      if !Fits(r, next) then Err(if r.BlobRequest? then SizeMismatch(Size(next)) else TooLarge)
      else if !chunks[0].written then Err(Io)
      else Receive(r, chunks[1..], lost, next)
  }

  /** Checking every running total is checking the whole: the chunks are received exactly when
      none is lost, every write succeeds and the complete body fits. */
  lemma {:induction false} ReceivedExactly(r: Request, chunks: seq<Chunk>, lost: CacheError, got: Bytes)
    ensures (forall k :: 0 <= k < |chunks| ==> chunks[k].Chunk? && chunks[k].written)
            && (chunks != [] ==> Fits(r, got + Body(chunks)))
            <==> Receive(r, chunks, lost, got).Ok?
    ensures Receive(r, chunks, lost, got).Ok? ==> Receive(r, chunks, lost, got).value == got + Body(chunks)
  {
    if chunks == [] {
      assert got + Body(chunks) == got;
    } else if chunks[0].Chunk? {
      var next := got + chunks[0].bytes;
      ReceivedExactly(r, chunks[1..], lost, next);
      assert next + Body(chunks[1..]) == got + Body(chunks);
      if Fits(r, got + Body(chunks)) {
        assert Fits(r, next);
      }
      assert chunks[1..] == [] ==> Body(chunks) == chunks[0].bytes + [];
      assert forall k :: 1 <= k < |chunks| ==> chunks[k] == chunks[1..][k - 1];
    }
  }

  /** The first chunk that is lost, does not fit or cannot be written decides the error. */
  lemma {:induction false} ReceiveFails(r: Request, chunks: seq<Chunk>, lost: CacheError, got: Bytes, k: nat)
    requires k < |chunks| && forall j :: 0 <= j < k ==> chunks[j].Chunk? && chunks[j].written
    requires k > 0 ==> Fits(r, got + Body(chunks[..k]))
    requires
      || chunks[k].Lost?
      || !Fits(r, got + Body(chunks[..k]) + chunks[k].bytes)
      || !chunks[k].written
    ensures
      Receive(r, chunks, lost, got) ==
      if chunks[k].Lost? then Err(lost)
      else
        var next := got + Body(chunks[..k]) + chunks[k].bytes;
        if Fits(r, next) then Err(Io)
        else Err(if r.BlobRequest? then SizeMismatch(Size(next)) else TooLarge)
  {
    if k == 0 {
      assert got + Body(chunks[..0]) == got;
    } else {
      var first, rest := chunks[0].bytes, chunks[1..];
      assert chunks[..k][1..] == rest[..k - 1];
      assert got + Body(chunks[..k]) == got + first + Body(rest[..k - 1]);
      ReceiveFails(r, rest, lost, got + first, k - 1);
    }
  }

  /** The answer's head: too large to ask for, or refused before anything is written. */
  function HeadRefusal(d: Descriptor, limit: nat, response: Response): Option<CacheError> {
    if d.size > limit then Some(TooLarge)
    else if response.NoResponse? then Some(Transport)
    else if !response.success then Some(Status)
    else if response.header.Malformed? then Some(InvalidHeader)
    else if response.header.Present? && response.header.digest != d.digest
    then Some(DigestMismatch(response.header.digest))
    else if response.contentLength.Some? && response.contentLength.value != d.size
    then Some(SizeMismatch(response.contentLength.value))
    else None
  }

  /** Nothing is asked for above the limit, and the head is let through exactly when it contradicts
      neither digest nor size. */
  lemma HeadRefusalExactly(d: Descriptor, limit: nat, response: Response)
    ensures HeadRefusal(d, limit, response).None? <==>
            && d.size <= limit
            && response.Response? && response.success
            && (response.header == Absent || response.header == Present(d.digest))
            && (response.contentLength == None || response.contentLength == Some(d.size))
    ensures d.size > limit ==> HeadRefusal(d, limit, response) == Some(TooLarge)
    ensures d.size <= limit ==>
              && (response == NoResponse ==> HeadRefusal(d, limit, response) == Some(Transport))
              && (response.Response? && !response.success ==> HeadRefusal(d, limit, response) == Some(Status))
  {
  }

  predicate HasFreeName(files: map<Path, Node>, key: Key, disk: Disk) {
    exists k :: 0 <= k < NAME_ATTEMPTS && k < |disk.names| && Partial(key, disk.names[k]) !in files
  }

  class ImageCache {
    const hash: Hash
    const limit: nat
    var files: map<Path, Node>

    constructor (hash: Hash, limit: nat, files: map<Path, Node>)
      ensures this.hash == hash && this.limit == limit && this.files == files
    {
      this.hash, this.limit, this.files := hash, limit, files;
    }

    /** What a download needs of the registry, of the directory and of the disk. */
    ghost predicate Downloads(d: Descriptor, response: Response, disk: Disk)
      reads this
    {
      && HeadRefusal(d, limit, response).None?
      && HasFreeName(files, BlobKey(d.digest), disk) && disk.creatable
      && (forall k :: 0 <= k < |response.chunks| ==> response.chunks[k].Chunk? && response.chunks[k].written)
      && Size(Body(response.chunks)) == d.size
      && hash(Body(response.chunks)) == d.digest
      && disk.synced && disk.renamed
    }

    /** What a decoding needs of its input, of what comes out of it, of the directory and of the disk. */
    ghost predicate Decodes(request: Request, decoded: Decoded, disk: Disk)
      requires request.LayerRequest?
      reads this
    {
      && disk.readable
      && HasFreeName(files, KeyOf(request), disk) && disk.creatable
      && (forall k :: 0 <= k < |decoded.pieces| ==> decoded.pieces[k].Chunk? && decoded.pieces[k].written)
      && (decoded.pieces != [] ==> |Body(decoded.pieces)| <= request.limit)
      && Size(decoded.raw) == request.descriptor.size
      && hash(decoded.raw) == request.descriptor.digest
      && hash(Body(decoded.pieces)) == request.diffId
      && disk.synced && disk.renamed
    }

    function At(path: Path): Option<Node>
      reads this
    {
      if path in files then Some(files[path]) else None
    }

    method RemoveCacheFile(path: Path, disk: Disk) returns (r: Result<(), CacheError>)
      modifies this`files
      ensures r.Err? ==> r.error == Io
      ensures r.Ok? <==> old(At(path)).None? || (disk.removable && old(At(path)) != Some(Directory(false)))
      ensures files == if r.Ok? then old(files) - {path} else old(files)
    {
      if path !in files { return Ok(()); }
      if !disk.removable || files[path] == Directory(false) { return Err(Io); }
      files := files - {path};
      return Ok(());
    }

    method CreatePartialFile(key: Key, disk: Disk) returns (r: Result<Path, CacheError>)
      modifies this`files
      ensures r.Ok? <==> HasFreeName(old(files), key, disk) && disk.creatable
      ensures r.Err? ==> r.error == Io
      ensures r.Ok? ==> r.value.Partial? && r.value.key == key && r.value !in old(files)
      ensures files == if r.Ok? then old(files)[r.value := File([])] else old(files)
    {
      var k := 0;
      while k < NAME_ATTEMPTS && k < |disk.names|
        invariant 0 <= k <= NAME_ATTEMPTS && k <= |disk.names|
        invariant files == old(files)
        invariant forall j :: 0 <= j < k ==> Partial(key, disk.names[j]) in files
      {
        var path := Partial(key, disk.names[k]);
        if path !in files {
          if !disk.creatable { return Err(Io); }
          files := files[path := File([])];
          return Ok(path);
        }
        k := k + 1;
      }
      return Err(Io);
    }

    /** The receiving loop shared by a download and a decoding: the work file always holds what
        was received, and a failure takes it away again. */
    method ReceiveInto(path: Path, request: Request, chunks: seq<Chunk>, lost: CacheError)
      returns (r: Result<Bytes, CacheError>)
      requires path in files && files[path] == File([])
      modifies this`files
      ensures r == Receive(request, chunks, lost, [])
      ensures files == if r.Ok? then old(files)[path := File(r.value)] else old(files) - {path}
    {
      var k, got := 0, [];
      while k < |chunks|
        invariant 0 <= k <= |chunks|
        invariant Receive(request, chunks, lost, []) == Receive(request, chunks[k..], lost, got)
        invariant files == old(files)[path := File(got)]
      {
        if chunks[k].Lost? { files := files - {path}; return Err(lost); }
        var next := got + chunks[k].bytes;
        if !Fits(request, next) {
          files := files - {path};
          return Err(if request.BlobRequest? then SizeMismatch(Size(next)) else TooLarge);
        }
        if !chunks[k].written { files := files - {path}; return Err(Io); }
        files := files[path := File(next)];
        got, k := next, k + 1;
      }
      return Ok(got);
    }

    /** The closing checks and the rename, or the clean-up. */
    method Publish(path: Path, request: Request, raw: Bytes, got: Bytes, disk: Disk) returns (r: Result<(), CacheError>)
      requires path.Partial? && path in files && files[path] == File(got)
      modifies this`files
      ensures r.Ok? <==> Refusal(hash, request, raw, got).None? && disk.synced && disk.renamed
      ensures r.Err? ==> r.error == Reason(Refusal(hash, request, raw, got))
      ensures files == if r.Ok? then (old(files) - {path})[Final(KeyOf(request)) := File(got)] else old(files) - {path}
    {
      var refusal := Refusal(hash, request, raw, got);
      if refusal.Some? || !disk.synced || !disk.renamed {
        files := files - {path};
        return Err(Reason(refusal));
      }
      files := (files - {path})[Final(KeyOf(request)) := files[path]];
      return Ok(());
    }

    method DownloadBlob(d: Descriptor, response: Response, disk: Disk) returns (r: Result<(), CacheError>)
      modifies this`files
      ensures r.Ok? <==> old(Downloads(d, response, disk))
      ensures r.Ok? ==> files == old(files)[Final(BlobKey(d.digest)) := File(Body(response.chunks))]
      ensures r.Err? ==> files == old(files)
      ensures HeadRefusal(d, limit, response).Some? ==> r == Err(HeadRefusal(d, limit, response).value)
      ensures r.Err? && HeadRefusal(d, limit, response).None? ==>
                var name := HasFreeName(old(files), BlobKey(d.digest), disk) && disk.creatable;
                var received := Receive(BlobRequest(d), response.chunks, Transport, []);
                r.error == if !name then Io
                           else if received.Err? then received.error
                           else Reason(Refusal(hash, BlobRequest(d), received.value, received.value))
    {
      var head := HeadRefusal(d, limit, response);
      if head.Some? { return Err(head.value); }
      var request, chunks := BlobRequest(d), response.chunks;
      ReceivedExactly(request, chunks, Transport, []);
      assert [] + Body(chunks) == Body(chunks);
      var created := CreatePartialFile(KeyOf(request), disk);
      if created.Err? { return Err(created.error); }
      var path := created.value;
      var received := ReceiveInto(path, request, chunks, Transport);
      assert old(files)[path := File([])] - {path} == old(files);
      if received.Err? { return Err(received.error); }
      r := Publish(path, request, received.value, received.value, disk);
      assert files - {path} == if r.Ok? then files else old(files);
    }

    /** A decoded layer is published exactly when the stream read is the verified blob and what
        came out of it has the diff ID and stays within the limit. */
    method DecodeLayer(request: Request, decoded: Decoded, disk: Disk) returns (r: Result<nat, CacheError>)
      requires request.LayerRequest?
      modifies this`files
      ensures r.Ok? <==> old(Decodes(request, decoded, disk))
      ensures r.Ok? ==> r.value == |Body(decoded.pieces)|
      ensures r.Ok? ==> files == old(files)[Final(KeyOf(request)) := File(Body(decoded.pieces))]
      ensures r.Err? ==> files == old(files)
      ensures r.Err? ==>
                var name := HasFreeName(old(files), KeyOf(request), disk) && disk.creatable;
                var received := Receive(request, decoded.pieces, Decompression, []);
                r.error == if !disk.readable || !name then Io
                           else if received.Err? then received.error
                           else Reason(Refusal(hash, request, decoded.raw, received.value))
    {
      if !disk.readable { return Err(Io); }
      ReceivedExactly(request, decoded.pieces, Decompression, []);
      assert [] + Body(decoded.pieces) == Body(decoded.pieces);
      var created := CreatePartialFile(KeyOf(request), disk);
      if created.Err? { return Err(created.error); }
      var path := created.value;
      var received := ReceiveInto(path, request, decoded.pieces, Decompression);
      assert old(files)[path := File([])] - {path} == old(files);
      if received.Err? { return Err(received.error); }
      var published := Publish(path, request, decoded.raw, received.value, disk);
      assert files - {path} == if published.Ok? then files else old(files);
      if published.Err? { return Err(published.error); }
      return Ok(|received.value|);
    }

    /** The entry is good as it is, whatever the registry would answer; or it is missing, or corrupt and
        taken away, and the registry's bytes become it. Nothing else succeeds, and a failure changes
        nothing but a corrupt entry. */
    method CacheDescriptor(d: Descriptor, response: Response, disk: Disk) returns (r: Result<Path, CacheError>)
      modifies this`files
      ensures r.Ok? <==>
              var path := Final(BlobKey(d.digest));
              var state := Verify(hash, BlobRequest(d), old(At(path)), disk.readable);
              || state == Ok(Valid)
              || ((state == Ok(Missing)
                   || (state == Ok(Corrupt) && disk.removable && old(At(path)) != Some(Directory(false))))
                  && old(Downloads(d, response, disk)))
      ensures r.Ok? ==>
                var path := Final(BlobKey(d.digest));
                && r.value == path
                && files == if Verify(hash, BlobRequest(d), old(At(path)), disk.readable) == Ok(Valid) then old(files)
                            else old(files)[path := File(Body(response.chunks))]
      ensures r.Ok? ==> r.value in files && files[r.value].File?
                        && Satisfies(hash, BlobRequest(d), files[r.value].content)
      ensures r.Err? ==>
                var path := Final(BlobKey(d.digest));
                var state := Verify(hash, BlobRequest(d), old(At(path)), disk.readable);
                && files == (if state == Ok(Corrupt) && disk.removable && old(At(path)) != Some(Directory(false))
                             then old(files) - {path} else old(files))
                && (state.Err? ==> r.error == state.error)
                && (state == Ok(Missing) && HeadRefusal(d, limit, response).Some? ==>
                      r.error == HeadRefusal(d, limit, response).value)
    {
      var path, request := Final(BlobKey(d.digest)), BlobRequest(d);
      var state := Verify(hash, request, At(path), disk.readable);
      VerifiedExactly(hash, request, At(path), disk.readable);
      if state.Err? { return Err(state.error); }
      if state.value == Valid { return Ok(path); }
      if state.value == Corrupt {
        var removed := RemoveCacheFile(path, disk);
        if removed.Err? { return Err(removed.error); }
      }
      assert HasFreeName(files, BlobKey(d.digest), disk) <==> old(HasFreeName(files, BlobKey(d.digest), disk));
      var downloaded := DownloadBlob(d, response, disk);
      if downloaded.Err? { return Err(downloaded.error); }
      return Ok(path);
    }

    /** The same for a layer, answering its size too. `readable` is about the entry, the disk's own
        flag about the blob it is decoded from. */
    method CacheLayer(request: Request, decoded: Decoded, readable: bool, disk: Disk)
      returns (r: Result<(Path, nat), CacheError>)
      requires request.LayerRequest?
      modifies this`files
      ensures r.Ok? <==>
              var path := Final(KeyOf(request));
              var state := Verify(hash, request, old(At(path)), readable);
              || state == Ok(Valid)
              || ((state == Ok(Missing)
                   || (state == Ok(Corrupt) && disk.removable && old(At(path)) != Some(Directory(false))))
                  && old(Decodes(request, decoded, disk)))
      ensures r.Ok? ==>
                var path := Final(KeyOf(request));
                && r.value.0 == path
                && files == if Verify(hash, request, old(At(path)), readable) == Ok(Valid) then old(files)
                            else old(files)[path := File(Body(decoded.pieces))]
      ensures r.Ok? ==> r.value.0 in files && files[r.value.0].File? && r.value.1 == |files[r.value.0].content|
                        && Matches(hash, KeyOf(request), files[r.value.0].content)
      ensures r.Err? ==>
                var path := Final(KeyOf(request));
                var state := Verify(hash, request, old(At(path)), readable);
                && files == (if state == Ok(Corrupt) && disk.removable && old(At(path)) != Some(Directory(false))
                             then old(files) - {path} else old(files))
                && (state.Err? ==> r.error == state.error)
    {
      var path := Final(KeyOf(request));
      var state := Verify(hash, request, At(path), readable);
      VerifiedExactly(hash, request, At(path), readable);
      if state.Err? { return Err(state.error); }
      if state.value == Valid { return Ok((path, |files[path].content|)); }
      if state.value == Corrupt {
        var removed := RemoveCacheFile(path, disk);
        if removed.Err? { return Err(removed.error); }
      }
      assert HasFreeName(files, KeyOf(request), disk) <==> old(HasFreeName(files, KeyOf(request), disk));
      var size := DecodeLayer(request, decoded, disk);
      if size.Err? { return Err(size.error); }
      return Ok((path, size.value));
    }
  }
}
