/** Fetching each distinct blob once and decoding each distinct layer once, in `oci.rs`, for
    every order in which the concurrent work may complete. */
module DedupWork {
  import opened Wrappers

  type Digest = nat
  type Path = nat

  // ----- Distinct work, looked up again per item

  ghost predicate HasKey<Item, Key>(items: seq<Item>, key: Item -> Key, k: Key) {
    exists i :: 0 <= i < |items| && key(items[i]) == k
  }

  /** The first item with the key: the one whose work stands for all of them. */
  ghost function FirstWith<Item, Key>(items: seq<Item>, key: Item -> Key, k: Key): (item: Item)
    requires HasKey(items, key, k)
    ensures key(item) == k && item in items
  {
    if key(items[0]) == k then items[0]
    else
      assert HasKey(items[1..], key, k) by {
        var i :| 0 <= i < |items| && key(items[i]) == k;
        assert items[1..][i - 1] == items[i];
      }
      FirstWith(items[1..], key, k)
  }

  lemma {:induction false} FirstWithAt<Item, Key>(items: seq<Item>, key: Item -> Key, n: nat)
    requires n < |items| && forall j :: 0 <= j < n ==> key(items[j]) != key(items[n])
    ensures HasKey(items, key, key(items[n]))
    ensures FirstWith(items, key, key(items[n])) == items[n]
  {
    if n > 0 {
      assert items[1..][n - 1] == items[n];
      FirstWithAt(items[1..], key, n - 1);
    }
  }

  ghost function Keys<Item, Key>(items: seq<Item>, key: Item -> Key): set<Key> {
    set i: nat | i < |items| :: key(items[i])
  }

  lemma KeysGrow<Item, Key>(items: seq<Item>, item: Item, key: Item -> Key)
    ensures Keys(items + [item], key) == Keys(items, key) + {key(item)}
  {
    var all := items + [item];
    forall k | k in Keys(items, key) + {key(item)} ensures k in Keys(all, key) {
      if k in Keys(items, key) {
        var i: nat :| i < |items| && key(items[i]) == k;
        assert all[i] == items[i];
      } else {
        assert all[|items|] == item;
      }
    }
    forall k | k in Keys(all, key) ensures k in Keys(items, key) + {key(item)} {
      var i: nat :| i < |all| && key(all[i]) == k;
      if i < |items| {
        assert all[i] == items[i];
      }
    }
  }

  lemma NewKeyIsFirst<Item, Key>(items: seq<Item>, key: Item -> Key, n: nat)
    requires n < |items| && key(items[n]) !in Keys(items[..n], key)
    ensures HasKey(items, key, key(items[n])) && FirstWith(items, key, key(items[n])) == items[n]
  {
    forall j | 0 <= j < n ensures key(items[j]) != key(items[n]) {
      assert items[..n][j] == items[j];
    }
    FirstWithAt(items, key, n);
  }

  lemma HasKeyGrows<Item, Key>(items: seq<Item>, item: Item, key: Item -> Key, k: Key)
    requires HasKey(items, key, k) || k == key(item)
    ensures HasKey(items + [item], key, k)
  {
    var all := items + [item];
    if i :| 0 <= i < |items| && key(items[i]) == k {
      assert key(all[i]) == k;
    } else {
      assert key(all[|items|]) == k;
    }
  }

  /** Each position of the work list once, in any order. */
  predicate Permutation(order: seq<nat>, n: nat) {
    && |order| == n
    && (forall j :: 0 <= j < n ==> order[j] < n)
    && (forall i, j :: 0 <= i < j < n ==> order[i] != order[j])
    && (forall k :: 0 <= k < n ==> k in order)
  }

  /** No key twice. */
  ghost predicate KeysDiffer<Item, Key>(items: seq<Item>, key: Item -> Key) {
    forall v, w :: 0 <= v < w < |items| ==> key(items[v]) != key(items[w])
  }

  lemma DifferGrows<Item, Key>(items: seq<Item>, item: Item, key: Item -> Key)
    requires KeysDiffer(items, key) && key(item) !in Keys(items, key)
    ensures KeysDiffer(items + [item], key)
  {
    var all := items + [item];
    forall v, w | 0 <= v < w < |all| ensures key(all[v]) != key(all[w]) {
      assert key(items[v]) in Keys(items, key);
    }
  }

  /** The work list: the first item of each key, in the items' order. */
  method DistinctWork<Item, Key(==)>(items: seq<Item>, key: Item -> Key) returns (work: seq<Item>)
    ensures Keys(work, key) == Keys(items, key) && KeysDiffer(work, key)
    ensures forall w :: 0 <= w < |work| ==> work[w] in items && work[w] == FirstWith(items, key, key(work[w]))
  {
    var seen: set<Key> := {};
    work := [];
    for n := 0 to |items|
      invariant seen == Keys(items[..n], key) == Keys(work, key) && KeysDiffer(work, key)
      invariant forall w :: 0 <= w < |work| ==>
                  HasKey(items, key, key(work[w])) && work[w] == FirstWith(items, key, key(work[w]))
    {
      var item := items[n];
      assert items[..n + 1] == items[..n] + [item];
      KeysGrow(items[..n], item, key);
      if key(item) !in seen {
        NewKeyIsFirst(items, key, n);
        KeysGrow(work, item, key);
        DifferGrows(work, item, key);
        work, seen := work + [item], seen + {key(item)};
      } else {
        assert seen + {key(item)} == seen;
      }
    }
    assert items[..|items|] == items;
  }

  /** No key is run twice; all are, when nothing fails, and otherwise the last one run failed. */
  ghost predicate RunOnce<Item, Key, Out, Outs, E>(
      items: seq<Item>, key: Item -> Key, run: Item -> Result<Out, E>, r: Result<Outs, E>, ran: seq<Item>)
  {
    && KeysDiffer(ran, key)
    && (forall item :: item in ran ==> item in items)
    && (r.Ok? ==> Keys(ran, key) == Keys(items, key))
    && (r.Err? ==>
          && ran != [] && run(ran[|ran| - 1]) == Err(r.error)
          && forall m :: 0 <= m < |ran| - 1 ==> run(ran[m]).Ok?)
  }

  /** Some of the work, each position at most once. */
  ghost predicate RunsOf<Item>(ran: seq<Item>, work: seq<Item>, order: seq<nat>) {
    |ran| <= |order| && forall m :: 0 <= m < |ran| ==> order[m] < |work| && ran[m] == work[order[m]]
  }

  lemma RunsDiffer<Item, Key>(ran: seq<Item>, work: seq<Item>, order: seq<nat>, key: Item -> Key)
    requires RunsOf(ran, work, order) && Permutation(order, |work|) && KeysDiffer(work, key)
    ensures KeysDiffer(ran, key) && forall item :: item in ran ==> item in work
  {
    forall v, w | 0 <= v < w < |ran| ensures key(ran[v]) != key(ran[w]) {
      assert order[v] != order[w];
    }
  }

  lemma AllRun<Item, Key>(ran: seq<Item>, work: seq<Item>, order: seq<nat>, key: Item -> Key)
    requires RunsOf(ran, work, order) && Permutation(order, |work|) && |ran| == |work|
    ensures Keys(ran, key) == Keys(work, key) && forall w :: 0 <= w < |work| ==> work[w] in ran
  {
    forall w | 0 <= w < |work| ensures work[w] in ran && key(work[w]) in Keys(ran, key) {
      assert w in order;
      var m :| 0 <= m < |order| && order[m] == w;
      assert ran[m] == work[w];
    }
    forall k | k in Keys(ran, key) ensures k in Keys(work, key) {
      var m: nat :| m < |ran| && key(ran[m]) == k;
      assert ran[m] == work[order[m]];
    }
  }

  /** Runs the work in the order it completes and keeps the results by key, up to a failure. */
  method RunWork<Item, Key(==), Out, E>(
      work: seq<Item>, key: Item -> Key, run: Item -> Result<Out, E>, order: seq<nat>)
    returns (r: Result<map<Key, Out>, E>, ghost ran: seq<Item>)
    requires Permutation(order, |work|) && KeysDiffer(work, key)
    ensures RunOnce(work, key, run, r, ran)
    ensures r.Ok? <==> forall w :: 0 <= w < |work| ==> run(work[w]).Ok?
    ensures r.Ok? ==> forall w :: 0 <= w < |work| ==>
              key(work[w]) in r.value && r.value[key(work[w])] == run(work[w]).value
  {
    ran := [];
    var completed: map<Key, Out> := map[];
    for n := 0 to |order|
      invariant |ran| == n && RunsOf(ran, work, order)
      invariant forall m :: 0 <= m < n ==>
                  run(ran[m]).Ok? && key(ran[m]) in completed && completed[key(ran[m])] == run(ran[m]).value
    {
      var item := work[order[n]];
      ran := ran + [item];
      RunsDiffer(ran, work, order, key);
      var done := run(item);
      if done.Err? { return Err(done.error), ran; }
      completed := completed[key(item) := done.value];
    }
    RunsDiffer(ran, work, order, key);
    AllRun(ran, work, order, key);
    return Ok(completed), ran;
  }

  /** Runs the distinct work and looks every item's result up. The lookup never misses; the
      first failure to complete is the answer when there is one. `orderOf` gives the completion
      order for however many distinct items turn up, and `ran` lists the items that were run. */
  method RunDistinct<Item, Key(==), Out, E>(
      items: seq<Item>, key: Item -> Key, run: Item -> Result<Out, E>, orderOf: nat -> seq<nat>)
    returns (r: Result<seq<Out>, E>, ghost ran: seq<Item>)
    requires forall n :: Permutation(orderOf(n), n)
    ensures RunOnce(items, key, run, r, ran)
    ensures r.Ok? <==> forall i :: 0 <= i < |items| ==> run(FirstWith(items, key, key(items[i]))).Ok?
    ensures r.Ok? ==> |r.value| == |items|
    ensures r.Ok? ==> forall i :: 0 <= i < |items| ==>
              r.value[i] == run(FirstWith(items, key, key(items[i]))).value
  {
    var work := DistinctWork(items, key);
    var completed;
    completed, ran := RunWork(work, key, run, orderOf(|work|));
    FirstsAreTheWork(items, work, key);
    if completed.Err? { return Err(completed.error), ran; }
    var outs := [];
    for i := 0 to |items|
      invariant |outs| == i
      invariant forall j :: 0 <= j < i ==> outs[j] == run(FirstWith(items, key, key(items[j]))).value
    {
      assert FirstWith(items, key, key(items[i])) in work;
      outs := outs + [completed.value[key(items[i])]];
    }
    return Ok(outs), ran;
  }

  lemma FirstsAreTheWork<Item, Key>(items: seq<Item>, work: seq<Item>, key: Item -> Key)
    requires Keys(work, key) == Keys(items, key)
    requires forall w :: 0 <= w < |work| ==> work[w] in items && work[w] == FirstWith(items, key, key(work[w]))
    ensures forall i :: 0 <= i < |items| ==> FirstWith(items, key, key(items[i])) in work
    ensures forall w :: 0 <= w < |work| ==>
              exists i :: 0 <= i < |items| && work[w] == FirstWith(items, key, key(items[i]))
  {
    forall i | 0 <= i < |items| ensures FirstWith(items, key, key(items[i])) in work {
      assert key(items[i]) in Keys(items, key);
      var w: nat :| w < |work| && key(work[w]) == key(items[i]);
    }
    forall w | 0 <= w < |work|
      ensures exists i :: 0 <= i < |items| && work[w] == FirstWith(items, key, key(items[i]))
    {
      var i :| 0 <= i < |items| && items[i] == work[w];
      assert work[w] == FirstWith(items, key, key(items[i]));
    }
  }

  /** The key decides the outcome. */
  ghost predicate KeyDecides<Item, Key, Out, E>(items: seq<Item>, key: Item -> Key, run: Item -> Result<Out, E>) {
    forall i, j :: 0 <= i < |items| && 0 <= j < |items| && key(items[i]) == key(items[j]) ==>
      run(items[i]) == run(items[j])
  }

  // ----- Descriptors

  datatype Descriptor = Descriptor(mediaType: nat, digest: Digest, size: nat)

  datatype Manifest = Manifest(config: Descriptor, layers: seq<Descriptor>)

  function Descriptors(m: Manifest): seq<Descriptor> {
    [m.config] + m.layers
  }

  datatype SizeConflict = ConflictingDescriptorSize(digest: Digest, first: nat, second: nat)

  predicate SizesAgree(ds: seq<Descriptor>) {
    forall i, j :: 0 <= i < j < |ds| && ds[i].digest == ds[j].digest ==> ds[i].size == ds[j].size
  }

  /** Accepts exactly the manifests in which size is a function of digest; otherwise names the
      earliest descriptor that contradicts one before it. */
  method ValidateDescriptorSizes(m: Manifest) returns (r: Result<(), SizeConflict>)
    ensures r.Ok? <==> SizesAgree(Descriptors(m))
    ensures r.Err? ==>
              exists i, j ::
                && 0 <= i < j < |Descriptors(m)|
                && SizesAgree(Descriptors(m)[..j])
                && Descriptors(m)[i].digest == Descriptors(m)[j].digest
                && r.error == ConflictingDescriptorSize(
                                Descriptors(m)[j].digest, Descriptors(m)[i].size, Descriptors(m)[j].size)
                && r.error.first != r.error.second
  {
    var ds := Descriptors(m);
    var sizes: map<Digest, nat> := map[];
    for n := 0 to |ds|
      invariant SizesAgree(ds[..n])
      invariant forall i :: 0 <= i < n ==> ds[i].digest in sizes && sizes[ds[i].digest] == ds[i].size
      invariant forall digest <- sizes :: exists i :: 0 <= i < n && ds[i].digest == digest
    {
      var d := ds[n];
      if d.digest in sizes && sizes[d.digest] != d.size {
        var i :| 0 <= i < n && ds[i].digest == d.digest;
        return Err(ConflictingDescriptorSize(d.digest, sizes[d.digest], d.size));
      }
      sizes := sizes[d.digest := d.size];
    }
    assert ds[..|ds|] == ds;
    return Ok(());
  }

  /** What filling the cache for one descriptor answers: it goes by digest and size. */
  type Fetch<!E> = (Digest, nat) -> Result<Path, E>

  function FetchOf<E>(fetch: Fetch<E>): Descriptor -> Result<Path, E> {
    (d: Descriptor) => fetch(d.digest, d.size)
  }

  function DigestOf(): Descriptor -> Digest {
    (d: Descriptor) => d.digest
  }

  lemma SizesDecideFetch<E>(ds: seq<Descriptor>, fetch: Fetch<E>)
    requires SizesAgree(ds)
    ensures KeyDecides(ds, DigestOf(), FetchOf(fetch))
  {
  }

  datatype CachedBlob = CachedBlob(descriptor: Descriptor, path: Path)

  datatype CachedImage = CachedImage(config: CachedBlob, layers: seq<CachedBlob>)

  /** Each descriptor with the path looked up for it. */
  method PairWithPaths(ds: seq<Descriptor>, paths: seq<Path>) returns (blobs: seq<CachedBlob>)
    requires |ds| == |paths|
    ensures |blobs| == |ds| && forall i :: 0 <= i < |ds| ==> blobs[i] == CachedBlob(ds[i], paths[i])
  {
    blobs := [];
    for i := 0 to |ds|
      invariant |blobs| == i && forall j :: 0 <= j < i ==> blobs[j] == CachedBlob(ds[j], paths[j])
    {
      blobs := blobs + [CachedBlob(ds[i], paths[i])];
    }
  }

  lemma DigestsOf(ds: seq<Descriptor>)
    ensures Keys(ds, DigestOf()) == set d <- ds :: d.digest
  {
    forall d | d in ds ensures d.digest in Keys(ds, DigestOf()) {
      var i :| 0 <= i < |ds| && ds[i] == d;
      assert DigestOf()(ds[i]) == d.digest;
    }
  }

  /** The concurrent form gives what the one-by-one form gives, for every completion order:
      the same success, and every blob with the path verified for its own digest and size. */
  method CacheImageBlobs<E>(m: Manifest, fetch: Fetch<E>, orderOf: nat -> seq<nat>)
    returns (r: Result<CachedImage, E>, ghost fetched: seq<Descriptor>)
    requires SizesAgree(Descriptors(m))
    requires forall n :: Permutation(orderOf(n), n)
    ensures r.Ok? <==>
            && fetch(m.config.digest, m.config.size).Ok?
            && forall i :: 0 <= i < |m.layers| ==> fetch(m.layers[i].digest, m.layers[i].size).Ok?
    ensures r.Ok? ==>
              && r.value.config == CachedBlob(m.config, fetch(m.config.digest, m.config.size).value)
              && |r.value.layers| == |m.layers|
              && forall i :: 0 <= i < |m.layers| ==>
                   r.value.layers[i] == CachedBlob(m.layers[i], fetch(m.layers[i].digest, m.layers[i].size).value)
    ensures r.Err? ==> exists d :: d in Descriptors(m) && fetch(d.digest, d.size) == Err(r.error)
    ensures forall i, j :: 0 <= i < j < |fetched| ==> fetched[i].digest != fetched[j].digest
    ensures r.Ok? ==> (set d <- fetched :: d.digest) == (set d <- Descriptors(m) :: d.digest)
  {
    var ds := Descriptors(m);
    SizesDecideFetch(ds, fetch);
    var paths;
    paths, fetched := RunDistinct(ds, DigestOf(), FetchOf(fetch), orderOf);
    FirstDecides(ds, DigestOf(), FetchOf(fetch));
    assert forall i :: 0 <= i < |m.layers| ==> ds[i + 1] == m.layers[i];
    if paths.Err? { return Err(paths.error), fetched; }
    DigestsOf(ds);
    DigestsOf(fetched);
    var layers := PairWithPaths(m.layers, paths.value[1..]);
    return Ok(CachedImage(CachedBlob(m.config, paths.value[0]), layers)), fetched;
  }

  lemma FirstDecides<Item, Key, Out, E>(items: seq<Item>, key: Item -> Key, run: Item -> Result<Out, E>)
    requires KeyDecides(items, key, run)
    ensures forall i :: 0 <= i < |items| ==> run(FirstWith(items, key, key(items[i]))) == run(items[i])
  {
    forall i | 0 <= i < |items| ensures run(FirstWith(items, key, key(items[i]))) == run(items[i]) {
      var first := FirstWith(items, key, key(items[i]));
      var j :| 0 <= j < |items| && items[j] == first;
    }
  }

  /** Every descriptor's own answer is that of the first descriptor with its digest. */
  ghost predicate FirstStandsForAll(ds: seq<Descriptor>, fetch: Fetch<()>) {
    forall i :: 0 <= i < |ds| ==>
      FetchOf(fetch)(FirstWith(ds, DigestOf(), DigestOf()(ds[i]))) == FetchOf(fetch)(ds[i])
  }

  /** The check on sizes is what makes deduplication right: it is right for every registry
      exactly when the sizes agree. */
  lemma DeduplicationSoundExactly(ds: seq<Descriptor>)
    ensures SizesAgree(ds) <==> forall fetch: Fetch<()> :: FirstStandsForAll(ds, fetch)
  {
    if SizesAgree(ds) {
      forall fetch: Fetch<()> ensures FirstStandsForAll(ds, fetch) {
        SizesDecideFetch(ds, fetch);
        FirstDecides(ds, DigestOf(), FetchOf(fetch));
      }
    } else {
      var i, j :| 0 <= i < j < |ds| && ds[i].digest == ds[j].digest && ds[i].size != ds[j].size;
      assert DigestOf()(ds[i]) == DigestOf()(ds[j]);
      assert HasKey(ds, DigestOf(), DigestOf()(ds[i]));
      var first := FirstWith(ds, DigestOf(), DigestOf()(ds[i]));
      var fetch: Fetch<()> := (digest, size) => if size == first.size then Ok(0) else Err(());
      var k := if first.size == ds[i].size then j else i;
      assert FetchOf(fetch)(first) != FetchOf(fetch)(ds[k]);
      assert !FirstStandsForAll(ds, fetch);
    }
  }

  // ----- Layers

  datatype Compression = Identity | Gzip | Zstd

  datatype LayerWorkKey = LayerWorkKey(compressed: Digest, diffId: Digest, compression: Compression)

  datatype LayerWork = LayerWork(source: CachedBlob, diffId: Digest, compression: Compression)

  datatype DecompressedLayer = DecompressedLayer(source: CachedBlob, diffId: Digest, path: Path, size: nat)

  datatype LayerError<E> = UnsupportedMediaType(mediaType: nat) | DiffIdCountMismatch | Decoding(error: E)

  /** Decoding one layer: it goes by the blob's path, digest and size, the diff ID and the codec. */
  type Decode<!E> = (Path, Digest, nat, Digest, Compression) -> Result<(Path, nat), E>

  function DecodeOf<E>(decode: Decode<E>): LayerWork -> Result<(Path, nat), E> {
    (w: LayerWork) =>
      decode(w.source.path, w.source.descriptor.digest, w.source.descriptor.size, w.diffId, w.compression)
  }

  function WorkKeyOf(): LayerWork -> LayerWorkKey {
    (w: LayerWork) => LayerWorkKey(w.source.descriptor.digest, w.diffId, w.compression)
  }

  function Codec(mediaType: nat, codecs: map<nat, Compression>): Option<Compression> {
    if mediaType in codecs then Some(codecs[mediaType]) else None
  }

  /** Blobs as the blob stage leaves them: path and size are functions of the digest. */
  ghost predicate BlobsAgree(layers: seq<CachedBlob>) {
    forall i, j :: 0 <= i < |layers| && 0 <= j < |layers|
                   && layers[i].descriptor.digest == layers[j].descriptor.digest ==>
      layers[i].path == layers[j].path && layers[i].descriptor.size == layers[j].descriptor.size
  }

  /** The blob stage does leave them so, when the cache path is a function of the digest. */
  lemma CachedBlobsAgree<E>(m: Manifest, fetch: Fetch<E>, pathFor: Digest -> Path, layers: seq<CachedBlob>)
    requires SizesAgree(Descriptors(m))
    requires forall digest, size :: fetch(digest, size).Ok? ==> fetch(digest, size).value == pathFor(digest)
    requires |layers| == |m.layers|
    requires forall i :: 0 <= i < |layers| ==>
               && fetch(m.layers[i].digest, m.layers[i].size).Ok?
               && layers[i] == CachedBlob(m.layers[i], fetch(m.layers[i].digest, m.layers[i].size).value)
    ensures BlobsAgree(layers)
  {
    var ds := Descriptors(m);
    assert forall i :: 0 <= i < |layers| ==> ds[i + 1] == m.layers[i];
    PathsByDigestAgree(ds, layers, pathFor);
  }

  lemma PathsByDigestAgree(ds: seq<Descriptor>, layers: seq<CachedBlob>, pathFor: Digest -> Path)
    requires SizesAgree(ds) && |ds| == |layers| + 1
    requires forall i :: 0 <= i < |layers| ==>
               layers[i].descriptor == ds[i + 1] && layers[i].path == pathFor(ds[i + 1].digest)
    ensures BlobsAgree(layers)
  {
  }

  /** Pairs each layer with its diff ID and codec, or finds the first media type without one. */
  method PlanLayers<E>(layers: seq<CachedBlob>, diffIds: seq<Digest>, codecs: map<nat, Compression>)
    returns (r: Result<seq<LayerWork>, LayerError<E>>)
    requires |diffIds| == |layers|
    ensures r.Ok? <==> forall i :: 0 <= i < |layers| ==> Codec(layers[i].descriptor.mediaType, codecs).Some?
    ensures r.Ok? ==> |r.value| == |layers| && forall i :: 0 <= i < |layers| ==>
              r.value[i] == LayerWork(layers[i], diffIds[i], Codec(layers[i].descriptor.mediaType, codecs).value)
    ensures r.Err? ==>
              exists i ::
                && 0 <= i < |layers|
                && Codec(layers[i].descriptor.mediaType, codecs).None?
                && (forall j :: 0 <= j < i ==> Codec(layers[j].descriptor.mediaType, codecs).Some?)
                && r.error == UnsupportedMediaType(layers[i].descriptor.mediaType)
  {
    var planned := [];
    for n := 0 to |layers|
      invariant |planned| == n
      invariant forall i :: 0 <= i < n ==>
                  Codec(layers[i].descriptor.mediaType, codecs).Some?
                  && planned[i] == LayerWork(layers[i], diffIds[i], Codec(layers[i].descriptor.mediaType, codecs).value)
    {
      var codec := Codec(layers[n].descriptor.mediaType, codecs);
      if codec.None? { return Err(UnsupportedMediaType(layers[n].descriptor.mediaType)); }
      planned := planned + [LayerWork(layers[n], diffIds[n], codec.value)];
    }
    return Ok(planned);
  }

  lemma BlobsDecideDecode<E>(work: seq<LayerWork>, layers: seq<CachedBlob>, decode: Decode<E>)
    requires BlobsAgree(layers) && |work| == |layers|
    requires forall i :: 0 <= i < |work| ==> work[i].source == layers[i]
    ensures KeyDecides(work, WorkKeyOf(), DecodeOf(decode))
  {
  }

  /** Each layer with the file decoded for it. */
  method PairWithFiles(work: seq<LayerWork>, files: seq<(Path, nat)>) returns (outs: seq<DecompressedLayer>)
    requires |work| == |files|
    ensures |outs| == |work|
    ensures forall i :: 0 <= i < |work| ==>
              outs[i] == DecompressedLayer(work[i].source, work[i].diffId, files[i].0, files[i].1)
  {
    outs := [];
    for i := 0 to |work|
      invariant |outs| == i
      invariant forall j :: 0 <= j < i ==>
                  outs[j] == DecompressedLayer(work[j].source, work[j].diffId, files[j].0, files[j].1)
    {
      outs := outs + [DecompressedLayer(work[i].source, work[i].diffId, files[i].0, files[i].1)];
    }
  }

  /** The whole layer stage refines its one-by-one form: for every completion order it succeeds
      on the same images, with each layer's own diff ID and decoded file, in manifest order. */
  method DecompressLayers<E>(
      layers: seq<CachedBlob>, diffIds: seq<Digest>, codecs: map<nat, Compression>, decode: Decode<E>,
      orderOf: nat -> seq<nat>)
    returns (r: Result<seq<DecompressedLayer>, LayerError<E>>, ghost decoded: seq<LayerWork>)
    requires BlobsAgree(layers)
    requires forall n :: Permutation(orderOf(n), n)
    ensures r == Err(DiffIdCountMismatch) <==> |diffIds| != |layers|
    ensures r.Ok? ==> |diffIds| == |layers| == |r.value|
    ensures r.Ok? <==>
            && |diffIds| == |layers|
            && forall i :: 0 <= i < |layers| ==>
                 && Codec(layers[i].descriptor.mediaType, codecs).Some?
                 && decode(layers[i].path, layers[i].descriptor.digest, layers[i].descriptor.size, diffIds[i],
                           Codec(layers[i].descriptor.mediaType, codecs).value).Ok?
    ensures r.Ok? ==> forall i :: 0 <= i < |layers| ==>
              && var each := decode(
                   layers[i].path, layers[i].descriptor.digest, layers[i].descriptor.size, diffIds[i],
                   Codec(layers[i].descriptor.mediaType, codecs).value).value;
              && r.value[i] == DecompressedLayer(layers[i], diffIds[i], each.0, each.1)
    ensures r.Err? && r.error.Decoding? ==>
              exists i ::
                && 0 <= i < |layers| == |diffIds|
                && Codec(layers[i].descriptor.mediaType, codecs).Some?
                && decode(layers[i].path, layers[i].descriptor.digest, layers[i].descriptor.size, diffIds[i],
                          Codec(layers[i].descriptor.mediaType, codecs).value) == Err(r.error.error)
    ensures r.Err? && r.error.UnsupportedMediaType? <==>
            && |diffIds| == |layers|
            && exists i :: 0 <= i < |layers| && Codec(layers[i].descriptor.mediaType, codecs).None?
    ensures KeysDiffer(decoded, WorkKeyOf())
    ensures r.Ok? ==>
              Keys(decoded, WorkKeyOf())
              == set i: nat | i < |layers| ::
                   LayerWorkKey(layers[i].descriptor.digest, diffIds[i],
                                Codec(layers[i].descriptor.mediaType, codecs).value)
  {
    if |diffIds| != |layers| { return Err(DiffIdCountMismatch), []; }
    var planned := PlanLayers<E>(layers, diffIds, codecs);
    if planned.Err? { return Err(planned.error), []; }
    var work := planned.value;
    BlobsDecideDecode(work, layers, decode);
    FirstDecides(work, WorkKeyOf(), DecodeOf(decode));
    var done;
    done, decoded := RunDistinct(work, WorkKeyOf(), DecodeOf(decode), orderOf);
    if done.Err? {
      ghost var failed := decoded[|decoded| - 1];
      assert failed in decoded;
      ghost var i :| 0 <= i < |work| && work[i] == failed;
      assert work[i].source == layers[i];
      return Err(Decoding(done.error)), decoded;
    }
    ghost var keys := set i: nat | i < |layers| ::
      LayerWorkKey(layers[i].descriptor.digest, diffIds[i], Codec(layers[i].descriptor.mediaType, codecs).value);
    assert Keys(work, WorkKeyOf()) == keys;
    var outs := PairWithFiles(work, done.value);
    return Ok(outs), decoded;
  }
}
