// chunk.py, manifest.py, delta.py, peer.py, exchange.py, reconstruct.py and
// safe.py: from a file to its manifest, and from a manifest and untrusted
// peers back to the file.

// chunk.py and manifest.py.
module Manifests {
  import opened Basics
  import Merkle

  function Concat(parts: seq<Bytes>): Bytes {
    if parts == [] then [] else parts[0] + Concat(parts[1..])
  }

  lemma {:induction false} ConcatAppends(a: seq<Bytes>, b: seq<Bytes>)
    ensures Concat(a + b) == Concat(a) + Concat(b)
  {
    if a == [] {
      assert a + b == b;
    } else {
      assert (a + b)[1..] == a[1..] + b;
      ConcatAppends(a[1..], b);
    }
  }

  lemma ConcatExtends(parts: seq<Bytes>, i: nat)
    requires i < |parts|
    ensures Concat(parts[..i + 1]) == Concat(parts[..i]) + parts[i]
  {
    assert parts[..i + 1] == parts[..i] + [parts[i]];
    ConcatAppends(parts[..i], [parts[i]]);
    assert Concat([parts[i]]) == parts[i] + Concat([]) == parts[i];
  }

  // In order, nothing lost, every chunk full except perhaps the last.
  ghost predicate IsChunking(parts: seq<Bytes>, file: Bytes, size: nat) {
    && Concat(parts) == file
    && (forall i :: 0 <= i < |parts| ==> 0 < |parts[i]| <= size)
    && (forall i :: 0 <= i < |parts| - 1 ==> |parts[i]| == size)
  }

  function Chunks(file: Bytes, size: nat): (parts: seq<Bytes>)
    requires size > 0
    ensures IsChunking(parts, file, size)
    decreases |file|
  {
    if file == [] then []
    else if |file| <= size then [file]
    else [file[..size]] + Chunks(file[size..], size)
  }

  // There is only one such chunking.
  lemma {:induction false} ChunkingIsUnique(parts: seq<Bytes>, file: Bytes, size: nat)
    requires size > 0 && IsChunking(parts, file, size)
    ensures parts == Chunks(file, size)
    decreases |parts|
  {
    if |parts| == 1 {
      assert parts == [parts[0]] && file == parts[0] + Concat(parts[1..]) == parts[0];
    } else if |parts| > 1 {
      var rest := parts[1..];
      assert file == parts[0] + Concat(rest);
      assert Concat(rest) == rest[0] + Concat(rest[1..]);
      assert file[..size] == parts[0] && file[size..] == Concat(rest);
      ChunkingIsUnique(rest, file[size..], size);
    }
  }

  // The streaming reader; a chunk size that is not positive is refused.
  method IterFileChunks(file: Bytes, size: int) returns (r: Option<seq<Bytes>>)
    ensures r == if size <= 0 then None else Some(Chunks(file, size))
  {
    if size <= 0 {
      return None;
    }
    var parts, unread := [], file;
    while unread != []
      invariant parts + Chunks(unread, size) == Chunks(file, size)
      decreases |unread|
    {
      var n := if size < |unread| then size else |unread|;
      parts := parts + [unread[..n]];
      unread := unread[n..];
    }
    assert parts + [] == parts;
    return Some(parts);
  }

  datatype Manifest = Manifest(
    modelId: string, totalSize: nat, chunkSize: nat,
    wholeFileSha256: Bytes, chunks: seq<Bytes>, merkleRoot: Bytes)

  function Digests(h: Hash, parts: seq<Bytes>): (d: seq<Bytes>)
    ensures |d| == |parts| && forall i :: 0 <= i < |d| ==> d[i] == h(parts[i])
  {
    seq(|parts|, i requires 0 <= i < |parts| => h(parts[i]))
  }

  // The manifest that describes `file`.
  function ManifestOf(h: Hash, file: Bytes, modelId: string, size: nat): Manifest
    requires size > 0
  {
    var d := Digests(h, Chunks(file, size));
    Manifest(modelId, |file|, size, h(file), d, Merkle.Root(h, d))
  }

  // One pass over the chunks yields the chunk list, the size and the digest.
  method BuildManifest(h: Hash, file: Bytes, modelId: string, size: int) returns (r: Option<Manifest>)
    ensures r == if size <= 0 then None else Some(ManifestOf(h, file, modelId, size))
    ensures r.Some? ==>
      && r.value.modelId == modelId && r.value.totalSize == |file| && r.value.chunkSize == size
      && r.value.wholeFileSha256 == h(file) && r.value.chunks == Digests(h, Chunks(file, size))
      && r.value.merkleRoot == Merkle.Root(h, r.value.chunks)
  {
    var iterated := IterFileChunks(file, size);
    if iterated.None? {
      return None;
    }
    var parts := iterated.value;
    var whole, chunks, total := [], [], 0;
    for i := 0 to |parts|
      invariant whole == Concat(parts[..i]) && total == |whole|
      invariant chunks == Digests(h, parts[..i])
    {
      assert parts[..i + 1] == parts[..i] + [parts[i]];
      ConcatAppends(parts[..i], [parts[i]]);
      whole := whole + parts[i];
      chunks := chunks + [h(parts[i])];
      total := total + |parts[i]|;
    }
    assert parts[..|parts|] == parts;
    var root := Merkle.MerkleRoot(h, chunks);
    return Some(Manifest(modelId, total, size, h(whole), chunks, root));
  }
}

// The manifest's Merkle root commits to the file.
module Commitment {
  import opened Basics
  import opened Manifests
  import Merkle

  // Two different files cut to one chunk size whose manifests have the same
  // Merkle root yield two different inputs with one hash.
  lemma RootCommitsToFile(h: Hash, a: Bytes, b: Bytes, idA: string, idB: string, size: nat) returns (x: Bytes, y: Bytes)
    requires IsDigest(h) && size > 0 && a != b
    requires ManifestOf(h, a, idA, size).merkleRoot == ManifestOf(h, b, idB, size).merkleRoot
    ensures Collision(h, x, y)
  {
    var p, q := Chunks(a, size), Chunks(b, size);
    var d, e := Digests(h, p), Digests(h, q);
    if d != e {
      assert [] !in d && [] !in e;
      var c := Merkle.ExtractCollision(h, d, e);
      x, y := c.0, c.1;
    } else {
      var i := Difference(p, q);
      assert d[i] == e[i];
      x, y := p[i], q[i];
    }
  }

  lemma Difference(p: seq<Bytes>, q: seq<Bytes>) returns (i: nat)
    requires |p| == |q| && p != q
    ensures i < |p| && p[i] != q[i]
  {
    i :| 0 <= i < |p| && p[i] != q[i];
  }
}

// delta.py, peer.py and exchange.py.
module Exchange {
  import opened Basics
  import opened Lru
  import opened ChunkStores

  // ---- The delta set ----

  // The distinct hashes not yet held, in first-seen order.
  function Missing(chunks: seq<Bytes>, have: set<Bytes>): (m: seq<Bytes>)
    ensures forall k :: k in m <==> k in chunks && k !in have
    ensures forall i, j :: 0 <= i < j < |m| ==> m[i] != m[j]
  {
    if chunks == [] then []
    else
      var k := chunks[|chunks| - 1];
      var m := Missing(chunks[..|chunks| - 1], have);
      assert chunks == chunks[..|chunks| - 1] + [k];
      if k in have || k in m then m else m + [k]
  }

  ghost function FirstSeen(chunks: seq<Bytes>, key: Bytes): (i: nat)
    requires key in chunks
    ensures i < |chunks| && chunks[i] == key
    ensures forall j :: 0 <= j < i ==> chunks[j] != key
  {
    if chunks[0] == key then 0 else 1 + FirstSeen(chunks[1..], key)
  }

  lemma {:induction false} MissingInFirstSeenOrder(chunks: seq<Bytes>, have: set<Bytes>)
    ensures var m := Missing(chunks, have);
      forall i, j :: 0 <= i < j < |m| ==> FirstSeen(chunks, m[i]) < FirstSeen(chunks, m[j])
  {
    if chunks != [] {
      var before := chunks[..|chunks| - 1];
      MissingInFirstSeenOrder(before, have);
      var m := Missing(chunks, have);
      forall i, j | 0 <= i < j < |m|
        ensures FirstSeen(chunks, m[i]) < FirstSeen(chunks, m[j])
      {
        FirstSeenInPrefix(before, chunks, m[i]);
        var f := FirstSeen(chunks, m[j]);
        if f < |before| {
          assert before[f] == m[j];
          FirstSeenInPrefix(before, chunks, m[j]);
          assert j < |Missing(before, have)|;
        }
      }
    }
  }

  lemma FirstSeenInPrefix(before: seq<Bytes>, chunks: seq<Bytes>, key: Bytes)
    requires before <= chunks && key in before
    ensures FirstSeen(chunks, key) == FirstSeen(before, key)
  {
    var i, j := FirstSeen(chunks, key), FirstSeen(before, key);
    assert chunks[j] == before[j] == key;
    assert i <= j;
    assert before[i] == chunks[i] == key;
  }

  method MissingChunks(chunks: seq<Bytes>, store: ChunkStore) returns (missing: seq<Bytes>)
    ensures missing == Missing(chunks, Keys(store.entries))
  {
    var have := store.Availability();
    var seen: set<Bytes> := {};
    missing := [];
    for i := 0 to |chunks|
      invariant missing == Missing(chunks[..i], have)
      invariant seen == set k | k in missing
    {
      assert chunks[..i + 1][..i] == chunks[..i];
      var k := chunks[i];
      if k in have || k in seen {
        continue;
      }
      seen := seen + {k};
      missing := missing + [k];
    }
    assert chunks[..|chunks|] == chunks;
  }

  // ---- Peers ----

  // A peer's claims and the bytes it serves are unrelated and arbitrary; None
  // is a transport failure.
  datatype Peer = Peer(available: Option<set<Bytes>>, serve: Bytes -> Option<Bytes>)

  predicate Claims(peer: Peer, key: Bytes) {
    peer.available.Some? && key in peer.available.value
  }

  predicate AllAnswer(peers: seq<Peer>) {
    forall i :: 0 <= i < |peers| ==> peers[i].available.Some?
  }

  type PeerIndex = map<Bytes, seq<Peer>>

  function Holders(index: PeerIndex, key: Bytes): seq<Peer> {
    if key in index then index[key] else []
  }

  // The peers that claim `key`, in discovery order.
  ghost function Claiming(peers: seq<Peer>, key: Bytes): seq<Peer> {
    if peers == [] then []
    else
      Claiming(peers[..|peers| - 1], key)
      + if Claims(peers[|peers| - 1], key) then [peers[|peers| - 1]] else []
  }

  // A peer that cannot be asked fails the whole discovery.
  method Discover(peers: seq<Peer>) returns (index: Option<PeerIndex>)
    ensures index.Some? <==> AllAnswer(peers)
    ensures index.Some? ==> forall key :: Holders(index.value, key) == Claiming(peers, key)
  {
    var found: PeerIndex := map[];
    for i := 0 to |peers|
      invariant AllAnswer(peers[..i])
      invariant forall key :: Holders(found, key) == Claiming(peers[..i], key)
    {
      if peers[i].available.None? {
        return None;
      }
      found := AddPeer(found, peers[i]);
      assert peers[..i + 1][..i] == peers[..i];
    }
    assert peers[..|peers|] == peers;
    return Some(found);
  }

  method AddPeer(before: PeerIndex, peer: Peer) returns (index: PeerIndex)
    requires peer.available.Some?
    ensures forall key :: Holders(index, key) == Holders(before, key) + if Claims(peer, key) then [peer] else []
  {
    index := before;
    var todo := peer.available.value;
    while todo != {}
      invariant todo <= peer.available.value
      invariant forall key ::
        Holders(index, key) == Holders(before, key) + if key in peer.available.value - todo then [peer] else []
      decreases todo
    {
      var key :| key in todo;
      index := index[key := Holders(index, key) + [peer]];
      todo := todo - {key};
    }
  }

  // ---- Fetching ----

  datatype FetchError = NotFound(key: Bytes) | Mismatch(key: Bytes) | Transport | StoreTooSmall

  datatype Answer = Good(data: Bytes) | Bad(error: FetchError)

  // What asking the first holder for `key` comes to.
  function Ask(h: Hash, cap: nat, index: PeerIndex, key: Bytes): (a: Answer)
    ensures a.Good? ==> h(a.data) == key && |a.data| <= cap
  {
    var holders := Holders(index, key);
    if holders == [] then Bad(NotFound(key))
    else
      match holders[0].serve(key)
      case None => Bad(Transport)
      case Some(data) =>
        if h(data) != key then Bad(Mismatch(key))
        else if |data| > cap then Bad(StoreTooSmall)
        else Good(data)
  }

  datatype Fetched = Fetched(entries: Entries, fetched: seq<Bytes>, error: Option<FetchError>)

  // The store and the fetch list after working through `todo` in order,
  // stopping at the first failure.
  ghost function Fetch(h: Hash, cap: nat, index: PeerIndex, es: Entries, todo: seq<Bytes>): Fetched {
    if todo == [] then Fetched(es, [], None)
    else
      var key := todo[|todo| - 1];
      var f := Fetch(h, cap, index, es, todo[..|todo| - 1]);
      if f.error.Some? then f
      else
        match Ask(h, cap, index, key)
        case Bad(e) => f.(error := Some(e))
        case Good(data) => Fetched(Put(h, cap, f.entries, data), f.fetched + [key], None)
  }

  lemma {:induction false} FetchStopsAtError(h: Hash, cap: nat, index: PeerIndex, es: Entries, todo: seq<Bytes>, n: nat)
    requires n <= |todo| && Fetch(h, cap, index, es, todo[..n]).error.Some?
    ensures Fetch(h, cap, index, es, todo) == Fetch(h, cap, index, es, todo[..n])
  {
    if n == |todo| {
      assert todo[..n] == todo;
    } else {
      assert todo[..|todo| - 1][..n] == todo[..n];
      FetchStopsAtError(h, cap, index, es, todo[..|todo| - 1], n);
    }
  }

  // One more chunk: it is stored, or the fetch ends with its error.
  lemma FetchOneMore(h: Hash, cap: nat, index: PeerIndex, es: Entries, todo: seq<Bytes>, i: nat)
    requires i < |todo| && Fetch(h, cap, index, es, todo[..i]).error == None
    ensures var f, a := Fetch(h, cap, index, es, todo[..i]), Ask(h, cap, index, todo[i]);
      if a.Bad? then Fetch(h, cap, index, es, todo) == f.(error := Some(a.error))
      else Fetch(h, cap, index, es, todo[..i + 1]) == Fetched(Put(h, cap, f.entries, a.data), f.fetched + [todo[i]], None)
  {
    assert todo[..i + 1][..i] == todo[..i];
    if Ask(h, cap, index, todo[i]).Bad? {
      FetchStopsAtError(h, cap, index, es, todo, i + 1);
    }
  }

  method FetchDelta(chunks: seq<Bytes>, store: ChunkStore, index: PeerIndex)
    returns (fetched: seq<Bytes>, error: Option<FetchError>)
    requires store.Valid()
    modifies store
    ensures store.Valid()
    ensures Fetched(store.entries, fetched, error)
         == Fetch(store.h, store.maxBytes, index, old(store.entries), Missing(chunks, old(Keys(store.entries))))
  {
    var todo := MissingChunks(chunks, store);
    ghost var es := store.entries;
    fetched, error := [], None;
    for i := 0 to |todo|
      invariant store.Valid() && error == None
      invariant Fetched(store.entries, fetched, error) == Fetch(store.h, store.maxBytes, index, es, todo[..i])
    {
      var key := todo[i];
      FetchOneMore(store.h, store.maxBytes, index, es, todo, i);
      var holders := Holders(index, key);
      if holders == [] {
        return fetched, Some(NotFound(key));
      }
      var data := holders[0].serve(key);
      if data.None? {
        return fetched, Some(Transport);
      }
      if store.h(data.value) != key {
        return fetched, Some(Mismatch(key));
      }
      var put := store.PutChunk(data.value);
      if put.TooLarge? {
        return fetched, Some(StoreTooSmall);
      }
      fetched := fetched + [key];
    }
    assert todo[..|todo|] == todo;
  }
}

// reconstruct.py, safe.py and the composition in mesh/fetch.py.
module Reconstruct {
  import opened Basics
  import opened Lru
  import opened ChunkStores
  import opened Manifests
  import opened Exchange

  datatype Error = ChunkNotFound(key: Bytes) | HashMismatch(key: Bytes) | SizeMismatch | WholeFileMismatch
                 | BadSignature | FetchFailed(cause: FetchError)

  datatype Outcome = Ok(bytes: Bytes) | Err(error: Error)

  // The bytes the listed chunks come to, checked one by one.
  ghost function Assembled(h: Hash, es: Entries, chunks: seq<Bytes>): Outcome {
    if chunks == [] then Ok([])
    else
      var key := chunks[|chunks| - 1];
      var a := Assembled(h, es, chunks[..|chunks| - 1]);
      if a.Err? then a
      else
        match Lookup(es, key)
        case None => Err(ChunkNotFound(key))
        case Some(data) => if h(data) == key then Ok(a.bytes + data) else Err(HashMismatch(key))
  }

  // What reconstruction of `m` from store contents `es` comes to.
  ghost function Rebuilt(h: Hash, es: Entries, m: Manifest): Outcome {
    match Assembled(h, es, m.chunks)
    case Err(e) => Err(e)
    case Ok(bytes) =>
      if |bytes| != m.totalSize then Err(SizeMismatch)
      else if h(bytes) != m.wholeFileSha256 then Err(WholeFileMismatch)
      else Ok(bytes)
  }

  // The store holds every listed chunk with the right hash.
  ghost predicate Intact(h: Hash, es: Entries, chunks: seq<Bytes>) {
    forall i :: 0 <= i < |chunks| ==> Lookup(es, chunks[i]).Some? && h(Lookup(es, chunks[i]).value) == chunks[i]
  }

  ghost function Pieces(es: Entries, chunks: seq<Bytes>): seq<Bytes>
    requires forall i :: 0 <= i < |chunks| ==> Lookup(es, chunks[i]).Some?
  {
    seq(|chunks|, i requires 0 <= i < |chunks| => Lookup(es, chunks[i]).value)
  }

  // The first chunk that is missing or wrong, and which of the two.
  ghost predicate FirstFault(h: Hash, es: Entries, chunks: seq<Bytes>, i: nat, e: Error)
    requires i < |chunks|
  {
    && Intact(h, es, chunks[..i])
    && match Lookup(es, chunks[i])
       case None => e == ChunkNotFound(chunks[i])
       case Some(data) => h(data) != chunks[i] && e == HashMismatch(chunks[i])
  }

  lemma {:induction false} AssembledMeans(h: Hash, es: Entries, chunks: seq<Bytes>)
    ensures var a := Assembled(h, es, chunks);
      && (a.Ok? <==> Intact(h, es, chunks))
      && (a.Ok? ==> a.bytes == Concat(Pieces(es, chunks)))
      && (a.Err? ==> exists i: nat :: i < |chunks| && FirstFault(h, es, chunks, i, a.error))
  {
    if chunks != [] {
      var n := |chunks| - 1;
      var before := chunks[..n];
      AssembledMeans(h, es, before);
      assert chunks == before + [chunks[n]];
      if Assembled(h, es, before).Err? {
        var i: nat :| i < n && FirstFault(h, es, before, i, Assembled(h, es, before).error);
        assert before[..i] == chunks[..i];
        assert FirstFault(h, es, chunks, i, Assembled(h, es, chunks).error);
      } else if Assembled(h, es, chunks).Err? {
        assert FirstFault(h, es, chunks, n, Assembled(h, es, chunks).error);
      } else {
        var pieces := Pieces(es, chunks);
        assert pieces[..n] == Pieces(es, before) && pieces[..n + 1] == pieces;
        ConcatExtends(pieces, n);
      }
    }
  }

  // Reconstruction succeeds exactly if every chunk is intact and their
  // concatenation, which it returns, has the promised size and digest; an error
  // says which check failed first.
  lemma RebuiltExactly(h: Hash, es: Entries, m: Manifest)
    ensures var r := Rebuilt(h, es, m);
      && (r.Ok? <==> Intact(h, es, m.chunks)
                     && |Concat(Pieces(es, m.chunks))| == m.totalSize
                     && h(Concat(Pieces(es, m.chunks))) == m.wholeFileSha256)
      && (r.Ok? ==> r.bytes == Concat(Pieces(es, m.chunks)))
      && (Intact(h, es, m.chunks) && r.Err? ==>
            r.error == if |Concat(Pieces(es, m.chunks))| != m.totalSize then SizeMismatch else WholeFileMismatch)
      && (!Intact(h, es, m.chunks) ==> exists i: nat :: i < |m.chunks| && FirstFault(h, es, m.chunks, i, r.error))
  {
    AssembledMeans(h, es, m.chunks);
  }

  lemma {:induction false} AssembledStopsAtError(h: Hash, es: Entries, chunks: seq<Bytes>, n: nat)
    requires n <= |chunks| && Assembled(h, es, chunks[..n]).Err?
    ensures Assembled(h, es, chunks) == Assembled(h, es, chunks[..n])
  {
    if n == |chunks| {
      assert chunks[..n] == chunks;
    } else {
      assert chunks[..|chunks| - 1][..n] == chunks[..n];
      AssembledStopsAtError(h, es, chunks[..|chunks| - 1], n);
    }
  }

  // One more chunk: its bytes are appended, or assembly ends with its error.
  lemma AssembledOneMore(h: Hash, es: Entries, chunks: seq<Bytes>, i: nat)
    requires i < |chunks| && Assembled(h, es, chunks[..i]).Ok?
    ensures var data := Lookup(es, chunks[i]);
      if data.None? then Assembled(h, es, chunks) == Err(ChunkNotFound(chunks[i]))
      else if h(data.value) != chunks[i] then Assembled(h, es, chunks) == Err(HashMismatch(chunks[i]))
      else Assembled(h, es, chunks[..i + 1]) == Ok(Assembled(h, es, chunks[..i]).bytes + data.value)
  {
    assert chunks[..i + 1][..i] == chunks[..i];
    if Assembled(h, es, chunks[..i + 1]).Err? {
      AssembledStopsAtError(h, es, chunks, i + 1);
    }
  }

  ghost predicate SameContents(a: Entries, b: Entries) {
    forall key :: Lookup(a, key) == Lookup(b, key)
  }

  lemma GetKeepsContents(es: Entries, key: Bytes)
    requires Unique(es)
    ensures SameContents(Get(es, key), es)
  {
    if Find(es, key).Some? {
      var i := Find(es, key).value;
      forall k
        ensures Lookup(Touched(es, i), k) == Lookup(es, k)
      {
        TouchedKeepsLookup(es, i, k);
      }
    }
  }

  lemma TouchedKeepsLookup(es: Entries, i: nat, key: Bytes)
    requires Unique(es) && i < |es|
    ensures Lookup(Touched(es, i), key) == Lookup(es, key)
  {
    var r := Touched(es, i);
    match Find(es, key)
    case Some(k) =>
      var j := if k < i then k else if k == i then |es| - 1 else k - 1;
      Lru.TouchedKeepsUnique(es, i);
      assert r[j] == es[k];
      Lru.LookupFinds(r, j);
    case None =>
      forall e | e in r
        ensures e.key != key
      {
        assert e in es;
      }
  }

  class Disk {
    var files: map<string, Bytes>

    constructor (files: map<string, Bytes>)
      ensures this.files == files
    {
      this.files := files;
    }

    method Create(path: string)
      modifies this
      ensures path in files && files[path] == [] && files - {path} == old(files) - {path}
    {
      files := files[path := []];
    }

    method Append(path: string, data: Bytes)
      requires path in files
      modifies this
      ensures path in files && files[path] == old(files[path]) + data
      ensures files - {path} == old(files) - {path}
    {
      files := files[path := files[path] + data];
    }
  }

  // The chunk loop: the file at `path` grows by each chunk that checks out.
  method AssembleTo(m: Manifest, store: ChunkStore, disk: Disk, path: string) returns (r: Outcome)
    requires store.Sound() && path in disk.files && disk.files[path] == []
    modifies store`entries, disk
    ensures store.Sound() && (old(store.Valid()) ==> store.Valid())
    ensures SameContents(store.entries, old(store.entries))
    ensures r == Assembled(store.h, old(store.entries), m.chunks)
    ensures path in disk.files && disk.files - {path} == old(disk.files) - {path}
    ensures r.Ok? ==> disk.files[path] == r.bytes
  {
    ghost var es := store.entries;
    var whole := [];
    for i := 0 to |m.chunks|
      invariant store.Sound() && (old(store.Valid()) ==> store.Valid())
      invariant SameContents(store.entries, es)
      invariant Assembled(store.h, es, m.chunks[..i]) == Ok(whole)
      invariant path in disk.files && disk.files[path] == whole
      invariant disk.files - {path} == old(disk.files) - {path}
    {
      var expected := m.chunks[i];
      AssembledOneMore(store.h, es, m.chunks, i);
      GetKeepsContents(store.entries, expected);
      var data := store.GetChunk(expected);
      if data.None? {
        return Err(ChunkNotFound(expected));
      }
      if store.h(data.value) != expected {
        return Err(HashMismatch(expected));
      }
      whole := whole + data.value;
      disk.Append(path, data.value);
    }
    assert m.chunks[..|m.chunks|] == m.chunks;
    return Ok(whole);
  }

  method ReconstructTo(m: Manifest, store: ChunkStore, disk: Disk, path: string) returns (r: Outcome)
    requires store.Sound()
    modifies store`entries, disk
    ensures store.Sound() && (old(store.Valid()) ==> store.Valid())
    ensures SameContents(store.entries, old(store.entries))
    ensures r == Rebuilt(store.h, old(store.entries), m)
    ensures path in disk.files && disk.files - {path} == old(disk.files) - {path}
    ensures r.Ok? ==> disk.files[path] == r.bytes
  {
    disk.Create(path);
    r := AssembleTo(m, store, disk, path);
    if r.Ok? {
      if |r.bytes| != m.totalSize {
        return Err(SizeMismatch);
      }
      if store.h(r.bytes) != m.wholeFileSha256 {
        return Err(WholeFileMismatch);
      }
    }
  }

  const PARTIAL := ".partial"

  // The files afterwards: the complete file at `dest`, or no change; the
  // temporary is gone either way.
  ghost function Installed(files: map<string, Bytes>, dest: string, r: Outcome): map<string, Bytes> {
    var rest := files - {dest + PARTIAL};
    if r.Ok? then rest[dest := r.bytes] else rest
  }

  method ReconstructAtomic(m: Manifest, store: ChunkStore, disk: Disk, dest: string) returns (r: Outcome)
    requires store.Sound()
    modifies store`entries, disk
    ensures store.Sound() && (old(store.Valid()) ==> store.Valid())
    ensures SameContents(store.entries, old(store.entries))
    ensures r == Rebuilt(store.h, old(store.entries), m)
    ensures disk.files == Installed(old(disk.files), dest, r)
    ensures dest + ".partial" !in disk.files
    ensures r.Ok? ==> dest in disk.files && disk.files[dest] == r.bytes
    ensures forall path | path != dest + ".partial" && (r.Err? || path != dest) ::
      (path in disk.files <==> path in old(disk.files)) && (path in disk.files ==> disk.files[path] == old(disk.files)[path])
  {
    assert dest != dest + PARTIAL by { assert |dest + PARTIAL| != |dest|; }
    var tmp := dest + PARTIAL;
    r := ReconstructTo(m, store, disk, tmp);
    if r.Err? {
      disk.files := disk.files - {tmp};
    } else {
      disk.files := (disk.files - {tmp})[dest := disk.files[tmp]];
    }
  }

  // The signature check is a parameter: it accepts or refuses.
  method VerifiedReconstruct(m: Manifest, signed: bool, store: ChunkStore, disk: Disk, dest: string) returns (r: Outcome)
    requires store.Sound()
    modifies store`entries, disk
    ensures store.Sound() && (old(store.Valid()) ==> store.Valid())
    ensures SameContents(store.entries, old(store.entries))
    ensures r == if signed then Rebuilt(store.h, old(store.entries), m) else Err(BadSignature)
    ensures disk.files == if signed then Installed(old(disk.files), dest, r) else old(disk.files)
  {
    if !signed {
      return Err(BadSignature);
    }
    r := ReconstructAtomic(m, store, disk, dest);
  }

  // The delta fetch of `m` into `es`, and the pipeline that follows it.
  ghost function Delta(h: Hash, cap: nat, index: PeerIndex, es: Entries, m: Manifest): Fetched {
    Fetch(h, cap, index, es, Missing(m.chunks, Keys(es)))
  }

  ghost function Pipeline(h: Hash, cap: nat, index: PeerIndex, es: Entries, m: Manifest, signed: bool): Outcome {
    var f := Delta(h, cap, index, es, m);
    if f.error.Some? then Err(FetchFailed(f.error.value))
    else if !signed then Err(BadSignature)
    else Rebuilt(h, f.entries, m)
  }

  // Whatever the peers serve: success means the file the manifest was built
  // from (or a collision with it), failure leaves `dest` as it was.
  method FetchAndReconstruct(m: Manifest, signed: bool, peers: seq<Peer>, store: ChunkStore, disk: Disk, dest: string)
    returns (r: Outcome, fetched: seq<Bytes>, ghost index: PeerIndex)
    requires store.Valid()
    modifies store, disk
    ensures store.Valid()
    ensures forall key :: AllAnswer(peers) ==> Holders(index, key) == Claiming(peers, key)
    ensures AllAnswer(peers) ==> fetched == Delta(store.h, store.maxBytes, index, old(store.entries), m).fetched
    ensures AllAnswer(peers) ==> r == Pipeline(store.h, store.maxBytes, index, old(store.entries), m, signed)
    ensures !AllAnswer(peers) ==> r == Err(FetchFailed(Transport)) && fetched == [] && store.entries == old(store.entries)
    ensures r.Ok? ==> dest in disk.files && disk.files[dest] == r.bytes
    ensures r.Ok? ==> forall file, id, size: nat | size > 0 && m == ManifestOf(store.h, file, id, size) ::
      r.bytes == file || Collision(store.h, r.bytes, file)
    ensures r.Err? ==> (dest in disk.files <==> dest in old(disk.files))
    ensures r.Err? && dest in disk.files ==> disk.files[dest] == old(disk.files)[dest]
  {
    ghost var files := disk.files;
    var found := Discover(peers);
    if found.None? {
      return Err(FetchFailed(Transport)), [], map[];
    }
    index := found.value;
    var error;
    fetched, error := FetchDelta(m.chunks, store, found.value);
    if error.Some? {
      return Err(FetchFailed(error.value)), fetched, index;
    }
    r := VerifiedReconstruct(m, signed, store, disk, dest);
    assert dest != dest + PARTIAL by { assert |dest + PARTIAL| != |dest|; }
  }

  // ---- When it must succeed ----

  // The first holder of `key` serves a chunk of the file under that hash.
  ghost predicate Honest(h: Hash, index: PeerIndex, parts: seq<Bytes>, key: Bytes) {
    var holders := Holders(index, key);
    && holders != []
    && holders[0].serve(key).Some?
    && holders[0].serve(key).value in parts
    && h(holders[0].serve(key).value) == key
  }

  function Served(index: PeerIndex, key: Bytes): Bytes {
    var holders := Holders(index, key);
    if holders != [] && holders[0].serve(key).Some? then holders[0].serve(key).value else []
  }

  // The error is what asking the first holder came to.
  ghost predicate Reports(h: Hash, cap: nat, index: PeerIndex, key: Bytes, e: FetchError) {
    var holders := Holders(index, key);
    match e
    case NotFound(k) => k == key && holders == []
    case Transport => holders != [] && holders[0].serve(key) == None
    case Mismatch(k) => k == key && holders != [] && holders[0].serve(key).Some? && h(Served(index, key)) != key
    case StoreTooSmall =>
      holders != [] && holders[0].serve(key).Some? && h(Served(index, key)) == key && |Served(index, key)| > cap
  }

  // The store after what the first holders serve for these keys.
  ghost function Filled(h: Hash, cap: nat, index: PeerIndex, es: Entries, keys: seq<Bytes>): Entries {
    if keys == [] then es
    else Put(h, cap, Filled(h, cap, index, es, keys[..|keys| - 1]), Served(index, keys[|keys| - 1]))
  }

  // The chunks were fetched in order from their first holders, up to the first
  // for which that failed, and everything before it is stored.
  ghost predicate FetchedInOrder(h: Hash, cap: nat, index: PeerIndex, es: Entries, todo: seq<Bytes>, f: Fetched) {
    && f.fetched <= todo && f.entries == Filled(h, cap, index, es, f.fetched)
    && (forall k | k in f.fetched :: h(Served(index, k)) == k && |Served(index, k)| <= cap)
    && (f.error == None <==> f.fetched == todo)
    && (f.error.Some? ==> |f.fetched| < |todo| && Reports(h, cap, index, todo[|f.fetched|], f.error.value))
  }

  lemma AskReports(h: Hash, cap: nat, index: PeerIndex, key: Bytes)
    ensures var a := Ask(h, cap, index, key);
      if a.Good? then a.data == Served(index, key) && h(a.data) == key && |a.data| <= cap
      else Reports(h, cap, index, key, a.error)
  {
  }

  lemma FetchedOneMore(h: Hash, cap: nat, index: PeerIndex, es: Entries, before: seq<Bytes>, key: Bytes, f: Fetched)
    requires FetchedInOrder(h, cap, index, es, before, f)
    ensures f.error.Some? ==> FetchedInOrder(h, cap, index, es, before + [key], f)
    ensures var a := Ask(h, cap, index, key);
      f.error == None ==>
        FetchedInOrder(h, cap, index, es, before + [key],
          if a.Bad? then f.(error := Some(a.error))
          else Fetched(Put(h, cap, f.entries, a.data), f.fetched + [key], None))
  {
    AskReports(h, cap, index, key);
    assert (before + [key])[..|before|] == before;
  }

  // Whatever the peers serve, and the error says how it failed.
  lemma {:induction false} FetchMeans(h: Hash, cap: nat, index: PeerIndex, es: Entries, todo: seq<Bytes>)
    ensures FetchedInOrder(h, cap, index, es, todo, Fetch(h, cap, index, es, todo))
  {
    if todo != [] {
      var before, key := todo[..|todo| - 1], todo[|todo| - 1];
      FetchMeans(h, cap, index, es, before);
      FetchedOneMore(h, cap, index, es, before, key, Fetch(h, cap, index, es, before));
      assert before + [key] == todo;
    }
  }

  // The bytes the first holders serve for `todo`, all together.
  ghost function Incoming(index: PeerIndex, todo: seq<Bytes>): nat {
    if todo == [] then 0
    else Incoming(index, todo[..|todo| - 1]) + |Served(index, todo[|todo| - 1])|
  }

  // Different chunks, none of them held, all served by their first holders.
  ghost predicate Fetchable(h: Hash, index: PeerIndex, es: Entries, parts: seq<Bytes>, todo: seq<Bytes>) {
    && (forall k | k in todo :: Honest(h, index, parts, k) && k !in Keys(es))
    && (forall i, j :: 0 <= i < j < |todo| ==> todo[i] != todo[j])
  }

  // Everything was fetched, and nothing evicted for it.
  ghost predicate AllFetched(h: Hash, cap: nat, index: PeerIndex, es: Entries, todo: seq<Bytes>, f: Fetched) {
    && f.error == None && f.fetched == todo && Lru.Good(h, cap, f.entries)
    && Size(f.entries) == Size(es) + Incoming(index, todo)
    && Keys(f.entries) == Keys(es) + (set k | k in todo)
  }

  lemma FetchableFront(h: Hash, index: PeerIndex, es: Entries, parts: seq<Bytes>, before: seq<Bytes>, key: Bytes)
    requires Fetchable(h, index, es, parts, before + [key])
    ensures Fetchable(h, index, es, parts, before) && Honest(h, index, parts, key) && key !in Keys(es) && key !in before
    ensures Incoming(index, before + [key]) == Incoming(index, before) + |Served(index, key)|
  {
    var todo := before + [key];
    assert todo[|before|] == key && todo[..|before|] == before;
    forall k | k in before
      ensures Honest(h, index, parts, k) && k !in Keys(es) && k != key
    {
      var i :| 0 <= i < |before| && before[i] == k;
      assert todo[i] == k && k in todo;
    }
    forall i, j | 0 <= i < j < |before|
      ensures before[i] != before[j]
    {
      assert todo[i] != todo[j];
    }
  }

  // With honest holders and room for everything, each missing chunk is fetched
  // once, nothing is evicted, and every wanted chunk is then held.
  lemma {:induction false} FetchSucceeds(h: Hash, cap: nat, index: PeerIndex, es: Entries, parts: seq<Bytes>, todo: seq<Bytes>)
    requires Lru.Good(h, cap, es) && Fetchable(h, index, es, parts, todo)
    requires Size(es) + Incoming(index, todo) <= cap
    ensures AllFetched(h, cap, index, es, todo, Fetch(h, cap, index, es, todo))
  {
    if todo != [] {
      var before, key := todo[..|todo| - 1], todo[|todo| - 1];
      assert todo == before + [key];
      FetchableFront(h, index, es, parts, before, key);
      FetchSucceeds(h, cap, index, es, parts, before);
      AllFetchedGrows(h, cap, index, es, parts, before, key);
      assert before + [key] == todo;
    }
  }

  lemma AllFetchedGrows(h: Hash, cap: nat, index: PeerIndex, es: Entries, parts: seq<Bytes>, before: seq<Bytes>, key: Bytes)
    requires AllFetched(h, cap, index, es, before, Fetch(h, cap, index, es, before))
    requires Honest(h, index, parts, key) && key !in Keys(es) && key !in before
    requires Size(es) + Incoming(index, before) + |Served(index, key)| <= cap
    ensures AllFetched(h, cap, index, es, before + [key], Fetch(h, cap, index, es, before + [key]))
  {
    assert (before + [key])[..|before|] == before && (before + [key])[|before|] == key;
    KeysGrow(before, key);
    FetchLast(h, cap, index, es, parts, before, key);
  }

  // One more honest chunk for which there is room.
  lemma FetchLast(h: Hash, cap: nat, index: PeerIndex, es: Entries, parts: seq<Bytes>, before: seq<Bytes>, key: Bytes)
    requires Honest(h, index, parts, key)
    requires var f := Fetch(h, cap, index, es, before);
      && f.error == None && Lru.Good(h, cap, f.entries) && key !in Keys(f.entries)
      && Size(f.entries) + |Served(index, key)| <= cap
    ensures var f, g := Fetch(h, cap, index, es, before), Fetch(h, cap, index, es, before + [key]);
      && g.error == None && g.fetched == f.fetched + [key] && Lru.Good(h, cap, g.entries)
      && Size(g.entries) == Size(f.entries) + |Served(index, key)| && Keys(g.entries) == Keys(f.entries) + {key}
  {
    var todo := before + [key];
    assert todo[..|todo| - 1] == before && todo[|todo| - 1] == key;
    PutWithRoom(h, cap, Fetch(h, cap, index, es, before).entries, Served(index, key));
  }

  lemma KeysGrow(before: seq<Bytes>, key: Bytes)
    ensures (set k | k in before + [key]) == (set k | k in before) + {key}
  {
  }

  lemma PutWithRoom(h: Hash, cap: nat, es: Entries, data: Bytes)
    requires Lru.Good(h, cap, es) && h(data) !in Keys(es) && Size(es) + |data| <= cap
    ensures var es' := Put(h, cap, es, data);
      && Lru.Good(h, cap, es')
      && Size(es') == Size(es) + |data|
      && Keys(es') == Keys(es) + {h(data)}
  {
    PutKeepsGood(h, cap, es, data);
    assert Find(es, h(data)).None? by {
      forall e | e in es
        ensures e.key != h(data)
      {
        assert e.key in Keys(es);
      }
    }
    var e := Entry(h(data), data);
    assert es[0..] == es;
    SizeAppends(es, [e]);
    forall k
      ensures k in Keys(es + [e]) <==> k in Keys(es) || k == e.key
    {
      if k == e.key {
        assert (es + [e])[|es|] == e;
      } else if k in Keys(es) {
        var x :| x in es && x.key == k;
        assert x in es + [e];
      }
    }
  }

  // Chunk i of the file and what the store holds under its hash.
  ghost predicate Collides(h: Hash, es: Entries, parts: seq<Bytes>, i: nat)
    requires i < |parts|
  {
    Lookup(es, h(parts[i])).Some? && Collision(h, Lookup(es, h(parts[i])).value, parts[i])
  }

  // What the store finds under a chunk's digest is the chunk.
  lemma HeldIsSame(h: Hash, es: Entries, parts: seq<Bytes>, i: nat)
    requires Addressed(h, es) && i < |parts| && h(parts[i]) in Keys(es) && !Collides(h, es, parts, i)
    ensures Lookup(es, h(parts[i])) == Some(parts[i])
  {
    assert es[Find(es, h(parts[i])).value] in es;
  }

  ghost predicate Held(h: Hash, es: Entries, parts: seq<Bytes>) {
    forall i :: 0 <= i < |parts| ==> Lookup(es, h(parts[i])) == Some(parts[i])
  }

  lemma {:induction false} AssembledFromHeld(h: Hash, es: Entries, parts: seq<Bytes>)
    requires Held(h, es, parts)
    ensures Assembled(h, es, Digests(h, parts)) == Ok(Concat(parts))
  {
    if parts != [] {
      var n := |parts| - 1;
      AssembledFromHeld(h, es, parts[..n]);
      assert Digests(h, parts)[..n] == Digests(h, parts[..n]);
      assert parts[..n + 1] == parts;
      ConcatExtends(parts, n);
    }
  }

  // Chunks that are all held and do not collide come back as the file.
  lemma RebuiltFromHeld(h: Hash, es: Entries, file: Bytes, id: string, size: nat)
    requires size > 0 && Held(h, es, Chunks(file, size))
    ensures Rebuilt(h, es, ManifestOf(h, file, id, size)) == Ok(file)
  {
    AssembledFromHeld(h, es, Chunks(file, size));
  }

  lemma WantedIsHeld(h: Hash, cap: nat, index: PeerIndex, es: Entries, chunks: seq<Bytes>, f: Fetched, i: nat)
    requires i < |chunks| && AllFetched(h, cap, index, es, Missing(chunks, Keys(es)), f)
    ensures chunks[i] in Keys(f.entries)
  {
    assert chunks[i] in Keys(es) || chunks[i] in Missing(chunks, Keys(es));
  }

  lemma MissingIsFetchable(h: Hash, index: PeerIndex, es: Entries, parts: seq<Bytes>, chunks: seq<Bytes>)
    requires forall k | k in Missing(chunks, Keys(es)) :: Honest(h, index, parts, k)
    ensures Fetchable(h, index, es, parts, Missing(chunks, Keys(es)))
  {
  }

  lemma DeltaSucceeds(h: Hash, cap: nat, index: PeerIndex, es: Entries, parts: seq<Bytes>, chunks: seq<Bytes>)
    requires Lru.Good(h, cap, es) && forall k | k in Missing(chunks, Keys(es)) :: Honest(h, index, parts, k)
    requires Size(es) + Incoming(index, Missing(chunks, Keys(es))) <= cap
    ensures var todo := Missing(chunks, Keys(es));
      AllFetched(h, cap, index, es, todo, Fetch(h, cap, index, es, todo))
  {
    MissingIsFetchable(h, index, es, parts, chunks);
    FetchSucceeds(h, cap, index, es, parts, Missing(chunks, Keys(es)));
  }

  ghost predicate SomeCollides(h: Hash, es: Entries, parts: seq<Bytes>) {
    exists i :: 0 <= i < |parts| && Collides(h, es, parts, i)
  }

  lemma HeldOrCollides(h: Hash, cap: nat, index: PeerIndex, es: Entries, parts: seq<Bytes>, f: Fetched)
    requires AllFetched(h, cap, index, es, Missing(Digests(h, parts), Keys(es)), f)
    ensures Held(h, f.entries, parts) || SomeCollides(h, f.entries, parts)
  {
    if !SomeCollides(h, f.entries, parts) {
      forall i | 0 <= i < |parts|
        ensures Lookup(f.entries, h(parts[i])) == Some(parts[i])
      {
        WantedIsHeld(h, cap, index, es, Digests(h, parts), f, i);
        HeldIsSame(h, f.entries, parts, i);
      }
    }
  }

  // The whole pipeline: honest first holders and a large enough store return
  // the file itself after fetching each missing chunk once, unless the store
  // holds a chunk that collides with one of the file's own.
  lemma PipelineSucceeds(h: Hash, cap: nat, index: PeerIndex, es: Entries, file: Bytes, id: string, size: nat)
    requires size > 0 && Lru.Good(h, cap, es)
    requires var m, parts := ManifestOf(h, file, id, size), Chunks(file, size);
      && (forall k | k in Missing(m.chunks, Keys(es)) :: Honest(h, index, parts, k))
      && Size(es) + Incoming(index, Missing(m.chunks, Keys(es))) <= cap
    ensures var m, parts := ManifestOf(h, file, id, size), Chunks(file, size);
      var f := Delta(h, cap, index, es, m);
      && f.fetched == Missing(m.chunks, Keys(es))
      && (Pipeline(h, cap, index, es, m, true) == Ok(file) || SomeCollides(h, f.entries, parts))
  {
    var m, parts := ManifestOf(h, file, id, size), Chunks(file, size);
    DeltaSucceeds(h, cap, index, es, parts, m.chunks);
    var f := Delta(h, cap, index, es, m);
    HeldOrCollides(h, cap, index, es, parts, f);
    if !SomeCollides(h, f.entries, parts) {
      RebuiltFromHeld(h, f.entries, file, id, size);
    }
  }
}
