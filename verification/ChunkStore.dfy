// store.py: the size-capped, least-recently-used chunk store.
//
// `Lru` says what the store does to its ordered contents; the class is the
// source's in-place store and refines it operation by operation.

module Lru {
  import opened Basics

  datatype Entry = Entry(key: Bytes, data: Bytes)

  // Oldest first, as in the source's ordered dictionary.
  type Entries = seq<Entry>

  ghost function Size(es: Entries): nat {
    if es == [] then 0 else |es[0].data| + Size(es[1..])
  }

  ghost function Keys(es: Entries): set<Bytes> {
    set e | e in es :: e.key
  }

  ghost predicate Unique(es: Entries) {
    forall i, j :: 0 <= i < j < |es| ==> es[i].key != es[j].key
  }

  ghost predicate Addressed(h: Hash, es: Entries) {
    forall e | e in es :: e.key == h(e.data)
  }

  // What every store state satisfies.
  ghost predicate Good(h: Hash, cap: nat, es: Entries) {
    Unique(es) && Addressed(h, es) && Size(es) <= cap
  }

  function Find(es: Entries, key: Bytes): (i: Option<nat>)
    ensures i.Some? ==> i.value < |es| && es[i.value].key == key
    ensures i.None? <==> forall e | e in es :: e.key != key
  {
    if es == [] then None
    else if es[0].key == key then Some(0)
    else
      match Find(es[1..], key)
      case None => assert forall e | e in es :: e == es[0] || e in es[1..]; None
      case Some(j) => Some(j + 1)
  }

  function Lookup(es: Entries, key: Bytes): (r: Option<Bytes>) {
    match Find(es, key)
    case None => None
    case Some(i) => Some(es[i].data)
  }

  // Entry i moves to the most-recently-used end.
  function Touched(es: Entries, i: nat): (r: Entries)
    requires i < |es|
    ensures |r| == |es|
    ensures forall j :: 0 <= j < |r| ==> r[j] == es[if j < i then j else if j < |es| - 1 then j + 1 else i]
  {
    es[..i] + es[i + 1..] + [es[i]]
  }

  // How many of the oldest entries must go before `need` bytes fit.
  ghost function Evictions(es: Entries, need: nat, cap: nat): (k: nat)
    ensures k <= |es|
  {
    if es == [] || Size(es) + need <= cap then 0 else 1 + Evictions(es[1..], need, cap)
  }

  ghost function Put(h: Hash, cap: nat, es: Entries, data: Bytes): Entries {
    if |data| > cap then es
    else
      match Find(es, h(data))
      case Some(i) => Touched(es, i)
      case None => es[Evictions(es, |data|, cap)..] + [Entry(h(data), data)]
  }

  ghost function Get(es: Entries, key: Bytes): Entries {
    match Find(es, key)
    case None => es
    case Some(i) => Touched(es, i)
  }

  // ---- Sizes ----

  lemma {:induction false} SizeAppends(a: Entries, b: Entries)
    ensures Size(a + b) == Size(a) + Size(b)
  {
    if a == [] {
      assert a + b == b;
    } else {
      assert (a + b)[1..] == a[1..] + b;
      SizeAppends(a[1..], b);
    }
  }

  lemma {:induction false} TouchedKeepsSize(es: Entries, i: nat)
    requires i < |es|
    ensures Size(Touched(es, i)) == Size(es)
  {
    if i == 0 {
      assert Touched(es, 0) == es[1..] + [es[0]];
      SizeAppends(es[1..], [es[0]]);
    } else {
      assert Touched(es, i)[1..] == Touched(es[1..], i - 1);
      TouchedKeepsSize(es[1..], i - 1);
    }
  }

  lemma TouchedKeepsUnique(es: Entries, i: nat)
    requires i < |es| && Unique(es)
    ensures Unique(Touched(es, i))
  {
  }

  lemma TouchedKeepsGood(h: Hash, cap: nat, es: Entries, i: nat)
    requires i < |es| && Good(h, cap, es)
    ensures Good(h, cap, Touched(es, i))
  {
    TouchedKeepsSize(es, i);
    TouchedKeepsUnique(es, i);
  }

  // The prefix evicted is the shortest that makes room, and it makes room.
  lemma {:induction false} EvictsShortestPrefix(es: Entries, need: nat, cap: nat)
    requires need <= cap
    ensures var k := Evictions(es, need, cap);
      && Size(es[k..]) + need <= cap
      && forall j :: 0 <= j < k ==> Size(es[j..]) + need > cap
  {
    if es != [] && Size(es) + need > cap {
      EvictsShortestPrefix(es[1..], need, cap);
      var k := Evictions(es[1..], need, cap);
      assert es[1..][k..] == es[k + 1..];
      forall j | 0 <= j < k + 1
        ensures Size(es[j..]) + need > cap
      {
        if j == 0 {
          assert es[0..] == es;
        } else {
          assert es[j..] == es[1..][j - 1..];
        }
      }
    } else {
      assert es[0..] == es;
    }
  }

  // ---- Every operation keeps the store good ----

  // What a put does, whatever it evicts: the oldest entries go, as few as make
  // room, and the new one comes last; a chunk that is held becomes the newest;
  // one larger than the store is refused.
  lemma PutMeans(h: Hash, cap: nat, es: Entries, data: Bytes) returns (k: nat)
    ensures |data| > cap ==> Put(h, cap, es, data) == es
    ensures |data| <= cap && h(data) !in Keys(es) ==>
      && k <= |es| && Put(h, cap, es, data) == es[k..] + [Entry(h(data), data)]
      && Size(es[k..]) + |data| <= cap && forall j :: 0 <= j < k ==> Size(es[j..]) + |data| > cap
    ensures |data| <= cap && h(data) in Keys(es) ==>
      && k < |es| && es[k].key == h(data) && Put(h, cap, es, data) == es[..k] + es[k + 1..] + [es[k]]
  {
    k := 0;
    match Find(es, h(data))
    case Some(i) =>
      assert es[i] in es;
      k := i;
    case None =>
      if |data| <= cap {
        k := Evictions(es, |data|, cap);
        EvictsShortestPrefix(es, |data|, cap);
      }
  }

  lemma PutKeepsGood(h: Hash, cap: nat, es: Entries, data: Bytes)
    requires Good(h, cap, es)
    ensures Good(h, cap, Put(h, cap, es, data))
    ensures |data| <= cap ==> Put(h, cap, es, data) != [] && Put(h, cap, es, data)[|Put(h, cap, es, data)| - 1].key == h(data)
  {
    if |data| <= cap {
      match Find(es, h(data))
      case Some(i) => TouchedKeepsGood(h, cap, es, i);
      case None =>
        var k := Evictions(es, |data|, cap);
        EvictsShortestPrefix(es, |data|, cap);
        SizeAppends(es[k..], [Entry(h(data), data)]);
    }
  }

  lemma GetKeepsGood(h: Hash, cap: nat, es: Entries, key: Bytes)
    requires Good(h, cap, es)
    ensures Good(h, cap, Get(es, key))
  {
    match Find(es, key)
    case Some(i) => TouchedKeepsGood(h, cap, es, i);
    case None =>
  }

  lemma LookupFinds(es: Entries, i: nat)
    requires Unique(es) && i < |es|
    ensures Find(es, es[i].key) == Some(i)
  {
    assert es[i] in es;
  }

  // ---- Runs of operations ----

  datatype Op = OpPut(data: Bytes) | OpGet(key: Bytes)

  ghost function Apply(h: Hash, cap: nat, es: Entries, op: Op): Entries {
    match op
    case OpPut(data) => Put(h, cap, es, data)
    case OpGet(key) => Get(es, key)
  }

  ghost function Run(h: Hash, cap: nat, ops: seq<Op>): Entries {
    if ops == [] then [] else Apply(h, cap, Run(h, cap, ops[..|ops| - 1]), ops[|ops| - 1])
  }

  // The operation reads or stores under `key`; a rejected put does neither.
  ghost predicate Uses(h: Hash, cap: nat, op: Op, key: Bytes) {
    match op
    case OpPut(data) => |data| <= cap && h(data) == key
    case OpGet(k) => k == key
  }

  // The position of the last operation that used `key`, or -1.
  ghost function LastUse(h: Hash, cap: nat, ops: seq<Op>, key: Bytes): (t: int)
    ensures -1 <= t < |ops|
  {
    if ops == [] then -1
    else if Uses(h, cap, ops[|ops| - 1], key) then |ops| - 1
    else LastUse(h, cap, ops[..|ops| - 1], key)
  }

  ghost predicate ByRecency(h: Hash, cap: nat, ops: seq<Op>, es: Entries) {
    forall i, j :: 0 <= i < j < |es| ==> LastUse(h, cap, ops, es[i].key) < LastUse(h, cap, ops, es[j].key)
  }

  // Over every run from an empty store: the cap holds, keys are hashes, and
  // the contents are ordered by last use, so the prefix that a put evicts is
  // the least recently used part.
  lemma {:induction false} RunIsLru(h: Hash, cap: nat, ops: seq<Op>)
    ensures Good(h, cap, Run(h, cap, ops))
    ensures ByRecency(h, cap, ops, Run(h, cap, ops))
  {
    if ops != [] {
      var before, op := ops[..|ops| - 1], ops[|ops| - 1];
      RunIsLru(h, cap, before);
      var es := Run(h, cap, before);
      match op {
        case OpPut(data) => PutKeepsGood(h, cap, es, data);
        case OpGet(key) => GetKeepsGood(h, cap, es, key);
      }
      StepKeepsRecency(h, cap, ops);
    }
  }

  // An operation makes the key it uses the most recent and leaves the others.
  ghost predicate Freshened(h: Hash, cap: nat, ops: seq<Op>, key: Bytes)
    requires ops != []
  {
    && LastUse(h, cap, ops, key) == |ops| - 1
    && forall k :: k != key ==> LastUse(h, cap, ops, k) == LastUse(h, cap, ops[..|ops| - 1], k)
  }

  lemma TouchedKeepsRecency(h: Hash, cap: nat, ops: seq<Op>, es: Entries, i: nat)
    requires ops != [] && i < |es| && Unique(es)
    requires ByRecency(h, cap, ops[..|ops| - 1], es) && Freshened(h, cap, ops, es[i].key)
    ensures ByRecency(h, cap, ops, Touched(es, i))
  {
    var r := Touched(es, i);
    forall a, b | 0 <= a < b < |r|
      ensures LastUse(h, cap, ops, r[a].key) < LastUse(h, cap, ops, r[b].key)
    {
      var a' := if a < i then a else a + 1;
      assert r[a] == es[a'];
      assert es[a'].key != es[i].key;
    }
  }

  lemma AppendedKeepsRecency(h: Hash, cap: nat, ops: seq<Op>, es: Entries, k: nat, e: Entry)
    requires ops != [] && k <= |es| && forall x | x in es :: x.key != e.key
    requires ByRecency(h, cap, ops[..|ops| - 1], es) && Freshened(h, cap, ops, e.key)
    ensures ByRecency(h, cap, ops, es[k..] + [e])
  {
    var r := es[k..] + [e];
    forall a, b | 0 <= a < b < |r|
      ensures LastUse(h, cap, ops, r[a].key) < LastUse(h, cap, ops, r[b].key)
    {
      assert r[a] == es[k + a];
    }
  }

  lemma StepKeepsRecency(h: Hash, cap: nat, ops: seq<Op>)
    requires ops != []
    requires ByRecency(h, cap, ops[..|ops| - 1], Run(h, cap, ops[..|ops| - 1]))
    requires Unique(Run(h, cap, ops[..|ops| - 1]))
    ensures ByRecency(h, cap, ops, Run(h, cap, ops))
  {
    var op := ops[|ops| - 1];
    var es := Run(h, cap, ops[..|ops| - 1]);
    var key := match op case OpPut(data) => h(data) case OpGet(k) => k;
    if Uses(h, cap, op, key) {
      match Find(es, key) {
        case Some(i) => TouchedKeepsRecency(h, cap, ops, es, i);
        case None =>
          if op.OpPut? {
            AppendedKeepsRecency(h, cap, ops, es, Evictions(es, |op.data|, cap), Entry(key, op.data));
          } else {
            forall j | 0 <= j < |es|
              ensures es[j].key != key
            {
              assert es[j] in es;
            }
          }
      }
    }
  }
}

module ChunkStores {
  import opened Basics
  import opened Lru

  datatype PutResult = Stored(key: Bytes) | TooLarge

  class ChunkStore {
    const h: Hash
    const maxBytes: nat
    var entries: Entries
    var used: int

    // The bookkeeping holds, whatever the bytes.
    ghost predicate Sound()
      reads this
    {
      Unique(entries) && used == Size(entries) <= maxBytes
    }

    // And every key is the hash of its chunk.
    ghost predicate Valid()
      reads this
    {
      Sound() && Addressed(h, entries)
    }

    constructor (h: Hash, maxBytes: nat)
      ensures Valid() && entries == [] && used == 0
      ensures this.h == h && this.maxBytes == maxBytes
    {
      this.h := h;
      this.maxBytes := maxBytes;
      entries := [];
      used := 0;
    }

    // The source refuses a cap that is not positive.
    static method Open(h: Hash, maxBytes: int) returns (store: ChunkStore?)
      ensures maxBytes <= 0 <==> store == null
      ensures store != null ==> fresh(store) && store.Valid() && store.entries == []
      ensures store != null ==> store.h == h && store.maxBytes == maxBytes
    {
      if maxBytes <= 0 {
        return null;
      }
      store := new ChunkStore(h, maxBytes);
    }

    method PutChunk(data: Bytes) returns (r: PutResult)
      requires Valid()
      modifies `entries, `used
      ensures Valid()
      ensures entries == Put(h, maxBytes, old(entries), data)
      ensures r == if |data| > maxBytes then TooLarge else Stored(h(data))
      ensures r.Stored? ==> Lookup(entries, r.key).Some?
    {
      PutKeepsGood(h, maxBytes, entries, data);
      if |data| > maxBytes {
        return TooLarge;
      }
      var key := h(data);
      var at := Find(entries, key);
      if at.Some? {
        TouchedKeepsSize(entries, at.value);
        entries := Touched(entries, at.value);
      } else {
        EvictUntilFits(|data|);
        SizeAppends(entries, [Entry(key, data)]);
        entries := entries + [Entry(key, data)];
        used := used + |data|;
      }
      assert entries[|entries| - 1] in entries;
      return Stored(key);
    }

    method GetChunk(key: Bytes) returns (r: Option<Bytes>)
      requires Sound()
      modifies `entries
      ensures Sound() && (old(Valid()) ==> Valid())
      ensures entries == Get(old(entries), key) && r == Lookup(old(entries), key)
    {
      var at := Find(entries, key);
      if at.None? {
        return None;
      }
      TouchedKeepsSize(entries, at.value);
      r := Some(entries[at.value].data);
      entries := Touched(entries, at.value);
    }

    method Availability() returns (keys: set<Bytes>)
      ensures keys == Keys(entries)
    {
      return set e | e in entries :: e.key;
    }

    method EvictUntilFits(incoming: nat)
      requires used == Size(entries)
      modifies `entries, `used
      ensures used == Size(entries)
      ensures entries == old(entries)[Evictions(old(entries), incoming, maxBytes)..]
    {
      ghost var all, k := entries, 0;
      while used + incoming > maxBytes && entries != []
        invariant 0 <= k <= |all| && entries == all[k..] && used == Size(entries)
        invariant Evictions(all, incoming, maxBytes) == k + Evictions(entries, incoming, maxBytes)
        decreases |entries|
      {
        used := used - |entries[0].data|;
        assert all[k..][1..] == all[k + 1..];
        entries := entries[1..];
        k := k + 1;
      }
    }
  }
}
