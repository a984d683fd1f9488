/**
 The mutable objects of the quarantine: the in-memory metadata store, the disk blob store
 and the closures that give a pin back.  Each method is proved to take the object from one
 `Store` value to the one BlobStore.dfy prescribes.
 */
module BlobStoreObjects {
  import opened Prelude
  import opened BlobStore
  import opened Order

  // ------------------------------------------------- least-recently-used order

  predicate NoLater(a: Record, b: Record)
  {
    a.lastAccessedAt <= b.lastAccessedAt
  }

  ghost predicate ByAccess(rs: seq<Record>)
  {
    Sorted(NoLater, rs)
  }

  /** The rows are the records, each one once. */
  ghost predicate Listed(records: map<Key, Record>, rows: seq<Record>)
  {
    && (forall r :: r in rows ==> r.digest in records && records[r.digest] == r)
    && (forall k :: k in records ==> records[k] in rows && records[k].digest == k)
  }

  /** The first row that is not pinned is an oldest candidate. */
  lemma FirstUnpinned(s: Store, rows: seq<Record>, i: nat)
    requires Listed(s.records, rows) && ByAccess(rows) && i < |rows| && !IsPinned(s, rows[i].digest)
    requires forall j :: 0 <= j < i ==> IsPinned(s, rows[j].digest)
    ensures Oldest(s, rows[i].digest) && s.records[rows[i].digest] == rows[i]
  {
    assert rows[i] in rows;
    forall k | Candidate(s, k) ensures s.records[rows[i].digest].lastAccessedAt <= s.records[k].lastAccessedAt {
      var at :| 0 <= at < |rows| && rows[at] == s.records[k];
      assert at > i ==> NoLater(rows[i], rows[at]);
    }
  }

  lemma AllPinned(s: Store, rows: seq<Record>)
    requires Listed(s.records, rows) && forall j :: 0 <= j < |rows| ==> IsPinned(s, rows[j].digest)
    ensures forall k :: !Candidate(s, k)
  {
    forall k | k in s.records ensures IsPinned(s, k) {
      var at :| 0 <= at < |rows| && rows[at] == s.records[k];
    }
  }

  class MemoryMetadataStore {
    var records: map<Key, Record>

    ghost predicate Valid()
      reads this
    {
      forall k :: k in records ==> records[k].digest == k
    }

    constructor ()
      ensures Valid() && records == map[]
    {
      records := map[];
    }

    method Put(rec: Record, wallClock: int) returns (ok: bool)
      requires Valid()
      modifies this
      ensures Valid()
      ensures ok == (rec.digest != "")
      ensures records == if ok then old(records)[rec.digest := Stamped(rec, wallClock)] else old(records)
    {
      if rec.digest == "" {
        return false;
      }
      var meta := rec;
      if meta.createdAt == 0 {
        meta := meta.(createdAt := wallClock);
      }
      if meta.lastAccessedAt == 0 {
        meta := meta.(lastAccessedAt := meta.createdAt);
      }
      records := records[meta.digest := meta];
      ok := true;
    }

    method Touch(k: Key, t: int) returns (ok: bool)
      requires Valid()
      modifies this
      ensures Valid()
      ensures ok == (k in old(records))
      ensures records == if ok then old(records)[k := old(records)[k].(lastAccessedAt := t)] else old(records)
    {
      ok := k in records;
      if ok {
        var meta := records[k];
        records := records[k := meta.(lastAccessedAt := t)];
      }
    }

    method UpdateStatus(k: Key, status: Status) returns (ok: bool)
      requires Valid()
      modifies this
      ensures Valid()
      ensures ok == (k in old(records))
      ensures records == if ok then old(records)[k := old(records)[k].(status := status)] else old(records)
    {
      ok := k in records;
      if ok {
        var meta := records[k];
        records := records[k := meta.(status := status)];
      }
    }

    method Delete(k: Key)
      requires Valid()
      modifies this
      ensures Valid() && records == old(records) - {k}
    {
      records := records - {k};
    }

    /** Every record exactly once, oldest access first. */
    method List() returns (res: seq<Record>)
      requires Valid()
      ensures ByAccess(res)
      ensures |res| == |records|
      ensures forall r :: r in res ==> r.digest in records && records[r.digest] == r
      ensures forall k :: k in records ==> records[k] in res
    {
      var todo := records;
      var rows: seq<Record> := [];
      while todo != map[]
        invariant forall k :: k in todo ==> k in records && todo[k] == records[k]
        invariant |rows| + |todo| == |records|
        invariant forall r :: r in rows ==> r.digest in records && records[r.digest] == r
        invariant forall k :: k in records ==> k in todo || records[k] in rows
        decreases |todo|
      {
        var k :| k in todo;
        rows := rows + [todo[k]];
        todo := todo - {k};
      }
      res := SortRows(NoLater, rows);
      assert forall r :: r in rows <==> r in multiset(rows);
      assert forall r :: r in res <==> r in multiset(res);
      assert |res| == |multiset(res)| == |multiset(rows)| == |rows|;
    }
  }

  // ----------------------------------------------------------- the blob store

  datatype PutError = EmptyKey | Interrupted | IntegrityMismatch | ExceedsBudget | BudgetExceeded

  /** A body being uploaded: its bytes, and whether the stream broke off or was cancelled. */
  datatype Upload = Upload(data: Bytes, interrupted: bool)

  class DiskBlobStore {
    const maxBytes: int
    const metadata: MemoryMetadataStore
    var blobs: map<Key, Bytes>
    var pins: map<Key, int>
    var currentBytes: int

    ghost function View(): Store
      reads this, metadata
    {
      Store(blobs, metadata.records, pins, currentBytes)
    }

    constructor (disk: map<Key, Bytes>, size: int, maxBytes: int, metadata: MemoryMetadataStore)
      ensures View() == Store(disk, metadata.records, map[], size)
      ensures this.maxBytes == maxBytes && this.metadata == metadata
    {
      this.maxBytes := maxBytes;
      this.metadata := metadata;
      blobs := disk;
      pins := map[];
      currentBytes := size;
    }

    /** Opens a store over an existing blobs directory, adding up the sizes found there. */
    static method Open(disk: map<Key, Bytes>, maxBytes: int, metadata: MemoryMetadataStore)
      returns (r: Option<DiskBlobStore>)
      requires metadata.Valid()
      ensures r.Some? <==> maxBytes > 0
      ensures r.Some? ==> fresh(r.value) && r.value.metadata == metadata && r.value.maxBytes == maxBytes
      ensures r.Some? ==> r.value.View() == Store(disk, metadata.records, map[], Total(disk))
      ensures r.Some? ==>
        (Accounted(r.value.View()) <==> forall k :: k in metadata.records && metadata.records[k].size > 0 ==> k in disk)
    {
      if maxBytes <= 0 {
        return None;
      }
      var todo, initialBytes := disk, 0;
      while todo != map[]
        invariant forall k :: k in todo ==> k in disk && todo[k] == disk[k]
        invariant initialBytes + Total(todo) == Total(disk)
        decreases |todo|
      {
        var k :| k in todo;
        TotalSplit(todo, k);
        initialBytes := initialBytes + |todo[k]|;
        todo := todo - {k};
      }
      var s := new DiskBlobStore(disk, initialBytes, maxBytes, metadata);
      r := Some(s);
    }

    method Get(k: Key) returns (r: Option<Bytes>)
      ensures r == if k in blobs then Some(blobs[k]) else None
    {
      r := if k in blobs then Some(blobs[k]) else None;
    }

    /** Scans the records, oldest access first, and removes the first one that is not pinned. */
    method EvictOneCandidate() returns (freed: Option<nat>, ghost victim: Key)
      requires metadata.Valid()
      modifies this`blobs, metadata
      ensures metadata.Valid()
      ensures freed.None? ==> View() == old(View()) && forall j :: !Candidate(View(), j)
      ensures freed.Some? ==>
        && Oldest(old(View()), victim)
        && freed.value == Freed(old(View()), victim, old(View()).records[victim].size)
        && View() == Evict(old(View()), victim).(currentBytes := currentBytes)
    {
      victim := "";
      var records := metadata.List();
      assert Listed(metadata.records, records);
      hide Listed, ByAccess, Oldest;
      for i := 0 to |records|
        invariant View() == old(View()) && metadata.Valid()
        invariant forall j :: 0 <= j < i ==> IsPinned(View(), records[j].digest)
      {
        var key := records[i].digest;
        if PinCount(pins, key) > 0 {
          continue;
        }
        victim := key;
        FirstUnpinned(View(), records, i);
        var onDisk := Get(key);
        blobs := blobs - {key};
        metadata.Delete(key);
        return if onDisk.Some? then Some(|onDisk.value|) else Some(records[i].size), victim;
      }
      AllPinned(View(), records);
      freed := None;
    }

    /** One round of the commit loop: evict, then take the freed bytes off the counter. */
    method EvictAndCount() returns (more: bool, ghost victim: Key)
      requires metadata.Valid()
      modifies this`blobs, this`currentBytes, metadata
      ensures metadata.Valid()
      ensures !more ==> View() == old(View()) && forall j :: !Candidate(View(), j)
      ensures more ==> Oldest(old(View()), victim) && View() == Evict(old(View()), victim)
      ensures more ==> |metadata.records| < |old(metadata.records)|
    {
      var freed;
      freed, victim := EvictOneCandidate();
      more := freed.Some?;
      if more {
        currentBytes := currentBytes - freed.value;
        assert metadata.records.Keys == old(metadata.records).Keys - {victim};
      }
    }

    /** The eviction loop of a commit that needs room for `n` bytes. */
    method MakeRoom(n: nat) returns (ok: bool, ghost evicted: seq<Key>)
      requires metadata.Valid()
      modifies this`blobs, this`currentBytes, metadata
      ensures metadata.Valid()
      ensures LruTrace(old(View()), evicted, n, maxBytes)
      ensures View() == EvictAll(old(View()), evicted)
      ensures ok == (currentBytes + n <= maxBytes)
      ensures !ok ==> forall j :: !Candidate(View(), j)
    {
      evicted := [];
      ghost var start, now := View(), View();
      while currentBytes + n > maxBytes
        invariant metadata.Valid() && View() == now
        invariant LruTrace(start, evicted, n, maxBytes) && now == EvictAll(start, evicted)
        decreases |metadata.records|
      {
        var more, victim := EvictAndCount();
        if !more {
          return false, evicted;
        }
        ExtendTrace(start, evicted, victim, n, maxBytes);
        evicted, now := evicted + [victim], Evict(now, victim);
      }
      ok := true;
    }

    /** The locked commit section: deduplicate, evict while over budget, move into place. */
    method Commit(k: Key, data: Bytes) returns (r: Option<nat>, ghost evicted: seq<Key>)
      requires metadata.Valid()
      modifies this`blobs, this`currentBytes, metadata
      ensures metadata.Valid()
      ensures Commits(old(View()), k, data, maxBytes, evicted, View(), r.Some?)
      ensures r.Some? ==> k in blobs && r.value == |blobs[k]|
    {
      if k in blobs {
        return Some(|blobs[k]|), [];
      }
      var ok;
      ok, evicted := MakeRoom(|data|);
      if !ok {
        return None, evicted;
      }
      blobs := blobs[k := data];
      currentBytes := currentBytes + |data|;
      r := Some(|data|);
    }

    /**
     Put and PutVerified when no other request runs in between.  `expected`, if given, is the
     digest the staged bytes must have under `H`; nothing reaches the store without it.
     */
    method PutInternal(k: Key, src: Upload, expected: Option<(string, Bytes)>, H: (string, Bytes) -> Bytes)
      returns (r: Result<nat, PutError>, ghost evicted: seq<Key>)
      requires metadata.Valid()
      modifies this`blobs, this`currentBytes, metadata
      ensures metadata.Valid()
      ensures r.Ok? || r.error == BudgetExceeded ==>
        Commits(old(View()), k, src.data, maxBytes, evicted, View(), r.Ok?)
      ensures r.Err? && r.error != BudgetExceeded ==> View() == old(View())
      ensures r.Ok? ==> k in blobs && r.value == |blobs[k]|
      ensures k !in old(blobs) && k in blobs && expected.Some? ==> H(expected.value.0, blobs[k]) == expected.value.1
      ensures k != "" && k !in old(blobs) && !src.interrupted ==>
        (r == Err(IntegrityMismatch) <==> expected.Some? && H(expected.value.0, src.data) != expected.value.1)
      ensures r == Err(EmptyKey) <==> k == ""
      ensures r == Err(Interrupted) <==> k != "" && k !in old(blobs) && src.interrupted
      ensures r == Err(ExceedsBudget) <==>
        && k != "" && k !in old(blobs) && !src.interrupted && |src.data| > maxBytes
        && (expected.Some? ==> H(expected.value.0, src.data) == expected.value.1)
    {
      evicted := [];
      if k == "" {
        return Err(EmptyKey), evicted;
      }
      if k in blobs {
        return Ok(|blobs[k]|), evicted;
      }
      if src.interrupted {
        return Err(Interrupted), evicted;
      }
      if expected.Some? && H(expected.value.0, src.data) != expected.value.1 {
        return Err(IntegrityMismatch), evicted;
      }
      if |src.data| > maxBytes {
        return Err(ExceedsBudget), evicted;
      }
      var committed;
      committed, evicted := Commit(k, src.data);
      EvictAllShape(old(View()), evicted, |src.data|, maxBytes);
      r := if committed.Some? then Ok(committed.value) else Err(BudgetExceeded);
    }

    method Pin(k: Key) returns (r: Option<UnpinClosure>)
      modifies this`pins
      ensures r.Some? <==> k in blobs
      ensures r.Some? ==> fresh(r.value) && r.value.store == this && r.value.key == k && !r.value.unpinned
      ensures View() == if r.Some? then BlobStore.Pin(old(View()), k) else old(View())
    {
      if k !in blobs {
        return None;
      }
      pins := pins[k := PinCount(pins, k) + 1];
      var unpin := new UnpinClosure(this, k);
      r := Some(unpin);
    }

    method Delete(k: Key) returns (ok: bool)
      requires metadata.Valid()
      modifies this`blobs, this`currentBytes, metadata
      ensures metadata.Valid()
      ensures ok == !IsPinned(old(View()), k)
      ensures View() == BlobStore.Delete(old(View()), k)
    {
      if PinCount(pins, k) > 0 {
        return false;
      }
      var onDisk := Get(k);
      blobs := blobs - {k};
      if onDisk.Some? {
        currentBytes := currentBytes - |onDisk.value|;
        if currentBytes < 0 {
          currentBytes := 0;
        }
      }
      metadata.Delete(k);
      ok := true;
    }
  }

  /** What Pin hands out: calling it gives the pin back once, and only once. */
  class UnpinClosure {
    const store: DiskBlobStore
    const key: Key
    var unpinned: bool

    constructor (store: DiskBlobStore, key: Key)
      ensures this.store == store && this.key == key && !unpinned
    {
      this.store := store;
      this.key := key;
      unpinned := false;
    }

    method Call()
      modifies this, store`pins
      ensures unpinned
      ensures store.View() == if old(unpinned) then old(store.View()) else BlobStore.Unpin(old(store.View()), key)
    {
      if unpinned {
        return;
      }
      unpinned := true;
      var n := PinCount(store.pins, key) - 1;
      store.pins := store.pins[key := n];
      if n <= 0 {
        store.pins := store.pins - {key};
      }
      assert n <= 0 ==> store.pins == old(store.pins) - {key};
    }
  }

  /** The stream given to the client: the first Close unpins, later ones do nothing. */
  class ReleaseStream {
    const unpin: UnpinClosure
    var closed: bool

    constructor (unpin: UnpinClosure)
      ensures this.unpin == unpin && !closed
    {
      this.unpin := unpin;
      closed := false;
    }

    method Close()
      modifies this, unpin, unpin.store`pins
      ensures closed
      ensures old(closed) || old(unpin.unpinned) ==> unpin.store.View() == old(unpin.store.View())
      ensures !old(closed) && !old(unpin.unpinned) ==>
        unpin.store.View() == BlobStore.Unpin(old(unpin.store.View()), unpin.key)
    {
      if !closed {
        closed := true;
        unpin.Call();
      }
    }
  }
}
