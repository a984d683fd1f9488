/**
 The quarantine blob store as a value, and what each of its operations does.

 A `Store` is the disk (`blobs`), the metadata records, the pin counters and the
 running byte counter.  Every function below is one section executed under the
 store's mutex, or one metadata call.  The objects in BlobStoreObjects.dfy are proved
 to follow these functions, and the request protocol interleaves them.
 */
module BlobStore {
  import opened Prelude

  type Key = string

  datatype Status = Quarantined | Inspected | Verified | Released | Blocked

  datatype Record = Record(digest: Key, pkg: string, version: string, size: nat,
                           status: Status, createdAt: int, lastAccessedAt: int)

  datatype Store = Store(blobs: map<Key, Bytes>, records: map<Key, Record>,
                         pins: map<Key, int>, currentBytes: int)

  // ---------------------------------------------------------------- sizes

  /** The number of bytes of all the blobs together. */
  ghost function Total(blobs: map<Key, Bytes>): nat
  {
    if blobs == map[] then 0 else
      var k :| k in blobs;
      |blobs[k]| + Total(blobs - {k})
  }

  lemma {:induction false} TotalSplit(blobs: map<Key, Bytes>, k: Key)
    requires k in blobs
    ensures Total(blobs) == |blobs[k]| + Total(blobs - {k})
    decreases |blobs|
  {
    var j :| j in blobs && Total(blobs) == |blobs[j]| + Total(blobs - {j});
    if j != k {
      TotalSplit(blobs - {j}, k);
      TotalSplit(blobs - {k}, j);
      assert blobs - {j} - {k} == blobs - {k} - {j};
    }
  }

  lemma TotalAdd(blobs: map<Key, Bytes>, k: Key, data: Bytes)
    requires k !in blobs
    ensures Total(blobs[k := data]) == |data| + Total(blobs)
  {
    TotalSplit(blobs[k := data], k);
    assert blobs[k := data] - {k} == blobs;
  }

  lemma {:induction false} TotalMonotone(small: map<Key, Bytes>, big: map<Key, Bytes>)
    requires forall k :: k in small ==> k in big && small[k] == big[k]
    ensures Total(small) <= Total(big)
    decreases |small|
  {
    if small != map[] {
      var k :| k in small;
      TotalSplit(small, k);
      TotalSplit(big, k);
      TotalMonotone(small - {k}, big - {k});
    }
  }

  // ------------------------------------------------------------ pins, lookup

  function PinCount(pins: map<Key, int>, k: Key): int
  {
    if k in pins then pins[k] else 0
  }

  predicate IsPinned(s: Store, k: Key)
  {
    PinCount(s.pins, k) > 0
  }

  function Pin(s: Store, k: Key): Store
  {
    s.(pins := s.pins[k := PinCount(s.pins, k) + 1])
  }

  /** The decrement an unpin closure performs the first time it is called. */
  function Unpin(s: Store, k: Key): Store
  {
    var n := PinCount(s.pins, k) - 1;
    s.(pins := if n <= 0 then s.pins - {k} else s.pins[k := n])
  }

  // -------------------------------------------------------------- metadata

  /** `Put`: zero timestamps are replaced, from the wall clock and from the creation time. */
  function PutRecord(s: Store, rec: Record, wallClock: int): Store
  {
    s.(records := s.records[rec.digest := Stamped(rec, wallClock)])
  }

  function Stamped(rec: Record, wallClock: int): Record
  {
    var created := if rec.createdAt == 0 then wallClock else rec.createdAt;
    rec.(createdAt := created,
    lastAccessedAt := if rec.lastAccessedAt == 0 then created else rec.lastAccessedAt)
  }

  /** Only missing times are filled in: creation from the clock, access from the creation. */
  lemma StampedTimes(rec: Record, wallClock: int)
    ensures var r := Stamped(rec, wallClock);
      && r == rec.(createdAt := r.createdAt, lastAccessedAt := r.lastAccessedAt)
      && (rec.createdAt != 0 ==> r.createdAt == rec.createdAt) && (rec.createdAt == 0 ==> r.createdAt == wallClock)
      && (rec.lastAccessedAt != 0 ==> r.lastAccessedAt == rec.lastAccessedAt)
      && (rec.lastAccessedAt == 0 ==> r.lastAccessedAt == r.createdAt)
  {
  }

  function Touch(s: Store, k: Key, t: int): Store
  {
    if k in s.records then s.(records := s.records[k := s.records[k].(lastAccessedAt := t)]) else s
  }

  function SetStatus(s: Store, k: Key, status: Status): Store
  {
    if k in s.records then s.(records := s.records[k := s.records[k].(status := status)]) else s
  }

  // ---------------------------------------------------------------- delete

  /** Explicit deletion, with the clamp of the byte counter at zero. */
  function Delete(s: Store, k: Key): Store
  {
    if IsPinned(s, k) then s else
      var left := if k in s.blobs then s.currentBytes - |s.blobs[k]| else s.currentBytes;
      s.(blobs := s.blobs - {k}, records := s.records - {k},
      currentBytes := if k in s.blobs && left < 0 then 0 else left)
  }

  // -------------------------------------------------------------- eviction

  /** A record the eviction scan may pick: its key has no active pin. */
  predicate Candidate(s: Store, k: Key)
  {
    k in s.records && !IsPinned(s, k)
  }

  /** First in some least-recently-accessed order of the candidates. */
  ghost predicate Oldest(s: Store, k: Key)
  {
    Candidate(s, k) &&
    forall j :: Candidate(s, j) ==> s.records[k].lastAccessedAt <= s.records[j].lastAccessedAt
  }

  /** What one eviction is credited with: the file's size, or the listed one if there is no file. */
  function Freed(s: Store, k: Key, listed: nat): nat
  {
    if k in s.blobs then |s.blobs[k]| else listed
  }

  /** The eviction of `k`, whose record had the size `listed` when the records were listed. */
  function EvictListed(s: Store, k: Key, listed: nat): Store
  {
    s.(blobs := s.blobs - {k}, records := s.records - {k}, currentBytes := s.currentBytes - Freed(s, k, listed))
  }

  /** The eviction of a record that has not changed since it was listed. */
  function Evict(s: Store, k: Key): Store
    requires k in s.records
  {
    EvictListed(s, k, s.records[k].size)
  }

  /** The staged file moved into place. */
  function AddBlob(s: Store, k: Key, data: Bytes): Store
  {
    s.(blobs := s.blobs[k := data], currentBytes := s.currentBytes + |data|)
  }

  /** `ks` is a sequence of evictions the commit loop may perform to make room for `n` bytes. */
  ghost predicate LruTrace(s: Store, ks: seq<Key>, n: nat, max: int)
    decreases |ks|
  {
    ks == [] ||
    var before := ks[..|ks| - 1];
    LruTrace(s, before, n, max) &&
    EvictAll(s, before).currentBytes + n > max &&
    Oldest(EvictAll(s, before), ks[|ks| - 1])
  }

  /** The store after the evictions `ks`; evicting a key without a record changes nothing. */
  ghost function EvictAll(s: Store, ks: seq<Key>): Store
    decreases |ks|
  {
    if ks == [] then s else
      var t := EvictAll(s, ks[..|ks| - 1]);
      var k := ks[|ks| - 1];
      if k in t.records then Evict(t, k) else t
  }

  lemma ExtendTrace(s: Store, ks: seq<Key>, k: Key, n: nat, max: int)
    requires LruTrace(s, ks, n, max) && EvictAll(s, ks).currentBytes + n > max && Oldest(EvictAll(s, ks), k)
    ensures LruTrace(s, ks + [k], n, max)
    ensures EvictAll(s, ks + [k]) == Evict(EvictAll(s, ks), k)
  {
    assert (ks + [k])[..|ks + [k]| - 1] == ks;
  }

  /**
   The locked commit section of putInternal.  A blob that is already there wins; otherwise
   room is made by evictions, and if that fails the evictions already done stay done.
   */
  ghost predicate Commits(s: Store, k: Key, data: Bytes, max: int, ks: seq<Key>, s': Store, ok: bool)
  {
    if k in s.blobs then
      ks == [] && s' == s && ok
    else
      var e := EvictAll(s, ks);
      && LruTrace(s, ks, |data|, max)
      && (if ok then
            e.currentBytes + |data| <= max &&
            s' == AddBlob(e, k, data)
          else
            e.currentBytes + |data| > max && (forall j :: !Candidate(e, j)) && s' == e)
  }

  // ------------------------------------------------------------- accounting

  /** The byte counter is exact, and a record that claims bytes has a blob. */
  ghost predicate Accounted(s: Store)
  {
    && s.currentBytes == Total(s.blobs)
    && (forall k :: k in s.records ==> s.records[k].digest == k)
    && (forall k :: k in s.records && s.records[k].size > 0 ==> k in s.blobs)
  }

  /** Eviction keeps the counter exact, whatever happened to the record since it was listed. */
  lemma EvictAccounted(s: Store, k: Key, listed: nat)
    requires Accounted(s) && (listed > 0 ==> k in s.blobs)
    ensures Accounted(EvictListed(s, k, listed))
  {
    if k in s.blobs {
      TotalSplit(s.blobs, k);
    } else {
      assert s.blobs - {k} == s.blobs;
    }
  }

  lemma DeleteAccounted(s: Store, k: Key)
    requires Accounted(s)
    ensures Accounted(Delete(s, k))
    ensures k in s.blobs ==> s.currentBytes - |s.blobs[k]| >= 0
  {
    if k in s.blobs {
      TotalSplit(s.blobs, k);
    } else {
      assert s.blobs - {k} == s.blobs;
    }
  }

  /** `e` is `s` with the blobs and records of the keys `ks` taken out. */
  ghost predicate Without(s: Store, e: Store, ks: seq<Key>)
  {
    && e.pins == s.pins
    && (forall k :: k in e.blobs <==> k in s.blobs && k !in ks)
    && (forall k :: k in e.records <==> k in s.records && k !in ks)
    && (forall k :: k in e.blobs ==> e.blobs[k] == s.blobs[k])
    && (forall k :: k in e.records ==> e.records[k] == s.records[k])
  }

  lemma {:induction false} EvictAllShape(s: Store, ks: seq<Key>, n: nat, max: int)
    requires LruTrace(s, ks, n, max)
    ensures Without(s, EvictAll(s, ks), ks)
    ensures forall k :: k in ks ==> Candidate(s, k)
    decreases |ks|
  {
    if ks != [] {
      var before, last := ks[..|ks| - 1], ks[|ks| - 1];
      EvictAllShape(s, before, n, max);
      assert forall k :: k in ks <==> k in before || k == last;
    }
  }

  lemma {:induction false} EvictAllAccounted(s: Store, ks: seq<Key>, n: nat, max: int)
    requires LruTrace(s, ks, n, max) && Accounted(s)
    ensures Accounted(EvictAll(s, ks))
    decreases |ks|
  {
    if ks != [] {
      EvictAllAccounted(s, ks[..|ks| - 1], n, max);
      var e, k := EvictAll(s, ks[..|ks| - 1]), ks[|ks| - 1];
      EvictAccounted(e, k, e.records[k].size);
    }
  }

  /** The blobs no eviction can remove: pinned ones, and those without a metadata record. */
  ghost function Protected(s: Store): map<Key, Bytes>
  {
    map k | k in s.blobs && (k !in s.records || IsPinned(s, k)) :: s.blobs[k]
  }

  /**
   A commit of a new blob that is itself within the budget succeeds exactly when it fits
   beside the protected blobs, whatever order ties in the access times are broken in.
   */
  lemma CommitSucceedsIff(s: Store, k: Key, data: Bytes, max: int, ks: seq<Key>, s': Store, ok: bool)
    requires Accounted(s) && k !in s.blobs
    requires Commits(s, k, data, max, ks, s', ok)
    ensures ok <==> |data| + Total(Protected(s)) <= max
    ensures ok ==> s'.currentBytes <= max && k in s'.blobs && s'.blobs[k] == data
    ensures ok ==> forall j :: j != k ==> (j in s'.blobs <==> j in s.blobs && j !in ks)
    ensures Accounted(s')
  {
    hide LruTrace, EvictAll;
    EvictAllShape(s, ks, |data|, max);
    EvictAllAccounted(s, ks, |data|, max);
    var e := EvictAll(s, ks);
    assert forall j :: j in Protected(s) ==> j in e.blobs && e.blobs[j] == Protected(s)[j];
    TotalMonotone(Protected(s), e.blobs);
    if ok {
      TotalAdd(e.blobs, k, data);
    } else {
      assert e.blobs == Protected(s) by {
        forall j | j in e.blobs ensures j in Protected(s) {
          assert !Candidate(e, j);
        }
      }
    }
  }

  ghost predicate AccessedNoLater(s: Store, a: Key, b: Key)
  {
    a in s.records && b in s.records && s.records[a].lastAccessedAt <= s.records[b].lastAccessedAt
  }

  /**
   The evicted records are the least recently accessed ones, in order: none was pinned, and
   each was accessed no later than the ones evicted after it and than every candidate that
   survives.
   */
  lemma {:induction false} EvictionsAreOldestFirst(s: Store, ks: seq<Key>, n: nat, max: int)
    requires LruTrace(s, ks, n, max)
    ensures forall i :: 0 <= i < |ks| ==> Candidate(s, ks[i])
    ensures forall i, j :: 0 <= i < j < |ks| ==> ks[i] != ks[j] && AccessedNoLater(s, ks[i], ks[j])
    ensures forall i, k :: 0 <= i < |ks| && Candidate(s, k) && k !in ks ==> AccessedNoLater(s, ks[i], k)
    decreases |ks|
  {
    if ks != [] {
      var before, last := ks[..|ks| - 1], ks[|ks| - 1];
      EvictionsAreOldestFirst(s, before, n, max);
      EvictAllShape(s, before, n, max);
      var e := EvictAll(s, before);
      assert last in e.records && Candidate(s, last) && last !in before;
      forall k | Candidate(s, k) && k !in ks ensures AccessedNoLater(s, last, k) {
        assert Candidate(e, k);
      }
      forall i | 0 <= i < |ks| ensures (i < |before| && ks[i] == before[i]) || ks[i] == last {}
      assert forall k :: k in before ==> k in ks;
    }
  }

  /** No eviction was superfluous: with any fewer of them, the blob did not fit. */
  lemma {:induction false} EvictionsAreMinimal(s: Store, ks: seq<Key>, n: nat, max: int, i: nat)
    requires LruTrace(s, ks, n, max) && i < |ks|
    ensures EvictAll(s, ks[..i]).currentBytes + n > max
    decreases |ks|
  {
    var before := ks[..|ks| - 1];
    if i < |before| {
      EvictionsAreMinimal(s, before, n, max, i);
      assert ks[..i] == before[..i];
    }
  }
}
