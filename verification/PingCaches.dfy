/**
 * The TTL cache of status responses, `src/net/ping_cache.rs`. Instants are nanoseconds on a
 * monotone clock handed to every call.
 */
module PingCaches {
  import opened Sets
  import opened Bytes

  const MAX_ENTRIES := 10_000
  const TARGET_ENTRIES := 9_000
  const MILLISECOND := 1_000_000
  const FAILURE_TTL := 5_000 * MILLISECOND

  datatype Entry = Entry(json: string, expiresAt: int)

  // ----- what one call does to the tables -----

  function Lookup(entries: map<string, Entry>, key: string, now: int): Option<string> {
    if key in entries && now <= entries[key].expiresAt then Some(entries[key].json) else None
  }

  /** A lookup drops the entry it finds expired. */
  function AfterGet(entries: map<string, Entry>, key: string, now: int): map<string, Entry> {
    if key in entries && now > entries[key].expiresAt then entries - {key} else entries
  }

  predicate Down(downUntil: map<string, int>, key: string, now: int) {
    key in downUntil && now <= downUntil[key]
  }

  function AfterDownCheck(downUntil: map<string, int>, key: string, now: int): map<string, int> {
    if key in downUntil && now > downUntil[key] then downUntil - {key} else downUntil
  }

  ghost predicate Submap<K>(small: map<K, Entry>, big: map<K, Entry>) {
    forall k :: k in small ==> k in big && small[k] == big[k]
  }

  /** Overflow leaves the target size, and no survivor expires before a victim. */
  ghost predicate Evicted<K>(before: map<K, Entry>, after: map<K, Entry>) {
    && Submap(after, before)
    && |after| == (if |before| > 9_000 then 9_000 else |before|)
    && forall victim, kept ::
         victim in before && victim !in after && kept in after ==> before[victim].expiresAt <= before[kept].expiresAt
  }

  ghost predicate PutResult(before: map<string, Entry>, key: string, json: string, ttlMillis: int, now: int, after: map<string, Entry>) {
    if ttlMillis < 0 then after == before
    else
      var inserted := before[key := Entry(json, now + ttlMillis * 1_000_000)];
      if |inserted| > 10_000 then Evicted(inserted, after) else after == inserted
  }

  // ----- overflow -----

  ghost predicate Distinct<K>(keys: seq<K>) {
    forall i, j :: 0 <= i < j < |keys| ==> keys[i] != keys[j]
  }

  ghost predicate Listing<K(!new)>(keys: seq<K>, entries: map<K, Entry>) {
    (forall k :: k in entries <==> k in keys) && Distinct(keys)
  }

  ghost predicate SortedByExpiry<K>(keys: seq<K>, entries: map<K, Entry>)
    requires forall k :: k in keys ==> k in entries
  {
    forall i, j :: 0 <= i < j < |keys| ==> entries[keys[i]].expiresAt <= entries[keys[j]].expiresAt
  }

  lemma {:induction false} ListingSize<K(!new)>(keys: seq<K>, entries: map<K, Entry>)
    requires Listing(keys, entries)
    ensures |keys| == |entries|
    decreases |keys|
  {
    if keys == [] {
      assert entries == map[];
    } else {
      var k, rest := keys[0], keys[1..];
      forall x ensures x in entries - {k} <==> x in rest {
        assert x in keys <==> x == k || x in rest;
      }
      assert forall i :: 0 <= i < |rest| ==> rest[i] == keys[i + 1];
      ListingSize(rest, entries - {k});
      assert (entries - {k}).Keys == entries.Keys - {k};
    }
  }

  /** Collects every key and sorts by expiry: each key goes behind those that expire no later. */
  method KeysByExpiry<K(==, !new)>(entries: map<K, Entry>) returns (keys: seq<K>)
    ensures Listing(keys, entries) && SortedByExpiry(keys, entries)
  {
    keys := [];
    var todo := entries.Keys;
    while todo != {}
      invariant todo <= entries.Keys
      invariant forall k :: k in keys <==> k in entries && k !in todo
      invariant Distinct(keys)
      invariant SortedByExpiry(keys, entries)
      decreases |todo|
    {
      var key :| key in todo;
      todo := todo - {key};
      keys := InsertByExpiry(keys, key, entries);
    }
  }

  method InsertByExpiry<K(==)>(keys: seq<K>, key: K, entries: map<K, Entry>) returns (r: seq<K>)
    requires key in entries && key !in keys && forall k :: k in keys ==> k in entries
    requires SortedByExpiry(keys, entries)
    requires Distinct(keys)
    ensures forall k :: k in r <==> k in keys || k == key
    ensures SortedByExpiry(r, entries)
    ensures Distinct(r)
  {
    var n := |keys|;
    while n > 0 && entries[keys[n - 1]].expiresAt > entries[key].expiresAt
      invariant 0 <= n <= |keys|
      invariant forall i :: n <= i < |keys| ==> entries[key].expiresAt < entries[keys[i]].expiresAt
    {
      n := n - 1;
    }
    r := keys[..n] + [key] + keys[n..];
    InsertedAt(keys, key, n);
    InsertionSorted(keys, key, n, entries, r);
  }

  lemma InsertionSorted<K>(keys: seq<K>, key: K, n: nat, entries: map<K, Entry>, r: seq<K>)
    requires n <= |keys| && |r| == |keys| + 1 && key in entries && key !in keys
    requires (forall k :: k in keys ==> k in entries) && (forall k :: k in r ==> k in entries)
    requires SortedByExpiry(keys, entries) && Distinct(keys)
    requires n > 0 ==> entries[keys[n - 1]].expiresAt <= entries[key].expiresAt
    requires n < |keys| ==> entries[key].expiresAt <= entries[keys[n]].expiresAt
    requires (forall i :: 0 <= i < n ==> r[i] == keys[i]) && r[n] == key && (forall i :: n < i < |r| ==> r[i] == keys[i - 1])
    ensures SortedByExpiry(r, entries) && Distinct(r)
  {
  }

  lemma InsertedAt<K>(keys: seq<K>, key: K, n: nat)
    requires n <= |keys|
    ensures var r := keys[..n] + [key] + keys[n..];
            && |r| == |keys| + 1
            && (forall i :: 0 <= i < n ==> r[i] == keys[i]) && r[n] == key && (forall i :: n < i < |r| ==> r[i] == keys[i - 1])
            && (forall k :: k in r <==> k in keys || k == key)
  {
  }

  /** Removes the listed keys one after the other. */
  method Without<K(==)>(entries: map<K, Entry>, victims: seq<K>) returns (kept: map<K, Entry>)
    ensures forall k :: k in kept <==> k in entries && k !in victims
    ensures forall k :: k in kept ==> kept[k] == entries[k]
  {
    kept := entries;
    for i := 0 to |victims|
      invariant forall k :: k in kept <==> k in entries && k !in victims[..i]
      invariant forall k :: k in kept ==> kept[k] == entries[k]
    {
      assert victims[..i + 1] == victims[..i] + [victims[i]];
      kept := kept - {victims[i]};
    }
    assert victims[..|victims|] == victims;
  }

  lemma SplitListing<K(!new)>(keys: seq<K>, n: nat, entries: map<K, Entry>, kept: map<K, Entry>)
    requires Listing(keys, entries) && n <= |keys|
    requires forall k :: k in kept <==> k in entries && k !in keys[..n]
    ensures Listing(keys[n..], kept)
  {
  }

  lemma VictimsExpireFirst<K>(keys: seq<K>, n: nat, entries: map<K, Entry>, victim: K, survivor: K)
    requires n <= |keys| && forall k :: k in keys ==> k in entries
    requires SortedByExpiry(keys, entries) && victim in keys[..n] && survivor in keys[n..]
    ensures entries[victim].expiresAt <= entries[survivor].expiresAt
  {
  }

  /** `evict_overflow`: drops the soonest to expire until 90% of the cap is left. */
  method EvictOverflow<K(==, !new)>(entries: map<K, Entry>) returns (kept: map<K, Entry>)
    ensures Evicted(entries, kept)
  {
    if |entries| <= TARGET_ENTRIES {
      return entries;
    }
    var overBy := |entries| - TARGET_ENTRIES;
    var keys := KeysByExpiry(entries);
    ListingSize(keys, entries);
    kept := Without(entries, keys[..overBy]);
    EvictionMeets(keys, overBy, entries, kept);
  }

  lemma EvictionMeets<K(!new)>(keys: seq<K>, n: nat, entries: map<K, Entry>, kept: map<K, Entry>)
    requires Listing(keys, entries) && SortedByExpiry(keys, entries)
    requires |entries| > TARGET_ENTRIES && n == |entries| - TARGET_ENTRIES && n <= |keys|
    requires forall k :: k in kept <==> k in entries && k !in keys[..n]
    requires Submap(kept, entries)
    ensures Evicted(entries, kept)
  {
    ListingSize(keys, entries);
    SplitListing(keys, n, entries, kept);
    ListingSize(keys[n..], kept);
    forall victim, survivor | victim in entries && victim !in kept && survivor in kept
      ensures entries[victim].expiresAt <= entries[survivor].expiresAt
    {
      VictimsExpireFirst(keys, n, entries, victim, survivor);
    }
  }

  // ----- the event log the cache refines -----

  datatype Event = Put(key: string, json: string, ttlMillis: int, at: int) | MarkDown(key: string, at: int)

  /** The last put for `key` that was meant to be kept. */
  function LatestPut(log: seq<Event>, key: string): Option<Event> {
    if log == [] then None
    else
      var e := log[|log| - 1];
      if e.Put? && e.key == key && e.ttlMillis >= 0 then Some(e) else LatestPut(log[..|log| - 1], key)
  }

  /** The last event of any kind for `key`. */
  function LatestEvent(log: seq<Event>, key: string): Option<Event> {
    if log == [] then None
    else
      var e := log[|log| - 1];
      if e.key == key then Some(e) else LatestEvent(log[..|log| - 1], key)
  }

  function ExpiryOf(e: Event): int
    requires e.Put?
  {
    e.at + e.ttlMillis * 1_000_000
  }

  /** What a lookup must answer: the latest kept put, while it lasts, unless it was evicted. */
  function Expected(log: seq<Event>, evicted: set<string>, key: string, now: int): Option<string> {
    var p := LatestPut(log, key);
    if p.Some? && p.value.Put? && key !in evicted && now <= ExpiryOf(p.value) then Some(p.value.json) else None
  }

  /** A key is known down while its latest event is a failed dial no more than five seconds old. */
  predicate ExpectedDown(log: seq<Event>, key: string, now: int) {
    var e := LatestEvent(log, key);
    e.Some? && e.value.MarkDown? && now <= e.value.at + 5_000_000_000
  }

  lemma LatestAfter(log: seq<Event>, e: Event, key: string)
    ensures LatestPut(log + [e], key) == if e.Put? && e.key == key && e.ttlMillis >= 0 then Some(e) else LatestPut(log, key)
    ensures LatestEvent(log + [e], key) == if e.key == key then Some(e) else LatestEvent(log, key)
  {
  }

  /** One key's entry against the latest put meant to be kept for it. */
  ghost predicate KeyRefines(entries: map<string, Entry>, latest: Option<Event>, evicted: set<string>, clock: int, k: string) {
    && (latest.Some? ==> latest.value.Put?)
    && if k in entries then
         k !in evicted && latest.Some? && entries[k] == Entry(latest.value.json, ExpiryOf(latest.value))
       else
         latest.Some? ==> k in evicted || ExpiryOf(latest.value) < clock
  }

  /** The entries table holds what the log says, apart from what has expired or been evicted. */
  ghost predicate EntriesRefine(entries: map<string, Entry>, log: seq<Event>, evicted: set<string>, clock: int) {
    forall k :: KeyRefines(entries, LatestPut(log, k), evicted, clock, k)
  }

  ghost predicate DownRefines(downUntil: map<string, int>, log: seq<Event>, clock: int) {
    && (forall k :: k in downUntil ==>
          LatestEvent(log, k).Some? && LatestEvent(log, k).value.MarkDown?
          && downUntil[k] == LatestEvent(log, k).value.at + FAILURE_TTL)
    && (forall k :: LatestEvent(log, k).Some? && LatestEvent(log, k).value.MarkDown? && k !in downUntil ==>
          LatestEvent(log, k).value.at + FAILURE_TTL < clock)
  }

  lemma LookupRefines(entries: map<string, Entry>, log: seq<Event>, evicted: set<string>, clock: int, key: string, now: int)
    requires EntriesRefine(entries, log, evicted, clock) && clock <= now
    ensures Lookup(entries, key, now) == Expected(log, evicted, key, now)
  {
    hide LatestPut;
    assert KeyRefines(entries, LatestPut(log, key), evicted, clock, key);
  }

  /** Dropping expired entries, by a lookup or by the sweep, changes no later answer. */
  lemma DroppingExpiredIsInvisible(before: map<string, Entry>, after: map<string, Entry>, clock: int, key: string, later: int)
    requires Submap(after, before)
    requires forall k :: k in before && k !in after ==> before[k].expiresAt < clock
    requires clock <= later
    ensures Lookup(after, key, later) == Lookup(before, key, later)
  {
  }

  lemma DroppingExpiredKeepsRefinement(before: map<string, Entry>, after: map<string, Entry>, log: seq<Event>,
                                       evicted: set<string>, clock: int, now: int)
    requires EntriesRefine(before, log, evicted, clock) && clock <= now
    requires Submap(after, before) && forall k :: k in before && k !in after ==> before[k].expiresAt < now
    ensures EntriesRefine(after, log, evicted, now)
  {
  }

  lemma PutKeepsRefinement(before: map<string, Entry>, after: map<string, Entry>, log: seq<Event>, evicted: set<string>, clock: int,
                           key: string, json: string, ttlMillis: int, now: int)
    requires EntriesRefine(before, log, evicted, clock) && clock <= now
    requires PutResult(before, key, json, ttlMillis, now, after)
    ensures var log' := log + [Put(key, json, ttlMillis, now)];
            EntriesRefine(after, log', EvictedAfter(before, after, evicted, key, ttlMillis), now)
  {
    PutIsSubmap(before, key, json, ttlMillis, now, after);
    var e := Put(key, json, ttlMillis, now);
    var evicted' := EvictedAfter(before, after, evicted, key, ttlMillis);
    hide PutResult, LatestPut;
    forall k ensures KeyRefines(after, LatestPut(log + [e], k), evicted', now, k) {
      LatestAfter(log, e, k);
      assert KeyRefines(before, LatestPut(log, k), evicted, clock, k);
      PutKeepsKey(before, after, LatestPut(log, k), evicted, clock, e, k);
    }
  }

  lemma PutKeepsKey(before: map<string, Entry>, after: map<string, Entry>, latest: Option<Event>,
                    evicted: set<string>, clock: int, e: Event, k: string)
    requires KeyRefines(before, latest, evicted, clock, k) && e.Put? && clock <= e.at
    requires if e.ttlMillis < 0 then after == before else Submap(after, before[e.key := Entry(e.json, ExpiryOf(e))])
    ensures KeyRefines(after, if k == e.key && e.ttlMillis >= 0 then Some(e) else latest,
                       EvictedAfter(before, after, evicted, e.key, e.ttlMillis), e.at, k)
  {
  }

  lemma PutIsSubmap(before: map<string, Entry>, key: string, json: string, ttlMillis: int, now: int, after: map<string, Entry>)
    requires PutResult(before, key, json, ttlMillis, now, after)
    ensures if ttlMillis < 0 then after == before
            else Submap(after, before[key := Entry(json, now + ttlMillis * MILLISECOND)])
    ensures |before| <= MAX_ENTRIES ==> |after| <= MAX_ENTRIES
  {
  }

  lemma DownAfterPut(downUntil: map<string, int>, log: seq<Event>, clock: int, e: Event, now: int)
    requires DownRefines(downUntil, log, clock) && clock <= now && e.Put?
    ensures DownRefines(downUntil - {e.key}, log + [e], now)
  {
  }

  /** Keys whose latest kept put is gone through overflow, after one more put. */
  function EvictedAfter(before: map<string, Entry>, after: map<string, Entry>, evicted: set<string>, key: string,
                        ttlMillis: int): set<string> {
    if ttlMillis < 0 then evicted
    else
      var present := before.Keys + {key};
      (evicted - {key}) + (present - after.Keys)
  }

  class PingCache {
    var entries: map<string, Entry>
    var downUntil: map<string, int>
    ghost var log: seq<Event>
    ghost var evicted: set<string>
    ghost var clock: int

    ghost predicate Valid()
      reads this
    {
      && EntriesRefine(entries, log, evicted, clock) && DownRefines(downUntil, log, clock)
      && |entries| <= MAX_ENTRIES
    }

    constructor ()
      ensures Valid() && entries == map[] && downUntil == map[] && log == [] && evicted == {}
    {
      entries, downUntil := map[], map[];
      log, evicted, clock := [], {}, 0;
    }

    method Get(key: string, now: int) returns (r: Option<string>)
      requires Valid() && clock <= now
      modifies `entries, `clock
      ensures Valid() && clock == now
      ensures r == Expected(log, evicted, key, now)
      ensures entries == AfterGet(old(entries), key, now)
    {
      LookupRefines(entries, log, evicted, clock, key, now);
      DroppingExpiredKeepsRefinement(entries, AfterGet(entries, key, now), log, evicted, clock, now);
      clock := now;
      if key !in entries {
        return None;
      }
      if now > entries[key].expiresAt {
        assert (entries - {key}).Keys == entries.Keys - {key};
        entries := entries - {key};
        return None;
      }
      r := Some(entries[key].json);
    }

    method PutResponse(key: string, json: string, ttlMillis: int, now: int)
      requires Valid() && clock <= now
      modifies this
      ensures Valid() && clock == now && log == old(log) + [Put(key, json, ttlMillis, now)]
      ensures PutResult(old(entries), key, json, ttlMillis, now, entries)
      ensures evicted == EvictedAfter(old(entries), entries, old(evicted), key, ttlMillis)
      ensures downUntil == old(downUntil) - {key}
    {
      hide EntriesRefine, DownRefines, Evicted, EvictedAfter;
      ghost var e := Put(key, json, ttlMillis, now);
      DownAfterPut(downUntil, log, clock, e, now);
      downUntil := downUntil - {key};
      if ttlMillis >= 0 {
        entries := entries[key := Entry(json, now + ttlMillis * MILLISECOND)];
        if |entries| > MAX_ENTRIES {
          entries := EvictOverflow(entries);
        }
      }
      PutIsSubmap(old(entries), key, json, ttlMillis, now, entries);
      PutKeepsRefinement(old(entries), entries, log, evicted, clock, key, json, ttlMillis, now);
      evicted := EvictedAfter(old(entries), entries, evicted, key, ttlMillis);
      log, clock := log + [e], now;
    }

    method IsKnownDown(key: string, now: int) returns (down: bool)
      requires Valid() && clock <= now
      modifies `downUntil, `clock
      ensures Valid() && clock == now
      ensures down == ExpectedDown(log, key, now)
      ensures downUntil == AfterDownCheck(old(downUntil), key, now)
    {
      DroppingExpiredKeepsRefinement(entries, entries, log, evicted, clock, now);
      clock := now;
      if key !in downUntil {
        return false;
      }
      if now > downUntil[key] {
        downUntil := downUntil - {key};
        return false;
      }
      down := true;
    }

    method MarkKeyDown(key: string, now: int)
      requires Valid() && clock <= now
      modifies `downUntil, `log, `clock
      ensures Valid() && clock == now && log == old(log) + [MarkDown(key, now)]
      ensures downUntil == old(downUntil)[key := now + FAILURE_TTL]
    {
      ghost var e := MarkDown(key, now);
      forall k
        ensures LatestEvent(log + [e], k) == if k == key then Some(e) else LatestEvent(log, k)
        ensures LatestPut(log + [e], k) == LatestPut(log, k)
      {
        LatestAfter(log, e, k);
      }
      hide LatestPut, LatestEvent;
      DroppingExpiredKeepsRefinement(entries, entries, log, evicted, clock, now);
      forall k ensures KeyRefines(entries, LatestPut(log + [e], k), evicted, now, k) {
        assert KeyRefines(entries, LatestPut(log, k), evicted, now, k);
      }
      downUntil := downUntil[key := now + FAILURE_TTL];
      log, clock := log + [e], now;
    }

    /** The periodic sweep: no later lookup or down check can tell that it ran. */
    method Sweep(now: int)
      requires Valid() && clock <= now
      modifies `entries, `downUntil, `clock
      ensures Valid() && clock == now
      ensures forall key, later :: now <= later ==> Lookup(entries, key, later) == Lookup(old(entries), key, later)
      ensures forall key, later :: now <= later ==> Down(downUntil, key, later) == Down(old(downUntil), key, later)
      ensures forall key :: key in entries ==> entries[key].expiresAt >= now
    {
      var kept := map k | k in entries && entries[k].expiresAt >= now :: entries[k];
      DroppingExpiredKeepsRefinement(entries, kept, log, evicted, clock, now);
      SubmapSize(kept, entries);
      entries := kept;
      downUntil := map k | k in downUntil && downUntil[k] >= now :: downUntil[k];
      clock := now;
    }
  }

  lemma SubmapSize(small: map<string, Entry>, big: map<string, Entry>)
    requires Submap(small, big)
    ensures |small| <= |big|
  {
    assert small.Keys <= big.Keys;
    SubsetSize(small.Keys, big.Keys);
  }

  /**
   * What a put makes visible: with a non-negative TTL the new response until it expires, with a
   * negative one whatever an older put left, which is not displaced.
   */
  lemma PutShows(log: seq<Event>, evicted: set<string>, key: string, json: string, ttlMillis: int, at: int, now: int)
    requires key !in evicted
    ensures Expected(log + [Put(key, json, ttlMillis, at)], evicted, key, now) ==
            if ttlMillis < 0 then Expected(log, evicted, key, now)
            else if now <= at + ttlMillis * MILLISECOND then Some(json)
            else None
  {
  }
}
