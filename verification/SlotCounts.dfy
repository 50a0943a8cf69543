/**
 * The count-per-key tables behind status-dial slots (`src/state.rs`), pre-login slots
 * (`src/net/connection_guard.rs`) and voice sessions per IP (`src/udp/voice_relay.rs`): an
 * entry is incremented, undone when over the cap, and dropped when it reaches zero.
 */
module SlotCounts {
  datatype Attempt<K> = Attempt(table: map<K, int>, ok: bool)

  function Acquire<K>(m: map<K, int>, k: K, max: int): Attempt<K> {
    var count := (if k in m then m[k] else 0) + 1;
    if count <= max then Attempt(m[k := count], true)
    else if count - 1 <= 0 then Attempt(m - {k}, false)
    else Attempt(m[k := count - 1], false)
  }

  function Release<K>(m: map<K, int>, k: K): map<K, int> {
    if k !in m then m
    else if m[k] - 1 <= 0 then m - {k}
    else m[k := m[k] - 1]
  }

  ghost function HoldersOf<Id, K>(holders: map<Id, K>, k: K): set<Id> {
    set id | id in holders && holders[id] == k
  }

  /** Every entry counts the holders of its key, and a key nobody holds has no entry. */
  ghost predicate Exact<Id, K(!new)>(m: map<K, int>, holders: map<Id, K>) {
    forall k: K :: (k in m <==> HoldersOf(holders, k) != {}) && (k in m ==> m[k] == |HoldersOf(holders, k)|)
  }

  ghost predicate Within<K>(m: map<K, int>, max: int) {
    forall k :: k in m ==> m[k] <= max
  }

  /** A granted attempt counts its new holder; a refused one leaves no residue. */
  lemma AcquireKeepsExact<Id, K(!new)>(m: map<K, int>, holders: map<Id, K>, id: Id, k: K, max: int)
    requires Exact(m, holders) && id !in holders
    ensures var a := Acquire(m, k, max);
            && (a.ok <==> |HoldersOf(holders, k)| < max)
            && (a.ok ==> Exact(a.table, holders[id := k]))
            && (!a.ok ==> a.table == m)
            && (Within(m, max) ==> Within(a.table, max))
  {
    var held := HoldersOf(holders, k);
    assert k !in m ==> held == {};
    var holders' := holders[id := k];
    assert HoldersOf(holders', k) == held + {id};
    forall k' | k' != k ensures HoldersOf(holders', k') == HoldersOf(holders, k') {
    }
    if !Acquire(m, k, max).ok && k !in m {
      assert m - {k} == m;
    }
  }

  /** Releasing forgets exactly one holder and drops an entry that reaches zero. */
  lemma ReleaseKeepsExact<Id, K(!new)>(m: map<K, int>, holders: map<Id, K>, id: Id, max: int)
    requires Exact(m, holders) && id in holders
    ensures Exact(Release(m, holders[id]), holders - {id})
    ensures Within(m, max) ==> Within(Release(m, holders[id]), max)
  {
    var k, holders' := holders[id], holders - {id};
    var held := HoldersOf(holders, k);
    assert id in held;
    assert HoldersOf(holders', k) == held - {id};
    assert |held - {id}| == |held| - 1;
    forall k' | k' != k ensures HoldersOf(holders', k') == HoldersOf(holders, k') {
    }
  }
}
