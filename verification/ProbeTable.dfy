/**
 The open-addressed indexes of the dispatch table (src/core/http_dispatch.c, insert_exact,
 insert_param_bucket and their lookups): linear probing without deletion, for any hash.
 Entries are positions into a list of keys; equal keys may be inserted more than once.
*/
module ProbeTable {
  import opened Prelude

  /** The masked position of a probe; a mask of a power of two is a remainder. */
  function Slot(hash: nat, probe: nat, n: nat): (r: nat)
    requires n > 0
    ensures r < n
  {
    (hash + probe) % n
  }

  /** A probe walks up from the start slot and wraps once. */
  lemma SlotWraps(hash: nat, probe: nat, n: nat)
    requires probe < n
    ensures Slot(hash, probe, n) == var y := hash % n + probe; if y < n then y else y - n
  {
    var sum, y := hash + probe, hash % n + probe;
    var d := sum / n - hash / n;
    assert sum == n * (sum / n) + sum % n;
    assert hash == n * (hash / n) + hash % n;
    assert n * d == n * (sum / n) - n * (hash / n);
    assert n * d == y - sum % n;
    NoOrOneTurn(n, d);
  }

  lemma NoOrOneTurn(n: nat, d: int)
    requires 0 < n + n * d && n * d < 2 * n
    ensures d == 0 || d == 1
  {
    assert d < 0 ==> n * (d + 1) <= 0;
    assert d > 1 ==> n * (d - 2) >= 0;
  }

  /** Within one round the probes reach every slot. */
  lemma EverySlotIsProbed(hash: nat, n: nat, x: nat)
    requires x < n
    ensures exists p :: 0 <= p < n && Slot(hash, p, n) == x
  {
    var start := hash % n;
    var p := if x >= start then x - start else x - start + n;
    SlotWraps(hash, p, n);
    assert Slot(hash, p, n) == x;
  }

  ghost predicate Reached(slots: seq<Option<nat>>, hash: nat, j: nat, p: nat) {
    && p < |slots|
    && slots[Slot(hash, p, |slots|)] == Some(j)
    && forall q :: 0 <= q < p ==> Holds(slots, hash, q, j)
  }

  /** Probe `q` meets an entry older than `j`. */
  ghost predicate Holds(slots: seq<Option<nat>>, hash: nat, q: nat, j: nat)
    requires |slots| > 0
  {
    slots[Slot(hash, q, |slots|)].Some? && slots[Slot(hash, q, |slots|)].value < j
  }

  ghost predicate Reachable(slots: seq<Option<nat>>, hash: nat, j: nat) {
    exists p: nat :: Reached(slots, hash, j, p)
  }

  /** Every entry is reached from its hash through older entries only. */
  ghost predicate Stored<K>(slots: seq<Option<nat>>, keys: seq<K>, hash: K -> nat) {
    && (forall j :: 0 <= j < |keys| ==> Reachable(slots, hash(keys[j]), j))
    && (forall x :: 0 <= x < |slots| && slots[x].Some? ==> slots[x].value < |keys|)
  }

  function Occupied(slots: seq<Option<nat>>): set<nat> {
    set x | 0 <= x < |slots| && slots[x].Some?
  }

  lemma FreeSlot(slots: seq<Option<nat>>)
    requires |Occupied(slots)| < |slots|
    ensures exists x :: 0 <= x < |slots| && slots[x].None?
  {
    if forall x :: 0 <= x < |slots| ==> slots[x].Some? {
      AllOccupied(slots);
    }
  }

  lemma {:induction false} AllOccupied(slots: seq<Option<nat>>)
    requires forall x :: 0 <= x < |slots| ==> slots[x].Some?
    ensures |Occupied(slots)| == |slots|
  {
    if slots != [] {
      var last := |slots| - 1;
      AllOccupied(slots[..last]);
      assert Occupied(slots) == Occupied(slots[..last]) + {last};
    }
  }

  /** The insertion loop; it never runs out of probes while a slot is free. */
  method Insert<K>(slots: seq<Option<nat>>, ghost keys: seq<K>, key: K, hash: K -> nat, entry: nat)
    returns (r: Option<seq<Option<nat>>>)
    requires Stored(slots, keys, hash) && entry == |keys| && |Occupied(slots)| < |slots|
    ensures r.Some? && |r.value| == |slots|
    ensures Stored(r.value, keys + [key], hash)
    ensures |Occupied(r.value)| == |Occupied(slots)| + 1
  {
    var n := |slots|;
    var h := hash(key);
    FreeSlot(slots);
    for probe := 0 to n
      invariant forall q :: 0 <= q < probe ==> slots[Slot(h, q, n)].Some?
    {
      var index := Slot(h, probe, n);
      if slots[index].None? {
        var next := slots[index := Some(entry)];
        StoredAfterInsert(slots, keys, key, hash, h, probe);
        assert Occupied(next) == Occupied(slots) + {index};
        return Some(next);
      }
    }
    var x :| 0 <= x < n && slots[x].None?;
    EverySlotIsProbed(h, n, x);
    assert false;
    r := None;
  }

  lemma StoredAfterInsert<K>(slots: seq<Option<nat>>, keys: seq<K>, key: K, hash: K -> nat, h: nat, probe: nat)
    requires Stored(slots, keys, hash) && h == hash(key) && probe < |slots|
    requires slots[Slot(h, probe, |slots|)].None?
    requires forall q :: 0 <= q < probe ==> slots[Slot(h, q, |slots|)].Some?
    ensures Stored(slots[Slot(h, probe, |slots|) := Some(|keys|)], keys + [key], hash)
  {
    var index := Slot(h, probe, |slots|);
    var next := slots[index := Some(|keys|)];
    var all := keys + [key];
    assert all[|keys|] == key;
    forall j | 0 <= j < |all|
      ensures Reachable(next, hash(all[j]), j)
    {
      if j < |keys| {
        assert all[j] == keys[j];
        var p: nat :| Reached(slots, hash(keys[j]), j, p);
        ReachedStays(slots, hash(keys[j]), j, p, index, |keys|);
      } else {
        forall q | 0 <= q < probe
          ensures Holds(next, h, q, |keys|)
        {
          assert slots[Slot(h, q, |slots|)].Some?;
        }
        assert Reached(next, h, |keys|, probe);
      }
    }
    forall x | 0 <= x < |next| && next[x].Some?
      ensures next[x].value < |all|
    {
      assert x != index ==> next[x] == slots[x];
    }
  }

  lemma ReachedStays(slots: seq<Option<nat>>, hash: nat, j: nat, p: nat, index: nat, entry: nat)
    requires Reached(slots, hash, j, p) && index < |slots| && slots[index].None?
    ensures Reached(slots[index := Some(entry)], hash, j, p)
  {
    var next := slots[index := Some(entry)];
    forall q | 0 <= q < p
      ensures Holds(next, hash, q, j)
    {
      assert Holds(slots, hash, q, j);
    }
  }

  /** The first key equal to `key`. */
  predicate IsFirst<K(==)>(keys: seq<K>, key: K, r: Option<nat>) {
    if r.Some? then r.value < |keys| && keys[r.value] == key && forall i :: 0 <= i < r.value ==> keys[i] != key
    else key !in keys
  }

  /** The lookup loop finds the first equal key, whatever the hash. */
  method Find<K(==)>(slots: seq<Option<nat>>, keys: seq<K>, key: K, hash: K -> nat) returns (r: Option<nat>)
    requires Stored(slots, keys, hash)
    ensures IsFirst(keys, key, r)
  {
    var n := |slots|;
    var h := hash(key);
    ghost var first: nat, reached: nat := 0, 0;
    if key in keys {
      first := FirstOf(keys, key);
      reached :| Reached(slots, hash(keys[first]), first, reached);
    }
    for probe := 0 to n
      invariant key in keys ==> probe <= reached
    {
      var index := Slot(h, probe, n);
      assert key in keys && probe < reached ==> Holds(slots, h, probe, first);
      if slots[index].None? {
        return None;
      }
      if keys[slots[index].value] == key {
        return Some(slots[index].value);
      }
    }
    r := None;
  }

  ghost function FirstOf<K>(keys: seq<K>, key: K): (r: nat)
    requires key in keys
    ensures r < |keys| && keys[r] == key && forall i :: 0 <= i < r ==> keys[i] != key
  {
    if keys[0] == key then 0 else 1 + FirstOf(keys[1..], key)
  }
}
