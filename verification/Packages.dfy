/** Packages of consultation slots, keyed by whatever identifies a package row. */
module Packages {

  datatype Package = Package(totalSlots: int, usedSlots: int)

  /** The upsert every grant uses: a new package, or more slots in the one that is there. */
  function Grant<K>(packages: map<K, Package>, key: K, slots: int): map<K, Package> {
    if key in packages then packages[key := packages[key].(totalSlots := packages[key].totalSlots + slots)]
    else packages[key := Package(slots, 0)]
  }

  /** Slots of the packages whose keys are given. */
  ghost function SlotsAt<K>(packages: map<K, Package>, keys: set<K>): int
    requires keys <= packages.Keys
    decreases |keys|
  {
    if keys == {} then 0
    else
      var k :| k in keys;
      packages[k].totalSlots + SlotsAt(packages, keys - {k})
  }

  /** All slots ever sold. */
  ghost function Slots<K>(packages: map<K, Package>): int {
    SlotsAt(packages, packages.Keys)
  }

  /** Any key may be taken out first. */
  lemma {:induction false} TakeOut<K>(packages: map<K, Package>, keys: set<K>, key: K)
    requires keys <= packages.Keys && key in keys
    ensures SlotsAt(packages, keys) == packages[key].totalSlots + SlotsAt(packages, keys - {key})
    decreases |keys|
  {
    var k :| k in keys && SlotsAt(packages, keys) == packages[k].totalSlots + SlotsAt(packages, keys - {k});
    if k != key {
      TakeOut(packages, keys - {k}, key);
      TakeOut(packages, keys - {key}, k);
      assert keys - {k} - {key} == keys - {key} - {k};
    }
  }

  lemma {:induction false} SameElsewhere<K>(a: map<K, Package>, b: map<K, Package>, keys: set<K>)
    requires keys <= a.Keys && keys <= b.Keys && forall k :: k in keys ==> a[k] == b[k]
    ensures SlotsAt(a, keys) == SlotsAt(b, keys)
    decreases |keys|
  {
    if keys != {} {
      var k :| k in keys;
      TakeOut(a, keys, k);
      TakeOut(b, keys, k);
      SameElsewhere(a, b, keys - {k});
    }
  }

  /** A grant adds its slots and no others. */
  lemma GrantAdds<K>(packages: map<K, Package>, key: K, slots: int)
    ensures Slots(Grant(packages, key, slots)) == Slots(packages) + slots
    ensures forall k :: k in packages && k != key ==>
              k in Grant(packages, key, slots) && Grant(packages, key, slots)[k] == packages[k]
  {
    var after := Grant(packages, key, slots);
    var others := packages.Keys - {key};
    assert after.Keys - {key} == others;
    TakeOut(after, after.Keys, key);
    SameElsewhere(packages, after, others);
    if key in packages {
      TakeOut(packages, packages.Keys, key);
    } else {
      assert packages.Keys == others;
    }
  }

  /** Exactly this package gains the slots; one that is not there starts with them, unused. */
  ghost predicate Gains<K(!new)>(packages: map<K, Package>, packages': map<K, Package>, key: K, slots: int) {
    && key in packages' && (forall k :: k in packages' <==> k in packages || k == key)
    && (forall k :: k in packages && k != key ==> packages'[k] == packages[k])
    && packages'[key].totalSlots == (if key in packages then packages[key].totalSlots else 0) + slots
    && packages'[key].usedSlots == if key in packages then packages[key].usedSlots else 0
  }

  lemma GrantGains<K(!new)>(packages: map<K, Package>, key: K, slots: int)
    ensures Gains(packages, Grant(packages, key, slots), key, slots)
  {
  }
}
