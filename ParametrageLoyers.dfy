/**
 * The property and tenant lists of src/pages/ParametrageLoyers.tsx, collapsed
 * to one entry per id from the leases' embedded relations through a JavaScript
 * `Map`. A `Map` is modelled as its list of (key, value) entries in insertion
 * order: setting a key that is present replaces its value in place, setting a
 * new key appends it.
 */
module ParametrageLoyers {
  import opened Wrappers
  import opened Sequences
  import opened LeaseWizard

  /** A lease as fetched with its `properties(*)` and `tenants(*)` relations; either may be missing. */
  datatype Lease = Lease(id: nat, properties: Option<Property>, tenants: Option<Tenant>)

  /** `new Map(entries)` throws a TypeError at the first entry that is not a [key, value] pair. */
  datatype TypeError = NotAnEntry(position: nat)

  function KeysOf<V>(entries: seq<(nat, V)>): (keys: seq<nat>)
    ensures |keys| == |entries|
    ensures forall k :: 0 <= k < |entries| ==> keys[k] == entries[k].0
  {
    seq(|entries|, k requires 0 <= k < |entries| => entries[k].0)
  }

  /** `map.set(key, value)`. */
  function MapSet<V>(m: seq<(nat, V)>, key: nat, value: V): seq<(nat, V)> {
    var i := IndexOf(KeysOf(m), key);
    if i >= 0 then m[i := (key, value)] else m + [(key, value)]
  }

  /** The `Map` built from `pairs`, set one after the other. */
  function MapOf<V>(pairs: seq<(nat, V)>): seq<(nat, V)>
    decreases |pairs|
  {
    if |pairs| == 0 then []
    else
      var last := pairs[|pairs| - 1];
      MapSet(MapOf(pairs[..|pairs| - 1]), last.0, last.1)
  }

  /** Keys are pairwise distinct. */
  ghost predicate DistinctKeys<V>(m: seq<(nat, V)>) {
    forall a, b :: 0 <= a < b < |m| ==> m[a].0 != m[b].0
  }

  /**
   * What one `set` promises: the key now holds the value, in exactly one entry;
   * every other entry keeps its place and its value; keys stay distinct; the map
   * grows by one entry exactly when the key is new.
   */
  lemma MapSetFacts<V>(m: seq<(nat, V)>, key: nat, value: V)
    requires DistinctKeys(m)
    ensures DistinctKeys(MapSet(m, key, value))
    ensures |MapSet(m, key, value)| == if key in KeysOf(m) then |m| else |m| + 1
    ensures exists a :: 0 <= a < |MapSet(m, key, value)| && MapSet(m, key, value)[a] == (key, value)
    ensures forall a :: 0 <= a < |MapSet(m, key, value)| && MapSet(m, key, value)[a].0 == key ==>
      MapSet(m, key, value)[a].1 == value
    ensures forall a :: 0 <= a < |m| && m[a].0 != key ==> MapSet(m, key, value)[a] == m[a]
  {
    MapSetShape(m, key, value);
    var i := IndexOf(KeysOf(m), key);
    var r := MapSet(m, key, value);
    if i >= 0 {
      assert r[i] == (key, value);
    } else {
      assert r[|m|] == (key, value);
    }
  }

  /** The entry list after one `set`, by cases. */
  lemma MapSetShape<V>(m: seq<(nat, V)>, key: nat, value: V)
    ensures var i := IndexOf(KeysOf(m), key);
      if i >= 0 then MapSet(m, key, value) == m[i := (key, value)] && KeysOf(MapSet(m, key, value)) == KeysOf(m)
      else MapSet(m, key, value) == m + [(key, value)] && KeysOf(MapSet(m, key, value)) == KeysOf(m) + [key]
  {
  }

  /** One entry per distinct key of `pairs`, and no other. */
  lemma {:induction false} MapOfKeys<V>(pairs: seq<(nat, V)>)
    ensures DistinctKeys(MapOf(pairs))
    ensures forall key :: key in KeysOf(MapOf(pairs)) <==> key in KeysOf(pairs)
    decreases |pairs|
  {
    if |pairs| > 0 {
      var init, last := pairs[..|pairs| - 1], pairs[|pairs| - 1];
      MapOfKeys(init);
      MapSetShape(MapOf(init), last.0, last.1);
      assert KeysOf(pairs) == KeysOf(init) + [last.0];
    }
  }

  /** The position of `x` in `xs` does not move when something is appended. */
  lemma {:induction false} IndexOfExtend(xs: seq<nat>, y: nat, x: nat)
    requires x in xs
    ensures IndexOf(xs + [y], x) == IndexOf(xs, x)
  {
    if xs[0] != x {
      assert (xs + [y])[1..] == xs[1..] + [y];
      IndexOfExtend(xs[1..], y, x);
    }
  }

  /** Entries are in the order of their keys' first occurrences in `pairs`. */
  lemma {:induction false} MapOfOrder<V>(pairs: seq<(nat, V)>)
    ensures forall a, b :: 0 <= a < b < |MapOf(pairs)| ==>
      IndexOf(KeysOf(pairs), MapOf(pairs)[a].0) < IndexOf(KeysOf(pairs), MapOf(pairs)[b].0)
    decreases |pairs|
  {
    if |pairs| > 0 {
      var init, last := pairs[..|pairs| - 1], pairs[|pairs| - 1];
      MapOfOrder(init);
      MapOfKeys(init);
      var m0, m := MapOf(init), MapOf(pairs);
      var ks0, ks := KeysOf(init), KeysOf(pairs);
      assert ks == ks0 + [last.0];
      MapSetShape(m0, last.0, last.1);
      forall a | 0 <= a < |m0| ensures IndexOf(ks, m0[a].0) == IndexOf(ks0, m0[a].0) {
        assert m0[a].0 in KeysOf(m0);
        IndexOfExtend(ks0, last.0, m0[a].0);
      }
      if last.0 !in KeysOf(m0) {
        assert ks[..|ks| - 1] == ks0;
        assert IndexOf(ks, last.0) == |ks| - 1;
      }
    }
  }

  /** Each entry holds the value of its key's last occurrence in `pairs`. */
  lemma {:induction false} MapOfValues<V>(pairs: seq<(nat, V)>)
    ensures forall a :: 0 <= a < |MapOf(pairs)| ==>
      && LastIndexOf(KeysOf(pairs), MapOf(pairs)[a].0) >= 0
      && MapOf(pairs)[a].1 == pairs[LastIndexOf(KeysOf(pairs), MapOf(pairs)[a].0)].1
    decreases |pairs|
  {
    if |pairs| > 0 {
      var init, last := pairs[..|pairs| - 1], pairs[|pairs| - 1];
      MapOfValues(init);
      MapOfKeys(init);
      var m0, m := MapOf(init), MapOf(pairs);
      var ks0, ks := KeysOf(init), KeysOf(pairs);
      assert ks == ks0 + [last.0];
      assert ks[..|ks| - 1] == ks0;
      MapSetShape(m0, last.0, last.1);
      assert LastIndexOf(ks, last.0) == |pairs| - 1;
      forall a | 0 <= a < |m| && m[a].0 != last.0
        ensures LastIndexOf(ks, m[a].0) == LastIndexOf(ks0, m[a].0) && m[a] == m0[a]
      {
      }
    }
  }

  /**
   * `new Map(leases.map(select))`: the entries are built first; the first lease
   * without the relation gives a non-entry, on which the constructor throws.
   */
  function MapFromLeases<V>(leases: seq<Lease>, select: Lease -> Option<(nat, V)>): (r: Result<seq<(nat, V)>, TypeError>)
    ensures r.Failure? <==> exists i :: 0 <= i < |leases| && select(leases[i]).None?
    ensures r.Failure? ==> var p := r.error.position;
      p < |leases| && select(leases[p]).None? && forall j :: 0 <= j < p ==> select(leases[j]).Some?
    ensures r.Success? ==> r.value == MapOf(Entries(leases, select))
    decreases |leases|
  {
    if exists i :: 0 <= i < |leases| && select(leases[i]).None? then
      var p := FirstMissing(leases, select);
      Failure(NotAnEntry(p))
    else
      Success(MapOf(Entries(leases, select)))
  }

  /** `leases.map(select)` when every lease gives an entry. */
  function Entries<V>(leases: seq<Lease>, select: Lease -> Option<(nat, V)>): (pairs: seq<(nat, V)>)
    requires forall i :: 0 <= i < |leases| ==> select(leases[i]).Some?
    ensures |pairs| == |leases|
    ensures forall i :: 0 <= i < |leases| ==> Some(pairs[i]) == select(leases[i])
  {
    seq(|leases|, i requires 0 <= i < |leases| => select(leases[i]).value)
  }

  /** The position of the first lease `select` gives no entry for. */
  function FirstMissing<V>(leases: seq<Lease>, select: Lease -> Option<(nat, V)>): (p: nat)
    requires exists i :: 0 <= i < |leases| && select(leases[i]).None?
    ensures p < |leases| && select(leases[p]).None? && forall j :: 0 <= j < p ==> select(leases[j]).Some?
  {
    if select(leases[0]).None? then 0
    else
      assert exists i :: 0 <= i < |leases[1..]| && select(leases[1..][i]).None? by {
        var i :| 0 <= i < |leases| && select(leases[i]).None?;
        assert leases[1..][i - 1] == leases[i];
      }
      1 + FirstMissing(leases[1..], select)
  }

  /** `l => l.properties && [l.properties.id, l.properties]`. */
  function PropertyEntry(l: Lease): Option<(nat, Property)> {
    match l.properties
    case Some(p) => Some((p.id, p))
    case None => None
  }

  /** `l => l.tenants && [l.tenants.id, l.tenants]`. */
  function TenantEntry(l: Lease): Option<(nat, Tenant)> {
    match l.tenants
    case Some(t) => Some((t.id, t))
    case None => None
  }

  /** `map.values()`, in entry order. */
  function ValuesOf<V>(m: seq<(nat, V)>): (vs: seq<V>)
    ensures |vs| == |m|
    ensures forall k :: 0 <= k < |m| ==> vs[k] == m[k].1
  {
    seq(|m|, k requires 0 <= k < |m| => m[k].1)
  }

  /**
   * The `properties` and `tenants` lists of the page. `.values()` of the map
   * is taken in entry order; `.filter(Boolean)` keeps every value, since each
   * is an object. The properties are built first, so their error wins.
   */
  function UniqueRelations(leases: seq<Lease>): Result<(seq<Property>, seq<Tenant>), TypeError> {
    match MapFromLeases(leases, PropertyEntry)
    case Failure(e) => Failure(e)
    case Success(pm) =>
      match MapFromLeases(leases, TenantEntry)
      case Failure(e) => Failure(e)
      case Success(tm) => Success((ValuesOf(pm), ValuesOf(tm)))
  }

  /** The page fails exactly when some lease lacks its property or its tenant. */
  lemma UniqueRelationsFails(leases: seq<Lease>)
    ensures UniqueRelations(leases).Failure?
        <==> exists i :: 0 <= i < |leases| && (leases[i].properties.None? || leases[i].tenants.None?)
  {
    if exists i :: 0 <= i < |leases| && (leases[i].properties.None? || leases[i].tenants.None?) {
      var i :| 0 <= i < |leases| && (leases[i].properties.None? || leases[i].tenants.None?);
      assert PropertyEntry(leases[i]).None? || TenantEntry(leases[i]).None?;
    }
  }

  /** No leases: empty lists. */
  lemma NoLeases()
    ensures UniqueRelations([]) == Success(([], []))
  {
    assert Entries([], PropertyEntry) == [];
    assert Entries([], TenantEntry) == [];
    var pm: seq<(nat, Property)> := MapOf([]);
    var tm: seq<(nat, Tenant)> := MapOf([]);
    assert MapFromLeases([], PropertyEntry) == Success(pm);
    assert MapFromLeases([], TenantEntry) == Success(tm);
    assert ValuesOf(pm) == [] && ValuesOf(tm) == [];
  }

  /**
   * When every lease gives an entry keyed by the id of its value, the map's
   * values hold one value per distinct id, ids pairwise distinct, in order of
   * first appearance, each the value of the LAST lease carrying that id.
   */
  lemma Dedup<V>(leases: seq<Lease>, select: Lease -> Option<(nat, V)>, idOf: V -> nat)
    requires forall i :: 0 <= i < |leases| ==> select(leases[i]).Some?
    requires forall i :: 0 <= i < |leases| ==> select(leases[i]).value.0 == idOf(select(leases[i]).value.1)
    ensures MapFromLeases(leases, select).Success?
    ensures var vs := ValuesOf(MapFromLeases(leases, select).value);
      var ids := KeysOf(Entries(leases, select));
      && (forall a, b :: 0 <= a < b < |vs| ==> idOf(vs[a]) != idOf(vs[b]))
      && (forall id: nat :: (exists a :: 0 <= a < |vs| && idOf(vs[a]) == id) <==> id in ids)
      && (forall a, b :: 0 <= a < b < |vs| ==> IndexOf(ids, idOf(vs[a])) < IndexOf(ids, idOf(vs[b])))
      && (forall a :: 0 <= a < |vs| ==>
            && LastIndexOf(ids, idOf(vs[a])) >= 0
            && Some((idOf(vs[a]), vs[a])) == select(leases[LastIndexOf(ids, idOf(vs[a]))]))
  {
    var pairs := Entries(leases, select);
    assert MapFromLeases(leases, select).value == MapOf(pairs);
    forall i | 0 <= i < |pairs| ensures pairs[i].0 == idOf(pairs[i].1) {
      assert Some(pairs[i]) == select(leases[i]);
    }
    MapValuesDistinct(pairs, idOf);
    MapValuesCover(pairs, idOf);
    MapValuesOrder(pairs, idOf);
    MapValuesLast(pairs, idOf);
    var vs, ids := ValuesOf(MapOf(pairs)), KeysOf(pairs);
    forall id: nat ensures (exists a :: 0 <= a < |vs| && idOf(vs[a]) == id) <==> id in ids {
      assert HoldsId(vs, idOf, id) <==> id in ids;
    }
    forall a | 0 <= a < |vs|
      ensures Some((idOf(vs[a]), vs[a])) == select(leases[LastIndexOf(ids, idOf(vs[a]))])
    {
      var j := LastIndexOf(ids, idOf(vs[a]));
      assert 0 <= j < |pairs| && pairs[j] == (idOf(vs[a]), vs[a]);
      assert Some(pairs[j]) == select(leases[j]);
    }
  }

  /** Keyed by the ids of their values, the map's values have pairwise distinct ids. */
  lemma MapValuesDistinct<V>(pairs: seq<(nat, V)>, idOf: V -> nat)
    requires forall i :: 0 <= i < |pairs| ==> pairs[i].0 == idOf(pairs[i].1)
    ensures forall a, b :: 0 <= a < b < |ValuesOf(MapOf(pairs))| ==>
      idOf(ValuesOf(MapOf(pairs))[a]) != idOf(ValuesOf(MapOf(pairs))[b])
  {
    MapOfKeysMatchValues(pairs, idOf);
    MapOfKeys(pairs);
  }

  /** Some value in `vs` has id `id`. */
  ghost predicate HoldsId<V>(vs: seq<V>, idOf: V -> nat, id: nat) {
    exists a :: 0 <= a < |vs| && idOf(vs[a]) == id
  }

  /** Keyed by the ids of their values, the map's values carry exactly the keys of `pairs`. */
  lemma MapValuesCover<V>(pairs: seq<(nat, V)>, idOf: V -> nat)
    requires forall i :: 0 <= i < |pairs| ==> pairs[i].0 == idOf(pairs[i].1)
    ensures forall id: nat :: HoldsId(ValuesOf(MapOf(pairs)), idOf, id) <==> id in KeysOf(pairs)
  {
    MapOfKeysMatchValues(pairs, idOf);
    MapOfKeys(pairs);
    var vs, km := ValuesOf(MapOf(pairs)), KeysOf(MapOf(pairs));
    forall id: nat ensures HoldsId(vs, idOf, id) <==> id in KeysOf(pairs) {
      if id in KeysOf(pairs) {
        assert id in km;
        var a :| 0 <= a < |km| && km[a] == id;
        assert idOf(vs[a]) == id;
      }
      if HoldsId(vs, idOf, id) {
        var a :| 0 <= a < |vs| && idOf(vs[a]) == id;
        assert km[a] == MapOf(pairs)[a].0;
      }
    }
  }

  /** Keyed by the ids of their values, the map's values follow their ids' first occurrences. */
  lemma MapValuesOrder<V>(pairs: seq<(nat, V)>, idOf: V -> nat)
    requires forall i :: 0 <= i < |pairs| ==> pairs[i].0 == idOf(pairs[i].1)
    ensures forall a, b :: 0 <= a < b < |ValuesOf(MapOf(pairs))| ==>
      IndexOf(KeysOf(pairs), idOf(ValuesOf(MapOf(pairs))[a])) < IndexOf(KeysOf(pairs), idOf(ValuesOf(MapOf(pairs))[b]))
  {
    MapOfKeysMatchValues(pairs, idOf);
    MapOfOrder(pairs);
  }

  /** Keyed by the ids of their values, each of the map's values is the pair of its id's last occurrence. */
  lemma MapValuesLast<V>(pairs: seq<(nat, V)>, idOf: V -> nat)
    requires forall i :: 0 <= i < |pairs| ==> pairs[i].0 == idOf(pairs[i].1)
    ensures forall a :: 0 <= a < |ValuesOf(MapOf(pairs))| ==>
      && LastIndexOf(KeysOf(pairs), idOf(ValuesOf(MapOf(pairs))[a])) >= 0
      && pairs[LastIndexOf(KeysOf(pairs), idOf(ValuesOf(MapOf(pairs))[a]))]
         == (idOf(ValuesOf(MapOf(pairs))[a]), ValuesOf(MapOf(pairs))[a])
  {
    MapOfKeysMatchValues(pairs, idOf);
    MapOfValues(pairs);
  }

  /** `UniqueRelations` succeeds exactly when both maps are built, and lists their values. */
  lemma UniqueRelationsValues(leases: seq<Lease>)
    requires forall i :: 0 <= i < |leases| ==> leases[i].properties.Some? && leases[i].tenants.Some?
    ensures MapFromLeases(leases, PropertyEntry).Success? && MapFromLeases(leases, TenantEntry).Success?
    ensures UniqueRelations(leases) == Success((ValuesOf(MapFromLeases(leases, PropertyEntry).value),
                                                ValuesOf(MapFromLeases(leases, TenantEntry).value)))
  {
    assert forall i :: 0 <= i < |leases| ==> PropertyEntry(leases[i]).Some? && TenantEntry(leases[i]).Some?;
  }

  /** The ids of the properties the leases carry, lease by lease. */
  function PropertyIds(leases: seq<Lease>): (ids: seq<nat>)
    requires forall i :: 0 <= i < |leases| ==> leases[i].properties.Some?
    ensures |ids| == |leases| && forall i :: 0 <= i < |leases| ==> ids[i] == leases[i].properties.value.id
  {
    seq(|leases|, i requires 0 <= i < |leases| => leases[i].properties.value.id)
  }

  /** The ids of the tenants the leases carry, lease by lease. */
  function TenantIds(leases: seq<Lease>): (ids: seq<nat>)
    requires forall i :: 0 <= i < |leases| ==> leases[i].tenants.Some?
    ensures |ids| == |leases| && forall i :: 0 <= i < |leases| ==> ids[i] == leases[i].tenants.value.id
  {
    seq(|leases|, i requires 0 <= i < |leases| => leases[i].tenants.value.id)
  }

  /**
   * When every lease carries both relations, the page's `properties` list
   * holds one property per distinct property id, in order of first appearance,
   * each the copy from the LAST lease carrying that id.
   */
  lemma UniqueProperties(leases: seq<Lease>)
    requires forall i :: 0 <= i < |leases| ==> leases[i].properties.Some? && leases[i].tenants.Some?
    ensures UniqueRelations(leases).Success?
    ensures var props, ids := UniqueRelations(leases).value.0, PropertyIds(leases);
      forall a, b :: 0 <= a < b < |props| ==> props[a].id != props[b].id
    ensures var props, ids := UniqueRelations(leases).value.0, PropertyIds(leases);
      forall id :: (exists a :: 0 <= a < |props| && props[a].id == id) <==> id in ids
    ensures var props, ids := UniqueRelations(leases).value.0, PropertyIds(leases);
      forall a, b :: 0 <= a < b < |props| ==> IndexOf(ids, props[a].id) < IndexOf(ids, props[b].id)
    ensures var props, ids := UniqueRelations(leases).value.0, PropertyIds(leases);
      forall a :: 0 <= a < |props| ==>
        && LastIndexOf(ids, props[a].id) >= 0
        && props[a] == leases[LastIndexOf(ids, props[a].id)].properties.value
  {
    assert forall i :: 0 <= i < |leases| ==> PropertyEntry(leases[i]).Some? && TenantEntry(leases[i]).Some?;
    var idOf := (p: Property) => p.id;
    Dedup(leases, PropertyEntry, idOf);
    var ids := PropertyIds(leases);
    assert KeysOf(Entries(leases, PropertyEntry)) == ids;
    var props := ValuesOf(MapFromLeases(leases, PropertyEntry).value);
    assert UniqueRelations(leases).value.0 == props;
    assert forall a :: 0 <= a < |props| ==> idOf(props[a]) == props[a].id;
  }

  /** The same for the page's `tenants` list, keyed by tenant id. */
  lemma UniqueTenants(leases: seq<Lease>)
    requires forall i :: 0 <= i < |leases| ==> leases[i].properties.Some? && leases[i].tenants.Some?
    ensures UniqueRelations(leases).Success?
    ensures var tens, ids := UniqueRelations(leases).value.1, TenantIds(leases);
      forall a, b :: 0 <= a < b < |tens| ==> tens[a].id != tens[b].id
    ensures var tens, ids := UniqueRelations(leases).value.1, TenantIds(leases);
      forall id :: (exists a :: 0 <= a < |tens| && tens[a].id == id) <==> id in ids
    ensures var tens, ids := UniqueRelations(leases).value.1, TenantIds(leases);
      forall a, b :: 0 <= a < b < |tens| ==> IndexOf(ids, tens[a].id) < IndexOf(ids, tens[b].id)
    ensures var tens, ids := UniqueRelations(leases).value.1, TenantIds(leases);
      forall a :: 0 <= a < |tens| ==>
        && LastIndexOf(ids, tens[a].id) >= 0
        && tens[a] == leases[LastIndexOf(ids, tens[a].id)].tenants.value
  {
    assert forall i :: 0 <= i < |leases| ==> PropertyEntry(leases[i]).Some? && TenantEntry(leases[i]).Some?;
    var idOf := (t: Tenant) => t.id;
    Dedup(leases, TenantEntry, idOf);
    var ids := TenantIds(leases);
    assert KeysOf(Entries(leases, TenantEntry)) == ids;
    var tens := ValuesOf(MapFromLeases(leases, TenantEntry).value);
    assert UniqueRelations(leases).value.1 == tens;
    assert forall a :: 0 <= a < |tens| ==> idOf(tens[a]) == tens[a].id;
  }

  /** Every entry of the map of `pairs` is one of the pairs, so keys agree with any key function the pairs agree with. */
  lemma {:induction false} MapOfKeysMatchValues<V>(pairs: seq<(nat, V)>, idOf: V -> nat)
    requires forall i :: 0 <= i < |pairs| ==> pairs[i].0 == idOf(pairs[i].1)
    ensures forall a :: 0 <= a < |MapOf(pairs)| ==> MapOf(pairs)[a].0 == idOf(MapOf(pairs)[a].1)
    decreases |pairs|
  {
    if |pairs| > 0 {
      MapOfKeysMatchValues(pairs[..|pairs| - 1], idOf);
    }
  }
}
