/**
 * The parameter registry (`controlsMeta`) and the two lookups built on it:
 * `getControl`, the first registry entry with a given id, and `getValue`,
 * which resolves a sparse parameter map against the registry defaults.
 */
module Registry {
  import opened Wrappers

  /** One registry entry: the input's label (`label` in the source), its default value and its id. */
  datatype ControlMeta = ControlMeta(caption: string, initialValue: real, id: string)

  const CountId: string := "count"

  /** The thirteen parameters, in the order the inputs are rendered. */
  const ControlsMeta: seq<ControlMeta> := [
    ControlMeta("x, %", 50.0, "x"),
    ControlMeta("y, %", 50.0, "y"),
    ControlMeta("count", 2.0, CountId),
    ControlMeta("step x", 0.0, "dx"),
    ControlMeta("step y", 0.0, "dy"),
    ControlMeta("initial scale", 1.0, "sc"),
    ControlMeta("scale step", 0.0, "dSc"),
    ControlMeta("initial rotation, deg", 0.0, "rot"),
    ControlMeta("rotation step, deg", 0.0, "dRot"),
    ControlMeta("rotation origin x", 0.0, "origX"),
    ControlMeta("rotation origin y", 0.0, "origY"),
    ControlMeta("initial opacity", 1.0, "o"),
    ControlMeta("opacity step", 0.0, "dO")
  ]

  /** Some entry of `meta` carries the id. */
  predicate Registered(meta: seq<ControlMeta>, id: string) {
    |meta| > 0 && (meta[0].id == id || Registered(meta[1..], id))
  }

  /** Entry `k` is the first entry of `meta` whose id is `id`. */
  predicate FirstWithId(meta: seq<ControlMeta>, id: string, k: int) {
    0 <= k < |meta| && meta[k].id == id && forall j :: 0 <= j < k ==> meta[j].id != id
  }

  /** No two entries of `meta` share an id. */
  predicate DistinctIds(meta: seq<ControlMeta>) {
    forall j, k :: 0 <= j < k < |meta| ==> meta[j].id != meta[k].id
  }

  /** `Registered` holds exactly when some index of `meta` carries the id. */
  lemma {:induction false} RegisteredMeaning(meta: seq<ControlMeta>, id: string)
    ensures Registered(meta, id) <==> exists k :: 0 <= k < |meta| && meta[k].id == id
  {
    if |meta| > 0 {
      RegisteredMeaning(meta[1..], id);
      assert forall k :: 1 <= k < |meta| ==> meta[1..][k - 1] == meta[k];
      if meta[0].id != id && exists k :: 0 <= k < |meta| && meta[k].id == id {
        var k :| 0 <= k < |meta| && meta[k].id == id;
        assert meta[1..][k - 1].id == id;
      }
    }
  }

  /** The id of every entry is registered. */
  lemma {:induction false} RegisteredAt(meta: seq<ControlMeta>, k: int)
    requires 0 <= k < |meta|
    ensures Registered(meta, meta[k].id)
  {
    if k > 0 {
      assert meta[1..][k - 1] == meta[k];
      RegisteredAt(meta[1..], k - 1);
    }
  }

  /**
   * `getControl`: `Array.prototype.find` over the registry. `None` stands for
   * the `undefined` that `find` yields when no entry matches; otherwise the
   * entry found carries the id.
   */
  function GetControl(meta: seq<ControlMeta>, idToFind: string): (r: Option<ControlMeta>)
    ensures r.Some? <==> Registered(meta, idToFind)
    ensures r.Some? ==> r.value.id == idToFind && r.value in meta
  {
    if |meta| == 0 then None
    else if meta[0].id == idToFind then Some(meta[0])
    else GetControl(meta[1..], idToFind)
  }

  /** The entry `getControl` finds is the first one that carries the id. */
  lemma {:induction false} GetControlFindsFirst(meta: seq<ControlMeta>, idToFind: string, k: int)
    requires FirstWithId(meta, idToFind, k)
    ensures GetControl(meta, idToFind) == Some(meta[k])
  {
    if k > 0 {
      assert meta[1..][k - 1] == meta[k];
      assert FirstWithId(meta[1..], idToFind, k - 1) by {
        forall j | 0 <= j < k - 1 ensures meta[1..][j].id != idToFind {
          assert meta[1..][j] == meta[j + 1];
        }
      }
      GetControlFindsFirst(meta[1..], idToFind, k - 1);
    }
  }

  /** Every registered id has a first entry. */
  lemma {:induction false} FirstExists(meta: seq<ControlMeta>, id: string) returns (k: nat)
    requires Registered(meta, id)
    ensures FirstWithId(meta, id, k)
  {
    if meta[0].id == id {
      k := 0;
    } else {
      var k' := FirstExists(meta[1..], id);
      k := k' + 1;
      forall j | 0 < j < k ensures meta[j].id != id {
        assert meta[j] == meta[1..][j - 1];
      }
    }
  }

  /**
   * A lookup of `idToFind` in `values` cannot fail: the id is stored, or the
   * registry has an entry for it to fall back on.
   */
  predicate Resolves<V>(meta: seq<ControlMeta>, values: map<string, V>, idToFind: string) {
    idToFind in values || Registered(meta, idToFind)
  }

  /** The `initialValue` of the entry `getControl` finds for a registered id. */
  function Default(meta: seq<ControlMeta>, idToFind: string): (r: real)
    requires Registered(meta, idToFind)
  {
    GetControl(meta, idToFind).value.initialValue
  }

  /**
   * `getValue` over the numeric parameter map. The source dereferences
   * `find`'s `undefined` for an id that is neither stored nor registered, so
   * that case is excluded by the precondition.
   */
  function GetValue(meta: seq<ControlMeta>, controls: map<string, real>, idToFind: string): (r: real)
    requires Resolves(meta, controls, idToFind)
  {
    if idToFind in controls then controls[idToFind] else Default(meta, idToFind)
  }

  /**
   * What `getValue` yields: a stored value unchanged, and for an id with
   * nothing stored the default of the first registry entry that carries it.
   */
  lemma GetValueMeaning(meta: seq<ControlMeta>, controls: map<string, real>, idToFind: string, k: int)
    requires idToFind in controls || FirstWithId(meta, idToFind, k)
    ensures Resolves(meta, controls, idToFind)
    ensures idToFind in controls ==> GetValue(meta, controls, idToFind) == controls[idToFind]
    ensures idToFind !in controls ==> GetValue(meta, controls, idToFind) == meta[k].initialValue
  {
    if idToFind !in controls {
      GetControlFindsFirst(meta, idToFind, k);
    }
  }

  /** Storing a value under one id changes no other id's lookup. */
  lemma GetValueOtherKey(meta: seq<ControlMeta>, controls: map<string, real>, key: string, v: real, idToFind: string)
    requires Resolves(meta, controls, idToFind) && key != idToFind
    ensures GetValue(meta, controls[key := v], idToFind) == GetValue(meta, controls, idToFind)
  {
  }

  /** With distinct ids, the entry that carries an id is the one `getControl` finds. */
  lemma GetControlUnique(meta: seq<ControlMeta>, k: int)
    requires DistinctIds(meta) && 0 <= k < |meta|
    ensures GetControl(meta, meta[k].id) == Some(meta[k])
  {
    GetControlFindsFirst(meta, meta[k].id, k);
  }

  /** The registry's ids are pairwise distinct. */
  lemma RegistryDistinct()
    ensures DistinctIds(ControlsMeta)
  {
  }

  /** Every registered id resolves; with nothing stored, `getValue` yields that entry's default. */
  lemma RegistryDefault(controls: map<string, real>, k: int)
    requires 0 <= k < |ControlsMeta|
    ensures Registered(ControlsMeta, ControlsMeta[k].id)
    ensures GetValue(ControlsMeta, controls, ControlsMeta[k].id)
         == if ControlsMeta[k].id in controls then controls[ControlsMeta[k].id] else ControlsMeta[k].initialValue
  {
    RegisteredAt(ControlsMeta, k);
    RegistryDistinct();
    GetControlUnique(ControlsMeta, k);
  }

  /** An id that no registry entry carries is not registered: `getControl` yields `undefined`. */
  lemma UnregisteredHasNoControl(id: string)
    requires forall k :: 0 <= k < |ControlsMeta| ==> ControlsMeta[k].id != id
    ensures !Registered(ControlsMeta, id)
    ensures GetControl(ControlsMeta, id) == None
  {
    RegisteredMeaning(ControlsMeta, id);
  }

  /** The defaults the transform and the render depend on. */
  lemma DefaultValues()
    ensures Registered(ControlsMeta, "x") && Registered(ControlsMeta, "y")
      && Registered(ControlsMeta, CountId) && Registered(ControlsMeta, "dx")
      && Registered(ControlsMeta, "dy") && Registered(ControlsMeta, "sc")
      && Registered(ControlsMeta, "dSc") && Registered(ControlsMeta, "rot")
      && Registered(ControlsMeta, "dRot") && Registered(ControlsMeta, "o")
      && Registered(ControlsMeta, "dO")
    ensures GetValue(ControlsMeta, map[], "x") == 50.0
    ensures GetValue(ControlsMeta, map[], "y") == 50.0
    ensures GetValue(ControlsMeta, map[], CountId) == 2.0
    ensures GetValue(ControlsMeta, map[], "dx") == 0.0
    ensures GetValue(ControlsMeta, map[], "dy") == 0.0
    ensures GetValue(ControlsMeta, map[], "sc") == 1.0
    ensures GetValue(ControlsMeta, map[], "dSc") == 0.0
    ensures GetValue(ControlsMeta, map[], "rot") == 0.0
    ensures GetValue(ControlsMeta, map[], "dRot") == 0.0
    ensures GetValue(ControlsMeta, map[], "o") == 1.0
    ensures GetValue(ControlsMeta, map[], "dO") == 0.0
  {
    RegistryDefault(map[], 0);
    RegistryDefault(map[], 1);
    RegistryDefault(map[], 2);
    RegistryDefault(map[], 3);
    RegistryDefault(map[], 4);
    RegistryDefault(map[], 5);
    RegistryDefault(map[], 6);
    RegistryDefault(map[], 7);
    RegistryDefault(map[], 8);
    RegistryDefault(map[], 11);
    RegistryDefault(map[], 12);
  }
}
