/**
 * The component state behind the inputs: `controlsTexts`, the raw string last
 * typed into each input, and `controls`, the numbers the transform reads. An
 * edit always records the raw string and commits its numeric reading only
 * when `Number(value)` is not NaN.
 */
module Controls {
  import opened Wrappers
  import opened Registry

  /**
   * JavaScript's `Number(value)`, taken as given: `None` stands for NaN and
   * `Some(n)` for any other result.
   */
  type Numberify = string -> Option<real>

  /** `{ ...prev, [id]: value }`: a copy of `prev` with one key replaced. */
  function WithEntry<V>(prev: map<string, V>, id: string, value: V): (m: map<string, V>)
    ensures m.Keys == prev.Keys + {id}
    ensures id in m && m[id] == value
    ensures forall k :: k in prev && k != id ==> m[k] == prev[k]
  {
    prev[id := value]
  }

  /** The two state maps of the component. */
  datatype Fields = Fields(controls: map<string, real>, controlsTexts: map<string, string>)

  /** What one `onChange` of input `id` with text `value` does to the two maps. */
  function Changed(f: Fields, id: string, value: string, numberify: Numberify): (r: Fields) {
    var numberified := numberify(value);
    Fields(
      if numberified.Some? then WithEntry(f.controls, id, numberified.value) else f.controls,
      WithEntry(f.controlsTexts, id, value))
  }

  /** An input's displayed value: the text typed into it, else the registry default (a number). */
  datatype Shown = Typed(text: string) | Initial(value: real)

  /** `getValue(controlsMeta, controlsTexts, id)`, the `value` of input `id`. */
  function ShownValue(meta: seq<ControlMeta>, texts: map<string, string>, id: string): (r: Shown)
    requires Resolves(meta, texts, id)
  {
    if id in texts then Typed(texts[id]) else Initial(Default(meta, id))
  }

  /** Before anything is typed into input `k`, it shows the entry's default. */
  lemma ShownBeforeTyping(texts: map<string, string>, k: int)
    requires 0 <= k < |ControlsMeta| && ControlsMeta[k].id !in texts
    ensures Resolves(ControlsMeta, texts, ControlsMeta[k].id)
    ensures ShownValue(ControlsMeta, texts, ControlsMeta[k].id) == Initial(ControlsMeta[k].initialValue)
  {
    RegisteredAt(ControlsMeta, k);
    RegistryDistinct();
    GetControlUnique(ControlsMeta, k);
  }

  /**
   * The hook state of the component and its `onChange` handler. Both maps
   * start empty (`useState({})`).
   */
  class ControlsState {
    var controls: map<string, real>
    var controlsTexts: map<string, string>

    constructor ()
      ensures controls == map[] && controlsTexts == map[]
    {
      controls := map[];
      controlsTexts := map[];
    }

    /**
     * The `onChange` of input `id`: record the typed text, then commit its
     * numeric reading unless it is NaN.
     */
    method OnChange(id: string, value: string, numberify: Numberify)
      modifies this
      ensures Fields(controls, controlsTexts) == Changed(old(Fields(controls, controlsTexts)), id, value, numberify)
    {
      controlsTexts := WithEntry(controlsTexts, id, value);
      var numberified := numberify(value);
      if numberified.Some? {
        controls := WithEntry(controls, id, numberified.value);
      }
    }
  }

  /**
   * An edit always records the typed text, so the input shows exactly what
   * was typed, parseable or not; and it touches no other key of either map.
   */
  lemma ChangeRecordsText(meta: seq<ControlMeta>, f: Fields, id: string, value: string, numberify: Numberify)
    ensures var g := Changed(f, id, value, numberify);
      && g.controlsTexts.Keys == f.controlsTexts.Keys + {id}
      && Resolves(meta, g.controlsTexts, id)
      && ShownValue(meta, g.controlsTexts, id) == Typed(value)
      && (forall k :: k != id ==> (k in g.controlsTexts <==> k in f.controlsTexts))
      && (forall k :: k != id && k in f.controlsTexts ==> g.controlsTexts[k] == f.controlsTexts[k])
  {
  }

  /**
   * An edit commits `Number(value)` under `id` when it is not NaN, and leaves
   * the numeric map exactly as it was when it is NaN; no other key changes.
   */
  lemma ChangeCommitsNumber(meta: seq<ControlMeta>, f: Fields, id: string, value: string, numberify: Numberify)
    ensures var g := Changed(f, id, value, numberify);
      && (numberify(value).Some? ==>
            && id in g.controls && g.controls[id] == numberify(value).value
            && Resolves(meta, g.controls, id) && GetValue(meta, g.controls, id) == numberify(value).value)
      && (numberify(value).None? ==> g.controls == f.controls)
      && (g.controls != f.controls ==> numberify(value).Some?)
      && (forall k :: k != id ==> (k in g.controls <==> k in f.controls))
      && (forall k :: k != id && k in f.controls ==> g.controls[k] == f.controls[k])
  {
  }

  /** An id that resolved before an edit still resolves after it, with the same value unless it is the edited id. */
  lemma ChangeResolves(meta: seq<ControlMeta>, f: Fields, id: string, value: string, numberify: Numberify, k: string)
    requires Resolves(meta, f.controls, k)
    ensures Resolves(meta, Changed(f, id, value, numberify).controls, k)
    ensures k != id ==>
      GetValue(meta, Changed(f, id, value, numberify).controls, k) == GetValue(meta, f.controls, k)
  {
  }

  /** One typed edit: the input's id and the text now in it. */
  datatype Edit = Edit(id: string, value: string)

  /** The state after a run of edits, first to last. */
  function ChangedAll(f: Fields, edits: seq<Edit>, numberify: Numberify): (r: Fields)
    decreases |edits|
  {
    if edits == [] then f
    else ChangedAll(Changed(f, edits[0].id, edits[0].value, numberify), edits[1..], numberify)
  }

  /** The text of the last edit of `id`, if any. */
  function LastText(edits: seq<Edit>, id: string): (r: Option<string>)
    decreases |edits|
  {
    if edits == [] then None
    else if edits[|edits| - 1].id == id then Some(edits[|edits| - 1].value)
    else LastText(edits[..|edits| - 1], id)
  }

  /** The reading of the last edit of `id` that was not NaN, if any. */
  function LastNumber(edits: seq<Edit>, id: string, numberify: Numberify): (r: Option<real>)
    decreases |edits|
  {
    if edits == [] then None
    else if edits[|edits| - 1].id == id && numberify(edits[|edits| - 1].value).Some? then
      numberify(edits[|edits| - 1].value)
    else LastNumber(edits[..|edits| - 1], id, numberify)
  }

  /** Running edits one after another: the state after `edits + [e]` is one more change. */
  lemma {:induction false} ChangedAllSnoc(f: Fields, edits: seq<Edit>, e: Edit, numberify: Numberify)
    ensures ChangedAll(f, edits + [e], numberify) == Changed(ChangedAll(f, edits, numberify), e.id, e.value, numberify)
    decreases |edits|
  {
    if edits != [] {
      assert (edits + [e])[1..] == edits[1..] + [e];
      ChangedAllSnoc(Changed(f, edits[0].id, edits[0].value, numberify), edits[1..], e, numberify);
    }
  }

  /**
   * After any run of edits, each input holds the text of its last edit, and
   * each numeric parameter holds the reading of its last edit that was not
   * NaN; a parameter that never got one keeps what it had before the run.
   */
  lemma {:induction false} ChangedAllKeepsLast(f: Fields, edits: seq<Edit>, numberify: Numberify, id: string)
    ensures var g := ChangedAll(f, edits, numberify);
      && (LastText(edits, id).Some? ==> id in g.controlsTexts && g.controlsTexts[id] == LastText(edits, id).value)
      && (LastText(edits, id).None? ==>
            (id in g.controlsTexts <==> id in f.controlsTexts)
            && (id in f.controlsTexts ==> g.controlsTexts[id] == f.controlsTexts[id]))
      && (LastNumber(edits, id, numberify).Some? ==>
            id in g.controls && g.controls[id] == LastNumber(edits, id, numberify).value)
      && (LastNumber(edits, id, numberify).None? ==>
            (id in g.controls <==> id in f.controls)
            && (id in f.controls ==> g.controls[id] == f.controls[id]))
    decreases |edits|
  {
    if edits != [] {
      var init, e := edits[..|edits| - 1], edits[|edits| - 1];
      assert edits == init + [e];
      ChangedAllSnoc(f, init, e, numberify);
      ChangedAllKeepsLast(f, init, numberify, id);
    }
  }
}
