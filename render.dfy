/**
 * The instance-count rule of the render: with a file loaded the component
 * emits `count` images keyed `0 .. count-1`, each styled by
 * `getStylesFromControls`; `Array(count)` throws a RangeError unless `count`
 * is a valid array length. Without a file, nothing is emitted and
 * `Array(count)` is never evaluated.
 */
module Rendering {
  import opened Wrappers
  import opened Registry
  import opened Styles
  import opened Controls

  /** One rendered `<img>`: its React key, its `src` and its style. */
  datatype Instance = Instance(key: nat, src: string, style: Style)

  /** The RangeError `Array(count)` throws for a count that is not an array length. */
  datatype RenderError = InvalidArrayLength(count: real)

  /** The largest length `Array(n)` accepts: 2^32 - 1. */
  const MaxArrayLength: int := 0xFFFF_FFFF

  /** `Array(n)` accepts `n` exactly when it is an integer in `0 .. 2^32 - 1`. */
  predicate IsArrayLength(n: real) {
    n == n.Floor as real && 0 <= n.Floor <= MaxArrayLength
  }

  /** `getValue(controlsMeta, controls, countId)`: the number of instances asked for. */
  function Count(controls: map<string, real>): (r: real) {
    RegistryDefault(controls, 2);
    GetValue(ControlsMeta, controls, CountId)
  }

  /** `getStylesFromControls(controlsMeta, controls, index)` with the registry of the component. */
  function InstanceStyle(controls: map<string, real>, index: int): (r: Style) {
    RegistryResolvesStyleInputs(controls);
    StylesFromControls(ControlsMeta, controls, index)
  }

  /**
   * `file && [...Array(count)].map(...)`. `file` is the object URL of the
   * loaded image, `None` before one is chosen. `Some(u)` stands for a truthy
   * `file`: the only value ever stored is a `URL.createObjectURL` result,
   * which is never the empty string, so `Some("")` does not arise.
   */
  function Render(controls: map<string, real>, file: Option<string>): (r: Result<seq<Instance>, RenderError>)
    ensures file.None? ==> r == Ok([])
    ensures file.Some? ==> (r.Err? <==> !IsArrayLength(Count(controls)))
    ensures r.Err? ==> r.error == InvalidArrayLength(Count(controls))
    ensures file.Some? && r.Ok? ==>
      && |r.value| as real == Count(controls)
      && forall k :: 0 <= k < |r.value| ==> r.value[k] == Instance(k, file.value, InstanceStyle(controls, k))
  {
    var count := Count(controls);
    if file.None? then Ok([])
    else if !IsArrayLength(count) then Err(InvalidArrayLength(count))
    else Ok(seq(count.Floor, k requires 0 <= k < count.Floor => Instance(k, file.value, InstanceStyle(controls, k))))
  }

  /** With nothing typed yet, two instances are asked for. */
  lemma DefaultCount()
    ensures Count(map[]) == 2.0
  {
    RegistryDefault(map[], 2);
  }

  /** With nothing typed yet, every instance has the default style. */
  lemma DefaultInstanceStyle(k: int)
    ensures InstanceStyle(map[], k) == DefaultStyle
  {
    EmptyControlsStyle(k);
  }

  /**
   * With nothing typed yet and a file loaded, two images are rendered; image
   * `k` is keyed `k` and centred, unscaled, unrotated and opaque.
   */
  lemma DefaultRender(file: string, k: int)
    requires 0 <= k < 2
    ensures Render(map[], Some(file)).Ok? && |Render(map[], Some(file)).value| == 2
    ensures Render(map[], Some(file)).value[k] == Instance(k, file, DefaultStyle)
  {
    DefaultCount();
    DefaultInstanceStyle(k);
  }

  /**
   * Typing a text into the count input whose reading is a valid array length
   * `n` makes the next render emit exactly `n` instances; an unparseable text
   * leaves the rendered count as it was.
   */
  lemma EditedCountRenders(f: Fields, value: string, numberify: Numberify, file: string)
    ensures var g := Changed(f, CountId, value, numberify);
      && (numberify(value).Some? ==> Count(g.controls) == numberify(value).value)
      && (numberify(value).Some? && IsArrayLength(numberify(value).value) ==>
            Render(g.controls, Some(file)).Ok?
            && |Render(g.controls, Some(file)).value| == numberify(value).value.Floor)
      && (numberify(value).None? ==> Render(g.controls, Some(file)) == Render(f.controls, Some(file)))
  {
  }
}
