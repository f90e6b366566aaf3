/**
 * `getStylesFromControls`: the transform of instance `i`, derived from the
 * parameter map. The source first looks up ten parameters and then builds the
 * style object from them; the model keeps those two steps apart (`Read`, then
 * `StyleAt`). Only the numeric content of the style object is modelled; the
 * CSS text around it (units, `translate(-50%, -50%)`, `position`,
 * `pointerEvents`) is presentation.
 */
module Styles {
  import opened Registry

  /** The ten parameters the transform reads. */
  datatype Params = Params(
    x: real, dx: real, y: real, dy: real, sc: real, dSc: real,
    rot: real, dRot: real, o: real, dO: real)

  /** The numeric part of one instance's inline style. */
  datatype Style = Style(
    top: real,          // percent
    left: real,         // percent
    transitionMs: nat,  // `all 200ms`
    scale: real,
    rotation: real,     // degrees
    opacity: real)

  const TransitionMs: nat := 200

  /** Every parameter the transform reads can be looked up. */
  predicate StyleInputsResolve(meta: seq<ControlMeta>, controls: map<string, real>) {
    && Resolves(meta, controls, "x") && Resolves(meta, controls, "dx")
    && Resolves(meta, controls, "y") && Resolves(meta, controls, "dy")
    && Resolves(meta, controls, "sc") && Resolves(meta, controls, "dSc")
    && Resolves(meta, controls, "rot") && Resolves(meta, controls, "dRot")
    && Resolves(meta, controls, "o") && Resolves(meta, controls, "dO")
  }

  /** The ten lookups at the top of `getStylesFromControls`. */
  function Read(meta: seq<ControlMeta>, controls: map<string, real>): (p: Params)
    requires StyleInputsResolve(meta, controls)
  {
    Params(
      GetValue(meta, controls, "x"), GetValue(meta, controls, "dx"),
      GetValue(meta, controls, "y"), GetValue(meta, controls, "dy"),
      GetValue(meta, controls, "sc"), GetValue(meta, controls, "dSc"),
      GetValue(meta, controls, "rot"), GetValue(meta, controls, "dRot"),
      GetValue(meta, controls, "o"), GetValue(meta, controls, "dO"))
  }

  /** The style object of instance `i`: each field is its base plus `i` steps (opacity steps down). */
  function StyleAt(p: Params, i: int): (r: Style) {
    Style(
      p.y + i as real * p.dy,
      p.x + i as real * p.dx,
      TransitionMs,
      p.sc + i as real * p.dSc,
      p.rot + i as real * p.dRot,
      p.o - i as real * p.dO)
  }

  /** `getStylesFromControls(controlsMeta, controls, i)`. */
  function StylesFromControls(meta: seq<ControlMeta>, controls: map<string, real>, i: int): (r: Style)
    requires StyleInputsResolve(meta, controls)
  {
    StyleAt(Read(meta, controls), i)
  }

  /** The registry resolves every parameter the transform reads, whatever is stored. */
  lemma RegistryResolvesStyleInputs(controls: map<string, real>)
    ensures StyleInputsResolve(ControlsMeta, controls)
  {
    RegisteredAt(ControlsMeta, 0);
    RegisteredAt(ControlsMeta, 1);
    RegisteredAt(ControlsMeta, 3);
    RegisteredAt(ControlsMeta, 4);
    RegisteredAt(ControlsMeta, 5);
    RegisteredAt(ControlsMeta, 6);
    RegisteredAt(ControlsMeta, 7);
    RegisteredAt(ControlsMeta, 8);
    RegisteredAt(ControlsMeta, 11);
    RegisteredAt(ControlsMeta, 12);
  }

  /** Instance 0 sits exactly at the base parameters. */
  lemma FirstInstanceAtBase(p: Params)
    ensures StyleAt(p, 0) == Style(p.y, p.x, TransitionMs, p.sc, p.rot, p.o)
  {
  }

  /**
   * Every field is a linear function of the index: any two instances differ by
   * their index difference times the step (`dO` is subtracted, the others added).
   */
  lemma InstancesLinear(p: Params, i: int, j: int)
    ensures var s, t := StyleAt(p, i), StyleAt(p, j);
      && t.top - s.top == (j - i) as real * p.dy
      && t.left - s.left == (j - i) as real * p.dx
      && t.scale - s.scale == (j - i) as real * p.dSc
      && t.rotation - s.rotation == (j - i) as real * p.dRot
      && s.opacity - t.opacity == (j - i) as real * p.dO
      && s.transitionMs == t.transitionMs
  {
  }

  /** Consecutive instances differ by exactly the step parameters. */
  lemma ConsecutiveInstancesStep(p: Params, i: int)
    ensures var s, t := StyleAt(p, i), StyleAt(p, i + 1);
      && t.top - s.top == p.dy
      && t.left - s.left == p.dx
      && t.scale - s.scale == p.dSc
      && t.rotation - s.rotation == p.dRot
      && s.opacity - t.opacity == p.dO
  {
    InstancesLinear(p, i, i + 1);
  }

  /** The ids `getStylesFromControls` looks up. */
  const ReadIds: set<string> := {"x", "dx", "y", "dy", "sc", "dSc", "rot", "dRot", "o", "dO"}

  /** Storing a value under an id outside `ReadIds` leaves the parameters read unchanged. */
  lemma UnreadKeyIgnored(meta: seq<ControlMeta>, controls: map<string, real>, key: string, v: real)
    requires StyleInputsResolve(meta, controls) && key !in ReadIds
    ensures StyleInputsResolve(meta, controls[key := v])
    ensures Read(meta, controls[key := v]) == Read(meta, controls)
  {
  }

  /**
   * The rotation origin is registered but never read: storing any value for
   * `origX` or `origY` leaves every instance's style as it was.
   */
  lemma OriginIgnored(controls: map<string, real>, key: string, v: real, i: int)
    requires key == "origX" || key == "origY"
    ensures StyleInputsResolve(ControlsMeta, controls)
    ensures StyleInputsResolve(ControlsMeta, controls[key := v])
    ensures StylesFromControls(ControlsMeta, controls[key := v], i) == StylesFromControls(ControlsMeta, controls, i)
  {
    RegistryResolvesStyleInputs(controls);
    UnreadKeyIgnored(ControlsMeta, controls, key, v);
  }

  /** The style with nothing stored: centred, unscaled, unrotated, opaque. */
  const DefaultStyle: Style := Style(50.0, 50.0, TransitionMs, 1.0, 0.0, 1.0)

  /** With an empty parameter map every instance gets the same default style, since all steps default to 0. */
  lemma EmptyControlsStyle(i: int)
    ensures StyleInputsResolve(ControlsMeta, map[])
    ensures StylesFromControls(ControlsMeta, map[], i) == DefaultStyle
  {
    RegistryResolvesStyleInputs(map[]);
    DefaultValues();
  }
}
