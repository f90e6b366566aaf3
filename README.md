# Parameter engine of generative-svg, modelled in Dafny

generative-svg renders one loaded image as several repeated instances. Each
instance is shifted, scaled, rotated and faded by its index. Thirteen numeric
parameters are registered and typed into text inputs; eleven of them drive
the rendering: `count` sets how many instances there are, and ten set their
transform (`origX`/`origY` are never read). This
project models the parameter engine of `src/App.js`:

- the registry `controlsMeta`, with its labels, defaults and ids (`registry.dfy`);
- `getControl`, which finds the first registry entry with an id (`registry.dfy`);
- `getValue`, which resolves a sparse parameter map against the registry
  defaults (`registry.dfy`);
- `getStylesFromControls`, the numeric transform of instance `i` (`styles.dfy`);
- the two state maps `controls` and `controlsTexts`, and the `onChange` rule
  that updates them (`controls.dfy`);
- the value each input shows, which is `getValue` over the text map (`controls.dfy`);
- the render rule: with a file loaded, exactly `count` images keyed
  `0 .. count-1`, and, when `count` is not an integer in `0 .. 2^32 - 1`,
  `Array(count)` throws a RangeError (`render.dfy`).

Modules: `Wrappers` (Option, Result), `Registry`, `Styles`, `Controls`, and
`Rendering`.

Modelling choices:

- Parameters are `real`. The source's numbers are IEEE doubles.
- JavaScript's `Number(value)` is a parameter `numberify: string -> Option<real>`.
  `None` means NaN and `Some(n)` means any other result.
- The React hook state is the class `Controls.ControlsState`. It holds the two
  maps as fields. `OnChange` replaces them the way the two functional updaters
  `old => ({ ...old, [id]: ... })` do.
- `Controls.Changed` is the pure transition that `OnChange` is proved against.
  A run of edits is `Controls.ChangedAll`.
- A `getValue` for an id that is neither stored nor registered dereferences
  `undefined` in the source. Here that lookup is excluded by the precondition
  `Resolves`.
- `Array(count)` throws unless `count` is an integer in `0 .. 2^32 - 1`.
  That throw is modelled as `Err(InvalidArrayLength(count))`. It can only
  happen when a file is loaded, because `file && ...` short-circuits first.
  A negative or fractional count typed into the count input commits (it is
  not NaN) and then makes the render throw.

Notes on `src/App.js`:

- The registry has 13 entries, the opacity step `dO` among them. There is no
  ending opacity `oe` and no transition time `tt`.
- Opacity is `o - i*dO`. Nothing divides by `count`.
- The transition is the constant `all 200ms`. It is not a parameter.
- Every reading that is not NaN is committed, ±Infinity included.
  `Number("")` is 0, so an emptied input commits 0.
- `getValue` of an id that is neither stored nor registered dereferences
  `undefined` (see above).

## Model

| member | source | states |
|---|---|---|
| `Registry.ControlsMeta` | src/App.js:4-19 | the 13 entries (label, default, id) in source order; a constant, whose facts are stated by `RegistryDistinct`, `RegistryDefault` and `DefaultValues` |
| `Registry.GetControl` | src/App.js:44-45 | finds an entry exactly when some entry carries the id, and the entry found carries that id and belongs to the registry |
| `Registry.GetControlFindsFirst` | src/App.js:44-45 | the entry found is the first one with that id, as `Array.prototype.find` returns it |
| `Registry.RegisteredMeaning` | src/App.js:44-45 | an id is registered exactly when some index of the registry carries it |
| `Registry.RegisteredAt` | src/App.js:44-45 | the id of every entry is registered, so the lookup of any entry's id cannot fail |
| `Registry.FirstExists` | src/App.js:44-45 | every registered id has a first entry carrying it |
| `Registry.GetControlUnique` | src/App.js:44-45 | when ids are distinct, looking up an entry's id returns that very entry |
| `Registry.GetValue` | src/App.js:47-51 | requires `Resolves` (stored or registered) and has no `ensures`; what it returns is stated by `GetValueMeaning`, `GetValueOtherKey` and `RegistryDefault` |
| `Registry.GetValueMeaning` | src/App.js:47-51 | a stored value is returned unchanged; with nothing stored, the default of the first entry with that id is returned |
| `Registry.GetValueOtherKey` | src/App.js:47-51 | storing a value under one id changes no other id's resolved value |
| `Registry.RegistryDistinct` | src/App.js:5-19 | the 13 registry ids are pairwise distinct |
| `Registry.RegistryDefault` | src/App.js:47-50 | every registry id resolves: to its stored value, else to that entry's `initialValue` |
| `Registry.UnregisteredHasNoControl` | src/App.js:44-50 | an id that no entry carries is not registered and `getControl` yields `undefined` (`None`), so `getValue` needs it stored |
| `Registry.DefaultValues` | src/App.js:5-19 | with nothing stored: x, y = 50; count = 2; sc, o = 1; dx, dy, dSc, rot, dRot, dO = 0 |
| `Styles.Read` | src/App.js:22-31 | the ten `getValue` lookups of the transform; no `ensures`, its independence from unread ids is stated by `UnreadKeyIgnored` |
| `Styles.StyleAt` | src/App.js:32-39 | the numeric fields of the style of index `i`; no `ensures`, its shape is stated by `FirstInstanceAtBase`, `InstancesLinear` and `ConsecutiveInstancesStep` |
| `Styles.StylesFromControls` | src/App.js:21-42 | requires the ten lookups to resolve and has no `ensures`; `OriginIgnored` and `EmptyControlsStyle` state its meaning over the registry |
| `Styles.RegistryResolvesStyleInputs` | src/App.js:21-31 | the ten lookups of `getStylesFromControls` succeed whatever is stored |
| `Styles.FirstInstanceAtBase` | src/App.js:32-39 | instance 0 has top y, left x, scale sc, rotation rot, opacity o and the 200ms transition |
| `Styles.InstancesLinear` | src/App.js:32-39 | any two instances differ by their index difference times dy, dx, dSc and dRot, and opacity falls by that difference times dO; the transition is the same for both |
| `Styles.ConsecutiveInstancesStep` | src/App.js:32-39 | instance i+1 differs from instance i by exactly the step values |
| `Styles.UnreadKeyIgnored` | src/App.js:21-31 | storing a value under an id the transform does not read leaves the parameters it reads unchanged |
| `Styles.OriginIgnored` | src/App.js:21-42 | `origX` and `origY` are registered but storing any value for either changes no instance's style |
| `Styles.EmptyControlsStyle` | src/App.js:21-39 | with nothing stored, every instance is at (50, 50) with scale 1, rotation 0, opacity 1 and the 200ms transition |
| `Controls.WithEntry` | src/App.js:86-89 | the spread copy has the old keys plus `id`, maps `id` to the new value and keeps every other key's value |
| `Controls.ShownValue` | src/App.js:81 | requires `Resolves` over the text map and has no `ensures`; `ShownBeforeTyping` and `ChangeRecordsText` state what an input shows |
| `Controls.ShownBeforeTyping` | src/App.js:81 | an input nothing was typed into shows its registry default |
| `Controls.ControlsState.constructor` | src/App.js:56-57 | both maps start empty |
| `Controls.ControlsState.OnChange` | src/App.js:84-94 | the new pair of maps is `Changed` of the old pair: text always recorded, number committed only when not NaN |
| `Controls.Changed` | src/App.js:84-94 | the pure transition of one `onChange`; no `ensures`, its meaning is stated by `ChangeRecordsText`, `ChangeCommitsNumber`, `ChangeResolves` and `ChangedAllKeepsLast` |
| `Controls.ChangeRecordsText` | src/App.js:86-89 | an edit stores the typed text under `id`, so the input shows exactly what was typed, parseable or not; no other text key changes |
| `Controls.ChangeCommitsNumber` | src/App.js:91-94 | an edit that is not NaN stores that number under `id`, so `getValue` of `id` returns it; a NaN edit leaves the numeric map exactly as it was; no other numeric key changes |
| `Controls.ChangeResolves` | src/App.js:84-94 | an id that resolved before an edit still resolves after it, with the same value unless it is the edited id |
| `Controls.ChangedAllSnoc` | src/App.js:84-94 | handling `edits + [e]` is handling `edits`, then one more `onChange` |
| `Controls.ChangedAllKeepsLast` | src/App.js:84-94 | after any run of edits, each input holds its last typed text and each parameter its last non-NaN reading; one with no such reading keeps its earlier value or stays absent |
| `Rendering.Render` | src/App.js:101-110 | no file: nothing rendered; with a file: an error exactly when `count` is not an array length, else exactly `count` images, image k keyed k with the file as `src` and the style of index k |
| `Rendering.Count` | src/App.js:58 | `getValue` of `count` over the registry, with no precondition; `DefaultCount` and `EditedCountRenders` state its value |
| `Rendering.InstanceStyle` | src/App.js:108 | the style of index `index` over the registry, with no precondition; `DefaultInstanceStyle` states its default |
| `Rendering.DefaultCount` | src/App.js:58 | with nothing stored, `count` is 2 |
| `Rendering.DefaultInstanceStyle` | src/App.js:108 | with nothing stored, the style of every index is the default style |
| `Rendering.DefaultRender` | src/App.js:101-110 | with nothing typed and a file loaded, two images are rendered, keyed 0 and 1, both in the default style |
| `Rendering.EditedCountRenders` | src/App.js:91-102 | typing a count that is not NaN sets `count` to it, and a valid array length n then renders exactly n images; a NaN count leaves the render as it was |

## Left out

- JSX markup, the `<label>` elements and `placeholder` attributes, class names, `useRef`, and the `useState` plumbing.
  The hook state is the `ControlsState` class instead.
- The file input (src/App.js:63-74) and `URL.createObjectURL`. These are
  browser I/O. The loaded file is the `Option<string>` argument of `Render`.
- The CSS text of the style object: `%` and `deg` units,
  `translate(-50%, -50%)`, `position`, and `pointerEvents`. Only the numeric
  fields and the 200ms transition are modelled.
- JavaScript's `Number()` string parsing. It is the `numberify` parameter.
  The values ±Infinity, which `Number` can return and the source commits,
  are not representable in `real`.
- IEEE-754 rounding in products such as `i * dx`. Parameters are exact reals.
- React's batching of the two state updates. The model applies them in
  order; for these two independent maps the outcome is the same.
- `src/svgStub.js`: a template string with no logic, not called by the core.
- Slide sequences, slide duplication, ending opacity, transition time, and
  the path-morph animation. None of them is in this version of `src/App.js`.
