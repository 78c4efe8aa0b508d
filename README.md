# Time-direction inversion for Grafana data frames

A Dafny model of the frame utilities of a time-series panel plugin
(`utils-vertical.ts`). A Grafana `DataFrame` is a table: an optional name, opaque
metadata, a declared row count `length` and an ordered list of `Field`s
(columns). Each column has a name, a type tag, an opaque config, optional labels
and a sequence of values.

- `invertTimeDirection` reverses every column's values in lock-step, so the
  first row becomes the last. Everything else about the frame and its columns
  is kept. Each column's values are copied (`[...field.values]`) and only the
  copy is reversed, so the input is never mutated.
- `invertTimeDirectionInFrames` applies that transform to each frame of a list
  and keeps the list's order.
- `hasTimeField` is true exactly when some column carries the `time` tag.

Files and modules:

- `js_array.dfy`, module `JsArray`: the JavaScript array built-ins the code is
  written with. It has `Reversed`, the reference definition of a reversal, and
  `ReverseInPlace`, the in-place swap loop of `Array.prototype.reverse`, proved
  against `Reversed`. It also has the spread copy, `map` and `some`.
- `grafana_data.dfy`, module `GrafanaData`: the record shape of `DataFrame`
  and `Field`. The type tags are `Time | Number | String | Other`, where
  `Other` stands for every other tag. Config, meta and any extra duck-typed
  properties are an opaque JSON-like `JsonValue`. Labels are an optional
  string map. The module also defines `WellFormed` (every column holds
  `length` values) and `Row`.
- `utils_vertical.dfy`, module `UtilsVertical`: the three operations, the
  copy-then-reverse step as a method on arrays, and the lemmas.
- `utils_vertical_examples.dfy`, module `UtilsVerticalExamples`: the concrete
  scenarios from `utils-vertical.test.ts` as lemmas.

Column values have a generic element type `T`, shared by all columns of a
frame. The code never looks at the values. A frame whose columns hold
different kinds of values is modelled with `T = JsonValue`.

## Model

| member | source | states |
|---|---|---|
| JsArray.Reversed | utils-vertical.ts:16 | the reversal keeps the length, and element `k` of the result is element `n-1-k` of the input |
| JsArray.ReversedInvolution | utils-vertical.ts:16 | reversing twice gives back the original sequence |
| JsArray.ReversedPermutation | utils-vertical.ts:16 | a reversal keeps the multiset of values: no value is lost or duplicated |
| JsArray.ReversedUnique | utils-vertical.ts:16 | any sequence that equals the input reversed at every index equals `Reversed` of the input |
| JsArray.Copy | utils-vertical.ts:16 | the spread `[...values]` returns a fresh array with the same contents |
| JsArray.ReverseInPlace | utils-vertical.ts:16 | `.reverse()` leaves the array holding `Reversed` of its old contents |
| JsArray.Map | utils-vertical.ts:14 | `map` keeps the length, and element `i` of the result is the callback applied to input element `i` |
| JsArray.Some | utils-vertical.ts:46 | `some` is true iff some element satisfies the predicate, and false on an empty list |
| UtilsVertical.ReversedCopy | utils-vertical.ts:16 | returns a fresh array holding the values reversed, and leaves the caller's array unchanged |
| UtilsVertical.InvertField | utils-vertical.ts:18-21 | name, type, config, labels and extra properties are kept; the values keep their length and value `k` is the old value `n-1-k` |
| UtilsVertical.InvertTimeDirection | utils-vertical.ts:13-29 | name, meta, length and extra properties are kept; the column count is kept and there are no columns if the input had none; each column keeps its attributes and has its values reversed |
| UtilsVertical.InvertTimeDirectionInFrames | utils-vertical.ts:36-38 | the list keeps its length and is empty for an empty input; frame `i` of the result is frame `i` inverted, with the same name |
| UtilsVertical.HasTimeField | utils-vertical.ts:45-47 | true iff some column has the `time` tag; false for a frame without columns |
| UtilsVertical.InvertTimeDirectionInvolution | utils-vertical.ts:13-29 | inverting a frame twice gives back the original frame |
| UtilsVertical.InvertTimeDirectionInFramesInvolution | utils-vertical.ts:36-38 | inverting a list of frames twice gives back the original list |
| UtilsVertical.InvertTimeDirectionRows | utils-vertical.ts:14-22 | on a well-formed frame of `n` rows, the result is well formed and its row `k` is input row `n-1-k` in every column at once |
| UtilsVertical.InvertTimeDirectionKeepsTimeField | utils-vertical.ts:18-21 | inversion keeps the type tags, so `hasTimeField` gives the same answer before and after |
| UtilsVerticalExamples.TwoColumnsReversed | utils-vertical.test.ts:11-35 | time `[1000,2000,3000]` and value `[10,20,30]` become `[3000,2000,1000]` and `[30,20,10]`, with name and length kept |
| UtilsVerticalExamples.EmptyFrameStaysEmpty | utils-vertical.test.ts:79-90 | a frame with no columns and length 0 comes back with no columns and length 0 |
| UtilsVerticalExamples.MetadataAndFieldPropertiesKept | utils-vertical.test.ts:56-113 | frame name and nested meta are kept, as are a column's name, type, unit config and labels |
| UtilsVerticalExamples.BatchKeepsOrder | utils-vertical.test.ts:117-150 | two frames are each reversed and keep their positions and names |
| UtilsVerticalExamples.EmptyBatch | utils-vertical.test.ts:152-158 | an empty list of frames gives an empty list |
| UtilsVerticalExamples.TimeFieldDetection | utils-vertical.test.ts:188-242 | true for a time and number frame; false for a number and string frame and for an empty frame |

## Left out

- Aliasing of value arrays: in the record model a column's values are an immutable sequence. The copy-then-reverse step is modelled separately on arrays by `ReversedCopy`, which is proved to return a fresh array and to leave its input alone. The model therefore does not track two columns or frames sharing one array.
- Object identity: frames and columns are values, so the model does not say that the result is a new object rather than the input.
- JavaScript spread details: the spread copies only own enumerable properties, and spreading a sparse array turns its holes into `undefined`. Neither is modelled. Extra properties are one opaque pass-through map.
- Values are opaque, so timestamps and floating-point samples are never compared or computed with. Numbers inside the opaque JSON slots are kept as their literal text.
- Malformed frames: the code does not validate column lengths against `length`, and neither does the model. `WellFormed` is only a precondition of the row lemma `InvertTimeDirectionRows`.
- `module.tsx` (plugin registration, the options schema, translations, suggestions and migration hooks) and the panel component are host wiring and are not part of this model. The same goes for the host's choice to invert only when the vertical-axis option is on.
- The `FieldType` enumeration of the host library is not shown. The model keeps `time`, `number` and `string` and folds every other tag into `Other`.
