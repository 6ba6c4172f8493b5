# Zoomable treemap: visibility, zoom and animation engine

A Dafny model of the logic behind a React/d3 zoomable treemap of population
data. The tree reaching this model has already been laid out by d3. Every node
carries its depth, height, aggregate value and rectangle `x0/x1/y0/y1`. The
model covers what the treemap components do with that tree:

- which cells are drawn: the depth frontier under the isolated root, stacked so
  that selected and focused cells are drawn last;
- the accessors handed to d3's `sum` and `sort`;
- how the x/y scales are re-pointed at the isolated root;
- how a derived state is recomputed only when a data prop changes;
- how each cell's processed datum is assembled from the cell and text
  processors;
- how the `animate` prop is layered into react-move transitions for the
  `start`/`enter`/`update`/`leave` phases;
- the zoom state machine driven by click and double-click;
- the timer-based disambiguation of single clicks from double-clicks;
- the text sizing and font-size clamping;
- the older, self-contained `Treemap` component.

Modules, one per source file or shared concept:

| module | file | models |
|---|---|---|
| `Js` | js.dfy | JavaScript ids (number, string, `undefined`), truthiness, `String(id)`, and plain objects as ordered key/value lists, so that object spreads keep "later spread wins" |
| `Hierarchy` | hierarchy.dfy | the laid-out d3 tree as an arena of nodes linked by index, pre-order, `getNodeById`, the ancestor chain |
| `Scales` | scales.dfy | d3 linear scales (objects whose domain and range are reset in place), `getDomainsAndRanges*`, `getScales` |
| `Layout` | layout.dfy | the d3 treemap layout object and `getLayout` (reuse and resize) |
| `Performance` | performance.dfy | `stateFromPropUpdates` and `propsChanged`. The container imports both from the `ihme-ui` package (src/containers/Treemap.tsx:14-18). src/utils/performance.js is a local copy of them (:5), and the model takes that copy as the definition the container uses. |
| `Animate` | animate.dfy | `animationStartFactory`, `getMethodIfExists`, `defaultProcessor`, `animationProcessorFactory` |
| `TreemapCell` | treemap_cell.dfy | the cell datum processor, `attributionWidth`, the attribution rectangle |
| `TreemapText` | treemap_text.dfy | `sizingProperties`, `fontSize`, `fontDirection`, `processDatum` |
| `TreemapContainer` | treemap_container.dfy | the container `Treemap`: ancestor test, filter and stacking sort of `layoutData`, sum accessor and comparator, `propUpdates` gating, datum processor, `processData`, animation processor |
| `TreemapView` | treemap_view.dfy | the zoom state `{rootNodeId, showToDepth}` and its click/double-click handlers |
| `DoubleClick` | double_click.dfy | `DoubleClickReactComponent`: the `clickTimeout` state machine |
| `TreemapLegacy` | treemap_legacy.dfy | the older `src/components/Treemap.tsx`: `processDataWithLayout`, `getProcessedState`, `handleClicks`, `attrWidth` |

Modelling choices:

- Node ids in the tree are strings, as d3's stratify assigns them. An id handed
  in through props (`rootNodeId`, `focused`, `selection`) is a number, a
  string or `undefined`. Strict `===` is equality of the `Id` value.
  `String(id)` is `ToJsString`, which writes integers in decimal.
- d3's `descendants()` order is an input sequence of node indices. The tree
  and its bounds are inputs too.
- User animation methods are Dafny function values. Processed datums are
  ordered key/value lists.
- The firing of a `setTimeout` timer is an explicit event (`Expire`, or the
  `TimerFires` method). No clock is modelled.
- A method whose source mutates an object (the scale objects, the layout, the
  zoom state, `clickTimeout`) is a class method with a `modifies` clause. Its
  `ensures` ties the new state to a function, and the lemmas are stated about
  that function.

Three quirks of the source are kept visible rather than smoothed over:

- The filter's ancestor test compares node ids with `String(rootNodeId)`
  (src/containers/Treemap.tsx:350). `getScales` instead looks the root up with
  a strict `===` on the unconverted id (src/containers/Treemap.tsx:369-372,
  397). A numeric `rootNodeId` therefore isolates the cells but leaves the
  scales on the whole viewport (`TreemapContainer.NumericRootQuirk`).
- A falsy `rootNodeId` (`0`, `''`, `undefined`) switches isolation off
  (src/containers/Treemap.tsx:346).
- `clickTimeout` is `undefined`, not `null`, until `componentDidMount` runs.
  `!== null` is then true, so a click before mount fires `onDoubleClick`
  (src/components/DoubleClickReactComponent.tsx:21-25, 47).
- `onDoubleClick` can be missing. The base class's defaultProps give it a
  noop (src/components/DoubleClickReactComponent.tsx:15-19), but
  `TreemapCell`'s own defaultProps replace them (src/components/TreemapCell.tsx:58-62).
  The container has no default for it and passes it on to every cell
  (src/containers/Treemap.tsx:165-184, 600, 628). The older component has no
  default either (src/components/Treemap.tsx:51, 73-88). A second click then
  throws before `clickTimeout` is cleared, so the armed click still fires
  `onClick` (`DoubleClick.StepWith`, `DoubleClick.MissingOnDoubleClickKeepsFirstClick`).

Further facts of the code that the model keeps:

- The initial zoom state is `{showToDepth: 0}` with no `rootNodeId`
  (src/containers/TreemapView.tsx:23). The container's default
  `showToDepth` prop is 1 (src/containers/Treemap.tsx:182).
- The stacking list is `[...(selection || []), focused]`
  (src/containers/Treemap.tsx:335). The focused id is therefore positioned
  after every selected id.
- A falsy `animate` prop skips the animation processor: `render` draws
  `processData()` directly (src/containers/Treemap.tsx:675-685). A
  truthy `animate` reaches the processor. There, `animate === true` wraps
  every processed value as `[value]` in the `enter`, `update` and `leave`
  phases (src/utils/animate.ts:84). `start` is handled before that check
  (src/utils/animate.ts:17-42).
- A truthy `rootNodeId` that no node carries empties the filtered list
  (src/containers/Treemap.tsx:346-356). The scales then fall back to the
  viewport, because the lookup finds nothing
  (src/containers/Treemap.tsx:369-372).
- The legacy component keeps every node with `depth <= showToDepth`
  (src/components/Treemap.tsx:202). The container keeps only the frontier:
  `depth == showToDepth`, or a leaf above it.

## Model

| member | source | states |
|---|---|---|
| `Hierarchy.GetNodeById` | src/containers/Treemap.tsx:392-413 | The recursive search (self, then each child's subtree left to right, with early return) returns the first node of the subtree's pre-order whose id is `===` the query, and null when there is none. The legacy copy at src/components/Treemap.tsx:93-111 is the same code. |
| `Hierarchy.FirstMatchIsFirst` | src/containers/Treemap.tsx:396-408 | Every node before the returned one in pre-order fails the id test, so the result is the first match. |
| `Hierarchy.NodeByIdNoneIff` | src/containers/Treemap.tsx:392-413 | On the whole tree the search returns null exactly when no node of the tree has the id. |
| `Hierarchy.NodeByIdNeedsString` | src/containers/Treemap.tsx:397 | Because the test is strict and node ids are strings, a numeric or undefined id finds no node. |
| `Hierarchy.Ancestors` | src/containers/Treemap.tsx:354-358 | The chain `node, node.parent, ...` up to the root has `depth + 1` entries, and each step goes up one level. |
| `TreemapContainer.NodeHasRootAsAncestor` | src/containers/Treemap.tsx:341-359 | The recursive walk up the parents. `AncestorTestIff` states what it computes. |
| `TreemapContainer.AncestorTestIff` | src/containers/Treemap.tsx:341-359 | `nodeHasRootAsAncestor` is true for a falsy `rootNodeId`. Otherwise it is true iff some node on the chain from the node up to the root, inclusive, has id `String(rootNodeId)`. |
| `TreemapContainer.UnknownRootExcludesAll` | src/containers/Treemap.tsx:346-356 | A truthy `rootNodeId` that no node carries makes the test false for every node. |
| `TreemapContainer.Filtered` | src/containers/Treemap.tsx:324-332 | The filter keeps exactly the nodes of the descendants order that are at `showToDepth`, or are childless above it, and that pass the ancestor test. The result is a sub-multiset of the order. |
| `TreemapContainer.FilteredFrontier` | src/containers/Treemap.tsx:326-330 | No kept node is deeper than `showToDepth`, and a kept node above it has height 0. |
| `TreemapContainer.FindIndex` | src/containers/Treemap.tsx:338 | `findIndex` with `===` gives the first position of the id, or -1 exactly when the id is absent. |
| `TreemapContainer.SelectedAndFocused` | src/containers/Treemap.tsx:335 | The stacking list is the selection (or nothing) followed by `focused`, so it ends with `focused`. |
| `TreemapContainer.SortBy` | src/containers/Treemap.tsx:338 | `sortBy` returns a permutation of its input. |
| `TreemapContainer.SortBySorted` | src/containers/Treemap.tsx:338 | The sort's output is ordered by the key. |
| `TreemapContainer.SortByStable` | src/containers/Treemap.tsx:338 | The sort is stable: for every key value, the elements with that key keep their input order. |
| `TreemapContainer.LayoutData` | src/containers/Treemap.tsx:293-339 | `layoutData` as the stable sort of the filtered nodes by their stacking position. `LayoutDataStacking` and `FocusedDrawnLast` state what it returns. |
| `TreemapContainer.LayoutDataStacking` | src/containers/Treemap.tsx:334-338 | `layoutData`'s result is a permutation of the filtered nodes. It is ordered by the node's index in `[...selection, focused]`, so unlisted nodes (-1) come first. Nodes sharing a position keep the traversal order. |
| `TreemapContainer.FocusedDrawnLast` | src/containers/Treemap.tsx:335-338 | With unique ids, the focused node, when drawn, is the last element unless its id is also in `selection`. |
| `TreemapContainer.NumericRootQuirk` | src/containers/Treemap.tsx:346-385 | A non-zero numeric `rootNodeId` isolates the node whose id is its decimal string. The strict lookup in `getScales` misses that node, so both scales map the viewport onto itself. |
| `TreemapContainer.LeafValue` | src/containers/Treemap.tsx:312 | `getValue(data, [id, value], 1e-100)` is the datum's value field when defined, and `1e-100` otherwise. It is never undefined. |
| `TreemapContainer.SumAccessor` | src/containers/Treemap.tsx:310-319 | The accessor given to `sum`. `SumCountsOnlyLeaves` and `SumOfUnknownDatum` state its value. |
| `TreemapContainer.SumCountsOnlyLeaves` | src/containers/Treemap.tsx:310-319 | The sum accessor gives 0 on a node with children, and the datum's value (or the default) on a leaf. |
| `TreemapContainer.SumOfUnknownDatum` | src/containers/Treemap.tsx:311-318 | A datum whose id names no node counts as a leaf (`isEmpty(null)`). |
| `TreemapContainer.InternalValueIsChildSum` | src/containers/Treemap.tsx:309-319 | With d3's `sum` taken as "own accessor value plus the children's values", an internal node's value is exactly the sum of its children's values. |
| `TreemapContainer.Compare` | src/containers/Treemap.tsx:321 | The comparator orders by descending height, then by descending value. It is zero exactly when both are equal. |
| `Scales.DomainsAndRangesFromProps` | src/containers/Treemap.tsx:438-450 | Domain and range are `[0, width]` for x and `[0, height]` for y. |
| `Scales.DomainsAndRanges` | src/containers/Treemap.tsx:418-460 | Ranges are always `[0, width]` and `[0, height]`. Domains are the root node's `[x0, x1]` and `[y0, y1]` when a root node is given, and the viewport otherwise. The legacy copy at src/components/Treemap.tsx:116-148 is the same code. |
| `Scales.Scale.constructor` | src/containers/Treemap.tsx:43-46 | `scaleLinear()` starts with domain and range `[0, 1]`. |
| `Scales.Scale.SetDomainRange` | src/containers/Treemap.tsx:384-385 | `scale.domain(d).range(r)` replaces both in place on the same object. |
| `Scales.GetScales` | src/containers/Treemap.tsx:364-387 | The given scale objects are reset in place to the domains and ranges of the root found by the strict lookup. When both names denote one object, the y settings remain. |
| `Scales.ZoomFillsViewport` | src/containers/Treemap.tsx:364-387 | Once the root node is found and has a non-empty box, the scales carry its box onto the whole viewport. |
| `Scales.NoRootIdentity` | src/containers/Treemap.tsx:423-432 | Without a node carrying `rootNodeId`, both scales are the identity on the viewport. |
| `Layout.TreemapLayout.constructor` | src/containers/Treemap.tsx:283-287 | A new layout takes `tile`, `round` and `padding` from the options and the size from the props. |
| `Layout.TreemapLayout.Size` | src/containers/Treemap.tsx:274 | `layout.size([w, h])` changes only the size, in place. |
| `Layout.GetLayout` | src/containers/Treemap.tsx:264-288 | An existing layout is returned with only its size changed. Otherwise a fresh layout is built from the options. The legacy copy at src/components/Treemap.tsx:175-197 is the same code. |
| `Performance.StateFromPropUpdates` | src/utils/performance.js:6-10 | The fold over the updaters. `StateFromPropUpdatesSnoc` and `StateFromPropUpdatesUnchanged` state its behaviour. |
| `Performance.StateFromPropUpdatesSnoc` | src/utils/performance.js:6-10 | The fold is a left fold in key order. The last updater receives the accumulator the earlier ones produced, with the same `prevProps`, `nextProps` and `context`. |
| `Performance.StateFromPropUpdatesUnchanged` | src/utils/performance.js:6-10 | When every updater returns its accumulator, the result is the initial `state` (in particular with no updaters). |
| `Performance.PropsChanged` | src/utils/performance.js:12-16 | The `reduce` over the compared props. `PropsChangedIff` states when it is true. |
| `Performance.PropsChangedIff` | src/utils/performance.js:12-16 | `propsChanged` is true iff some compared prop (`propsToCompare`, or else the keys of `nextProps`) outside `propsToOmit` fails the comparator. |
| `Performance.PropsChangedSelf` | src/utils/performance.js:12-15 | The same props never count as changed under the default `eq`. |
| `Performance.PropsChangedIgnoresOmitted` | src/utils/performance.js:14 | Omitted props have no influence on the answer. |
| `Performance.PropsChangedIgnoresPrevOnly` | src/utils/performance.js:13 | Without `propsToCompare`, only keys of `nextProps` are compared. Props present only in `prevProps` are ignored. |
| `Performance.PropsChangedFromEmpty` | src/utils/performance.js:12-16 | Against `{}`, a listed prop counts as changed exactly when it is defined in `nextProps`. |
| `TreemapContainer.PropUpdates` | src/containers/Treemap.tsx:202-259 | The five gated updaters in key order. `PropUpdatesKeepState`, `PropUpdatesRecompute` and `NewReferenceRecomputes` state their effect. |
| `TreemapContainer.PropUpdatesKeepState` | src/containers/Treemap.tsx:202-258 | When no prop in `dataPropNames` changed, every updater returns its accumulator, so the state is unchanged. |
| `TreemapContainer.PropUpdatesRecompute` | src/containers/Treemap.tsx:202-258 | When one did change, `layout`, `treemapData`, `scales`, `datumProcessor` and `animationProcessor` are recomputed in that order. Each sees what the earlier ones set. |
| `TreemapContainer.OnlyDataPropsMatter` | src/containers/Treemap.tsx:188-197 | Props outside `dataPropNames` never trigger a recomputation. |
| `TreemapContainer.NewReferenceRecomputes` | src/containers/Treemap.tsx:188-197 | A data prop that is a different array or object reference counts as changed, so all five values are recomputed. |
| `TreemapContainer.ConstructorComputesAll` | src/containers/Treemap.tsx:548-551 | The constructor's fold from `{}` computes all five values as soon as one data prop is defined. |
| `TreemapContainer.TreemapComponent.constructor` | src/containers/Treemap.tsx:548-551 | The state is the fold of `propUpdates` from empty props, state and context. |
| `TreemapContainer.TreemapComponent.ComponentWillReceiveProps` | src/containers/Treemap.tsx:553-555 | The old state is both accumulator and context. It is kept as it is when no data prop changed, and fully recomputed otherwise. |
| `TreemapContainer.AttributionLookup` | src/containers/Treemap.tsx:497-507 | `attribution && name && datum.data[name]` gives the first falsy operand, or else the datum's field. |
| `TreemapContainer.CellHead` | src/containers/Treemap.tsx:495-514 | The cell head object has keys `attributionFill`, `attributionValue`, `cellFill`, holding the resolved values. |
| `TreemapContainer.CellDatum` | src/containers/Treemap.tsx:495-516 | The resolved head with the cell processor's output spread over it. `CellDatumKeys` and `CellDatumGet` state its contents. |
| `TreemapContainer.CellDatumKeys` | src/containers/Treemap.tsx:511-516 | The cell datum's keys are the three resolved props followed by the seven animatable cell keys, with nothing overwritten. |
| `TreemapContainer.CellDatumGet` | src/containers/Treemap.tsx:511-516 | An animatable cell key reads back from the cell processor, and any other key from the head. |
| `TreemapContainer.TextDatum` | src/containers/Treemap.tsx:523-545 | The text processor's output with the `label` key added, and `label` reads back the given label. |
| `TreemapContainer.DatumProcessor` | src/containers/Treemap.tsx:465-482 | The text part with the cell part spread over it. `CellKeysWin`, `DatumProcessorCellKey`, `DatumProcessorTextKey` and `DatumProcessorLabel` state its contents. |
| `TreemapContainer.CellKeysWin` | src/containers/Treemap.tsx:472-480 | `getDatumProcessor` spreads the text output first and the cell output second. Every cell key reads back from the cell part, and any other key from the text part. |
| `TreemapContainer.DatumProcessorCellKey` | src/containers/Treemap.tsx:472-480 | A cell key of the processed datum holds the scaled bound, size or opacity. |
| `TreemapContainer.DatumProcessorTextKey` | src/containers/Treemap.tsx:523-545 | A text key holds `TreemapText.processDatum` computed on the scaled cell's width and height. |
| `TreemapContainer.DatumProcessorLabel` | src/containers/Treemap.tsx:541-544 | The processed datum's `label` is the resolved label. |
| `TreemapContainer.ProcessData` | src/containers/Treemap.tsx:557-568 | `processData` maps each drawn node, in order, to `{data, key: "cell-" + id, state: datumProcessor(node)}`. |
| `TreemapContainer.ProcessedKeysDistinct` | src/containers/Treemap.tsx:563-567 | With unique node ids, the drawn cells get pairwise distinct React keys. |
| `TreemapContainer.AnimationProcessor` | src/containers/Treemap.tsx:248-253 | The animation processor applied with the cell's and the text's animatable keys. `ResolvedPropsNotAnimated` states what that leaves unanimated. |
| `TreemapContainer.ResolvedPropsNotAnimated` | src/containers/Treemap.tsx:248-253 | The animatable keys passed are the cell's and the text's. The resolved props and the label pass through unwrapped. |
| `TreemapContainer.DefaultOpacityAnimation` | src/containers/Treemap.tsx:48-62 | `DEFAULT_OPACITY_ANIMATION` as data: an `opacity` entry with `enter`, `update` and `leave` methods. `DefaultOpacityTransitions` states what it produces. |
| `TreemapContainer.DefaultOpacityTransitions` | src/containers/Treemap.tsx:48-62 | Under `DEFAULT_OPACITY_ANIMATION`, opacity goes to 1 with a 333 ms delay on enter and update, and to 0 over 666 ms on leave. Events stay undefined. |
| `Animate.AnimationStart` | src/utils/animate.ts:17-42 | The `start` state is the resolved states of all entries, in key order, spread over `{}`. |
| `Animate.StartIsLayered` | src/utils/animate.ts:17-42 | The start state is the spread of each entry's `{[key]: value, ...start(value)}` in key order, so later entries overwrite earlier ones. |
| `Animate.StartWithoutMethods` | src/utils/animate.ts:21-40 | Without `start` methods the start state is the processed datum itself: values are never wrapped. |
| `Animate.StartBeforeBoolean` | src/utils/animate.ts:76-80 | `start` is chosen before the boolean check, so a boolean `animate` leaves the start state unwrapped. |
| `Animate.DefaultProcessor` | src/utils/animate.ts:56-67 | The result is every processed value wrapped as `[value]`, spread over `{}`. |
| `Animate.AnimationProcess` | src/utils/animate.ts:70-129 | The processor returns a list of transitions exactly for an object `animate` outside the `start` phase, with one entry per processed key. Otherwise it returns one object. |
| `Animate.BooleanWrapsEveryKey` | src/utils/animate.ts:56-86 | For a boolean `animate` in `enter`, `update` or `leave`, every processed value is wrapped as `[value]`, animatable or not. No `events` or `timing` are added. |
| `Animate.GetMethodIfExists` | src/utils/animate.ts:44-54 | The result is `animate[key]` when it is a function, and null otherwise. |
| `Animate.UserMethod` | src/utils/animate.ts:105-113 | The user method is `animate[key][phase]` if defined, else `animate[key]` when that is a function, else none. |
| `Animate.Override` | src/utils/animate.ts:100-103 | `events` and `timing` are `animate[key].events`/`.timing` if defined, else the root `animate.events`/`.timing`. |
| `Animate.Entries` | src/utils/animate.ts:96-127 | For an object `animate`, the result has one transition per processed entry, in key order. |
| `Animate.ObjectOneEntryPerKey` | src/utils/animate.ts:88-127 | For an object `animate`, the phase processor returns a list with exactly one entry per processed key, in order, each defining its key. |
| `Animate.Entry` | src/utils/animate.ts:96-125 | Each entry sets its own key, whether or not the key is animatable. |
| `Animate.NonAnimatableEntry` | src/utils/animate.ts:124-125 | A key outside `animatableKeys` yields `{[key]: value}` and consults no user method. |
| `Animate.AnimatableEntry` | src/utils/animate.ts:99-121 | An animatable entry is `{[key]: [value], events, timing}` with the user method's result spread over it. Every key the user result sets wins, and nothing else is set. |
| `TreemapView.View.constructor` | src/containers/TreemapView.tsx:21-24 | The initial state has `showToDepth = 0` and no `rootNodeId`. |
| `TreemapView.ZoomIn` | src/containers/TreemapView.tsx:47-56 | A click sets `rootNodeId` to the clicked node's id. It sets `showToDepth = depth + 1` when the node's height is positive, and leaves it unchanged otherwise. |
| `TreemapView.ZoomOutTarget` | src/containers/TreemapView.tsx:31-38 | The zoom-out target is the grandparent if there is one, else the parent, else the node itself. |
| `TreemapView.ZoomOut` | src/containers/TreemapView.tsx:26-45 | A double-click sets `rootNodeId` to the target's id. It sets `showToDepth = depth - 1` when `depth > 0`, and leaves it unchanged otherwise. |
| `TreemapView.View.OnClick` | src/containers/TreemapView.tsx:47-56 | The handler updates exactly `rootNodeId` and `showToDepth`, as `ZoomIn` says. |
| `TreemapView.View.OnDoubleClick` | src/containers/TreemapView.tsx:26-45 | The handler updates exactly `rootNodeId` and `showToDepth`, as `ZoomOut` says. |
| `TreemapView.RunKeepsDepthNonNegative` | src/containers/TreemapView.tsx:26-56 | Any sequence of clicks and double-clicks keeps a non-negative `showToDepth` non-negative. |
| `TreemapView.InitialRunNonNegative` | src/containers/TreemapView.tsx:21-56 | From the initial state, `showToDepth` stays at least 0 across any sequence of gestures. |
| `TreemapView.ZoomRoundTrip` | src/containers/TreemapView.tsx:26-56 | Showing the children of `p`, a click on its internal child `a` and then a double-click on a child of `a` return to the same state. |
| `TreemapView.ZoomedFrontierIsChildren` | src/containers/TreemapView.tsx:47-56 | Supposing the view's zoom state were passed to the container as props, a click on an internal node with a non-empty id would make the container's filter keep exactly that node's children. The view as written renders a placeholder component instead (src/containers/TreemapView.tsx:3), so this combination does not happen in the code. |
| `DoubleClick.Step` | src/components/DoubleClickReactComponent.tsx:42-54 | A click with `null` pending fires nothing and arms the timer with its own arguments. A click while `clickTimeout !== null` fires `onDoubleClick` with its own arguments. Expiry fires `onClick` with the armed click's arguments. Whatever fires leaves nothing pending. |
| `DoubleClick.OneCallbackPerClick` | src/components/DoubleClickReactComponent.tsx:27-54 | Over any run, the callbacks fired plus the timer left armed never exceed the clicks plus the timer armed at the start. |
| `DoubleClick.CallbacksReportClicks` | src/components/DoubleClickReactComponent.tsx:32-54 | Every callback reports the arguments of a click that happened. |
| `DoubleClick.CancelledClickNeverFires` | src/components/DoubleClickReactComponent.tsx:27-54 | A second click on a pending click fires `onDoubleClick` with the second click's arguments. The cancelled single click never fires. |
| `DoubleClick.DoubleClickFiresOnce` | src/components/DoubleClickReactComponent.tsx:37-54 | Two clicks from `null` fire `onDoubleClick` exactly once, with the second click's arguments, and leave nothing pending. |
| `DoubleClick.SingleClickAfterExpiry` | src/components/DoubleClickReactComponent.tsx:32-53 | A click whose timer expires fires `onClick` once, with that click's arguments, and leaves nothing pending. |
| `DoubleClick.StepWith` | src/components/DoubleClickReactComponent.tsx:37-54 | With `onDoubleClick` present, one event is exactly `Step`. Without it, a click while `clickTimeout !== null` throws at the call before the clear: nothing fires and the field is kept. No double-click is ever reported without the callback. A timer armed before the event is still armed after it, or has just reported its click. |
| `DoubleClick.RunWithCallback` | src/components/DoubleClickReactComponent.tsx:15-19 | With `onDoubleClick` present, every run is the run `Run` describes, so the properties proved about `Run` apply. |
| `DoubleClick.MissingOnDoubleClickOnlySingles` | src/components/DoubleClickReactComponent.tsx:37-54 | Without `onDoubleClick`, every callback that fires in any run is `onClick`. |
| `DoubleClick.MissingOnDoubleClickKeepsFirstClick` | src/components/Treemap.tsx:244-259 | Click(a), Click(b), expiry from null: with `onDoubleClick` this fires `onDoubleClick(b)` only; without it the second click throws and the timer then fires `onClick(a)`. |
| `DoubleClick.PendingIsLastClick` | src/components/DoubleClickReactComponent.tsx:49-53 | A timer still armed after a run was set by the run's last event, a click, for `doubleClickTiming`. |
| `DoubleClick.DoubleClickReactComponent.constructor` | src/components/DoubleClickReactComponent.tsx:15-21 | `doubleClickTiming` defaults to 250. `clickTimeout` starts undefined. Whether `onDoubleClick` is present is fixed at construction. |
| `DoubleClick.DoubleClickReactComponent.ComponentDidMount` | src/components/DoubleClickReactComponent.tsx:23-25 | After mount, no click is pending. |
| `DoubleClick.DoubleClickReactComponent.ClearAndNullTimeout` | src/components/DoubleClickReactComponent.tsx:27-30 | The armed timer is cancelled and `clickTimeout` becomes null. |
| `DoubleClick.DoubleClickReactComponent.OnClick` | src/components/DoubleClickReactComponent.tsx:32-35 | Fires `onClick` once, then clears. |
| `DoubleClick.DoubleClickReactComponent.OnDoubleClick` | src/components/DoubleClickReactComponent.tsx:37-40 | With the callback present, fires `onDoubleClick` once, then clears. Without it, the call throws before the clear and nothing changes. |
| `DoubleClick.DoubleClickReactComponent.HandleClicks` | src/components/DoubleClickReactComponent.tsx:42-54 | The field and the callbacks fired change exactly as `StepWith` says for a click. With `onDoubleClick` present, that is `Step`. |
| `DoubleClick.DoubleClickReactComponent.TimerFires` | src/components/DoubleClickReactComponent.tsx:50-52 | The timer callback changes the state exactly as `Step` says for expiry. |
| `TreemapCell.CellObj` | src/components/TreemapCell.tsx:64-89 | The processed cell object's keys are exactly `animatable`: `x0, x1, y0, y1, opacity, height, width`. |
| `TreemapCell.CellObjFields` | src/components/TreemapCell.tsx:81-89 | Each key of the processed object reads back its field. |
| `TreemapCell.ProcessDatum` | src/components/TreemapCell.tsx:74-91 | The bounds are the scale images of the datum's bounds. `width = x1 - x0` and `height = y1 - y0` over the scaled values, and `opacity` is 0. |
| `TreemapCell.CellSizeNonNegative` | src/components/TreemapCell.tsx:76-88 | A cell with ordered bounds under increasing scales has non-negative width and height. |
| `TreemapCell.RootCellFillsViewport` | src/components/TreemapCell.tsx:74-91 | Once zoomed, the isolated root's cell covers the whole viewport. |
| `TreemapCell.AttributionWidth` | src/components/TreemapCell.tsx:104-117 | The width is 0 when the attribution field is falsy. Otherwise it is `(x1 - x0)` times `value` as the multiplication converts it to a number, and NaN (`None`) exactly when that conversion gives NaN. |
| `TreemapCell.AttributionCoercions` | src/components/TreemapCell.tsx:110-114 | A `null` share gives width 0, `true` gives the whole cell width, and the string `"0.5"` gives half of it. |
| `JsNumber.PrimitiveConversions` | src/components/TreemapCell.tsx:113 | The multiplication reads `null` as 0, `true` and `false` as 1 and 0, a number as itself, `""` and `[]` as 0, and `undefined` as NaN. |
| `JsNumber.NumeralRoundTrip` | src/components/TreemapCell.tsx:113 | A string holding the decimal numeral of a natural number converts back to that number. |
| `JsNumber.HalfString` | src/components/TreemapCell.tsx:113 | The string `"0.5"` converts to one half. |
| `JsNumber.ControlSpaces` | src/components/TreemapCell.tsx:113 | Vertical tab and form feed are stripped as white space, so `"\v1"` and `"\f1"` convert to 1. |
| `JsNumber.UnitSuffixIsNaN` | src/components/TreemapCell.tsx:132 | A string with a unit, such as `"2px"`, converts to NaN. |
| `TreemapCell.AttributionWithinCell` | src/components/TreemapCell.tsx:110-114 | A share between 0 and 1 keeps the bar within the cell. |
| `TreemapCell.AttributionRect` | src/components/TreemapCell.tsx:119-149 | With `Number(strokeWidth)` as the stroke, the rectangle is offset by half of it on both axes, and its height and width are each that much less than the cell height and the bar width. A stroke that converts to NaN makes the offset, height and width NaN. A NaN bar width makes the width NaN. The legacy copy at src/components/Treemap.tsx:283-313 converts the stroke the same way. |
| `TreemapCell.StrokeWidthStrings` | src/components/TreemapCell.tsx:132-146 | The string `"2"` gives offset 1 and sizes reduced by 2. The string `"2px"` gives a NaN offset, height and width. |
| `TreemapText.FloorAtZero` | src/components/TreemapText.tsx:78-80 | `max(0, floor(v))` is a non-negative whole number, at most `v` when positive, and above `v - 1` for non-negative `v`. |
| `TreemapText.Sizing` | src/components/TreemapText.tsx:68-99 | `x` and `y` are the floored padded room, both at least 0. `shouldBeVertical` holds iff `y > x` and `labelWidth * (minValue + 1) > x`. |
| `TreemapText.FontSize` | src/components/TreemapText.tsx:101-132 | The chain of assignments computes the clamped candidate, never above `maxValue`. |
| `TreemapText.CandidateIsTightest` | src/components/TreemapText.tsx:113-119 | The candidate is `min(y, x / labelWidth)` horizontally and `min(x, y / labelWidth)` vertically. |
| `TreemapText.FontSizeOf` | src/components/TreemapText.tsx:101-132 | The chosen size never exceeds `maxValue`. It is 0, `maxValue`, or at least `minValue`. |
| `TreemapText.ClampCases` | src/components/TreemapText.tsx:121-131 | Below `minValue` the size becomes 0, or `maxValue` when `maxValue <= 0`, because the maximum check runs after the minimum check. At or above both bounds it becomes `maxValue`. Between the two it is unchanged, and it never exceeds `maxValue`. |
| `TreemapText.LabelFits` | src/components/TreemapText.tsx:101-132 | The chosen size keeps the label within the padded room, along and across its direction. |
| `TreemapText.FontDirection` | src/components/TreemapText.tsx:134-154 | Horizontal: rotate 0, `x_translate = fontMargin`, `y_translate = fontSize`. Vertical: rotate 90, `x_translate = fontSize / fontMargin`, `y_translate = fontMargin`. |
| `TreemapText.ProcessDatum` | src/components/TreemapText.tsx:56-66 | The result has exactly the `animatable` keys `x_translate, y_translate, rotate, fontSize`, holding the direction and the font size. |
| `TreemapLegacy.ProcessDataWithLayout` | src/components/Treemap.tsx:199-203 | The older component keeps exactly the descendants with `depth <= showToDepth`, including internal nodes above the frontier. |
| `TreemapLegacy.LegacyAddsInternalAncestors` | src/components/Treemap.tsx:199-203 | With isolation off, whatever the container draws the older component draws too. The only extra nodes are the internal ones above `showToDepth`. |
| `TreemapLegacy.GetProcessedState` | src/components/Treemap.tsx:205-221 | The layout is reused and resized (or built), then the nodes are filtered, then the scales are reset (reused objects, or new ones). |
| `TreemapLegacy.AttrWidth` | src/components/Treemap.tsx:270-281 | The width is 0 when the attribution field is falsy. Otherwise it is `(xScale(x1) - xScale(x0))` times `value` converted to a number, and NaN exactly when the conversion gives NaN. |
| `TreemapLegacy.RootAttributionSpansViewport` | src/components/Treemap.tsx:270-281 | On the zoomed root, the bar is the share `value` of the viewport width. |
| `TreemapLegacy.LegacyTreemap.constructor` | src/components/Treemap.tsx:225-228 | The state is the processed state with nothing to reuse. No timer is set yet. |
| `TreemapLegacy.LegacyTreemap.ComponentDidMount` | src/components/Treemap.tsx:230-232 | After mount, no click is pending. |
| `TreemapLegacy.LegacyTreemap.ComponentWillReceiveProps` | src/components/Treemap.tsx:234-237 | Everything is recomputed, reusing the layout and scale objects. The layout keeps its `tile`, `round` and `padding` and takes the new size. |
| `TreemapLegacy.LegacyTreemap.ClearAndNullTimeout` | src/components/Treemap.tsx:239-242 | `clickTimeout` becomes null. |
| `TreemapLegacy.LegacyTreemap.HandleClicks` | src/components/Treemap.tsx:244-259 | Follows `DoubleClick.StepWith` with the fixed 250 ms timing and the props' `onDoubleClick`, which is optional with no default (src/components/Treemap.tsx:51, 73-88). With a click pending and the callback present, it fires `onDoubleClick` and clears. Without it, nothing changes and the armed click still fires. |
| `TreemapLegacy.LegacyTreemap.TimerFires` | src/components/Treemap.tsx:254-257 | The timer fires `onClick` with the armed click's arguments, then clears. |

## Left out

- d3-hierarchy tiling (`treemap()` applied to a tree, `treemapResquarify`, padding, rounding) is a foreign library call. The laid-out tree, with its bounds, is an input.
- d3's `hierarchy.sum`, `.sort` and `.descendants` are foreign too. The sum is characterised only by the `Summed` predicate ("own accessor value plus the children's values"). The comparator is modelled, but not the sort applied with it. The descendants order is an input sequence.
- d3 scale evaluation is modelled as the documented linear map, with the range midpoint for a zero-width domain. Colour scales (`scaleOrdinal`, `schemeCategory10`) and `propResolver` are left out. The resolved `cellFill` and label enter as parameters.
- Scales.GetScales: when no earlier scales are given, the source falls back to the module-level `DEFAULT_SCALES` objects and mutates them, shared across instances. The model uses new scale objects, so that aliasing is not captured.
- `stringWidth` (canvas text measurement) is left out. The label width per unit of font size is a parameter, required to be positive.
- TreemapText.FontDirection: requires a non-zero `fontMargin` and a positive label width. Infinity and NaN from dividing by zero are not modelled, and all arithmetic is on reals rather than IEEE doubles.
- JsNumber.ToNumber: converting a string to a number covers optional white space, an optional sign and decimal digits with an optional fraction. Exponents, hexadecimal, binary and octal literals, `Infinity`, and other characters outside the white space and line terminators of the language (tab, vertical tab, form feed, space, no-break space, byte order mark, the Unicode space separators, line feed, carriage return, line and paragraph separators) are read as NaN. NaN and the infinities are not values of the model.
- TreemapContainer.PropUpdatesKeepState and TreemapContainer.OnlyDataPropsMatter compare props with structural equality. lodash `eq` compares arrays and objects by reference. An array or object prop must therefore be given as a `Ref`, whose address stands for its identity. `List` and `Object` values passed as props are compared by content, which the source does not do.
- TreemapContainer.PropUpdates: the five recomputations (`getLayout`, `layoutData`, `getScales`, `getDatumProcessor`, the animation processor) are parameters. They are not tied to `Layout.GetLayout`, `LayoutData`, `Scales.GetScales`, `DatumProcessor` or `AnimationProcessor`. The model does not state what each reads. In the source, `layout` and `scales` reuse objects from the context (src/containers/Treemap.tsx:204, 224). `treemapData`, `datumProcessor` and `animationProcessor` read the accumulator (src/containers/Treemap.tsx:213-220, 232-253). The model only gives each one the accumulator, the next props and the context, in order.
- Numeric ids are integers only. `String` of a non-integer number is not modelled.
- `setTimeout`, `clearTimeout` and wall-clock time are modelled as an explicit expiry event. The callbacks handed to the props are recorded in a `fired` list instead of being invoked.
- DoubleClick.StepWith: the TypeError thrown by calling a missing `onDoubleClick` is not raised as an exception. The model keeps the state as it was when the error is thrown, and nothing after it in the handler runs. `onClick` is assumed present: the older component defaults it to a noop and the container passes its own noop default to every cell. A `TreemapCell` rendered on its own without `onClick` would throw when its timer fires, and that case is not modelled.
- React rendering (`render`, `renderText`, `renderRect` and `renderCell` of both cell components, `renderTreemapCell`, `renderTreemap` and `renderAnimatedTreemap` of the container, JSX, react-move's `NodeGroup` interpolation, `setState` batching), mouse-over/leave/move handlers, `Rectangle`, `DropShadowDefs`, `ResponsiveSVG`, `App` (JSON fetch), `index.tsx`, the `src/components/treemap.tsx` stub and the webpack configuration are UI, I/O or build configuration, and are not part of this model. Of `renderAttribution`, only the rectangle's geometry is modelled (`TreemapCell.AttributionRect`): its fill, opacity and event handlers are not.
