# unveil-E lazy-loading scheduler, modelled in Dafny

This project models the engine inside the jQuery plugin `jquery.unveil-E.js` (Unveil "Enhanced"),
with jQuery and the DOM stripped away. The plugin keeps three kinds of module-level state:

- a registry of every element it has ever accepted (`images`);
- the elements still waiting to be revealed (`$batch`);
- two scheduler flags: the window listeners are bound (`initialised`), and a frame has been requested (`ticking`).

A call to `$.fn.unveil(threshold, callback)` does the following:

- writes the threshold on every element passed;
- prunes detached elements from the registry;
- accepts the passed elements it does not know yet, and binds on each a one-shot "unveil" handler;
- binds the window listeners if they are not bound;
- runs one pass.

A pass (`unveil`) triggers "unveil" on every pending element that is shown and lies within the viewport widened by its threshold, and takes those elements out of the batch. The triggered handler commits the element's source into `src` and calls the callback:

- the source is the first density bucket of the device with a non-empty `data-src-<bucket>`;
- otherwise it is `data-src`.

Scroll, resize and "lookup" events go through `throttle`, which requests at most one animation frame. That frame (`lookup`) runs a pass. Regaining page visibility runs a pass directly. A pass that finds the batch empty unbinds the listeners.

The files:

- `seqs.dfy`, module `Seqs`: order-preserving filters (`Keep`, `Drop`), subsequences, distinctness and occurrence counts.
- `density.dfy`, module `Density`: the bucket table and the resolver `getDensity`.
- `geometry.dfy`, module `Geometry`: elements, the document, the viewport and the in-view test.
  - The document is a map from element id to element record; an id that is not a key is detached.
  - A record holds top, height, hidden flag and attributes.
- `reveal.dfy`, module `Reveal`: source selection of the one-shot handler.
- `pool.dfy`, module `Pool`, pure functions for the pool bookkeeping:
  - pruning;
  - the duplicate filter;
  - the matches of a pass;
  - what firing the handlers writes.
- `engine.dfy`, module `Engine`: the whole plugin state as a value (`State`), each operation as a transition on it, the invariant `Inv` that every transition keeps, and the lemmas that state what the plugin promises.
- `plugin.dfy`, module `Plugin`: the class `LazyLoader`.
  - Its fields are that state, and its methods change them step by step as the source does.
  - The plugin's entry points (the constructor, `Unveil`, `Throttle`, `Lookup`, `OnViewportEvent`, `OnVisibilityChange` and `Register`) keep `Valid()`. Each is proved to end in the state the matching `Engine` transition gives.
  - The inner steps (`Fire`, `FireAll`, `Release`, `UpdatePool`, `WriteThreshold`, `Admit`, `Enrol`) do not promise `Valid()`. Each states which fields it changes and what it writes to each; the entry point that calls them re-establishes `Valid()`.

Conventions:

- Element geometry and the viewport are inputs to each pass (`Document`, `Viewport`), read at the moment the pass runs.
- A detached element counts as hidden, as `:hidden` reports it in jQuery.
- Device pixel ratios are integer hundredths (1.33 is 133), the values that rounding to two decimals produces.
- A callback is an identifier. Every invocation is recorded in `calls`, with the element it was called on.
- Two ghost-only records serve the proofs: `accepted` (every acceptance) and `triggered` (every trigger).

Where the code and the plugin's documentation differ, the model follows the code:

- A negative threshold is kept as given, not clamped to zero (`(threshold || 0) | 0` does not clamp).
- When a pass empties the batch, the listeners stay bound. The next event's frame then runs one more pass, which finds the batch empty and unbinds them (`Engine.DrainedPoolDetachesOnNextFrame`).

In two places the model departs from the code, to correct the defects listed under "## Findings":

- The registration (`Engine.Enroll`, `Engine.Register`, `Plugin.LazyLoader.Enrol`, `Plugin.LazyLoader.Register`) uses the corrected pruning `Pool.Prune` of the first finding, not the code's `Pool.PruneAsWritten`.
- It also uses the corrected filter `Pool.Accept` of the second finding, not the code's `Pool.FilterAsWritten`.
- The as-written rules are modelled beside the corrected ones, with lemmas that show where they differ.
- The pruning rules agree when nothing is pending, and the filters agree on a collection without repeats (`Pool.PruneWithoutPendingIsAsWritten`, `Pool.AcceptAgreesWithFilterOnDistinct`).

## Model

| member | source | states |
|---|---|---|
| Density.GetDensity | jquery.unveil-E.js:52-59 | the loop over the table returns exactly the resolver's bucket list `TagsFor(dpr)` |
| Density.TagsForSpec | jquery.unveil-E.js:26 | a bucket is resolved iff its ratio equals the device ratio; the result follows table order (a subsequence of the table) and has no repeats |
| Density.TagsFromSpec | jquery.unveil-E.js:55-57 | the scan from position `k` collects exactly the buckets of `TABLE[k..]` with the device ratio, in table order |
| Density.RatioTwoIsXhdpiThenRetina | jquery.unveil-E.js:26 | a ratio of 2 resolves to `[xhdpi, retina]`, in that order |
| Density.UnlistedRatioResolvesToNothing | jquery.unveil-E.js:55-57 | a ratio that no bucket has resolves to the empty list |
| Geometry.InViewIffOverlap | jquery.unveil-E.js:61-75 | for a shown element of non-negative height, the in-view test holds iff some pixel row lies both in the element and in the viewport widened by the threshold |
| Geometry.HiddenNeverInView | jquery.unveil-E.js:67 | a hidden element never passes the in-view test |
| Geometry.InViewMonotoneInThreshold | jquery.unveil-E.js:73 | raising the threshold never takes an element out of view |
| Geometry.InViewEdgesInclusive | jquery.unveil-E.js:73 | both comparisons are inclusive: touching the widened viewport is in view; one pixel further out is not |
| Geometry.ThresholdScenario | jquery.unveil-E.js:61-75 | an element 10px beyond the 50px threshold is out of view, and is in view after a 10px scroll |
| Reveal.DensitySourceSpec | jquery.unveil-E.js:122-124 | the density source is absent iff every bucket attribute is empty; otherwise it is the value of the first bucket with a non-empty attribute |
| Reveal.FirstDensityWins | jquery.unveil-E.js:122-124 | the first bucket, in resolved order, with a non-empty attribute gives the committed source, ahead of `data-src` |
| Reveal.DefaultSourceFallback | jquery.unveil-E.js:124 | with every bucket attribute empty or absent, the source is `data-src` if non-empty, and none otherwise |
| Reveal.SourceExistsIff | jquery.unveil-E.js:122-126 | a source exists iff some bucket attribute or `data-src` is non-empty, and a committed source is never empty |
| Reveal.FirstIndex | jquery.unveil-E.js:122-124 | when some bucket attribute is non-empty, there is a first such bucket |
| Reveal.DensityPriorityScenario | jquery.unveil-E.js:122-124 | on a 2x device an element with `data-src-xhdpi` and `data-src` is given the `xhdpi` source |
| Pool.PruneAsWrittenSpec | jquery.unveil-E.js:100-104 | the pruning as written keeps, in order, exactly the registry entries still attached |
| Pool.PruneSpec | jquery.unveil-E.js:100-104 | the corrected pruning keeps, in order, exactly the entries that are attached or still pending, and keeps the registry free of repeats |
| Pool.PruneWithoutPendingIsAsWritten | jquery.unveil-E.js:100-104 | with nothing pending, the corrected pruning is the pruning as written |
| Pool.AcceptSpec | jquery.unveil-E.js:116-119 | the filter accepts exactly the passed elements not yet known, in the order passed, each once |
| Pool.AcceptKnownIsEmpty | jquery.unveil-E.js:116-119 | passing only known elements accepts nothing |
| Pool.AcceptAgreesWithFilterOnDistinct | jquery.unveil-E.js:116-119 | on a collection without repeats, the corrected filter is the filter as written |
| Pool.AsWrittenReacceptsDetachedPending | jquery.unveil-E.js:100-104 | as written, a pending element that is detached at registration time is pruned and passes the filter again; the corrected rules reject it |
| Pool.AsWrittenAcceptsRepeatedElement | jquery.unveil-E.js:116-119 | as written, an element passed twice in one collection passes the filter twice; the corrected filter takes it once |
| Pool.MatchedSpec | jquery.unveil-E.js:63-75 | a pass selects exactly the pending elements that are attached and in view, in batch order |
| Pool.RemainingSpec | jquery.unveil-E.js:84 | after a pass the batch keeps exactly the unmatched entries, in order; it never grows; unmatched and matched entries together are the old batch, as a multiset |
| Pool.CommitAllSpec | jquery.unveil-E.js:126-127 | firing commits the selected source of each fired element that has one; every other element keeps its `src`; no other element gains one |
| Pool.CallsOfSpec | jquery.unveil-E.js:126-129 | a callback call is made exactly for each fired element that has both a source and a callback; no element is called back more often than it is fired |
| Pool.FireStep | jquery.unveil-E.js:83 | firing distinct elements one by one, each handler unbound after it fires, equals firing them all with the handlers they started with |
| Engine.PassInv | jquery.unveil-E.js:77-85 | a pass keeps the plugin invariant (see the next row) |
| Engine.PassHistory | jquery.unveil-E.js:83-84 | a pass moves matched elements from pending to triggered; it commits sources and calls back only on triggered elements |
| Engine.PassShrinksBatch | jquery.unveil-E.js:83-84 | a pass keeps exactly the unmatched pending elements, in order, and the batch never grows; it triggers exactly the matched ones; hidden and detached elements stay pending |
| Engine.PassAppends | jquery.unveil-E.js:83-84 | the records of triggers and of callback calls before a pass are prefixes of those after it; what the pass adds to the triggers is, as a multiset, exactly what it takes out of the batch |
| Engine.EmptyPassDetaches | jquery.unveil-E.js:78-82 | a pass over an empty batch unbinds all listeners and triggers, commits and calls nothing |
| Engine.PassCommitsMatched | jquery.unveil-E.js:120-132 | a matched element with a source has it committed and its callback, if any, called; one without a source keeps its `src` and is not called back |
| Engine.NextPassSkipsRevealed | jquery.unveil-E.js:120 | an element revealed by one pass is not revealed by the next |
| Engine.AtMostOncePerRegistration | jquery.unveil-E.js:120 | however many passes run, an element is triggered and called back at most as often as it was accepted; an element never accepted is never triggered and gets no `src` from the plugin |
| Engine.SchedulingInv | jquery.unveil-E.js:87-97 | `throttle`, the viewport listener, `lookup` and the visibility handler keep the plugin invariant, including "at most one frame in flight, exactly when `ticking`" |
| Engine.BurstRequestsOneFrame | jquery.unveil-E.js:92-97 | any burst of one or more viewport events while bound requests exactly one frame and changes nothing else; while unbound it changes nothing |
| Engine.BurstThenFrameIsOnePass | jquery.unveil-E.js:87-97 | the frame a burst requested is the only one pending, and it runs exactly one pass, after which no frame is pending |
| Engine.DrainedPoolDetachesOnNextFrame | jquery.unveil-E.js:77-82 | with the batch drained and the listeners bound, the next event's frame unbinds them and reveals nothing; later events do nothing |
| Engine.VisibilityRegainedBypassesTicking | jquery.unveil-E.js:142-144 | regaining visibility runs a pass even while a frame is pending, and leaves that frame pending; a change to hidden does nothing |
| Engine.FallbackDelay | jquery.unveil-E.js:38 | the fallback timer's delay is zero iff 16ms have passed since the last frame; otherwise it ends exactly 16ms after the last frame |
| Engine.RegisterAccepts | jquery.unveil-E.js:113-119 | under the corrected pruning and filter, a registration accepts exactly the passed elements that are neither pending nor registered and attached; accepted elements keep the order passed and appear once; a pruned, revealed element can be accepted again |
| Engine.RegisterWritesThresholdAndBinds | jquery.unveil-E.js:110-135 | every passed element gets the threshold, accepted or not; accepted elements enter the registry; while pending, each holds a handler with the resolved buckets and the callback |
| Engine.EnrollInv | jquery.unveil-E.js:110-135 | the bookkeeping of a registration keeps the plugin invariant |
| Engine.RegisterInv | jquery.unveil-E.js:107-152 | a whole registration keeps the plugin invariant |
| Engine.RegisterAttaches | jquery.unveil-E.js:137-149 | after a registration the listeners are bound iff something was pending before its pass; the visibility listener is bound iff they are and the API exists |
| Engine.DetachedRegisteredTwice | jquery.unveil-E.js:100-119 | registering a detached element twice: as written, the second registration prunes it and the filter accepts it again, although it is still pending; the corrected rules accept nothing the second time |
| Engine.RegisterTwiceAcceptsNothing | jquery.unveil-E.js:116-119 | under the corrected pruning and filter, registering the same elements again right after a registration accepts nothing |
| Plugin.LazyLoader.constructor | jquery.unveil-E.js:19-23 | the plugin starts with an empty registry and batch, nothing bound and no frame requested |
| Plugin.LazyLoader.Fire | jquery.unveil-E.js:120-132 | the one-shot handler unbinds itself, commits the selected source and calls the callback only when a source exists |
| Plugin.LazyLoader.FireAll | jquery.unveil-E.js:83 | triggering distinct elements in order gives the handler, `src` and call updates of firing them all |
| Plugin.LazyLoader.Release | jquery.unveil-E.js:83-84 | triggering "unveil" on the matched elements and removing them from the batch ends in the state `Engine.Pass` gives for a non-empty batch |
| Plugin.LazyLoader.Unveil | jquery.unveil-E.js:77-85 | `unveil` keeps `Valid()` and ends in the state `Engine.Pass` gives |
| Plugin.LazyLoader.Throttle | jquery.unveil-E.js:92-97 | `throttle` keeps `Valid()` and requests a frame only when none is pending |
| Plugin.LazyLoader.Lookup | jquery.unveil-E.js:87-90 | `lookup` keeps `Valid()`, runs one pass and clears `ticking` |
| Plugin.LazyLoader.OnViewportEvent | jquery.unveil-E.js:138 | a viewport event reaches `throttle` only while the listeners are bound |
| Plugin.LazyLoader.OnVisibilityChange | jquery.unveil-E.js:142-144 | the visibility handler runs a pass exactly when it is bound and the page is visible again |
| Plugin.LazyLoader.UpdatePool | jquery.unveil-E.js:100-104 | `updatePool` replaces the registry by its pruned version (the corrected pruning) and changes nothing else |
| Plugin.LazyLoader.WriteThreshold | jquery.unveil-E.js:110 | every passed element gets the threshold, and no other threshold changes |
| Plugin.LazyLoader.Admit | jquery.unveil-E.js:134-135 | the accepted elements get the handler and are appended to the registry and to the batch; no other handler changes |
| Plugin.LazyLoader.Enrol | jquery.unveil-E.js:109-135 | under the corrected pruning and filter, the bookkeeping of a registration ends in the state `Engine.Enroll` gives and returns the accepted elements |
| Plugin.LazyLoader.Register | jquery.unveil-E.js:107-152 | under the corrected pruning and filter, `$.fn.unveil` keeps `Valid()`, returns the accepted elements and ends in the state `Engine.Register` gives |

## Left out

- jQuery/Zepto and the DOM:
  - element offsets, heights, `:hidden`, attributes and document membership are the `Document` input;
  - window scroll offset and height are the `Viewport` input.
- Event binding: binding and unbinding are the `initialised` and `visibilityBound` flags. Event delivery is a method call.
- `requestAnimationFrame`, `setTimeout` and `Date.now`:
  - a requested frame is counted in `frames` and runs when `Lookup` is called;
  - only the fallback delay formula is modelled, as `Engine.FallbackDelay`;
  - the value passed to the frame callback is not modelled, because `lookup` ignores it.
- Vendor-prefix probing of the visibility property and the event names: this is environment probing, reduced to the constant `visibilityApi`.
- `toFixed(2)` and `parseFloat` on the device pixel ratio: floating point. The ratio is given already rounded, in hundredths.
- `| 0` on pixel values: the 32-bit wrap-around of huge values is not modelled; values are taken to be in range.
- Engine.ThresholdOf: does not model `(threshold || 0) | 0` on non-numeric or fractional thresholds, nor its 32-bit wrap-around; a threshold is an optional integer.
- What a callback does: it is recorded, not run, so re-entrant calls into the plugin from a callback are not modelled.
- Document order: jQuery's `.add` keeps the batch in document order; the model keeps registration order. The set of pending elements is the same either way. Within one pass the model therefore fires handlers, commits sources and calls callbacks in registration order, where the source does so in document order.
- Engine.RegisterAccepts: follows the corrected pruning and filter of the findings; as written, a detached element that is still pending is accepted again (`Engine.DetachedRegisteredTwice`).
- Engine.RegisterTwiceAcceptsNothing: follows the corrected pruning and filter; as written, a second registration of an element that is detached and still pending accepts it again.
- Plugin.LazyLoader.UpdatePool: uses the corrected pruning, which also keeps pending entries; as written, every detached entry is dropped.
- Plugin.LazyLoader.Enrol: follows the corrected pruning and filter; as written, a detached pending element, or one passed twice in one call, is accepted again.
- Plugin.LazyLoader.Register: follows the corrected pruning and filter, through `Enrol`; as written, a detached pending element is accepted again and gets a second handler.
- Engine.FallbackDelay: the bound `delay <= 16` is stated only for a clock that does not run backwards, since the formula exceeds 16 otherwise.

## Findings

| source | as written | input that shows it | evidently intended | confidence | as-written member | corrected member |
|---|---|---|---|---|---|---|
| jquery.unveil-E.js:100-104 | `updatePool` drops every detached entry from `images`, including one still pending in `$batch` with its handler bound | register a detached element e twice: the second call prunes e from `images` although it is pending, the filter accepts it again, and a second one-shot handler is bound; once e is attached and comes into view, the callback runs twice | a pending element stays in the registry until it is revealed, so it cannot be accepted twice | medium, not executed | Pool.PruneAsWritten, Pool.AsWrittenReacceptsDetachedPending, Engine.DetachedRegisteredTwice | Pool.Prune |
| jquery.unveil-E.js:116-119 | the filter checks only `images`, not earlier members of the same collection | `$([e, e]).unveil()` with e new: both entries pass, e is pushed onto `images` twice and gets two handlers | each element is accepted once | low, not executed | Pool.FilterAsWritten, Pool.AsWrittenAcceptsRepeatedElement | Pool.Accept |
