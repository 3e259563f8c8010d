/** The plugin's whole state as a value, and each of its operations as a
    transition on that value: a pass (`unveil`), frame coalescing (`throttle`,
    `lookup`), the window listeners, the visibility-regained handler and a
    registration (`$.fn.unveil`). The class in `Plugin` is proved to follow these
    transitions; the lemmas here state what they guarantee. */
module Engine {
  import opened Seqs
  import opened Density
  import opened Geometry
  import opened Reveal
  import opened Pool

  /** The module-level state of the plugin, the per-element data it writes (the
      `threshold` data item, the committed `src`, the one-shot handlers) and two
      records kept for the proofs: every acceptance and every "unveil" trigger. */
  datatype State = State(
    visibilityApi: bool,                 // the page visibility API is available
    images: seq<ElementId>,              // every element registered and not pruned
    batch: seq<ElementId>,               // the pending elements
    handlers: map<ElementId, Handler>,   // the one-shot "unveil" handler bound on an element
    thresholds: map<ElementId, int>,     // the `threshold` data item of an element
    src: map<ElementId, string>,         // the `src` the plugin committed on an element
    calls: seq<Call>,                    // every completion callback invocation, in order
    initialised: bool,                   // the scroll/resize/lookup listeners are bound
    visibilityBound: bool,               // the visibility-change listener is bound
    ticking: bool,                       // a frame has been requested and has not yet run
    frames: nat,                         // frame callbacks requested and not yet run
    accepted: seq<ElementId>,            // every element a registration accepted, in order
    triggered: seq<ElementId>)           // every element a pass triggered "unveil" on, in order

  /** The state when the plugin is loaded. */
  function Initial(visibilityApi: bool): State {
    State(visibilityApi, [], [], map[], map[], map[], [], false, false, false, 0, [], [])
  }

  /** What every operation keeps true. */
  ghost predicate Inv(s: State) {
    Pools(s) && History(s) && Listeners(s)
  }

  /** The registry and the batch. */
  ghost predicate Pools(s: State) {
    && NoDups(s.images) && NoDups(s.batch)
    && Elements(s.batch) <= Elements(s.images)
    // exactly the pending elements hold a one-shot handler, and all of them a threshold
    && s.handlers.Keys == Elements(s.batch)
    && Elements(s.batch) <= s.thresholds.Keys
  }

  /** What has happened to the accepted elements. */
  ghost predicate History(s: State) {
    // each acceptance is either still pending or has been triggered, once
    && (forall x :: Count(s.triggered, x) + Count(s.batch, x) == Count(s.accepted, x))
    // callbacks and committed sources happen only on triggered elements
    && (forall x :: Count(Targets(s.calls), x) <= Count(s.triggered, x))
    && s.src.Keys <= Elements(s.triggered)
  }

  /** The frame requests and the listeners. */
  ghost predicate Listeners(s: State) {
    // at most one frame is ever in flight, and exactly when `ticking` says so
    && s.frames == (if s.ticking then 1 else 0)
    // both listeners are bound and unbound together, the visibility one only where the API exists
    && s.visibilityBound == (s.initialised && s.visibilityApi)
  }

  /** The accounting conjuncts of `Inv`, as multisets. */
  ghost predicate Accounted(s: State) {
    multiset(s.triggered) + multiset(s.batch) == multiset(s.accepted) &&
    multiset(Targets(s.calls)) <= multiset(s.triggered)
  }

  /** The counts of the accounting conjuncts are the multiplicities. */
  lemma CountsOf(s: State, x: ElementId)
    ensures Count(s.triggered, x) == multiset(s.triggered)[x] && Count(s.batch, x) == multiset(s.batch)[x]
    ensures Count(s.accepted, x) == multiset(s.accepted)[x]
    ensures Count(Targets(s.calls), x) == multiset(Targets(s.calls))[x]
  {
    CountIsMultiplicity(s.triggered, x);
    CountIsMultiplicity(s.batch, x);
    CountIsMultiplicity(s.accepted, x);
    CountIsMultiplicity(Targets(s.calls), x);
  }

  lemma AccountedCounts(s: State)
    requires Accounted(s)
    ensures forall x :: Count(s.triggered, x) + Count(s.batch, x) == Count(s.accepted, x)
    ensures forall x :: Count(Targets(s.calls), x) <= Count(s.triggered, x)
  {
    forall x
      ensures Count(s.triggered, x) + Count(s.batch, x) == Count(s.accepted, x)
      ensures Count(Targets(s.calls), x) <= Count(s.triggered, x)
    {
      CountsOf(s, x);
      assert (multiset(s.triggered) + multiset(s.batch))[x] == multiset(s.accepted)[x];
    }
  }

  lemma CountsAccounted(s: State)
    requires forall x :: Count(s.triggered, x) + Count(s.batch, x) == Count(s.accepted, x)
    requires forall x :: Count(Targets(s.calls), x) <= Count(s.triggered, x)
    ensures Accounted(s)
  {
    var pending := multiset(s.triggered) + multiset(s.batch);
    forall x
      ensures pending[x] == multiset(s.accepted)[x]
      ensures multiset(Targets(s.calls))[x] <= multiset(s.triggered)[x]
    {
      CountsOf(s, x);
    }
    assert pending == multiset(s.accepted);
  }

  // ----- a pass -----

  /** `unveil`: with nothing pending, unbind the listeners; otherwise trigger
      "unveil" on the matched elements in batch order (each one's handler commits
      its source and calls back) and take them out of the batch. */
  function Pass(s: State, doc: Document, vp: Viewport): State {
    if s.batch == [] then s.(initialised := false, visibilityBound := false)
    else
      var m := Matched(s.batch, doc, s.thresholds, vp);
      s.(batch := Remaining(s.batch, doc, s.thresholds, vp),
         handlers := s.handlers - Elements(m),
         src := CommitAll(s.src, m, s.handlers, doc),
         calls := s.calls + CallsOf(m, s.handlers, doc),
         triggered := s.triggered + m)
  }

  /** The elements a pass triggers "unveil" on, in batch order. */
  function Revealed(s: State, doc: Document, vp: Viewport): seq<ElementId> {
    if s.batch == [] then [] else Matched(s.batch, doc, s.thresholds, vp)
  }

  /** The completion callbacks a pass makes, in order. */
  function CallbacksOf(s: State, doc: Document, vp: Viewport): seq<Call> {
    CallsOf(Revealed(s, doc, vp), s.handlers, doc)
  }

  /** A pass only extends the records of triggers and of calls, and what it adds to
      the triggers is exactly what it takes out of the batch. */
  lemma PassAppends(s: State, doc: Document, vp: Viewport)
    ensures s.triggered <= Pass(s, doc, vp).triggered && s.calls <= Pass(s, doc, vp).calls
    ensures multiset(Pass(s, doc, vp).triggered) - multiset(s.triggered)
              == multiset(s.batch) - multiset(Pass(s, doc, vp).batch)
  {
    if s.batch != [] {
      var t := Pass(s, doc, vp);
      var m := Matched(s.batch, doc, s.thresholds, vp);
      RemainingSpec(s.batch, doc, s.thresholds, vp);
      assert multiset(t.triggered) == multiset(s.triggered) + multiset(m);
      assert multiset(s.batch) == multiset(t.batch) + multiset(m);
    }
  }

  lemma PassInv(s: State, doc: Document, vp: Viewport)
    requires Inv(s)
    ensures Inv(Pass(s, doc, vp))
  {
    PassPools(s, doc, vp);
    PassHistory(s, doc, vp);
  }

  lemma PassPools(s: State, doc: Document, vp: Viewport)
    requires Pools(s)
    ensures Pools(Pass(s, doc, vp))
  {
    if s.batch != [] {
      var t := Pass(s, doc, vp);
      MatchedSpec(s.batch, doc, s.thresholds, vp);
      RemainingSpec(s.batch, doc, s.thresholds, vp);
      SubsequenceNoDups(t.batch, s.batch);
      assert t.handlers.Keys == Elements(t.batch);
    }
  }

  lemma PassHistory(s: State, doc: Document, vp: Viewport)
    requires History(s)
    ensures History(Pass(s, doc, vp))
  {
    CountsAccounted(s);
    PassAccounted(s, doc, vp);
    AccountedCounts(Pass(s, doc, vp));
    if s.batch != [] {
      var m := Matched(s.batch, doc, s.thresholds, vp);
      CommitAllSpec(s.src, m, s.handlers, doc);
    }
  }

  /** A pass moves the matched elements from the batch to the triggered ones, and
      calls back only elements it triggers. */
  lemma PassAccounted(s: State, doc: Document, vp: Viewport)
    requires Accounted(s)
    ensures Accounted(Pass(s, doc, vp))
  {
    if s.batch != [] {
      var t := Pass(s, doc, vp);
      var m := Matched(s.batch, doc, s.thresholds, vp);
      RemainingSpec(s.batch, doc, s.thresholds, vp);
      assert multiset(t.triggered) == multiset(s.triggered) + multiset(m);
      TargetsAppend(s.calls, CallsOf(m, s.handlers, doc));
      CallsOfSpec(m, s.handlers, doc);
    }
  }

  /** The elements a pass triggers are distinct. */
  lemma MatchedDistinct(s: State, doc: Document, vp: Viewport)
    requires Inv(s)
    ensures NoDups(Matched(s.batch, doc, s.thresholds, vp))
  {
    MatchedSpec(s.batch, doc, s.thresholds, vp);
    SubsequenceNoDups(Matched(s.batch, doc, s.thresholds, vp), s.batch);
  }

  /** A pass removes exactly the matched elements from the batch and keeps the
      others in their order, so the batch never grows; it triggers exactly the
      matched ones, in batch order. */
  lemma PassShrinksBatch(s: State, doc: Document, vp: Viewport)
    ensures forall x :: x in Pass(s, doc, vp).batch <==> x in s.batch && !Matches(x, doc, s.thresholds, vp)
    ensures Subsequence(Pass(s, doc, vp).batch, s.batch)
    ensures |Pass(s, doc, vp).batch| <= |s.batch|
    ensures forall x :: x in Revealed(s, doc, vp) <==> x in s.batch && Matches(x, doc, s.thresholds, vp)
  {
    if s.batch != [] {
      MatchedSpec(s.batch, doc, s.thresholds, vp);
      RemainingSpec(s.batch, doc, s.thresholds, vp);
    }
  }

  /** A pass over an empty batch unbinds the listeners and reveals nothing. */
  lemma EmptyPassDetaches(s: State, doc: Document, vp: Viewport)
    requires s.batch == []
    ensures !Pass(s, doc, vp).initialised && !Pass(s, doc, vp).visibilityBound
    ensures Pass(s, doc, vp).triggered == s.triggered && Pass(s, doc, vp).src == s.src
    ensures Pass(s, doc, vp).calls == s.calls
  {
  }

  /** A matched element with a source has it committed, and its callback, if it
      has one, is called once; a matched element without a source keeps its `src`
      and is not called back. */
  lemma PassCommitsMatched(s: State, doc: Document, vp: Viewport, x: ElementId)
    requires Inv(s) && x in s.batch && Matches(x, doc, s.thresholds, vp)
    ensures var h := s.handlers[x];
            var source := SelectSource(h.tags, doc[x].attrs);
            var t := Pass(s, doc, vp);
            (source.Some? ==> x in t.src && t.src[x] == source.value) &&
            (source.None? ==> (x in t.src <==> x in s.src) && (x in s.src ==> t.src[x] == s.src[x])) &&
            (source.Some? && h.callback.Some? ==> Call(h.callback.value, x) in CallbacksOf(s, doc, vp)) &&
            (source.None? || h.callback.None? ==> forall c :: c in CallbacksOf(s, doc, vp) ==> c.element != x)
  {
    var m := Matched(s.batch, doc, s.thresholds, vp);
    MatchedSpec(s.batch, doc, s.thresholds, vp);
    CommitAllSpec(s.src, m, s.handlers, doc);
    CallsOfSpec(m, s.handlers, doc);
  }

  /** An element revealed by one pass is not revealed by the next one: its handler
      and its place in the batch are gone. */
  lemma NextPassSkipsRevealed(s: State, d1: Document, v1: Viewport, d2: Document, v2: Viewport, x: ElementId)
    requires Inv(s)
    requires x in Revealed(s, d1, v1)
    ensures x !in Revealed(Pass(s, d1, v1), d2, v2)
  {
    var s1 := Pass(s, d1, v1);
    PassShrinksBatch(s, d1, v1);
    PassShrinksBatch(s1, d2, v2);
  }

  /** However many passes run, an element is triggered, has its source committed
      and is called back no more often than it was accepted; an element never
      accepted is never triggered. */
  lemma AtMostOncePerRegistration(s: State, x: ElementId)
    requires Inv(s)
    ensures multiset(s.triggered)[x] <= multiset(s.accepted)[x]
    ensures multiset(Targets(s.calls))[x] <= multiset(s.accepted)[x]
    ensures x in s.src ==> x in s.accepted
    ensures x !in s.accepted ==> x !in s.triggered
  {
    CountsAccounted(s);
    assert multiset(s.triggered)[x] + multiset(s.batch)[x] == multiset(s.accepted)[x];
  }

  // ----- frame coalescing and the listeners -----

  /** `throttle`: request a frame unless one is already requested. */
  function Throttle(s: State): State {
    s.(ticking := true, frames := if s.ticking then s.frames else s.frames + 1)
  }

  /** A scroll, resize or "lookup" event on the window: delivered to `throttle`
      only while the listeners are bound. */
  function ViewportEvent(s: State): State {
    if s.initialised then Throttle(s) else s
  }

  /** `n` viewport events in a row, before any frame runs. */
  function ViewportEvents(s: State, n: nat): State
    decreases n
  {
    if n == 0 then s else ViewportEvents(ViewportEvent(s), n - 1)
  }

  /** `lookup`, the requested frame running: one pass, then `ticking` is cleared. */
  function Lookup(s: State, doc: Document, vp: Viewport): State
    requires s.frames > 0
  {
    Pass(s, doc, vp).(ticking := false, frames := s.frames - 1)
  }

  /** The visibility-change handler: when the document is visible again, a pass
      runs at once, outside the frame coalescing. */
  function VisibilityChange(s: State, hidden: bool, doc: Document, vp: Viewport): State {
    if s.visibilityBound && !hidden then Pass(s, doc, vp) else s
  }

  lemma SchedulingInv(s: State, hidden: bool, doc: Document, vp: Viewport)
    requires Inv(s)
    ensures Inv(Throttle(s)) && Inv(ViewportEvent(s))
    ensures s.frames > 0 ==> Inv(Lookup(s, doc, vp))
    ensures Inv(VisibilityChange(s, hidden, doc, vp))
  {
    PassInv(s, doc, vp);
  }

  /** A burst of `n >= 1` viewport events while the listeners are bound requests
      exactly one frame and changes nothing else; with the listeners unbound it
      changes nothing at all. */
  lemma {:induction false} BurstRequestsOneFrame(s: State, n: nat)
    requires Inv(s)
    ensures s.initialised && n >= 1 ==> ViewportEvents(s, n) == s.(ticking := true, frames := 1)
    ensures !s.initialised || n == 0 ==> ViewportEvents(s, n) == s
    decreases n
  {
    if n > 0 {
      if s.initialised {
        var t := ViewportEvent(s);
        assert t == s.(ticking := true, frames := 1);
        assert Inv(t);
        BurstRequestsOneFrame(t, n - 1);
      } else {
        BurstRequestsOneFrame(s, n - 1);
      }
    }
  }

  /** The frame a burst requested runs one pass, after which no frame is pending:
      `n` triggers before the frame give exactly one pass. */
  lemma BurstThenFrameIsOnePass(s: State, n: nat, doc: Document, vp: Viewport)
    requires Inv(s) && s.initialised && n >= 1
    ensures ViewportEvents(s, n).frames == 1
    ensures Lookup(ViewportEvents(s, n), doc, vp) == Pass(s, doc, vp).(ticking := false, frames := 0)
  {
    BurstRequestsOneFrame(s, n);
  }

  /** Once a pass has emptied the batch the listeners stay bound until the next
      frame, whose pass finds nothing pending and unbinds them; from then on
      viewport events do nothing. */
  lemma DrainedPoolDetachesOnNextFrame(s: State, doc: Document, vp: Viewport)
    requires Inv(s) && s.initialised && s.batch == [] && !s.ticking
    ensures ViewportEvent(s).frames == 1
    ensures var t := Lookup(ViewportEvent(s), doc, vp);
            !t.initialised && t.triggered == s.triggered && t.frames == 0 && ViewportEvent(t) == t
  {
  }

  /** A visibility change to visible runs a pass even while a frame is pending,
      and leaves the pending frame in place. */
  lemma VisibilityRegainedBypassesTicking(s: State, doc: Document, vp: Viewport)
    requires Inv(s) && s.visibilityBound && s.ticking
    ensures VisibilityChange(s, false, doc, vp).ticking && VisibilityChange(s, false, doc, vp).frames == 1
    ensures VisibilityChange(s, false, doc, vp).triggered == s.triggered + Matched(s.batch, doc, s.thresholds, vp)
    ensures VisibilityChange(s, true, doc, vp) == s
  {
  }

  /** The delay of the timer that stands in for a missing frame primitive: the next
      frame is due 16ms after the previous one, or at once if that time has passed. */
  function FallbackDelay(now: int, lastTime: int): (d: nat)
    ensures now >= lastTime ==> d <= 16
    ensures d == 0 <==> now - lastTime >= 16
    ensures d > 0 ==> now + d == lastTime + 16
  {
    if 16 - (now - lastTime) > 0 then 16 - (now - lastTime) else 0
  }

  // ----- registration -----

  /** `(threshold || 0) | 0`: a missing threshold is 0 (wrap-around out of int32
      range is not modelled). */
  function ThresholdOf(threshold: Option<int>): int {
    match threshold
    case None => 0
    case Some(t) => t
  }

  /** The registry after the pre-update: pruned only when it is not empty. */
  function PrunedImages(s: State, doc: Document): seq<ElementId> {
    if |s.images| > 0 then Prune(s.images, s.batch, doc) else s.images
  }

  /** The subset of `passed` a registration accepts and returns. */
  function Added(s: State, passed: seq<ElementId>, doc: Document): seq<ElementId> {
    Accept(passed, Elements(PrunedImages(s, doc)))
  }

  /** The bookkeeping of a registration, before its pass: write the threshold on
      every passed element, prune the registry, and bind a handler on each accepted
      element and append it to the registry and to the batch. */
  function Enroll(s: State, passed: seq<ElementId>, threshold: Option<int>, callback: Option<CallbackId>,
                  dpr: int, doc: Document): State
  {
    var added := Added(s, passed, doc);
    var h := Handler(TagsFor(dpr), callback);
    s.(thresholds := s.thresholds + (map x | x in passed :: ThresholdOf(threshold)),
       images := PrunedImages(s, doc) + added,
       handlers := s.handlers + (map x | x in added :: h),
       batch := s.batch + added,
       accepted := s.accepted + added)
  }

  /** Bind the listeners if they are not bound. */
  function Attach(s: State): State {
    if s.initialised then s else s.(initialised := true, visibilityBound := s.visibilityApi)
  }

  /** A registration: bookkeeping, listeners, then one immediate pass. */
  function Register(s: State, passed: seq<ElementId>, threshold: Option<int>, callback: Option<CallbackId>,
                    dpr: int, doc: Document, vp: Viewport): State
  {
    Pass(Attach(Enroll(s, passed, threshold, callback, dpr, doc)), doc, vp)
  }

  lemma NoDupsAppend(a: seq<ElementId>, b: seq<ElementId>)
    requires NoDups(a) && NoDups(b) && Elements(a) !! Elements(b)
    ensures NoDups(a + b)
  {
    forall i, j | 0 <= i < j < |a + b| ensures (a + b)[i] != (a + b)[j] {
      if i < |a| && j >= |a| {
        assert (a + b)[i] in Elements(a) && (a + b)[j] in Elements(b);
      }
    }
  }

  lemma PrunedImagesSpec(s: State, doc: Document)
    requires Inv(s)
    ensures forall x :: x in PrunedImages(s, doc) <==> x in s.images && (x in doc || x in s.batch)
    ensures NoDups(PrunedImages(s, doc))
    ensures Elements(s.batch) <= Elements(PrunedImages(s, doc))
  {
    PruneSpec(s.images, s.batch, doc);
  }

  /** The registry and the batch after the bookkeeping keep their invariants. */
  lemma EnrollSequences(s: State, passed: seq<ElementId>, doc: Document)
    requires Inv(s)
    ensures var pruned := PrunedImages(s, doc);
            var added := Added(s, passed, doc);
            NoDups(pruned + added) && NoDups(s.batch + added) &&
            Elements(s.batch + added) <= Elements(pruned + added) &&
            Elements(added) <= Elements(passed)
  {
    var pruned := PrunedImages(s, doc);
    var added := Added(s, passed, doc);
    PrunedImagesSpec(s, doc);
    AcceptSpec(passed, Elements(pruned));
    NoDupsAppend(pruned, added);
    NoDupsAppend(s.batch, added);
    assert Elements(s.batch + added) == Elements(s.batch) + Elements(added);
    assert Elements(pruned + added) == Elements(pruned) + Elements(added);
  }

  lemma EnrollInv(s: State, passed: seq<ElementId>, threshold: Option<int>, callback: Option<CallbackId>,
                  dpr: int, doc: Document)
    requires Inv(s)
    ensures Inv(Enroll(s, passed, threshold, callback, dpr, doc))
  {
    var t := Enroll(s, passed, threshold, callback, dpr, doc);
    var added := Added(s, passed, doc);
    CountsAccounted(s);
    EnrollSequences(s, passed, doc);
    assert t.handlers.Keys == s.handlers.Keys + Elements(added);
    assert t.thresholds.Keys == s.thresholds.Keys + Elements(passed);
    assert multiset(t.accepted) == multiset(s.accepted) + multiset(added);
    assert multiset(t.batch) == multiset(s.batch) + multiset(added);
    AccountedCounts(t);
  }

  lemma RegisterInv(s: State, passed: seq<ElementId>, threshold: Option<int>, callback: Option<CallbackId>,
                    dpr: int, doc: Document, vp: Viewport)
    requires Inv(s)
    ensures Inv(Register(s, passed, threshold, callback, dpr, doc, vp))
  {
    EnrollInv(s, passed, threshold, callback, dpr, doc);
    PassInv(Attach(Enroll(s, passed, threshold, callback, dpr, doc)), doc, vp);
  }

  /** A registration accepts, in the order passed and each once, exactly the passed
      elements that are neither pending nor registered and still attached; so a
      pending or a registered and attached element is never accepted again, while
      an element pruned after being revealed can be. */
  lemma RegisterAccepts(s: State, passed: seq<ElementId>, doc: Document)
    requires Inv(s)
    ensures forall x :: x in Added(s, passed, doc) <==>
              x in passed && x !in s.batch && !(x in s.images && x in doc)
    ensures Subsequence(Added(s, passed, doc), passed) && NoDups(Added(s, passed, doc))
  {
    PrunedImagesSpec(s, doc);
    AcceptSpec(passed, Elements(PrunedImages(s, doc)));
  }

  /** Every passed element gets the threshold, accepted or not; the accepted ones
      get a handler carrying the buckets for `dpr` and the callback, and are in the
      registry afterwards. */
  lemma RegisterWritesThresholdAndBinds(s: State, passed: seq<ElementId>, threshold: Option<int>,
                                        callback: Option<CallbackId>, dpr: int, doc: Document, vp: Viewport)
    requires Inv(s)
    ensures var t := Register(s, passed, threshold, callback, dpr, doc, vp);
            (forall x :: x in passed ==> x in t.thresholds && t.thresholds[x] == ThresholdOf(threshold)) &&
            (forall x :: x in Added(s, passed, doc) ==> x in t.images) &&
            (forall x :: x in Added(s, passed, doc) && x in t.batch ==>
               x in t.handlers && t.handlers[x] == Handler(TagsFor(dpr), callback))
  {
    var e := Enroll(s, passed, threshold, callback, dpr, doc);
    EnrollBinds(s, passed, threshold, callback, dpr, doc);
    PassKeepsPending(Attach(e), doc, vp);
  }

  /** What the bookkeeping writes on the passed and on the accepted elements. */
  lemma EnrollBinds(s: State, passed: seq<ElementId>, threshold: Option<int>, callback: Option<CallbackId>,
                    dpr: int, doc: Document)
    ensures var e := Enroll(s, passed, threshold, callback, dpr, doc);
            (forall x :: x in passed ==> x in e.thresholds && e.thresholds[x] == ThresholdOf(threshold)) &&
            (forall x :: x in Added(s, passed, doc) ==> x in e.images) &&
            (forall x :: x in Added(s, passed, doc) ==>
               x in e.handlers && e.handlers[x] == Handler(TagsFor(dpr), callback))
  {
  }

  /** A pass changes neither the registry nor the thresholds, and an element still
      pending after it keeps its handler. */
  lemma PassKeepsPending(s: State, doc: Document, vp: Viewport)
    ensures Pass(s, doc, vp).images == s.images && Pass(s, doc, vp).thresholds == s.thresholds
    ensures forall x :: x in Pass(s, doc, vp).batch && x in s.handlers ==>
              x in Pass(s, doc, vp).handlers && Pass(s, doc, vp).handlers[x] == s.handlers[x]
  {
    if s.batch != [] {
      MatchedSpec(s.batch, doc, s.thresholds, vp);
      RemainingSpec(s.batch, doc, s.thresholds, vp);
    }
  }

  /** A registration leaves the listeners bound exactly when something is pending
      after its bookkeeping; the visibility listener is bound along with them only
      where the visibility API exists. */
  lemma RegisterAttaches(s: State, passed: seq<ElementId>, threshold: Option<int>, callback: Option<CallbackId>,
                         dpr: int, doc: Document, vp: Viewport)
    requires Inv(s)
    ensures var t := Register(s, passed, threshold, callback, dpr, doc, vp);
            var pending := s.batch + Added(s, passed, doc);
            t.initialised == (pending != []) &&
            t.visibilityBound == (pending != [] && s.visibilityApi)
  {
  }

  /** Registering the same elements twice in a row accepts nothing the second time. */
  lemma RegisterTwiceAcceptsNothing(s: State, passed: seq<ElementId>, threshold: Option<int>,
                                    callback: Option<CallbackId>, dpr: int, doc: Document, vp: Viewport)
    requires Inv(s)
    ensures Added(Register(s, passed, threshold, callback, dpr, doc, vp), passed, doc) == []
  {
    var e := Enroll(s, passed, threshold, callback, dpr, doc);
    var t := Register(s, passed, threshold, callback, dpr, doc, vp);
    var added := Added(s, passed, doc);
    RegisterInv(s, passed, threshold, callback, dpr, doc, vp);
    PrunedImagesSpec(s, doc);
    AcceptSpec(passed, Elements(PrunedImages(s, doc)));
    PassShrinksBatch(Attach(e), doc, vp);
    PrunedImagesSpec(t, doc);
    forall x | x in passed ensures x in Elements(PrunedImages(t, doc)) {
      assert x in t.images;
      if x !in doc {
        // a detached element cannot match, so it is still pending if it was
        assert x in e.batch;
      }
    }
    AcceptKnownIsEmpty(passed, Elements(PrunedImages(t, doc)));
  }

  /** An element registered twice while detached: as written, the second
      registration prunes it from the registry and accepts it again (a second
      handler); with the corrected rules the second registration accepts nothing. */
  lemma DetachedRegisteredTwice(api: bool, e: ElementId, threshold: Option<int>, callback: Option<CallbackId>,
                                dpr: int, doc: Document, vp: Viewport)
    requires e !in doc
    ensures var s1 := Register(Initial(api), [e], threshold, callback, dpr, doc, vp);
            Added(Initial(api), [e], doc) == [e] &&
            s1.images == [e] && s1.batch == [e] &&
            FilterAsWritten([e], PruneAsWritten(s1.images, doc)) == [e] &&
            Added(s1, [e], doc) == []
  {
    var s0 := Initial(api);
    var one := [e];
    assert one[0] == e && one[1..] == [];
    assert Accept(one, {}) == [e];
    assert PrunedImages(s0, doc) == [] && Elements(PrunedImages(s0, doc)) == {};
    assert Added(s0, one, doc) == one;
    var e1 := Enroll(s0, one, threshold, callback, dpr, doc);
    assert e1.images == [e] && e1.batch == [e];
    var a := Attach(e1);
    assert a.batch == one && !Matches(e, doc, a.thresholds, vp);
    var s1 := Register(s0, one, threshold, callback, dpr, doc, vp);
    assert Matched(a.batch, doc, a.thresholds, vp) == [];
    assert Drop(one, {}) == one;
    assert s1.images == one && s1.batch == one;
    assert Keep(one, doc.Keys) == [];
    assert Keep(one, doc.Keys + {e}) == one;
    assert Elements(one) == {e};
    assert Accept(one, {e}) == [];
  }
}
