/** The plugin as the source runs it: one object holding the module-level state
    (`images`, `$batch`, `initialised`, `ticking`) together with what the plugin
    writes on elements and what it asks of the window (frame requests, listener
    bindings). Each method changes the fields step by step as the source does and
    is proved to end in the state the matching transition of `Engine` gives. */
module Plugin {
  import opened Seqs
  import opened Density
  import opened Geometry
  import opened Reveal
  import opened Pool
  import opened Engine

  class LazyLoader {
    const visibilityApi: bool
    var images: seq<ElementId>
    var batch: seq<ElementId>
    var handlers: map<ElementId, Handler>
    var thresholds: map<ElementId, int>
    var src: map<ElementId, string>
    var calls: seq<Call>
    var initialised: bool
    var visibilityBound: bool
    var ticking: bool
    var frames: nat
    ghost var accepted: seq<ElementId>
    ghost var triggered: seq<ElementId>

    /** The object's state as a value. */
    ghost function Abs(): State
      reads this
    {
      State(visibilityApi, images, batch, handlers, thresholds, src, calls, initialised, visibilityBound,
            ticking, frames, accepted, triggered)
    }

    ghost predicate Valid()
      reads this
    {
      Inv(Abs())
    }

    /** The state at load time; `visibilityApi` says whether the page visibility API
        was found. */
    constructor (visibilityApi: bool)
      ensures Valid() && Abs() == Initial(visibilityApi)
    {
      this.visibilityApi := visibilityApi;
      images, batch := [], [];
      handlers, thresholds, src := map[], map[], map[];
      calls := [];
      initialised, visibilityBound, ticking := false, false, false;
      frames := 0;
      accepted, triggered := [], [];
    }

    /** The one-shot "unveil" handler of `id` running: it is unbound, and if a
        source is found it is committed as `src` and the callback, if any, is called. */
    method Fire(id: ElementId, doc: Document)
      modifies this`handlers, this`src, this`calls, this`triggered
      ensures handlers == old(handlers) - {id}
      ensures src == Commit(old(src), id, old(handlers), doc)
      ensures calls == old(calls) + CallOf(id, old(handlers), doc)
      ensures triggered == old(triggered) + [id]
    {
      if id in handlers {
        var h := handlers[id];
        handlers := handlers - {id};
        if id in doc {
          var source := SelectSource(h.tags, doc[id].attrs);
          if source.Some? {
            src := src[id := source.value];
            if h.callback.Some? {
              calls := calls + [Call(h.callback.value, id)];
            }
          }
        }
      } else {
        assert handlers - {id} == handlers;
      }
      triggered := triggered + [id];
    }

    /** The loop of `unveil`: trigger "unveil" on each of the distinct elements
        `m`, in order. */
    method FireAll(m: seq<ElementId>, doc: Document)
      requires NoDups(m)
      modifies this`handlers, this`src, this`calls, this`triggered
      ensures handlers == old(handlers) - Elements(m)
      ensures src == CommitAll(old(src), m, old(handlers), doc)
      ensures calls == old(calls) + CallsOf(m, old(handlers), doc)
      ensures triggered == old(triggered) + m
    {
      for i := 0 to |m|
        invariant handlers == old(handlers) - Elements(m[..i])
        invariant src == CommitAll(old(src), m[..i], old(handlers), doc)
        invariant calls == old(calls) + CallsOf(m[..i], old(handlers), doc)
        invariant triggered == old(triggered) + m[..i]
      {
        FireStep(old(src), m, i, old(handlers), doc);
        Fire(m[i], doc);
      }
      assert m[..|m|] == m;
    }

    /** `unveil` on a non-empty batch: trigger the matched elements, then keep the
        others pending. */
    method Release(doc: Document, vp: Viewport)
      requires batch != [] && NoDups(Matched(batch, doc, thresholds, vp))
      modifies this
      ensures Abs() == Pass(old(Abs()), doc, vp)
    {
      var m := Matched(batch, doc, thresholds, vp);
      FireAll(m, doc);
      batch := Drop(batch, Elements(m));
    }

    /** `unveil`: one pass over the batch. */
    method Unveil(doc: Document, vp: Viewport)
      requires Valid()
      modifies this
      ensures Valid() && Abs() == Pass(old(Abs()), doc, vp)
    {
      ghost var s0 := Abs();
      PassInv(s0, doc, vp);
      if batch == [] {
        initialised := false;
        visibilityBound := false;
      } else {
        MatchedDistinct(s0, doc, vp);
        Release(doc, vp);
      }
    }

    /** `throttle`: request a frame running `lookup` unless one is requested. */
    method Throttle()
      requires Valid()
      modifies this
      ensures Valid() && Abs() == Engine.Throttle(old(Abs()))
    {
      if !ticking {
        frames := frames + 1;
      }
      ticking := true;
    }

    /** `lookup`: the requested frame runs one pass and clears `ticking`. Only the
        window calls it, for a frame that was requested. */
    method Lookup(doc: Document, vp: Viewport)
      requires Valid() && frames > 0
      modifies this
      ensures Valid() && Abs() == Engine.Lookup(old(Abs()), doc, vp)
    {
      ghost var s0 := Abs();
      Unveil(doc, vp);
      ticking := false;
      frames := frames - 1;
    }

    /** A scroll, resize or "lookup" event on the window. */
    method OnViewportEvent()
      requires Valid()
      modifies this
      ensures Valid() && Abs() == ViewportEvent(old(Abs()))
    {
      if initialised {
        Throttle();
      }
    }

    /** A visibility-change event; `hidden` is the document's hidden flag after it. */
    method OnVisibilityChange(hidden: bool, doc: Document, vp: Viewport)
      requires Valid()
      modifies this
      ensures Valid() && Abs() == VisibilityChange(old(Abs()), hidden, doc, vp)
    {
      if visibilityBound && !hidden {
        Unveil(doc, vp);
      }
    }

    /** `updatePool`: drop from the registry the elements that left the document,
        keeping those still pending. */
    method UpdatePool(doc: Document)
      modifies this`images
      ensures images == Prune(old(images), batch, doc)
    {
      images := Prune(images, batch, doc);
    }

    /** Store the threshold data item on every passed element. */
    method WriteThreshold(passed: seq<ElementId>, threshold: Option<int>)
      modifies this`thresholds
      ensures thresholds == old(thresholds) + (map x | x in passed :: ThresholdOf(threshold))
    {
      thresholds := thresholds + (map x | x in passed :: ThresholdOf(threshold));
    }

    /** Bind handler `h` on every element of `added` and append them to the
        registry and to the batch. */
    method Admit(added: seq<ElementId>, h: Handler)
      modifies this`handlers, this`images, this`batch, this`accepted
      ensures handlers == old(handlers) + (map x | x in added :: h)
      ensures images == old(images) + added
      ensures batch == old(batch) + added
      ensures accepted == old(accepted) + added
    {
      handlers := handlers + (map x | x in added :: h);
      images := images + added;
      batch := batch + added;
      accepted := accepted + added;
    }

    /** The bookkeeping of `$.fn.unveil`: returns the elements newly accepted. */
    method Enrol(passed: seq<ElementId>, threshold: Option<int>, callback: Option<CallbackId>,
                 dpr: int, doc: Document) returns (added: seq<ElementId>)
      modifies this`thresholds, this`images, this`handlers, this`batch, this`accepted
      ensures added == Added(old(Abs()), passed, doc)
      ensures var t := Enroll(old(Abs()), passed, threshold, callback, dpr, doc);
              thresholds == t.thresholds && images == t.images && handlers == t.handlers &&
              batch == t.batch && accepted == t.accepted
    {
      var screenDensity := GetDensity(dpr);
      WriteThreshold(passed, threshold);
      if |images| > 0 {
        UpdatePool(doc);
      }
      added := Accept(passed, Elements(images));
      Admit(added, Handler(screenDensity, callback));
    }

    /** `$.fn.unveil(threshold, callback)` on the elements `passed`, with the device
        pixel ratio `dpr` in hundredths: returns the elements newly accepted. */
    method Register(passed: seq<ElementId>, threshold: Option<int>, callback: Option<CallbackId>,
                    dpr: int, doc: Document, vp: Viewport) returns (added: seq<ElementId>)
      requires Valid()
      modifies this
      ensures Valid()
      ensures added == Added(old(Abs()), passed, doc)
      ensures Abs() == Engine.Register(old(Abs()), passed, threshold, callback, dpr, doc, vp)
    {
      ghost var s0 := Abs();
      EnrollInv(s0, passed, threshold, callback, dpr, doc);
      added := Enrol(passed, threshold, callback, dpr, doc);
      assert Abs() == Enroll(s0, passed, threshold, callback, dpr, doc);
      if !initialised {
        initialised := true;
        visibilityBound := visibilityApi;
      }
      Unveil(doc, vp);
    }
  }
}
