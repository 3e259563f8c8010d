/** The pool bookkeeping of the plugin as functions on values: pruning the
    registry of elements that left the document, the duplicate filter of a
    registration, the matches of a pass, and what firing the matched elements'
    one-shot handlers writes. */
module Pool {
  import opened Seqs
  import opened Geometry
  import opened Reveal

  /** One invocation of a completion callback, with the element it was called on. */
  datatype Call = Call(callback: CallbackId, element: ElementId)

  // ----- pruning the registry -----

  /** `updatePool` as written: keeps the registry entries still attached to the
      document, dropping detached ones even while they are still pending. */
  function PruneAsWritten(images: seq<ElementId>, doc: Document): seq<ElementId> {
    Keep(images, doc.Keys)
  }

  /** `updatePool` corrected: keeps the registry entries still attached to the
      document and those still pending in `batch`, so that a pending element keeps
      blocking a second registration (and a second handler) while it is detached. */
  function Prune(images: seq<ElementId>, batch: seq<ElementId>, doc: Document): seq<ElementId> {
    Keep(images, doc.Keys + Elements(batch))
  }

  /** Pruning keeps, in their original order, exactly the entries that are attached
      or pending, and adds no repetition. */
  lemma PruneSpec(images: seq<ElementId>, batch: seq<ElementId>, doc: Document)
    ensures forall x :: x in Prune(images, batch, doc) <==> x in images && (x in doc || x in batch)
    ensures Subsequence(Prune(images, batch, doc), images)
    ensures NoDups(images) ==> NoDups(Prune(images, batch, doc))
  {
    KeepSpec(images, doc.Keys + Elements(batch));
    if NoDups(images) {
      SubsequenceNoDups(Prune(images, batch, doc), images);
    }
  }

  /** As written, pruning keeps, in their original order, exactly the entries still
      attached to the document. */
  lemma PruneAsWrittenSpec(images: seq<ElementId>, doc: Document)
    ensures forall x :: x in PruneAsWritten(images, doc) <==> x in images && x in doc
    ensures Subsequence(PruneAsWritten(images, doc), images)
  {
    KeepSpec(images, doc.Keys);
  }

  /** With nothing pending, the corrected pruning is the one written. */
  lemma PruneWithoutPendingIsAsWritten(images: seq<ElementId>, doc: Document)
    ensures Prune(images, [], doc) == PruneAsWritten(images, doc)
  {
    var none: seq<ElementId> := [];
    assert doc.Keys + Elements(none) == doc.Keys;
  }

  // ----- the duplicate filter of a registration -----

  /** The filter as written: every passed element that is not in the registry,
      repetitions in `passed` included. */
  function FilterAsWritten(passed: seq<ElementId>, images: seq<ElementId>): seq<ElementId> {
    Drop(passed, Elements(images))
  }

  /** The filter corrected: every passed element that is not in `known`, each
      taken once, at its first occurrence. */
  function Accept(passed: seq<ElementId>, known: set<ElementId>): seq<ElementId> {
    if passed == [] then []
    else if passed[0] in known then Accept(passed[1..], known)
    else [passed[0]] + Accept(passed[1..], known + {passed[0]})
  }

  /** The accepted elements are exactly the passed ones not yet known, in the order
      they were passed, each once. */
  lemma {:induction false} AcceptSpec(passed: seq<ElementId>, known: set<ElementId>)
    ensures forall x :: x in Accept(passed, known) <==> x in passed && x !in known
    ensures Subsequence(Accept(passed, known), passed)
    ensures NoDups(Accept(passed, known))
  {
    if passed != [] {
      var p := passed[0];
      assert passed == [p] + passed[1..];
      if p in known {
        AcceptSpec(passed[1..], known);
        SubsequenceOfTail(Accept(passed[1..], known), p, passed[1..]);
      } else {
        var rest := Accept(passed[1..], known + {p});
        AcceptSpec(passed[1..], known + {p});
        assert ([p] + rest)[1..] == rest;
        assert p !in rest;
      }
    }
  }

  /** Passing only known elements accepts nothing. */
  lemma {:induction false} AcceptKnownIsEmpty(passed: seq<ElementId>, known: set<ElementId>)
    requires forall x :: x in passed ==> x in known
    ensures Accept(passed, known) == []
  {
    if passed != [] {
      AcceptKnownIsEmpty(passed[1..], known);
    }
  }

  /** On a list without repetitions the corrected filter is the one written. */
  lemma {:induction false} AcceptAgreesWithFilterOnDistinct(passed: seq<ElementId>, images: seq<ElementId>, known: set<ElementId>)
    requires NoDups(passed) && Elements(images) <= known
    requires forall x :: x in passed ==> (x in known <==> x in images)
    ensures Accept(passed, known) == FilterAsWritten(passed, images)
  {
    if passed != [] {
      var p := passed[0];
      assert NoDups(passed[1..]);
      if p in known {
        AcceptAgreesWithFilterOnDistinct(passed[1..], images, known);
      } else {
        assert p !in passed[1..];
        AcceptAgreesWithFilterOnDistinct(passed[1..], images, known + {p});
      }
    }
  }

  /** As written, a pending element that is detached when a later registration
      prunes the registry drops out of it; registering that element again passes
      the filter, although it still holds the one-shot handler bound the first time
      and is still in the pending batch. A second handler is then bound beside the
      first, and the pass that reveals it fires both. */
  lemma AsWrittenReacceptsDetachedPending(images: seq<ElementId>, batch: seq<ElementId>, doc: Document, e: ElementId)
    requires e in images && e in batch && e !in doc
    ensures e in FilterAsWritten([e], PruneAsWritten(images, doc))
    ensures Accept([e], Elements(Prune(images, batch, doc))) == []
  {
    KeepSpec(images, doc.Keys);
    DropSpec([e], Elements(PruneAsWritten(images, doc)));
    PruneSpec(images, batch, doc);
    AcceptKnownIsEmpty([e], Elements(Prune(images, batch, doc)));
  }

  /** As written, an element passed twice in one collection passes the filter twice:
      it is pushed onto the registry twice and gets two one-shot handlers. */
  lemma AsWrittenAcceptsRepeatedElement(images: seq<ElementId>, e: ElementId)
    requires e !in images
    ensures FilterAsWritten([e, e], images) == [e, e]
    ensures Accept([e, e], Elements(images)) == [e]
  {
    assert e !in Elements(images);
    assert [e, e][1..] == [e] && [e][1..] == [];
    assert Drop([e], Elements(images)) == [e];
    assert Accept([e], Elements(images) + {e}) == [];
  }

  // ----- one pass -----

  /** An element of the batch that the in-view test selects: attached, with its
      threshold recorded, and in view. */
  predicate Matches(id: ElementId, doc: Document, thresholds: map<ElementId, int>, vp: Viewport) {
    id in doc && id in thresholds && InView(doc[id], thresholds[id], vp)
  }

  /** The batch entries a pass reveals, in batch order. */
  function Matched(batch: seq<ElementId>, doc: Document, thresholds: map<ElementId, int>, vp: Viewport): seq<ElementId> {
    if batch == [] then []
    else if Matches(batch[0], doc, thresholds, vp) then [batch[0]] + Matched(batch[1..], doc, thresholds, vp)
    else Matched(batch[1..], doc, thresholds, vp)
  }

  /** The batch left after a pass: the old batch with the matched entries taken out. */
  function Remaining(batch: seq<ElementId>, doc: Document, thresholds: map<ElementId, int>, vp: Viewport): seq<ElementId> {
    Drop(batch, Elements(Matched(batch, doc, thresholds, vp)))
  }

  lemma {:induction false} MatchedSpec(batch: seq<ElementId>, doc: Document, thresholds: map<ElementId, int>, vp: Viewport)
    ensures forall x :: x in Matched(batch, doc, thresholds, vp) <==> x in batch && Matches(x, doc, thresholds, vp)
    ensures Subsequence(Matched(batch, doc, thresholds, vp), batch)
  {
    if batch != [] {
      MatchedSpec(batch[1..], doc, thresholds, vp);
      var rest := Matched(batch[1..], doc, thresholds, vp);
      assert batch == [batch[0]] + batch[1..];
      if Matches(batch[0], doc, thresholds, vp) {
        assert ([batch[0]] + rest)[1..] == rest;
      } else {
        SubsequenceOfTail(rest, batch[0], batch[1..]);
      }
    }
  }

  /** Removing a set that agrees with the in-view test on the batch splits the batch
      into what stays and what is revealed. */
  lemma {:induction false} PartitionByMatches(batch: seq<ElementId>, s: set<ElementId>, doc: Document, thresholds: map<ElementId, int>, vp: Viewport)
    requires forall x :: x in batch ==> (x in s <==> Matches(x, doc, thresholds, vp))
    ensures multiset(Drop(batch, s)) + multiset(Matched(batch, doc, thresholds, vp)) == multiset(batch)
  {
    if batch != [] {
      PartitionByMatches(batch[1..], s, doc, thresholds, vp);
      assert batch == [batch[0]] + batch[1..];
    }
  }

  /** A pass takes out exactly the matched entries and leaves the rest in order:
      the batch never grows, and nothing leaves it unrevealed. */
  lemma RemainingSpec(batch: seq<ElementId>, doc: Document, thresholds: map<ElementId, int>, vp: Viewport)
    ensures forall x :: x in Remaining(batch, doc, thresholds, vp) <==> x in batch && !Matches(x, doc, thresholds, vp)
    ensures Subsequence(Remaining(batch, doc, thresholds, vp), batch)
    ensures |Remaining(batch, doc, thresholds, vp)| <= |batch|
    ensures multiset(Remaining(batch, doc, thresholds, vp)) + multiset(Matched(batch, doc, thresholds, vp))
              == multiset(batch)
  {
    var m := Matched(batch, doc, thresholds, vp);
    MatchedSpec(batch, doc, thresholds, vp);
    DropSpec(batch, Elements(m));
    PartitionByMatches(batch, Elements(m), doc, thresholds, vp);
  }

  // ----- firing the one-shot handlers -----

  /** The source the handler bound on `id` commits, if `id` has one and is attached. */
  function SourceOf(id: ElementId, handlers: map<ElementId, Handler>, doc: Document): Option<string> {
    if id in handlers && id in doc then SelectSource(handlers[id].tags, doc[id].attrs) else None
  }

  /** The committed `src` attributes after firing the handler of `id`. */
  function Commit(src: map<ElementId, string>, id: ElementId, handlers: map<ElementId, Handler>, doc: Document): map<ElementId, string> {
    match SourceOf(id, handlers, doc)
    case Some(s) => src[id := s]
    case None => src
  }

  /** The callback invocation firing the handler of `id` makes, if any. */
  function CallOf(id: ElementId, handlers: map<ElementId, Handler>, doc: Document): seq<Call> {
    if SourceOf(id, handlers, doc).Some? && id in handlers && handlers[id].callback.Some?
    then [Call(handlers[id].callback.value, id)]
    else []
  }

  /** The committed `src` attributes after firing the handlers of `ids` in order. */
  function CommitAll(src: map<ElementId, string>, ids: seq<ElementId>, handlers: map<ElementId, Handler>, doc: Document): map<ElementId, string>
    decreases |ids|
  {
    if ids == [] then src
    else Commit(CommitAll(src, ids[..|ids| - 1], handlers, doc), ids[|ids| - 1], handlers, doc)
  }

  /** The callback invocations firing the handlers of `ids` in order makes. */
  function CallsOf(ids: seq<ElementId>, handlers: map<ElementId, Handler>, doc: Document): seq<Call>
    decreases |ids|
  {
    if ids == [] then []
    else CallsOf(ids[..|ids| - 1], handlers, doc) + CallOf(ids[|ids| - 1], handlers, doc)
  }

  /** The elements the calls were made on, in call order. */
  function Targets(calls: seq<Call>): seq<ElementId> {
    seq(|calls|, i requires 0 <= i < |calls| => calls[i].element)
  }

  lemma TargetsAppend(a: seq<Call>, b: seq<Call>)
    ensures Targets(a + b) == Targets(a) + Targets(b)
  {
  }

  /** Firing commits the selected source of every fired element that has one, and
      leaves every other element's `src` as it was. */
  lemma {:induction false} CommitAllSpec(src: map<ElementId, string>, ids: seq<ElementId>, handlers: map<ElementId, Handler>, doc: Document)
    ensures forall x :: x in ids && SourceOf(x, handlers, doc).Some? ==>
              x in CommitAll(src, ids, handlers, doc) &&
              CommitAll(src, ids, handlers, doc)[x] == SourceOf(x, handlers, doc).value
    ensures forall x :: x !in ids || SourceOf(x, handlers, doc).None? ==>
              (x in CommitAll(src, ids, handlers, doc) <==> x in src) &&
              (x in src ==> CommitAll(src, ids, handlers, doc)[x] == src[x])
    ensures CommitAll(src, ids, handlers, doc).Keys <= src.Keys + Elements(ids)
    decreases |ids|
  {
    if ids != [] {
      var init := ids[..|ids| - 1];
      CommitAllSpec(src, init, handlers, doc);
      assert ids == init + [ids[|ids| - 1]];
    }
  }

  /** Every fired element whose handler commits a source and carries a callback is
      called back exactly once, and no other call is made. */
  lemma {:induction false} CallsOfSpec(ids: seq<ElementId>, handlers: map<ElementId, Handler>, doc: Document)
    ensures forall c :: c in CallsOf(ids, handlers, doc) <==> c.element in ids && CallOf(c.element, handlers, doc) == [c]
    ensures multiset(Targets(CallsOf(ids, handlers, doc))) <= multiset(ids)
    decreases |ids|
  {
    if ids != [] {
      var init := ids[..|ids| - 1];
      var last := ids[|ids| - 1];
      CallsOfSpec(init, handlers, doc);
      assert ids == init + [last];
      TargetsAppend(CallsOf(init, handlers, doc), CallOf(last, handlers, doc));
      assert Targets(CallOf(last, handlers, doc)) == if CallOf(last, handlers, doc) == [] then [] else [last];
    }
  }

  /** Firing the handlers of distinct elements one at a time, each with the
      handlers left by the earlier ones, is firing them all with the handlers
      they started with: one step of that fold. */
  lemma FireStep(src: map<ElementId, string>, m: seq<ElementId>, i: int, handlers: map<ElementId, Handler>, doc: Document)
    requires NoDups(m) && 0 <= i < |m|
    ensures Commit(CommitAll(src, m[..i], handlers, doc), m[i], handlers - Elements(m[..i]), doc)
              == CommitAll(src, m[..i + 1], handlers, doc)
    ensures CallsOf(m[..i], handlers, doc) + CallOf(m[i], handlers - Elements(m[..i]), doc)
              == CallsOf(m[..i + 1], handlers, doc)
    ensures handlers - Elements(m[..i]) - {m[i]} == handlers - Elements(m[..i + 1])
    ensures m[..i] + [m[i]] == m[..i + 1]
  {
    var p := m[..i + 1];
    assert p[..|p| - 1] == m[..i];
    assert m[i] !in Elements(m[..i]);
    assert Elements(p) == Elements(m[..i]) + {m[i]};
  }
}
