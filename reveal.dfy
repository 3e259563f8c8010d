/** Source selection for an element that has come into view: the first density
    bucket with a non-empty `data-src-<bucket>` attribute wins, otherwise
    `data-src`; an absent attribute and an empty one are alike. */
module Reveal {
  import opened Density

  datatype Option<T> = None | Some(value: T)

  /** Identifies a completion callback passed at registration. */
  type CallbackId = nat

  /** What a registration binds on each element it accepts, as the one-shot
      "unveil" handler: the buckets resolved at that moment and the callback, if
      one was given. */
  datatype Handler = Handler(tags: seq<Tag>, callback: Option<CallbackId>)

  const DEFAULT_ATTR: string := "data-src"

  function AttrName(t: Tag): string {
    DEFAULT_ATTR + "-" + t.Name()
  }

  /** The attribute's value, with an absent attribute read as the empty string. */
  function Attr(attrs: map<string, string>, name: string): string {
    if name in attrs then attrs[name] else ""
  }

  /** The value of the first bucket in `tags` whose attribute is non-empty. */
  function DensitySource(tags: seq<Tag>, attrs: map<string, string>): Option<string> {
    if tags == [] then None
    else if Attr(attrs, AttrName(tags[0])) != "" then Some(Attr(attrs, AttrName(tags[0])))
    else DensitySource(tags[1..], attrs)
  }

  /** The source committed for an element with attributes `attrs` on a device that
      falls in buckets `tags`; `None` when there is none to commit. */
  function SelectSource(tags: seq<Tag>, attrs: map<string, string>): Option<string> {
    match DensitySource(tags, attrs)
    case Some(s) => Some(s)
    case None => if Attr(attrs, DEFAULT_ATTR) != "" then Some(Attr(attrs, DEFAULT_ATTR)) else None
  }

  /** The bucket at `k` is the first one with a non-empty attribute. */
  ghost predicate FirstWithSource(tags: seq<Tag>, attrs: map<string, string>, k: int) {
    0 <= k < |tags| && Attr(attrs, AttrName(tags[k])) != "" &&
    forall j :: 0 <= j < k ==> Attr(attrs, AttrName(tags[j])) == ""
  }

  lemma {:induction false} DensitySourceSpec(tags: seq<Tag>, attrs: map<string, string>)
    ensures DensitySource(tags, attrs).None? <==>
              forall j :: 0 <= j < |tags| ==> Attr(attrs, AttrName(tags[j])) == ""
    ensures forall k :: FirstWithSource(tags, attrs, k) ==>
              DensitySource(tags, attrs) == Some(Attr(attrs, AttrName(tags[k])))
  {
    if tags != [] {
      DensitySourceSpec(tags[1..], attrs);
      if Attr(attrs, AttrName(tags[0])) == "" {
        forall k | FirstWithSource(tags, attrs, k)
          ensures DensitySource(tags, attrs) == Some(Attr(attrs, AttrName(tags[k])))
        {
          assert k > 0;
          assert FirstWithSource(tags[1..], attrs, k - 1) by {
            forall j | 0 <= j < k - 1 ensures Attr(attrs, AttrName(tags[1..][j])) == "" {
              assert tags[1..][j] == tags[j + 1];
            }
          }
        }
        if DensitySource(tags, attrs).None? {
          forall j | 0 <= j < |tags| ensures Attr(attrs, AttrName(tags[j])) == "" {
            if j > 0 { assert tags[j] == tags[1..][j - 1]; }
          }
        }
      } else {
        assert forall k :: FirstWithSource(tags, attrs, k) ==> k == 0;
      }
    }
  }

  /** The density source has priority: the first bucket, in resolved order, whose
      attribute is non-empty is the one committed. */
  lemma FirstDensityWins(tags: seq<Tag>, attrs: map<string, string>, k: int)
    requires FirstWithSource(tags, attrs, k)
    ensures SelectSource(tags, attrs) == Some(Attr(attrs, AttrName(tags[k])))
  {
    DensitySourceSpec(tags, attrs);
  }

  /** With no bucket attribute set, `data-src` is committed if it is non-empty,
      and nothing is committed otherwise. */
  lemma DefaultSourceFallback(tags: seq<Tag>, attrs: map<string, string>)
    requires forall j :: 0 <= j < |tags| ==> Attr(attrs, AttrName(tags[j])) == ""
    ensures SelectSource(tags, attrs) ==
              if Attr(attrs, DEFAULT_ATTR) != "" then Some(Attr(attrs, DEFAULT_ATTR)) else None
  {
    DensitySourceSpec(tags, attrs);
  }

  /** A source exists exactly when some bucket attribute or `data-src` is non-empty,
      and a committed source is never the empty string. */
  lemma SourceExistsIff(tags: seq<Tag>, attrs: map<string, string>)
    ensures SelectSource(tags, attrs).Some? <==>
              (exists j :: 0 <= j < |tags| && Attr(attrs, AttrName(tags[j])) != "") ||
              Attr(attrs, DEFAULT_ATTR) != ""
    ensures SelectSource(tags, attrs).Some? ==> SelectSource(tags, attrs).value != ""
  {
    DensitySourceSpec(tags, attrs);
    if exists j :: 0 <= j < |tags| && Attr(attrs, AttrName(tags[j])) != "" {
      var k := FirstIndex(tags, attrs);
      FirstDensityWins(tags, attrs, k);
    }
  }

  /** The least index whose bucket attribute is non-empty. */
  lemma FirstIndex(tags: seq<Tag>, attrs: map<string, string>) returns (k: int)
    requires exists j :: 0 <= j < |tags| && Attr(attrs, AttrName(tags[j])) != ""
    ensures FirstWithSource(tags, attrs, k)
  {
    k := 0;
    while Attr(attrs, AttrName(tags[k])) == ""
      invariant 0 <= k < |tags|
      invariant forall j :: 0 <= j < k ==> Attr(attrs, AttrName(tags[j])) == ""
      invariant exists j :: k <= j < |tags| && Attr(attrs, AttrName(tags[j])) != ""
      decreases |tags| - k
    {
      k := k + 1;
    }
  }

  /** On a device in both `xhdpi` and `retina`, an element carrying `data-src-xhdpi`
      and `data-src` is given the `xhdpi` source, never the default. */
  lemma DensityPriorityScenario()
    ensures SelectSource(TagsFor(200), map["data-src-xhdpi" := "b@2x.jpg", "data-src" := "b.jpg"])
              == Some("b@2x.jpg")
  {
    assert TagsFor(200) == [Xhdpi, Retina];
    var attrs := map["data-src-xhdpi" := "b@2x.jpg", "data-src" := "b.jpg"];
    assert AttrName(Xhdpi) == "data-src-xhdpi";
    assert Attr(attrs, AttrName(Xhdpi)) == "b@2x.jpg";
  }
}
