/** The density buckets and the resolver that maps the device pixel ratio to the
    buckets it falls in. Ratios are integer hundredths (1.33 is 133), which is
    what rounding the ratio to two decimals makes exact. */
module Density {
  import opened Seqs

  datatype Tag = Tvdpi | Hdpi | Xhdpi | Retina | Xxhdpi | Xxxhdpi {

    /** The bucket's key, used as the suffix of its `data-src-<key>` attribute. */
    function Name(): string {
      match this
      case Tvdpi => "tvdpi"
      case Hdpi => "hdpi"
      case Xhdpi => "xhdpi"
      case Retina => "retina"
      case Xxhdpi => "xxhdpi"
      case Xxxhdpi => "xxxhdpi"
    }

    /** The bucket's pixel ratio, in hundredths. */
    function Ratio(): nat {
      match this
      case Tvdpi => 133
      case Hdpi => 150
      case Xhdpi => 200
      case Retina => 200
      case Xxhdpi => 300
      case Xxxhdpi => 400
    }
  }

  /** The table in declaration order, which is the order the resolver visits it in. */
  const TABLE: seq<Tag> := [Tvdpi, Hdpi, Xhdpi, Retina, Xxhdpi, Xxxhdpi]

  /** The entries of `TABLE[k..]` whose ratio is `dpr`, in table order. */
  function TagsFrom(k: nat, dpr: int): seq<Tag>
    requires k <= |TABLE|
    decreases |TABLE| - k
  {
    if k == |TABLE| then []
    else if TABLE[k].Ratio() == dpr then [TABLE[k]] + TagsFrom(k + 1, dpr)
    else TagsFrom(k + 1, dpr)
  }

  /** The buckets a device with pixel ratio `dpr` (hundredths) belongs to. */
  function TagsFor(dpr: int): seq<Tag> {
    TagsFrom(0, dpr)
  }

  /** Scans the table once, appending every bucket whose ratio equals `dpr`. */
  method GetDensity(dpr: int) returns (ret: seq<Tag>)
    ensures ret == TagsFor(dpr)
  {
    ret := [];
    for i := 0 to |TABLE|
      invariant ret + TagsFrom(i, dpr) == TagsFor(dpr)
    {
      if TABLE[i].Ratio() == dpr {
        ret := ret + [TABLE[i]];
      }
    }
  }

  lemma {:induction false} TagsFromSpec(k: nat, dpr: int)
    requires k <= |TABLE|
    ensures forall t :: t in TagsFrom(k, dpr) <==> t in TABLE[k..] && t.Ratio() == dpr
    ensures Subsequence(TagsFrom(k, dpr), TABLE[k..])
    decreases |TABLE| - k
  {
    if k < |TABLE| {
      TagsFromSpec(k + 1, dpr);
      assert TABLE[k..] == [TABLE[k]] + TABLE[k + 1..];
      if TABLE[k].Ratio() != dpr {
        SubsequenceOfTail(TagsFrom(k + 1, dpr), TABLE[k], TABLE[k + 1..]);
      } else {
        assert ([TABLE[k]] + TagsFrom(k + 1, dpr))[1..] == TagsFrom(k + 1, dpr);
      }
    }
  }

  /** The resolver returns exactly the buckets whose ratio equals `dpr`, each once,
      in the order the table declares them. */
  lemma TagsForSpec(dpr: int)
    ensures forall t :: t in TagsFor(dpr) <==> t.Ratio() == dpr
    ensures Subsequence(TagsFor(dpr), TABLE)
    ensures NoDups(TagsFor(dpr))
  {
    TagsFromSpec(0, dpr);
    assert TABLE[0..] == TABLE;
    TableListsEveryTag();
    TableDistinct();
    SubsequenceNoDups(TagsFor(dpr), TABLE);
  }

  lemma TableListsEveryTag()
    ensures forall t: Tag :: t in TABLE
  {
    forall t: Tag ensures t in TABLE {
      match t
      case Tvdpi => assert TABLE[0] == t;
      case Hdpi => assert TABLE[1] == t;
      case Xhdpi => assert TABLE[2] == t;
      case Retina => assert TABLE[3] == t;
      case Xxhdpi => assert TABLE[4] == t;
      case Xxxhdpi => assert TABLE[5] == t;
    }
  }

  lemma TableDistinct()
    ensures NoDups(TABLE)
  {
  }

  /** A ratio of 2 falls in two buckets, listed in table order. */
  lemma RatioTwoIsXhdpiThenRetina()
    ensures TagsFor(200) == [Xhdpi, Retina]
  {
  }

  /** A ratio that no bucket has resolves to nothing. */
  lemma UnlistedRatioResolvesToNothing(dpr: int)
    requires dpr !in {133, 150, 200, 300, 400}
    ensures TagsFor(dpr) == []
  {
    TagsForSpec(dpr);
  }
}
