/** Deck construction (components/Game.tsx:84-106): sample half a grid of
    images from a pool without replacement, double them into pairs, shuffle
    the pairs with Fisher-Yates, and deal them face down.

    `Math.random` is replaced by injected choices: `picks[k]` is the index
    spliced out of the remaining pool at the k-th draw, and `swaps[i]` is the
    index swapped with `i` at the Fisher-Yates step for `i`. */
module Deck {
  import opened Cards
  import opened Levels

  /** No value occurs twice. */
  predicate Distinct<T(==)>(s: seq<T>)
  {
    forall a, b :: 0 <= a < b < |s| ==> s[a] != s[b]
  }

  /** `[s[i], s[j]] = [s[j], s[i]]` */
  function Swap<T>(s: seq<T>, i: nat, j: nat): (r: seq<T>)
    requires i < |s| && j < |s|
    ensures |r| == |s|
  {
    s[i := s[j]][j := s[i]]
  }

  /** A swap only reorders. */
  lemma SwapPermutes<T>(s: seq<T>, i: nat, j: nat)
    requires i < |s| && j < |s|
    ensures multiset(Swap(s, i, j)) == multiset(s)
  {
  }

  /** Choices the shuffle's `Math.floor(Math.random() * (i + 1))` can make:
      one entry per position, the entry for `i` in `[0, i]`. */
  predicate ValidSwaps(swaps: seq<nat>, n: nat)
  {
    |swaps| == n && forall i :: 0 < i < n ==> swaps[i] <= i
  }

  /** The Fisher-Yates steps for `i`, `i - 1`, ..., `1`, in that order. */
  function ShuffleDown<T>(s: seq<T>, swaps: seq<nat>, i: nat): (r: seq<T>)
    requires ValidSwaps(swaps, |s|) && (i < |s| || i == 0)
    ensures |r| == |s|
    decreases i
  {
    if i == 0 then s else ShuffleDown(Swap(s, i, swaps[i]), swaps, i - 1)
  }

  /** The whole shuffle, from the last index down to 1. */
  function Shuffled<T>(s: seq<T>, swaps: seq<nat>): seq<T>
    requires ValidSwaps(swaps, |s|)
  {
    ShuffleDown(s, swaps, if |s| == 0 then 0 else |s| - 1)
  }

  /** The Fisher-Yates steps only reorder. */
  lemma {:induction false} ShuffleDownPermutes<T>(s: seq<T>, swaps: seq<nat>, i: nat)
    requires ValidSwaps(swaps, |s|) && (i < |s| || i == 0)
    ensures multiset(ShuffleDown(s, swaps, i)) == multiset(s)
    decreases i
  {
    if i != 0 {
      SwapPermutes(s, i, swaps[i]);
      ShuffleDownPermutes(Swap(s, i, swaps[i]), swaps, i - 1);
    }
  }

  /** The shuffle is a permutation. */
  lemma ShuffledPermutes<T>(s: seq<T>, swaps: seq<nat>)
    requires ValidSwaps(swaps, |s|)
    ensures |Shuffled(s, swaps)| == |s| && multiset(Shuffled(s, swaps)) == multiset(s)
  {
    ShuffleDownPermutes(s, swaps, if |s| == 0 then 0 else |s| - 1);
  }

  /** `fisherYatesShuffle`: permutes the array in place. */
  method FisherYatesShuffle<T>(a: array<T>, swaps: seq<nat>)
    requires ValidSwaps(swaps, a.Length)
    modifies a
    ensures a[..] == Shuffled(old(a[..]), swaps)
    ensures multiset(a[..]) == multiset(old(a[..]))
  {
    if a.Length == 0 {
      return;
    }
    var i := a.Length - 1;
    while i > 0
      invariant 0 <= i < a.Length
      invariant ShuffleDown(a[..], swaps, i) == Shuffled(old(a[..]), swaps)
    {
      var j := swaps[i];
      ghost var before := a[..];
      a[i], a[j] := a[j], a[i];
      assert a[..] == Swap(before, i, j);
      i := i - 1;
    }
    ShuffledPermutes(old(a[..]), swaps);
  }

  /** Choices `Math.floor(Math.random() * remainImages.length)` can make: while
      the pool is not exhausted, the k-th draw indexes into the `|pool| - k`
      images left. Once it is exhausted the index has no effect. */
  predicate ValidPicks(pool: seq<Image>, picks: seq<nat>)
  {
    forall k :: 0 <= k < |picks| && k < |pool| ==> picks[k] < |pool| - k
  }

  /** The pool with position `p` spliced out. */
  function Without(pool: seq<Image>, p: nat): (r: seq<Image>)
    requires p < |pool|
    ensures |r| == |pool| - 1
    ensures forall x :: x in r ==> x in pool
    ensures Distinct(pool) ==> Distinct(r) && pool[p] !in r
  {
    var r := pool[..p] + pool[p + 1..];
    assert forall k :: 0 <= k < |r| ==> r[k] == if k < p then pool[k] else pool[k + 1];
    r
  }

  /** The draws of `getCards`: each one splices an image out of what is left;
      a draw from an exhausted pool yields no image (`splice` returns `[]`,
      whose element 0 is `undefined`). */
  function Sample(pool: seq<Image>, picks: seq<nat>): (r: seq<Option<Image>>)
    requires ValidPicks(pool, picks)
    ensures |r| == |picks|
    ensures forall k :: 0 <= k < |r| ==> (r[k].Some? <==> k < |pool|)
    ensures forall k :: 0 <= k < |r| && r[k].Some? ==> r[k].value in pool
    decreases |picks|
  {
    if picks == [] then []
    else if pool == [] then [None] + Sample(pool, picks[1..])
    else [Some(pool[picks[0]])] + Sample(Without(pool, picks[0]), picks[1..])
  }

  /** After a draw, the remaining choices fit what is left of the pool. */
  lemma PicksAfterDraw(pool: seq<Image>, picks: seq<nat>)
    requires ValidPicks(pool, picks) && picks != []
    ensures pool == [] ==> ValidPicks(pool, picks[1..])
    ensures pool != [] ==> picks[0] < |pool| && ValidPicks(Without(pool, picks[0]), picks[1..])
  {
    if pool != [] {
      var rest := Without(pool, picks[0]);
      forall k | 0 <= k < |picks| - 1 && k < |rest| ensures picks[1..][k] < |rest| - k {
        assert picks[1..][k] == picks[k + 1];
      }
    }
  }

  /** Drawing from a pool without repeats, and no more often than it has
      images, never draws the same image twice. */
  lemma {:induction false} SampleDistinct(pool: seq<Image>, picks: seq<nat>)
    requires ValidPicks(pool, picks) && Distinct(pool) && |picks| <= |pool|
    ensures Distinct(Sample(pool, picks))
    decreases |picks|
  {
    if picks != [] {
      PicksAfterDraw(pool, picks);
      SampleDistinct(Without(pool, picks[0]), picks[1..]);
    }
  }

  /** The sampling loop of `getCards`, splicing from a working copy of the pool. */
  method SampleImages(images: seq<Image>, picks: seq<nat>) returns (singles: seq<Option<Image>>)
    requires ValidPicks(images, picks)
    ensures singles == Sample(images, picks)
  {
    var remain := images;
    singles := [];
    var k := 0;
    while k < |picks|
      invariant 0 <= k <= |picks|
      invariant ValidPicks(remain, picks[k..])
      invariant singles + Sample(remain, picks[k..]) == Sample(images, picks)
    {
      var rest := picks[k..];
      assert rest[1..] == picks[k + 1..];
      PicksAfterDraw(remain, rest);
      if remain == [] {
        singles := singles + [None];
      } else {
        var index := picks[k];
        singles := singles + [Some(remain[index])];
        remain := Without(remain, index);
      }
      k := k + 1;
    }
  }

  /** A card as `getCards` deals it: face down, not selectable, 'normal'. */
  function FaceDown(image: Option<Image>): Card
  {
    Card(image, false, false, Normal)
  }

  /** What `getCards` returns for the given choices. */
  function Deal(images: seq<Image>, picks: seq<nat>, swaps: seq<nat>): seq<Card>
    requires ValidPicks(images, picks) && ValidSwaps(swaps, 2 * |picks|)
  {
    var singles := Sample(images, picks);
    var pairs := Shuffled(singles + singles, swaps);
    seq(|pairs|, k requires 0 <= k < |pairs| => FaceDown(pairs[k]))
  }

  /** `getCards`: `(columns * rows) / 2` draws, doubled, shuffled and dealt. */
  method GetCards(images: seq<Image>, config: LevelConfig, picks: seq<nat>, swaps: seq<nat>)
    returns (cards: seq<Card>)
    requires |picks| == PairCount(config) && ValidPicks(images, picks) && ValidSwaps(swaps, 2 * |picks|)
    ensures cards == Deal(images, picks, swaps)
    ensures |cards| == 2 * PairCount(config)
    ensures forall k :: 0 <= k < |cards| ==> !cards[k].isFront && !cards[k].isSelectable && cards[k].state == Normal
  {
    var singles := SampleImages(images, picks);
    var doubled := singles + singles;
    var a := new Option<Image>[|doubled|](k requires 0 <= k < |doubled| => doubled[k]);
    assert a[..] == doubled;
    FisherYatesShuffle(a, swaps);
    var pairs := a[..];
    cards := seq(|pairs|, k requires 0 <= k < |pairs| => FaceDown(pairs[k]));
  }

  /** The images on the table are the drawn images, each twice. */
  lemma DealDoubles(images: seq<Image>, picks: seq<nat>, swaps: seq<nat>)
    requires ValidPicks(images, picks) && ValidSwaps(swaps, 2 * |picks|)
    ensures multiset(Images(Deal(images, picks, swaps))) ==
            multiset(Sample(images, picks)) + multiset(Sample(images, picks))
  {
    var singles := Sample(images, picks);
    ShuffledPermutes(singles + singles, swaps);
    assert Images(Deal(images, picks, swaps)) == Shuffled(singles + singles, swaps);
  }

  /** In a sequence without repeats, a value that occurs occurs once. */
  lemma {:induction false} DistinctOnce<T>(s: seq<T>, x: T)
    requires Distinct(s) && x in s
    ensures multiset(s)[x] == 1
  {
    assert s == [s[0]] + s[1..];
    if s[0] == x {
      assert x !in s[1..];
    } else {
      DistinctOnce(s[1..], x);
    }
  }

  /** With a pool of distinct images, at least as large as the number of
      draws, every dealt card shows an image of the pool and every image on
      the table occurs on exactly two cards. */
  lemma DealPairs(images: seq<Image>, picks: seq<nat>, swaps: seq<nat>)
    requires ValidPicks(images, picks) && ValidSwaps(swaps, 2 * |picks|)
    requires Distinct(images) && |picks| <= |images|
    ensures var cards := Deal(images, picks, swaps);
            forall k :: 0 <= k < |cards| ==>
              cards[k].frontImage.Some? && cards[k].frontImage.value in images &&
              multiset(Images(cards))[cards[k].frontImage] == 2
  {
    var singles := Sample(images, picks);
    SampleDistinct(images, picks);
    var cards := Deal(images, picks, swaps);
    var pairs := Shuffled(singles + singles, swaps);
    ShuffledPermutes(singles + singles, swaps);
    assert Images(cards) == pairs;
    forall k | 0 <= k < |cards|
      ensures cards[k].frontImage.Some? && cards[k].frontImage.value in images
      ensures multiset(Images(cards))[cards[k].frontImage] == 2
    {
      var x := pairs[k];
      assert x in multiset(pairs);
      assert x in singles + singles;
      assert x in singles;
      DistinctOnce(singles, x);
    }
  }

  /** With fewer images in the pool than draws, `getCards` does not fail:
      the draws past the end of the pool deal pairs of cards without an image
      (which match each other). */
  lemma DealShortPool(images: seq<Image>, picks: seq<nat>, swaps: seq<nat>)
    requires ValidPicks(images, picks) && ValidSwaps(swaps, 2 * |picks|)
    requires |images| < |picks|
    ensures multiset(Images(Deal(images, picks, swaps)))[None] == 2 * (|picks| - |images|)
  {
    var singles := Sample(images, picks);
    DealDoubles(images, picks, swaps);
    NoneCount(images, singles);
  }

  /** The draws past the end of the pool are the only ones without an image. */
  lemma {:induction false} NoneCount(pool: seq<Image>, r: seq<Option<Image>>)
    requires |pool| <= |r|
    requires forall k :: 0 <= k < |r| ==> (r[k].Some? <==> k < |pool|)
    ensures multiset(r)[None] == |r| - |pool|
  {
    if r != [] {
      var last := |r| - 1;
      assert r == r[..last] + [r[last]];
      if last < |pool| {
        assert |pool| == |r|;
        NoneFree(r[..last]);
      } else {
        NoneCount(pool, r[..last]);
      }
    }
  }

  /** A sequence of present images holds no absent one. */
  lemma NoneFree(r: seq<Option<Image>>)
    requires forall k :: 0 <= k < |r| ==> r[k].Some?
    ensures multiset(r)[None] == 0
  {
    assert None !in r;
  }
}
