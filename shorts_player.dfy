/** The short-form player (ShortsPlayerOverlay.tsx): which item is current,
    how scrolling changes it, and what happens when an item finishes. */
module ShortsPlayer {
  import opened Videos

  /** `videoList.findIndex(v => v.id === id)`: the first position holding
      `id`, or -1. */
  function FindIndex(list: seq<Video>, id: string): (r: int)
    ensures -1 <= r < |list|
    ensures r >= 0 ==> list[r].id == id && forall j :: 0 <= j < r ==> list[j].id != id
    ensures r == -1 ==> forall j :: 0 <= j < |list| ==> list[j].id != id
  {
    if list == [] then -1
    else if list[0].id == id then 0
    else
      var r := FindIndex(list[1..], id);
      if r == -1 then -1 else r + 1
  }

  /** The initial value of `currentIndex`: the first position of the
      opened item, or 0 when the list does not hold it. */
  function InitialIndex(list: seq<Video>, id: string): (r: nat)
    ensures (r < |list| && list[r].id == id && forall j :: 0 <= j < r ==> list[j].id != id) ||
            (r == 0 && forall j :: 0 <= j < |list| ==> list[j].id != id)
  {
    var idx := FindIndex(list, id);
    if idx >= 0 then idx else 0
  }

  // ---------------------------------------------------------------------
  // The weighted pool of `playNextSmartly`

  /** `interactions.likedIds.includes(v.id)` for the item at position `i`. */
  predicate IsLikedAt(list: seq<Video>, liked: seq<string>, i: int)
    requires 0 <= i < |list|
  {
    list[i].id in liked
  }

  /** What the `forEach` pushes for position `i`: nothing for the current
      item, the index once, and three more times when the item is liked. */
  function Contribution(list: seq<Video>, cur: int, liked: seq<string>, i: nat): seq<int>
    requires i < |list|
  {
    if i == cur then []
    else if IsLikedAt(list, liked, i) then [i, i, i, i]
    else [i]
  }

  /** The pool after the loop has visited positions `0 .. k-1`. */
  function PoolUpTo(list: seq<Video>, cur: int, liked: seq<string>, k: nat): seq<int>
    requires k <= |list|
  {
    if k == 0 then []
    else PoolUpTo(list, cur, liked, k - 1) + Contribution(list, cur, liked, k - 1)
  }

  /** Every pool entry is a visited position other than the current one. */
  lemma {:induction false} PoolInRange(list: seq<Video>, cur: int, liked: seq<string>, k: nat)
    requires k <= |list|
    ensures forall j :: 0 <= j < |PoolUpTo(list, cur, liked, k)| ==>
      0 <= PoolUpTo(list, cur, liked, k)[j] < k && PoolUpTo(list, cur, liked, k)[j] != cur
  {
    if k > 0 {
      PoolInRange(list, cur, liked, k - 1);
    }
  }

  /** The pool `playNextSmartly` draws from: every entry is a position of
      the list other than the current one. */
  function Pool(list: seq<Video>, cur: int, liked: seq<string>): (r: seq<int>)
    ensures forall j :: 0 <= j < |r| ==> 0 <= r[j] < |list| && r[j] != cur
  {
    PoolInRange(list, cur, liked, |list|);
    PoolUpTo(list, cur, liked, |list|)
  }

  /** Number of liked items among positions `0 .. k-1` other than `cur`. */
  function LikedOthers(list: seq<Video>, cur: int, liked: seq<string>, k: nat): (r: nat)
    requires k <= |list|
    ensures r <= k
  {
    if k == 0 then 0
    else
      var here := if k - 1 != cur && IsLikedAt(list, liked, k - 1) then 1 else 0;
      LikedOthers(list, cur, liked, k - 1) + here
  }

  /** How often `x` occurs in `s`, counted element by element: the
      multiplicity `multiset(s)[x]` in a form the induction over the pool
      works with. */
  function Occurrences(s: seq<int>, x: int): nat {
    if s == [] then 0 else (if s[0] == x then 1 else 0) + Occurrences(s[1..], x)
  }

  lemma {:induction false} OccurrencesConcat(a: seq<int>, b: seq<int>, x: int)
    ensures Occurrences(a + b, x) == Occurrences(a, x) + Occurrences(b, x)
  {
    if a == [] {
      assert a + b == b;
    } else {
      assert (a + b)[1..] == a[1..] + b;
      OccurrencesConcat(a[1..], b, x);
    }
  }

  lemma {:induction false} OccurrencesAreMultiplicity(s: seq<int>, x: int)
    ensures Occurrences(s, x) == multiset(s)[x]
  {
    if s != [] {
      assert s == [s[0]] + s[1..];
      OccurrencesAreMultiplicity(s[1..], x);
    }
  }

  /** How often position `i` puts `x` into the pool. */
  function Share(list: seq<Video>, cur: int, liked: seq<string>, i: int, x: int): int
    requires 0 <= i < |list|
  {
    if x == i && x != cur then (if IsLikedAt(list, liked, i) then 4 else 1) else 0
  }

  /** Position `i` contributes only itself: once, or four times when liked. */
  lemma ContributionCount(list: seq<Video>, cur: int, liked: seq<string>, i: nat, x: int)
    requires i < |list|
    ensures Occurrences(Contribution(list, cur, liked, i), x) == Share(list, cur, liked, i, x)
  {
    if i != cur && IsLikedAt(list, liked, i) {
      var one := if i == x then 1 else 0;
      assert Occurrences([i], x) == one;
      assert Occurrences([i, i], x) == 2 * one by { OccurrencesConcat([i], [i], x); assert [i] + [i] == [i, i]; }
      OccurrencesConcat([i, i], [i, i], x);
      assert [i, i] + [i, i] == [i, i, i, i];
    }
  }

  /** How often position `x` sits in the pool once positions `0 .. k-1` are
      visited: once for another item, four times for a liked other item,
      never for the current one or an unvisited position. */
  function Weight(list: seq<Video>, cur: int, liked: seq<string>, k: nat, x: int): int
    requires k <= |list|
  {
    if 0 <= x < k && x != cur then (if IsLikedAt(list, liked, x) then 4 else 1) else 0
  }

  /** Visiting position `k - 1` adds its share to every count. */
  lemma PoolStep(list: seq<Video>, cur: int, liked: seq<string>, k: nat, x: int)
    requires 0 < k <= |list|
    ensures Occurrences(PoolUpTo(list, cur, liked, k), x) ==
      Occurrences(PoolUpTo(list, cur, liked, k - 1), x) + Share(list, cur, liked, k - 1, x)
  {
    ContributionCount(list, cur, liked, k - 1, x);
    OccurrencesConcat(PoolUpTo(list, cur, liked, k - 1), Contribution(list, cur, liked, k - 1), x);
  }

  lemma WeightStep(list: seq<Video>, cur: int, liked: seq<string>, k: nat, x: int)
    requires 0 < k <= |list|
    ensures Weight(list, cur, liked, k, x) == Weight(list, cur, liked, k - 1, x) + Share(list, cur, liked, k - 1, x)
  {
  }

  lemma {:induction false} PoolOccurrences(list: seq<Video>, cur: int, liked: seq<string>, k: nat, x: int)
    requires k <= |list|
    ensures Occurrences(PoolUpTo(list, cur, liked, k), x) == Weight(list, cur, liked, k, x)
  {
    if k > 0 {
      PoolOccurrences(list, cur, liked, k - 1, x);
      PoolStep(list, cur, liked, k, x);
      WeightStep(list, cur, liked, k, x);
    }
  }

  /** Each position other than the current one sits in the pool once, or
      four times when its item is liked; the current position never does. */
  lemma PoolCount(list: seq<Video>, cur: int, liked: seq<string>, k: nat, x: int)
    requires k <= |list|
    ensures multiset(PoolUpTo(list, cur, liked, k))[x] == Weight(list, cur, liked, k, x)
  {
    PoolOccurrences(list, cur, liked, k, x);
    OccurrencesAreMultiplicity(PoolUpTo(list, cur, liked, k), x);
  }

  /** The pool holds one entry per other item plus three per liked other item. */
  lemma {:induction false} PoolSize(list: seq<Video>, cur: int, liked: seq<string>, k: nat)
    requires k <= |list|
    ensures |PoolUpTo(list, cur, liked, k)| ==
      k - (if 0 <= cur < k then 1 else 0) + 3 * LikedOthers(list, cur, liked, k)
  {
    if k > 0 {
      PoolSize(list, cur, liked, k - 1);
    }
  }

  /** With at least two items and a current position in range the pool is
      not empty, so the pick below always lands on an entry. */
  lemma PoolNonEmpty(list: seq<Video>, cur: int, liked: seq<string>)
    requires |list| > 1 && 0 <= cur < |list|
    ensures |Pool(list, cur, liked)| >= |list| - 1 > 0
  {
    PoolSize(list, cur, liked, |list|);
  }

  /** `Math.floor(r * n)` for a draw `0 <= r < 1`: a position in `0 .. n-1`. */
  function Pick(rand: real, n: nat): (r: nat)
    requires 0.0 <= rand < 1.0 && n > 0
    ensures r < n
  {
    assert rand * (n as real) < n as real;
    (rand * (n as real)).Floor
  }

  /** The outcome of the end of an item. */
  datatype EndAction =
    | Idle               // nothing happens
    | ScrollTo(target: nat)  // scroll smoothly to this position
    | Restart(index: nat)    // rewind the current item and play it again

  class Player {
    /** `videoList`: the items the overlay was opened with. */
    const videoList: seq<Video>
    /** `currentIndex`: the item on screen. */
    var currentIndex: nat
    /** `isAutoPlay`: advance on end, rather than repeat. */
    var isAutoPlay: bool

    /** The current position is on the list, or 0 for an empty list. */
    ghost predicate Valid()
      reads this
    {
      currentIndex < |videoList| || currentIndex == 0
    }

    /** Opening the overlay on `initialVideo`. */
    constructor (initialVideo: Video, list: seq<Video>)
      ensures videoList == list
      ensures currentIndex == InitialIndex(list, initialVideo.id)
      ensures isAutoPlay
      ensures Valid()
    {
      videoList := list;
      currentIndex := InitialIndex(list, initialVideo.id);
      isAutoPlay := true;
    }

    /** `handleScroll`: a container of height 0 changes nothing; otherwise
        the position under the scroll offset becomes current when it differs
        from the current one and lies on the list. */
    method HandleScroll(height: int, index: int)
      requires Valid()
      modifies this
      ensures Valid()
      ensures height != 0 && index != old(currentIndex) && 0 <= index < |videoList| ==> currentIndex == index
      ensures !(height != 0 && index != old(currentIndex) && 0 <= index < |videoList|) ==> currentIndex == old(currentIndex)
      ensures isAutoPlay == old(isAutoPlay)
    {
      if height == 0 {
        return;
      }
      if index != currentIndex && index >= 0 && index < |videoList| {
        currentIndex := index;
      }
    }

    /** The auto-play button. */
    method ToggleAutoPlay()
      modifies this
      ensures isAutoPlay == !old(isAutoPlay)
      ensures currentIndex == old(currentIndex)
    {
      isAutoPlay := !isAutoPlay;
    }

    /** The `forEach` of `playNextSmartly`, pushing onto `pool`. */
    method BuildPool(liked: seq<string>) returns (pool: seq<int>)
      ensures pool == Pool(videoList, currentIndex, liked)
    {
      pool := [];
      var idx := 0;
      while idx < |videoList|
        invariant 0 <= idx <= |videoList|
        invariant pool == PoolUpTo(videoList, currentIndex, liked, idx)
      {
        if idx != currentIndex {
          pool := pool + [idx];
          if videoList[idx].id in liked {
            pool := pool + [idx, idx, idx];
          }
        }
        idx := idx + 1;
      }
    }

    /** `playNextSmartly` with the draw `rand` of `Math.random()`: nothing
        with at most one item; otherwise a scroll to the pool entry the draw
        selects, which is another item of the list. */
    method PlayNextSmartly(liked: seq<string>, rand: real) returns (a: EndAction)
      requires Valid()
      requires 0.0 <= rand < 1.0
      ensures |videoList| <= 1 ==> a == Idle
      ensures |videoList| > 1 ==> a.ScrollTo? && a.target < |videoList| && a.target != currentIndex
      ensures |videoList| > 1 ==> |Pool(videoList, currentIndex, liked)| > 0
      ensures |videoList| > 1 ==> a == ScrollTo(Pool(videoList, currentIndex, liked)[Pick(rand, |Pool(videoList, currentIndex, liked)|)])
    {
      if |videoList| <= 1 {
        return Idle;
      }
      var pool := BuildPool(liked);
      PoolNonEmpty(videoList, currentIndex, liked);
      var randomIdx := pool[Pick(rand, |pool|)];
      return ScrollTo(randomIdx);
    }

    /** `handleVideoEnd`: with auto-play on, the smart next item; with it
        off, the current item again from the start. */
    method HandleVideoEnd(liked: seq<string>, rand: real) returns (a: EndAction)
      requires Valid()
      requires 0.0 <= rand < 1.0
      ensures isAutoPlay && |videoList| <= 1 ==> a == Idle
      ensures isAutoPlay && |videoList| > 1 ==> a.ScrollTo? && a.target < |videoList| && a.target != currentIndex
      ensures isAutoPlay && |videoList| > 1 ==> (|Pool(videoList, currentIndex, liked)| > 0 &&
        a == ScrollTo(Pool(videoList, currentIndex, liked)[Pick(rand, |Pool(videoList, currentIndex, liked)|)]))
      ensures !isAutoPlay ==> a == Restart(currentIndex)
    {
      if isAutoPlay {
        a := PlayNextSmartly(liked, rand);
      } else {
        a := Restart(currentIndex);
      }
    }
  }
}
