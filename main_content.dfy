/** The derivations of the home page (MainContent.tsx): the deterministic
    view counter shown on each card, the main feed, its short and long
    halves, the continue-watching rail and the liked-category rail. */
module MainContent {
  import opened Seqs
  import opened Videos
  import opened AppInteractions
  import opened Wrappers

  // ---------------------------------------------------------------------
  // Deterministic view counts

  const TwoTo31: int := 0x8000_0000
  const TwoTo32: int := 0x1_0000_0000

  predicate IsInt32(x: int) {
    -TwoTo31 <= x < TwoTo31
  }

  /** ECMAScript ToInt32 (section 7.1.6 of ECMA-262) on an integer: the
      signed 32-bit value congruent to `x` modulo 2^32. */
  function ToInt32(x: int): (r: int)
    ensures IsInt32(r)
    ensures IsInt32(x) ==> r == x
  {
    (x + TwoTo31) % TwoTo32 - TwoTo31
  }

  /** ToInt32 only depends on its argument modulo 2^32. */
  lemma ToInt32Shift(x: int, k: int)
    ensures ToInt32(x + k * TwoTo32) == ToInt32(x)
  {
    var y := x + TwoTo31;
    var q, r := y / TwoTo32, y % TwoTo32;
    assert y == q * TwoTo32 + r;
    assert y + k * TwoTo32 == (q + k) * TwoTo32 + r;
    assert (y + k * TwoTo32) % TwoTo32 == r;
  }

  /** ToInt32 moves its argument by a whole multiple of 2^32. */
  lemma ToInt32Offset(x: int) returns (m: int)
    ensures ToInt32(x) == x + m * TwoTo32
  {
    m := -((x + TwoTo31) / TwoTo32);
  }

  /** A UTF-16 code unit, as `charCodeAt` returns it. */
  type CodeUnit = c: int | 0 <= c < 0x1_0000

  /** One round of the loop of `getDeterministicStats`: `hash << 5` takes
      the product `hash * 32` back into 32 bits, the subtraction and the
      addition are exact, and `hash |= 0` wraps the sum into 32 bits. */
  function HashStep(hash: int, c: CodeUnit): int {
    ToInt32(ToInt32(hash * 32) - hash + c)
  }

  /** The value of `hash` after the loop has consumed all of `s`. */
  function Hash(s: seq<CodeUnit>): (r: int)
    ensures IsInt32(r)
  {
    if s == [] then 0 else HashStep(Hash(s[..|s| - 1]), s[|s| - 1])
  }

  /** The string hash as a polynomial with no wrap-around:
      `s[0]*31^(n-1) + s[1]*31^(n-2) + ... + s[n-1]`. */
  function Polynomial(s: seq<CodeUnit>): int {
    if s == [] then 0 else 31 * Polynomial(s[..|s| - 1]) + s[|s| - 1]
  }

  /** The wrapping loop computes the polynomial hash reduced to signed 32
      bits: wrapping after every step agrees with wrapping once at the end. */
  lemma {:induction false} HashIsPolynomial(s: seq<CodeUnit>)
    ensures Hash(s) == ToInt32(Polynomial(s))
  {
    if s != [] {
      var t, c := s[..|s| - 1], s[|s| - 1];
      HashIsPolynomial(t);
      var u := Polynomial(t);
      var a := Hash(t);
      var m2 := ToInt32Offset(u);
      var m1 := ToInt32Offset(a * 32);
      assert a == u + m2 * TwoTo32;
      calc {
        ToInt32(a * 32) - a + c;
        a * 32 + m1 * TwoTo32 - a + c;
        31 * a + c + m1 * TwoTo32;
        31 * u + c + (31 * m2 + m1) * TwoTo32;
      }
      ToInt32Shift(31 * u + c, 31 * m2 + m1);
    }
  }

  /** JavaScript's `%` on integers: the remainder takes the dividend's sign. */
  function TruncRem(a: int, b: int): (r: int)
    requires b > 0
    ensures -b < r < b
    ensures a >= 0 ==> r >= 0
    ensures a <= 0 ==> r <= 0
  {
    if a >= 0 then a % b else -((-a) % b)
  }

  function Abs(a: int): int {
    if a < 0 then -a else a
  }

  /** `getDeterministicStats`: the empty seed gives zero views and likes;
      any other seed gives views in [500, 10499], namely the last four
      decimal digits of the absolute 32-bit polynomial hash plus 500, and
      likes are 15% of the views shifted by the hash's last two digits. */
  method DeterministicStats(seed: seq<CodeUnit>) returns (views: int, likes: int)
    ensures seed == [] ==> views == 0 && likes == 0
    ensures seed != [] ==> 500 <= views <= 10499
    ensures seed != [] ==> views == Abs(ToInt32(Polynomial(seed))) % 10000 + 500
    ensures 0 <= likes <= 1673
  {
    var hash := 0;
    if seed == [] {
      return 0, 0;
    }
    for i := 0 to |seed|
      invariant IsInt32(hash)
      invariant hash == Hash(seed[..i])
    {
      assert seed[..i + 1][..i] == seed[..i];
      hash := ToInt32(ToInt32(hash * 32) - hash + seed[i]);
    }
    assert seed[..|seed|] == seed;
    HashIsPolynomial(seed);
    views := Abs(TruncRem(hash, 10000)) + 500;
    var l := (views as real * 0.15 + TruncRem(hash, 100) as real).Floor;
    likes := Abs(l);
  }

  // ---------------------------------------------------------------------
  // The main feed

  /** `!excludedIds.includes(v.id || v.video_url)`, where the excluded ids
      are the disliked ids followed by the liked ids. */
  function NotExcluded(st: Interactions): Video -> bool {
    (v: Video) => Key(v) !in st.dislikedIds + st.likedIds
  }

  /** The sort key `watchedIds.includes(v.id) ? 1 : 0`. */
  function WatchedRank(st: Interactions): Video -> int {
    (v: Video) => if v.id in EntryIds(st.watchHistory) then 1 else 0
  }

  function Unwatched(st: Interactions): Video -> bool {
    (v: Video) => v.id !in EntryIds(st.watchHistory)
  }

  function Watched(st: Interactions): Video -> bool {
    (v: Video) => v.id in EntryIds(st.watchHistory)
  }

  function Both(p: Video -> bool, q: Video -> bool): Video -> bool {
    (v: Video) => p(v) && q(v)
  }

  /** `filteredVideos`: the catalog without the items the user liked or
      disliked, stably sorted so that items with no watch-history entry come
      first. It is a reordering of exactly those items. */
  function HomeFeed(videos: seq<Video>, st: Interactions): (r: seq<Video>)
    ensures multiset(r) == multiset(Filter(videos, NotExcluded(st)))
    ensures forall v :: v in r <==> v in videos && Key(v) !in st.likedIds && Key(v) !in st.dislikedIds
  {
    var visible := Filter(videos, NotExcluded(st));
    var r := SortByKey(visible, WatchedRank(st));
    assert forall v :: v in r <==> v in visible by {
      forall v ensures v in r <==> v in visible {
        assert v in r <==> multiset(r)[v] > 0;
      }
    }
    r
  }

  /** The feed lists the unwatched visible items and then the watched
      visible items, each group in catalog order. */
  lemma HomeFeedOrder(videos: seq<Video>, st: Interactions)
    ensures HomeFeed(videos, st) ==
      Filter(videos, Both(NotExcluded(st), Unwatched(st))) + Filter(videos, Both(NotExcluded(st), Watched(st)))
  {
    var visible := Filter(videos, NotExcluded(st));
    SortByBinaryKey(visible, WatchedRank(st), Unwatched(st), Watched(st));
    FilterFilter(videos, NotExcluded(st), Unwatched(st), Both(NotExcluded(st), Unwatched(st)));
    FilterFilter(videos, NotExcluded(st), Watched(st), Both(NotExcluded(st), Watched(st)));
  }

  function KindIs(k: VideoType): Video -> bool {
    (v: Video) => v.kind == k
  }

  /** `shorts`: the short items of the feed, in feed order. */
  function Shorts(feed: seq<Video>): (r: seq<Video>)
    ensures forall v :: v in r <==> v in feed && v.kind == Short
  {
    Filter(feed, KindIs(Short))
  }

  /** `longs`: the long items of the feed, in feed order. */
  function Longs(feed: seq<Video>): (r: seq<Video>)
    ensures forall v :: v in r <==> v in feed && v.kind == Long
  {
    Filter(feed, KindIs(Long))
  }

  /** Every item of the feed lands in exactly one of the two halves. */
  lemma ShortsLongsPartition(feed: seq<Video>)
    ensures multiset(Shorts(feed)) + multiset(Longs(feed)) == multiset(feed)
    ensures |Shorts(feed)| + |Longs(feed)| == |feed|
  {
    forall v ensures (multiset(Shorts(feed)) + multiset(Longs(feed)))[v] == multiset(feed)[v] {
      FilterCount(feed, KindIs(Short), v);
      FilterCount(feed, KindIs(Long), v);
    }
    assert multiset(Shorts(feed)) + multiset(Longs(feed)) == multiset(feed);
    assert |multiset(Shorts(feed)) + multiset(Longs(feed))| == |multiset(feed)|;
  }

  /** The shorts page of the feed again puts unwatched shorts before
      watched ones, each group in catalog order. */
  lemma ShortsOfHomeFeed(videos: seq<Video>, st: Interactions)
    ensures Shorts(HomeFeed(videos, st)) ==
      Filter(videos, Both(Both(NotExcluded(st), Unwatched(st)), KindIs(Short))) +
      Filter(videos, Both(Both(NotExcluded(st), Watched(st)), KindIs(Short)))
  {
    var u := Both(NotExcluded(st), Unwatched(st));
    var w := Both(NotExcluded(st), Watched(st));
    HomeFeedOrder(videos, st);
    FilterConcat(Filter(videos, u), Filter(videos, w), KindIs(Short));
    FilterFilter(videos, u, KindIs(Short), Both(u, KindIs(Short)));
    FilterFilter(videos, w, KindIs(Short), Both(w, KindIs(Short)));
  }

  // ---------------------------------------------------------------------
  // Continue watching

  /** An item of the continue-watching rail. */
  datatype RailEntry = RailEntry(video: Video, progress: real)

  /** `h.progress > 0.05 && h.progress < 0.95`. */
  predicate Started(p: real) {
    0.05 < p < 0.95
  }

  function InProgress(): HistoryEntry -> bool {
    (h: HistoryEntry) => Started(h.progress)
  }

  predicate Matches(v: Video, id: string) {
    v.id == id || v.videoUrl == id
  }

  /** `i` is the first position of `videos` whose id or URL is `id`. */
  predicate FirstMatchAt(videos: seq<Video>, id: string, i: int) {
    0 <= i < |videos| && Matches(videos[i], id) && forall j :: 0 <= j < i ==> !Matches(videos[j], id)
  }

  /** `videos.find(v => v.id === id || v.video_url === id)`. */
  function FindWatched(videos: seq<Video>, id: string): (r: Option<Video>)
    ensures r.None? <==> forall v :: v in videos ==> !Matches(v, id)
    ensures r.Some? ==> exists i :: FirstMatchAt(videos, id, i) && videos[i] == r.value
  {
    if videos == [] then None
    else if Matches(videos[0], id) then Some(videos[0])
    else
      var r := FindWatched(videos[1..], id);
      assert forall v :: v in videos ==> v == videos[0] || v in videos[1..];
      if r.Some? then
        var i :| FirstMatchAt(videos[1..], id, i) && videos[1..][i] == r.value;
        assert FirstMatchAt(videos, id, i + 1);
        r
      else r
  }

  /** The `map` step: the matching item with the entry's progress, or null. */
  function Lookups(videos: seq<Video>, h: seq<HistoryEntry>): (r: seq<Option<RailEntry>>)
    ensures |r| == |h|
    ensures forall i :: 0 <= i < |h| ==> (r[i].None? <==> forall v :: v in videos ==> !Matches(v, h[i].id))
    ensures forall i :: 0 <= i < |h| && r[i].Some? ==>
      r[i].value.progress == h[i].progress &&
      exists k :: FirstMatchAt(videos, h[i].id, k) && videos[k] == r[i].value.video
  {
    seq(|h|, i requires 0 <= i < |h| =>
      match FindWatched(videos, h[i].id)
      case Some(v) => Some(RailEntry(v, h[i].progress))
      case None => None)
  }

  /** The final `filter(item => item !== null)`. */
  function Present(xs: seq<Option<RailEntry>>): (r: seq<RailEntry>)
    ensures |r| <= |xs|
    ensures forall x :: x in r <==> Some(x) in xs
  {
    if xs == [] then []
    else
      assert forall o :: o in xs <==> o == xs[0] || o in xs[1..];
      match xs[0]
      case Some(x) => [x] + Present(xs[1..])
      case None => Present(xs[1..])
  }

  /** `unwatchedData`: filter the history to started entries, look each one
      up in the catalog, drop the ones with no match. */
  function ContinueWatching(videos: seq<Video>, history: seq<HistoryEntry>): (r: seq<RailEntry>)
    ensures |r| <= |history|
  {
    Present(Lookups(videos, Filter(history, InProgress())))
  }

  /** A rail entry exists exactly for a started history entry whose id or
      URL names a catalog item, and carries that item and that progress. */
  lemma ContinueWatchingMembers(videos: seq<Video>, history: seq<HistoryEntry>, e: RailEntry)
    ensures e in ContinueWatching(videos, history) <==>
      exists h :: h in history && Started(h.progress) &&
        FindWatched(videos, h.id) == Some(e.video) && e.progress == h.progress
  {
    var started := Filter(history, InProgress());
    var l := Lookups(videos, started);
    if e in ContinueWatching(videos, history) {
      assert Some(e) in l;
      var i :| 0 <= i < |l| && l[i] == Some(e);
      assert started[i] in started;
    }
    if exists h :: h in history && Started(h.progress) &&
        FindWatched(videos, h.id) == Some(e.video) && e.progress == h.progress {
      var h :| h in history && Started(h.progress) &&
        FindWatched(videos, h.id) == Some(e.video) && e.progress == h.progress;
      assert h in started;
      var i :| 0 <= i < |started| && started[i] == h;
      assert l[i] == Some(e);
    }
  }

  lemma {:induction false} PresentConcat(a: seq<Option<RailEntry>>, b: seq<Option<RailEntry>>)
    ensures Present(a + b) == Present(a) + Present(b)
  {
    if a != [] {
      assert (a + b)[0] == a[0];
      assert (a + b)[1..] == a[1..] + b;
      PresentConcat(a[1..], b);
      match a[0]
      case Some(x) =>
        assert Present(a + b) == [x] + Present(a[1..] + b);
        assert Present(a) == [x] + Present(a[1..]);
      case None =>
    } else {
      assert a + b == b;
    }
  }

  /** The rail follows history order: the rail of two history segments is
      the rail of the first followed by the rail of the second. */
  lemma ContinueWatchingConcat(videos: seq<Video>, h1: seq<HistoryEntry>, h2: seq<HistoryEntry>)
    ensures ContinueWatching(videos, h1 + h2) == ContinueWatching(videos, h1) + ContinueWatching(videos, h2)
  {
    var s1, s2 := Filter(h1, InProgress()), Filter(h2, InProgress());
    FilterConcat(h1, h2, InProgress());
    LookupsConcat(videos, s1, s2);
    PresentConcat(Lookups(videos, s1), Lookups(videos, s2));
  }

  lemma LookupsConcat(videos: seq<Video>, a: seq<HistoryEntry>, b: seq<HistoryEntry>)
    ensures Lookups(videos, a + b) == Lookups(videos, a) + Lookups(videos, b)
  {
    var l, la, lb := Lookups(videos, a + b), Lookups(videos, a), Lookups(videos, b);
    forall i | 0 <= i < |l| ensures l[i] == (la + lb)[i] {
      if i < |a| {
        assert (a + b)[i] == a[i];
      } else {
        assert (a + b)[i] == b[i - |a|];
      }
    }
  }

  // ---------------------------------------------------------------------
  // Liked-category rail

  function IsLiked(st: Interactions): Video -> bool {
    (v: Video) => Key(v) in st.likedIds
  }

  /** `likedCategories`: the categories of the catalog items the user liked. */
  function LikedCategories(videos: seq<Video>, st: Interactions): (r: set<string>)
    ensures forall c :: c in r <==> exists w :: w in videos && Key(w) in st.likedIds && w.category == c
  {
    set v | v in Filter(videos, IsLiked(st)) :: v.category
  }

  function Affine(cats: set<string>, st: Interactions): Video -> bool {
    (v: Video) => v.category in cats && Key(v) !in st.likedIds && Key(v) !in st.dislikedIds
  }

  /** The filter of `aiRecommendedData`, before its shuffle. */
  function AffinityCandidates(videos: seq<Video>, st: Interactions): (r: seq<Video>)
    ensures |r| <= |videos|
    ensures forall v :: v in r <==>
      (v in videos && (exists w :: w in videos && Key(w) in st.likedIds && w.category == v.category) &&
       Key(v) !in st.likedIds && Key(v) !in st.dislikedIds)
  {
    Filter(videos, Affine(LikedCategories(videos, st), st))
  }

  /** `aiRecommendedData`: the candidates reordered by `perm`, the order the
      random comparator happened to produce. */
  function AffinityRail(videos: seq<Video>, st: Interactions, perm: seq<nat>): (r: seq<Video>)
    requires IsPermutation(perm, |AffinityCandidates(videos, st)|)
    ensures multiset(r) == multiset(AffinityCandidates(videos, st))
  {
    var c := AffinityCandidates(videos, st);
    PermuteKeepsElements(c, perm);
    Permute(c, perm)
  }

  /** Whatever the shuffle order, the rail holds each catalog item as often
      as the catalog does when some liked item shares its category and it is
      neither liked nor disliked, and not at all otherwise. */
  lemma AffinityRailContents(videos: seq<Video>, st: Interactions, perm: seq<nat>, v: Video)
    requires IsPermutation(perm, |AffinityCandidates(videos, st)|)
    ensures multiset(AffinityRail(videos, st, perm))[v] ==
      if (exists w :: w in videos && Key(w) in st.likedIds && w.category == v.category) &&
         Key(v) !in st.likedIds && Key(v) !in st.dislikedIds
      then multiset(videos)[v] else 0
  {
    var c := AffinityCandidates(videos, st);
    PermuteKeepsElements(c, perm);
    FilterCount(videos, Affine(LikedCategories(videos, st), st), v);
  }
}
