/** The long-form player (LongPlayerOverlay.tsx): the suggestion list, what
    happens when the playing item ends, and the two lists it displays. */
module LongPlayer {
  import opened Seqs
  import opened Videos

  function OtherKey(current: Video): Video -> bool {
    (v: Video) => Key(v) != Key(current)
  }

  /** `suggestions`: the long items whose `id || video_url` differs from the
      playing item's, in list order. */
  function Suggestions(all: seq<Video>, current: Video): (r: seq<Video>)
    ensures |r| <= |all|
    ensures forall v :: v in r <==> v in all && Key(v) != Key(current)
  {
    Filter(all, OtherKey(current))
  }

  /** What `handleEnd` does. */
  datatype LongEnd =
    | SwitchTo(next: Video)   // `onSwitchVideo(next)`
    | RestartCurrent          // rewind to 0 and play again

  /** `handleEnd`: with auto-play on and some suggestion, switch to the
      first suggestion; otherwise restart the playing item. */
  function HandleEnd(autoPlay: bool, all: seq<Video>, current: Video): (r: LongEnd)
    ensures r.SwitchTo? <==> autoPlay && exists v :: v in all && Key(v) != Key(current)
    ensures r.SwitchTo? ==> r.next in all && Key(r.next) != Key(current)
  {
    var s := Suggestions(all, current);
    if autoPlay && |s| > 0 then
      assert s[0] in s;
      SwitchTo(s[0])
    else
      assert forall v :: v in all && Key(v) != Key(current) ==> v in s;
      RestartCurrent
  }

  /** `i` is the first position of `all` holding an item with another key. */
  predicate FirstOtherAt(all: seq<Video>, current: Video, i: int) {
    0 <= i < |all| && Key(all[i]) != Key(current) &&
    forall j :: 0 <= j < i ==> Key(all[j]) == Key(current)
  }

  /** The first suggestion is the first list item with another key. */
  lemma {:induction false} FirstSuggestion(all: seq<Video>, current: Video, i: int)
    requires FirstOtherAt(all, current, i)
    ensures |Suggestions(all, current)| > 0 && Suggestions(all, current)[0] == all[i]
  {
    if i > 0 {
      assert FirstOtherAt(all[1..], current, i - 1);
      FirstSuggestion(all[1..], current, i - 1);
    }
  }

  /** With auto-play on, the end of the item switches to the first list item
      with another key, whenever there is one. */
  lemma NextIsFirstOther(all: seq<Video>, current: Video, i: int)
    requires FirstOtherAt(all, current, i)
    ensures HandleEnd(true, all, current) == SwitchTo(all[i])
  {
    FirstSuggestion(all, current, i);
  }

  /** The marquee: the suggestions twice over when there are more than 3,
      otherwise once. Position `i` shows suggestion `i mod n`. */
  function Marquee(s: seq<Video>): (r: seq<Video>)
    ensures |r| == if |s| > 3 then 2 * |s| else |s|
    ensures forall i :: 0 <= i < |r| ==> r[i] == s[i % |s|]
  {
    if |s| > 3 then
      assert forall i :: 0 <= i < 2 * |s| ==> (s + s)[i] == s[i % |s|] by {
        forall i | 0 <= i < 2 * |s| ensures (s + s)[i] == s[i % |s|] {
          if i < |s| { ModBelow(i, |s|); } else { ModSecondRound(i, |s|); }
        }
      }
      s + s
    else
      assert forall i :: 0 <= i < |s| ==> s[i] == s[i % |s|] by {
        forall i | 0 <= i < |s| ensures s[i] == s[i % |s|] {
          ModBelow(i, |s|);
        }
      }
      s
  }

  lemma ModBelow(i: int, n: int)
    requires 0 <= i < n
    ensures i % n == i
  {
  }

  lemma ModSecondRound(i: int, n: int)
    requires 0 < n <= i < 2 * n
    ensures i % n == i - n
  {
    assert i == 1 * n + (i - n);
  }

  /** The "coming" list: the first `min(5, n)` suggestions. */
  function Coming(s: seq<Video>): (r: seq<Video>)
    ensures |r| == if |s| < 5 then |s| else 5
    ensures forall i :: 0 <= i < |r| ==> r[i] == s[i]
  {
    if |s| < 5 then s else s[..5]
  }

  /** Both displays start with the same suggestions: the "coming" list is
      a prefix of the marquee. */
  lemma ComingPrefixOfMarquee(s: seq<Video>)
    ensures |Coming(s)| <= |Marquee(s)|
    ensures Marquee(s)[..|Coming(s)|] == Coming(s)
  {
    var c, m := Coming(s), Marquee(s);
    forall i | 0 <= i < |c| ensures m[i] == c[i] {
      ModBelow(i, |s|);
    }
  }
}
