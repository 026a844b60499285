/** The user's interaction record kept by the App component (App.tsx) and the
    record-to-record updaters that its like, dislike, save, restore and
    watch-progress handlers pass to `setInteractions`. */
module AppInteractions {
  import opened Seqs
  import opened Wrappers

  /** One `{ id, progress }` entry of `watchHistory`; progress is the ratio
      `currentTime / duration` computed by the players. */
  datatype HistoryEntry = HistoryEntry(id: string, progress: real)

  /** `UserInteractions`: four id lists, kept as lists (insertion order,
      duplicates possible in persisted data), as the client keeps them. */
  datatype Interactions = Interactions(
    likedIds: seq<string>,
    dislikedIds: seq<string>,
    savedIds: seq<string>,
    watchHistory: seq<HistoryEntry>)

  /** The record the App starts from when nothing usable is persisted. */
  const Initial := Interactions([], [], [], [])

  /** No id is both liked and disliked. */
  predicate Exclusive(st: Interactions) {
    forall x :: x in st.likedIds ==> x !in st.dislikedIds
  }

  /** `xs.filter(x => x !== id)`. */
  function Without(xs: seq<string>, id: string): (r: seq<string>)
    ensures forall x :: x in r <==> x in xs && x != id
    ensures forall x :: x != id ==> multiset(r)[x] == multiset(xs)[x]
  {
    var r := Filter(xs, x => x != id);
    assert forall x :: x != id ==> multiset(r)[x] == multiset(xs)[x] by {
      forall x | x != id ensures multiset(r)[x] == multiset(xs)[x] {
        FilterCount(xs, y => y != id, x);
      }
    }
    r
  }

  /** `handleLikeToggle`: an id that is already liked leaves the record as it
      is; otherwise it is appended to the liked list and dropped from the
      disliked list. */
  function Like(st: Interactions, id: string): (r: Interactions)
    ensures id in r.likedIds
    ensures id in st.likedIds ==> r == st
    ensures id !in st.likedIds ==> r.likedIds == st.likedIds + [id] && id !in r.dislikedIds
    ensures forall x :: x != id ==> multiset(r.dislikedIds)[x] == multiset(st.dislikedIds)[x]
    ensures r.savedIds == st.savedIds && r.watchHistory == st.watchHistory
    ensures Exclusive(st) ==> Exclusive(r) && id !in r.dislikedIds
  {
    if id in st.likedIds then st
    else st.(likedIds := st.likedIds + [id], dislikedIds := Without(st.dislikedIds, id))
  }

  /** `handleDislikeToggle`: the mirror image of `Like`. */
  function Dislike(st: Interactions, id: string): (r: Interactions)
    ensures id in r.dislikedIds
    ensures id in st.dislikedIds ==> r == st
    ensures id !in st.dislikedIds ==> r.dislikedIds == st.dislikedIds + [id] && id !in r.likedIds
    ensures forall x :: x != id ==> multiset(r.likedIds)[x] == multiset(st.likedIds)[x]
    ensures r.savedIds == st.savedIds && r.watchHistory == st.watchHistory
    ensures Exclusive(st) ==> Exclusive(r) && id !in r.likedIds
  {
    if id in st.dislikedIds then st
    else st.(dislikedIds := st.dislikedIds + [id], likedIds := Without(st.likedIds, id))
  }

  /** The `onSave` updater: an id already saved leaves the record unchanged,
      any other id is appended once; nothing else changes. */
  function Save(st: Interactions, id: string): (r: Interactions)
    ensures id in r.savedIds
    ensures multiset(r.savedIds)[id] == if id in st.savedIds then multiset(st.savedIds)[id] else 1
    ensures |r.savedIds| == |st.savedIds| + (if id in st.savedIds then 0 else 1)
    ensures r.savedIds[..|st.savedIds|] == st.savedIds
    ensures r.likedIds == st.likedIds && r.dislikedIds == st.dislikedIds
    ensures r.watchHistory == st.watchHistory
  {
    if id in st.savedIds then st else st.(savedIds := st.savedIds + [id])
  }

  /** The `onRestore` updater of the hidden-videos page: every occurrence of
      `id` leaves the disliked list; the id is not liked by it. */
  function Restore(st: Interactions, id: string): (r: Interactions)
    ensures id !in r.dislikedIds
    ensures forall x :: x in r.dislikedIds <==> x in st.dislikedIds && x != id
    ensures forall x :: x != id ==> multiset(r.dislikedIds)[x] == multiset(st.dislikedIds)[x]
    ensures r.likedIds == st.likedIds && r.savedIds == st.savedIds
    ensures r.watchHistory == st.watchHistory
    ensures Exclusive(st) ==> Exclusive(r)
  {
    st.(dislikedIds := Without(st.dislikedIds, id))
  }

  /** The restore updater keeps the remaining disliked ids in their order:
      restoring from a concatenation restores from each part. */
  lemma RestoreKeepsOrder(a: seq<string>, b: seq<string>, id: string)
    ensures Without(a + b, id) == Without(a, id) + Without(b, id)
  {
    FilterConcat(a, b, x => x != id);
  }

  // ---------------------------------------------------------------------
  // Watch progress

  function Max(a: real, b: real): real {
    if b > a then b else a
  }

  /** The ids of the history entries, in order. */
  function EntryIds(h: seq<HistoryEntry>): (r: seq<string>)
    ensures |r| == |h|
    ensures forall i :: 0 <= i < |h| ==> r[i] == h[i].id
  {
    seq(|h|, i requires 0 <= i < |h| => h[i].id)
  }

  /** Entry-by-entry reference for `updateWatchHistory`: the first entry for
      `id` keeps the larger of its progress and `p`; with no entry for `id`,
      `{ id, p }` is added at the end. */
  function RecordProgress(h: seq<HistoryEntry>, id: string, p: real): (r: seq<HistoryEntry>)
    ensures |r| == if id in EntryIds(h) then |h| else |h| + 1
    ensures EntryIds(r) == if id in EntryIds(h) then EntryIds(h) else EntryIds(h) + [id]
  {
    if h == [] then [HistoryEntry(id, p)]
    else if h[0].id == id then
      EntryIdsCons(h[0], h[1..]);
      EntryIdsCons(h[0].(progress := Max(h[0].progress, p)), h[1..]);
      [h[0].(progress := Max(h[0].progress, p))] + h[1..]
    else
      EntryIdsCons(h[0], h[1..]);
      var t := RecordProgress(h[1..], id, p);
      EntryIdsCons(h[0], t);
      [h[0]] + t
  }

  /** The ids of a history with one more entry in front. */
  lemma EntryIdsCons(e: HistoryEntry, t: seq<HistoryEntry>)
    ensures EntryIds([e] + t) == [e.id] + EntryIds(t)
  {
  }

  /** The progress stored by the first entry for `id`, if any. */
  function ProgressOf(h: seq<HistoryEntry>, id: string): (r: Option<real>)
    ensures r.Some? <==> id in EntryIds(h)
    ensures r.Some? ==> exists k :: FirstEntryAt(h, id, k) && r.value == h[k].progress
  {
    if h == [] then None
    else if h[0].id == id then
      assert FirstEntryAt(h, id, 0);
      Some(h[0].progress)
    else
      assert EntryIds(h) == [h[0].id] + EntryIds(h[1..]);
      var r := ProgressOf(h[1..], id);
      if r.Some? then
        var k :| FirstEntryAt(h[1..], id, k) && r.value == h[1..][k].progress;
        FirstEntryAtTail(h, id, k);
        r
      else r
  }

  /** `k` is the first position of the history holding an entry for `id`. */
  predicate FirstEntryAt(h: seq<HistoryEntry>, id: string, k: int) {
    0 <= k < |h| && h[k].id == id && forall j :: 0 <= j < k ==> h[j].id != id
  }

  /** The first entry for `id` in the tail is the first in the whole history
      when the head is for another video. */
  lemma FirstEntryAtTail(h: seq<HistoryEntry>, id: string, k: int)
    requires h != [] && h[0].id != id && FirstEntryAt(h[1..], id, k)
    ensures FirstEntryAt(h, id, k + 1) && h[k + 1] == h[1..][k]
  {
    forall j | 0 <= j < k + 1 ensures h[j].id != id {
      if j > 0 { assert h[j] == h[1..][j - 1]; }
    }
  }

  /** Keeping the head and updating position `k - 1` of the tail updates
      position `k` of the whole history. */
  lemma ConsUpdate(h: seq<HistoryEntry>, r: seq<HistoryEntry>, rt: seq<HistoryEntry>, k: nat, e: HistoryEntry)
    requires 0 < k < |h|
    requires rt == h[1..][k - 1 := e]
    requires r == [h[0]] + rt
    ensures r == h[k := e]
  {
  }

  /** A head entry with another id is kept and the update goes on with the rest. */
  lemma RecordProgressSkip(h: seq<HistoryEntry>, id: string, p: real)
    requires h != [] && h[0].id != id
    ensures RecordProgress(h, id, p) == [h[0]] + RecordProgress(h[1..], id, p)
  {
  }

  /** An entry for `id` at the head takes the maximum progress. */
  lemma RecordProgressHead(h: seq<HistoryEntry>, id: string, p: real)
    requires h != [] && h[0].id == id
    ensures RecordProgress(h, id, p) == h[0 := h[0].(progress := Max(h[0].progress, p))]
  {
    var e := h[0].(progress := Max(h[0].progress, p));
    assert [e] + h[1..] == h[0 := e];
  }

  /** No entry for `id` before position `k > 0` means none before `k - 1`
      in the tail. */
  lemma NoEntryBeforeTail(h: seq<HistoryEntry>, id: string, k: nat)
    requires 0 < k <= |h|
    requires forall j :: 0 <= j < k ==> h[j].id != id
    ensures forall j :: 0 <= j < k - 1 ==> h[1..][j].id != id
  {
    forall j | 0 <= j < k - 1 ensures h[1..][j].id != id {
      assert h[1..][j] == h[j + 1];
    }
  }

  /** With an entry at the first position `k` for `id`, the update replaces
      exactly that entry's progress by the maximum and keeps every other entry. */
  lemma {:induction false} RecordProgressAt(h: seq<HistoryEntry>, id: string, p: real, k: nat)
    requires k < |h| && h[k].id == id
    requires forall j :: 0 <= j < k ==> h[j].id != id
    ensures RecordProgress(h, id, p) == h[k := h[k].(progress := Max(h[k].progress, p))]
  {
    if k == 0 {
      RecordProgressHead(h, id, p);
    } else {
      var t := h[1..];
      assert t[k - 1] == h[k];
      NoEntryBeforeTail(h, id, k);
      RecordProgressAt(t, id, p, k - 1);
      RecordProgressSkip(h, id, p);
      ConsUpdate(h, RecordProgress(h, id, p), RecordProgress(t, id, p), k, h[k].(progress := Max(h[k].progress, p)));
    }
  }

  /** With no entry for `id`, the update appends `{ id, p }` and keeps the rest. */
  lemma {:induction false} RecordProgressAppends(h: seq<HistoryEntry>, id: string, p: real)
    requires id !in EntryIds(h)
    ensures RecordProgress(h, id, p) == h + [HistoryEntry(id, p)]
  {
    if h != [] {
      assert EntryIds(h) == [h[0].id] + EntryIds(h[1..]);
      RecordProgressAppends(h[1..], id, p);
    }
  }

  /** The stored progress for `id` never decreases: it becomes the maximum of
      the old value and `p`, or `p` for a new entry; other ids keep theirs. */
  lemma {:induction false} RecordProgressMonotone(h: seq<HistoryEntry>, id: string, p: real, y: string)
    ensures ProgressOf(RecordProgress(h, id, p), id) ==
      (match ProgressOf(h, id) case Some(prev) => Some(Max(prev, p)) case None => Some(p))
    ensures y != id ==> ProgressOf(RecordProgress(h, id, p), y) == ProgressOf(h, y)
  {
    if h != [] && h[0].id != id {
      RecordProgressMonotone(h[1..], id, p, y);
    }
  }

  /** Two progress reports for the same id give the same history in either
      order: the stored value is the maximum of both. */
  lemma {:induction false} RecordProgressCommutes(h: seq<HistoryEntry>, id: string, a: real, b: real)
    ensures RecordProgress(RecordProgress(h, id, a), id, b) == RecordProgress(RecordProgress(h, id, b), id, a)
  {
    if h != [] && h[0].id != id {
      RecordProgressCommutes(h[1..], id, a, b);
    }
  }

  /** `history.findIndex(h => h.id === id)`: the first position holding `id`,
      or -1 when there is none. */
  method FindEntry(history: seq<HistoryEntry>, id: string) returns (index: int)
    ensures -1 <= index < |history|
    ensures index == -1 <==> id !in EntryIds(history)
    ensures index >= 0 ==> history[index].id == id
    ensures forall j :: 0 <= j < index ==> history[j].id != id
  {
    index := 0;
    while index < |history|
      invariant 0 <= index <= |history|
      invariant forall j :: 0 <= j < index ==> history[j].id != id
    {
      if history[index].id == id {
        return;
      }
      index := index + 1;
    }
    index := -1;
  }

  // ---------------------------------------------------------------------
  // Any sequence of user actions

  datatype Action =
    | LikeAction(id: string)
    | DislikeAction(id: string)
    | SaveAction(id: string)
    | RestoreAction(id: string)
    | ProgressAction(id: string, progress: real)

  function Step(st: Interactions, a: Action): Interactions {
    match a
    case LikeAction(id) => Like(st, id)
    case DislikeAction(id) => Dislike(st, id)
    case SaveAction(id) => Save(st, id)
    case RestoreAction(id) => Restore(st, id)
    case ProgressAction(id, p) => st.(watchHistory := RecordProgress(st.watchHistory, id, p))
  }

  function Run(st: Interactions, actions: seq<Action>): Interactions
    decreases |actions|
  {
    if actions == [] then st else Run(Step(st, actions[0]), actions[1..])
  }

  /** Whatever actions the user takes, in whatever order, no id ends up both
      liked and disliked once the record starts out that way. */
  lemma {:induction false} RunKeepsExclusive(st: Interactions, actions: seq<Action>)
    requires Exclusive(st)
    ensures Exclusive(Run(st, actions))
    decreases |actions|
  {
    if actions != [] {
      RunKeepsExclusive(Step(st, actions[0]), actions[1..]);
    }
  }

  /** Liking and then disliking an id leaves it disliked and not liked. */
  lemma LikeThenDislike(st: Interactions, id: string)
    requires Exclusive(st)
    ensures var r := Dislike(Like(st, id), id); id in r.dislikedIds && id !in r.likedIds && Exclusive(r)
  {
  }
}
