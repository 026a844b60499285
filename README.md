# Feed composition and playback continuation, in Dafny

This project models the core of a short-video client written in React and
TypeScript:

- the interaction record the App keeps: likes, dislikes, saves and watch
  progress, with its updaters;
- how `loadData` turns a fetched catalog into the displayed feed, using the
  operator's exclusion list and an externally supplied ranking;
- the home page's derived lists: the main feed, its short and long halves,
  the continue-watching rail, the liked-category rail and the per-card
  view counter;
- the two continuation policies: the short-form player's weighted "smart
  next" and the long-form player's autoplay chain.

Each core file maps to one or two Dafny modules:

- App.tsx: `AppInteractions` (record updaters, watch progress), `AppFeed`
  (admin filter, ranked merge, search) and `AppStore` (class `Store`, the
  App's state and its handlers).
- MainContent.tsx: `MainContent`.
- ShortsPlayerOverlay.tsx: `ShortsPlayer` (class `Player`).
- LongPlayerOverlay.tsx: `LongPlayer`.

Three modules support them:

- `Seqs` holds the list vocabulary: `filter`, the stable `sort`, and the
  reordering produced by a shuffle.
- `Videos` holds the content item and its identity key `id || video_url`.
- `Wrappers` holds `Option`.

Conventions:

- A missing `id` is the empty string.
- Ids are compared literally, as the source compares them.
- Lists stay lists: order and duplicates are kept.
- Where the source mutates state, the model does too. React state is a
  class with a `modifies` clause on each handler.
- The loops that build `hash` (`MainContent.DeterministicStats`) and the
  smart-next `pool` (`ShortsPlayer.Player.BuildPool`) are `for`/`while`
  loops proved against the specification functions `Hash` and `PoolUpTo`.
  The `findIndex` loop over the watch history (`AppInteractions.FindEntry`)
  is a `while` loop whose postconditions state the first matching position
  directly. The player's `findIndex` over its list
  (`ShortsPlayer.FindIndex`) is a recursive function.
- Everything the source computes without mutation is a function.

Behaviours of the source that the model keeps as written:

- The composed feed is a permutation of the filtered catalog only when
  catalog ids are distinct and the ranking repeats no id.
  `AppFeed.ComposeIsPermutation` proves it under those conditions.
  `AppFeed.RepeatedRankDuplicates` and `AppFeed.SharedIdDrops` show the
  duplicates and omissions otherwise.
- The "unwatched first" stable sort is applied to the whole feed, before the
  short/long split, so both halves are sorted. It looks only at `v.id`,
  while the exclusion test uses `id || video_url`.
- With auto-advance on and at most one item, the end of a short does
  nothing (`EndAction.Idle`); it does not restart the item.
- Smart-next does not set `currentIndex` itself. It scrolls to the chosen
  position (`EndAction.ScrollTo`), and the scroll handler then moves
  `currentIndex`.
- The admin delete prunes the displayed list by `id` and `public_id` only.
  The next load also excludes items whose `video_url` was deleted.

## Model

| member | source | states |
|---|---|---|
| AppInteractions.Without | App.tsx:129 | `filter(x => x !== id)` keeps exactly the other ids, each as often as before |
| AppInteractions.Like | App.tsx:122-133 | after a like, `id` is liked; an already-liked id leaves the record unchanged; otherwise `id` is appended to the liked list and leaves the disliked list, whose other ids keep their counts; saves and history are untouched; mutual exclusion is preserved |
| AppInteractions.Dislike | App.tsx:135-146 | the mirror image of `Like` for the disliked list |
| AppInteractions.Save | App.tsx:251 | after a save, the id is saved; an already-saved id changes nothing; any other id is appended exactly once, after the old list; the other fields are unchanged |
| AppInteractions.Restore | App.tsx:182 | every occurrence of `id` leaves the disliked list; other disliked ids keep their counts; nothing else changes; exclusion is preserved |
| AppInteractions.RestoreKeepsOrder | App.tsx:182 | restoring keeps the remaining disliked ids in their order (the filter splits over concatenation) |
| AppInteractions.RecordProgress | App.tsx:111-118 | the update keeps the number of entries and their ids when `id` has an entry, and appends `id` otherwise |
| AppInteractions.ProgressOf | App.tsx:114 | a stored progress exists exactly when the history has an entry for `id`, and it is the progress of the first entry for `id` |
| AppInteractions.RecordProgressAt | App.tsx:114-115 | with an entry for `id`, only that entry changes, and its progress becomes the maximum of the old value and the report |
| AppInteractions.RecordProgressAppends | App.tsx:116 | with no entry for `id`, `{ id, progress }` is appended and all other entries stay in order |
| AppInteractions.RecordProgressMonotone | App.tsx:115-116 | the stored progress for `id` becomes `max(old, p)`, or `p` for a new entry; other ids keep theirs |
| AppInteractions.RecordProgressCommutes | App.tsx:111-118 | two progress reports for one id give the same history in either order |
| AppInteractions.FindEntry | App.tsx:114 | `findIndex` returns the first position holding `id`, or -1 exactly when there is none |
| AppInteractions.RunKeepsExclusive | App.tsx:122-146 | whatever sequence of likes, dislikes, saves, restores and progress reports occurs, no id ends up both liked and disliked |
| AppInteractions.LikeThenDislike | App.tsx:122-146 | a like followed by a dislike leaves the id disliked and not liked |
| AppStore.Store.constructor | App.tsx:24-48 | the state starts from the persisted interaction record and exclusion list, with an empty feed |
| AppStore.Store.HandleLikeToggle | App.tsx:122-133 | the record becomes `Like` of the old one, exclusion is preserved, and the other state is untouched |
| AppStore.Store.HandleDislikeToggle | App.tsx:135-146 | the record becomes `Dislike` of the old one, exclusion is preserved, and the other state is untouched |
| AppStore.Store.SaveVideo | App.tsx:251 | the record becomes `Save` of the old one |
| AppStore.Store.RestoreVideo | App.tsx:182 | the record becomes `Restore` of the old one |
| AppStore.Store.UpdateWatchHistory | App.tsx:111-118 | the copy-find-raise-or-push update leaves the history equal to the reference `RecordProgress` |
| AppStore.Store.HandleDeleteVideo | App.tsx:57-65 | `id` is appended to the exclusion list; the displayed list loses exactly the items whose id or public id is `id`, in order |
| AppStore.Store.LoadData | App.tsx:76-89 | the feed becomes the ranked merge of the admin-filtered catalog; every item shown is in the catalog and not excluded |
| AppFeed.AdminFilter | App.tsx:77-81 | an item is kept exactly when none of its id, public id and URL is on the exclusion list |
| AppFeed.AdminFilterKeepsOrder | App.tsx:77-81 | each kept item keeps its catalog count, and the filter splits over concatenation, so catalog order is kept |
| AppFeed.DeletedStaysDeleted | App.tsx:57-81 | after a delete, the next load keeps no item carrying the deleted id, and keeps every other item it kept before |
| AppFeed.FindById | App.tsx:85 | `find` returns nothing exactly when no item has the id, and otherwise the item at the first position holding that id |
| AppFeed.RankedItems | App.tsx:84-86 | the ranked part has at most one item per ranking entry (a repeated id brings its item again), each from the catalog and ranked |
| AppFeed.Unranked | App.tsx:88 | the rest of the feed is exactly the catalog items whose id is not ranked |
| AppFeed.Compose | App.tsx:84-89 | every item of the merged feed comes from the filtered catalog |
| AppFeed.RankedFollowsOrder | App.tsx:84-86 | the ranked part's ids are the ranking's known ids, in ranking order; unknown ids are dropped |
| AppFeed.ComposeCoversIds | App.tsx:84-89 | every id of the filtered catalog appears in the merged feed |
| AppFeed.RankedHolds | App.tsx:84-86 | a ranked id that some item has brings in the first such item |
| AppFeed.ComposeIsPermutation | App.tsx:84-89 | with distinct catalog ids and a ranking without repeats, the merged feed is a permutation of the filtered catalog |
| AppFeed.RepeatedRankDuplicates | App.tsx:84-89 | a ranking that repeats an id puts its item in the feed twice |
| AppFeed.SharedIdDrops | App.tsx:84-89 | of two catalog items sharing an id, a ranking of that id keeps only the first |
| AppFeed.ComposeExample | App.tsx:84-89 | catalog [A, B, C] ranked ["C", "A"] composes to [C, A, B] |
| AppFeed.IncludesIff | App.tsx:227 | `includes` holds exactly when the query occurs at some position of the title |
| AppFeed.SearchResults | App.tsx:227 | the search lists the first min(10, n) items whose title contains the query, in feed order |
| AppFeed.EmptyQueryListsAll | App.tsx:227 | an empty query lists the first ten items |
| Seqs.SortByBinaryKey | MainContent.tsx:104-108 | the stable sort by a 0/1 key lists the key-0 items, then the key-1 items, each in input order |
| Seqs.PermuteKeepsElements | MainContent.tsx:132 | any reordering by a permutation keeps every element as often as before |
| MainContent.ToInt32 | MainContent.tsx:13 | `x or 0` (bitwise) lands in the signed 32-bit range and fixes values already in it |
| MainContent.ToInt32Shift | MainContent.tsx:12-13 | ToInt32 depends only on its argument modulo 2^32 |
| MainContent.Hash | MainContent.tsx:11-14 | the hash stays in the signed 32-bit range after every step |
| MainContent.HashIsPolynomial | MainContent.tsx:11-14 | wrapping after each step gives the polynomial hash `sum s[i]*31^(n-1-i)` wrapped once to 32 bits |
| MainContent.TruncRem | MainContent.tsx:15-16 | `%` keeps the dividend's sign and stays below the divisor in magnitude |
| MainContent.DeterministicStats | MainContent.tsx:8-18 | the empty seed gives 0 views and 0 likes; any other seed gives views in [500, 10499], equal to the last four digits of the absolute 32-bit polynomial hash plus 500; likes lie in [0, 1673] |
| MainContent.HomeFeed | MainContent.tsx:98-109 | the feed is a reordering of exactly the catalog items whose `id`, or `video_url` when the id is missing, is neither liked nor disliked |
| MainContent.HomeFeedOrder | MainContent.tsx:98-109 | the feed lists the visible items with no history entry, then the visible watched items, each in catalog order |
| MainContent.Shorts | MainContent.tsx:135 | `shorts` holds exactly the feed's short items |
| MainContent.Longs | MainContent.tsx:136 | `longs` holds exactly the feed's long items |
| MainContent.ShortsLongsPartition | MainContent.tsx:135-136 | every feed item is in exactly one of the two halves, as often as in the feed |
| MainContent.ShortsOfHomeFeed | MainContent.tsx:104-135 | the shorts page also lists unwatched shorts before watched shorts, each in catalog order |
| MainContent.FindWatched | MainContent.tsx:116 | `find` returns nothing exactly when no item's id or URL is the entry's id, and otherwise the first item that matches |
| MainContent.Lookups | MainContent.tsx:115-118 | each entry maps to nothing exactly when no catalog item's id or URL is the entry's id; otherwise to the item at the first matching position, with the entry's progress |
| MainContent.Present | MainContent.tsx:119 | dropping the nulls keeps exactly the present entries |
| MainContent.ContinueWatching | MainContent.tsx:112-120 | the rail has at most one entry per history entry |
| MainContent.ContinueWatchingMembers | MainContent.tsx:112-120 | a rail entry exists exactly for a history entry with progress in (0.05, 0.95) whose id matches a catalog item, with that item and that progress |
| MainContent.ContinueWatchingConcat | MainContent.tsx:112-120 | the rail follows history order: the rail of two history segments is the first segment's rail followed by the second's |
| MainContent.LikedCategories | MainContent.tsx:124-125 | a category is liked exactly when some catalog item the user liked has it |
| MainContent.AffinityCandidates | MainContent.tsx:124-132 | before the shuffle, the candidates are exactly the catalog items sharing a category with some liked item and neither liked nor disliked themselves |
| MainContent.AffinityRail | MainContent.tsx:123-133 | the shuffled rail holds exactly the candidates, each as often as before the shuffle |
| MainContent.AffinityRailContents | MainContent.tsx:123-133 | whatever the shuffle order, the rail holds each item as often as the catalog does when a liked item shares its category and it is neither liked nor disliked, and otherwise not at all |
| ShortsPlayer.FindIndex | ShortsPlayerOverlay.tsx:21 | `findIndex` returns the first position holding the id, or -1 exactly when there is none |
| ShortsPlayer.InitialIndex | ShortsPlayerOverlay.tsx:20-23 | the player opens at the first position of the opened item, or at 0 when the list does not hold it |
| ShortsPlayer.PoolInRange | ShortsPlayerOverlay.tsx:83-90 | every entry pushed while visiting positions `0 .. k-1` is one of those positions and never the current one |
| ShortsPlayer.Pool | ShortsPlayerOverlay.tsx:82-90 | every entry of the finished pool is a position of the list other than the current one |
| ShortsPlayer.PoolCount | ShortsPlayerOverlay.tsx:83-90 | the multiplicity of a position in the pool is 1 for another item, 4 for a liked other item, 0 for the current one and for positions not yet visited |
| ShortsPlayer.PoolSize | ShortsPlayerOverlay.tsx:83-90 | the pool has one entry per other item plus three per liked other item |
| ShortsPlayer.PoolNonEmpty | ShortsPlayerOverlay.tsx:82-91 | with two or more items the pool has at least n-1 entries, so the draw always lands on an entry |
| ShortsPlayer.Pick | ShortsPlayerOverlay.tsx:91 | `Math.floor(r * n)` for `0 <= r < 1` is a position below n |
| ShortsPlayer.Player.constructor | ShortsPlayerOverlay.tsx:20-26 | the player starts at the initial index with auto-play on |
| ShortsPlayer.Player.HandleScroll | ShortsPlayerOverlay.tsx:65-72 | zero height changes nothing; otherwise the scrolled-to position becomes current exactly when it differs from the current one and is on the list |
| ShortsPlayer.Player.ToggleAutoPlay | ShortsPlayerOverlay.tsx:123 | the button flips auto-play and nothing else |
| ShortsPlayer.Player.BuildPool | ShortsPlayerOverlay.tsx:83-90 | the `forEach` builds exactly the pool the count and size lemmas describe |
| ShortsPlayer.Player.PlayNextSmartly | ShortsPlayerOverlay.tsx:81-99 | with at most one item nothing happens; otherwise the pool is non-empty and the draw scrolls to a pool entry, which is another position on the list |
| ShortsPlayer.Player.HandleVideoEnd | ShortsPlayerOverlay.tsx:101-111 | with auto-play off the current item restarts; with it on, nothing happens for at most one item, and otherwise the player scrolls to the pool entry `pool[floor(rand * n)]` of its n entries, another position on the list |
| LongPlayer.Suggestions | LongPlayerOverlay.tsx:33-35 | the suggestions are exactly the list items whose key differs from the playing item's, and there are no more of them than list items |
| LongPlayer.HandleEnd | LongPlayerOverlay.tsx:47-54 | the end switches items exactly when auto-play is on and some list item has another key, and then to such an item; otherwise it restarts |
| LongPlayer.FirstSuggestion | LongPlayerOverlay.tsx:33-35 | the first suggestion is the first list item with another key |
| LongPlayer.NextIsFirstOther | LongPlayerOverlay.tsx:47-49 | with auto-play on, the next item is the first list item with another key |
| LongPlayer.Marquee | LongPlayerOverlay.tsx:175 | the marquee is the suggestions twice over when there are more than 3, otherwise once; position i shows suggestion i mod n |
| LongPlayer.Coming | LongPlayerOverlay.tsx:216 | the "coming" list is the first min(5, n) suggestions |
| LongPlayer.ComingPrefixOfMarquee | LongPlayerOverlay.tsx:175-216 | the "coming" list is a prefix of the marquee |

## Left out

- Persistence is not modelled. That covers reading and writing the interaction record and the exclusion list in local storage, the JSON parsing and its fallback, and purging the caches on a hard refresh. The store's constructor takes the record as read.
- The network is not modelled: fetching the catalog and counting views in the database. The catalog is a parameter of `LoadData`.
- The ranking service and its shuffle fallback are not modelled. The ranking is an arbitrary list of ids passed to `LoadData`.
- Timers are not modelled: the five-minute refresh interval, the toast timeout and the loading flag. The interval callback keeps the `loadData` of the first render, and with it the exclusion list and interactions of that render. That staleness is not modelled either.
- The affinity rail's shuffle is random. `AffinityRail` takes the resulting order as a permutation parameter. `sort` with a random comparator is taken to return some permutation of its input.
- The smart-next draw `Math.random()` is a parameter `rand` in [0, 1).
- The scroll offset, the container height and `Math.round(scrollTop / height)` are left out. `HandleScroll` receives the height and the rounded position.
- Smart-next and the end handler do nothing when the container or the video element is missing. The model assumes both are mounted.
- DeterministicStats: `likes` is computed in exact decimal arithmetic. IEEE double rounding of `views * 0.15` is not modelled, so only its bounds are stated.
- `formatBigNumber` and its `toFixed` formatting are display-only.
- Progress ratios `currentTime / duration`, including NaN for an unknown duration, are not modelled. Progress is a real number given by the caller.
- AppStore.Store.UpdateWatchHistory: the source copies the history list but not its entries, so raising a progress also mutates the entry object of the previous state. The model treats entries as values and does not capture that aliasing.
- `handleAction` only forwards to the like, dislike and save handlers, which are modelled. The vibration is left out.
- Video elements, preloading of neighbouring items, thumbnails, pull-to-refresh and the layout are not modelled.
- AppStore.Store.LoadData: the `try`/`catch` that keeps the old feed on failure is not modelled.
