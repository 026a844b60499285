/** The list computations of the App component (App.tsx): the admin exclusion
    filter and the ranked merge that `loadData` applies to a freshly fetched
    catalog, and the title search of the search overlay. The ranking itself
    comes from an external service and is a parameter here. */
module AppFeed {
  import opened Seqs
  import opened Videos
  import opened Wrappers

  // ---------------------------------------------------------------------
  // Admin exclusion (App.tsx:77-81)

  /** None of `id`, `public_id` and `video_url` is on the deleted list. */
  predicate NotDeleted(v: Video, deleted: seq<string>) {
    v.id !in deleted && v.publicId !in deleted && v.videoUrl !in deleted
  }

  function KeepUndeleted(deleted: seq<string>): Video -> bool {
    (v: Video) => NotDeleted(v, deleted)
  }

  /** The catalog without the items the operator removed. */
  function AdminFilter(data: seq<Video>, deleted: seq<string>): (r: seq<Video>)
    ensures forall v :: v in r <==> v in data && v.id !in deleted && v.publicId !in deleted && v.videoUrl !in deleted
    ensures forall v :: v in r ==> v.id !in deleted
  {
    Filter(data, KeepUndeleted(deleted))
  }

  /** Each kept item is kept as often as the catalog holds it, and the kept
      items stay in catalog order (the filter splits over concatenation). */
  lemma AdminFilterKeepsOrder(a: seq<Video>, b: seq<Video>, deleted: seq<string>, v: Video)
    ensures AdminFilter(a + b, deleted) == AdminFilter(a, deleted) + AdminFilter(b, deleted)
    ensures multiset(AdminFilter(a, deleted))[v] == if NotDeleted(v, deleted) then multiset(a)[v] else 0
  {
    FilterConcat(a, b, KeepUndeleted(deleted));
    FilterCount(a, KeepUndeleted(deleted), v);
  }

  /** After the operator deletes `id`, the next load keeps no item whose id,
      public id or URL is `id`, and keeps every item it kept before. */
  lemma DeletedStaysDeleted(data: seq<Video>, deleted: seq<string>, id: string)
    ensures forall v :: v in AdminFilter(data, deleted + [id]) ==>
      v.id != id && v.publicId != id && v.videoUrl != id
    ensures forall v :: (v in AdminFilter(data, deleted) && v.id != id && v.publicId != id && v.videoUrl != id)
                       ==> v in AdminFilter(data, deleted + [id])
  {
  }

  // ---------------------------------------------------------------------
  // Ranked merge (App.tsx:84-89)

  /** `k` is the first position of `items` holding an item with id `id`. */
  predicate FirstIdAt(items: seq<Video>, id: string, k: int) {
    0 <= k < |items| && items[k].id == id && forall j :: 0 <= j < k ==> items[j].id != id
  }

  /** `filtered.find(v => v.id === id)`: the first item with that id. */
  function FindById(items: seq<Video>, id: string): (r: Option<Video>)
    ensures r.None? <==> id !in IdsOf(items)
    ensures r.Some? ==> r.value in items && r.value.id == id
    ensures r.Some? ==> exists k :: FirstIdAt(items, id, k) && items[k] == r.value
  {
    if items == [] then None
    else if items[0].id == id then
      assert FirstIdAt(items, id, 0);
      Some(items[0])
    else
      assert IdsOf(items) == [items[0].id] + IdsOf(items[1..]);
      var r := FindById(items[1..], id);
      if r.Some? then
        var k :| FirstIdAt(items[1..], id, k) && items[1..][k] == r.value;
        FirstIdAtTail(items, id, k);
        r
      else r
  }

  lemma FirstIdAtTail(items: seq<Video>, id: string, k: int)
    requires items != [] && items[0].id != id && FirstIdAt(items[1..], id, k)
    ensures FirstIdAt(items, id, k + 1) && items[k + 1] == items[1..][k]
  {
    forall j | 0 <= j < k + 1 ensures items[j].id != id {
      if j > 0 {
        assert items[j] == items[1..][j - 1];
      }
    }
  }

  /** The found item as a list of zero or one element. */
  function Found(r: Option<Video>): seq<Video> {
    match r
    case Some(v) => [v]
    case None => []
  }

  /** `recommendedOrder.map(id => find(id)).filter(v => !!v)`. */
  function RankedItems(order: seq<string>, items: seq<Video>): (r: seq<Video>)
    ensures |r| <= |order|
    ensures forall v :: v in r ==> v in items && v.id in order
  {
    if order == [] then []
    else Found(FindById(items, order[0])) + RankedItems(order[1..], items)
  }

  function IdNotIn(order: seq<string>): Video -> bool {
    (v: Video) => v.id !in order
  }

  /** `filtered.filter(v => !recommendedOrder.includes(v.id))`. */
  function Unranked(items: seq<Video>, order: seq<string>): (r: seq<Video>)
    ensures forall v :: v in r <==> v in items && v.id !in order
  {
    Filter(items, IdNotIn(order))
  }

  /** The feed `loadData` stores: ranked items in ranking order, then the
      rest of the filtered catalog in catalog order. */
  function Compose(items: seq<Video>, order: seq<string>): (r: seq<Video>)
    ensures forall v :: v in r ==> v in items
  {
    RankedItems(order, items) + Unranked(items, order)
  }

  function IdIn(items: seq<Video>): string -> bool {
    (id: string) => id in IdsOf(items)
  }

  /** The ranked part follows the ranking exactly, skipping the ids that no
      item has: its ids are the ranking's known ids in ranking order. */
  lemma {:induction false} RankedFollowsOrder(order: seq<string>, items: seq<Video>)
    ensures IdsOf(RankedItems(order, items)) == Filter(order, IdIn(items))
  {
    if order != [] {
      RankedFollowsOrder(order[1..], items);
      IdsOfConcat(Found(FindById(items, order[0])), RankedItems(order[1..], items));
    }
  }

  lemma IdOfMember(vs: seq<Video>, w: Video)
    requires w in vs
    ensures w.id in IdsOf(vs)
  {
    var k :| 0 <= k < |vs| && vs[k] == w;
    assert IdsOf(vs)[k] == w.id;
  }

  /** Every id of the filtered catalog appears in the composed feed. */
  lemma ComposeCoversIds(items: seq<Video>, order: seq<string>, v: Video)
    requires v in items
    ensures v.id in IdsOf(Compose(items, order))
  {
    var r := Compose(items, order);
    if v.id in order {
      IdOfMember(items, v);
      RankedHolds(order, items, v.id);
      var w := FindById(items, v.id).value;
      assert w in r;
      IdOfMember(r, w);
    } else {
      assert v in Unranked(items, order);
      assert v in r;
      IdOfMember(r, v);
    }
  }

  /** An id of the ranking that some item has brings in the first such item. */
  lemma {:induction false} RankedHolds(order: seq<string>, items: seq<Video>, id: string)
    requires id in order && id in IdsOf(items)
    ensures FindById(items, id).value in RankedItems(order, items)
  {
    if order[0] != id {
      RankedHolds(order[1..], items, id);
    }
  }

  // The permutation argument: with distinct catalog ids and a ranking without
  // repeats, the composed feed holds every filtered item exactly once.

  function IdIsNot(id: string): Video -> bool {
    (v: Video) => v.id != id
  }

  /** A filter keeps ids distinct. */
  lemma {:induction false} FilterDistinctIds(items: seq<Video>, p: Video -> bool)
    requires DistinctIds(items)
    ensures DistinctIds(Filter(items, p))
  {
    if items != [] {
      var t := items[1..];
      assert DistinctIds(t) by {
        forall i, j | 0 <= i < j < |t| ensures t[i].id != t[j].id {
          assert t[i] == items[i + 1] && t[j] == items[j + 1];
        }
      }
      FilterDistinctIds(t, p);
      if p(items[0]) {
        var f := Filter(t, p);
        forall w | w in f ensures w.id != items[0].id {
          var k :| 0 <= k < |t| && t[k] == w;
          assert items[k + 1] == w;
        }
        var r := [items[0]] + f;
        forall i, j | 0 <= i < j < |r| ensures r[i].id != r[j].id {
          if i == 0 {
            assert r[j] in f;
          } else {
            assert r[i] == f[i - 1] && r[j] == f[j - 1];
          }
        }
      }
    }
  }

  /** Splitting off the item with a given id: with distinct ids, the catalog
      is that item (if any) plus the items with other ids. */
  lemma {:induction false} SplitById(items: seq<Video>, id: string)
    requires DistinctIds(items)
    ensures multiset(items) == multiset(Found(FindById(items, id))) + multiset(Filter(items, IdIsNot(id)))
  {
    if items != [] {
      var t := items[1..];
      assert items == [items[0]] + t;
      assert DistinctIds(t) by {
        forall i, j | 0 <= i < j < |t| ensures t[i].id != t[j].id {
          assert t[i] == items[i + 1] && t[j] == items[j + 1];
        }
      }
      if items[0].id == id {
        forall w | w in t ensures IdIsNot(id)(w) {
          var k :| 0 <= k < |t| && t[k] == w;
          assert items[k + 1] == w;
        }
        FilterAll(t, IdIsNot(id));
      } else {
        SplitById(t, id);
      }
    }
  }

  /** Removing the items with one id does not change what another id finds. */
  lemma {:induction false} FindAfterRemove(items: seq<Video>, id: string, other: string)
    requires other != id
    ensures FindById(Filter(items, IdIsNot(id)), other) == FindById(items, other)
  {
    if items != [] {
      FindAfterRemove(items[1..], id, other);
    }
  }

  /** The ranked part of a ranking that never names `id` does not depend on
      the items with that id. */
  lemma {:induction false} RankedAfterRemove(order: seq<string>, items: seq<Video>, id: string)
    requires id !in order
    ensures RankedItems(order, Filter(items, IdIsNot(id))) == RankedItems(order, items)
  {
    if order != [] {
      FindAfterRemove(items, id, order[0]);
      RankedAfterRemove(order[1..], items, id);
    }
  }

  /** The tail of a ranking without repeats has no repeats and does not
      hold the head. */
  lemma DistinctTail(order: seq<string>)
    requires Distinct(order) && order != []
    ensures order[0] !in order[1..]
    ensures Distinct(order[1..])
  {
    var rest := order[1..];
    forall k | 0 <= k < |rest| ensures rest[k] != order[0] {
      assert rest[k] == order[k + 1];
    }
    forall i, j | 0 <= i < j < |rest| ensures rest[i] != rest[j] {
      assert rest[i] == order[i + 1] && rest[j] == order[j + 1];
    }
  }

  /** Regrouping a concatenation, stated over plain sequences so that the
      solver does not search for it among the feed's own terms. */
  lemma ConcatAssoc(a: seq<Video>, b: seq<Video>, c: seq<Video>)
    ensures (a + b) + c == a + (b + c)
  {
  }

  /** The ranked part of a ranking whose head is not repeated: the head's
      item, then the rest of the ranking over the items with other ids. */
  lemma RankedStep(items: seq<Video>, order: seq<string>)
    requires order != [] && order[0] !in order[1..]
    ensures RankedItems(order, items) ==
      Found(FindById(items, order[0])) + RankedItems(order[1..], Filter(items, IdIsNot(order[0])))
  {
    RankedAfterRemove(order[1..], items, order[0]);
  }

  /** The unranked part does not change when the head's items are removed
      and the head leaves the ranking. */
  lemma UnrankedStep(items: seq<Video>, order: seq<string>)
    requires order != []
    ensures Unranked(items, order) == Unranked(Filter(items, IdIsNot(order[0])), order[1..])
  {
    assert order == [order[0]] + order[1..];
    FilterFilter(items, IdIsNot(order[0]), IdNotIn(order[1..]), IdNotIn(order));
  }

  /** Composing with a ranking whose head is not repeated: the head's item,
      then the composition of the other items with the rest of the ranking. */
  lemma ComposeStep(items: seq<Video>, order: seq<string>)
    requires order != [] && order[0] !in order[1..]
    ensures Compose(items, order) ==
      Found(FindById(items, order[0])) + Compose(Filter(items, IdIsNot(order[0])), order[1..])
  {
    var found, others := Found(FindById(items, order[0])), Filter(items, IdIsNot(order[0]));
    RankedStep(items, order);
    UnrankedStep(items, order);
    ConcatAssoc(found, RankedItems(order[1..], others), Unranked(others, order[1..]));
  }

  /** With distinct catalog ids and a ranking without repeats, the composed
      feed is a permutation of the filtered catalog: nothing lost, nothing
      doubled, whatever ids the ranking contains. */
  lemma {:induction false} ComposeIsPermutation(items: seq<Video>, order: seq<string>)
    requires DistinctIds(items)
    requires Distinct(order)
    ensures multiset(Compose(items, order)) == multiset(items)
    decreases |order|
  {
    if order == [] {
      FilterAll(items, IdNotIn(order));
      assert Compose(items, order) == items;
    } else {
      DistinctTail(order);
      var others := Filter(items, IdIsNot(order[0]));
      FilterDistinctIds(items, IdIsNot(order[0]));
      ComposeIsPermutation(others, order[1..]);
      ComposeStep(items, order);
      SplitById(items, order[0]);
    }
  }

  /** A ranking that repeats an id repeats its item: the composed feed is then
      not a permutation of the catalog. */
  lemma RepeatedRankDuplicates(v: Video)
    ensures Compose([v], [v.id, v.id]) == [v, v]
  {
    assert [v][1..] == [];
    assert [v.id, v.id][1..] == [v.id];
    assert RankedItems([v.id, v.id], [v]) == [v, v];
    assert Unranked([v], [v.id, v.id]) == [];
  }

  /** Two catalog items with the same id: the ranked id brings in only the
      first, and the second is dropped from the feed. */
  lemma SharedIdDrops(v: Video, w: Video)
    requires v.id == w.id && v != w
    ensures Compose([v, w], [v.id]) == [v]
    ensures w !in Compose([v, w], [v.id])
  {
    assert [v, w][1..] == [w];
    assert [w][1..] == [];
    assert RankedItems([v.id], [v, w]) == [v];
    var p := IdNotIn([v.id]);
    assert !p(v) && !p(w);
    assert Filter([v, w], p) == Filter([w], p) == Filter([], p) == [];
  }

  /** The lookup stops at a head item carrying the id. */
  lemma FindHead(items: seq<Video>, id: string)
    requires items != [] && items[0].id == id
    ensures FindById(items, id) == Some(items[0])
  {
  }

  /** The lookup passes over a head item carrying another id. */
  lemma FindSkip(items: seq<Video>, id: string)
    requires items != [] && items[0].id != id
    ensures FindById(items, id) == FindById(items[1..], id)
  {
  }

  /** A two-entry ranking whose ids both resolve yields their items in order. */
  lemma RankedPair(items: seq<Video>, x: string, y: string, u: Video, w: Video)
    requires FindById(items, x) == Some(u) && FindById(items, y) == Some(w)
    ensures RankedItems([x, y], items) == [u, w]
  {
    assert [x, y][1..] == [y];
    assert [y][1..] == [];
  }

  /** In the catalog A, B, C the lookup finds C last and A first. */
  lemma FindExample(a: Video, b: Video, c: Video)
    requires a.id == "A" && b.id == "B" && c.id == "C"
    ensures FindById([a, b, c], "C") == Some(c) && FindById([a, b, c], "A") == Some(a)
  {
    assert [a, b, c][1..] == [b, c];
    assert [b, c][1..] == [c];
    assert "A" != "C" && "B" != "C";
    FindSkip([a, b, c], "C");
    FindSkip([b, c], "C");
    FindHead([c], "C");
    FindHead([a, b, c], "A");
  }

  /** Ranked ["C", "A"], the three-item catalog A, B, C leaves only B unranked. */
  lemma UnrankedExample(a: Video, b: Video, c: Video)
    requires a.id == "A" && b.id == "B" && c.id == "C"
    ensures Unranked([a, b, c], ["C", "A"]) == [b]
  {
    assert [a, b, c][1..] == [b, c];
    assert [b, c][1..] == [c];
    assert [c][1..] == [];
    var p := IdNotIn(["C", "A"]);
    assert "B" != "C" && "B" != "A";
    assert !p(a) && p(b) && !p(c);
    assert Filter([a, b, c], p) == Filter([b, c], p) == [b] + Filter([c], p);
    assert Filter([c], p) == Filter([], p) == [];
  }

  /** A three-item catalog ranked ["C", "A"] composes to C, A, B. */
  lemma ComposeExample(a: Video, b: Video, c: Video)
    requires a.id == "A" && b.id == "B" && c.id == "C"
    ensures Compose([a, b, c], ["C", "A"]) == [c, a, b]
  {
    FindExample(a, b, c);
    RankedPair([a, b, c], "C", "A", c, a);
    UnrankedExample(a, b, c);
    assert [c, a] + [b] == [c, a, b];
  }

  // ---------------------------------------------------------------------
  // Title search (App.tsx:227)

  /** `s.startsWith(q)`. */
  predicate StartsWith(s: string, q: string) {
    |q| <= |s| && s[..|q|] == q
  }

  /** `s.includes(q)`: some suffix of `s` starts with `q`. */
  predicate Includes(s: string, q: string)
    decreases |s|
  {
    StartsWith(s, q) || (s != [] && Includes(s[1..], q))
  }

  /** `q` occurs in `s` at position `i`. */
  predicate OccursAt(s: string, q: string, i: int) {
    0 <= i <= |s| - |q| && s[i..i + |q|] == q
  }

  /** `includes` finds `q` exactly when `q` occurs at some position of `s`. */
  lemma {:induction false} IncludesIff(s: string, q: string)
    ensures Includes(s, q) <==> exists i :: OccursAt(s, q, i)
    decreases |s|
  {
    if StartsWith(s, q) {
      assert OccursAt(s, q, 0);
    } else if s != [] {
      IncludesIff(s[1..], q);
      if Includes(s[1..], q) {
        var i :| OccursAt(s[1..], q, i);
        assert s[1..][i..i + |q|] == s[i + 1..i + 1 + |q|];
        assert OccursAt(s, q, i + 1);
      }
      if i :| OccursAt(s, q, i) {
        assert i != 0;
        assert s[1..][i - 1..i - 1 + |q|] == s[i..i + |q|];
        assert OccursAt(s[1..], q, i - 1);
      }
    }
  }

  function TitleHas(q: string): Video -> bool {
    (v: Video) => Includes(v.title, q)
  }

  /** The search overlay's list: the first ten items whose title contains the
      query, in catalog order. */
  function SearchResults(videos: seq<Video>, q: string): (r: seq<Video>)
    ensures |r| <= 10
    ensures forall v :: v in r ==> v in videos && Includes(v.title, q)
    ensures var all := Filter(videos, TitleHas(q)); |r| == (if |all| < 10 then |all| else 10) && r == all[..|r|]
  {
    var all := Filter(videos, TitleHas(q));
    if |all| < 10 then all else all[..10]
  }

  /** An empty query lists the first ten items of the catalog. */
  lemma EmptyQueryListsAll(videos: seq<Video>)
    ensures SearchResults(videos, "") == videos[..if |videos| < 10 then |videos| else 10]
  {
    forall v | v in videos ensures TitleHas("")(v) {
      assert StartsWith(v.title, "");
    }
    FilterAll(videos, TitleHas(""));
  }
}
