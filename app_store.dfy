/** The state the App component (App.tsx) holds and the handlers that update
    it. Each React state variable is a field; each handler is a method whose
    postcondition gives the new state in terms of the old one. Persisting to
    local storage after each change is not modelled. */
module AppStore {
  import opened Seqs
  import opened Videos
  import opened AppInteractions
  import opened AppFeed

  /** Items that `handleDeleteVideo` keeps in the displayed list. */
  function NeitherIdNorPublicId(id: string): Video -> bool {
    (v: Video) => v.id != id && v.publicId != id
  }

  class Store {
    /** `interactions`: likes, dislikes, saves and watch history. */
    var interactions: Interactions
    /** `deletedByAdmin`: ids, public ids and URLs the operator removed. */
    var deletedByAdmin: seq<string>
    /** `rawVideos`: the composed feed the pages display. */
    var rawVideos: seq<Video>

    /** The state after the persisted records were read back (the reading
        itself, and its fallback to empty records, are not modelled). */
    constructor (persisted: Interactions, persistedDeleted: seq<string>)
      ensures interactions == persisted
      ensures deletedByAdmin == persistedDeleted
      ensures rawVideos == []
    {
      interactions := persisted;
      deletedByAdmin := persistedDeleted;
      rawVideos := [];
    }

    method HandleLikeToggle(id: string)
      modifies this
      ensures interactions == Like(old(interactions), id)
      ensures Exclusive(old(interactions)) ==> Exclusive(interactions)
      ensures deletedByAdmin == old(deletedByAdmin) && rawVideos == old(rawVideos)
    {
      interactions := Like(interactions, id);
    }

    method HandleDislikeToggle(id: string)
      modifies this
      ensures interactions == Dislike(old(interactions), id)
      ensures Exclusive(old(interactions)) ==> Exclusive(interactions)
      ensures deletedByAdmin == old(deletedByAdmin) && rawVideos == old(rawVideos)
    {
      interactions := Dislike(interactions, id);
    }

    /** `onSave` of either player. */
    method SaveVideo(id: string)
      modifies this
      ensures interactions == Save(old(interactions), id)
      ensures Exclusive(old(interactions)) ==> Exclusive(interactions)
      ensures deletedByAdmin == old(deletedByAdmin) && rawVideos == old(rawVideos)
    {
      interactions := Save(interactions, id);
    }

    /** `onRestore` of the hidden-videos page. */
    method RestoreVideo(id: string)
      modifies this
      ensures interactions == Restore(old(interactions), id)
      ensures Exclusive(old(interactions)) ==> Exclusive(interactions)
      ensures deletedByAdmin == old(deletedByAdmin) && rawVideos == old(rawVideos)
    {
      interactions := Restore(interactions, id);
    }

    /** `updateWatchHistory`: copy the history, find the entry for `id`, raise
        its progress in place when `progress` is larger, or push a new entry. */
    method UpdateWatchHistory(id: string, progress: real)
      modifies this
      ensures interactions == old(interactions).(watchHistory := RecordProgress(old(interactions.watchHistory), id, progress))
      ensures Exclusive(old(interactions)) ==> Exclusive(interactions)
      ensures deletedByAdmin == old(deletedByAdmin) && rawVideos == old(rawVideos)
    {
      var history := interactions.watchHistory;
      var index := FindEntry(history, id);
      if index > -1 {
        RecordProgressAt(history, id, progress, index);
        if progress > history[index].progress {
          history := history[index := history[index].(progress := progress)];
        } else {
          assert history[index := history[index]] == history;
        }
      } else {
        RecordProgressAppends(history, id, progress);
        history := history + [HistoryEntry(id, progress)];
      }
      interactions := interactions.(watchHistory := history);
    }

    /** `handleDeleteVideo`: the id joins the exclusion list, and the displayed
        list loses every item whose id or public id is `id`. */
    method HandleDeleteVideo(id: string)
      modifies this
      ensures deletedByAdmin == old(deletedByAdmin) + [id]
      ensures rawVideos == Filter(old(rawVideos), NeitherIdNorPublicId(id))
      ensures forall v :: v in rawVideos <==> v in old(rawVideos) && v.id != id && v.publicId != id
      ensures interactions == old(interactions)
    {
      deletedByAdmin := deletedByAdmin + [id];
      rawVideos := Filter(rawVideos, NeitherIdNorPublicId(id));
    }

    /** The list part of `loadData`: filter the fetched catalog against the
        exclusion list, then merge it with the ranking the service returned. */
    method LoadData(data: seq<Video>, ranking: seq<string>)
      modifies this
      ensures rawVideos == Compose(AdminFilter(data, deletedByAdmin), ranking)
      ensures forall v :: v in rawVideos ==> v in data && NotDeleted(v, deletedByAdmin)
      ensures interactions == old(interactions) && deletedByAdmin == old(deletedByAdmin)
    {
      var filtered := AdminFilter(data, deletedByAdmin);
      rawVideos := Compose(filtered, ranking);
    }
  }
}
