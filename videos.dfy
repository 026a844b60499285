/** The content item every component works on, and the identity keys the
    components use for it. A missing field is the empty string. */
module Videos {

  datatype VideoType = Short | Long

  /** One playable asset of the catalog (`poster_url` and the other
      display-only fields are not modelled). */
  datatype Video = Video(
    id: string,
    publicId: string,
    videoUrl: string,
    kind: VideoType,
    title: string,
    category: string)

  /** `v.id || v.video_url`: the id, or the media URL when the id is missing. */
  function Key(v: Video): string {
    if v.id != "" then v.id else v.videoUrl
  }

  /** The `id` fields of `vs`, in order. */
  function IdsOf(vs: seq<Video>): (r: seq<string>)
    ensures |r| == |vs|
    ensures forall i :: 0 <= i < |vs| ==> r[i] == vs[i].id
  {
    seq(|vs|, i requires 0 <= i < |vs| => vs[i].id)
  }

  /** The ids of a concatenation are the concatenated ids. */
  lemma IdsOfConcat(a: seq<Video>, b: seq<Video>)
    ensures IdsOf(a + b) == IdsOf(a) + IdsOf(b)
  {
  }

  /** No two items of `vs` share an `id`. */
  predicate DistinctIds(vs: seq<Video>) {
    forall i, j :: 0 <= i < j < |vs| ==> vs[i].id != vs[j].id
  }
}
