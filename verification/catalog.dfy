/** The normalised video record that the YouTube service produces and the
    Notion service stores: one entry of the creator's catalog. */
module Catalog {

  datatype Video = Video(
    id: string,
    title: string,
    description: string,
    url: string,
    thumbnail: string,
    uploadedAt: string)

  /** The set of video ids occurring in a list of videos. */
  function IdSet(videos: seq<Video>): set<string>
  {
    set i | 0 <= i < |videos| :: videos[i].id
  }

  /** No id occurs twice in the list. */
  predicate DistinctIds(videos: seq<Video>)
  {
    forall i, j :: 0 <= i < j < |videos| ==> videos[i].id != videos[j].id
  }

  /** The ids of a non-empty list are its head's id and the ids of its tail. */
  lemma IdSetCons(videos: seq<Video>)
    requires videos != []
    ensures IdSet(videos) == {videos[0].id} + IdSet(videos[1..])
  {
  }
}
