/** The YouTube side of the sync. The three Data API calls become fields of
    an `Api` value: each maps its request parameter to the reply the call
    would produce. Every failure collapses to `None` or to the empty list,
    as the service's `catch` blocks do. */
module YouTubeService {
  import opened Wrappers
  import opened Catalog

  /** A list reply: the call threw, the reply had no `items` field, or it
      carried these items. */
  datatype Listing<T> = Threw | Absent | Items(items: seq<T>)

  /** `search.list` item; `channelId` is `None` when `id.channelId` is missing. */
  datatype SearchItem = SearchItem(channelId: Option<string>)

  /** `channels.list` item; `uploads` is `None` when
      `contentDetails.relatedPlaylists.uploads` cannot be read. */
  datatype ChannelItem = ChannelItem(uploads: Option<string>)

  /** `playlistItems.list` item: the fields of its `snippet` the service
      reads; `highThumbnail` is `None` when `thumbnails.high` is missing. */
  datatype PlaylistItem = PlaylistItem(
    videoId: string,
    title: string,
    description: string,
    publishedAt: string,
    highThumbnail: Option<string>)

  /** The replies of the API, by request parameter: the search query, the
      channel id and the playlist id. */
  datatype Api = Api(
    search: string -> Listing<SearchItem>,
    channels: string -> Listing<ChannelItem>,
    playlistItems: string -> Listing<PlaylistItem>)

  const WatchPrefix := "https://www.youtube.com/watch?v="

  /** True when the reply carries at least one item. */
  predicate NonEmpty<T>(l: Listing<T>)
  {
    l.Items? && |l.items| > 0
  }

  /** Every item carries a "high" thumbnail. */
  predicate AllHaveHigh(items: seq<PlaylistItem>)
  {
    forall i :: 0 <= i < |items| ==> items[i].highThumbnail.Some?
  }

  // ---------------------------------------------------------------------------
  // Watch URLs

  /** The canonical watch URL of a video id. */
  function WatchUrl(id: string): (url: string)
    ensures |url| == |WatchPrefix| + |id|
    ensures url[..|WatchPrefix|] == WatchPrefix && url[|WatchPrefix|..] == id
  {
    WatchPrefix + id
  }

  /** Reads the video id back out of a watch URL. */
  function VideoIdOfUrl(url: string): (id: Option<string>)
    ensures id.Some? <==> |url| >= |WatchPrefix| && url[..|WatchPrefix|] == WatchPrefix
  {
    if |url| >= |WatchPrefix| && url[..|WatchPrefix|] == WatchPrefix
    then Some(url[|WatchPrefix|..])
    else None
  }

  /** Parsing a watch URL undoes building it, and a URL that parses is the
      watch URL of what it parses to. */
  lemma WatchUrlRoundTrip(id: string, url: string)
    ensures VideoIdOfUrl(WatchUrl(id)) == Some(id)
    ensures VideoIdOfUrl(url) == Some(id) ==> WatchUrl(id) == url
  {
  }

  /** Two videos share a watch URL exactly when they share an id. */
  lemma WatchUrlInjective(a: string, b: string)
    ensures WatchUrl(a) == WatchUrl(b) <==> a == b
  {
  }

  // ---------------------------------------------------------------------------
  // getChannelIdByUsername and getMyVideos

  /** `getChannelIdByUsername`: the first search result's channel id, or
      `None` when the search threw or found nothing. */
  function GetChannelIdByUsername(api: Api, username: string): (cid: Option<string>)
    ensures !NonEmpty(api.search(username)) ==> cid == None
    ensures NonEmpty(api.search(username)) ==> cid == api.search(username).items[0].channelId
  {
    match api.search(username)
    case Items(items) => if |items| == 0 then None else items[0].channelId
    case _ => None
  }

  /** The record built from one playlist item. */
  function ToVideo(item: PlaylistItem): (v: Video)
    requires item.highThumbnail.Some?
    ensures v.id == item.videoId && VideoIdOfUrl(v.url) == Some(v.id)
    ensures v.title == item.title && v.description == item.description && v.uploadedAt == item.publishedAt
    ensures v.thumbnail == item.highThumbnail.value
  {
    WatchUrlRoundTrip(item.videoId, WatchPrefix + item.videoId);
    Video(item.videoId, item.title, item.description, WatchUrl(item.videoId),
          item.highThumbnail.value, item.publishedAt)
  }

  /** The `map` over the playlist items; reading `thumbnails.high.url` of an
      item without it throws, which the caller turns into the empty list. */
  function MapItems(items: seq<PlaylistItem>): (r: Option<seq<Video>>)
    ensures r.Some? <==> forall i :: 0 <= i < |items| ==> items[i].highThumbnail.Some?
    ensures r.Some? ==> |r.value| == |items|
    ensures r.Some? ==> forall i :: 0 <= i < |items| ==> r.value[i] == ToVideo(items[i])
  {
    if items == [] then Some([])
    else if items[0].highThumbnail.None? then None
    else
      var rest := MapItems(items[1..]);
      assert forall i :: 1 <= i < |items| ==> items[i] == items[1..][i - 1];
      if rest.None? then None else Some([ToVideo(items[0])] + rest.value)
  }

  /** `getMyVideos`: resolves the channel, its uploads playlist and the
      playlist's items; any missing step yields the empty list. */
  function GetMyVideos(api: Api, username: string): (videos: seq<Video>)
    ensures GetChannelIdByUsername(api, username) in {None, Some("")} ==> videos == []
    ensures forall c :: GetChannelIdByUsername(api, username) == Some(c) && !NonEmpty(api.channels(c))
                        ==> videos == []
    ensures forall c, p ::
              && GetChannelIdByUsername(api, username) == Some(c)
              && NonEmpty(api.channels(c))
              && api.channels(c).items[0].uploads == Some(p)
              && !NonEmpty(api.playlistItems(p))
              ==> videos == []
    ensures videos != [] ==> VideosFromPlaylist(api, username, videos)
    ensures forall c, p ::
              && GetChannelIdByUsername(api, username) == Some(c) && c != ""
              && NonEmpty(api.channels(c))
              && api.channels(c).items[0].uploads == Some(p)
              && NonEmpty(api.playlistItems(p))
              && AllHaveHigh(api.playlistItems(p).items)
              ==> |videos| == |api.playlistItems(p).items| > 0
  {
    var cid := GetChannelIdByUsername(api, username);
    if cid.None? || cid.value == "" then []
    else
      var channels := api.channels(cid.value);
      if !NonEmpty(channels) then []
      else
        var uploads := channels.items[0].uploads;
        if uploads.None? then []
        else
          var playlist := api.playlistItems(uploads.value);
          if !NonEmpty(playlist) then []
          else
            var mapped := MapItems(playlist.items);
            if mapped.None? then [] else mapped.value
  }

  /** `videos` is the one-to-one image, in order, of the items of the uploads
      playlist of the first channel the search found. */
  ghost predicate VideosFromPlaylist(api: Api, username: string, videos: seq<Video>)
  {
    exists c, p ::
      && GetChannelIdByUsername(api, username) == Some(c) && c != ""
      && NonEmpty(api.channels(c))
      && api.channels(c).items[0].uploads == Some(p)
      && NonEmpty(api.playlistItems(p))
      && |videos| == |api.playlistItems(p).items|
      && forall i :: 0 <= i < |videos| ==>
           && api.playlistItems(p).items[i].highThumbnail.Some?
           && videos[i] == ToVideo(api.playlistItems(p).items[i])
  }

  /** When every step of the lookup succeeds and every item has a "high"
      thumbnail, the catalog is exactly the mapped playlist. */
  lemma GetMyVideosSuccess(api: Api, username: string, c: string, p: string)
    requires GetChannelIdByUsername(api, username) == Some(c) && c != ""
    requires NonEmpty(api.channels(c)) && api.channels(c).items[0].uploads == Some(p)
    requires NonEmpty(api.playlistItems(p))
    requires forall i :: 0 <= i < |api.playlistItems(p).items| ==> api.playlistItems(p).items[i].highThumbnail.Some?
    ensures |GetMyVideos(api, username)| == |api.playlistItems(p).items|
    ensures forall i :: 0 <= i < |api.playlistItems(p).items| ==>
              && GetMyVideos(api, username)[i].id == api.playlistItems(p).items[i].videoId
              && GetMyVideos(api, username)[i].url == WatchUrl(api.playlistItems(p).items[i].videoId)
              && GetMyVideos(api, username)[i].title == api.playlistItems(p).items[i].title
              && GetMyVideos(api, username)[i].description == api.playlistItems(p).items[i].description
              && GetMyVideos(api, username)[i].uploadedAt == api.playlistItems(p).items[i].publishedAt
              && Some(GetMyVideos(api, username)[i].thumbnail) == api.playlistItems(p).items[i].highThumbnail
  {
  }

  /** An item without a "high" thumbnail empties the whole catalog. */
  lemma MissingThumbnailEmpties(api: Api, username: string, c: string, p: string, k: nat)
    requires GetChannelIdByUsername(api, username) == Some(c) && c != ""
    requires NonEmpty(api.channels(c)) && api.channels(c).items[0].uploads == Some(p)
    requires api.playlistItems(p).Items? && k < |api.playlistItems(p).items|
    requires api.playlistItems(p).items[k].highThumbnail.None?
    ensures GetMyVideos(api, username) == []
  {
  }
}
