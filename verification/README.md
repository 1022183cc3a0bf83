# notion-youtube-videos — a Dafny model of the sync core

The repository copies a YouTube channel's uploads into a Notion database.
It has three parts. The Notion service checks and repairs the database
schema and inserts a page for each video it does not already hold. The
YouTube service turns three Data API replies into a list of video
records. `main` reconciles the schema first, then inserts the videos one
at a time.

This project models those parts as pure functions over immutable values:

- `Wrappers` holds `Option` and `Result`.
- `Catalog` holds the `Video` record the two services exchange.
- `NotionService` models the database. The schema is a `map` from property
  name to `PropertyType`, a type identified by its Notion type name, and the rows are a `seq<Row>`.
  `checkDatabaseAttributes` becomes a function that returns either a
  `SchemaError` or the updates it issues together with the resulting
  schema. `updateProperty` returns the updated schema, `videoExists`
  returns a `bool` and `createNotionRecord` returns the new rows.
- `YouTubeService` models the API. An `Api` value holds the reply of each
  call (`search.list`, `channels.list`, `playlistItems.list`) as a function
  of its request parameter. A reply either threw, had no `items` field, or
  carried items. `getChannelIdByUsername` and `getMyVideos` become functions
  that return `Option<string>` and `seq<Video>`.
- `SyncMain` models `main` as `Sync`. `Sync` reconciles the schema and then
  folds `createNotionRecord` over the catalog. The fold is `InsertAll`.

The behaviour of the code that the model keeps:

- A `Name` property that is missing or not of type `title` makes
  reconciliation fail before any update is issued.
- Every YouTube failure becomes `null` or `[]`.
- The thumbnail is always the `high` variant.
- `UploadedAt` is always written.

It also keeps these edge cases:

- `if (!channelId)` treats an empty channel id like a missing one.
- Updates are planned against the schema as first retrieved. They are then
  issued in the fixed order Description, URL, VideoID, UploadedAt.
- Reading `thumbnails.high.url` of an item that lacks it throws inside the
  `map`. The `catch` block then turns the whole catalog into `[]`.

## Model

| member | source | states |
|---|---|---|
| `NotionService.UpdateProperty` | src/services/notionService.ts:6-16 | afterwards the property exists with the requested type; every other property is unchanged; the key set grows by at most that property |
| `NotionService.PlanUpdates` | src/services/notionService.ts:26-38 | the updates are exactly the requirements the retrieved schema does not meet, in requirement order (a subsequence of all required updates); no update is issued for a met requirement; the plan is empty iff every requirement is met |
| `NotionService.CheckDatabaseAttributes` | src/services/notionService.ts:18-43 | fails iff `Name` is absent or not `title`. On success, all four required properties have their types and `Name` is still `title`. No property outside the four is touched. One update is issued per missing or mistyped property, in order. "Up to date" is reported iff no update was issued, which happens iff the schema already conformed |
| `NotionService.ApplyPlan` | src/services/notionService.ts:33-38 | for any list of requirements with distinct names, issuing the planned updates one after another satisfies every requirement. Every property the list does not name keeps its entry |
| `NotionService.ReconcileIdempotent` | src/services/notionService.ts:18-43 | reconciling the schema a successful reconciliation produced issues no update, reports "already up to date" and returns the same schema |
| `NotionService.Query` | src/services/notionService.ts:46-54 | every returned row is a stored row whose VideoID equals the filter value; the result is non-empty iff some stored row has that VideoID |
| `NotionService.VideoExists` | src/services/notionService.ts:45-56 | true exactly when some stored row's VideoID equals the id exactly |
| `NotionService.CreateNotionRecord` | src/services/notionService.ts:58-113 | a stored id leaves the rows unchanged. Otherwise exactly one row is appended, with Name=title, Description=description, URL=url, VideoID=id, UploadedAt=uploadedAt and cover=thumbnail, and existing rows stay in place. Afterwards the stored ids are the old ones plus this id |
| `NotionService.CreateIdempotent` | src/services/notionService.ts:59-63 | inserting the same video twice in a row leaves the same rows as inserting it once |
| `YouTubeService.GetChannelIdByUsername` | src/services/youtubeService.ts:8-25 | returns the first search item's channel id when the search returned items, and `None` when it threw, had no items or returned an empty list |
| `YouTubeService.WatchUrlRoundTrip` | src/services/youtubeService.ts:59 | parsing the watch URL of an id gives back the id; a URL that parses to an id is that id's watch URL |
| `YouTubeService.WatchUrlInjective` | src/services/youtubeService.ts:59 | two watch URLs are equal iff their ids are equal |
| `YouTubeService.ToVideo` | src/services/youtubeService.ts:55-62 | the id is the item's video id and the URL parses back to it; title, description and upload date are copied from the snippet; the thumbnail is the `high` variant |
| `YouTubeService.MapItems` | src/services/youtubeService.ts:55-66 | the map succeeds iff every item has a `high` thumbnail; then the output has the same length and order as the items, with element i built from item i |
| `YouTubeService.GetMyVideos` | src/services/youtubeService.ts:27-67 | `[]` when the channel id is null or empty, when the channel lookup yields nothing, or when the uploads playlist is empty. When every lookup succeeds and every item has a `high` thumbnail, the result has one video per playlist item. A non-empty result is the one-to-one, in-order image of the uploads playlist of the first channel item |
| `YouTubeService.GetMyVideosSuccess` | src/services/youtubeService.ts:44-62 | when every lookup succeeds and every item has a `high` thumbnail, the output has one video per playlist item. Each video carries the item's id, watch URL, title, description, publish date and high thumbnail |
| `YouTubeService.MissingThumbnailEmpties` | src/services/youtubeService.ts:55-66 | one playlist item without a `high` thumbnail turns the whole catalog into `[]` |
| `SyncMain.InsertAllAppend` | src/index.ts:10-12 | inserting a list equals inserting its first part and then the rest, so videos are processed one at a time in list order |
| `SyncMain.InsertAllKeepsAndCovers` | src/index.ts:10-12 | existing rows stay in place as a prefix; afterwards the stored ids are the old ids plus every id in the list |
| `SyncMain.InsertAllCount` | src/index.ts:10-12 | the rows added equal the number of distinct list ids that had no row before the run, so duplicates within one list insert once |
| `SyncMain.InsertAllFresh` | src/index.ts:10-12 | a list of distinct ids, none of them stored, is appended as one row per video in list order |
| `SyncMain.InsertAllIdempotent` | src/index.ts:10-12 | inserting the same list a second time adds nothing |
| `SyncMain.InsertAllAddsCatalogRows` | src/index.ts:10-12 | every row the loop adds is the page `createNotionRecord` builds for some video of the list, its id had no row before the loop, and no two added rows share an id |
| `SyncMain.InsertAllFirstNew` | src/index.ts:10-12 | the loop appends exactly the pages of the catalog videos that are the first with an id not stored before, in catalog order. `FirstNew` is a filter over catalog positions, independent of the loop. A later video with an already seen id is skipped, so the first video with a given id is the one written |
| `SyncMain.Sync` | src/index.ts:7-13 | if reconciliation fails the run aborts and the database is unchanged. Otherwise the schema conforms and every property outside the four required ones keeps its entry. The rows become the old rows followed by the pages of the first catalog video of each new id, in catalog order. So every catalog id has a row, and the rows added equal the distinct catalog ids that were new |
| `SyncMain.SyncIdempotent` | src/index.ts:7-13 | a second run over the same catalog leaves the database exactly as the first run left it, and its reconciliation reports "already up to date" |

## Left out

- HTTP clients, API keys, `dotenv` and `process.env` are left out. The Notion database is an explicit `Database` value. The YouTube replies are the `Api` value, and the channel name is a parameter.
- Failures of the Notion SDK calls (network, authorisation, rate limits) are left out. The only modelled failure of reconciliation is the schema error. A rejected insert is not modelled either, so `Sync` cannot abort part-way through the loop.
- `console.info` / `console.error` logging is left out, except for the "already up to date" flag in `Reconciliation`.
- SyncMain.Sync: retyping a property that exists with another type (src/services/notionService.ts:34) is modelled as a change to the schema only. What Notion does to the values already stored under that property is not modelled, so "old rows are kept" holds only of this abstraction.
- Promises and `async` are modelled as plain sequential evaluation.
- Concurrent writers racing between `videoExists` and `pages.create` are outside a sequential model.
- Notion's nested title/rich-text payloads and the validation of date strings are left out. Field values are opaque strings.
- Notion's query pagination is left out. Only whether the result is empty matters.
- `NotionService.VideoExists`: the rich-text `equals` filter is modelled as exact string equality on the stored VideoID, including for rows whose VideoID is empty.
- `YouTubeService.GetChannelIdByUsername`: `undefined` and `null` results are both `None`, since every caller treats them alike.
- `YouTubeService.GetMyVideos` does not distinguish two failures. A channel item with unreadable `contentDetails` throws a TypeError. An item whose `uploads` is absent sends an undefined playlist id to the API. Both are one `None` case that yields `[]`.
- `YouTubeService.GetMyVideos` assumes an item's `resourceId.videoId`, `title`, `description` and `publishedAt` are present. Their `undefined` forms are not modelled.
- Only the first page of each API reply is modelled, as in the code.
- The root-level `index.ts` is an earlier prototype that duplicates the fetch logic and only prints its result. It is not part of this model.
