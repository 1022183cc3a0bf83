/** The entry point of the sync (`main` in src/index.ts): reconcile the
    database schema, fetch the catalog, then insert the videos one at a time
    in catalog order. */
module SyncMain {
  import opened Wrappers
  import opened Catalog
  import opened NotionService
  import opened YouTubeService

  /** The Notion database: its schema and its rows. */
  datatype Database = Database(schema: Schema, rows: seq<Row>)

  /** The database after a run, and the error that aborted it, if any. */
  datatype SyncRun = SyncRun(db: Database, error: Option<SchemaError>)

  /** The `for ... of` loop: `createNotionRecord` on each video in turn. */
  function InsertAll(rows: seq<Row>, videos: seq<Video>): seq<Row>
    decreases |videos|
  {
    if videos == [] then rows
    else InsertAll(CreateNotionRecord(rows, videos[0]), videos[1..])
  }

  /** Inserting a list is inserting its first part, then the rest. */
  lemma {:induction false} InsertAllAppend(rows: seq<Row>, a: seq<Video>, b: seq<Video>)
    ensures InsertAll(rows, a + b) == InsertAll(InsertAll(rows, a), b)
    decreases |a|
  {
    if a != [] {
      assert (a + b)[0] == a[0];
      assert (a + b)[1..] == a[1..] + b;
      InsertAllAppend(CreateNotionRecord(rows, a[0]), a[1..], b);
    } else {
      assert a + b == b;
    }
  }

  /** The run keeps every existing row in place, only appends, and leaves
      exactly the ids of the rows plus the ids of the catalog stored. */
  lemma {:induction false} InsertAllKeepsAndCovers(rows: seq<Row>, videos: seq<Video>)
    ensures |InsertAll(rows, videos)| >= |rows|
    ensures InsertAll(rows, videos)[..|rows|] == rows
    ensures IdsOf(InsertAll(rows, videos)) == IdsOf(rows) + IdSet(videos)
    decreases |videos|
  {
    if videos != [] {
      var rows1 := CreateNotionRecord(rows, videos[0]);
      InsertAllKeepsAndCovers(rows1, videos[1..]);
      var fin := InsertAll(rows1, videos[1..]);
      assert fin[..|rows|] == fin[..|rows1|][..|rows|];
      IdSetCons(videos);
    }
  }

  /** Rows added by a run: one per distinct catalog id that had no row. */
  lemma {:induction false} InsertAllCount(rows: seq<Row>, videos: seq<Video>)
    ensures |InsertAll(rows, videos)| == |rows| + |IdSet(videos) - IdsOf(rows)|
    decreases |videos|
  {
    if videos == [] {
      assert IdSet(videos) == {};
    } else {
      var v := videos[0];
      var rows1 := CreateNotionRecord(rows, v);
      InsertAllCount(rows1, videos[1..]);
      var known := IdsOf(rows);
      var tailIds := IdSet(videos[1..]);
      IdSetCons(videos);
      if v.id in known {
        assert IdSet(videos) - known == tailIds - known;
      } else {
        assert IdsOf(rows1) == known + {v.id};
        assert IdSet(videos) - known == {v.id} + (tailIds - IdsOf(rows1));
        assert v.id !in tailIds - IdsOf(rows1);
      }
    }
  }

  /** Every row a run adds is the page of some catalog video whose id had
      no row before the run, and no two added rows share an id. */
  lemma {:induction false} InsertAllAddsCatalogRows(rows: seq<Row>, videos: seq<Video>)
    ensures |InsertAll(rows, videos)| >= |rows|
    ensures forall k :: |rows| <= k < |InsertAll(rows, videos)| ==>
              && (exists i :: 0 <= i < |videos| && InsertAll(rows, videos)[k] == RowOf(videos[i]))
              && InsertAll(rows, videos)[k].videoId !in IdsOf(rows)
    ensures forall k, l :: |rows| <= k < l < |InsertAll(rows, videos)| ==>
              InsertAll(rows, videos)[k].videoId != InsertAll(rows, videos)[l].videoId
    decreases |videos|
  {
    if videos != [] {
      var v, tail := videos[0], videos[1..];
      var rows1 := CreateNotionRecord(rows, v);
      InsertAllAddsCatalogRows(rows1, tail);
      InsertAllKeepsAndCovers(rows1, tail);
      var fin := InsertAll(rows1, tail);
      forall k | |rows| <= k < |fin|
        ensures (exists i :: 0 <= i < |videos| && fin[k] == RowOf(videos[i]))
        ensures fin[k].videoId !in IdsOf(rows)
      {
        if k < |rows1| {
          assert fin[k] == fin[..|rows1|][k] == rows1[k] == RowOf(videos[0]);
        } else {
          var i :| 0 <= i < |tail| && fin[k] == RowOf(tail[i]);
          assert tail[i] == videos[i + 1];
        }
      }
      forall k, l | |rows| <= k < l < |fin| ensures fin[k].videoId != fin[l].videoId {
        if k < |rows1| {
          assert fin[k] == rows1[k];
          assert rows1[k].videoId in IdsOf(rows1);
        }
      }
    }
  }

  /** Video `i` is the first of the catalog with its id, and that id is not
      among the `known` ones. */
  predicate IsFirstNew(known: set<string>, videos: seq<Video>, i: nat)
    requires i < |videos|
  {
    videos[i].id !in known && forall j :: 0 <= j < i ==> videos[j].id != videos[i].id
  }

  /** The catalog videos that are the first with an id not in `known`, in
      catalog order: a filter over catalog positions, taken from the end. */
  function FirstNew(known: set<string>, videos: seq<Video>): seq<Video>
    decreases |videos|
  {
    if videos == [] then []
    else
      var n := |videos| - 1;
      FirstNew(known, videos[..n]) + (if IsFirstNew(known, videos, n) then [videos[n]] else [])
  }

  /** The page of each video, in order. */
  function RowsOf(videos: seq<Video>): (rows: seq<Row>)
    ensures |rows| == |videos|
    ensures forall i :: 0 <= i < |videos| ==> rows[i] == RowOf(videos[i])
  {
    seq(|videos|, i requires 0 <= i < |videos| => RowOf(videos[i]))
  }

  /** The last video is a first new one exactly when its id is neither
      known nor carried by an earlier video. */
  lemma IsFirstNewLast(known: set<string>, videos: seq<Video>)
    requires videos != []
    ensures IsFirstNew(known, videos, |videos| - 1)
            <==> videos[|videos| - 1].id !in known + IdSet(videos[..|videos| - 1])
  {
    var n := |videos| - 1;
    var init := videos[..n];
    if videos[n].id in IdSet(init) {
      var j :| 0 <= j < |init| && init[j].id == videos[n].id;
      assert videos[j] == init[j];
    }
    forall j | 0 <= j < n ensures videos[j] == init[j] {
    }
  }

  lemma RowsOfSnoc(videos: seq<Video>, v: Video)
    ensures RowsOf(videos + [v]) == RowsOf(videos) + [RowOf(v)]
  {
    assert forall i :: 0 <= i < |videos| ==> (videos + [v])[i] == videos[i];
  }

  /** The loop appends exactly the pages of the first catalog video of each
      new id, in catalog order; later videos with an already seen id are
      skipped. */
  lemma {:induction false} InsertAllFirstNew(rows: seq<Row>, videos: seq<Video>)
    ensures InsertAll(rows, videos) == rows + RowsOf(FirstNew(IdsOf(rows), videos))
    decreases |videos|
  {
    var known := IdsOf(rows);
    if videos == [] {
      assert rows + RowsOf([]) == rows;
    } else {
      var n := |videos| - 1;
      var init, last := videos[..n], videos[n];
      assert videos == init + [last];
      InsertAllFirstNew(rows, init);
      InsertAllAppend(rows, init, [last]);
      InsertAllKeepsAndCovers(rows, init);
      IsFirstNewLast(known, videos);
      var r := InsertAll(rows, init);
      assert InsertAll(r, [last]) == CreateNotionRecord(r, last);
      var prev := FirstNew(known, init);
      if IsFirstNew(known, videos, n) {
        assert FirstNew(known, videos) == prev + [last];
        RowsOfSnoc(prev, last);
      } else {
        assert FirstNew(known, videos) == prev;
      }
    }
  }

  /** A catalog of distinct ids none of which is stored yet is appended
      whole, as one row per video in catalog order. */
  lemma {:induction false} InsertAllFresh(rows: seq<Row>, videos: seq<Video>)
    requires DistinctIds(videos)
    requires forall i :: 0 <= i < |videos| ==> videos[i].id !in IdsOf(rows)
    ensures |InsertAll(rows, videos)| == |rows| + |videos|
    ensures forall i :: 0 <= i < |videos| ==> InsertAll(rows, videos)[|rows| + i] == RowOf(videos[i])
    decreases |videos|
  {
    if videos != [] {
      var v := videos[0];
      var rows1 := CreateNotionRecord(rows, v);
      assert rows1 == rows + [RowOf(v)];
      var tail := videos[1..];
      forall i | 0 <= i < |tail| ensures tail[i].id !in IdsOf(rows1) {
        assert tail[i] == videos[i + 1];
      }
      assert DistinctIds(tail) by {
        forall i, j | 0 <= i < j < |tail| ensures tail[i].id != tail[j].id {
          assert tail[i] == videos[i + 1] && tail[j] == videos[j + 1];
        }
      }
      InsertAllFresh(rows1, tail);
      InsertAllKeepsAndCovers(rows1, tail);
      var fin := InsertAll(rows1, tail);
      forall i | 0 <= i < |videos| ensures fin[|rows| + i] == RowOf(videos[i]) {
        if i == 0 {
          assert fin[|rows|] == fin[..|rows1|][|rows|];
        } else {
          assert fin[|rows| + i] == fin[|rows1| + (i - 1)];
          assert videos[i] == tail[i - 1];
        }
      }
    }
  }

  /** Running the loop again over the same catalog adds nothing. */
  lemma InsertAllIdempotent(rows: seq<Row>, videos: seq<Video>)
    ensures InsertAll(InsertAll(rows, videos), videos) == InsertAll(rows, videos)
  {
    var once := InsertAll(rows, videos);
    InsertAllKeepsAndCovers(rows, videos);
    InsertAllKeepsAndCovers(once, videos);
    InsertAllCount(once, videos);
    assert IdSet(videos) - IdsOf(once) == {};
    var twice := InsertAll(once, videos);
    assert twice == twice[..|once|];
  }

  /** `main`: a failed reconciliation aborts the run before any row is
      written; otherwise the schema is reconciled and the catalog inserted. */
  function Sync(api: Api, username: string, db: Database): (run: SyncRun)
    ensures run.error.Some? <==> !NameIsTitle(db.schema)
    ensures run.error.Some? ==> run.db == db
    ensures run.error.None? ==>
      && NameIsTitle(run.db.schema)
      && (forall i :: 0 <= i < |Required| ==> Satisfied(run.db.schema, Required[i]))
      && |run.db.rows| >= |db.rows|
      && run.db.rows[..|db.rows|] == db.rows
      && IdsOf(run.db.rows) == IdsOf(db.rows) + IdSet(GetMyVideos(api, username))
      && |run.db.rows| == |db.rows| + |IdSet(GetMyVideos(api, username)) - IdsOf(db.rows)|
    ensures run.error.None? ==>
      forall p :: p !in Properties(Required) ==> SameEntry(run.db.schema, db.schema, p)
    ensures run.error.None? ==>
      forall k :: |db.rows| <= k < |run.db.rows| ==>
        && (exists i :: 0 <= i < |GetMyVideos(api, username)|
                        && run.db.rows[k] == RowOf(GetMyVideos(api, username)[i]))
        && run.db.rows[k].videoId !in IdsOf(db.rows)
    ensures run.error.None? ==>
      run.db.rows == db.rows + RowsOf(FirstNew(IdsOf(db.rows), GetMyVideos(api, username)))
  {
    match CheckDatabaseAttributes(db.schema)
    case Failure(e) => SyncRun(db, Some(e))
    case Success(report) =>
      var videos := GetMyVideos(api, username);
      InsertAllKeepsAndCovers(db.rows, videos);
      InsertAllCount(db.rows, videos);
      InsertAllAddsCatalogRows(db.rows, videos);
      InsertAllFirstNew(db.rows, videos);
      SyncRun(Database(report.schema, InsertAll(db.rows, videos)), None)
  }

  /** A second run over the same catalog changes nothing: its
      reconciliation is up to date and it inserts no row. */
  lemma SyncIdempotent(api: Api, username: string, db: Database)
    ensures Sync(api, username, Sync(api, username, db).db) == Sync(api, username, db)
    ensures Sync(api, username, db).error.None? ==>
              CheckDatabaseAttributes(Sync(api, username, db).db.schema).Success? &&
              CheckDatabaseAttributes(Sync(api, username, db).db.schema).value.upToDate
  {
  }
}
