/** The Notion side of the sync: the database schema is a map from property
    name to property type, and the database rows are a sequence of records.
    The SDK calls are replaced by pure functions over these values. */
module NotionService {
  import opened Wrappers
  import opened Catalog

  /** A Notion property type, identified by its type name as the API reports
      it in `type` ("title", "rich_text", "number", ...). Two types are the
      same exactly when their names are equal, as the `!==` test compares. */
  datatype PropertyType = PropertyType(name: string)

  const Title := PropertyType("title")
  const RichText := PropertyType("rich_text")
  const Url := PropertyType("url")
  const Date := PropertyType("date")

  type Schema = map<string, PropertyType>

  /** A property that must exist with the given type. */
  datatype Requirement = Requirement(property: string, ty: PropertyType)

  /** One `databases.update` call, setting `property` to type `ty`. */
  datatype Update = SetType(property: string, ty: PropertyType)

  datatype SchemaError = NameNotTitle

  /** The outcome of a successful reconciliation: the updates issued, in
      order, the schema they produce, and whether "already up to date" is
      reported. */
  datatype Reconciliation = Reconciliation(updates: seq<Update>, schema: Schema, upToDate: bool)

  /** One database row (page) as the sync sees it. */
  datatype Row = Row(
    name: string,
    description: string,
    url: string,
    videoId: string,
    uploadedAt: string,
    cover: string)

  const NameProperty := "Name"

  /** The required properties besides `Name`, in the order they are checked. */
  const Required: seq<Requirement> := [
    Requirement("Description", RichText),
    Requirement("URL", Url),
    Requirement("VideoID", RichText),
    Requirement("UploadedAt", Date)
  ]

  // ---------------------------------------------------------------------------
  // Schema helpers

  predicate Satisfied(schema: Schema, r: Requirement)
  {
    r.property in schema && schema[r.property] == r.ty
  }

  predicate NameIsTitle(schema: Schema)
  {
    NameProperty in schema && schema[NameProperty] == Title
  }

  function Properties(reqs: seq<Requirement>): set<string>
  {
    set i | 0 <= i < |reqs| :: reqs[i].property
  }

  predicate DistinctProperties(reqs: seq<Requirement>)
  {
    forall i, j :: 0 <= i < j < |reqs| ==> reqs[i].property != reqs[j].property
  }

  /** `a` and `b` agree on property `p`: both lack it or both map it alike. */
  predicate SameEntry(a: Schema, b: Schema, p: string)
  {
    (p in a <==> p in b) && (p in a ==> a[p] == b[p])
  }

  function AsUpdate(r: Requirement): Update
  {
    SetType(r.property, r.ty)
  }

  function AsUpdates(reqs: seq<Requirement>): seq<Update>
  {
    if reqs == [] then [] else [AsUpdate(reqs[0])] + AsUpdates(reqs[1..])
  }

  /** `a` is obtained from `b` by deleting elements (order kept). */
  predicate IsSubsequence<T(==)>(a: seq<T>, b: seq<T>)
    decreases |b|
  {
    if b == [] then a == []
    else (a != [] && a[0] == b[0] && IsSubsequence(a[1..], b[1..])) || IsSubsequence(a, b[1..])
  }

  // ---------------------------------------------------------------------------
  // updateProperty and checkDatabaseAttributes

  /** `updateProperty`: the database's `property` now has type `ty`; every
      other property is left as it was. */
  function UpdateProperty(schema: Schema, property: string, ty: PropertyType): (s: Schema)
    ensures Satisfied(s, Requirement(property, ty))
    ensures s.Keys == schema.Keys + {property}
    ensures forall p :: p != property ==> SameEntry(s, schema, p)
  {
    schema[property := ty]
  }

  /** The updates are issued one after the other against the live database. */
  function ApplyUpdates(schema: Schema, us: seq<Update>): Schema
    decreases |us|
  {
    if us == [] then schema
    else ApplyUpdates(UpdateProperty(schema, us[0].property, us[0].ty), us[1..])
  }

  /** The loop of `checkDatabaseAttributes`: one update for every requirement
      the retrieved schema does not meet, in requirement order. */
  function PlanUpdates(schema: Schema, reqs: seq<Requirement>): (us: seq<Update>)
    ensures IsSubsequence(us, AsUpdates(reqs))
    ensures forall i :: 0 <= i < |reqs| ==> (AsUpdate(reqs[i]) in us <==> !Satisfied(schema, reqs[i]))
    ensures forall u :: u in us ==> !Satisfied(schema, Requirement(u.property, u.ty))
    ensures us == [] <==> forall i :: 0 <= i < |reqs| ==> Satisfied(schema, reqs[i])
  {
    if reqs == [] then []
    else
      var rest := PlanUpdates(schema, reqs[1..]);
      assert AsUpdates(reqs)[1..] == AsUpdates(reqs[1..]);
      assert forall i :: 1 <= i < |reqs| ==> reqs[i] == reqs[1..][i - 1];
      if Satisfied(schema, reqs[0]) then rest else [AsUpdate(reqs[0])] + rest
  }

  /** `checkDatabaseAttributes`: fails when `Name` is not a title property;
      otherwise brings the four required properties to their types and
      reports "already up to date" when nothing had to change. */
  function CheckDatabaseAttributes(schema: Schema): (r: Result<Reconciliation, SchemaError>)
    ensures r.Failure? <==> !NameIsTitle(schema)
    ensures r.Success? ==>
      && (forall i :: 0 <= i < |Required| ==> Satisfied(r.value.schema, Required[i]))
      && NameIsTitle(r.value.schema)
      && (forall p :: p !in Properties(Required) ==> SameEntry(r.value.schema, schema, p))
    ensures r.Success? ==>
      && IsSubsequence(r.value.updates, AsUpdates(Required))
      && (forall i :: 0 <= i < |Required| ==>
            (AsUpdate(Required[i]) in r.value.updates <==> !Satisfied(schema, Required[i])))
      && r.value.schema == ApplyUpdates(schema, r.value.updates)
    ensures r.Success? ==>
      (r.value.upToDate <==> r.value.updates == []) &&
      (r.value.updates == [] <==> forall i :: 0 <= i < |Required| ==> Satisfied(schema, Required[i]))
  {
    if !NameIsTitle(schema) then Failure(NameNotTitle)
    else
      var us := PlanUpdates(schema, Required);
      RequiredDistinct();
      ApplyPlan(schema, Required);
      Success(Reconciliation(us, ApplyUpdates(schema, us), us == []))
  }

  // ---------------------------------------------------------------------------
  // Lemmas about reconciliation

  lemma RequiredDistinct()
    ensures DistinctProperties(Required)
    ensures NameProperty !in Properties(Required)
  {
  }

  /** The plan only looks at the requirements' own properties. */
  lemma {:induction false} PlanLocal(a: Schema, b: Schema, reqs: seq<Requirement>)
    requires forall i :: 0 <= i < |reqs| ==> (Satisfied(a, reqs[i]) <==> Satisfied(b, reqs[i]))
    ensures PlanUpdates(a, reqs) == PlanUpdates(b, reqs)
    decreases |reqs|
  {
    if reqs != [] {
      PlanLocal(a, b, reqs[1..]);
    }
  }

  /** Proof helper for `ApplyPlan`: the effect on the schema of the update
      that `PlanUpdates` plans (or does not plan) for one requirement. A met
      requirement leaves the schema alone; otherwise its property is set to
      the required type. */
  function Step(schema: Schema, r: Requirement): (s: Schema)
    ensures Satisfied(s, r)
    ensures forall p :: p != r.property ==> SameEntry(s, schema, p)
  {
    if Satisfied(schema, r) then schema else UpdateProperty(schema, r.property, r.ty)
  }

  lemma StepPlan(schema: Schema, reqs: seq<Requirement>)
    requires reqs != []
    ensures ApplyUpdates(schema, PlanUpdates(schema, reqs))
            == ApplyUpdates(Step(schema, reqs[0]), PlanUpdates(schema, reqs[1..]))
  {
  }

  lemma TailDistinct(reqs: seq<Requirement>)
    requires reqs != [] && DistinctProperties(reqs)
    ensures DistinctProperties(reqs[1..])
    ensures forall k :: 0 <= k < |reqs[1..]| ==> reqs[1..][k].property != reqs[0].property
  {
  }

  /** Applying the plan satisfies every requirement and leaves every other
      property alone. */
  lemma {:induction false} ApplyPlan(schema: Schema, reqs: seq<Requirement>)
    requires DistinctProperties(reqs)
    ensures forall i :: 0 <= i < |reqs| ==> Satisfied(ApplyUpdates(schema, PlanUpdates(schema, reqs)), reqs[i])
    ensures forall p :: p !in Properties(reqs) ==> SameEntry(ApplyUpdates(schema, PlanUpdates(schema, reqs)), schema, p)
    decreases |reqs|
  {
    if reqs != [] {
      var r0, tail := reqs[0], reqs[1..];
      var s1 := Step(schema, r0);
      TailDistinct(reqs);
      PlanLocal(schema, s1, tail);
      StepPlan(schema, reqs);
      ApplyPlan(s1, tail);
      var fin := ApplyUpdates(s1, PlanUpdates(s1, tail));
      assert r0.property !in Properties(tail);
      assert SameEntry(fin, s1, r0.property);
      forall i | 0 <= i < |reqs| ensures Satisfied(fin, reqs[i]) {
        if i > 0 {
          assert reqs[i] == tail[i - 1];
        }
      }
      forall p | p !in Properties(reqs) ensures SameEntry(fin, schema, p) {
        assert reqs[0].property != p;
        forall k | 0 <= k < |tail| ensures tail[k].property != p {
          assert reqs[k + 1] == tail[k];
        }
        assert p !in Properties(tail);
      }
    }
  }

  /** Running reconciliation again on its own result issues no update,
      reports "already up to date" and leaves the schema as it is. */
  lemma ReconcileIdempotent(schema: Schema)
    requires CheckDatabaseAttributes(schema).Success?
    ensures CheckDatabaseAttributes(CheckDatabaseAttributes(schema).value.schema)
            == Success(Reconciliation([], CheckDatabaseAttributes(schema).value.schema, true))
  {
  }

  // ---------------------------------------------------------------------------
  // videoExists and createNotionRecord

  /** The video ids stored in the rows. */
  function IdsOf(rows: seq<Row>): set<string>
  {
    set i | 0 <= i < |rows| :: rows[i].videoId
  }

  /** The database query filtering on `VideoID` equal to `videoId`. */
  function Query(rows: seq<Row>, videoId: string): (matches: seq<Row>)
    ensures forall r :: r in matches ==> r in rows && r.videoId == videoId
    ensures |matches| > 0 <==> exists i :: 0 <= i < |rows| && rows[i].videoId == videoId
  {
    if rows == [] then []
    else
      var rest := Query(rows[1..], videoId);
      assert forall i :: 1 <= i < |rows| ==> rows[i] == rows[1..][i - 1];
      if rows[0].videoId == videoId then [rows[0]] + rest else rest
  }

  /** `videoExists`: some stored row carries exactly this video id. */
  function VideoExists(rows: seq<Row>, videoId: string): (b: bool)
    ensures b <==> videoId in IdsOf(rows)
  {
    |Query(rows, videoId)| > 0
  }

  /** The page created for a video. */
  function RowOf(v: Video): (row: Row)
    ensures row.videoId == v.id
  {
    Row(v.title, v.description, v.url, v.id, v.uploadedAt, v.thumbnail)
  }

  /** `createNotionRecord`: a video already stored leaves the rows as they
      are; a new one appends exactly one row projected from the video. */
  function CreateNotionRecord(rows: seq<Row>, v: Video): (rows': seq<Row>)
    ensures v.id in IdsOf(rows) ==> rows' == rows
    ensures v.id !in IdsOf(rows) ==>
      && |rows'| == |rows| + 1
      && rows'[..|rows|] == rows
      && rows'[|rows|] == Row(v.title, v.description, v.url, v.id, v.uploadedAt, v.thumbnail)
    ensures IdsOf(rows') == IdsOf(rows) + {v.id}
  {
    if VideoExists(rows, v.id) then rows
    else
      var rows' := rows + [RowOf(v)];
      assert rows'[..|rows|] == rows;
      assert IdsOf(rows') == IdsOf(rows) + {v.id} by {
        assert forall i :: 0 <= i < |rows| ==> rows'[i] == rows[i];
        assert rows'[|rows|].videoId == v.id;
      }
      rows'
  }

  /** Inserting the same video twice in a row stores it once. */
  lemma CreateIdempotent(rows: seq<Row>, v: Video)
    ensures CreateNotionRecord(CreateNotionRecord(rows, v), v) == CreateNotionRecord(rows, v)
  {
  }
}
