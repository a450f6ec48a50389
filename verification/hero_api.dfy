/**
 The hero images route (`app/api/hero-images/route.ts`): `GET` gives the
 first four images by position, `POST` adds one unless four exist already,
 `PATCH` writes the body's fields, `DELETE` removes the image named by the
 `id` query parameter.
 */
module HeroApi {
  import opened Wrappers
  import opened JsonValues
  import opened Rows
  import opened Http
  import opened Ordering

  const MaxImages := 4
  const FetchError := "Error fetching images"
  const CapError := "Maximum 4 images allowed. Delete one first."
  const AddError := "Error adding image"
  const UpdateError := "Error updating image"
  const IdRequired := "ID required"
  const DeleteError := "Error deleting image"

  function PositionKey(h: HeroImage): seq<Key> {
    [Int(h.orderIndex)]
  }

  /** `GET /api/hero-images`. */
  function List(rows: Option<seq<HeroImage>>): (r: Reply<seq<HeroImage>>)
    ensures rows.None? <==> r.Fail?
    ensures r.Ok? ==> |r.body| <= MaxImages && |r.body| == if |rows.value| < MaxImages then |rows.value| else MaxImages
    ensures r.Ok? ==> SortedBy(r.body, PositionKey)
    ensures r.Ok? ==> multiset(r.body) <= multiset(rows.value)
    ensures r.Ok? ==> forall i, h :: 0 <= i < |r.body| && h in multiset(rows.value) - multiset(r.body) ==>
      KeysLe(PositionKey(r.body[i]), PositionKey(h))
  {
    if rows.None? then Fail(500, FetchError)
    else
      var sorted := SortBy(rows.value, PositionKey);
      TakeSortedIsSmallest(sorted, MaxImages, PositionKey);
      TakeSortedBeatsRest(sorted, MaxImages, PositionKey);
      Ok(Take(sorted, MaxImages))
  }

  // ----- POST -----

  /** The row `POST` inserts; an absent `image_url` stays absent. */
  datatype NewImage = NewImage(imageUrl: Option<Json>, orderIndex: Json)

  /** `count && count >= 4`: a `null` count skips the cap. */
  predicate Full(count: Option<int>) {
    count.Some? && count.value != 0 && count.value >= MaxImages
  }

  /** `POST /api/hero-images`: `count` is the row count the head query
      returned, `null` when it failed. */
  function Post(body: Object, count: Option<int>, insertOk: bool): (r: Reply<NewImage>)
    ensures r.IsBadRequest() <==> Full(count)
    ensures r.IsBadRequest() ==> r.error == CapError
    ensures r.Ok? <==> !Full(count) && insertOk
    ensures r.Ok? ==> r.body.imageUrl == Get(body, "image_url")
    ensures r.Ok? && Truthy(Get(body, "order_index")) ==> Some(r.body.orderIndex) == Get(body, "order_index")
    ensures r.Ok? && !Truthy(Get(body, "order_index")) ==> r.body.orderIndex == JNum(count.GetOr(0))
  {
    if Full(count) then Fail(400, CapError)
    else if !insertOk then Fail(500, AddError)
    else
      var fallback := if count.Some? && count.value != 0 then JNum(count.value) else JNum(0);
      Ok(NewImage(Get(body, "image_url"), Or(Get(body, "order_index"), fallback)))
  }

  /** An explicit position 0 is falsy and is replaced by the count. */
  lemma ZeroPositionBecomesCount(url: string, n: nat)
    requires n < MaxImages
    ensures Post(map["image_url" := JStr(url), "order_index" := JNum(0)], Some(n), true).body.orderIndex == JNum(n)
  {}

  /** Without a count the cap does not apply. */
  lemma NullCountSkipsCap(body: Object)
    ensures Post(body, None, true).Ok?
  {}

  /** The table after a series of `POST`s, each seeing the exact row count:
      `oks[i]` is whether the `i`th insert succeeded. */
  function AddAll(table: seq<NewImage>, bodies: seq<Object>, oks: seq<bool>): seq<NewImage>
    requires |oks| == |bodies|
    decreases |bodies|
  {
    if bodies == [] then table
    else
      var r := Post(bodies[0], Some(|table|), oks[0]);
      AddAll(if r.Ok? then table + [r.body] else table, bodies[1..], oks[1..])
  }

  /** Requests handled one after another never take a table of at most four
      images past four. */
  lemma {:induction false} AddAllKeepsCap(table: seq<NewImage>, bodies: seq<Object>, oks: seq<bool>)
    requires |oks| == |bodies| && |table| <= MaxImages
    ensures |AddAll(table, bodies, oks)| <= MaxImages
    decreases |bodies|
  {
    if bodies != [] {
      var r := Post(bodies[0], Some(|table|), oks[0]);
      AddAllKeepsCap(if r.Ok? then table + [r.body] else table, bodies[1..], oks[1..]);
    }
  }

  // ----- PATCH, DELETE -----

  /** `PATCH /api/hero-images`: no id check; every field but `id` is
      written. */
  function Patch(body: Object, updateOk: bool): (r: Reply<Change>)
    ensures r.Ok? <==> updateOk
    ensures r.Ok? ==> r.body.id == Get(body, "id") && Get(r.body.fields, "id").None?
    ensures r.Ok? ==> forall k :: k != "id" ==> Get(r.body.fields, k) == Get(body, k)
  {
    if updateOk then Ok(Change(Get(body, "id"), Rest(body, "id"))) else Fail(500, UpdateError)
  }

  /** `DELETE /api/hero-images?id=`. */
  function Delete(id: Option<string>, deleteOk: bool): (r: Reply<string>)
    ensures r.IsBadRequest() <==> !Given(id)
    ensures r.IsBadRequest() ==> r.error == IdRequired
    ensures r.Ok? <==> Given(id) && deleteOk
    ensures r.Ok? ==> id == Some(r.body)
  {
    if !Given(id) then Fail(400, IdRequired)
    else if !deleteOk then Fail(500, DeleteError)
    else Ok(id.value)
  }
}
