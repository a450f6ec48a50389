/**
 The menu items route (`app/api/menu/route.ts`): `GET` lists items by
 category and name, optionally one category or only the available ones;
 `POST` creates an item; `PATCH` and `DELETE` act on one id.
 */
module MenuApi {
  import opened Wrappers
  import opened JsonValues
  import opened Rows
  import opened Http
  import opened Ordering
  import ListUpdates

  const ListError := "Error al obtener el menú"
  const RequiredError := "Categoría, nombre y precio son requeridos"
  const CreateError := "Error al crear el item"
  const UpdateError := "Error al actualizar el item"
  const DeleteError := "Error al eliminar el item"

  // ----- GET -----

  /** The category filter is on for a non-empty parameter, the availability
      filter only for exactly `true`. */
  predicate Selected(category: Option<string>, available: Option<string>, m: MenuItem) {
    && (Given(category) ==> m.category == category.value)
    && (available == Some("true") ==> m.available)
  }

  /** `GET /api/menu?category=&available=`. */
  function List(category: Option<string>, available: Option<string>, rows: Option<seq<MenuItem>>): (r: Reply<seq<MenuItem>>)
    ensures rows.None? <==> r.Fail?
    ensures r.Ok? ==> SortedBy(r.body, CategoryNameKey)
    ensures r.Ok? ==> multiset(r.body) == multiset(ListUpdates.Filter(rows.value, m => Selected(category, available, m)))
    ensures r.Ok? ==> forall i :: 0 <= i < |r.body| ==> Selected(category, available, r.body[i])
  {
    if rows.None? then Fail(500, ListError)
    else
      var hits := ListUpdates.Filter(rows.value, m => Selected(category, available, m));
      var sorted := SortBy(hits, CategoryNameKey);
      assert forall i :: 0 <= i < |sorted| ==> sorted[i] in multiset(hits);
      Ok(sorted)
  }

  /** With no category and availability other than exactly `true`, every
      item is listed. */
  lemma ListEverything(available: Option<string>, rows: seq<MenuItem>)
    requires available != Some("true")
    ensures multiset(List(Some(""), available, Some(rows)).body) == multiset(rows)
  {
    ListUpdates.FilterAll(rows, m => Selected(Some(""), available, m));
  }

  // ----- POST -----

  /** The row `POST` inserts. `featured` is not among its columns. */
  datatype NewItem = NewItem(
    category: Json, name: Json, description: Json, price: Json, imageUrl: Json, available: bool)

  /** The body fields `POST` reads. */
  const Stored := {"category", "name", "description", "price", "image_url", "available"}

  /** `POST /api/menu`: the price only has to be present, so `0` passes. */
  function Post(body: Object, insertOk: bool): (r: Reply<NewItem>)
    ensures r.IsBadRequest() <==>
      !Truthy(Get(body, "category")) || !Truthy(Get(body, "name")) || Get(body, "price").None?
    ensures r.IsBadRequest() ==> r.error == RequiredError
    ensures r.Ok? <==>
      Truthy(Get(body, "category")) && Truthy(Get(body, "name")) && Get(body, "price").Some? && insertOk
    ensures r.Ok? ==>
      && Some(r.body.category) == Get(body, "category") && Some(r.body.name) == Get(body, "name")
      && Some(r.body.price) == Get(body, "price")
      && (Truthy(Get(body, "description")) ==> Some(r.body.description) == Get(body, "description"))
      && (!Truthy(Get(body, "description")) ==> r.body.description == JNull)
      && (Truthy(Get(body, "image_url")) ==> Some(r.body.imageUrl) == Get(body, "image_url"))
      && (!Truthy(Get(body, "image_url")) ==> r.body.imageUrl == JNull)
    ensures r.Ok? ==> (r.body.available <==> Get(body, "available") != Some(JBool(false)))
  {
    var category, name, price := Get(body, "category"), Get(body, "name"), Get(body, "price");
    if !Truthy(category) || !Truthy(name) || price.None? then Fail(400, RequiredError)
    else if !insertOk then Fail(500, CreateError)
    else Ok(NewItem(
      category.value, name.value,
      Or(Get(body, "description"), JNull),
      price.value,
      Or(Get(body, "image_url"), JNull),
      Get(body, "available") != Some(JBool(false))))
  }

  /** A free item is accepted and stored at price 0. */
  lemma ZeroPriceAccepted(category: string, name: string)
    requires category != "" && name != ""
    ensures var body := map["category" := JStr(category), "name" := JStr(name), "price" := JNum(0)];
      Post(body, true).Ok? && Post(body, true).body.price == JNum(0)
  {
    var body := map["category" := JStr(category), "name" := JStr(name), "price" := JNum(0)];
    assert Get(body, "category") == Some(JStr(category)) && Get(body, "name") == Some(JStr(name));
  }

  /** Only the boolean `false` makes an item unavailable: `0`, `null` or the
      text `"false"` leave it available. */
  lemma OnlyFalseHides(body: Object, v: Json)
    requires Post(body, true).Ok? && v != JBool(false)
    ensures Post(body["available" := v], true).Ok?
    ensures Post(body["available" := v], true).body.available
  {
    assert forall k :: k != "available" ==> Get(body["available" := v], k) == Get(body, k);
  }

  /** `featured`, which the admin form sends, and any other field outside
      the six are dropped on create. */
  lemma PostIgnoresOtherFields(body: Object, k: string, v: Json, insertOk: bool)
    requires k !in Stored
    ensures Post(body[k := v], insertOk) == Post(body, insertOk)
  {
    assert forall f :: f in Stored ==> Get(body[k := v], f) == Get(body, f);
  }

  // ----- PATCH, DELETE -----

  /** `PATCH /api/menu`. */
  function Patch(body: Object, updateOk: bool): (r: Reply<Change>)
    ensures r.IsBadRequest() <==> !Truthy(Get(body, "id"))
    ensures r.Ok? ==> forall k :: k != "id" ==> Get(r.body.fields, k) == Get(body, k)
  {
    UpdateById(body, updateOk, UpdateError)
  }

  /** `DELETE /api/menu`. */
  function Delete(body: Object, deleteOk: bool): (r: Reply<Json>)
    ensures r.IsBadRequest() <==> !Truthy(Get(body, "id"))
    ensures r.Ok? ==> Get(body, "id") == Some(r.body)
  {
    DeleteById(body, deleteOk, DeleteError)
  }
}
