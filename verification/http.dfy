/** What a route handler answers: a success body, or an error status with
    its message. */
module Http {
  import opened Wrappers
  import opened JsonValues

  datatype Reply<T> = Ok(body: T) | Fail(status: nat, error: string) {

    predicate IsBadRequest() {
      Fail? && status == 400
    }
  }

  /** An update a route sends to the database: the row id and the fields to
      write. */
  datatype Change = Change(id: Option<Json>, fields: Object)

  /** A request a page sends: the HTTP method and the JSON body. */
  datatype Submission = Submission(verb: string, body: Object)

  const IdRequired := "ID es requerido"

  /** The `PATCH` handlers of the events and menu routes: a falsy `id` is
      refused, every other body field is written to the row with that id. */
  function UpdateById(body: Object, updateOk: bool, failure: string): (r: Reply<Change>)
    ensures r.IsBadRequest() <==> !Truthy(Get(body, "id"))
    ensures r.IsBadRequest() ==> r.error == IdRequired
    ensures r.Ok? <==> Truthy(Get(body, "id")) && updateOk
    ensures r.Ok? ==> r.body.id == Get(body, "id") && Get(r.body.fields, "id").None?
    ensures r.Ok? ==> forall k :: k != "id" ==> Get(r.body.fields, k) == Get(body, k)
  {
    if !Truthy(Get(body, "id")) then Fail(400, IdRequired)
    else if !updateOk then Fail(500, failure)
    else Ok(Change(Get(body, "id"), Rest(body, "id")))
  }

  /** The `DELETE` handlers of the events and menu routes: a falsy `id` is
      refused, otherwise the row with that id goes. */
  function DeleteById(body: Object, deleteOk: bool, failure: string): (r: Reply<Json>)
    ensures r.IsBadRequest() <==> !Truthy(Get(body, "id"))
    ensures r.IsBadRequest() ==> r.error == IdRequired
    ensures r.Ok? <==> Truthy(Get(body, "id")) && deleteOk
    ensures r.Ok? ==> Get(body, "id") == Some(r.body)
  {
    if !Truthy(Get(body, "id")) then Fail(400, IdRequired)
    else if !deleteOk then Fail(500, failure)
    else Ok(Get(body, "id").value)
  }
}
