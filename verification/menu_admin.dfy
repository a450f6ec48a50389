/**
 The menu admin page (`app/admin/menu/page.tsx`): the local list edits made
 after the menu route accepted a change, the category tab filter, the item
 form's defaults and the request it submits.
 */
module MenuAdmin {
  import opened Wrappers
  import opened Text
  import opened JsonValues
  import opened Rows
  import opened Http
  import ListUpdates
  import MenuApi

  const DefaultTab := "cocktails"

  // ----- Local list edits -----

  function FlipAvailable(m: MenuItem): MenuItem {
    m.(available := !m.available)
  }

  /** `!i.featured`, where a missing flag reads as `false`. */
  function FlipFeatured(m: MenuItem): MenuItem {
    m.(featured := Some(!m.featured.GetOr(false)))
  }

  /** `toggleAvailable` once the response is in: after an OK response the
      items with that id flip `available`; otherwise nothing changes. */
  function ToggleAvailable(items: seq<MenuItem>, id: string, ok: bool): (r: seq<MenuItem>)
    ensures |r| == |items|
    ensures !ok ==> r == items
    ensures ok ==> forall i :: 0 <= i < |items| && items[i].id == id ==>
      r[i].available == !items[i].available && r[i].(available := items[i].available) == items[i]
    ensures forall i :: 0 <= i < |items| && items[i].id != id ==> r[i] == items[i]
  {
    if ok then ListUpdates.UpdateWhere(items, (m: MenuItem) => m.id == id, FlipAvailable) else items
  }

  /** `toggleFeatured` once the response is in. */
  function ToggleFeatured(items: seq<MenuItem>, id: string, ok: bool): (r: seq<MenuItem>)
    ensures |r| == |items|
    ensures !ok ==> r == items
    ensures ok ==> forall i :: 0 <= i < |items| && items[i].id == id ==>
      r[i].featured == Some(items[i].featured != Some(true)) && r[i].(featured := items[i].featured) == items[i]
    ensures forall i :: 0 <= i < |items| && items[i].id != id ==> r[i] == items[i]
  {
    if ok then ListUpdates.UpdateWhere(items, (m: MenuItem) => m.id == id, FlipFeatured) else items
  }

  /** Two accepted availability toggles restore the list. */
  lemma ToggleAvailableTwice(items: seq<MenuItem>, id: string)
    ensures ToggleAvailable(ToggleAvailable(items, id, true), id, true) == items
  {
    ListUpdates.UpdateTwice(items, (m: MenuItem) => m.id == id, FlipAvailable);
  }

  /** Two accepted featured toggles restore the list when the flags were
      set; a missing flag comes back as an explicit `false`. */
  lemma ToggleFeaturedTwice(items: seq<MenuItem>, id: string)
    ensures var twice := ToggleFeatured(ToggleFeatured(items, id, true), id, true);
      forall i :: 0 <= i < |items| ==>
        twice[i] == (if items[i].id == id && items[i].featured.None? then items[i].(featured := Some(false)) else items[i])
  {}

  /** The request `toggleAvailable` sends. */
  function AvailableRequest(item: MenuItem): Object {
    map["id" := JStr(item.id), "available" := JBool(!item.available)]
  }

  /** The local flip agrees with what the route writes: the route accepts
      the request for an item with an id, and writes to that item exactly
      the value the page shows afterwards. */
  lemma ToggleAvailableAgrees(items: seq<MenuItem>, k: nat)
    requires k < |items| && items[k].id != ""
    ensures var req := MenuApi.Patch(AvailableRequest(items[k]), true);
      && req.Ok?
      && Get(req.body.fields, "available") == Some(JBool(ToggleAvailable(items, items[k].id, true)[k].available))
  {
    var body := AvailableRequest(items[k]);
    assert Get(body, "id") == Some(JStr(items[k].id));
  }

  /** `deleteItem` once the response is in: after an OK response the items
      with that id go and the others stay; otherwise nothing changes. */
  function DeleteItem(items: seq<MenuItem>, id: string, ok: bool): (r: seq<MenuItem>)
    ensures !ok ==> r == items
    ensures ok ==> forall i :: 0 <= i < |r| ==> r[i].id != id && r[i] in items
    ensures ok ==> forall i :: 0 <= i < |items| && items[i].id != id ==> items[i] in r
  {
    if ok then ListUpdates.Filter(items, (m: MenuItem) => m.id != id) else items
  }

  /** Deleting keeps the survivors in their order: the edit works piece by
      piece. */
  lemma DeleteItemKeepsOrder(a: seq<MenuItem>, b: seq<MenuItem>, id: string)
    ensures DeleteItem(a + b, id, true) == DeleteItem(a, id, true) + DeleteItem(b, id, true)
  {
    ListUpdates.FilterConcat(a, b, (m: MenuItem) => m.id != id);
  }

  /** `filteredItems`: the active tab's items in list order. */
  function TabItems(items: seq<MenuItem>, tab: string): (r: seq<MenuItem>)
    ensures forall i :: 0 <= i < |r| ==> r[i].category == tab && r[i] in items
    ensures forall i :: 0 <= i < |items| && items[i].category == tab ==> items[i] in r
  {
    ItemsInCategory(items, tab)
  }

  // ----- The item form -----

  /** The form's fields; the price is the text typed. */
  datatype ItemForm = ItemForm(
    category: string, name: string, description: string, price: string,
    imageUrl: string, available: bool, featured: bool)

  /** `openModal()` without an item: the active tab, available, not
      featured, everything else empty. */
  function NewForm(tab: string): (f: ItemForm)
    ensures f.category == tab && f.available && !f.featured
    ensures f.name == "" && f.description == "" && f.price == "" && f.imageUrl == ""
  {
    ItemForm(tab, "", "", "", "", true, false)
  }

  /** `openModal(item)`: the item's values, with a missing description or
      image as `''` and a missing featured flag as `false`. */
  function EditForm(m: MenuItem): (f: ItemForm)
    ensures f.category == m.category && f.name == m.name && f.available == m.available
    ensures f.description == OrText(m.description, "") && f.imageUrl == OrText(m.imageUrl, "")
    ensures f.price == IntToString(m.price)
    ensures f.featured <==> m.featured == Some(true)
  {
    ItemForm(m.category, m.name, OrText(m.description, ""), IntToString(m.price), OrText(m.imageUrl, ""),
      m.available, m.featured.GetOr(false))
  }

  /** The keys of the form state, spread into every submission. */
  const FormKeys := {"category", "name", "description", "price", "image_url", "available", "featured"}

  /** `handleSubmit`: the form's fields with the price parsed (`parsePrice`
      stands for `parseFloat`, serialised), plus the id when editing. */
  function Submit(f: ItemForm, editing: Option<MenuItem>, parsePrice: string -> Json): (s: Submission)
    ensures s.verb == (if editing.Some? then "PATCH" else "POST")
    ensures Get(s.body, "id").Some? <==> editing.Some?
    ensures editing.Some? ==> Get(s.body, "id") == Some(JStr(editing.value.id))
    ensures Get(s.body, "price") == Some(parsePrice(f.price))
    ensures Get(s.body, "category") == Some(JStr(f.category)) && Get(s.body, "name") == Some(JStr(f.name))
    ensures Get(s.body, "available") == Some(JBool(f.available)) && Get(s.body, "featured") == Some(JBool(f.featured))
    ensures Get(s.body, "description") == Some(JStr(f.description)) && Get(s.body, "image_url") == Some(JStr(f.imageUrl))
    ensures forall k :: Get(s.body, k).Some? <==> k in FormKeys || (k == "id" && editing.Some?)
  {
    var fields := map[
      "category" := JStr(f.category), "name" := JStr(f.name), "description" := JStr(f.description),
      "price" := parsePrice(f.price), "image_url" := JStr(f.imageUrl),
      "available" := JBool(f.available), "featured" := JBool(f.featured)];
    if editing.Some? then Submission("PATCH", fields["id" := JStr(editing.value.id)])
    else Submission("POST", fields)
  }

  /** A new item created from the form is stored with the form's
      availability, with `null` for an empty description, and without the
      featured flag the form sends. */
  lemma CreatedFromForm(f: ItemForm, parsePrice: string -> Json)
    requires f.category != "" && f.name != ""
    ensures var created := MenuApi.Post(Submit(f, None, parsePrice).body, true);
      && created.Ok?
      && created.body.available == f.available
      && (created.body.description == JNull <==> f.description == "")
  {
    var body := Submit(f, None, parsePrice).body;
    assert Get(body, "category") == Some(JStr(f.category)) && Get(body, "name") == Some(JStr(f.name));
  }
}
