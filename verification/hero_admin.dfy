/**
 The hero images admin page (`app/admin/hero/page.tsx`): moving an image up
 or down by swapping its position with its neighbour's, the blank-URL guard
 on adding and editing, and when the add form is offered. Each action's
 requests are returned; the page reloads the list from the route after
 them.
 */
module HeroAdmin {
  import opened Wrappers
  import opened Text
  import opened JsonValues
  import opened Rows
  import ListUpdates
  import HeroApi

  /** Ids identify images. */
  predicate DistinctIds(s: seq<HeroImage>) {
    forall i, j :: 0 <= i < j < |s| ==> s[i].id != s[j].id
  }

  /** `images.findIndex(img => img.id === id)`. */
  function FindIndex(images: seq<HeroImage>, id: string): (k: int)
    ensures -1 <= k < |images|
    ensures k == -1 <==> forall i :: 0 <= i < |images| ==> images[i].id != id
    ensures k >= 0 ==> images[k].id == id && forall i :: 0 <= i < k ==> images[i].id != id
  {
    if images == [] then -1
    else if images[0].id == id then 0
    else
      var k := FindIndex(images[1..], id);
      if k == -1 then -1 else k + 1
  }

  /** A position change the page sends: `{ id, order_index }`. */
  datatype Reorder = Reorder(id: string, orderIndex: int)

  /** `moveImage`: the two position swaps it sends, none when the neighbour
      would fall outside the list. For an id not in the list, moving down
      sends the first request and then fails reading `images[-1]`. */
  function Move(images: seq<HeroImage>, id: string, up: bool): (reqs: seq<Reorder>)
    ensures |reqs| <= 2
    ensures FindIndex(images, id) >= 0 && 0 <= FindIndex(images, id) + (if up then -1 else 1) < |images| ==>
      |reqs| == 2
  {
    var current := FindIndex(images, id);
    var next := if up then current - 1 else current + 1;
    if next < 0 || next >= |images| then []
    else if current < 0 then [Reorder(id, images[next].orderIndex)]
    else [Reorder(id, images[next].orderIndex), Reorder(images[next].id, images[current].orderIndex)]
  }

  /** The first image cannot move up, the last cannot move down: nothing is
      sent. */
  lemma MoveAtEdgeSendsNothing(images: seq<HeroImage>)
    requires images != [] && DistinctIds(images)
    ensures Move(images, images[0].id, true) == []
    ensures Move(images, images[|images| - 1].id, false) == []
  {}

  /** One position update as the route applies it: the rows with that id
      take the new position and nothing else changes. */
  function SetPosition(table: seq<HeroImage>, q: Reorder): (r: seq<HeroImage>)
    ensures |r| == |table|
    ensures forall i :: 0 <= i < |table| ==> r[i].id == table[i].id && r[i].imageUrl == table[i].imageUrl
    ensures forall i :: 0 <= i < |table| && table[i].id == q.id ==> r[i].orderIndex == q.orderIndex
    ensures forall i :: 0 <= i < |table| && table[i].id != q.id ==> r[i] == table[i]
  {
    var r := ListUpdates.UpdateWhere(table, (h: HeroImage) => h.id == q.id, (h: HeroImage) => h.(orderIndex := q.orderIndex));
    assert forall i :: 0 <= i < |table| ==> r[i] == if table[i].id == q.id then table[i].(orderIndex := q.orderIndex) else table[i];
    r
  }

  /** What the table holds after the position updates, applied in order. */
  function Apply(table: seq<HeroImage>, reqs: seq<Reorder>): (r: seq<HeroImage>)
    ensures |r| == |table|
    decreases |reqs|
  {
    if reqs == [] then table else Apply(SetPosition(table, reqs[0]), reqs[1..])
  }

  function Positions(s: seq<HeroImage>): (r: seq<int>)
    ensures |r| == |s| && forall i :: 0 <= i < |s| ==> r[i] == s[i].orderIndex
  {
    seq(|s|, i requires 0 <= i < |s| => s[i].orderIndex)
  }

  lemma ApplyTwo(table: seq<HeroImage>, a: Reorder, b: Reorder)
    ensures Apply(table, [a, b]) == SetPosition(SetPosition(table, a), b)
  {
    assert [a, b][0] == a && [a, b][1..] == [b] && [b][1..] == [];
    var once := SetPosition(table, a);
    assert Apply(table, [a, b]) == Apply(once, [b]);
    assert Apply(once, [b]) == Apply(SetPosition(once, b), []);
  }

  /** Trading two entries keeps the multiset of entries. */
  lemma SwapKeepsMultiset(s: seq<int>, k: nat, n: nat)
    requires k < |s| && n < |s|
    ensures multiset(s[k := s[n]][n := s[k]]) == multiset(s)
  {
    if k != n {
      var t := s[k := s[n]];
      assert multiset(t) == multiset(s) - multiset{s[k]} + multiset{s[n]};
      assert multiset(t[n := s[k]]) == multiset(t) - multiset{t[n]} + multiset{s[k]};
    }
  }

  /** Two updates naming two distinct images, each present once, trade
      exactly those two rows' positions. */
  lemma TwoUpdates(images: seq<HeroImage>, k: nat, n: nat, a: Reorder, b: Reorder)
    requires DistinctIds(images) && k < |images| && n < |images| && k != n
    requires a.id == images[k].id && b.id == images[n].id
    ensures var after := SetPosition(SetPosition(images, a), b);
      && after[k] == images[k].(orderIndex := a.orderIndex)
      && after[n] == images[n].(orderIndex := b.orderIndex)
      && (forall i :: 0 <= i < |images| && i != k && i != n ==> after[i] == images[i])
  {
    var once := SetPosition(images, a);
    assert forall i :: 0 <= i < |images| && i != k ==> images[i].id != a.id;
    assert forall i :: 0 <= i < |images| && i != n ==> once[i].id != b.id;
  }

  /** A move within the list swaps the two images' positions and touches
      nothing else, so the set of positions in use is unchanged. */
  lemma MoveSwaps(images: seq<HeroImage>, id: string, up: bool)
    requires DistinctIds(images)
    requires var k := FindIndex(images, id); k >= 0 && 0 <= k + (if up then -1 else 1) < |images|
    ensures var k := FindIndex(images, id);
      var n := k + (if up then -1 else 1);
      var after := Apply(images, Move(images, id, up));
      && after[k] == images[k].(orderIndex := images[n].orderIndex)
      && after[n] == images[n].(orderIndex := images[k].orderIndex)
      && (forall i :: 0 <= i < |images| && i != k && i != n ==> after[i] == images[i])
      && multiset(Positions(after)) == multiset(Positions(images))
  {
    var k := FindIndex(images, id);
    var n := k + (if up then -1 else 1);
    var a := Reorder(id, images[n].orderIndex);
    var b := Reorder(images[n].id, images[k].orderIndex);
    assert Move(images, id, up) == [a, b];
    ApplyTwo(images, a, b);
    TwoUpdates(images, k, n, a, b);
    var after := SetPosition(SetPosition(images, a), b);
    var ps := Positions(images);
    assert Positions(after) == ps[k := ps[n]][n := ps[k]];
    SwapKeepsMultiset(ps, k, n);
  }

  // ----- Adding and editing -----

  /** `addImage`: a blank or white-space URL sends nothing; otherwise the
      URL is sent as typed. */
  function AddRequest(url: string): (r: Option<Object>)
    ensures r.None? <==> Trim(url) == ""
    ensures r.Some? ==> Get(r.value, "image_url") == Some(JStr(url))
  {
    if Trim(url) == "" then None else Some(map["image_url" := JStr(url)])
  }

  /** The URL field after `addImage`: cleared only after an accepted add. */
  function UrlAfterAdd(url: string, ok: bool): (r: string)
    ensures r == "" <==> url == "" || (AddRequest(url).Some? && ok)
  {
    if AddRequest(url).Some? && ok then "" else url
  }

  /** `updateImage`: the same guard, with the image id. */
  function UpdateRequest(id: string, url: string): (r: Option<Object>)
    ensures r.None? <==> Trim(url) == ""
    ensures r.Some? ==> Get(r.value, "id") == Some(JStr(id)) && Get(r.value, "image_url") == Some(JStr(url))
  {
    if Trim(url) == "" then None else Some(map["id" := JStr(id), "image_url" := JStr(url)])
  }

  /** The add form shows while fewer than four images are listed. */
  predicate ShowAddForm(images: seq<HeroImage>) {
    |images| < HeroApi.MaxImages
  }

  /** The form is offered exactly when the route would accept one more
      image: the listing shows up to four rows, and the cap refuses from four
      on. */
  lemma FormShownIffPostAccepted(table: seq<HeroImage>, url: string)
    requires !AllSpace(url)
    ensures ShowAddForm(HeroApi.List(Some(table)).body)
      <==> HeroApi.Post(AddRequest(url).value, Some(|table|), true).Ok?
  {}
}
