/**
 The public menu page (`app/menu/page.tsx`): which categories get a tab,
 which tab opens first, the items under a tab, and the structure of the
 printable menu. The printable menu is modelled as its sections and entries;
 the surrounding markup and styles are left out.
 */
module PublicMenu {
  import opened Wrappers
  import opened Text
  import opened Rows
  import ListUpdates

  /** `items.some(item => item.category === cat.id)`. */
  predicate HasItems(items: seq<MenuItem>, c: Category) {
    exists i :: 0 <= i < |items| && items[i].category == c.id
  }

  /** `categoriesWithItems`: the categories with at least one item, in the
      order given. */
  function CategoriesWithItems(cats: seq<Category>, items: seq<MenuItem>): (r: seq<Category>)
    ensures forall i :: 0 <= i < |r| ==> HasItems(items, r[i]) && r[i] in cats
    ensures forall i :: 0 <= i < |cats| && HasItems(items, cats[i]) ==> cats[i] in r
  {
    ListUpdates.Filter(cats, (c: Category) => HasItems(items, c))
  }

  /** Adding categories at the end adds their tabs at the end. */
  lemma CategoriesWithItemsKeepOrder(a: seq<Category>, b: seq<Category>, items: seq<MenuItem>)
    ensures CategoriesWithItems(a + b, items) == CategoriesWithItems(a, items) + CategoriesWithItems(b, items)
  {
    ListUpdates.FilterConcat(a, b, (c: Category) => HasItems(items, c));
  }

  /** The tab opened on load: the first category with items, or `''` when
      no category has any. */
  function InitialTab(cats: seq<Category>, items: seq<MenuItem>): (r: string)
    ensures (forall i :: 0 <= i < |cats| ==> !HasItems(items, cats[i])) ==> r == ""
    ensures (exists i :: 0 <= i < |cats| && HasItems(items, cats[i])) ==>
      exists k :: 0 <= k < |cats| && cats[k].id == r && HasItems(items, cats[k])
        && forall j :: 0 <= j < k ==> !HasItems(items, cats[j])
  {
    var withItems := CategoriesWithItems(cats, items);
    if withItems != [] then
      ListUpdates.FilterFirst(cats, (c: Category) => HasItems(items, c));
      withItems[0].id
    else
      assert forall i :: 0 <= i < |cats| ==> !HasItems(items, cats[i]);
      ""
  }

  // ----- The printable menu -----

  /** One item line: the name, the description when there is one, the
      price. */
  datatype Entry = Entry(name: string, description: Option<string>, price: int)

  /** One category block: its name in capitals and its items. */
  datatype Section = Section(title: string, entries: seq<Entry>)

  function EntryOf(m: MenuItem): (e: Entry)
    ensures e.name == m.name && e.price == m.price
    ensures e.description.Some? <==> Given(m.description)
    ensures e.description.Some? ==> e.description == m.description
  {
    Entry(m.name, if Given(m.description) then m.description else None, m.price)
  }

  function SectionOf(c: Category, items: seq<MenuItem>): (s: Section)
    ensures s.title == Upper(c.name)
    ensures |s.entries| == |ItemsInCategory(items, c.id)|
    ensures forall i :: 0 <= i < |s.entries| ==> s.entries[i] == EntryOf(ItemsInCategory(items, c.id)[i])
  {
    var own := ItemsInCategory(items, c.id);
    Section(Upper(c.name), seq(|own|, i requires 0 <= i < |own| => EntryOf(own[i])))
  }

  /** The category blocks of `handleDownloadPDF`, one per category with
      items; a category whose item list is empty emits nothing. */
  function PrintedSections(cats: seq<Category>, items: seq<MenuItem>): (r: seq<Section>)
    ensures forall i :: 0 <= i < |r| ==> r[i].entries != []
  {
    var shown := CategoriesWithItems(cats, items);
    Blocks(shown, items)
  }

  function Blocks(cats: seq<Category>, items: seq<MenuItem>): (r: seq<Section>)
    ensures forall i :: 0 <= i < |r| ==> r[i].entries != []
    ensures |r| <= |cats|
  {
    if cats == [] then []
    else
      var s := SectionOf(cats[0], items);
      (if s.entries == [] then [] else [s]) + Blocks(cats[1..], items)
  }

  lemma {:induction false} BlocksOfUsedCategories(cats: seq<Category>, items: seq<MenuItem>)
    requires forall i :: 0 <= i < |cats| ==> HasItems(items, cats[i])
    ensures Blocks(cats, items) == seq(|cats|, i requires 0 <= i < |cats| => SectionOf(cats[i], items))
  {
    if cats != [] {
      var c := cats[0];
      assert SectionOf(c, items).entries != [] by {
        var k :| 0 <= k < |items| && items[k].category == c.id;
        assert items[k] in ItemsInCategory(items, c.id);
      }
      BlocksOfUsedCategories(cats[1..], items);
      var want := seq(|cats|, i requires 0 <= i < |cats| => SectionOf(cats[i], items));
      assert want == [SectionOf(c, items)] + seq(|cats| - 1, i requires 0 <= i < |cats| - 1 => SectionOf(cats[1..][i], items));
    }
  }

  /** The printed menu has one block for each tab, in tab order, titled with
      the category name in capitals and listing that category's items in
      order. */
  lemma PrintedMatchesTabs(cats: seq<Category>, items: seq<MenuItem>)
    ensures var tabs := CategoriesWithItems(cats, items);
      var r := PrintedSections(cats, items);
      && |r| == |tabs|
      && forall i :: 0 <= i < |r| ==> r[i] == SectionOf(tabs[i], items)
  {
    var tabs := CategoriesWithItems(cats, items);
    BlocksOfUsedCategories(tabs, items);
  }
}
