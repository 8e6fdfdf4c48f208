/** The menu screen's category filter (views/MenuView.tsx). The tab labels are
    plain strings compared against the items' category names. */
module Menu {
  import opened Types
  import Seqs
  import Constants

  /** The label that shows every item. */
  const AllLabel: string := "Todos"

  /** The category tabs, in screen order. */
  const Tabs: seq<string> := ["Todos", "Cafés Especiais", "Bebidas Quentes", "Bebidas Frias", "Snacks & Doces"]

  /** `activeCategory` starts on the pass-through label. */
  const InitialCategory: string := AllLabel

  /** The filter predicate comparing an item's category name with the label. */
  function HasCategory(active: string): MenuItem -> bool
  {
    (item: MenuItem) => CategoryLabel(item.category) == active
  }

  /** `filteredItems` over a list of items: the list itself for the
      pass-through label, otherwise the items whose category name equals the
      label, in their original order. */
  function FilterItems(items: seq<MenuItem>, active: string): (r: seq<MenuItem>)
    ensures active == AllLabel ==> r == items
    ensures active != AllLabel ==> forall i :: 0 <= i < |r| ==> CategoryLabel(r[i].category) == active
    ensures Seqs.IsSubsequence(r, items)
  {
    if active == AllLabel then
      SubsequenceReflexive(items);
      items
    else
      Seqs.FilterIsSubsequence(items, HasCategory(active));
      Seqs.Filter(items, HasCategory(active))
  }

  /** `filteredItems` as the screen computes it, over the fixed catalogue. */
  function FilteredItems(active: string): (r: seq<MenuItem>)
    ensures active == AllLabel ==> r == Constants.MENU_ITEMS
    ensures Seqs.IsSubsequence(r, Constants.MENU_ITEMS)
    ensures forall item :: item in r <==>
      item in Constants.MENU_ITEMS && (active == AllLabel || CategoryLabel(item.category) == active)
  {
    var items := Constants.MENU_ITEMS;
    forall item ensures item in FilterItems(items, active) <==>
      item in items && (active == AllLabel || CategoryLabel(item.category) == active)
    {
      if active != AllLabel {
        FilterComplete(items, active, item);
      }
    }
    FilterItems(items, active)
  }

  lemma {:induction false} SubsequenceReflexive(s: seq<MenuItem>)
    ensures Seqs.IsSubsequence(s, s)
  {
    if |s| > 0 {
      SubsequenceReflexive(s[1..]);
    }
  }

  /** Every item carrying the selected category is shown, and only those. */
  lemma FilterComplete(items: seq<MenuItem>, active: string, item: MenuItem)
    requires active != AllLabel
    ensures item in FilterItems(items, active) <==> item in items && CategoryLabel(item.category) == active
  {
    Seqs.FilterMembership(items, HasCategory(active), item);
  }

  /** Filtering the filtered list again with the same label changes nothing. */
  lemma FilterIdempotent(items: seq<MenuItem>, active: string)
    ensures FilterItems(FilterItems(items, active), active) == FilterItems(items, active)
  {
    if active != AllLabel {
      Seqs.FilterIdempotent(items, HasCategory(active));
    }
  }

  /** No category name equals any label other than the pass-through one. */
  lemma TabsMatchNoCategory(c: MenuCategory, i: int)
    requires 1 <= i < |Tabs|
    ensures CategoryLabel(c) != Tabs[i]
  {
  }

  /** Hence every tab other than the pass-through one shows an empty list,
      whatever the items, while the pass-through tab shows the whole menu. */
  lemma OtherTabsShowNothing(items: seq<MenuItem>, i: int)
    requires 1 <= i < |Tabs|
    ensures FilterItems(items, Tabs[i]) == []
    ensures FilterItems(items, Tabs[0]) == items
  {
    forall k | 0 <= k < |items| ensures !HasCategory(Tabs[i])(items[k]) {
      TabsMatchNoCategory(items[k].category, i);
    }
    Seqs.FilterKeepsNone(items, HasCategory(Tabs[i]));
  }

  /** On the catalogue the initial screen lists all eleven items. */
  lemma InitialShowsCatalogue()
    ensures FilteredItems(InitialCategory) == Constants.MENU_ITEMS && |FilteredItems(InitialCategory)| == 11
  {
  }

  /** Pressing tab `i` makes its label the active category, and it is then
      the only highlighted tab. */
  function SelectTab(i: int): (active: string)
    requires 0 <= i < |Tabs|
    ensures forall j :: 0 <= j < |Tabs| ==> (Tabs[j] == active <==> j == i)
  {
    Tabs[i]
  }
}
