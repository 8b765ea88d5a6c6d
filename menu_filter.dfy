/**
 * The dietary filter of the food and drinks menu pages (`app/menu/MenuPageClient.tsx` and
 * `app/drinks/DrinksPageClient.tsx` share it line for line): the filter buttons, the
 * toggle a click performs, and the sections shown for the selected filter.
 */
module MenuFilter {
  import opened Wrappers
  import opened Lists
  import opened Schemas

  /** One filter button: its tag, the `label` it shows and its icon. */
  datatype DietaryFilter = DietaryFilter(id: string, caption: string, icon: string)

  /** `dietaryFilters`: the buttons, in the order they are shown. */
  function DietaryFilters(): seq<DietaryFilter> {
    [DietaryFilter("v", "Vegetarian", "\U{1F331}"), DietaryFilter("vg", "Vegan", "\U{1F33F}"),
     DietaryFilter("gf", "Gluten-Free", "\U{1F33E}"), DietaryFilter("df", "Dairy-Free", "\U{1F95B}")]
  }

  /** `handleFilterClick`: the new selection. */
  function HandleFilterClick(selected: Option<string>, filterId: string): (next: Option<string>)
    ensures next.None? <==> selected == Some(filterId)
    ensures next.Some? ==> next.value == filterId
  {
    if selected == Some(filterId) then None else Some(filterId)
  }

  /** `item.dietary?.includes(tag)`. */
  function HasDiet(tag: string): MenuItem -> bool {
    (item: MenuItem) => item.dietary.Some? && tag in item.dietary.value
  }

  /** A section with only the items carrying `tag`. */
  function Narrow(tag: string): MenuSection -> MenuSection {
    (section: MenuSection) => section.(items := Filter(section.items, HasDiet(tag)))
  }

  function NonEmpty(): MenuSection -> bool {
    (section: MenuSection) => |section.items| > 0
  }

  /** `filteredSections`: the sections unchanged when no filter is selected (`null` or the
      falsy empty id); otherwise each section narrowed to the items with the tag, and the
      sections left empty dropped. */
  function FilteredSections(sections: seq<MenuSection>, selected: Option<string>): seq<MenuSection> {
    if selected.None? || selected.value == "" then sections
    else Filter(Map(sections, Narrow(selected.value)), NonEmpty())
  }

  /** All items of the sections, in the order the page lists them. */
  function AllItems(sections: seq<MenuSection>): seq<MenuItem>
    decreases |sections|
  {
    if sections == [] then []
    else AllItems(sections[..|sections| - 1]) + sections[|sections| - 1].items
  }

  // ---------------------------------------------------------------------------
  // Properties

  /** The offered filters are `v`, `vg`, `gf` and `df`, each a tag a menu item may carry. */
  lemma {:induction false} OfferedFilters()
    ensures Map(DietaryFilters(), (f: DietaryFilter) => f.id) == ["v", "vg", "gf", "df"]
    ensures forall i :: 0 <= i < |DietaryFilters()| ==> DietaryFilters()[i].id in DietTags
  {
    var ids := Map(DietaryFilters(), (f: DietaryFilter) => f.id);
    assert ids[0] == "v" && ids[1] == "vg" && ids[2] == "gf" && ids[3] == "df";
  }

  /** Clicking a filter twice from no selection returns to no selection; clicking another
      filter switches to it. */
  lemma {:induction false} ToggleTwice(selected: Option<string>, f: string, g: string)
    ensures selected.None? || selected == Some(f) ==>
              HandleFilterClick(HandleFilterClick(selected, f), f) == selected
    ensures f != g ==> HandleFilterClick(HandleFilterClick(selected, f), g) == Some(g)
  {
  }

  /** Without a filter every section is shown as it is. */
  lemma {:induction false} NoFilterUnchanged(sections: seq<MenuSection>)
    ensures FilteredSections(sections, None) == sections
  {
  }

  /** With a filter, every shown section keeps its id, title and description, holds at
      least one item, and holds exactly the items of its original section that carry the
      tag. */
  lemma {:induction false} FilteredSectionShape(sections: seq<MenuSection>, tag: string)
    requires tag != ""
    ensures forall o :: o in FilteredSections(sections, Some(tag)) ==>
      && |o.items| > 0
      && exists s :: s in sections && o == s.(items := Filter(s.items, HasDiet(tag)))
  {
    var narrowed := Map(sections, Narrow(tag));
    forall o | o in FilteredSections(sections, Some(tag))
      ensures |o.items| > 0 && exists s :: s in sections && o == s.(items := Filter(s.items, HasDiet(tag)))
    {
      assert o in narrowed && NonEmpty()(o);
      var k :| 0 <= k < |narrowed| && narrowed[k] == o;
      assert sections[k] in sections;
    }
  }

  /** With a filter, the items shown, read top to bottom, are exactly the items of the menu
      that carry the tag, in the menu's order: nothing tagged is lost, nothing untagged is
      shown, and nothing is reordered. */
  lemma {:induction false} FilteredItemsInOrder(sections: seq<MenuSection>, tag: string)
    requires tag != ""
    ensures AllItems(FilteredSections(sections, Some(tag))) == Filter(AllItems(sections), HasDiet(tag))
    decreases |sections|
  {
    if sections != [] {
      var front := sections[..|sections| - 1];
      var last := sections[|sections| - 1];
      assert sections == front + [last];
      FilteredItemsInOrder(front, tag);
      MapSnoc(front, last, Narrow(tag));
      var narrowedFront := Map(front, Narrow(tag));
      var o := Narrow(tag)(last);
      assert Map(sections, Narrow(tag)) == narrowedFront + [o];
      FilterAppend(narrowedFront, [o], NonEmpty());
      FilterAppend(AllItems(front), last.items, HasDiet(tag));
      var kept := Filter(narrowedFront, NonEmpty());
      if NonEmpty()(o) {
        assert Filter(narrowedFront + [o], NonEmpty()) == kept + [o];
        AllItemsSnoc(kept, o);
      } else {
        assert Filter(narrowedFront + [o], NonEmpty()) == kept;
        assert o.items == [];
      }
    }
  }

  lemma {:induction false} AllItemsSnoc(sections: seq<MenuSection>, s: MenuSection)
    ensures AllItems(sections + [s]) == AllItems(sections) + s.items
  {
    assert (sections + [s])[..|sections|] == sections;
  }
}
