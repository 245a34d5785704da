/**
 * The search box of the category page: the items of one category, as
 * `listByCategory` returns them, narrowed to those whose name or
 * description contains the query, ignoring case.
 */
module CategoryPage {
  import opened Common
  import opened Schema
  import opened Text
  import opened Db
  import opened Items

  /** `a` is `b` with some elements left out, the rest in the same order. */
  predicate IsSubsequence<T(==)>(a: seq<T>, b: seq<T>)
  {
    a == [] || (b != [] && ((a[0] == b[0] && IsSubsequence(a[1..], b[1..])) || IsSubsequence(a, b[1..])))
  }

  /**
   * The test an item must pass: its lower-cased name contains the
   * lower-cased query, or it has a (non-empty) description whose lower-cased
   * form contains it. The query is used as typed, surrounding spaces
   * included.
   */
  predicate Matches(item: ItemView, query: string)
  {
    Contains(Lower(item.doc.name), Lower(query))
    || (item.doc.description.Some? && item.doc.description.value != ""
        && Contains(Lower(item.doc.description.value), Lower(query)))
  }

  /**
   * `items.filter(...)`: the matching items, in their original order and
   * each as often as in the input.
   */
  function Keep(items: seq<ItemView>, query: string): (r: seq<ItemView>)
    ensures IsSubsequence(r, items)
    ensures forall x :: multiset(r)[x] == if Matches(x, query) then multiset(items)[x] else 0
    ensures forall x :: x in r <==> x in items && Matches(x, query)
  {
    if items == [] then []
    else
      var rest := Keep(items[1..], query);
      assert items == [items[0]] + items[1..];
      if Matches(items[0], query) then
        assert ([items[0]] + rest)[1..] == rest;
        [items[0]] + rest
      else
        rest
  }

  /**
   * `filteredItems`: all items when the query is blank after trimming,
   * otherwise the items that match the untrimmed query.
   */
  function FilteredItems(items: seq<ItemView>, searchQuery: string): (r: seq<ItemView>)
    ensures Trim(searchQuery) == [] ==> r == items
    ensures IsSubsequence(r, items)
    ensures Trim(searchQuery) != [] ==>
      forall x :: multiset(r)[x] == if Matches(x, searchQuery) then multiset(items)[x] else 0
  {
    if Trim(searchQuery) == [] then
      SubsequenceRefl(items);
      items
    else
      Keep(items, searchQuery)
  }

  /** One step of the filter: the first item is kept or dropped on its own merits. */
  lemma KeepStep(items: seq<ItemView>, query: string)
    requires items != []
    ensures Keep(items, query) == (if Matches(items[0], query) then [items[0]] else []) + Keep(items[1..], query)
  {
  }

  lemma {:induction false} SubsequenceRefl<T>(s: seq<T>)
    ensures IsSubsequence(s, s)
  {
    if s != [] {
      SubsequenceRefl(s[1..]);
    }
  }

  /** Filtering what already passed the filter changes nothing. */
  lemma {:induction false} KeepIdempotent(items: seq<ItemView>, query: string)
    ensures Keep(Keep(items, query), query) == Keep(items, query)
  {
    if items != [] {
      KeepIdempotent(items[1..], query);
      var rest := Keep(items[1..], query);
      if Matches(items[0], query) {
        assert ([items[0]] + rest)[1..] == rest;
      }
    }
  }

  /** Searching the search results again with the same query gives them back. */
  lemma FilteredItemsIdempotent(items: seq<ItemView>, searchQuery: string)
    ensures FilteredItems(FilteredItems(items, searchQuery), searchQuery) == FilteredItems(items, searchQuery)
  {
    if Trim(searchQuery) != [] {
      KeepIdempotent(items, searchQuery);
    }
  }

  /** An item without a description is found by its name alone. */
  lemma NameOnlyWithoutDescription(item: ItemView, query: string)
    requires item.doc.description.None?
    ensures Matches(item, query) <==> Contains(Lower(item.doc.name), Lower(query))
  {
  }

  /**
   * An empty description is falsy, so it is never searched: such an item
   * too is found by its name alone.
   */
  lemma EmptyDescriptionIgnored(item: ItemView, query: string)
    requires item.doc.description == Some("")
    ensures Matches(item, query) <==> Contains(Lower(item.doc.name), Lower(query))
  {
  }

  /** A listed item with the given name and no description or image. */
  function Sample(id: ItemId, name: string): (v: ItemView)
    ensures v.doc.name == name && v.doc.description.None?
  {
    View(id, Item(name, None, 0.0, 0.0, None, None, 0, "owner"), None)
  }

  /** "widget" and " widget" are not blank: each has a letter. */
  lemma QueriesNotBlank()
    ensures Trim("widget") != []
    ensures Trim(" widget") != []
  {
    TrimKeeps("widget", 0);
    TrimKeeps(" widget", 1);
  }

  lemma LowerExamples()
    ensures Lower("widget") == "widget"
    ensures Lower("Widget") == "widget"
    ensures Lower(" widget") == " widget"
    ensures Lower("Gadget") == "gadget"
    ensures Lower("Blue Widget") == "blue widget"
  {
    var s := "Blue Widget";
    assert forall i :: 0 <= i < |s| && i != 0 && i != 5 ==> !('A' <= s[i] <= 'Z') && !('\U{C0}' <= s[i] <= '\U{DE}');
  }

  /** "widget" finds "Blue Widget" by its name. */
  lemma BlueWidgetMatches()
    ensures Matches(Sample(1, "Blue Widget"), "widget")
  {
    LowerExamples();
    assert "blue widget"[5..11] == "widget";
    assert OccursAt("blue widget", "widget", 5);
  }

  /** "widget" does not find "Gadget", which has no description. */
  lemma GadgetMisses()
    ensures !Matches(Sample(2, "Gadget"), "widget")
  {
    LowerExamples();
    assert !OccursAt("gadget", "widget", 0) by {
      assert "gadget"[0..6][0] == 'g';
    }
  }

  /** "widget" finds "Blue Widget" and not "Gadget". */
  lemma WidgetExample()
    ensures FilteredItems([Sample(1, "Blue Widget"), Sample(2, "Gadget")], "widget") == [Sample(1, "Blue Widget")]
  {
    var blue, gadget := Sample(1, "Blue Widget"), Sample(2, "Gadget");
    QueriesNotBlank();
    BlueWidgetMatches();
    GadgetMisses();
    KeepStep([blue, gadget], "widget");
    assert [blue, gadget][1..] == [gadget];
    KeepStep([gadget], "widget");
    assert [gadget][1..] == [];
  }

  /** "widget" finds "Widget"; " widget", with its leading space, does not. */
  lemma SpaceTakesPart()
    ensures Matches(Sample(1, "Widget"), "widget")
    ensures !Matches(Sample(1, "Widget"), " widget")
  {
    LowerExamples();
    assert OccursAt("widget", "widget", 0);
    ContainsNeedsRoom("widget", " widget");
  }

  /**
   * The query is not trimmed before matching: " widget" (leading space)
   * does not find an item named "Widget", which "widget" finds.
   */
  lemma UntrimmedQueryExample()
    ensures FilteredItems([Sample(1, "Widget")], "widget") == [Sample(1, "Widget")]
    ensures FilteredItems([Sample(1, "Widget")], " widget") == []
  {
    var w := Sample(1, "Widget");
    QueriesNotBlank();
    SpaceTakesPart();
    KeepStep([w], "widget");
    KeepStep([w], " widget");
    assert [w][1..] == [];
  }
}
