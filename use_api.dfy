/**
 * The list, pagination and filter hooks of client/src/hooks/useApi.js. Each
 * hook's state (`items`, `currentPage`, `filters`) is a field of a class; the
 * setters become methods that assign it. Service calls are given to the
 * methods as their settled outcome; toasts are not modelled.
 */
module UseApi {
  import opened Wrappers
  import opened Lists
  import Maps

  /** A list item; `id` is what `item.id === id` compares. */
  datatype Item<T> = Item(id: int, fields: T)

  /** A JavaScript value as far as `Array.isArray` is concerned. */
  datatype Value<T> = ArrayOf(elements: seq<Item<T>>) | PendingPromise | NotAnArray

  /** `Array.isArray(data) ? data : []`. */
  function AsItems<T>(data: Value<T>): (r: seq<Item<T>>)
    ensures data.ArrayOf? ==> r == data.elements
    ensures !data.ArrayOf? ==> r == []
  {
    if data.ArrayOf? then data.elements else []
  }

  /** `items.map(item => item.id === id ? updated : item)`. */
  function Replaced<T>(items: seq<Item<T>>, id: int, updated: Item<T>): seq<Item<T>>
  {
    MapSeq(items, (x: Item<T>) => if x.id == id then updated else x)
  }

  /**
   * The list keeps its length; every item with the id becomes the updated
   * item and every other item stays where it was. When the updated item
   * carries the same id, a second identical update changes nothing.
   */
  lemma ReplacedFacts<T>(items: seq<Item<T>>, id: int, updated: Item<T>)
    ensures |Replaced(items, id, updated)| == |items|
    ensures forall i :: 0 <= i < |items| && items[i].id == id ==> Replaced(items, id, updated)[i] == updated
    ensures forall i :: 0 <= i < |items| && items[i].id != id ==> Replaced(items, id, updated)[i] == items[i]
    ensures updated.id == id ==> Replaced(Replaced(items, id, updated), id, updated) == Replaced(items, id, updated)
  {
    var once := Replaced(items, id, updated);
    if updated.id == id {
      var twice := Replaced(once, id, updated);
      assert |twice| == |once|;
      forall i | 0 <= i < |once| ensures twice[i] == once[i] {
      }
    }
  }

  function NotWithId<T>(id: int): Item<T> -> bool
  {
    (x: Item<T>) => x.id != id
  }

  /** `items.filter(item => item.id !== id)`. */
  function Removed<T>(items: seq<Item<T>>, id: int): seq<Item<T>>
  {
    Filter(items, NotWithId(id))
  }

  /**
   * No item with the id remains, every other item stays in its order, and a
   * list without that id is returned unchanged.
   */
  lemma RemovedFacts<T>(items: seq<Item<T>>, id: int, x: Item<T>)
    ensures x in Removed(items, id) <==> x in items && x.id != id
    ensures IsSubsequence(Removed(items, id), items)
    ensures (forall i :: 0 <= i < |items| ==> items[i].id != id) ==> Removed(items, id) == items
  {
    FilterMembership(items, NotWithId(id), x);
    FilterIsSubsequence(items, NotWithId(id));
    if forall i :: 0 <= i < |items| ==> items[i].id != id {
      FilterKeepsAll(items, NotWithId(id));
    }
  }

  /** `useCrud(service)`: the `items` list with its `loading` and `error` state. */
  class Crud<T> {
    var items: seq<Item<T>>
    var loading: bool
    var error: Option<string>

    constructor ()
      ensures items == [] && loading && error == None
    {
      items := [];
      loading := true;
      error := None;
    }

    /**
     * `loadData`: `await service.getAll ? service.getAll(filters) : service.get(filters)`
     * binds as `(await service.getAll) ? … : …`, so the call's promise is
     * assigned without being awaited. It is never an array: whatever `answer`
     * the service would settle with, `items` becomes `[]`.
     */
    method LoadData(answer: Value<T>)
      modifies this
      ensures items == [] && !loading && error == None
    {
      loading := true;
      error := None;
      var data: Value<T> := PendingPromise;
      items := AsItems(data);
      loading := false;
    }

    /** `create`: a created item goes to the front; a failure leaves the list and is rethrown. */
    method Create(outcome: Result<Item<T>>) returns (r: Result<Item<T>>)
      modifies this
      ensures r == outcome
      ensures outcome.Success? ==> items == [outcome.value] + old(items)
      ensures outcome.Failure? ==> items == old(items)
      ensures loading == old(loading) && error == old(error)
    {
      if outcome.Failure? {
        return outcome;
      }
      items := [outcome.value] + items;
      r := outcome;
    }

    /** `update`: every item with the id is replaced by the service's answer; a failure leaves the list. */
    method Update(id: int, outcome: Result<Item<T>>) returns (r: Result<Item<T>>)
      modifies this
      ensures r == outcome
      ensures outcome.Success? ==> items == Replaced(old(items), id, outcome.value)
      ensures outcome.Failure? ==> items == old(items)
      ensures loading == old(loading) && error == old(error)
    {
      if outcome.Failure? {
        return outcome;
      }
      items := Replaced(items, id, outcome.value);
      r := outcome;
    }

    /** `remove`: items with the id go only after the service's delete succeeded; a failure is rethrown. */
    method Remove(id: int, outcome: Result<()>) returns (r: Result<()>)
      modifies this
      ensures r == outcome
      ensures outcome.Success? ==> items == Removed(old(items), id)
      ensures outcome.Failure? ==> items == old(items)
      ensures loading == old(loading) && error == old(error)
    {
      if outcome.Failure? {
        return outcome;
      }
      items := Removed(items, id);
      r := outcome;
    }
  }

  /** `Math.ceil(a / b)` for a positive divisor. */
  function CeilDiv(a: nat, b: nat): (q: nat)
    requires b > 0
    ensures q * b >= a
    ensures q > 0 ==> (q - 1) * b < a
    ensures q == 0 <==> a == 0
  {
    (a + b - 1) / b
  }

  /** The page size `usePagination` uses when none is given. */
  const DefaultItemsPerPage: nat := 10

  /** `usePagination(totalItems, itemsPerPage = 10)`. */
  class Pagination {
    const totalItems: nat
    const perPage: nat
    var currentPage: int

    /** The page is at least 1, and within the pages there are whenever it moved from 1. */
    predicate Valid()
      reads this
    {
      perPage > 0 && 1 <= currentPage && (currentPage == 1 || currentPage <= TotalPages())
    }

    constructor (totalItems: nat, itemsPerPage: nat := DefaultItemsPerPage)
      requires itemsPerPage > 0
      ensures Valid()
      ensures this.totalItems == totalItems && perPage == itemsPerPage && currentPage == 1
    {
      this.totalItems := totalItems;
      perPage := itemsPerPage;
      currentPage := 1;
    }

    function TotalPages(): nat
      requires perPage > 0
    {
      CeilDiv(totalItems, perPage)
    }

    function StartIndex(): int
      reads this
    {
      (currentPage - 1) * perPage
    }

    function EndIndex(): int
      reads this
    {
      StartIndex() + perPage
    }

    predicate HasNext()
      reads this
      requires perPage > 0
    {
      currentPage < TotalPages()
    }

    predicate HasPrev()
      reads this
    {
      currentPage > 1
    }

    /** `goToPage`: moves only to an existing page. */
    method GoToPage(page: int)
      requires Valid()
      modifies this
      ensures Valid()
      ensures currentPage == if 1 <= page <= TotalPages() then page else old(currentPage)
    {
      if page >= 1 && page <= TotalPages() {
        currentPage := page;
      }
    }

    /** `nextPage`: one page on, unless this is the last page. */
    method NextPage()
      requires Valid()
      modifies this
      ensures Valid()
      ensures currentPage == if old(HasNext()) then old(currentPage) + 1 else old(currentPage)
    {
      GoToPage(currentPage + 1);
    }

    /** `prevPage`: one page back, unless this is page 1. */
    method PrevPage()
      requires Valid()
      modifies this
      ensures Valid()
      ensures currentPage == if old(HasPrev()) then old(currentPage) - 1 else old(currentPage)
    {
      GoToPage(currentPage - 1);
    }

    method Reset()
      requires Valid()
      modifies this
      ensures Valid() && currentPage == 1
    {
      currentPage := 1;
    }

    /**
     * A valid page starts at a real item whenever there are items, and there
     * is a next page exactly when items remain past this page's end.
     */
    lemma PageFacts()
      requires Valid()
      ensures 0 <= StartIndex()
      ensures totalItems > 0 ==> StartIndex() < totalItems
      ensures HasNext() <==> EndIndex() < totalItems
    {
      PageStart(totalItems, perPage, currentPage);
      PageEnd(totalItems, perPage, currentPage);
    }
  }

  /** The first item of page `p` is a real item whenever there are items. */
  lemma PageStart(total: nat, per: nat, p: int)
    requires per > 0 && 1 <= p && (p == 1 || p <= CeilDiv(total, per))
    ensures 0 <= (p - 1) * per
    ensures total > 0 ==> (p - 1) * per < total
  {
    var n := CeilDiv(total, per);
    MultiplyMonotone(0, p - 1, per);
    if total > 0 && p != 1 {
      MultiplyMonotone(p - 1, n - 1, per);
    }
  }

  /** Page `p` is followed by another exactly when items remain past its end. */
  lemma PageEnd(total: nat, per: nat, p: int)
    requires per > 0 && 1 <= p
    ensures p < CeilDiv(total, per) <==> (p - 1) * per + per < total
  {
    var n := CeilDiv(total, per);
    assert (p - 1) * per + per == p * per;
    if p < n {
      MultiplyMonotone(p, n - 1, per);
    } else {
      MultiplyMonotone(n, p, per);
    }
  }

  lemma MultiplyMonotone(a: int, b: int, c: nat)
    requires a <= b
    ensures a * c <= b * c
  {
  }

  /** `useFilters(initialFilters)`: a dictionary of filter values. */
  class FilterState<V> {
    const initial: map<string, V>
    var filters: map<string, V>

    constructor (initialFilters: map<string, V>)
      ensures initial == initialFilters && filters == initialFilters
    {
      initial := initialFilters;
      filters := initialFilters;
    }

    /** `updateFilter(key, value)`: that key takes the value; every other key is untouched. */
    method UpdateFilter(key: string, value: V)
      modifies this
      ensures filters == Maps.Overlay(old(filters), map[key := value])
      ensures filters.Keys == old(filters).Keys + {key} && filters[key] == value
      ensures forall k :: k in old(filters) && k != key ==> filters[k] == old(filters)[k]
    {
      filters := Maps.Overlay(filters, map[key := value]);
    }

    /** `updateFilters(newFilters)`: the new values win, every other key is untouched. */
    method UpdateFilters(newFilters: map<string, V>)
      modifies this
      ensures filters == Maps.Overlay(old(filters), newFilters)
    {
      filters := Maps.Overlay(filters, newFilters);
    }

    method ResetFilters()
      modifies this
      ensures filters == initial
    {
      filters := initial;
    }

    /** `clearFilter(key)`: that key is gone; every other key is untouched. */
    method ClearFilter(key: string)
      modifies this
      ensures filters == Maps.Erase(old(filters), key)
      ensures key !in filters
      ensures forall k :: k in old(filters) && k != key ==> k in filters && filters[k] == old(filters)[k]
    {
      filters := Maps.Erase(filters, key);
    }
  }
}
