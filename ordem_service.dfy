/** The order service (OrdemService) over a map-backed repository. The object
    mapper is the identity, so a transfer object is the order itself. */
module OrdemServices {
  import opened Wrappers
  import opened Entities
  import opened OrderKey

  /** One page of orders with its paging metadata. */
  type Page = (seq<Ordem>, PagingInfo)

  /** The repository's paged query (GetAsync). Counting, ordering and slicing
      happen inside the repository and are not part of this model: the query
      is an arbitrary function of the stored orders, the paging request and
      the resolved sort field. */
  type PagedQuery = (map<int, Ordem>, PagingParameters, SortField) -> Page

  /** A paged query that only ever returns orders it was given: every order
      of a page is one of the stored orders, under whatever key it is stored. */
  ghost predicate ReturnsStoredOrders(query: PagedQuery) {
    forall ordens, parameters, field, i ::
      0 <= i < |query(ordens, parameters, field).0| ==>
        query(ordens, parameters, field).0[i] in ordens.Values
  }

  /** The page GetOrdens asks the repository for: the request as given, and
      the sort field resolved from its `orderedBy` key. */
  function PageFor(query: PagedQuery, ordens: map<int, Ordem>, parameters: PagingParameters): Page {
    query(ordens, parameters, Resolve(parameters.orderedBy))
  }

  /** The stored orders a search predicate admits. */
  function Filter(ordens: map<int, Ordem>, criterion: Ordem -> bool): (r: map<int, Ordem>)
    ensures r.Keys <= ordens.Keys
    ensures forall k :: k in r ==> r[k] == ordens[k] && criterion(r[k])
    ensures forall k :: k in ordens && criterion(ordens[k]) ==> k in r
    ensures forall o :: o in r.Values ==> criterion(o)
  {
    map k | k in ordens && criterion(ordens[k]) :: ordens[k]
  }

  /** A predicate that admits every order filters nothing out. */
  lemma FilterAdmittingAll(ordens: map<int, Ordem>, criterion: Ordem -> bool)
    requires forall o :: criterion(o)
    ensures Filter(ordens, criterion) == ordens
  {
    assert Filter(ordens, criterion).Keys == ordens.Keys;
  }

  /** With the predicate passed on, every order of the page satisfies it. */
  lemma FilteredPageSatisfiesPredicate(
    query: PagedQuery, ordens: map<int, Ordem>, parameters: PagingParameters, criterion: Ordem -> bool)
    requires ReturnsStoredOrders(query)
    ensures forall i :: 0 <= i < |PageFor(query, Filter(ordens, criterion), parameters).0| ==>
      criterion(PageFor(query, Filter(ordens, criterion), parameters).0[i])
  {
    var filtered := Filter(ordens, criterion);
    var page := PageFor(query, filtered, parameters).0;
    forall i | 0 <= i < |page|
      ensures criterion(page[i])
    {
      assert page[i] in filtered.Values;
    }
  }

  /** A one-slot repository: its page holds the order stored under key 1, if
      there is one. */
  function FirstSlotQuery(ordens: map<int, Ordem>, parameters: PagingParameters, field: SortField): Page {
    var items := if 1 in ordens then [ordens[1]] else [];
    (items, PagingInfo(|items|, |items|, parameters.pageNumber, parameters.pageSize))
  }

  /** The predicate overload as written hands a rejected order back: with the
      one-slot repository, a stored order and a predicate rejecting every
      order, the page GetOrdens asks for still holds that order, while the
      page over the filtered orders is empty. */
  lemma DroppedPredicateCounterexample(o: Ordem, parameters: PagingParameters)
    ensures ReturnsStoredOrders(FirstSlotQuery)
    ensures PageFor(FirstSlotQuery, map[1 := o], parameters).0 == [o]
    ensures PageFor(FirstSlotQuery, Filter(map[1 := o], (x: Ordem) => false), parameters).0 == []
  {
    forall ordens, parameters', field, i | 0 <= i < |FirstSlotQuery(ordens, parameters', field).0|
      ensures FirstSlotQuery(ordens, parameters', field).0[i] in ordens.Values
    {
      assert 1 in ordens && ordens[1] == FirstSlotQuery(ordens, parameters', field).0[i];
    }
    assert Filter(map[1 := o], (x: Ordem) => false) == map[];
  }

  class OrdemService {
    /** The repository's table of orders, keyed by id. */
    var ordens: map<int, Ordem>
    /** The repository's paged query. */
    const getAsync: PagedQuery

    /** Every order is stored under its own id. */
    ghost predicate Valid()
      reads this
    {
      forall k :: k in ordens ==> ordens[k].id == k
    }

    constructor (ordens: map<int, Ordem>, getAsync: PagedQuery)
      requires forall k :: k in ordens ==> ordens[k].id == k
      ensures Valid()
      ensures this.ordens == ordens && this.getAsync == getAsync
    {
      this.ordens := ordens;
      this.getAsync := getAsync;
    }

    /** GetById: the repository's `GetByIdAsync(x => x.Id == id)` mapped to a
        transfer object. It yields the stored order whose id equals `id`, or
        nothing when there is none; a null id matches no order. */
    function GetById(id: Option<int>): (r: Option<Ordem>)
      reads this
      requires Valid()
      ensures r.Some? ==> id == Some(r.value.id) && r.value.id in ordens && ordens[r.value.id] == r.value
      ensures r.None? ==> forall k :: k in ordens ==> id != Some(ordens[k].id)
    {
      if id.Some? && id.value in ordens then
        assert ordens[id.value].id == id.value;
        Some(ordens[id.value])
      else
        None
    }

    /** GetOrdens(parameters): resolve the sort key, ask the repository for
        that page, map it. */
    method GetOrdens(parameters: PagingParameters) returns (dtos: seq<Ordem>, pagingInfo: PagingInfo)
      ensures (dtos, pagingInfo) == PageFor(getAsync, ordens, parameters)
    {
      var orderBy := Resolve(parameters.orderedBy);
      var (page, info) := getAsync(ordens, parameters, orderBy);
      dtos, pagingInfo := page, info;
    }

    /** GetOrdens(parameters, criterion) as written: the predicate is never
        passed on, so the result is the unfiltered page, whatever the
        predicate. */
    method GetOrdensFiltered(parameters: PagingParameters, criterion: Ordem -> bool)
      returns (dtos: seq<Ordem>, pagingInfo: PagingInfo)
      ensures (dtos, pagingInfo) == PageFor(getAsync, ordens, parameters)
    {
      var orderBy := Resolve(parameters.orderedBy);
      var (page, info) := getAsync(ordens, parameters, orderBy);
      dtos, pagingInfo := page, info;
    }

    /** GetOrdens(parameters, criterion) as its documentation intends: the
        repository pages over the orders the predicate admits only. */
    method GetOrdensWhere(parameters: PagingParameters, criterion: Ordem -> bool)
      returns (dtos: seq<Ordem>, pagingInfo: PagingInfo)
      ensures (dtos, pagingInfo) == PageFor(getAsync, Filter(ordens, criterion), parameters)
      ensures ReturnsStoredOrders(getAsync) ==> forall i :: 0 <= i < |dtos| ==> criterion(dtos[i])
      ensures (forall o :: criterion(o)) ==> (dtos, pagingInfo) == PageFor(getAsync, ordens, parameters)
    {
      var orderBy := Resolve(parameters.orderedBy);
      var (page, info) := getAsync(Filter(ordens, criterion), parameters, orderBy);
      dtos, pagingInfo := page, info;
      if ReturnsStoredOrders(getAsync) {
        FilteredPageSatisfiesPredicate(getAsync, ordens, parameters, criterion);
      }
      if forall o :: criterion(o) {
        FilterAdmittingAll(ordens, criterion);
      }
    }

    /** UpdateStatus: fetch the order, set its status, persist it and return
        it. Without a stored order under `id` the source dereferences null
        before writing anything; the model reports that dereference and
        changes nothing. */
    method UpdateStatus(id: int, statusVenda: StatusVenda) returns (r: Result<Ordem>)
      requires Valid()
      modifies this
      ensures Valid()
      ensures id !in old(ordens) ==> r == Failure(NullDereference) && ordens == old(ordens)
      ensures id in old(ordens) ==>
        && r.Success?
        && r.value.status == statusVenda
        && r.value.(status := old(ordens[id]).status) == old(ordens[id])
        && ordens.Keys == old(ordens).Keys
        && ordens[id] == r.value
        && (forall k :: k in ordens && k != id ==> ordens[k] == old(ordens[k]))
      ensures id in old(ordens) ==> GetById(Some(id)) == Some(r.value)
    {
      var ordem := GetById(Some(id));
      if ordem.None? {
        return Failure(NullDereference);
      }
      var updated := ordem.value.(status := statusVenda);
      ordens := ordens[updated.id := updated];
      r := Success(updated);
    }

    /** Remove: fetch the order, then delete it. Without a stored order under
        `id` (or with a null id) nothing is deleted and the model reports
        NotFound. */
    method Remove(id: Option<int>) returns (r: Outcome)
      requires Valid()
      modifies this
      ensures Valid()
      ensures old(GetById(id)).None? ==> r == Fail(NotFound) && ordens == old(ordens)
      ensures old(GetById(id)).Some? ==>
        && r == Pass
        && ordens.Keys == old(ordens).Keys - {id.value}
        && (forall k :: k in ordens ==> ordens[k] == old(ordens[k]))
      ensures GetById(id) == None
    {
      var ordem := GetById(id);
      if ordem.None? {
        return Fail(NotFound);
      }
      ordens := ordens - {ordem.value.id};
      r := Pass;
    }
  }
}
