# Loja order service in Dafny

A model of the order service (`OrdemService`) of the Loja e-commerce back
office. It has two parts:

- **The sort-key resolver** (`SwitchCaseOrderedBy`). It turns the client's
  free-text `orderedBy` key into one of five sortable order fields. The key is
  lower-cased first. Portuguese and English aliases are accepted. Every other
  key, the empty one included, sorts by `Id`. The C# selector lambdas become
  the closed datatype `OrderKey.SortField`; `OrderKey.KeyOf` says which order
  field each one reads. `ToLower` is modelled as ASCII case folding
  (`AsciiCase.Lower`).
- **The service operations** over a repository. The repository is a
  `map<int, Ordem>` field of the class `OrdemServices.OrdemService`, together
  with an opaque paged-query function (`getAsync`). The object mapper is the
  identity, so a transfer object is the order itself. The class invariant
  `Valid()` says that every order is stored under its own id. Because of that
  invariant, the repository lookup `GetByIdAsync(x => x.Id == id)` is a map
  lookup.

Files:

- `entities.dfy`: module `Wrappers` (Option, Result, Outcome and the `NotFound` and `NullDereference`
  errors) and module `Entities` (`Ordem`, `StatusVenda`, `PagingParameters`,
  `PagingInfo`).
- `ordering.dfy`: modules `AsciiCase` and `OrderKey` (the resolver and its lemmas).
- `ordem_service.dfy`: module `OrdemServices` (the service class, the
  predicate filter and the finding below).

Three behaviours of the source that are easy to misread:

- GetById returns nothing (C# `null`) for a missing id. It does not signal an error.
- The predicate overload of GetOrdens does not filter (see Findings).
- UpdateStatus on a missing id dereferences null at line 103. Here the model
  departs from the code: it returns `Failure(NullDereference)` instead of
  throwing, and changes nothing, as the code changes nothing before it throws.
  Remove on a missing id hands null to the repository at line 118; the model
  returns `Fail(NotFound)` and deletes nothing.

## Model

| member | source | states |
|---|---|---|
| `AsciiCase.LowerChar` | Loja/Loja.Application/Services/OrdemService.cs:128 | folding a character yields no upper-case letter; only `A`..`Z` change, each to its own lower-case letter |
| `AsciiCase.Lower` | Loja/Loja.Application/Services/OrdemService.cs:128 | `ToLower` keeps the length, folds every character in place, and leaves no upper-case letter |
| `AsciiCase.LowerOfLowerCase` | Loja/Loja.Application/Services/OrdemService.cs:128 | a string with no upper-case letter is its own folding |
| `AsciiCase.LowerIdempotent` | Loja/Loja.Application/Services/OrdemService.cs:128 | folding twice is folding once |
| `AsciiCase.EqualIgnoringCaseIffSameLower` | Loja/Loja.Application/Services/OrdemService.cs:128 | two strings are equal up to letter case exactly when their foldings are equal |
| `OrderKey.KeyOf` | Loja/Loja.Application/Services/OrdemService.cs:130-142 | the order field each sort field's selector reads: the amount exactly for `Total`, the creation date exactly for `DataCriacao`, and otherwise one of the seller id, client id or order id |
| `OrderKey.Aliases` | Loja/Loja.Application/Services/OrdemService.cs:130-140 | the case labels naming each field, all lower case, so a folded key can match them; `Id` alone has none, it is the default |
| `OrderKey.Resolve` | Loja/Loja.Application/Services/OrdemService.cs:126-144 | total on every string; a result other than `Id` is always named by the folded key in the alias table |
| `OrderKey.ResolveMatchesTable` | Loja/Loja.Application/Services/OrdemService.cs:128-143 | both directions: a key resolves to a field exactly when its folded form is one of that field's aliases, and resolves to `Id` exactly when its folded form is no alias |
| `OrderKey.ResolveCaseInsensitive` | Loja/Loja.Application/Services/OrdemService.cs:128 | resolving a key gives the same field as resolving its lower-cased form |
| `OrderKey.ResolveIgnoresCase` | Loja/Loja.Application/Services/OrdemService.cs:128 | keys that differ only in letter case resolve to the same field |
| `OrderKey.AliasInAnyCase` | Loja/Loja.Application/Services/OrdemService.cs:128-140 | any spelling of an alias in any letter case resolves to that alias's field ("vendedorid"/"sellerid" to seller, "clienteid"/"clientid" to client, "total" to total, "data"/"date" to creation date) |
| `OrderKey.UnknownKeyResolvesToId` | Loja/Loja.Application/Services/OrdemService.cs:141-142 | a key that matches no alias in any letter case resolves to `Id`; the resolver never fails |
| `OrderKey.MixedCaseSellerId` | Loja/Loja.Application/Services/OrdemService.cs:128-132 | "SellerId" resolves to the seller id |
| `OrderKey.UpperCaseSellerId` | Loja/Loja.Application/Services/OrdemService.cs:128-132 | "SELLERID" resolves to the seller id |
| `OrderKey.EmptyKeyFallsBackToId` | Loja/Loja.Application/Services/OrdemService.cs:141-142 | the empty key resolves to `Id` |
| `OrderKey.ResolvedSelector` | Loja/Loja.Application/Services/OrdemService.cs:130-142 | end to end, the selector a key resolves to reads the order field its folded form names, and reads the id for an unknown key |
| `OrdemServices.Filter` | Loja/Loja.Application/Services/OrdemService.cs:63-70 | the orders a search predicate admits: a sub-map of the store, holding exactly the stored orders the predicate accepts, unchanged, so every order it holds satisfies the predicate |
| `OrdemServices.FilterAdmittingAll` | Loja/Loja.Application/Services/OrdemService.cs:70 | a predicate that accepts every order filters nothing out |
| `OrdemServices.FilteredPageSatisfiesPredicate` | Loja/Loja.Application/Services/OrdemService.cs:63-79 | when the predicate is passed on and the repository returns only orders it was given (under any key), every order of the page satisfies the predicate |
| `OrdemServices.DroppedPredicateCounterexample` | Loja/Loja.Application/Services/OrdemService.cs:70-79 | for a one-slot repository, the page the predicate overload asks for holds an order its predicate rejects; the filtered page would be empty |
| `OrdemServices.OrdemService.constructor` | Loja/Loja.Application/Services/OrdemService.cs:16-23 | the service holds the given repository and query, and starts valid |
| `OrdemServices.OrdemService.GetById` | Loja/Loja.Application/Services/OrdemService.cs:30-34 | yields the stored order whose id equals the requested one; yields nothing when no stored order has that id, or when the id is null |
| `OrdemServices.OrdemService.GetOrdens` | Loja/Loja.Application/Services/OrdemService.cs:52-61 | the result is the repository's page for the request as given and the sort field resolved from its `orderedBy` key |
| `OrdemServices.OrdemService.GetOrdensFiltered` | Loja/Loja.Application/Services/OrdemService.cs:70-79 | as written, the result is the same page as `GetOrdens`, whatever the predicate |
| `OrdemServices.OrdemService.GetOrdensWhere` | Loja/Loja.Application/Services/OrdemService.cs:63-79 | corrected overload: the repository pages only over the orders the predicate admits, so every returned order satisfies it whenever the repository returns only orders it was given, under whatever key they are stored |
| `OrdemServices.OrdemService.UpdateStatus` | Loja/Loja.Application/Services/OrdemService.cs:99-108 | fetch, set the status, persist, return. The returned order is the persisted one. It differs from the old order only in its status, which is the new one. Every other entry and the set of ids are unchanged. GetById then yields it. A missing id gives a null-dereference failure and changes nothing |
| `OrdemServices.OrdemService.Remove` | Loja/Loja.Application/Services/OrdemService.cs:115-119 | fetch, then delete. Exactly the fetched entry is removed, every other entry is unchanged, and GetById then yields nothing. A missing or null id gives NotFound and deletes nothing |

## Findings

| source | as written | input that shows it | evidently intended | confidence | as-written member | corrected member |
|---|---|---|---|---|---|---|
| Loja/Loja.Application/Services/OrdemService.cs:70-79 | `GetOrdens(parameters, predicate)` never passes `predicate` to the repository, so the page is unfiltered. Its documentation (line 65) says the list can be filtered by seller and/or client id | a store holding one order under key 1, a predicate rejecting every order, and a repository whose page is that order: the result holds the rejected order | the repository pages only over the orders the predicate admits | high that the predicate is dropped; the repository's filtering overload is not part of this model; not executed | `OrdemServices.OrdemService.GetOrdensFiltered`, `OrdemServices.DroppedPredicateCounterexample` | `OrdemServices.OrdemService.GetOrdensWhere`, `OrdemServices.FilteredPageSatisfiesPredicate` |

## Left out

- Paging arithmetic: the repository's `GetAsync` does the skipping, taking, counting and page-count computation, and it is not part of this model. It is the opaque function `getAsync`. Nothing is claimed about page sizes or totals.
- `Add` (lines 86-91): the repository's `CreateAsync` assigns the generated id, and that code is not part of this model.
- `GetOrdemComProdutosById` (lines 41-45): the repository's include-products query is not part of this model. Otherwise it is the same lookup as `GetById`.
- The object mapper (AutoMapper) is a foreign library. It is the identity here, and the unused `ordemEntity` at line 105 has no counterpart.
- `Ordem.UpdateStatus`: the domain entity is not part of this model. The call is modelled only as setting the status field. No transition rule is checked, and `StatusVenda` is carried by its integer code.
- Orders are values in a map. The C# code mutates a tracked entity object in place, and aliasing of that object is not captured.
- `async`/`Task`, the blocking `.Result` calls (lines 101, 117) and the expression trees are flattened into sequential methods and an enumeration.
- `OrderKey.Resolve`: `ToLower` is culture-sensitive. The model folds only ASCII `A`..`Z`. Under a Turkish culture, "SELLERID" lowers to a dotless `ı` and would fall back to `Id`, which the model does not capture.
- `OrderKey.Resolve`: a null `orderedBy` makes the source throw at line 128. Dafny strings cannot be null, so that case does not arise in the model.
- `OrdemServices.OrdemService.UpdateStatus`: the source throws a null-reference exception at line 103 for a missing id. The model returns `Failure(NullDereference)` instead of throwing, with the store unchanged as in the source.
- `OrdemServices.OrdemService.Remove`: for a missing or null id, the source hands null to the repository's `RemoveAsync`, which is not part of this model. The model reports `NotFound` and deletes nothing.
- The constructor's `ArgumentNullException` for a null repository: references are non-null in the model.
- Order line items, and order fields the service does not sort by or update, are not modelled.
- `ClienteConfiguration.cs`, `IClienteService.cs` and `ICategoriaRepository.cs` are column configuration and interface signatures, with no behaviour to model.
