/** ASCII case folding, the model of `string.ToLower` used by the sort-key resolver. */
module AsciiCase {

  predicate IsUpper(c: char) {
    'A' <= c <= 'Z'
  }

  /** A string with no ASCII upper-case letter. */
  predicate IsLowerCase(s: string) {
    forall i :: 0 <= i < |s| ==> !IsUpper(s[i])
  }

  /** Lower-cases one character: only `A`..`Z` change, each to its lower-case letter. */
  function LowerChar(c: char): (r: char)
    ensures !IsUpper(r)
    ensures IsUpper(c) ==> r as int - c as int == 'a' as int - 'A' as int
    ensures !IsUpper(c) ==> r == c
  {
    if IsUpper(c) then (c as int + ('a' as int - 'A' as int)) as char else c
  }

  /** `s.ToLower()` restricted to ASCII: same length, each character folded. */
  function Lower(s: string): (r: string)
    ensures |r| == |s|
    ensures forall i :: 0 <= i < |s| ==> r[i] == LowerChar(s[i])
    ensures IsLowerCase(r)
  {
    if s == [] then [] else [LowerChar(s[0])] + Lower(s[1..])
  }

  /** Two strings that differ at most in the case of their ASCII letters. */
  predicate EqualIgnoringCase(a: string, b: string) {
    |a| == |b| && forall i :: 0 <= i < |a| ==> LowerChar(a[i]) == LowerChar(b[i])
  }

  /** Folding a string that is already lower case changes nothing. */
  lemma LowerOfLowerCase(s: string)
    requires IsLowerCase(s)
    ensures Lower(s) == s
  {
    assert forall i :: 0 <= i < |s| ==> Lower(s)[i] == s[i];
  }

  /** Folding twice is folding once. */
  lemma LowerIdempotent(s: string)
    ensures Lower(Lower(s)) == Lower(s)
  {
    LowerOfLowerCase(Lower(s));
  }

  /** Case-insensitive equality is exactly equality after folding. */
  lemma EqualIgnoringCaseIffSameLower(a: string, b: string)
    ensures EqualIgnoringCase(a, b) <==> Lower(a) == Lower(b)
  {
    if Lower(a) == Lower(b) {
      assert forall i :: 0 <= i < |a| ==> LowerChar(a[i]) == Lower(a)[i] == Lower(b)[i] == LowerChar(b[i]);
    }
    if EqualIgnoringCase(a, b) {
      assert forall i :: 0 <= i < |a| ==> Lower(a)[i] == Lower(b)[i];
    }
  }
}

/** The sort-key resolver: a client-supplied key becomes one of the sortable
    fields of an order. */
module OrderKey {
  import opened AsciiCase
  import opened Entities

  /** The five fields an order list can be sorted by; each stands for one of
      the selector lambdas the resolver returns. */
  datatype SortField = VendedorId | ClienteId | Total | DataCriacao | Id

  /** The value a selector reads from an order. */
  datatype SortKey = IdKey(n: int) | MoneyKey(amount: real) | DateKey(ticks: int)

  /** The selector a field stands for: `x => x.VendedorId`, `x => x.ClienteId`, ... */
  function KeyOf(f: SortField, o: Ordem): (k: SortKey)
    ensures k.MoneyKey? <==> f == Total
    ensures k.DateKey? <==> f == DataCriacao
    ensures k.MoneyKey? ==> k.amount == o.total
    ensures k.DateKey? ==> k.ticks == o.dataCriacao
    ensures k.IdKey? ==> k.n == o.vendedorId || k.n == o.clienteId || k.n == o.id
  {
    match f
    case VendedorId => IdKey(o.vendedorId)
    case ClienteId => IdKey(o.clienteId)
    case Total => MoneyKey(o.total)
    case DataCriacao => DateKey(o.dataCriacao)
    case Id => IdKey(o.id)
  }

  /** The bilingual alias table: the lower-case keys that name each field.
      `Id` has no alias of its own; it is the fallback. */
  function Aliases(f: SortField): (labels: set<string>)
    ensures labels == {} <==> f == Id
    ensures forall a :: a in labels ==> IsLowerCase(a)
  {
    match f
    case VendedorId => {"vendedorid", "sellerid"}
    case ClienteId => {"clienteid", "clientid"}
    case Total => {"total"}
    case DataCriacao => {"data", "date"}
    case Id => {}
  }

  /** Every key the alias table knows. */
  function AllAliases(): set<string> {
    Aliases(VendedorId) + Aliases(ClienteId) + Aliases(Total) + Aliases(DataCriacao)
  }

  /** SwitchCaseOrderedBy: fold the key to lower case, look it up among the
      aliases, and fall back to `Id` for anything else. Defined on every
      string: the resolver never fails. */
  function Resolve(orderedBy: string): (f: SortField)
    ensures f != Id ==> Lower(orderedBy) in Aliases(f)
  {
    var key := Lower(orderedBy);
    if key == "vendedorid" || key == "sellerid" then VendedorId
    else if key == "clienteid" || key == "clientid" then ClienteId
    else if key == "total" then Total
    else if key == "data" || key == "date" then DataCriacao
    else Id
  }

  /** The resolver agrees with the alias table, in both directions: a key
      resolves to a field exactly when its folded form is one of that field's
      aliases, and to `Id` exactly when its folded form is no alias at all. */
  lemma ResolveMatchesTable(s: string, f: SortField)
    ensures Resolve(s) == f <==> Lower(s) in Aliases(f) || (f == Id && Lower(s) !in AllAliases())
  {
  }

  /** The resolver only looks at the folded key. */
  lemma ResolveCaseInsensitive(s: string)
    ensures Resolve(s) == Resolve(Lower(s))
  {
    LowerIdempotent(s);
  }

  /** Keys that differ only in letter case resolve to the same field. */
  lemma ResolveIgnoresCase(a: string, b: string)
    requires EqualIgnoringCase(a, b)
    ensures Resolve(a) == Resolve(b)
  {
    EqualIgnoringCaseIffSameLower(a, b);
  }

  /** Any spelling of an alias, in any letter case, resolves to its field. */
  lemma AliasInAnyCase(s: string, alias: string, f: SortField)
    requires alias in Aliases(f)
    requires EqualIgnoringCase(s, alias)
    ensures Resolve(s) == f
  {
    LowerOfLowerCase(alias);
    EqualIgnoringCaseIffSameLower(s, alias);
    assert Lower(s) == alias;
    ResolveMatchesTable(s, f);
  }

  /** A key that matches no alias in any letter case, the empty key among
      them, resolves to `Id`. */
  lemma UnknownKeyResolvesToId(s: string)
    requires forall a :: a in AllAliases() ==> !EqualIgnoringCase(s, a)
    ensures Resolve(s) == Id
  {
    if Lower(s) in AllAliases() {
      LowerIdempotent(s);
      EqualIgnoringCaseIffSameLower(s, Lower(s));
      assert false;
    }
  }

  /** "SellerId" sorts by seller. */
  lemma MixedCaseSellerId()
    ensures Resolve("SellerId") == VendedorId
  {
  }

  /** "SELLERID" sorts by seller too. */
  lemma UpperCaseSellerId()
    ensures Resolve("SELLERID") == VendedorId
  {
  }

  /** The empty key falls back to sorting by id. */
  lemma EmptyKeyFallsBackToId()
    ensures Resolve("") == Id
  {
  }

  /** End to end, the selector a key resolves to reads the field its folded
      form names. */
  lemma ResolvedSelector(s: string, o: Ordem)
    ensures Lower(s) in Aliases(VendedorId) ==> KeyOf(Resolve(s), o) == IdKey(o.vendedorId)
    ensures Lower(s) in Aliases(ClienteId) ==> KeyOf(Resolve(s), o) == IdKey(o.clienteId)
    ensures Lower(s) in Aliases(Total) ==> KeyOf(Resolve(s), o) == MoneyKey(o.total)
    ensures Lower(s) in Aliases(DataCriacao) ==> KeyOf(Resolve(s), o) == DateKey(o.dataCriacao)
    ensures Lower(s) !in AllAliases() ==> KeyOf(Resolve(s), o) == IdKey(o.id)
  {
  }
}
