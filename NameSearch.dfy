/** The domain-building part of `name_search`: a multi-search pattern typed as a
    record name becomes a search over the record-name field, one triple per
    term; anything else is left to the ordinary name lookup. */
module NameSearch {
  import opened Text
  import opened Pattern
  import opened Rewriter

  /** What `name_search` goes on to do. */
  datatype Lookup =
    | PlainLookup              // the inherited name_search with the original arguments
    | Search(domain: Domain)   // `self.search(domain, limit=limit)`, then name_get()
    | AndRaised                // `expression.AND` raised: the exception leaves name_search

  /** With args, the planned search is the conjunction of args with d, or the
      AND failure; without args it is d itself. */
  function WithArgs(args: Domain, d: Domain, combineAnd: Combinator): Lookup
  {
    if args == [] then Search(d)
    else match combineAnd([args, d])
      case Some(conjoined) => Search(conjoined)
      case None => AndRaised
  }

  /** The choice `name_search(name, args, operator)` makes, where recName is the
      model's `_rec_name` field, args is `[]` when the caller passed None, and
      combineOr / combineAnd are `expression.OR` / `expression.AND`. A search is
      only planned for a pattern name; without caller args it is exactly what
      the domain rewriter makes of the triple `(recName, operator, name)`, and
      `expression.AND` can only fail when there are args to conjoin. */
  function NameSearchPlan(recName: Value, name: Value, args: Domain, operator: Value,
                          combineOr: Combinator, combineAnd: Combinator): (r: Lookup)
    ensures !MultiSearchPattern(name).isMulti ==> r == PlainLookup
    ensures args == [] && r.Search? ==> r.domain == Rewrite([Triple(recName, operator, name)], MultiSearchPattern, combineOr)
    ensures args == [] ==> r != AndRaised
  {
    if name == Str([]) then PlainLookup
    else
      var detection := MultiSearchPattern(name);
      if !(detection.isMulti && detection.terms != []) then PlainLookup
      else
        var nameDomains := TermDomains(recName, operator, detection.terms);
        var searchDomain := if |nameDomains| == 1 then Some(nameDomains[0]) else combineOr(nameDomains);
        match searchDomain
        case None => PlainLookup
        case Some(d) => WithArgs(args, d, combineAnd)
  }

  /** A one-term pattern searches the record-name field for that term, without
      consulting the OR combinator. */
  lemma SingleTermName(recName: Value, name: Value, args: Domain, operator: Value,
                       combineOr: Combinator, combineAnd: Combinator)
    requires |MultiSearchPattern(name).terms| == 1
    ensures NameSearchPlan(recName, name, args, operator, combineOr, combineAnd)
      == WithArgs(args, [Triple(recName, operator, Str(MultiSearchPattern(name).terms[0]))], combineAnd)
  {
  }

  /** A pattern of several terms searches the disjunction of one record-name
      triple per term, and falls back to the plain lookup when OR raises. */
  lemma MultiTermName(recName: Value, name: Value, args: Domain, operator: Value,
                      combineOr: Combinator, combineAnd: Combinator)
    requires |MultiSearchPattern(name).terms| >= 2
    ensures NameSearchPlan(recName, name, args, operator, combineOr, combineAnd)
      == match combineOr(TermDomains(recName, operator, MultiSearchPattern(name).terms))
         case None => PlainLookup
         case Some(d) => WithArgs(args, d, combineAnd)
  {
  }

  /** `expression.AND` is consulted only when the caller passed args. */
  lemma AndOnlyWithArgs(recName: Value, name: Value, operator: Value, combineOr: Combinator,
                        combineAnd1: Combinator, combineAnd2: Combinator)
    ensures NameSearchPlan(recName, name, [], operator, combineOr, combineAnd1)
      == NameSearchPlan(recName, name, [], operator, combineOr, combineAnd2)
  {
  }

  /** Looking up `"[foo, bar]"` with `ilike` and no args searches the
      disjunction of `(recName, "ilike", "foo")` and `(recName, "ilike", "bar")`. */
  lemma FooBarScenario(recName: Value, combineOr: Combinator, combineAnd: Combinator)
    ensures var ilike := Str("ilike");
      var expanded := [[Triple(recName, ilike, Str("foo"))], [Triple(recName, ilike, Str("bar"))]];
      NameSearchPlan(recName, Str("[foo, bar]"), [], ilike, combineOr, combineAnd)
      == match combineOr(expanded)
         case None => PlainLookup
         case Some(d) => Search(d)
  {
    assert "[foo, bar]" == ['['] + "foo" + [',', ' '] + "bar" + [']'];
    BracketTwoTerms("foo", "bar");
    MultiTermName(recName, Str("[foo, bar]"), [], Str("ilike"), combineOr, combineAnd);
    assert TermDomains(recName, Str("ilike"), ["foo", "bar"])
      == [[Triple(recName, Str("ilike"), Str("foo"))], [Triple(recName, Str("ilike"), Str("bar"))]];
  }
}
