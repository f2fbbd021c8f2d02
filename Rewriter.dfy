/** The domain rewriter, `_process_multi_search_args`: every condition triple of
    a prefix-notation filter domain whose value is a multi-search pattern is
    replaced by the disjunction of one triple per term. */
module Rewriter {
  import opened Text
  import opened Pattern

  datatype Option<T> = None | Some(value: T)

  /** One element of a domain. */
  datatype Elem =
    | Token(s: string)                                 // a string element; "&", "|" and "!" are the operators
    | Triple(field: Value, op: Value, value: Value)    // a list or tuple of length 3
    | Other(id: int)                                   // anything else: a list of another length, a number, ...

  /** A filter domain: a flat list in prefix (Polish) notation. */
  type Domain = seq<Elem>

  /** A domain combinator such as `expression.OR` or `expression.AND`: it takes a
      list of domains and returns their combination, or None when it raises. */
  type Combinator = seq<Domain> -> Option<Domain>

  /** A multi-search pattern detector, `self._get_multi_search_pattern`: the
      rewriter reaches it through `self`, so a model may override it. */
  type Detector = Value -> Detection

  /** A combinator that raises on every call. */
  const Failing: Combinator := (ds: seq<Domain>) => None

  /** `arg in ('&', '|', '!')` */
  predicate IsOperator(e: Elem)
  {
    e.Token? && e.s in {"&", "|", "!"}
  }

  /** The terms of a triple's value, or [] when it is no pattern or no triple. */
  function TermsOf(e: Elem, detect: Detector): (terms: seq<string>)
    ensures !e.Triple? ==> terms == []
    ensures terms != [] <==> e.Triple? && detect(e.value).isMulti && detect(e.value).terms != []
  {
    if e.Triple? && detect(e.value).isMulti then detect(e.value).terms else []
  }

  /** `[[(field, op, term)] for term in terms]`: one single-triple domain per term. */
  function TermDomains(field: Value, op: Value, terms: seq<string>): (r: seq<Domain>)
    ensures |r| == |terms|
    ensures forall k | 0 <= k < |r| :: r[k] == [Triple(field, op, Str(terms[k]))]
  {
    if terms == [] then [] else [[Triple(field, op, Str(terms[0]))]] + TermDomains(field, op, terms[1..])
  }

  /** The chunk of output one input element becomes (one pass of the loop body). */
  function Expand(e: Elem, detect: Detector, combineOr: Combinator): Domain
  {
    if IsOperator(e) then [e]
    else if e.Triple? then
      var detection := detect(e.value);
      if detection.isMulti && detection.terms != [] then
        var termDomains := TermDomains(e.field, e.op, detection.terms);
        if |termDomains| == 1 then termDomains[0]
        else
          match combineOr(termDomains)
          case Some(orDomain) => orDomain
          case None => [e]
      else [e]
    else [e]
  }

  /** The rewritten domain: the chunks of the elements, in input order. */
  function Rewrite(domain: Domain, detect: Detector, combineOr: Combinator): Domain
  {
    if domain == [] then [] else Expand(domain[0], detect, combineOr) + Rewrite(domain[1..], detect, combineOr)
  }

  /** `_process_multi_search_args(domain)`, with `expression.OR` as combineOr. */
  method ProcessMultiSearchArgs(domain: Domain, detect: Detector, combineOr: Combinator) returns (newArgs: Domain)
    ensures newArgs == Rewrite(domain, detect, combineOr)
  {
    if domain == [] {
      return domain;
    }
    newArgs := [];
    var i := 0;
    while i < |domain|
      invariant 0 <= i <= |domain|
      invariant newArgs == Rewrite(domain[..i], detect, combineOr)
      decreases |domain| - i
    {
      var arg := domain[i];
      RewriteStep(domain, i, detect, combineOr);
      if IsOperator(arg) {
        newArgs := newArgs + [arg];
        i := i + 1;
        continue;
      }
      if arg.Triple? {
        var detection := detect(arg.value);
        if detection.isMulti && detection.terms != [] {
          var termDomains: seq<Domain> := [];
          for k := 0 to |detection.terms|
            invariant |termDomains| == k
            invariant forall j | 0 <= j < k :: termDomains[j] == [Triple(arg.field, arg.op, Str(detection.terms[j]))]
          {
            termDomains := termDomains + [[Triple(arg.field, arg.op, Str(detection.terms[k]))]];
          }
          assert termDomains == TermDomains(arg.field, arg.op, detection.terms);
          if |termDomains| == 1 {
            newArgs := newArgs + termDomains[0];
          } else {
            var combined := combineOr(termDomains);
            match combined {
              case Some(orDomain) =>
                newArgs := newArgs + orDomain;
              case None =>
                newArgs := newArgs + [arg];
            }
          }
          i := i + 1;
          continue;
        }
      }
      newArgs := newArgs + [arg];
      i := i + 1;
    }
    assert domain[..|domain|] == domain;
  }

  // ---------------------------------------------------------------------------
  // Lemmas

  /** Rewriting distributes over concatenation: each element's chunk is
      computed on its own and the chunks keep the input order. */
  lemma {:induction false} RewriteConcat(a: Domain, b: Domain, detect: Detector, combineOr: Combinator)
    ensures Rewrite(a + b, detect, combineOr) == Rewrite(a, detect, combineOr) + Rewrite(b, detect, combineOr)
    decreases |a|
  {
    if a == [] {
      assert a + b == b;
    } else {
      assert (a + b)[0] == a[0];
      assert (a + b)[1..] == a[1..] + b;
      RewriteConcat(a[1..], b, detect, combineOr);
    }
  }

  /** One more element rewritten: its chunk is appended. */
  lemma RewriteStep(domain: Domain, i: nat, detect: Detector, combineOr: Combinator)
    requires i < |domain|
    ensures Rewrite(domain[..i + 1], detect, combineOr)
      == Rewrite(domain[..i], detect, combineOr) + Expand(domain[i], detect, combineOr)
  {
    assert domain[..i + 1] == domain[..i] + [domain[i]];
    RewriteAppendOne(domain[..i], domain[i], detect, combineOr);
  }

  lemma RewriteAppendOne(a: Domain, e: Elem, detect: Detector, combineOr: Combinator)
    ensures Rewrite(a + [e], detect, combineOr) == Rewrite(a, detect, combineOr) + Expand(e, detect, combineOr)
  {
    RewriteConcat(a, [e], detect, combineOr);
    assert [e][1..] == [];
  }

  /** What an element becomes depends only on its terms: operators, unknown
      elements and non-pattern triples are copied, a one-term triple becomes the
      triple for that term, and a triple of several terms becomes the
      combinator's result, or is copied when the combinator raises. */
  lemma ExpandByTerms(e: Elem, detect: Detector, combineOr: Combinator)
    ensures TermsOf(e, detect) == [] ==> Expand(e, detect, combineOr) == [e]
    ensures |TermsOf(e, detect)| == 1 ==> Expand(e, detect, combineOr) == [Triple(e.field, e.op, Str(TermsOf(e, detect)[0]))]
    ensures |TermsOf(e, detect)| >= 2 ==>
      Expand(e, detect, combineOr)
        == (match combineOr(TermDomains(e.field, e.op, TermsOf(e, detect)))
            case Some(orDomain) => orDomain
            case None => [e])
  {
  }

  lemma RewriteCons(e: Elem, rest: Domain, detect: Detector, combineOr: Combinator)
    ensures Rewrite([e] + rest, detect, combineOr) == Expand(e, detect, combineOr) + Rewrite(rest, detect, combineOr)
  {
    assert ([e] + rest)[1..] == rest;
  }

  /** Element i of the input becomes its own chunk, placed between the
      rewrites of the elements before it and after it. */
  lemma RewriteAt(domain: Domain, i: nat, detect: Detector, combineOr: Combinator)
    requires i < |domain|
    ensures Rewrite(domain, detect, combineOr)
      == Rewrite(domain[..i], detect, combineOr) + Expand(domain[i], detect, combineOr) + Rewrite(domain[i + 1..], detect, combineOr)
  {
    SplitAround(domain, i);
    RewriteSplit(domain[..i], domain[i], domain[i + 1..], detect, combineOr);
  }

  lemma SplitAround(domain: Domain, i: nat)
    requires i < |domain|
    ensures domain == domain[..i] + [domain[i]] + domain[i + 1..]
  {
  }

  lemma RewriteSplit(pre: Domain, e: Elem, post: Domain, detect: Detector, combineOr: Combinator)
    ensures Rewrite(pre + [e] + post, detect, combineOr)
      == Rewrite(pre, detect, combineOr) + Expand(e, detect, combineOr) + Rewrite(post, detect, combineOr)
  {
    RewriteConcat(pre + [e], post, detect, combineOr);
    RewriteAppendOne(pre, e, detect, combineOr);
  }

  /** A domain without pattern values comes back element for element
      (the empty domain included). */
  lemma {:induction false} RewriteIdentity(domain: Domain, detect: Detector, combineOr: Combinator)
    requires forall i | 0 <= i < |domain| :: TermsOf(domain[i], detect) == []
    ensures Rewrite(domain, detect, combineOr) == domain
    decreases |domain|
  {
    if domain != [] {
      assert TermsOf(domain[0], detect) == [];
      RewriteIdentity(domain[1..], detect, combineOr);
      assert [domain[0]] + domain[1..] == domain;
    }
  }

  /** When the combinator raises on every call, nothing grows: every element
      stays in place except that a one-term triple gets the bare term. */
  lemma {:induction false} RewriteWithFailingOr(domain: Domain, detect: Detector)
    ensures var r := Rewrite(domain, detect, Failing);
      && |r| == |domain|
      && forall i | 0 <= i < |domain| ::
           r[i] == if |TermsOf(domain[i], detect)| == 1 then domain[i].(value := Str(TermsOf(domain[i], detect)[0])) else domain[i]
    decreases |domain|
  {
    if domain != [] {
      RewriteWithFailingOr(domain[1..], detect);
      var r := Rewrite(domain, detect, Failing);
      var chunk := Expand(domain[0], detect, Failing);
      assert |chunk| == 1;
      assert r == chunk + Rewrite(domain[1..], detect, Failing);
      forall i | 0 <= i < |domain|
        ensures r[i] == if |TermsOf(domain[i], detect)| == 1 then domain[i].(value := Str(TermsOf(domain[i], detect)[0])) else domain[i]
      {
        if i > 0 {
          assert r[i] == Rewrite(domain[1..], detect, Failing)[i - 1];
          assert domain[i] == domain[1..][i - 1];
        }
      }
    }
  }

  // ---------------------------------------------------------------------------
  // Scenarios

  /** `[(f, op, "{x y}")]` with a combinator that always raises comes back unchanged. */
  lemma FallbackScenario(f: Value, op: Value)
    ensures Rewrite([Triple(f, op, Str("{x y}"))], MultiSearchPattern, Failing) == [Triple(f, op, Str("{x y}"))]
  {
    assert "{x y}" == ['{'] + "x" + [' '] + "y" + ['}'];
    BraceTwoTerms("x", "y");
    RewriteWithFailingOr([Triple(f, op, Str("{x y}"))], MultiSearchPattern);
  }

  /** `["&", (f1, op1, v1), (f2, op2, v2)]` where v1 is a two-term pattern and v2
      is no pattern: the operator is kept, the first triple is expanded through
      the combinator and the second is untouched. */
  lemma SkeletonPreserved(f1: Value, op1: Value, v1: Value, f2: Value, op2: Value, v2: Value,
                          x: string, y: string, detect: Detector, combineOr: Combinator)
    requires detect(v1) == Detection(true, [x, y])
    requires !detect(v2).isMulti
    ensures var chunk := match combineOr(TermDomains(f1, op1, [x, y]))
        case Some(orDomain) => orDomain
        case None => [Triple(f1, op1, v1)];
      Rewrite([Token("&"), Triple(f1, op1, v1), Triple(f2, op2, v2)], detect, combineOr)
      == [Token("&")] + chunk + [Triple(f2, op2, v2)]
  {
    var e0, e1, e2 := Token("&"), Triple(f1, op1, v1), Triple(f2, op2, v2);
    ExpandByTerms(e0, detect, combineOr);
    ExpandByTerms(e1, detect, combineOr);
    ExpandByTerms(e2, detect, combineOr);
    RewriteCons(e2, [], detect, combineOr);
    RewriteCons(e1, [e2], detect, combineOr);
    RewriteCons(e0, [e1, e2], detect, combineOr);
    assert [e2] + [] == [e2] && [e1] + [e2] == [e1, e2] && [e0] + [e1, e2] == [e0, e1, e2];
  }

  /** The instance `["&", (f1, op1, "{x y}"), (f2, op2, "z")]`. */
  lemma SkeletonScenario(f1: Value, op1: Value, f2: Value, op2: Value, combineOr: Combinator)
    ensures var chunk := match combineOr(TermDomains(f1, op1, ["x", "y"]))
        case Some(orDomain) => orDomain
        case None => [Triple(f1, op1, Str("{x y}"))];
      Rewrite([Token("&"), Triple(f1, op1, Str("{x y}")), Triple(f2, op2, Str("z"))], MultiSearchPattern, combineOr)
      == [Token("&")] + chunk + [Triple(f2, op2, Str("z"))]
  {
    assert "{x y}" == ['{'] + "x" + [' '] + "y" + ['}'];
    BraceTwoTerms("x", "y");
    Unwrapped("z");
    SkeletonPreserved(f1, op1, Str("{x y}"), f2, op2, Str("z"), "x", "y", MultiSearchPattern, combineOr);
  }

  /** `[("name", "ilike", "{alice bob}")]` becomes the combinator's disjunction of
      `("name", "ilike", "alice")` and `("name", "ilike", "bob")`. */
  lemma AliceBobScenario(combineOr: Combinator)
    ensures var name, ilike := Str("name"), Str("ilike");
      var expanded := [[Triple(name, ilike, Str("alice"))], [Triple(name, ilike, Str("bob"))]];
      combineOr(expanded).Some? ==>
        Rewrite([Triple(name, ilike, Str("{alice bob}"))], MultiSearchPattern, combineOr) == combineOr(expanded).value
  {
    assert "{alice bob}" == ['{'] + "alice" + [' '] + "bob" + ['}'];
    BraceTwoTerms("alice", "bob");
    TwoTermTriple(Str("name"), Str("ilike"), Str("{alice bob}"), "alice", "bob", MultiSearchPattern, combineOr);
  }

  /** A lone triple whose value has the two terms x and y becomes the
      combinator's disjunction of the two per-term triples. */
  lemma TwoTermTriple(f: Value, op: Value, v: Value, x: string, y: string,
                      detect: Detector, combineOr: Combinator)
    requires detect(v) == Detection(true, [x, y])
    ensures var expanded := [[Triple(f, op, Str(x))], [Triple(f, op, Str(y))]];
      Rewrite([Triple(f, op, v)], detect, combineOr)
      == match combineOr(expanded)
         case Some(orDomain) => orDomain
         case None => [Triple(f, op, v)]
  {
    var e := Triple(f, op, v);
    ExpandByTerms(e, detect, combineOr);
    RewriteCons(e, [], detect, combineOr);
    assert [e] + [] == [e];
    assert TermDomains(f, op, [x, y]) == [[Triple(f, op, Str(x))], [Triple(f, op, Str(y))]];
  }
}
