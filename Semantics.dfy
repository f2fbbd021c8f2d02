/** What a domain means: prefix-notation evaluation against one record, and the
    proof that the multi-search rewrite keeps the meaning a pattern stands for
    whenever the OR combinator it uses is a faithful disjunction. */
module Semantics {
  import opened Text
  import opened Pattern
  import opened Rewriter

  /** One evaluation step, reading the domain from right to left: a leaf pushes
      its truth value, `!` negates the top, `&` and `|` combine the top two.
      An operator short of operands leaves the stack alone. */
  function Step(e: Elem, st: seq<bool>, leaf: Elem -> bool): (r: seq<bool>)
    ensures !IsOperator(e) ==> r == [leaf(e)] + st
  {
    if e == Token("!") then
      if |st| >= 1 then [!st[0]] + st[1..] else st
    else if e == Token("&") then
      if |st| >= 2 then [st[0] && st[1]] + st[2..] else st
    else if e == Token("|") then
      if |st| >= 2 then [st[0] || st[1]] + st[2..] else st
    else [leaf(e)] + st
  }

  /** The stack left after evaluating domain d on top of st. */
  function Run(d: Domain, st: seq<bool>, leaf: Elem -> bool): seq<bool>
  {
    if d == [] then st else Step(d[0], Run(d[1..], st, leaf), leaf)
  }

  lemma {:induction false} RunConcat(a: Domain, b: Domain, st: seq<bool>, leaf: Elem -> bool)
    ensures Run(a + b, st, leaf) == Run(a, Run(b, st, leaf), leaf)
  {
    if a != [] {
      assert (a + b)[1..] == a[1..] + b;
      RunConcat(a[1..], b, st, leaf);
    } else {
      assert a + b == b;
    }
  }

  /** Whether the record matches at least one of the per-term triples. */
  function AnyTerm(holds: Elem -> bool, field: Value, op: Value, terms: seq<string>): bool
  {
    terms != [] && (holds(Triple(field, op, Str(terms[0]))) || AnyTerm(holds, field, op, terms[1..]))
  }

  /** What an element stands for: a triple whose value is a multi-search pattern
      matches when one of its terms does; every other element means itself. */
  function Intended(holds: Elem -> bool, detect: Detector, e: Elem): (b: bool)
    ensures TermsOf(e, detect) == [] ==> b == holds(e)
  {
    var terms := TermsOf(e, detect);
    if terms == [] then holds(e) else AnyTerm(holds, e.field, e.op, terms)
  }

  /** A triple whose value is written `{w1 w2 ...}` stands for "the field
      matches one of the words" when there is at least one word, and for
      itself otherwise. */
  lemma IntendedBrace(holds: Elem -> bool, field: Value, op: Value, s: string)
    requires Wrapped(s, '{', '}')
    ensures var words := SplitWs(Interior(s));
      Intended(holds, MultiSearchPattern, Triple(field, op, Str(s)))
        == if words == [] then holds(Triple(field, op, Str(s))) else AnyTerm(holds, field, op, words)
  {
    BraceForm(s);
  }

  /** The same for `[t1, t2, ...]`, with the stripped non-blank comma pieces as terms. */
  lemma IntendedBracket(holds: Elem -> bool, field: Value, op: Value, s: string)
    requires Wrapped(s, '[', ']')
    ensures var terms := CleanTerms(SplitOn(Interior(s), ','));
      Intended(holds, MultiSearchPattern, Triple(field, op, Str(s)))
        == if terms == [] then holds(Triple(field, op, Str(s))) else AnyTerm(holds, field, op, terms)
  {
    BracketForm(s);
  }

  /** combineOr, when it answers for the term domains of field, op and terms,
      answers a domain that evaluates to exactly one value: their disjunction. */
  ghost predicate OrFaithfulFor(combineOr: Combinator, holds: Elem -> bool,
                                field: Value, op: Value, terms: seq<string>)
  {
    match combineOr(TermDomains(field, op, terms))
    case None => true
    case Some(d) => forall st: seq<bool> {:trigger Run(d, st, holds)} ::
      Run(d, st, holds) == [AnyTerm(holds, field, op, terms)] + st
  }

  /** combineOr is a faithful disjunction on every call the rewriter makes:
      one with two or more term domains. */
  ghost predicate OrFaithful(combineOr: Combinator, holds: Elem -> bool)
  {
    forall field, op, terms | |terms| >= 2 :: OrFaithfulFor(combineOr, holds, field, op, terms)
  }

  /** combineOr answers for every multi-term pattern of the domain. */
  ghost predicate OrAnswers(domain: Domain, detect: Detector, combineOr: Combinator)
  {
    forall i | 0 <= i < |domain| && |TermsOf(domain[i], detect)| >= 2 ::
      combineOr(TermDomains(domain[i].field, domain[i].op, TermsOf(domain[i], detect))).Some?
  }

  /** The chunk an element becomes evaluates like the element itself, read as
      what it stands for. */
  lemma ExpandMeaning(e: Elem, st: seq<bool>, detect: Detector, combineOr: Combinator, holds: Elem -> bool)
    requires OrFaithful(combineOr, holds)
    requires |TermsOf(e, detect)| >= 2 ==> combineOr(TermDomains(e.field, e.op, TermsOf(e, detect))).Some?
    ensures Run(Expand(e, detect, combineOr), st, holds) == Step(e, st, (x: Elem) => Intended(holds, detect, x))
  {
    var meaning := (x: Elem) => Intended(holds, detect, x);
    ExpandByTerms(e, detect, combineOr);
    var terms := TermsOf(e, detect);
    if terms == [] {
      assert Expand(e, detect, combineOr) == [e];
      assert Run([e], st, holds) == Step(e, Run([], st, holds), holds);
    } else if |terms| == 1 {
      var t := Triple(e.field, e.op, Str(terms[0]));
      assert Expand(e, detect, combineOr) == [t];
      assert Run([t], st, holds) == Step(t, Run([], st, holds), holds);
      assert AnyTerm(holds, e.field, e.op, terms) == holds(t);
    } else {
      assert OrFaithfulFor(combineOr, holds, e.field, e.op, terms);
      var d := combineOr(TermDomains(e.field, e.op, terms)).value;
      assert Expand(e, detect, combineOr) == d;
      assert Run(d, st, holds) == [AnyTerm(holds, e.field, e.op, terms)] + st;
    }
  }

  /** Evaluating the rewritten domain gives what evaluating the original domain
      gives when every pattern triple is read as the disjunction of its terms. */
  lemma {:induction false} RewritePreservesMeaning(domain: Domain, st: seq<bool>,
                                                   detect: Detector, combineOr: Combinator, holds: Elem -> bool)
    requires OrFaithful(combineOr, holds)
    requires OrAnswers(domain, detect, combineOr)
    ensures Run(Rewrite(domain, detect, combineOr), st, holds)
         == Run(domain, st, (x: Elem) => Intended(holds, detect, x))
  {
    if domain != [] {
      var meaning := (x: Elem) => Intended(holds, detect, x);
      assert OrAnswers(domain[1..], detect, combineOr) by {
        forall i | 0 <= i < |domain[1..]| && |TermsOf(domain[1..][i], detect)| >= 2
          ensures combineOr(TermDomains(domain[1..][i].field, domain[1..][i].op, TermsOf(domain[1..][i], detect))).Some?
        {
          assert domain[1..][i] == domain[i + 1];
        }
      }
      RewritePreservesMeaning(domain[1..], st, detect, combineOr, holds);
      var rest := Run(domain[1..], st, meaning);
      RunConcat(Expand(domain[0], detect, combineOr), Rewrite(domain[1..], detect, combineOr), st, holds);
      ExpandMeaning(domain[0], rest, detect, combineOr, holds);
    }
  }

  /** A reference OR: `['|'] * (n - 1)` interleaved before the operands, as
      prefix notation writes an n-ary disjunction. */
  function Disjoin(ds: seq<Domain>): Domain
    requires ds != []
  {
    if |ds| == 1 then ds[0] else [Token("|")] + ds[0] + Disjoin(ds[1..])
  }

  function PrefixOr(ds: seq<Domain>): Option<Domain>
  {
    if ds == [] then None else Some(Disjoin(ds))
  }

  lemma RunLeaf(e: Elem, st: seq<bool>, leaf: Elem -> bool)
    requires !IsOperator(e)
    ensures Run([e], st, leaf) == [leaf(e)] + st
  {
    assert [e][1..] == [];
  }

  lemma RunCons(e: Elem, d: Domain, st: seq<bool>, leaf: Elem -> bool)
    ensures Run([e] + d, st, leaf) == Step(e, Run(d, st, leaf), leaf)
  {
    assert ([e] + d)[1..] == d;
  }

  lemma StepOr(a: bool, b: bool, st: seq<bool>, leaf: Elem -> bool)
    ensures Step(Token("|"), [a] + ([b] + st), leaf) == [a || b] + st
  {
    assert ([a] + ([b] + st))[2..] == st;
  }

  lemma TermDomainsCons(field: Value, op: Value, terms: seq<string>)
    requires terms != []
    ensures var ds := TermDomains(field, op, terms);
      ds[0] == [Triple(field, op, Str(terms[0]))] && ds[1..] == TermDomains(field, op, terms[1..])
  {
  }

  lemma DisjoinCons(ds: seq<Domain>)
    requires |ds| >= 2
    ensures Disjoin(ds) == [Token("|")] + (ds[0] + Disjoin(ds[1..]))
  {
  }

  /** The reference OR of the term domains pushes exactly the disjunction of the terms. */
  lemma {:induction false} DisjoinTerms(field: Value, op: Value, terms: seq<string>,
                                        st: seq<bool>, holds: Elem -> bool)
    requires terms != []
    ensures Run(Disjoin(TermDomains(field, op, terms)), st, holds)
         == [AnyTerm(holds, field, op, terms)] + st
  {
    var ds := TermDomains(field, op, terms);
    var t := Triple(field, op, Str(terms[0]));
    TermDomainsCons(field, op, terms);
    RunLeaf(t, st, holds);
    if |terms| > 1 {
      DisjoinTerms(field, op, terms[1..], st, holds);
      var tail := Run(Disjoin(ds[1..]), st, holds);
      RunConcat([t], Disjoin(ds[1..]), st, holds);
      RunLeaf(t, tail, holds);
      DisjoinCons(ds);
      RunCons(Token("|"), [t] + Disjoin(ds[1..]), st, holds);
      StepOr(holds(t), AnyTerm(holds, field, op, terms[1..]), st, holds);
    }
  }

  /** The reference OR is faithful for every record. */
  lemma PrefixOrFaithful(holds: Elem -> bool)
    ensures OrFaithful(PrefixOr, holds)
  {
    forall field, op, terms | |terms| >= 2 ensures OrFaithfulFor(PrefixOr, holds, field, op, terms) {
      forall st: seq<bool>
        ensures Run(Disjoin(TermDomains(field, op, terms)), st, holds)
             == [AnyTerm(holds, field, op, terms)] + st
      {
        DisjoinTerms(field, op, terms, st, holds);
      }
    }
  }

  /** With the reference OR, every domain is rewritten into one of the same
      meaning. */
  lemma PrefixOrRewrite(domain: Domain, st: seq<bool>, detect: Detector, holds: Elem -> bool)
    ensures Run(Rewrite(domain, detect, PrefixOr), st, holds)
         == Run(domain, st, (x: Elem) => Intended(holds, detect, x))
  {
    PrefixOrFaithful(holds);
    forall i | 0 <= i < |domain| && |TermsOf(domain[i], detect)| >= 2
      ensures PrefixOr(TermDomains(domain[i].field, domain[i].op, TermsOf(domain[i], detect))).Some?
    {
    }
    RewritePreservesMeaning(domain, st, detect, PrefixOr, holds);
  }
}
