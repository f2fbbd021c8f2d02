# Multi-record search, modelled in Dafny

The `multi_record_search` Odoo module lets a user type several record names
into one search box. A filter value written as `{t1 t2 ...}` (terms separated
by whitespace) or as `[t1, t2, ...]` (terms separated by commas) is a
*multi-search pattern*. A condition `(field, operator, pattern)` then means
"`field operator t` holds for at least one term `t`". The module defines
four methods on every model: two new helpers, `_get_multi_search_pattern` and
`_process_multi_search_args`, and two overrides, `_search` and `name_search`.
This project models three of them; `_search` is left out (see below):

- `Pattern.MultiSearchPattern` is `_get_multi_search_pattern`. It detects a
  pattern and returns the pair `(is_multi_search, search_terms)`. Python's
  `str.strip`, `str.split()` and `str.split(',')` are modelled in module
  `Text`.
- `Rewriter.ProcessMultiSearchArgs` is `_process_multi_search_args`, a
  `while` loop over a prefix-notation domain. It reaches the detector through
  `self`, so the model takes the detector as a parameter (`Detector`); the
  scenarios and `name_search` use `Pattern.MultiSearchPattern`. Operators and
  non-pattern elements are copied. A one-term pattern triple becomes the triple for that
  term. A triple with several terms becomes the `expression.OR` of one triple
  per term, or is kept as it was when `expression.OR` raises. The method is
  proved equal to the function `Rewriter.Rewrite`, and the lemmas are stated
  about that function.
- `NameSearch.NameSearchPlan` is the decision `name_search` makes: a plain
  name lookup, a search over a domain built on the `_rec_name` field, or an
  exception escaping from `expression.AND`.

`expression.OR` and `expression.AND` are Odoo library code. They are
parameters of type `Combinator`, which maps a list of domains to a domain
and answers `None` when the call raises.

Module `Semantics` gives domains a meaning: prefix-notation evaluation
against one record, read right to left with a stack. `Step` and `Run` are
that evaluation, and `Intended` is what a pattern triple is meant to stand
for; the Odoo module computes neither, so they are definitions, not models of
source lines. It proves that the
rewrite turns every pattern triple into the disjunction of its terms. The
condition is that `expression.OR` computes that disjunction whenever it is
called with two or more term domains (the only calls the rewriter makes), and
does not raise on the patterns at hand. A reference OR combinator (`PrefixOr`) is
proved to satisfy that condition.

Whitespace is Python's `str.isspace` table: U+0009–U+000D, U+001C–U+0020,
U+0085, U+00A0, U+1680, U+2000–U+200A, U+2028, U+2029, U+202F, U+205F and
U+3000.

## Model

| member | source | states |
|---|---|---|
| Text.TrimStartShape | multi_record_search/models/multi_search.py:20 | `lstrip()` removes a prefix of whitespace only, and the result does not start with whitespace |
| Text.TrimEndShape | multi_record_search/models/multi_search.py:20 | `rstrip()` removes a suffix of whitespace only, and the result does not end with whitespace |
| Text.StripSpec | multi_record_search/models/multi_search.py:20 | `strip()`: the result has no leading or trailing whitespace, is empty exactly when the input is all whitespace, and leaves an already-stripped string unchanged |
| Text.StripDecompose | multi_record_search/models/multi_search.py:20 | the input is leading whitespace, then `strip()` of it, then trailing whitespace |
| Text.StripAvoids | multi_record_search/models/multi_search.py:33 | stripping introduces no character that was not there (so no comma) |
| Text.WordShape | multi_record_search/models/multi_search.py:24 | a word of `split()` is the longest prefix free of whitespace |
| Text.SplitWsStrip | multi_record_search/models/multi_search.py:20-24 | `split()` gives the same words whether or not the string is stripped first |
| Text.SplitWsConcat | multi_record_search/models/multi_search.py:24 | every word of `split()` is non-empty and free of whitespace, and the words concatenated are the input with its whitespace removed: no character is lost or invented, and order is kept |
| Text.SplitWsJoin | multi_record_search/models/multi_search.py:24 | words joined by single spaces split back into the same words |
| Text.SplitOnAvoids | multi_record_search/models/multi_search.py:33 | no piece of `split(',')` holds a comma |
| Text.JoinSplitOn | multi_record_search/models/multi_search.py:33 | the pieces of `split(',')`, joined with commas, give back the input |
| Text.SplitOnJoin | multi_record_search/models/multi_search.py:33 | comma-free pieces joined with commas split back into the same pieces |
| Pattern.CleanTerms | multi_record_search/models/multi_search.py:24 | `[t.strip() for t in pieces if t.strip()]` keeps at most as many terms as there are pieces |
| Pattern.CleanTermsClean | multi_record_search/models/multi_search.py:24 | every term kept by that filter is non-empty and stripped (the same filter is at line 33) |
| Pattern.CleanTermsOfTrimmed | multi_record_search/models/multi_search.py:24 | a list of non-empty stripped terms passes through the filter unchanged |
| Pattern.MultiSearchPattern | multi_record_search/models/multi_search.py:13-36 | a non-string value gives `(False, [])`, and the flag is set exactly when the term list is non-empty |
| Pattern.DetectedTermsClean | multi_record_search/models/multi_search.py:24-34 | every detected term is non-empty and carries no surrounding whitespace |
| Pattern.BraceForm | multi_record_search/models/multi_search.py:19-25 | for a value that `Wrapped` in `{` and `}` (the `startswith`/`endswith` test at line 19), the terms are exactly the whitespace-separated words of `Interior`, which is `value[1:-1]`, in order, and the flag is set exactly when there is one |
| Pattern.BracketForm | multi_record_search/models/multi_search.py:28-34 | for a value `Wrapped` in `[` and `]` (line 28), the terms are exactly the comma pieces of `Interior` (`value[1:-1]`), stripped, with the blank ones dropped, and the flag is set exactly when there is one |
| Pattern.BracketTermsAvoidComma | multi_record_search/models/multi_search.py:33 | no term of the bracket form holds a comma |
| Pattern.Unwrapped | multi_record_search/models/multi_search.py:36 | a string that is neither `{...}` nor `[...]` gives `(False, [])` |
| Pattern.BlankInterior | multi_record_search/models/multi_search.py:20-22 | a `{...}` or `[...]` string whose interior is blank gives `(False, [])` (the same test is at lines 29-31) |
| Pattern.BraceRoundTrip | multi_record_search/models/multi_search.py:19-25 | `"{" + " ".join(terms) + "}"` is detected as `(True, terms)` for any non-empty list of whitespace-free words |
| Pattern.BracketRoundTrip | multi_record_search/models/multi_search.py:28-34 | `"[" + ",".join(terms) + "]"` is detected as `(True, terms)` for any non-empty list of stripped, comma-free terms |
| Pattern.BraceTwoTerms | multi_record_search/models/multi_search.py:19-25 | `{x y}` gives `(True, [x, y])` for any two words x and y |
| Pattern.BraceThreeTerms | multi_record_search/models/multi_search.py:19-25 | `{a b c}` gives `(True, [a, b, c])` for any three non-space characters |
| Pattern.BraceExampleABC | multi_record_search/models/multi_search.py:19-25 | `"{a b c}"` gives `(True, ["a", "b", "c"])` |
| Pattern.BraceExampleSingle | multi_record_search/models/multi_search.py:25 | `"{a}"`, with a single term, is still a pattern |
| Pattern.BracketTwoTerms | multi_record_search/models/multi_search.py:28-34 | `[x, y]` gives `(True, [x, y])` for any two stripped, comma-free terms |
| Pattern.BracketThreeTerms | multi_record_search/models/multi_search.py:33 | `[a, b, c]` gives `(True, [a, b, c])`: the blank after each comma is stripped |
| Pattern.BracketEmptyPiece | multi_record_search/models/multi_search.py:33 | `[a,,b]` gives `(True, [a, b])`: the empty piece is dropped |
| Pattern.BracketExampleThree | multi_record_search/models/multi_search.py:33 | `"[a, b, c]"` gives `(True, ["a", "b", "c"])` |
| Pattern.BracketExampleEmptyPiece | multi_record_search/models/multi_search.py:33 | `"[a,,b]"` gives `(True, ["a", "b"])` |
| Pattern.BlankExamples | multi_record_search/models/multi_search.py:20-22 | `"{}"`, `"{  }"` and `"[  ]"` are not patterns |
| Pattern.UnwrappedExamples | multi_record_search/models/multi_search.py:36 | `"{unterminated"` and `"plain text"` are not patterns |
| Rewriter.TermDomains | multi_record_search/models/multi_search.py:78-80 | one single-triple domain `[(field, op, term)]` per term, in term order |
| Rewriter.ProcessMultiSearchArgs | multi_record_search/models/multi_search.py:56-96 | the loop's output is exactly `Rewrite(domain)`, the empty domain included |
| Rewriter.RewriteConcat | multi_record_search/models/multi_search.py:63-95 | rewriting treats each element on its own and keeps the chunks in input order |
| Rewriter.RewriteAt | multi_record_search/models/multi_search.py:63-95 | `Rewrite`, the loop as a function: element i of the input becomes its `Expand` chunk, placed between the rewrites of the elements before and after it |
| Rewriter.ExpandByTerms | multi_record_search/models/multi_search.py:66-95 | `Expand`, one pass of the loop body, depends only on the element's terms (`TermsOf`): operators (`IsOperator`, line 66) and other non-pattern elements are copied; a one-term triple becomes the triple for its term; a triple of several terms becomes the OR result, or is copied when OR raises |
| Rewriter.RewriteIdentity | multi_record_search/models/multi_search.py:94 | a domain without pattern values comes back element for element |
| Rewriter.RewriteWithFailingOr | multi_record_search/models/multi_search.py:85-91 | when OR always raises, the domain keeps its length and only one-term triples change |
| Rewriter.FallbackScenario | multi_record_search/models/multi_search.py:88-91 | `[(f, op, "{x y}")]` comes back unchanged when OR raises |
| Rewriter.SkeletonPreserved | multi_record_search/models/multi_search.py:66-94 | in `["&", pattern triple, plain triple]` the operator and the plain triple are kept, and only the pattern triple is expanded |
| Rewriter.SkeletonScenario | multi_record_search/models/multi_search.py:66-94 | the instance `["&", (f1, op1, "{x y}"), (f2, op2, "z")]` |
| Rewriter.TwoTermTriple | multi_record_search/models/multi_search.py:77-91 | a lone triple whose value has two terms becomes the OR of the two per-term triples, or stays as it was when OR raises |
| Rewriter.AliceBobScenario | multi_record_search/models/multi_search.py:77-87 | `[("name", "ilike", "{alice bob}")]` becomes OR of the `alice` triple and the `bob` triple |
| Semantics.IntendedBrace | multi_record_search/models/multi_search.py:19-25 | a triple whose value is `{w1 w2 ...}` stands for "the field matches one of the words" when there is a word, and for itself when the interior is blank |
| Semantics.IntendedBracket | multi_record_search/models/multi_search.py:28-34 | the same for `[t1, t2, ...]`, with the stripped non-blank comma pieces as the terms |
| Semantics.RunConcat | multi_record_search/models/multi_search.py:63-95 | evaluating a concatenation evaluates the right part first, then the left part on its stack |
| Semantics.ExpandMeaning | multi_record_search/models/multi_search.py:66-93 | with a faithful OR, each element's chunk evaluates like the element read as the disjunction of its terms |
| Semantics.RewritePreservesMeaning | multi_record_search/models/multi_search.py:56-96 | with a faithful OR that answers for the domain's patterns, the rewritten domain evaluates like the original, with every pattern read as "one of its terms" |
| Semantics.DisjoinTerms | multi_record_search/models/multi_search.py:86 | `['|', d1, '|', d2, ..., dn]` built from the term domains pushes exactly the disjunction of the terms |
| Semantics.PrefixOrFaithful | multi_record_search/models/multi_search.py:86 | the reference prefix-notation OR is faithful for every record |
| Semantics.PrefixOrRewrite | multi_record_search/models/multi_search.py:56-96 | with the reference OR, every domain is rewritten into one of the same meaning |
| NameSearch.NameSearchPlan | multi_record_search/models/multi_search.py:99-131 | a name that is no pattern gives the plain lookup; without args the planned search is exactly what the rewriter makes of `(rec_name, operator, name)`; AND can fail only when there are args |
| NameSearch.SingleTermName | multi_record_search/models/multi_search.py:109-122 | a one-term name searches `(rec_name, operator, term)`, conjoined with the args when there are any (`WithArgs`: `expression.AND([args, domain])` at lines 121-122, whose failure escapes `name_search`), and never consults OR |
| NameSearch.MultiTermName | multi_record_search/models/multi_search.py:111-122 | a name of several terms searches the OR of the per-term triples, conjoined with the args when there are any (`WithArgs`, lines 121-122), and falls back to the plain lookup when OR raises |
| NameSearch.AndOnlyWithArgs | multi_record_search/models/multi_search.py:121-122 | without args, the plan does not depend on `expression.AND` |
| NameSearch.FooBarScenario | multi_record_search/models/multi_search.py:101-126 | `"[foo, bar]"` with `ilike` and no args searches the OR of the `foo` triple and the `bar` triple, or falls back to the plain lookup |

## Left out

- The `_search` override (multi_record_search/models/multi_search.py:39-53) is not modelled. It hands the rewritten domain to the inherited search. The original domain is searched again when the rewrite or the inherited search on the rewritten domain raises. In this model the rewrite never raises, because the OR failure is caught inside it, so only a failure of the inherited search would trigger that fallback. The inherited search is database code outside this model. Because `self.search` at line 125 goes through this override, the domain that `name_search` builds (`NameSearch.Lookup.Search`) is rewritten a second time before it reaches the database. A term that is itself a pattern is then expanded again: the name `"{[a] b}"` gives the term `"[a]"`, which ends up searched as `"a"`. The model stops at the domain handed to `self.search` and does not follow this second rewrite.
- Record retrieval is not modelled: `self.search`, `name_get()` and the inherited `name_search` are ORM calls into the database. `NameSearch.Lookup` names which of them is made and with which domain.
- `limit` and the other arguments forwarded unchanged to the ORM are not modelled.
- The internals of `expression.OR` and `expression.AND` are not modelled. They are arbitrary combinators that may raise. `Semantics.PrefixOr` is a reference combinator and is not Odoo's OR.
- Logging (`_logger.warning`) is not modelled.
- The Odoo inheritance mechanics (`_inherit = 'base'`, `@api.model`) are not modelled.
- `sea_multi_search/__manifest__.py` is not modelled: it holds installation metadata and no logic.
- Python lists and tuples are not told apart. Both are a `Triple` when they have length 3, and `Other` otherwise. A non-operator string element is a `Token` and is copied like any other element.
- `domain=None` and `args=None` are modelled as the empty domain. They behave the same, since both are falsy.
- `name_search`'s `if name:` test for a non-string name is not modelled. A non-string is never a pattern, so it gives the plain lookup either way.
- The whitespace table is that of current Python releases. The model fixes it once, whatever the Unicode version.
- `Semantics.Step`: an operator short of operands leaves the stack alone. Such a domain is malformed; the model gives it some meaning rather than none.
