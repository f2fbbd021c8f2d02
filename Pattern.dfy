/** The multi-search pattern detector, `_get_multi_search_pattern`: a filter value
    of the form `{t1 t2 ...}` (whitespace-separated) or `[t1, t2, ...]`
    (comma-separated) stands for the list of its terms. */
module Pattern {
  import opened Text

  /** A filter value: a Python `str`, or any other Python object (a number,
      False, None, a list, ...), told apart by an identity. */
  datatype Value = Str(s: string) | NonStr(id: int)

  /** The pair `(is_multi_search, search_terms)` the detector returns. */
  datatype Detection = Detection(isMulti: bool, terms: seq<string>)

  /** `(False, [])`: not a multi-search pattern. */
  const NotMulti := Detection(false, [])

  /** `s.startswith(open) and s.endswith(close)` */
  predicate Wrapped(s: string, open: char, close: char)
  {
    |s| > 0 && s[0] == open && s[|s| - 1] == close
  }

  /** Python's slice `s[1:-1]`, which is empty for strings shorter than two. */
  function Interior(s: string): (r: string)
    ensures |s| >= 2 ==> s == [s[0]] + r + [s[|s| - 1]]
  {
    if |s| >= 2 then s[1..|s| - 1] else []
  }

  /** Every term is non-empty and carries no surrounding whitespace. */
  predicate CleanList(ts: seq<string>)
  {
    forall i | 0 <= i < |ts| :: ts[i] != [] && Trimmed(ts[i])
  }

  /** `[term.strip() for term in pieces if term.strip()]` */
  function CleanTerms(pieces: seq<string>): (r: seq<string>)
    ensures |r| <= |pieces|
  {
    if pieces == [] then []
    else
      var t := Strip(pieces[0]);
      (if t == [] then [] else [t]) + CleanTerms(pieces[1..])
  }

  /** `_get_multi_search_pattern(value)`. Whatever the path taken, the flag is
      set exactly when the term list is non-empty, and a non-string is never a
      pattern. */
  function MultiSearchPattern(v: Value): (r: Detection)
    ensures !v.Str? ==> r == NotMulti
    ensures r.isMulti <==> r.terms != []
  {
    if !v.Str? then NotMulti
    else if Wrapped(v.s, '{', '}') then
      var content := Strip(Interior(v.s));
      if content == [] then NotMulti
      else
        var terms := CleanTerms(SplitWs(content));
        Detection(terms != [], terms)
    else if Wrapped(v.s, '[', ']') then
      var content := Strip(Interior(v.s));
      if content == [] then NotMulti
      else
        var terms := CleanTerms(SplitOn(content, ','));
        Detection(terms != [], terms)
    else NotMulti
  }

  // ---------------------------------------------------------------------------
  // Lemmas about CleanTerms

  /** Every kept term is non-empty and stripped. */
  lemma {:induction false} CleanTermsClean(pieces: seq<string>)
    ensures CleanList(CleanTerms(pieces))
  {
    if pieces != [] {
      var t := Strip(pieces[0]);
      StripSpec(pieces[0]);
      CleanTermsClean(pieces[1..]);
      var rest := CleanTerms(pieces[1..]);
      if t != [] {
        assert forall i | 1 <= i < |[t] + rest| :: ([t] + rest)[i] == rest[i - 1];
      }
    }
  }

  /** Every detected term is non-empty and carries no surrounding whitespace. */
  lemma DetectedTermsClean(v: Value)
    ensures CleanList(MultiSearchPattern(v).terms)
  {
    if v.Str? {
      var content := Strip(Interior(v.s));
      CleanTermsClean(SplitWs(content));
      CleanTermsClean(SplitOn(content, ','));
    }
  }

  /** Non-empty whitespace-free words are clean terms. */
  lemma WordsAreClean(ws: seq<string>)
    requires AllWords(ws)
    ensures CleanList(ws)
  {
    forall i | 0 <= i < |ws|
      ensures ws[i] != [] && Trimmed(ws[i])
    {
      assert !IsSpace(ws[i][0]) && !IsSpace(ws[i][|ws[i]| - 1]);
    }
  }

  /** A piece none of whose terms hold sep gives terms without sep. */
  lemma {:induction false} CleanTermsAvoid(pieces: seq<string>, sep: char)
    requires NoneHolds(pieces, sep)
    ensures NoneHolds(CleanTerms(pieces), sep)
  {
    if pieces != [] {
      StripAvoids(pieces[0], sep);
      CleanTermsAvoid(pieces[1..], sep);
    }
  }

  lemma CleanTermsPadFirst(p: string, lead: string, rest: seq<string>)
    requires AllSpace(lead)
    ensures CleanTerms([lead + p] + rest) == CleanTerms([p] + rest)
  {
    StripSpacePrefix(lead, p);
    assert ([lead + p] + rest)[1..] == rest;
    assert ([p] + rest)[1..] == rest;
  }

  /** Whitespace glued to the last piece does not change the terms. */
  lemma {:induction false} CleanTermsPadLast(pieces: seq<string>, trail: string)
    requires |pieces| > 0 && AllSpace(trail)
    ensures CleanTerms(pieces[..|pieces| - 1] + [pieces[|pieces| - 1] + trail]) == CleanTerms(pieces)
    decreases |pieces|
  {
    var n := |pieces|;
    var padded := pieces[..n - 1] + [pieces[n - 1] + trail];
    if n == 1 {
      StripSpaceSuffix(pieces[0], trail);
      assert padded == [pieces[0] + trail];
      assert padded[1..] == [] && pieces[1..] == [];
    } else {
      CleanTermsPadLast(pieces[1..], trail);
      assert padded[0] == pieces[0];
      assert padded[1..] == pieces[1..][..n - 2] + [pieces[1..][n - 2] + trail];
    }
  }

  // ---------------------------------------------------------------------------
  // The two forms

  /** Brace form: the terms are the whitespace-separated words of `value[1:-1]`,
      in order; the flag is set exactly when there is at least one. */
  lemma BraceForm(s: string)
    requires Wrapped(s, '{', '}')
    ensures var words := SplitWs(Interior(s));
      MultiSearchPattern(Str(s)) == Detection(words != [], words)
    ensures AllWords(MultiSearchPattern(Str(s)).terms)
  {
    var inner := Interior(s);
    var content := Strip(inner);
    SplitWsStrip(inner);
    StripSpec(inner);
    SplitWsConcat(inner);
    if content == [] {
      SplitWsAllSpace(inner);
    } else {
      WordsAreClean(SplitWs(content));
      CleanTermsOfTrimmed(SplitWs(content));
    }
  }

  lemma SpaceHasNoComma(s: string)
    requires AllSpace(s)
    ensures ',' !in s
  {
    assert forall i | 0 <= i < |s| :: s[i] != ',';
  }

  /** Whitespace around a comma-separated list does not change its terms. */
  lemma CleanTermsOfPadded(lead: string, content: string, trail: string)
    requires AllSpace(lead) && AllSpace(trail)
    ensures CleanTerms(SplitOn(lead + content + trail, ',')) == CleanTerms(SplitOn(content, ','))
  {
    var q := SplitOn(content, ',');
    var q1 := q[..|q| - 1] + [q[|q| - 1] + trail];
    SpaceHasNoComma(lead);
    SpaceHasNoComma(trail);
    // split(',') glues the trailing padding to the last piece, the leading padding to the first
    SplitOnSuffix(content, trail, ',');
    SplitOnPrefix(lead, content + trail, ',');
    Assoc(lead, content, trail);
    // and strip() removes both again
    CleanTermsPadFirst(q1[0], lead, q1[1..]);
    HeadTail(q1);
    CleanTermsPadLast(q, trail);
  }

  lemma BracketBranch(s: string)
    requires Wrapped(s, '[', ']')
    ensures var content := Strip(Interior(s));
      var terms := CleanTerms(SplitOn(content, ','));
      MultiSearchPattern(Str(s)) == if content == [] then NotMulti else Detection(terms != [], terms)
  {
  }

  /** Stripping the interior first does not change the bracket-form terms. */
  lemma CleanTermsStripped(inner: string)
    ensures CleanTerms(SplitOn(inner, ',')) == CleanTerms(SplitOn(Strip(inner), ','))
  {
    var lead, trail := StripDecompose(inner);
    CleanTermsOfPadded(lead, Strip(inner), trail);
  }

  /** Bracket form: the terms are the comma-separated pieces of `value[1:-1]`,
      stripped, with the empty ones dropped, in order. */
  lemma BracketForm(s: string)
    requires Wrapped(s, '[', ']')
    ensures var terms := CleanTerms(SplitOn(Interior(s), ','));
      MultiSearchPattern(Str(s)) == Detection(terms != [], terms)
  {
    BracketBranch(s);
    CleanTermsStripped(Interior(s));
    if Strip(Interior(s)) == [] {
      assert SplitOn([], ',') == [[]];
      assert CleanTerms([[]]) == [];
    }
  }

  /** A string not wrapped in a matching `{` `}` or `[` `]` pair is no pattern. */
  lemma Unwrapped(s: string)
    requires !Wrapped(s, '{', '}') && !Wrapped(s, '[', ']')
    ensures MultiSearchPattern(Str(s)) == NotMulti
  {
  }

  /** A wrapped string whose interior is only whitespace is no pattern. */
  lemma BlankInterior(s: string)
    requires Wrapped(s, '{', '}') || Wrapped(s, '[', ']')
    requires AllSpace(Interior(s))
    ensures MultiSearchPattern(Str(s)) == NotMulti
  {
    StripSpec(Interior(s));
  }

  /** No bracket-form term holds a comma. */
  lemma BracketTermsAvoidComma(s: string)
    requires Wrapped(s, '[', ']')
    ensures NoneHolds(MultiSearchPattern(Str(s)).terms, ',')
  {
    BracketForm(s);
    SplitOnAvoids(Interior(s), ',');
    CleanTermsAvoid(SplitOn(Interior(s), ','), ',');
  }

  /** Terms that are already stripped and non-empty pass through unchanged. */
  lemma {:induction false} CleanTermsOfTrimmed(pieces: seq<string>)
    requires CleanList(pieces)
    ensures CleanTerms(pieces) == pieces
  {
    if pieces != [] {
      CleanTermsOfTrimmed(pieces[1..]);
      assert [pieces[0]] + pieces[1..] == pieces;
    }
  }

  /** Writing terms as `{t1 t2 ...}` and detecting the pattern gives back the terms. */
  lemma BraceRoundTrip(terms: seq<string>)
    requires terms != []
    requires AllWords(terms)
    ensures MultiSearchPattern(Str(['{'] + Join(terms, ' ') + ['}'])) == Detection(true, terms)
  {
    var s := ['{'] + Join(terms, ' ') + ['}'];
    assert Interior(s) == Join(terms, ' ');
    BraceForm(s);
    SplitWsJoin(terms);
  }

  /** Writing terms as `[t1,t2,...]` and detecting the pattern gives back the terms. */
  lemma BracketRoundTrip(terms: seq<string>)
    requires terms != []
    requires CleanList(terms) && NoneHolds(terms, ',')
    ensures MultiSearchPattern(Str(['['] + Join(terms, ',') + [']'])) == Detection(true, terms)
  {
    var s := ['['] + Join(terms, ',') + [']'];
    assert Interior(s) == Join(terms, ',');
    BracketForm(s);
    SplitOnJoin(terms, ',');
    CleanTermsOfTrimmed(terms);
  }

  /** `{a b c}` gives the three one-character terms. */
  lemma BraceThreeTerms(a: char, b: char, c: char)
    requires !IsSpace(a) && !IsSpace(b) && !IsSpace(c)
    ensures MultiSearchPattern(Str(['{', a, ' ', b, ' ', c, '}'])) == Detection(true, [[a], [b], [c]])
  {
    var terms: seq<string> := [[a], [b], [c]];
    assert terms[1..] == [[b], [c]] && terms[1..][1..] == [[c]];
    assert Join(terms[1..][1..], ' ') == [c];
    assert Join(terms[1..], ' ') == [b] + [' '] + [c];
    assert Join(terms, ' ') == [a] + [' '] + ([b] + [' '] + [c]);
    assert ['{', a, ' ', b, ' ', c, '}'] == ['{'] + Join(terms, ' ') + ['}'];
    BraceRoundTrip([[a], [b], [c]]);
  }

  lemma BraceExampleABC()
    ensures MultiSearchPattern(Str("{a b c}")) == Detection(true, ["a", "b", "c"])
  {
    BraceThreeTerms('a', 'b', 'c');
  }

  /** `{a}`: a single term still counts as a multi-search pattern. */
  lemma BraceExampleSingle()
    ensures MultiSearchPattern(Str("{a}")) == Detection(true, ["a"])
  {
    assert Join(["a"], ' ') == "a";
    assert "{a}" == ['{'] + Join(["a"], ' ') + ['}'];
    BraceRoundTrip(["a"]);
  }

  /** `[a,,b]`: the empty piece between the two commas is dropped. */
  lemma BracketEmptyPiece(a: char, b: char)
    requires !IsSpace(a) && !IsSpace(b) && a != ',' && b != ','
    ensures MultiSearchPattern(Str(['[', a, ',', ',', b, ']'])) == Detection(true, [[a], [b]])
  {
    var s := ['[', a, ',', ',', b, ']'];
    var pieces: seq<string> := [[a], [], [b]];
    assert SplitOn(Interior(s), ',') == pieces by {
      assert pieces[1..] == [[], [b]] && pieces[1..][1..] == [[b]];
      assert Join(pieces[1..][1..], ',') == [b];
      assert Join(pieces[1..], ',') == [] + [','] + [b];
      assert Join(pieces, ',') == [a] + [','] + ([] + [','] + [b]);
      assert Interior(s) == Join(pieces, ',');
      SplitOnJoin(pieces, ',');
    }
    assert CleanTerms(pieces) == [[a], [b]] by {
      assert pieces[1..] == [[], [b]] && pieces[1..][1..] == [[b]];
      assert Strip([a]) == [a] && Strip([]) == [] && Strip([b]) == [b];
      assert CleanTerms(pieces[1..][1..]) == [[b]];
      assert CleanTerms(pieces[1..]) == [[b]];
    }
    BracketForm(s);
  }

  lemma BracketExampleEmptyPiece()
    ensures MultiSearchPattern(Str("[a,,b]")) == Detection(true, ["a", "b"])
  {
    BracketEmptyPiece('a', 'b');
  }

  lemma SplitThreePieces(a: char, b: char, c: char)
    requires a != ',' && b != ',' && c != ','
    ensures SplitOn([a, ',', ' ', b, ',', ' ', c], ',') == [[a], [' ', b], [' ', c]]
  {
    var pieces: seq<string> := [[a], [' ', b], [' ', c]];
    assert pieces[1..] == [[' ', b], [' ', c]] && pieces[1..][1..] == [[' ', c]];
    assert Join(pieces[1..][1..], ',') == [' ', c];
    assert Join(pieces[1..], ',') == [' ', b] + [','] + [' ', c];
    assert Join(pieces, ',') == [a] + [','] + ([' ', b] + [','] + [' ', c]);
    assert [a, ',', ' ', b, ',', ' ', c] == Join(pieces, ',');
    SplitOnJoin(pieces, ',');
  }

  lemma StripBlankThen(b: char)
    requires !IsSpace(b)
    ensures Strip([' ', b]) == [b]
  {
    StripSpacePrefix([' '], [b]);
    assert [' '] + [b] == [' ', b];
  }

  lemma CleanTermsCons(p: string, rest: seq<string>)
    ensures CleanTerms([p] + rest) == (if Strip(p) == [] then [] else [Strip(p)]) + CleanTerms(rest)
  {
    assert ([p] + rest)[1..] == rest;
  }

  lemma CleanThreePieces(a: char, b: char, c: char)
    requires !IsSpace(a) && !IsSpace(b) && !IsSpace(c)
    ensures CleanTerms([[a], [' ', b], [' ', c]]) == [[a], [b], [c]]
  {
    StripBlankThen(b);
    StripBlankThen(c);
    assert Strip([a]) == [a];
    CleanTermsCons([' ', c], []);
    assert [[' ', c]] + [] == [[' ', c]];
    CleanTermsCons([' ', b], [[' ', c]]);
    CleanTermsCons([a], [[' ', b], [' ', c]]);
  }

  /** `[a, b, c]`: the blank after each comma is stripped from the terms. */
  lemma BracketThreeTerms(a: char, b: char, c: char)
    requires !IsSpace(a) && !IsSpace(b) && !IsSpace(c) && a != ',' && b != ',' && c != ','
    ensures MultiSearchPattern(Str(['[', a, ',', ' ', b, ',', ' ', c, ']'])) == Detection(true, [[a], [b], [c]])
  {
    var s := ['[', a, ',', ' ', b, ',', ' ', c, ']'];
    assert Interior(s) == [a, ',', ' ', b, ',', ' ', c];
    SplitThreePieces(a, b, c);
    CleanThreePieces(a, b, c);
    BracketForm(s);
  }

  lemma BracketExampleThree()
    ensures MultiSearchPattern(Str("[a, b, c]")) == Detection(true, ["a", "b", "c"])
  {
    BracketThreeTerms('a', 'b', 'c');
  }

  /** `{}`, `{  }` and `[  ]`: an empty or blank interior is no pattern. */
  lemma BlankExamples()
    ensures MultiSearchPattern(Str("{}")) == NotMulti
    ensures MultiSearchPattern(Str("{  }")) == NotMulti
    ensures MultiSearchPattern(Str("[  ]")) == NotMulti
  {
    assert Interior("{}") == [];
    BlankInterior("{}");
    assert Interior("{  }") == "  ";
    BlankInterior("{  }");
    assert Interior("[  ]") == "  ";
    BlankInterior("[  ]");
  }

  /** `{unterminated` and `plain text`: no matching outer delimiters, no pattern. */
  lemma UnwrappedExamples()
    ensures MultiSearchPattern(Str("{unterminated")) == NotMulti
    ensures MultiSearchPattern(Str("plain text")) == NotMulti
  {
    Unwrapped("{unterminated");
    Unwrapped("plain text");
  }

  /** `{x y}` gives the two terms x and y. */
  lemma BraceTwoTerms(x: string, y: string)
    requires x != [] && NoSpace(x) && y != [] && NoSpace(y)
    ensures MultiSearchPattern(Str(['{'] + x + [' '] + y + ['}'])) == Detection(true, [x, y])
  {
    var terms := [x, y];
    assert terms[1..] == [y];
    assert Join(terms, ' ') == x + [' '] + y;
    assert ['{'] + x + [' '] + y + ['}'] == ['{'] + Join(terms, ' ') + ['}'];
    BraceRoundTrip(terms);
  }

  lemma SplitTwoPieces(x: string, y: string)
    requires ',' !in x && ',' !in y
    ensures SplitOn(x + [',', ' '] + y, ',') == [x, [' '] + y]
  {
    var pieces := [x, [' '] + y];
    assert pieces[1..] == [[' '] + y];
    assert Join(pieces, ',') == x + [','] + ([' '] + y);
    assert x + [',', ' '] + y == Join(pieces, ',');
    assert ' ' != ',';
    assert ',' !in [' '] + y;
    SplitOnJoin(pieces, ',');
  }

  lemma CleanTwoPieces(x: string, y: string)
    requires x != [] && Trimmed(x) && y != [] && Trimmed(y)
    ensures CleanTerms([x, [' '] + y]) == [x, y]
  {
    var y1 := [' '] + y;
    assert Strip(y1) == y by {
      StripSpacePrefix([' '], y);
    }
    assert Strip(x) == x;
    assert CleanTerms([y1]) == [y] by {
      CleanTermsCons(y1, []);
      assert [y1] + [] == [y1];
    }
    CleanTermsCons(x, [y1]);
    assert [x] + [y1] == [x, y1];
  }

  /** `[x, y]` gives the two terms x and y. */
  lemma BracketTwoTerms(x: string, y: string)
    requires x != [] && Trimmed(x) && ',' !in x
    requires y != [] && Trimmed(y) && ',' !in y
    ensures MultiSearchPattern(Str(['['] + x + [',', ' '] + y + [']'])) == Detection(true, [x, y])
  {
    var s := ['['] + x + [',', ' '] + y + [']'];
    assert Interior(s) == x + [',', ' '] + y;
    SplitTwoPieces(x, y);
    CleanTwoPieces(x, y);
    BracketForm(s);
  }
}
