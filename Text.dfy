/** Python's str.strip(), str.split() and str.split(sep) on strings (seq<char>),
    as the multi-search pattern detector uses them. */
module Text {

  /** Python 3's str.isspace() for one character: ASCII 9-13 and 28-32, and the
      Unicode whitespace characters U+0085, U+00A0, U+1680, U+2000-U+200A,
      U+2028, U+2029, U+202F, U+205F and U+3000. */
  predicate IsSpace(c: char)
  {
    ('\t' <= c <= '\r') || ('\U{1C}' <= c <= ' ') || c == '\U{85}' || c == '\U{A0}' ||
    c == '\U{1680}' || ('\U{2000}' <= c <= '\U{200A}') || c == '\U{2028}' || c == '\U{2029}' ||
    c == '\U{202F}' || c == '\U{205F}' || c == '\U{3000}'
  }

  predicate AllSpace(s: string)
  {
    forall i | 0 <= i < |s| :: IsSpace(s[i])
  }

  predicate NoSpace(s: string)
  {
    forall i | 0 <= i < |s| :: !IsSpace(s[i])
  }

  /** Every string of the list is a non-empty run of non-whitespace. */
  predicate AllWords(ws: seq<string>)
  {
    forall i | 0 <= i < |ws| :: ws[i] != [] && NoSpace(ws[i])
  }

  /** No string of the list holds c. */
  predicate NoneHolds(ss: seq<string>, c: char)
  {
    forall i | 0 <= i < |ss| :: c !in ss[i]
  }

  /** Neither starts nor ends with whitespace: what str.strip() returns. */
  predicate Trimmed(s: string)
  {
    s == [] || (!IsSpace(s[0]) && !IsSpace(s[|s| - 1]))
  }

  /** str.lstrip(): what is left after dropping the leading whitespace. */
  function TrimStart(s: string): (r: string)
    ensures |r| <= |s|
    ensures r == [] || !IsSpace(r[0])
    decreases |s|
  {
    if s != [] && IsSpace(s[0]) then TrimStart(s[1..]) else s
  }

  /** str.rstrip(): what is left after dropping the trailing whitespace. */
  function TrimEnd(s: string): (r: string)
    ensures |r| <= |s|
    ensures r == [] || !IsSpace(r[|r| - 1])
    decreases |s|
  {
    if s != [] && IsSpace(s[|s| - 1]) then TrimEnd(s[..|s| - 1]) else s
  }

  /** str.strip(). */
  function Strip(s: string): string
  {
    TrimEnd(TrimStart(s))
  }

  /** The longest prefix of s that holds no whitespace. */
  function Word(s: string): (w: string)
    ensures |w| <= |s|
    ensures s != [] && !IsSpace(s[0]) ==> w != []
  {
    if s == [] || IsSpace(s[0]) then [] else [s[0]] + Word(s[1..])
  }

  /** str.split() with no separator: the maximal runs of non-whitespace, in order. */
  function SplitWs(s: string): seq<string>
    decreases |s|
  {
    var t := TrimStart(s);
    if t == [] then []
    else
      var w := Word(t);
      [w] + SplitWs(t[|w|..])
  }

  /** str.split(sep): the pieces between occurrences of sep, empty ones included. */
  function SplitOn(s: string, sep: char): (r: seq<string>)
    ensures |r| > 0
  {
    if s == [] then [[]]
    else
      var rest := SplitOn(s[1..], sep);
      if s[0] == sep then [[]] + rest
      else [[s[0]] + rest[0]] + rest[1..]
  }

  /** No piece of split(sep) holds sep. */
  lemma {:induction false} SplitOnAvoids(s: string, sep: char)
    ensures NoneHolds(SplitOn(s, sep), sep)
    decreases |s|
  {
    if s != [] {
      SplitOnAvoids(s[1..], sep);
    }
  }

  /** sep.join(pieces). */
  function Join(pieces: seq<string>, sep: char): string
    requires |pieces| > 0
  {
    if |pieces| == 1 then pieces[0] else pieces[0] + [sep] + Join(pieces[1..], sep)
  }

  /** The concatenation of a list of strings. */
  function Concat(ss: seq<string>): string
  {
    if ss == [] then [] else ss[0] + Concat(ss[1..])
  }

  /** The characters of s that are not whitespace, in order. */
  function RemoveSpaces(s: string): string
  {
    if s == [] then []
    else (if IsSpace(s[0]) then [] else [s[0]]) + RemoveSpaces(s[1..])
  }

  // ---------------------------------------------------------------------------
  // Shapes of the helpers

  lemma HeadTail<T>(q: seq<T>)
    requires |q| > 0
    ensures [q[0]] + q[1..] == q
  {
  }

  lemma Assoc<T>(a: seq<T>, b: seq<T>, c: seq<T>)
    ensures a + b + c == a + (b + c)
  {
  }

  lemma AllSpaceCons(c: char, t: string)
    requires IsSpace(c) && AllSpace(t)
    ensures AllSpace([c] + t)
  {
    assert forall i | 1 <= i < |[c] + t| :: ([c] + t)[i] == t[i - 1];
  }

  /** lstrip() drops a prefix made of whitespace only. */
  lemma {:induction false} TrimStartShape(s: string)
    ensures var r := TrimStart(s);
      r == s[|s| - |r|..] && AllSpace(s[..|s| - |r|])
    decreases |s|
  {
    if s != [] && IsSpace(s[0]) {
      TrimStartShape(s[1..]);
      var r := TrimStart(s);
      var k := |s| - |r|;
      assert s[1..][|s| - 1 - |r|..] == s[k..];
      assert s[..k] == [s[0]] + s[1..][..k - 1];
      AllSpaceCons(s[0], s[1..][..k - 1]);
    } else {
      assert s[..0] == [];
    }
  }

  /** rstrip() drops a suffix made of whitespace only. */
  lemma {:induction false} TrimEndShape(s: string)
    ensures var r := TrimEnd(s);
      r == s[..|r|] && AllSpace(s[|r|..])
    decreases |s|
  {
    if s != [] && IsSpace(s[|s| - 1]) {
      var p := s[..|s| - 1];
      TrimEndShape(p);
      var r := TrimEnd(s);
      assert p[..|r|] == s[..|r|];
      assert s[|r|..] == p[|r|..] + [s[|s| - 1]];
      AllSpaceAppend(p[|r|..], [s[|s| - 1]]);
    } else {
      assert s[|s|..] == [];
    }
  }

  /** The word is a prefix without whitespace that stops at whitespace or at the end. */
  lemma {:induction false} WordShape(s: string)
    ensures var w := Word(s);
      w == s[..|w|] && NoSpace(w) && (|w| == |s| || IsSpace(s[|w|]))
    decreases |s|
  {
    if s != [] && !IsSpace(s[0]) {
      WordShape(s[1..]);
      var w := Word(s);
      var v := Word(s[1..]);
      assert w == [s[0]] + v;
      assert s[..|w|] == [s[0]] + s[1..][..|v|];
      assert forall i | 1 <= i < |w| :: w[i] == v[i - 1];
    }
  }

  /** strip(): the result neither starts nor ends with whitespace, is empty
      exactly when s is all whitespace, and is s itself when s is already
      stripped. */
  lemma StripSpec(s: string)
    ensures Trimmed(Strip(s))
    ensures Strip(s) == [] <==> AllSpace(s)
    ensures Trimmed(s) ==> Strip(s) == s
  {
    var t := TrimStart(s);
    var r := TrimEnd(t);
    TrimStartShape(s);
    TrimEndShape(t);
    assert r != [] ==> r[0] == t[0];
    if AllSpace(s) {
      AllSpaceTrimStart(s);
    }
    if r == [] {
      assert t[0..] == t;
      assert t == [];
      assert s[..|s|] == s;
    }
  }

  // ---------------------------------------------------------------------------
  // strip

  lemma {:induction false} TrimStartSpacePrefix(sp: string, s: string)
    requires AllSpace(sp)
    ensures TrimStart(sp + s) == TrimStart(s)
    decreases |sp|
  {
    if sp != [] {
      assert (sp + s)[0] == sp[0];
      assert (sp + s)[1..] == sp[1..] + s;
      TrimStartSpacePrefix(sp[1..], s);
    } else {
      assert sp + s == s;
    }
  }

  lemma {:induction false} TrimEndSpaceSuffix(s: string, sp: string)
    requires AllSpace(sp)
    ensures TrimEnd(s + sp) == TrimEnd(s)
    decreases |sp|
  {
    if sp != [] {
      assert (s + sp)[..|s + sp| - 1] == s + sp[..|sp| - 1];
      TrimEndSpaceSuffix(s, sp[..|sp| - 1]);
    } else {
      assert s + sp == s;
    }
  }

  lemma {:induction false} TrimStartAppend(s: string, x: string)
    requires TrimStart(s) != []
    ensures TrimStart(s + x) == TrimStart(s) + x
    decreases |s|
  {
    assert (s + x)[0] == s[0];
    if IsSpace(s[0]) {
      assert (s + x)[1..] == s[1..] + x;
      TrimStartAppend(s[1..], x);
    }
  }

  lemma AllSpaceAppend(a: string, b: string)
    requires AllSpace(a) && AllSpace(b)
    ensures AllSpace(a + b)
  {
  }

  /** Leading whitespace does not change what strip() returns. */
  lemma StripSpacePrefix(sp: string, s: string)
    requires AllSpace(sp)
    ensures Strip(sp + s) == Strip(s)
  {
    TrimStartSpacePrefix(sp, s);
  }

  /** Trailing whitespace does not change what strip() returns. */
  lemma StripSpaceSuffix(s: string, sp: string)
    requires AllSpace(sp)
    ensures Strip(s + sp) == Strip(s)
  {
    if TrimStart(s) != [] {
      TrimStartAppend(s, sp);
      TrimEndSpaceSuffix(TrimStart(s), sp);
    } else {
      TrimStartShape(s);
      assert s[..|s|] == s;
      AllSpaceAppend(s, sp);
      AllSpaceTrimStart(s + sp);
    }
  }

  /** strip() adds no character. */
  lemma StripAvoids(s: string, c: char)
    requires c !in s
    ensures c !in Strip(s)
  {
    var t := TrimStart(s);
    TrimStartShape(s);
    TrimEndShape(t);
    assert t == s[|s| - |t|..];
    assert Strip(s) == t[..|Strip(s)|];
  }

  /** s is its strip() with whitespace on both sides. */
  lemma StripDecompose(s: string) returns (lead: string, trail: string)
    ensures s == lead + Strip(s) + trail
    ensures AllSpace(lead) && AllSpace(trail)
  {
    var t := TrimStart(s);
    TrimStartShape(s);
    TrimEndShape(t);
    lead := s[..|s| - |t|];
    trail := t[|TrimEnd(t)|..];
    assert s == lead + t;
    assert t == TrimEnd(t) + trail;
  }

  // ---------------------------------------------------------------------------
  // split()

  lemma {:induction false} AllSpaceTrimStart(s: string)
    requires AllSpace(s)
    ensures TrimStart(s) == []
    decreases |s|
  {
    if s != [] {
      AllSpaceTrimStart(s[1..]);
    }
  }

  /** A whitespace-only string splits into no words. */
  lemma SplitWsAllSpace(s: string)
    requires AllSpace(s)
    ensures SplitWs(s) == []
  {
    AllSpaceTrimStart(s);
  }

  lemma {:induction false} WordAppend(a: string, x: string)
    requires a != [] && NoSpace(a)
    requires x == [] || IsSpace(x[0])
    ensures Word(a + x) == a
    decreases |a|
  {
    assert (a + x)[0] == a[0];
    if |a| > 1 {
      assert (a + x)[1..] == a[1..] + x;
      WordAppend(a[1..], x);
      assert [a[0]] + a[1..] == a;
    } else {
      assert (a + x)[1..] == x;
    }
  }

  lemma {:induction false} WordAppendLong(a: string, x: string)
    requires |Word(a)| < |a|
    ensures Word(a + x) == Word(a)
    decreases |a|
  {
    assert (a + x)[0] == a[0];
    if !IsSpace(a[0]) {
      assert (a + x)[1..] == a[1..] + x;
      WordAppendLong(a[1..], x);
    }
  }

  /** Trailing whitespace does not change the words of split(). */
  lemma {:induction false} SplitWsSpaceSuffix(s: string, sp: string)
    requires AllSpace(sp)
    ensures SplitWs(s + sp) == SplitWs(s)
    decreases |s|
  {
    var t := TrimStart(s);
    TrimStartShape(s);
    if t == [] {
      assert s == s[..|s| - |t|];
      AllSpaceAppend(s, sp);
      AllSpaceTrimStart(s + sp);
    } else {
      TrimStartAppend(s, sp);
      var w := Word(t);
      WordShape(t);
      if |w| < |t| {
        WordAppendLong(t, sp);
      } else {
        assert w == t;
        WordAppend(t, sp);
      }
      var rest := t[|w|..];
      assert (t + sp)[|w|..] == rest + sp;
      SplitWsSpaceSuffix(rest, sp);
      assert SplitWs(s) == [w] + SplitWs(rest);
      assert SplitWs(s + sp) == [w] + SplitWs(rest + sp);
    }
  }

  lemma TrimStartIdempotent(s: string)
    ensures TrimStart(TrimStart(s)) == TrimStart(s)
  {
  }

  lemma SplitWsTrimStart(s: string)
    ensures SplitWs(TrimStart(s)) == SplitWs(s)
  {
    var t := TrimStart(s);
    TrimStartIdempotent(s);
    if t != [] {
      var w := Word(t);
      assert SplitWs(t) == [w] + SplitWs(t[|w|..]);
      assert SplitWs(s) == [w] + SplitWs(t[|w|..]);
    }
  }

  /** split() of the stripped string gives the same words as split() of the string. */
  lemma SplitWsStrip(s: string)
    ensures SplitWs(Strip(s)) == SplitWs(s)
  {
    var t := TrimStart(s);
    var r := TrimEnd(t);
    var trail := t[|r|..];
    TrimEndShape(t);
    assert Strip(s) == r;
    assert t == r + trail && AllSpace(trail);
    calc {
      SplitWs(r);
      { SplitWsSpaceSuffix(r, trail); }
      SplitWs(r + trail);
      SplitWs(t);
      { SplitWsTrimStart(s); }
      SplitWs(s);
    }
  }

  /** Leading whitespace does not change the words of split(). */
  lemma SplitWsSpacePrefix(sp: string, s: string)
    requires AllSpace(sp)
    ensures SplitWs(sp + s) == SplitWs(s)
  {
    TrimStartSpacePrefix(sp, s);
    SplitWsTrimStart(sp + s);
    SplitWsTrimStart(s);
  }

  /** A single word splits into itself. */
  lemma SplitWsWord(w: string)
    requires w != [] && NoSpace(w)
    ensures SplitWs(w) == [w]
  {
    WordAppend(w, []);
    assert w + [] == w;
    assert TrimStart(w) == w;
    assert w[|w|..] == [];
  }

  /** A word followed by whitespace is the first word of split(). */
  lemma SplitWsWordThen(w: string, sp: string, rest: string)
    requires w != [] && NoSpace(w)
    requires sp != [] && AllSpace(sp)
    ensures SplitWs(w + sp + rest) == [w] + SplitWs(rest)
  {
    var s := w + sp + rest;
    assert s == w + (sp + rest);
    WordAppend(w, sp + rest);
    assert TrimStart(s) == s;
    assert s[|w|..] == sp + rest;
    SplitWsSpacePrefix(sp, rest);
  }

  /** Splitting words joined by single spaces gives back the words. */
  lemma {:induction false} SplitWsJoin(words: seq<string>)
    requires |words| > 0
    requires AllWords(words)
    ensures SplitWs(Join(words, ' ')) == words
    decreases |words|
  {
    if |words| == 1 {
      SplitWsWord(words[0]);
    } else {
      var tail := words[1..];
      SplitWsJoin(tail);
      SplitWsWordThen(words[0], [' '], Join(tail, ' '));
      assert words == [words[0]] + tail;
    }
  }

  lemma {:induction false} RemoveSpacesAppend(a: string, b: string)
    ensures RemoveSpaces(a + b) == RemoveSpaces(a) + RemoveSpaces(b)
    decreases |a|
  {
    if a != [] {
      assert (a + b)[0] == a[0];
      assert (a + b)[1..] == a[1..] + b;
      RemoveSpacesAppend(a[1..], b);
    } else {
      assert a + b == b;
    }
  }

  lemma RemoveSpacesAll(s: string)
    requires AllSpace(s)
    ensures RemoveSpaces(s) == []
  {
  }

  lemma AllWordsCons(w: string, ws: seq<string>)
    requires w != [] && NoSpace(w) && AllWords(ws)
    ensures AllWords([w] + ws)
  {
    assert forall i | 1 <= i < |[w] + ws| :: ([w] + ws)[i] == ws[i - 1];
  }

  lemma RemoveSpacesNone(s: string)
    requires NoSpace(s)
    ensures RemoveSpaces(s) == s
  {
  }

  /** The words of split() are non-empty, hold no whitespace, and put back
      together they are exactly the non-whitespace characters of s. */
  lemma {:induction false} SplitWsConcat(s: string)
    ensures Concat(SplitWs(s)) == RemoveSpaces(s)
    ensures AllWords(SplitWs(s))
    decreases |s|
  {
    var t := TrimStart(s);
    TrimStartShape(s);
    var lead := s[..|s| - |t|];
    assert s == lead + t;
    RemoveSpacesAppend(lead, t);
    RemoveSpacesAll(lead);
    if t != [] {
      var w := Word(t);
      WordShape(t);
      var rest := t[|w|..];
      assert t == w + rest;
      RemoveSpacesAppend(w, rest);
      RemoveSpacesNone(w);
      SplitWsConcat(rest);
      assert SplitWs(s) == [w] + SplitWs(rest);
      assert ([w] + SplitWs(rest))[1..] == SplitWs(rest);
      AllWordsCons(w, SplitWs(rest));
    }
  }

  // ---------------------------------------------------------------------------
  // split(sep) and join

  /** Joining the pieces of split(sep) with sep gives back the string. */
  lemma {:induction false} JoinSplitOn(s: string, sep: char)
    ensures Join(SplitOn(s, sep), sep) == s
    decreases |s|
  {
    if s != [] {
      var rest := SplitOn(s[1..], sep);
      JoinSplitOn(s[1..], sep);
      if s[0] == sep {
        assert ([[]] + rest)[1..] == rest;
      } else {
        var r := [[s[0]] + rest[0]] + rest[1..];
        if |rest| == 1 {
          assert Join(r, sep) == [s[0]] + rest[0];
        } else {
          assert r[1..] == rest[1..];
          assert Join(rest, sep) == rest[0] + [sep] + Join(rest[1..], sep);
        }
        assert [s[0]] + s[1..] == s;
      }
    }
  }

  /** A prefix without sep is glued to the first piece of split(sep). */
  lemma {:induction false} SplitOnPrefix(p: string, x: string, sep: char)
    requires sep !in p
    ensures SplitOn(p + x, sep) == [p + SplitOn(x, sep)[0]] + SplitOn(x, sep)[1..]
    decreases |p|
  {
    if p == [] {
      assert p + x == x;
      assert p + SplitOn(x, sep)[0] == SplitOn(x, sep)[0];
      assert [SplitOn(x, sep)[0]] + SplitOn(x, sep)[1..] == SplitOn(x, sep);
    } else {
      assert (p + x)[1..] == p[1..] + x;
      assert p[0] in p;
      SplitOnPrefix(p[1..], x, sep);
      var rest := SplitOn(p[1..] + x, sep);
      assert rest[0] == p[1..] + SplitOn(x, sep)[0];
      assert [p[0]] + rest[0] == p + SplitOn(x, sep)[0];
    }
  }

  lemma GlueLastCons(a: string, r: seq<string>, p: string)
    requires |r| > 0
    ensures var q := [a] + r;
      q[..|q| - 1] + [q[|q| - 1] + p] == [a] + (r[..|r| - 1] + [r[|r| - 1] + p])
  {
  }

  lemma GlueLastFirst(c: char, r: seq<string>, p: string)
    requires |r| > 0
    ensures var q := [[c] + r[0]] + r[1..];
      var g := r[..|r| - 1] + [r[|r| - 1] + p];
      q[..|q| - 1] + [q[|q| - 1] + p] == [[c] + g[0]] + g[1..]
  {
    var q := [[c] + r[0]] + r[1..];
    var g := r[..|r| - 1] + [r[|r| - 1] + p];
    if |r| == 1 {
      assert q == [[c] + r[0]];
      assert g == [r[0] + p];
      assert [c] + r[0] + p == [c] + (r[0] + p);
    } else {
      assert g[0] == r[0];
      assert g[1..] == r[1..][..|r| - 2] + [r[|r| - 1] + p];
    }
  }

  lemma SplitOnUnfold(c: char, x: string, sep: char)
    ensures var rest := SplitOn(x, sep);
      SplitOn([c] + x, sep) == if c == sep then [[]] + rest else [[c] + rest[0]] + rest[1..]
  {
    assert ([c] + x)[1..] == x;
  }

  lemma FirstRest<T>(x: seq<T>, p: seq<T>)
    requires x != []
    ensures x + p == [x[0]] + (x[1..] + p)
  {
  }

  lemma AppendEmpty<T>(p: seq<T>)
    ensures [] + p == p && p + [] == p
  {
  }

  /** A suffix without sep is glued to the last piece of split(sep). */
  lemma {:induction false} SplitOnSuffix(x: string, p: string, sep: char)
    requires sep !in p
    ensures var q := SplitOn(x, sep);
      SplitOn(x + p, sep) == q[..|q| - 1] + [q[|q| - 1] + p]
    decreases |x|
  {
    if x == [] {
      AppendEmpty(p);
      SplitOnPrefix(p, [], sep);
    } else {
      var rest := SplitOn(x[1..], sep);
      SplitOnSuffix(x[1..], p, sep);
      FirstRest(x, p);
      HeadTail(x);
      SplitOnUnfold(x[0], x[1..] + p, sep);
      SplitOnUnfold(x[0], x[1..], sep);
      if x[0] == sep {
        GlueLastCons([], rest, p);
      } else {
        GlueLastFirst(x[0], rest, p);
      }
    }
  }

  /** Splitting a joined list whose pieces hold no sep gives back the list. */
  lemma {:induction false} SplitOnJoin(pieces: seq<string>, sep: char)
    requires |pieces| > 0
    requires NoneHolds(pieces, sep)
    ensures SplitOn(Join(pieces, sep), sep) == pieces
    decreases |pieces|
  {
    assert sep !in pieces[0];
    AppendEmpty(pieces[0]);
    if |pieces| == 1 {
      SplitOnPrefix(pieces[0], [], sep);
    } else {
      var tail := Join(pieces[1..], sep);
      assert NoneHolds(pieces[1..], sep) by {
        assert forall i | 0 <= i < |pieces[1..]| :: pieces[1..][i] == pieces[i + 1];
      }
      SplitOnJoin(pieces[1..], sep);
      Assoc(pieces[0], [sep], tail);
      SplitOnPrefix(pieces[0], [sep] + tail, sep);
      SplitOnUnfold(sep, tail, sep);
      HeadTail(pieces);
    }
  }
}
