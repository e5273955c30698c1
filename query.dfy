/**
 * `normalizeQuery` (cmd/main.go): the GraphQL query text written to the error log,
 * with every run of whitespace replaced by a single space. The regular expression is
 * RE2's `\s+`, and RE2's `\s` is exactly tab, newline, form feed, carriage return and space.
 */
module Query {
  import opened Wrappers

  predicate IsSpace(c: char)
  {
    c == '\t' || c == '\n' || c == '\U{000C}' || c == '\r' || c == ' '
  }

  /** `s` consists of whitespace only. */
  predicate AllSpaces(s: string)
  {
    forall k :: 0 <= k < |s| ==> IsSpace(s[k])
  }

  /** The rest of `s` after its leading run of whitespace. */
  function DropSpaces(s: string): (r: string)
    ensures |r| <= |s| && r == s[|s| - |r|..]
    ensures r == [] || !IsSpace(r[0])
    ensures forall k :: 0 <= k < |s| - |r| ==> IsSpace(s[k])
  {
    if s != [] && IsSpace(s[0]) then DropSpaces(s[1..]) else s
  }

  /** `regexp.MustCompile(`\s+`).ReplaceAllString(query, " ")`: each maximal run of whitespace becomes one space. */
  function NormalizeQuery(s: string): (r: string)
    ensures |r| <= |s|
    ensures r == [] <==> s == []
    ensures r != [] ==> (r[0] == ' ' <==> IsSpace(s[0]))
    decreases |s|
  {
    if s == [] then []
    else if IsSpace(s[0]) then " " + NormalizeQuery(DropSpaces(s))
    else [s[0]] + NormalizeQuery(s[1..])
  }

  /** The characters of `s` that are not whitespace, in order. */
  function NonSpaces(s: string): string
  {
    if s == [] then [] else (if IsSpace(s[0]) then [] else [s[0]]) + NonSpaces(s[1..])
  }

  /** A normalised text: only plain spaces, never two in a row. */
  predicate Normalized(s: string)
  {
    (forall k :: 0 <= k < |s| ==> IsSpace(s[k]) ==> s[k] == ' ') &&
    (forall k :: 0 <= k < |s| - 1 ==> !(s[k] == ' ' && s[k + 1] == ' '))
  }

  /** The output contains no tab, newline, form feed or carriage return, and never two adjacent spaces. */
  lemma {:induction false} NormalizeQueryNormalized(s: string)
    ensures Normalized(NormalizeQuery(s))
    decreases |s|
  {
    if s != [] {
      var r := NormalizeQuery(s);
      if IsSpace(s[0]) {
        var t := DropSpaces(s);
        NormalizeQueryNormalized(t);
        assert r == " " + NormalizeQuery(t);
        assert r[1..] == NormalizeQuery(t);
      } else {
        NormalizeQueryNormalized(s[1..]);
        assert r[1..] == NormalizeQuery(s[1..]);
      }
    }
  }

  /** Whitespace runs are the only thing removed: the non-whitespace characters survive in their order. */
  lemma {:induction false} NormalizeQueryKeepsText(s: string)
    ensures NonSpaces(NormalizeQuery(s)) == NonSpaces(s)
    decreases |s|
  {
    if s != [] {
      if IsSpace(s[0]) {
        var t := DropSpaces(s);
        NormalizeQueryKeepsText(t);
        DropSpacesNonSpaces(s);
        assert (" " + NormalizeQuery(t))[1..] == NormalizeQuery(t);
      } else {
        NormalizeQueryKeepsText(s[1..]);
        assert ([s[0]] + NormalizeQuery(s[1..]))[1..] == NormalizeQuery(s[1..]);
      }
    }
  }

  lemma {:induction false} DropSpacesNonSpaces(s: string)
    ensures NonSpaces(DropSpaces(s)) == NonSpaces(s)
  {
    if s != [] && IsSpace(s[0]) {
      DropSpacesNonSpaces(s[1..]);
    }
  }

  /** A normalised text is left as it is. */
  lemma {:induction false} NormalizedFixedPoint(s: string)
    requires Normalized(s)
    ensures NormalizeQuery(s) == s
    decreases |s|
  {
    if s != [] {
      assert Normalized(s[1..]);
      if IsSpace(s[0]) {
        assert s[0] == ' ';
        assert |s| > 1 ==> s[1] != ' ' && !IsSpace(s[1]);
        assert DropSpaces(s) == s[1..] by {
          if |s| > 1 { assert !IsSpace(s[1..][0]); } else { assert s[1..] == []; }
        }
      }
      NormalizedFixedPoint(s[1..]);
    }
  }

  /** `normalizeQuery` is idempotent. */
  lemma NormalizeQueryIdempotent(s: string)
    ensures NormalizeQuery(NormalizeQuery(s)) == NormalizeQuery(s)
  {
    NormalizeQueryNormalized(s);
    NormalizedFixedPoint(NormalizeQuery(s));
  }

  /** A text without whitespace is returned unchanged. */
  lemma NoWhitespaceUnchanged(s: string)
    requires forall k :: 0 <= k < |s| ==> !IsSpace(s[k])
    ensures NormalizeQuery(s) == s
  {
    NormalizedFixedPoint(s);
  }

  /** A text of whitespace only becomes one space. */
  lemma {:induction false} OnlyWhitespace(s: string)
    requires s != [] && forall k :: 0 <= k < |s| ==> IsSpace(s[k])
    ensures NormalizeQuery(s) == " "
  {
    assert DropSpaces(s) == [];
  }

  /** A leading whitespace run that ends inside `a` stops there: appending `c` does not change where it ends. */
  lemma {:induction false} DropSpacesAppend(a: string, c: string)
    requires a != [] && !IsSpace(a[|a| - 1])
    ensures DropSpaces(a + c) == DropSpaces(a) + c
    decreases |a|
  {
    if IsSpace(a[0]) {
      assert |a| > 1;
      assert (a + c)[1..] == a[1..] + c;
      DropSpacesAppend(a[1..], c);
    }
  }

  /** Dropping a whitespace run `w` in front of a text that starts with a non-space leaves exactly that text. */
  lemma {:induction false} DropSpacesRun(w: string, b: string)
    requires AllSpaces(w)
    requires b == [] || !IsSpace(b[0])
    ensures DropSpaces(w + b) == b
    decreases |w|
  {
    if w == [] {
      assert w + b == b;
    } else {
      assert (w + b)[1..] == w[1..] + b;
      DropSpacesRun(w[1..], b);
    }
  }

  /** Normalisation splits at any point that follows a non-space character. */
  lemma {:induction false} NormalizeQueryAppend(a: string, c: string)
    requires a == [] || !IsSpace(a[|a| - 1])
    ensures NormalizeQuery(a + c) == NormalizeQuery(a) + NormalizeQuery(c)
    decreases |a|
  {
    if a == [] {
      assert a + c == c;
    } else if IsSpace(a[0]) {
      var d := DropSpaces(a);
      DropSpacesAppend(a, c);
      assert d != [] && |d| < |a| && d[|d| - 1] == a[|a| - 1];
      NormalizeQueryAppend(d, c);
      AppendSpaceCase(a, d, c);
    } else {
      var a1 := a[1..];
      assert a1 == [] || a1[|a1| - 1] == a[|a| - 1];
      NormalizeQueryAppend(a1, c);
      AppendCharCase(a[0], a1, c);
      assert [a[0]] + a1 == a;
    }
  }

  /** The step of `NormalizeQueryAppend` at a leading whitespace run that ends inside `a`. */
  lemma AppendSpaceCase(a: string, d: string, c: string)
    requires a != [] && IsSpace(a[0]) && d == DropSpaces(a)
    requires DropSpaces(a + c) == d + c
    requires NormalizeQuery(d + c) == NormalizeQuery(d) + NormalizeQuery(c)
    ensures NormalizeQuery(a + c) == NormalizeQuery(a) + NormalizeQuery(c)
  {
    assert (a + c)[0] == a[0];
    SpaceStep(a + c, d + c);
    SpaceStep(a, d);
    AppendAssoc(" ", NormalizeQuery(d), NormalizeQuery(c));
  }

  /** The step of `NormalizeQueryAppend` at a leading non-space character `x`. */
  lemma AppendCharCase(x: char, a1: string, c: string)
    requires !IsSpace(x)
    requires NormalizeQuery(a1 + c) == NormalizeQuery(a1) + NormalizeQuery(c)
    ensures NormalizeQuery([x] + a1 + c) == NormalizeQuery([x] + a1) + NormalizeQuery(c)
  {
    AppendAssoc([x], a1, c);
    ConsStep(x, a1 + c);
    ConsStep(x, a1);
    AppendAssoc([x], NormalizeQuery(a1), NormalizeQuery(c));
  }

  /** One unfolding of `NormalizeQuery` at a non-space character put in front. */
  lemma ConsStep(x: char, rest: string)
    requires !IsSpace(x)
    ensures NormalizeQuery([x] + rest) == [x] + NormalizeQuery(rest)
  {
    assert ([x] + rest)[1..] == rest;
  }

  /** One unfolding of `NormalizeQuery` at a whitespace run. */
  lemma SpaceStep(s: string, d: string)
    requires s != [] && IsSpace(s[0]) && d == DropSpaces(s)
    ensures NormalizeQuery(s) == " " + NormalizeQuery(d)
  {
  }

  /**
   * The replacement itself: a maximal whitespace run `w` between non-space characters
   * (or the ends of the text) becomes exactly one space, and the text on either side
   * is normalised on its own.
   */
  lemma NormalizeQueryRun(a: string, w: string, b: string)
    requires w != [] && AllSpaces(w)
    requires a == [] || !IsSpace(a[|a| - 1])
    requires b == [] || !IsSpace(b[0])
    ensures NormalizeQuery(a + w + b) == NormalizeQuery(a) + " " + NormalizeQuery(b)
  {
    RunThenText(w, b);
    NormalizeQueryAppend(a, w + b);
    AppendAssoc(a, w, b);
    AppendAssoc(NormalizeQuery(a), " ", NormalizeQuery(b));
  }

  /** A whitespace run followed by a non-space (or nothing) normalises to one space and then the text. */
  lemma RunThenText(w: string, b: string)
    requires w != [] && AllSpaces(w)
    requires b == [] || !IsSpace(b[0])
    ensures NormalizeQuery(w + b) == " " + NormalizeQuery(b)
  {
    DropSpacesRun(w, b);
    assert (w + b)[0] == w[0];
    SpaceStep(w + b, b);
  }
}
