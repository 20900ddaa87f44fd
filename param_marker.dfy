/**
  ReplaceQueryParamMarker: rewrites the generic bind marker `?` of a prepared
  query into a dialect's marker, either numbered (`$1`, `$2`, ...) or repeated
  (the same marker at every position).
 */
module ParamMarker {
  import opened Numerals

  /** The generic marker, and the configuration value that means "already native". */
  const GenericMarker: string := "?"

  /** How many markers a query holds: the matches of the pattern `\?`. */
  function MarkerCount(s: string): (r: nat)
    ensures r == 0 <==> '?' !in s
    ensures r <= |s|
  {
    multiset(s)['?']
  }

  /** What the k-th marker (1-based) becomes. */
  function Marker(inSeq: bool, placeholder: string, k: nat): (r: string)
    ensures !inSeq ==> r == placeholder
    ensures inSeq ==> |r| > |placeholder| && r[..|placeholder|] == placeholder && AllDigits(r[|placeholder|..]) && ParseDecimal(r[|placeholder|..]) == k
  {
    if inSeq then
      var d := Decimal(k);
      ParseDecimalInvertsDecimal(k);
      assert (placeholder + d)[|placeholder|..] == d;
      placeholder + d
    else placeholder
  }

  /**
    The intended rewrite: reading left to right, the `?` met k-th becomes
    Marker(inSeq, placeholder, first + k - 1); every other character is kept.
   */
  function Numbered(s: string, inSeq: bool, placeholder: string, first: nat): string
    decreases |s|
  {
    if s == [] then []
    else if s[0] == '?' then Marker(inSeq, placeholder, first) + Numbered(s[1..], inSeq, placeholder, first + 1)
    else [s[0]] + Numbered(s[1..], inSeq, placeholder, first)
  }

  /** strings.Replace(s, "?", marker, 1): the first `?` of s becomes `marker`; without a `?`, s is returned as is. */
  function ReplaceFirst(s: string, marker: string): (r: string)
    ensures '?' !in s ==> r == s
  {
    if s == [] then []
    else if s[0] == '?' then marker + s[1..]
    else [s[0]] + ReplaceFirst(s[1..], marker)
  }

  /**
    Iterations i+1 .. n of the loop as written, each replacing the first `?`
    still left; once no `?` is left, the remaining iterations change nothing.
   */
  function ReplaceLoop(s: string, inSeq: bool, placeholder: string, i: nat, n: nat): (r: string)
    ensures '?' !in s ==> r == s
    decreases n - i
  {
    if i >= n then s
    else ReplaceLoop(ReplaceFirst(s, Marker(inSeq, placeholder, i + 1)), inSeq, placeholder, i + 1, n)
  }

  /**
    The source's function.  A placeholder equal to `?` leaves the query as it
    is.  Otherwise the loop runs once per `?` of the original query; when the
    placeholder holds no `?` of its own, the result is the intended rewrite.
   */
  method ReplaceQueryParamMarker(preparedQuery: string, paramInSeq: bool, paramPlaceHolder: string)
    returns (r: string)
    ensures paramPlaceHolder == GenericMarker ==> r == preparedQuery
    ensures paramPlaceHolder != GenericMarker ==>
      r == ReplaceLoop(preparedQuery, paramInSeq, paramPlaceHolder, 0, MarkerCount(preparedQuery))
    ensures '?' !in paramPlaceHolder ==> r == Numbered(preparedQuery, paramInSeq, paramPlaceHolder, 1)
  {
    r := preparedQuery;
    if paramPlaceHolder == GenericMarker {
      return;
    }
    var matches := MarkerCount(preparedQuery);
    for i := 0 to matches
      invariant ReplaceLoop(r, paramInSeq, paramPlaceHolder, i, matches)
             == ReplaceLoop(preparedQuery, paramInSeq, paramPlaceHolder, 0, matches)
    {
      r := ReplaceFirst(r, Marker(paramInSeq, paramPlaceHolder, i + 1));
    }
    if '?' !in paramPlaceHolder {
      LoopRewritesInOrder(preparedQuery, paramInSeq, paramPlaceHolder);
    }
  }

  // ---------------------------------------------------------------------
  // Lemmas

  lemma MarkerHasNoQuestionMark(inSeq: bool, placeholder: string, k: nat)
    requires '?' !in placeholder
    ensures '?' !in Marker(inSeq, placeholder, k)
  {
    var d := Decimal(k);
    assert forall j :: 0 <= j < |d| ==> IsDigit(d[j]);
  }

  /** Rewriting a concatenation: the markers of b are numbered after those of a. */
  lemma {:induction false} NumberedAppend(a: string, b: string, inSeq: bool, placeholder: string, first: nat)
    ensures Numbered(a + b, inSeq, placeholder, first)
         == Numbered(a, inSeq, placeholder, first) + Numbered(b, inSeq, placeholder, first + MarkerCount(a))
    decreases |a|
  {
    if a == [] {
      assert a + b == b;
    } else {
      assert (a + b)[0] == a[0];
      assert (a + b)[1..] == a[1..] + b;
      assert a == [a[0]] + a[1..];
      var next := if a[0] == '?' then first + 1 else first;
      NumberedAppend(a[1..], b, inSeq, placeholder, next);
    }
  }

  /** Text without markers is copied unchanged. */
  lemma {:induction false} NumberedWithoutMarkers(s: string, inSeq: bool, placeholder: string, first: nat)
    requires '?' !in s
    ensures Numbered(s, inSeq, placeholder, first) == s
    decreases |s|
  {
    if s != [] {
      NumberedWithoutMarkers(s[1..], inSeq, placeholder, first);
    }
  }

  /**
    The k-th `?` from the left becomes the k-th marker (`placeholder` followed
    by the decimal k in sequence mode), what precedes it is rewritten on its
    own and what follows continues with index k + 1.
   */
  lemma KthMarker(a: string, b: string, inSeq: bool, placeholder: string, k: nat)
    requires MarkerCount(a) == k - 1
    ensures Numbered(a + "?" + b, inSeq, placeholder, 1)
         == Numbered(a, inSeq, placeholder, 1) + Marker(inSeq, placeholder, k) + Numbered(b, inSeq, placeholder, k + 1)
  {
    NumberedAppend(a, "?" + b, inSeq, placeholder, 1);
    assert a + "?" + b == a + ("?" + b);
    assert ("?" + b)[1..] == b;
  }

  lemma {:induction false} ReplaceFirstAfterPlainText(a: string, b: string, marker: string)
    requires '?' !in a
    ensures ReplaceFirst(a + b, marker) == a + ReplaceFirst(b, marker)
    decreases |a|
  {
    if a == [] {
      assert a + b == b;
    } else {
      assert (a + b)[0] == a[0];
      assert (a + b)[1..] == a[1..] + b;
      ReplaceFirstAfterPlainText(a[1..], b, marker);
    }
  }

  /** One replacement: the first `?` becomes the marker, and the text around it is kept. */
  lemma ReplaceFirstAt(pre: string, post: string, marker: string)
    requires '?' !in pre
    ensures ReplaceFirst(pre + "?" + post, marker) == pre + marker + post
  {
    ReplaceFirstAfterPlainText(pre, "?" + post, marker);
    assert pre + "?" + post == pre + ("?" + post);
    assert ("?" + post)[1..] == post;
  }

  /** Every marker of the result came from a `?`: none is left over. */
  lemma {:induction false} NumberedLeavesNoMarker(s: string, inSeq: bool, placeholder: string, first: nat)
    requires '?' !in placeholder
    ensures '?' !in Numbered(s, inSeq, placeholder, first)
    decreases |s|
  {
    if s != [] {
      var next := if s[0] == '?' then first + 1 else first;
      NumberedLeavesNoMarker(s[1..], inSeq, placeholder, next);
      MarkerHasNoQuestionMark(inSeq, placeholder, first);
    }
  }

  /** Position of the first `?` in s. */
  function FirstMarker(s: string): (j: nat)
    requires '?' in s
    ensures j < |s| && s[j] == '?' && '?' !in s[..j]
  {
    if s[0] == '?' then 0 else 1 + FirstMarker(s[1..])
  }

  /**
    One iteration, when the first i markers lie in the rewritten part x and the
    next one ends pre + "?": it is the (i+1)-th marker that gets replaced.
   */
  lemma LoopStep(x: string, pre: string, post: string, inSeq: bool, placeholder: string)
    requires '?' !in placeholder && '?' !in pre
    ensures ReplaceFirst(Numbered(x, inSeq, placeholder, 1) + (pre + "?" + post),
                         Marker(inSeq, placeholder, MarkerCount(x) + 1))
         == Numbered(x + pre + "?", inSeq, placeholder, 1) + post
  {
    var i := MarkerCount(x);
    var done := Numbered(x, inSeq, placeholder, 1);
    var m := Marker(inSeq, placeholder, i + 1);
    NumberedLeavesNoMarker(x, inSeq, placeholder, 1);
    calc {
      ReplaceFirst(done + (pre + "?" + post), m);
      { assert done + (pre + "?" + post) == (done + pre) + ("?" + post); }
      ReplaceFirst((done + pre) + ("?" + post), m);
      { ReplaceFirstAfterPlainText(done + pre, "?" + post, m); }
      (done + pre) + ReplaceFirst("?" + post, m);
      { assert ("?" + post)[1..] == post; }
      (done + pre) + (m + post);
      (done + pre + m) + post;
      { RewrittenThroughMarker(x, pre, inSeq, placeholder); }
      Numbered(x + pre + "?", inSeq, placeholder, 1) + post;
    }
  }

  lemma RewrittenThroughMarker(x: string, pre: string, inSeq: bool, placeholder: string)
    requires '?' !in pre
    ensures Numbered(x + pre + "?", inSeq, placeholder, 1)
         == Numbered(x, inSeq, placeholder, 1) + pre + Marker(inSeq, placeholder, MarkerCount(x) + 1)
  {
    var i := MarkerCount(x);
    MarkerCountAfterPlainText(x, pre);
    NumberedAppend(x + pre, "?", inSeq, placeholder, 1);
    NumberedAfterPlainText(x, pre, inSeq, placeholder);
    SingleMarker(inSeq, placeholder, 1 + i);
  }

  lemma MarkerCountAfterPlainText(x: string, pre: string)
    requires '?' !in pre
    ensures MarkerCount(x + pre) == MarkerCount(x)
  {
    assert multiset(x + pre) == multiset(x) + multiset(pre);
    assert '?' !in multiset(pre);
  }

  lemma NumberedAfterPlainText(x: string, pre: string, inSeq: bool, placeholder: string)
    requires '?' !in pre
    ensures Numbered(x + pre, inSeq, placeholder, 1) == Numbered(x, inSeq, placeholder, 1) + pre
  {
    NumberedAppend(x, pre, inSeq, placeholder, 1);
    NumberedWithoutMarkers(pre, inSeq, placeholder, 1 + MarkerCount(x));
  }

  lemma SingleMarker(inSeq: bool, placeholder: string, k: nat)
    ensures Numbered("?", inSeq, placeholder, k) == Marker(inSeq, placeholder, k)
  {
    assert "?"[1..] == [];
  }

  /**
    The loop's state after i iterations: the part x of the query that holds
    the first i markers is rewritten, the rest y is untouched.  The remaining
    iterations finish the rewrite.
   */
  lemma {:induction false} LoopFinishesRewrite(x: string, y: string, inSeq: bool, placeholder: string, n: nat)
    requires '?' !in placeholder
    requires MarkerCount(x) + MarkerCount(y) == n
    ensures ReplaceLoop(Numbered(x, inSeq, placeholder, 1) + y, inSeq, placeholder, MarkerCount(x), n)
         == Numbered(x + y, inSeq, placeholder, 1)
    decreases |y|
  {
    if '?' !in y {
      LoopDone(x, y, inSeq, placeholder, n);
    } else {
      var j := FirstMarker(y);
      var pre, post := y[..j], y[j + 1..];
      assert y == pre + "?" + post;
      MarkerCountThroughMarker(x, pre, post);
      LoopFinishesRewrite(x + pre + "?", post, inSeq, placeholder, n);
      LoopAdvance(x, pre, post, inSeq, placeholder, n);
    }
  }

  /** No marker left in the untouched part: the loop has run its course. */
  lemma LoopDone(x: string, y: string, inSeq: bool, placeholder: string, n: nat)
    requires '?' !in y && MarkerCount(x) + MarkerCount(y) == n
    ensures ReplaceLoop(Numbered(x, inSeq, placeholder, 1) + y, inSeq, placeholder, MarkerCount(x), n)
         == Numbered(x + y, inSeq, placeholder, 1)
  {
    MarkerCountAfterPlainText([], y);
    assert [] + y == y;
    NumberedAfterPlainText(x, y, inSeq, placeholder);
  }

  /** One iteration moves the boundary of the rewritten part past the next marker. */
  lemma LoopAdvance(x: string, pre: string, post: string, inSeq: bool, placeholder: string, n: nat)
    requires '?' !in placeholder && '?' !in pre
    requires MarkerCount(x) < n
    requires ReplaceLoop(Numbered(x + pre + "?", inSeq, placeholder, 1) + post, inSeq, placeholder, MarkerCount(x) + 1, n)
          == Numbered(x + pre + "?" + post, inSeq, placeholder, 1)
    ensures ReplaceLoop(Numbered(x, inSeq, placeholder, 1) + (pre + "?" + post), inSeq, placeholder, MarkerCount(x), n)
         == Numbered(x + (pre + "?" + post), inSeq, placeholder, 1)
  {
    LoopStep(x, pre, post, inSeq, placeholder);
    assert x + pre + "?" + post == x + (pre + "?" + post);
  }

  lemma MarkerCountThroughMarker(x: string, pre: string, post: string)
    requires '?' !in pre
    ensures MarkerCount(x + pre + "?") == MarkerCount(x) + 1
    ensures MarkerCount(pre + "?" + post) == MarkerCount(post) + 1
  {
    assert multiset(x + pre + "?") == multiset(x) + multiset(pre) + multiset{'?'};
    assert multiset(pre + "?" + post) == multiset(pre) + multiset{'?'} + multiset(post);
    assert '?' !in multiset(pre);
  }

  /** The loop as written, run from the start, is the intended rewrite. */
  lemma LoopRewritesInOrder(q: string, inSeq: bool, placeholder: string)
    requires '?' !in placeholder
    ensures ReplaceLoop(q, inSeq, placeholder, 0, MarkerCount(q)) == Numbered(q, inSeq, placeholder, 1)
  {
    LoopFinishesRewrite([], q, inSeq, placeholder, MarkerCount(q));
    assert [] + q == q;
  }

  /** With a repeated marker, each `?` grows the query by |placeholder| - 1 characters. */
  lemma {:induction false} RepeatedMarkerLength(s: string, placeholder: string, first: nat)
    ensures |Numbered(s, false, placeholder, first)| == |s| + MarkerCount(s) * (|placeholder| - 1)
    decreases |s|
  {
    if s != [] {
      var rest := s[1..];
      var next := if s[0] == '?' then first + 1 else first;
      RepeatedMarkerLength(rest, placeholder, next);
      MarkerCountCons(s);
      if s[0] == '?' {
        assert Numbered(s, false, placeholder, first) == placeholder + Numbered(rest, false, placeholder, next);
        OneMoreMarker(|rest|, MarkerCount(rest), |placeholder| - 1);
      } else {
        assert Numbered(s, false, placeholder, first) == [s[0]] + Numbered(rest, false, placeholder, next);
      }
    }
  }

  /** The length step for one more marker, kept apart from the sequence reasoning. */
  lemma OneMoreMarker(len: int, c: int, w: int)
    ensures (w + 1) + (len + c * w) == (len + 1) + (c + 1) * w
  {
    assert (c + 1) * w == c * w + w;
  }

  lemma MarkerCountCons(s: string)
    requires s != []
    ensures MarkerCount(s) == MarkerCount(s[1..]) + (if s[0] == '?' then 1 else 0)
  {
    assert s == [s[0]] + s[1..];
    assert multiset(s) == multiset{s[0]} + multiset(s[1..]);
  }

  /** Two markers in sequence mode with `$`, as a PostgreSQL-style dialect uses them. */
  lemma TwoNumberedMarkers(q: string, a: string, b: string, c: string, placeholder: string)
    requires '?' !in a && '?' !in b && '?' !in c
    requires q == a + "?" + b + "?" + c && placeholder == "$"
    ensures Numbered(q, true, placeholder, 1) == a + "$1" + b + "$2" + c
  {
    var x := a + "?" + b;
    FirstTwoMarkers(a, b, placeholder);
    KthMarker(x, c, true, placeholder, 2);
    NumberedWithoutMarkers(c, true, placeholder, 3);
    assert Marker(true, placeholder, 2) == "$2" by {
      assert Decimal(2) == "2";
    }
  }

  lemma FirstTwoMarkers(a: string, b: string, placeholder: string)
    requires '?' !in a && '?' !in b && placeholder == "$"
    ensures MarkerCount(a + "?" + b) == 1
    ensures Numbered(a + "?" + b, true, placeholder, 1) == a + "$1" + b
  {
    MarkerCountThroughMarker([], a, b);
    assert [] + a + "?" == a + "?";
    MarkerCountAfterPlainText(a + "?", b);
    MarkerCountAfterPlainText([], a);
    assert [] + a == a;
    KthMarker(a, b, true, placeholder, 1);
    NumberedWithoutMarkers(a, true, placeholder, 1);
    NumberedWithoutMarkers(b, true, placeholder, 2);
    assert Marker(true, placeholder, 1) == "$1" by {
      assert Decimal(1) == "1";
    }
  }

  /** One replacement removes exactly one `?` when the marker brings none. */
  lemma {:induction false} ReplaceFirstRemovesOne(s: string, marker: string)
    requires '?' in s && '?' !in marker
    ensures MarkerCount(ReplaceFirst(s, marker)) == MarkerCount(s) - 1
    decreases |s|
  {
    MarkerCountCons(s);
    if s[0] == '?' {
      MarkerCountAfterPlainText([], marker);
      assert [] + marker == marker;
      assert multiset(marker + s[1..]) == multiset(marker) + multiset(s[1..]);
    } else {
      assert '?' in s[1..] by {
        var j := FirstMarker(s);
        assert s[1..][j - 1] == '?';
      }
      ReplaceFirstRemovesOne(s[1..], marker);
      MarkerCountCons([s[0]] + ReplaceFirst(s[1..], marker));
      assert ([s[0]] + ReplaceFirst(s[1..], marker))[1..] == ReplaceFirst(s[1..], marker);
    }
  }

  /**
    Whatever the placeholder holds, as long as it has no `?`, running the
    loop at least once per `?` leaves none: in particular the source's loop,
    which runs exactly once per `?`.
   */
  lemma {:induction false} LoopClearsMarkers(s: string, inSeq: bool, placeholder: string, i: nat, n: nat)
    requires '?' !in placeholder && MarkerCount(s) <= n - i
    ensures '?' !in ReplaceLoop(s, inSeq, placeholder, i, n)
    decreases n - i
  {
    if '?' in s {
      var m := Marker(inSeq, placeholder, i + 1);
      MarkerHasNoQuestionMark(inSeq, placeholder, i + 1);
      assert MarkerCount(s) > 0;
      ReplaceFirstRemovesOne(s, m);
      LoopClearsMarkers(ReplaceFirst(s, m), inSeq, placeholder, i + 1, n);
    }
  }
}
