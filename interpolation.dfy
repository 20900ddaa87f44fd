/**
  InterpolateTable: every `{ident}` in a SQL text, where ident is drawn from
  the class [a-zA-Z0-9[]"_-] and may be empty, becomes `schema.ident`, or the
  bare `ident` when the schema is empty.  The source does this with
  regexp.ReplaceAllString; here the regular expression's leftmost-first,
  non-overlapping matching is Scan, and the template expansion is Render.
 */
module Interpolation {

  /**
    The character class of the placeholder pattern.  Neither brace nor the dot
    that the schema prefix ends in belongs to it.
   */
  predicate IsIdentChar(c: char): (b: bool)
    ensures b ==> c != '{' && c != '}' && c != '.' && c != '$'
  {
    || 'a' <= c <= 'z'
    || 'A' <= c <= 'Z'
    || '0' <= c <= '9'
    || c == '[' || c == ']' || c == '"' || c == '_' || c == '-'
  }

  predicate IsIdent(s: string) {
    forall k :: 0 <= k < |s| ==> IsIdentChar(s[k])
  }

  /** Length of the longest prefix of t drawn from the class: the greedy star of the pattern. */
  function IdentRun(t: string): (n: nat)
    ensures n <= |t| && IsIdent(t[..n])
    ensures n < |t| ==> !IsIdentChar(t[n])
  {
    if t == [] || !IsIdentChar(t[0]) then 0 else 1 + IdentRun(t[1..])
  }

  /**
    After a `{`, does the rest of the text t complete a match, ident followed by
    `}`?  ClosesIffOpens shows the greedy run misses no match.
   */
  predicate Closes(t: string): (b: bool)
    ensures b ==> ClosesAt(t, IdentRun(t))
  {
    IdentRun(t) < |t| && t[IdentRun(t)] == '}'
  }

  /** A piece of SQL text: one character copied as is, or one matched `{ident}`. */
  datatype Segment = Literal(c: char) | Table(ident: string)

  /** The SQL text one segment stands for. */
  function SegmentSource(seg: Segment): string {
    match seg
    case Literal(c) => [c]
    case Table(id) => "{" + id + "}"
  }

  /** The SQL text a list of segments stands for. */
  function Source(segs: seq<Segment>): string {
    if segs == [] then [] else SegmentSource(segs[0]) + Source(segs[1..])
  }

  /**
    The matcher: at a `{` that closes, take the placeholder; otherwise copy one
    character.  The segments spell out the text exactly.
   */
  function Scan(sql: string): (segs: seq<Segment>)
    ensures Source(segs) == sql
    decreases |sql|
  {
    if sql == [] then []
    else if sql[0] == '{' && Closes(sql[1..]) then
      var n := IdentRun(sql[1..]);
      var rest := Scan(sql[n + 2..]);
      SourceOfMatch(sql, n, rest);
      [Table(sql[1..1 + n])] + rest
    else
      var rest := Scan(sql[1..]);
      SourceOfLiteral(sql, rest);
      [Literal(sql[0])] + rest
  }

  /** The expansion of one segment: a literal is copied, a table placeholder becomes prefix + ident. */
  function Expand(seg: Segment, prefix: string): string {
    match seg
    case Literal(c) => [c]
    case Table(id) => prefix + id
  }

  /** The template applied to every match; without matches the text comes back as it was. */
  function Render(segs: seq<Segment>, prefix: string): (r: string)
    ensures Tables(segs) == 0 ==> r == Source(segs)
  {
    if segs == [] then [] else Expand(segs[0], prefix) + Render(segs[1..], prefix)
  }

  /** What stands before each identifier: `schema.`, or nothing for an empty schema. */
  function Qualifier(schema: string): string {
    if schema != "" then schema + "." else ""
  }

  /**
    The source passes schema + "$1" to ReplaceAllString as a template, so a `$`
    inside the schema would itself be expanded; that case is not modelled.
   */
  function InterpolateTable(sql: string, schema: string): (r: string)
    requires '$' !in schema
    ensures RendersMatches(sql, Qualifier(schema), r)
  {
    ScanSound(sql);
    assert Canonical(Scan(sql)) && Source(Scan(sql)) == sql;
    Render(Scan(sql), Qualifier(schema))
  }

  // ---------------------------------------------------------------------
  // An independent description of the matches, without IdentRun

  /** The first n characters of t are an identifier and a `}` follows them. */
  ghost predicate ClosesAt(t: string, n: nat) {
    n < |t| && t[n] == '}' && IsIdent(t[..n])
  }

  /** t begins with ident `}`: after a `{` it would complete a placeholder. */
  ghost predicate OpensPlaceholder(t: string) {
    exists n: nat :: ClosesAt(t, n)
  }

  /** r is the template with `prefix` applied to a leftmost-first segmentation of sql. */
  ghost predicate RendersMatches(sql: string, prefix: string, r: string) {
    exists segs :: Canonical(segs) && Source(segs) == sql && r == Render(segs, prefix)
  }

  /** sql holds some `{ident}`. */
  ghost predicate HasPlaceholder(sql: string) {
    exists i :: 0 <= i < |sql| && sql[i] == '{' && OpensPlaceholder(sql[i + 1..])
  }

  /** A segment is well placed when a table names an identifier and a literal `{` does not start a placeholder. */
  ghost predicate SegmentOk(seg: Segment, following: string) {
    match seg
    case Table(id) => IsIdent(id)
    case Literal(c) => c == '{' ==> !OpensPlaceholder(following)
  }

  /** The segmentation a leftmost-first matcher must produce. */
  ghost predicate Canonical(segs: seq<Segment>) {
    segs == [] || (SegmentOk(segs[0], Source(segs[1..])) && Canonical(segs[1..]))
  }

  function Tables(segs: seq<Segment>): nat {
    if segs == [] then 0 else (if segs[0].Table? then 1 else 0) + Tables(segs[1..])
  }

  // ---------------------------------------------------------------------
  // Lemmas about the matcher

  /** The greedy run stops exactly at the first character outside the class. */
  lemma {:induction false} IdentRunStopsAt(t: string, m: nat)
    requires m < |t| && IsIdent(t[..m]) && !IsIdentChar(t[m])
    ensures IdentRun(t) == m
    decreases m
  {
    if m > 0 {
      assert t[..m][0] == t[0];
      assert t[1..][..m - 1] == t[..m][1..];
      IdentRunStopsAt(t[1..], m - 1);
    }
  }

  lemma ClosesIffOpens(t: string)
    ensures Closes(t) <==> OpensPlaceholder(t)
  {
    if OpensPlaceholder(t) {
      var n: nat :| ClosesAt(t, n);
      IdentRunStopsAt(t, n);
    }
    if Closes(t) {
      assert ClosesAt(t, IdentRun(t));
    }
  }

  lemma {:induction false} SourceAppend(a: seq<Segment>, b: seq<Segment>)
    ensures Source(a + b) == Source(a) + Source(b)
  {
    if a == [] {
      assert a + b == b;
    } else {
      assert (a + b)[0] == a[0];
      assert (a + b)[1..] == a[1..] + b;
      SourceAppend(a[1..], b);
    }
  }

  lemma {:induction false} RenderAppend(a: seq<Segment>, b: seq<Segment>, prefix: string)
    ensures Render(a + b, prefix) == Render(a, prefix) + Render(b, prefix)
  {
    if a == [] {
      assert a + b == b;
    } else {
      assert (a + b)[0] == a[0];
      assert (a + b)[1..] == a[1..] + b;
      RenderAppend(a[1..], b, prefix);
    }
  }

  lemma SourceOfMatch(sql: string, n: nat, rest: seq<Segment>)
    requires n + 2 <= |sql| && sql[0] == '{' && sql[n + 1] == '}' && Source(rest) == sql[n + 2..]
    ensures Source([Table(sql[1..1 + n])] + rest) == sql
  {
    SourceCons(Table(sql[1..1 + n]), rest);
    assert sql == "{" + sql[1..1 + n] + "}" + sql[n + 2..];
  }

  lemma SourceOfLiteral(sql: string, rest: seq<Segment>)
    requires sql != [] && Source(rest) == sql[1..]
    ensures Source([Literal(sql[0])] + rest) == sql
  {
    SourceCons(Literal(sql[0]), rest);
    assert sql == [sql[0]] + sql[1..];
  }

  lemma SourceCons(seg: Segment, segs: seq<Segment>)
    ensures Source([seg] + segs) == SegmentSource(seg) + Source(segs)
  {
    assert ([seg] + segs)[1..] == segs;
  }

  /** How Source and Canonical see a segment put in front of others. */
  lemma Cons(seg: Segment, segs: seq<Segment>)
    ensures Source([seg] + segs) == SegmentSource(seg) + Source(segs)
    ensures Canonical([seg] + segs) <==> SegmentOk(seg, Source(segs)) && Canonical(segs)
  {
    assert ([seg] + segs)[0] == seg;
    assert ([seg] + segs)[1..] == segs;
  }

  /** A `{ident}` at the front is matched, with nothing more and nothing less. */
  lemma ScanOfPlaceholder(id: string, t: string)
    requires IsIdent(id)
    ensures Scan("{" + id + "}" + t) == [Table(id)] + Scan(t)
  {
    var s := "{" + id + "}" + t;
    var u := s[1..];
    assert u == id + "}" + t;
    assert u[..|id|] == id && u[|id|] == '}';
    IdentRunStopsAt(u, |id|);
    assert s[1..1 + |id|] == u[..|id|];
    assert s[|id| + 2..] == u[|id| + 1..] == t;
  }

  /** A character that does not start a placeholder is copied as one literal. */
  lemma ScanOfLiteral(c: char, t: string)
    requires c == '{' ==> !OpensPlaceholder(t)
    ensures Scan([c] + t) == [Literal(c)] + Scan(t)
  {
    assert ([c] + t)[1..] == t;
    ClosesIffOpens(t);
  }

  /** The matcher loses and invents nothing, and finds every placeholder leftmost-first. */
  lemma {:induction false} ScanSound(sql: string)
    ensures Source(Scan(sql)) == sql
    ensures Canonical(Scan(sql))
    decreases |sql|
  {
    if sql != [] {
      var t := sql[1..];
      if sql[0] == '{' && Closes(t) {
        var n := IdentRun(t);
        var id := t[..n];
        var rest := sql[n + 2..];
        assert sql == "{" + id + "}" + rest;
        ScanOfPlaceholder(id, rest);
        ScanSound(rest);
        Cons(Table(id), Scan(rest));
      } else {
        assert sql == [sql[0]] + t;
        ClosesIffOpens(t);
        ScanOfLiteral(sql[0], t);
        ScanSound(t);
        Cons(Literal(sql[0]), Scan(t));
      }
    }
  }

  /** The canonical segmentation of a text is unique, and it is what Scan returns. */
  lemma {:induction false} ScanUnique(segs: seq<Segment>)
    requires Canonical(segs)
    ensures Scan(Source(segs)) == segs
  {
    if segs != [] {
      var seg, rest := segs[0], segs[1..];
      assert segs == [seg] + rest;
      Cons(seg, rest);
      ScanUnique(rest);
      match seg
      case Table(id) =>
        ScanOfPlaceholder(id, Source(rest));
      case Literal(c) =>
        ScanOfLiteral(c, Source(rest));
    }
  }

  /** b begins with a character that can neither extend an identifier nor close a placeholder. */
  predicate StartsApart(b: string) {
    b != [] && !IsIdentChar(b[0]) && b[0] != '}'
  }

  /** No placeholder can straddle into text that starts outside the class and is not `}`. */
  lemma OpensPlaceholderAppend(u: string, b: string)
    requires StartsApart(b)
    requires !OpensPlaceholder(u)
    ensures !OpensPlaceholder(u + b)
  {
    forall n: nat | n < |u + b| && (u + b)[n] == '}'
      ensures !ClosesAt(u + b, n)
    {
      if n < |u| {
        assert (u + b)[..n] == u[..n] && (u + b)[n] == u[n];
        assert !ClosesAt(u, n);
      } else {
        assert (u + b)[..n][|u|] == b[0];
      }
    }
  }

  lemma {:induction false} CanonicalAppend(x: seq<Segment>, y: seq<Segment>)
    requires Canonical(x) && Canonical(y)
    requires StartsApart(Source(y))
    ensures Canonical(x + y)
  {
    if x == [] {
      assert x + y == y;
    } else {
      var head, rest := x[0], x[1..];
      CanonicalAppend(rest, y);
      CanonicalConsAppend(head, rest, y);
      SplitHead(x, y);
    }
  }

  lemma SplitHead(x: seq<Segment>, y: seq<Segment>)
    requires x != []
    ensures x + y == [x[0]] + (x[1..] + y)
  {
    assert x == [x[0]] + x[1..];
  }

  lemma CanonicalConsAppend(head: Segment, rest: seq<Segment>, y: seq<Segment>)
    requires SegmentOk(head, Source(rest)) && Canonical(rest + y)
    requires StartsApart(Source(y))
    ensures Canonical([head] + (rest + y))
  {
    SegmentOkAppend(head, rest, y);
    Cons(head, rest + y);
  }

  /** A segment well placed before `rest` stays well placed when text that cannot extend a placeholder follows. */
  lemma SegmentOkAppend(seg: Segment, rest: seq<Segment>, y: seq<Segment>)
    requires SegmentOk(seg, Source(rest))
    requires StartsApart(Source(y))
    ensures SegmentOk(seg, Source(rest + y))
  {
    SourceAppend(rest, y);
    if seg == Literal('{') {
      OpensPlaceholderAppend(Source(rest), Source(y));
    }
  }

  /**
    Scanning distributes over a split point that starts outside the class
    and is not `}`: what lies to the left is matched as it would be alone.
   */
  lemma ScanAppend(a: string, b: string)
    requires StartsApart(b)
    ensures Scan(a + b) == Scan(a) + Scan(b)
  {
    ScanSound(a);
    ScanSound(b);
    CanonicalAppend(Scan(a), Scan(b));
    SourceAppend(Scan(a), Scan(b));
    ScanUnique(Scan(a) + Scan(b));
  }

  // ---------------------------------------------------------------------
  // Lemmas about InterpolateTable

  lemma RenderCons(seg: Segment, segs: seq<Segment>, prefix: string)
    ensures Render([seg] + segs, prefix) == Expand(seg, prefix) + Render(segs, prefix)
  {
    assert ([seg] + segs)[0] == seg;
    assert ([seg] + segs)[1..] == segs;
  }

  /** Interpolating a + b, where b starts with a segment seg, in three parts. */
  lemma InterpolateSplit(a: string, b: string, seg: Segment, c: string, schema: string)
    requires '$' !in schema
    requires StartsApart(b)
    requires Scan(b) == [seg] + Scan(c)
    ensures InterpolateTable(a + b, schema)
            == InterpolateTable(a, schema) + Expand(seg, Qualifier(schema)) + InterpolateTable(c, schema)
  {
    RenderSplit(a, b, seg, c, Qualifier(schema));
  }

  /** InterpolateSplit for any prefix, on the matcher and the template directly. */
  lemma RenderSplit(a: string, b: string, seg: Segment, c: string, p: string)
    requires StartsApart(b)
    requires Scan(b) == [seg] + Scan(c)
    ensures Render(Scan(a + b), p) == Render(Scan(a), p) + Expand(seg, p) + Render(Scan(c), p)
  {
    ScanAppend(a, b);
    RenderAround(Scan(a), seg, Scan(c), p);
  }

  /** The template applied to x, then one segment, then y. */
  lemma RenderAround(x: seq<Segment>, seg: Segment, y: seq<Segment>, p: string)
    ensures Render(x + ([seg] + y), p) == Render(x, p) + Expand(seg, p) + Render(y, p)
  {
    RenderAppend(x, [seg] + y, p);
    RenderCons(seg, y, p);
  }

  /**
    One segment's expansion: a literal is copied; a match loses its two braces
    and gains the prefix, which is followed by the captured identifier.
   */
  lemma ExpandOneMatch(seg: Segment, prefix: string)
    ensures seg.Literal? ==> Expand(seg, prefix) == SegmentSource(seg)
    ensures seg.Table? ==> |Expand(seg, prefix)| + 2 == |SegmentSource(seg)| + |prefix|
    ensures seg.Table? ==> Expand(seg, prefix)[..|prefix|] == prefix && Expand(seg, prefix)[|prefix|..] == seg.ident
  {
  }

  /**
    The prefix the schema gives: nothing for an empty schema, otherwise the
    schema and one dot; it holds a `$` only if the schema does.
   */
  lemma QualifierShape(schema: string)
    ensures schema == "" ==> Qualifier(schema) == ""
    ensures schema != "" ==> |Qualifier(schema)| == |schema| + 1
    ensures schema != "" ==> Qualifier(schema)[..|schema|] == schema && Qualifier(schema)[|schema|] == '.'
    ensures '$' !in schema ==> '$' !in Qualifier(schema)
  {
  }

  lemma QualifiedName(left: string, id: string, right: string, schema: string)
    ensures schema != "" ==> left + Expand(Table(id), Qualifier(schema)) + right == left + schema + "." + id + right
    ensures schema == "" ==> left + Expand(Table(id), Qualifier(schema)) + right == left + id + right
  {
    if schema == "" {
      assert Qualifier(schema) + id == id;
    }
  }

  /**
    Each well-formed `{ident}` becomes `schema.ident` (the bare ident for an
    empty schema), and the text on both sides is interpolated on its own.
   */
  lemma PlaceholderReplaced(a: string, id: string, c: string, schema: string)
    requires '$' !in schema && IsIdent(id)
    ensures schema != "" ==>
      InterpolateTable(a + "{" + id + "}" + c, schema)
      == InterpolateTable(a, schema) + schema + "." + id + InterpolateTable(c, schema)
    ensures schema == "" ==>
      InterpolateTable(a + "{" + id + "}" + c, schema)
      == InterpolateTable(a, schema) + id + InterpolateTable(c, schema)
  {
    var b := "{" + id + "}" + c;
    assert a + "{" + id + "}" + c == a + b;
    ScanOfPlaceholder(id, c);
    InterpolateSplit(a, b, Table(id), c, schema);
    QualifiedName(InterpolateTable(a, schema), id, InterpolateTable(c, schema), schema);
  }

  /** A `{` that does not begin ident `}` (unterminated, or holding a character outside the class) is copied. */
  lemma UnmatchedBraceKept(a: string, t: string, schema: string)
    requires '$' !in schema && !OpensPlaceholder(t)
    ensures InterpolateTable(a + "{" + t, schema)
            == InterpolateTable(a, schema) + "{" + InterpolateTable(t, schema)
  {
    ScanOfLiteral('{', t);
    assert "{" + t == ['{'] + t;
    assert a + "{" + t == a + ("{" + t);
    InterpolateSplit(a, "{" + t, Literal('{'), t, schema);
    assert Expand(Literal('{'), Qualifier(schema)) == "{";
  }

  lemma {:induction false} NoPlaceholderScansLiterally(sql: string)
    requires !HasPlaceholder(sql)
    ensures Tables(Scan(sql)) == 0
    decreases |sql|
  {
    if sql != [] {
      var t := sql[1..];
      forall i | 0 <= i < |t| && t[i] == '{'
        ensures !OpensPlaceholder(t[i + 1..])
      {
        assert sql[i + 1] == '{' && sql[i + 2..] == t[i + 1..];
      }
      NoPlaceholderScansLiterally(t);
      if sql[0] == '{' {
        assert !OpensPlaceholder(sql[1..]);
        ClosesIffOpens(t);
      }
      assert Scan(sql)[1..] == Scan(t);
    }
  }

  lemma {:induction false} PlaceholderScansTable(sql: string)
    requires HasPlaceholder(sql)
    ensures Tables(Scan(sql)) > 0
    decreases |sql|
  {
    var i :| 0 <= i < |sql| && sql[i] == '{' && OpensPlaceholder(sql[i + 1..]);
    var t := sql[1..];
    if sql[0] == '{' && Closes(t) {
    } else if i == 0 {
      ClosesIffOpens(t);
    } else {
      assert t[i - 1] == '{' && t[i..] == sql[i + 1..];
      PlaceholderScansTable(t);
      assert Scan(sql)[1..] == Scan(t);
    }
  }

  /** Each table placeholder trades its two braces for the qualifier. */
  lemma {:induction false} RenderLength(segs: seq<Segment>, prefix: string)
    ensures |Render(segs, prefix)| + 2 * Tables(segs) == |Source(segs)| + Tables(segs) * |prefix|
  {
    if segs != [] {
      RenderLength(segs[1..], prefix);
      var t := Tables(segs[1..]);
      if segs[0].Table? {
        assert (1 + t) * |prefix| == |prefix| + t * |prefix|;
      }
    }
  }

  lemma RenderChangesLength(segs: seq<Segment>, prefix: string)
    requires Tables(segs) > 0 && |prefix| != 2
    ensures |Render(segs, prefix)| != |Source(segs)|
  {
    RenderLength(segs, prefix);
    var t := Tables(segs);
    assert t * |prefix| - 2 * t == t * (|prefix| - 2);
  }

  /** Text without any placeholder comes back unchanged, whatever the schema. */
  lemma NoPlaceholderUnchanged(sql: string, schema: string)
    requires '$' !in schema && !HasPlaceholder(sql)
    ensures InterpolateTable(sql, schema) == sql
  {
    NoPlaceholderScansLiterally(sql);
  }

  /** A text with a placeholder changes length unless the schema has exactly one character. */
  lemma PlaceholderChangesLength(sql: string, schema: string)
    requires '$' !in schema && HasPlaceholder(sql) && |schema| != 1
    ensures |InterpolateTable(sql, schema)| != |sql|
  {
    PlaceholderScansTable(sql);
    RenderChangesLength(Scan(sql), Qualifier(schema));
    ScanSound(sql);
  }

  /** With an empty schema, interpolation changes the text exactly when it holds a placeholder. */
  lemma EmptySchemaFixedIff(sql: string)
    ensures InterpolateTable(sql, "") == sql <==> !HasPlaceholder(sql)
  {
    if HasPlaceholder(sql) {
      PlaceholderChangesLength(sql, "");
    } else {
      NoPlaceholderUnchanged(sql, "");
    }
  }

  /** With a schema of two or more characters, likewise: the length changes.  A one-character schema keeps the length; see DotMarksFirstMatch. */
  lemma LongSchemaFixedIff(sql: string, schema: string)
    requires '$' !in schema && |schema| >= 2
    ensures InterpolateTable(sql, schema) == sql <==> !HasPlaceholder(sql)
  {
    if HasPlaceholder(sql) {
      PlaceholderChangesLength(sql, schema);
    } else {
      NoPlaceholderUnchanged(sql, schema);
    }
  }

  /**
    A one-character schema keeps the length, so the length argument does not
    apply; instead, at the first match the output has `.` one past the schema
    character, where the input has an identifier character or `}`.
   */
  lemma {:induction false} DotMarksFirstMatch(sql: string, prefix: string)
    requires |prefix| == 2 && prefix[1] == '.' && HasPlaceholder(sql)
    ensures Render(Scan(sql), prefix) != sql
    ensures |Render(Scan(sql), prefix)| == |sql|
    decreases |sql|
  {
    RenderLength(Scan(sql), prefix);
    var t := sql[1..];
    if sql[0] == '{' && Closes(t) {
      DotAtMatch(sql, prefix);
    } else {
      var i :| 0 <= i < |sql| && sql[i] == '{' && OpensPlaceholder(sql[i + 1..]);
      ClosesIffOpens(t);
      assert i != 0;
      assert t[i - 1] == '{' && t[i..] == sql[i + 1..];
      DotMarksFirstMatch(t, prefix);
      LiteralKeepsDifference(sql, prefix);
    }
  }

  /** A match at the front: the output's second character is `.`, the input's is not. */
  lemma DotAtMatch(sql: string, prefix: string)
    requires |prefix| == 2 && prefix[1] == '.' && sql != [] && sql[0] == '{' && Closes(sql[1..])
    ensures Render(Scan(sql), prefix) != sql
  {
    var t := sql[1..];
    var n := IdentRun(t);
    RenderCons(Table(t[..n]), Scan(sql[n + 2..]), prefix);
    assert Render(Scan(sql), prefix)[1] == '.';
    assert sql[1] == t[0];
  }

  /** A literal at the front: the outputs differ if they differ after it. */
  lemma LiteralKeepsDifference(sql: string, prefix: string)
    requires sql != [] && !(sql[0] == '{' && Closes(sql[1..]))
    requires Render(Scan(sql[1..]), prefix) != sql[1..]
    ensures Render(Scan(sql), prefix) != sql
  {
    RenderCons(Literal(sql[0]), Scan(sql[1..]), prefix);
    assert Render(Scan(sql), prefix)[1..] == Render(Scan(sql[1..]), prefix);
  }

  /** For every schema, interpolation leaves the text unchanged exactly when it holds no placeholder. */
  lemma FixedIff(sql: string, schema: string)
    requires '$' !in schema
    ensures InterpolateTable(sql, schema) == sql <==> !HasPlaceholder(sql)
  {
    if |schema| == 1 {
      if HasPlaceholder(sql) {
        DotMarksFirstMatch(sql, Qualifier(schema));
      } else {
        NoPlaceholderUnchanged(sql, schema);
      }
    } else if schema == "" {
      EmptySchemaFixedIff(sql);
    } else {
      LongSchemaFixedIff(sql, schema);
    }
  }

  /** One placeholder at the end of text that holds no other brace. */
  lemma TrailingPlaceholder(a: string, id: string, schema: string)
    requires '$' !in schema && schema != "" && '{' !in a && IsIdent(id)
    ensures InterpolateTable(a + "{" + id + "}", schema) == a + schema + "." + id
  {
    NoPlaceholderUnchanged(a, schema);
    NoPlaceholderUnchanged("", schema);
    PlaceholderReplaced(a, id, "", schema);
    assert a + "{" + id + "}" == a + "{" + id + "}" + "";
  }

  /** A concrete query: `{orders}` under schema `app`. */
  lemma SelectFromOrders(from: string, table: string, schema: string)
    requires from == "select * from " && table == "orders" && schema == "app"
    ensures InterpolateTable(from + "{" + table + "}", schema) == "select * from app.orders"
  {
    TrailingPlaceholder(from, table, schema);
  }
}
