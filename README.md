# datahelperlite: the package functions, modelled in Dafny

datahelperlite is a small Go package. It declares the interface that SQL
database drivers implement: connections, transactions, savepoints and queries.
Beside that interface it holds a few package-level functions that every driver
shares. `datahelperlite.go` and its successor `v2/datahelperlite.go` contain
the same code for these functions, and this project models them:

- **InterpolateTable** (module `Interpolation`) rewrites every `{ident}` of a SQL
  text into `schema.ident`. The identifier is drawn from `[a-zA-Z0-9[]"_-]` and
  may be empty. With an empty schema it becomes the bare `ident`. The regular
  expression's leftmost-first, non-overlapping matching is `Scan`, which cuts
  the text into literal characters and matched placeholders. The replacement
  template is `Render`. `Scan` is proved to give the only segmentation a
  leftmost-first matcher can produce, and the lemmas about `InterpolateTable`
  rest on that.
- **ReplaceQueryParamMarker** (module `ParamMarker`) rewrites the generic bind
  marker `?` into a dialect's marker. The marker is numbered (`$1`, `$2`, …)
  in sequence mode and the same placeholder everywhere otherwise. The method
  keeps the source's loop: one `strings.Replace(…, 1)` per `?` counted in the
  original query. It is proved equal to the as-written iteration
  (`ReplaceLoop`) for every placeholder other than `?`, which returns the
  query unchanged. When the placeholder holds no `?`,
  it is also proved equal to the intended rewrite `Numbered`: the k-th `?`
  becomes the k-th marker. `strconv.Itoa` is `Numerals.Decimal`.
- **ToDBType / GetZero** (module `Coercion`) coerce a dynamically typed value
  into one of the string parameter types `VarChar`, `VarCharMax` or
  `NVarCharMax`. Go's `any` is a closed datatype of the shapes the type switch
  and the reflection fallback tell apart.
- **New / SetHelper / SetErrNoRows** (module `Registry`) form the package's
  helper registry. The package variables `Helper` and `ErrNoRows` are fields of
  a `Package` object, and the two setters are methods that update them in
  place.

Each function has the same meaning in both files, so one model serves both.
The table cites, for each member, the lines it follows, in whichever file.

## Model

| member | source | states |
|---|---|---|
| Interpolation.InterpolateTable | datahelperlite.go:123-129 | the result is the template `schema.` + identifier (or the bare identifier for an empty schema) applied to a segmentation of the input that spells it out exactly and is in leftmost-first shape |
| Interpolation.Scan | datahelperlite.go:127-128 | the regular expression's matches, taken left to right: the segments, literal characters and `{ident}` matches, spell out the input exactly |
| Interpolation.Render | datahelperlite.go:128 | the replacement template applied to every match; with no match the text comes back unchanged |
| Interpolation.IdentRun | datahelperlite.go:127 | the greedy star of the identifier class: the longest prefix made only of class characters; the character after it is outside the class |
| Interpolation.IsIdentChar | datahelperlite.go:127 | the pattern's character class; neither brace, nor the dot a schema prefix ends in, nor `$` belongs to it |
| Interpolation.Closes | datahelperlite.go:127 | after a `{`, the greedy run of class characters is followed by the closing `}`, so the text starts with an identifier and a `}` |
| Interpolation.ExpandOneMatch | datahelperlite.go:128 | the expansion of one segment: a literal character is copied; a match loses its two braces and becomes the prefix followed by the captured identifier (`$1`) |
| Interpolation.QualifierShape | datahelperlite.go:124-126 | the prefix is empty for an empty schema and otherwise the schema followed by one dot; it holds a `$` only if the schema does |
| Interpolation.ClosesIffOpens | datahelperlite.go:127 | the greedy run followed by `}` succeeds exactly when some prefix of identifier characters is followed by `}`, so greedy matching loses no match |
| Interpolation.ScanSound | datahelperlite.go:127-128 | the matcher's segments spell out the input exactly, and they are in leftmost-first shape: every table is an identifier, and no literal `{` starts a placeholder |
| Interpolation.ScanUnique | datahelperlite.go:127-128 | any segmentation in leftmost-first shape is the one the matcher produces, so the matches are uniquely determined |
| Interpolation.ScanAppend | datahelperlite.go:127-128 | when the second part starts with a character that can neither continue an identifier nor close one, the matches of a concatenation are the matches of the parts |
| Interpolation.PlaceholderReplaced | datahelperlite.go:123-128 | every `{ident}`, whatever surrounds it, becomes `schema.ident` for a non-empty schema and the bare `ident` for an empty one; the text before and after it is rewritten on its own |
| Interpolation.QualifiedName | v2/datahelperlite.go:122-126 | the expansion of one placeholder is schema, dot, identifier; with an empty schema it is the identifier alone |
| Interpolation.UnmatchedBraceKept | datahelperlite.go:127-128 | a `{` that does not start a placeholder is copied verbatim, whether it lacks a `}` or an invalid character comes first |
| Interpolation.NoPlaceholderUnchanged | datahelperlite.go:127-128 | a text holding no `{ident}` is returned unchanged, for every schema |
| Interpolation.EmptySchemaFixedIff | v2/datahelperlite.go:121-126 | with an empty schema, the text comes back unchanged if and only if it holds no `{ident}` |
| Interpolation.FixedIff | datahelperlite.go:123-128 | for every schema without `$`, the text comes back unchanged if and only if it holds no `{ident}` |
| Interpolation.DotMarksFirstMatch | datahelperlite.go:124-128 | with a one-character schema, a text holding a `{ident}` keeps its length but does not come back unchanged |
| Interpolation.LongSchemaFixedIff | v2/datahelperlite.go:121-126 | with a schema of two or more characters, the text comes back unchanged if and only if it holds no `{ident}` |
| Interpolation.PlaceholderChangesLength | datahelperlite.go:123-128 | when the text holds a `{ident}` and the schema's length is not one, the result's length differs from the input's |
| Interpolation.RenderLength | datahelperlite.go:128 | each replacement removes the two braces and adds the prefix; all other characters are kept |
| Interpolation.NoPlaceholderScansLiterally | datahelperlite.go:127 | a text without `{ident}` yields no match |
| Interpolation.PlaceholderScansTable | datahelperlite.go:127 | a text holding a `{ident}` yields at least one match |
| Interpolation.TrailingPlaceholder | v2/datahelperlite.go:121-126 | a query whose only placeholder ends it gets the qualified name in its place |
| Interpolation.SelectFromOrders | v2/datahelperlite.go:121-126 | `select * from {orders}` with schema `app` becomes `select * from app.orders` |
| ParamMarker.ReplaceQueryParamMarker | datahelperlite.go:132-152 | placeholder `?` returns the query unchanged; otherwise the result is the first-occurrence replacement run once per `?` of the original query; for a placeholder without `?` it is the intended rewrite `Numbered` |
| ParamMarker.ReplaceLoop | datahelperlite.go:144-150 | the loop as written: iterations i+1 to n each replace the first `?` still left with the marker of their index; with no `?` left, they change nothing |
| ParamMarker.LoopClearsMarkers | datahelperlite.go:143-150 | with a placeholder without `?`, running the loop at least once per `?` (as the source does, exactly once) leaves no `?` |
| ParamMarker.ReplaceFirstRemovesOne | datahelperlite.go:146-148 | one replacement with a marker that has no `?` removes exactly one `?` |
| ParamMarker.MarkerCount | datahelperlite.go:142-143 | the number of `?` the pattern finds: zero exactly when the query has no `?`, and never more than the query's length |
| ParamMarker.Marker | datahelperlite.go:145-148 | the replacement text: the bare placeholder in repeated mode; in sequence mode the placeholder followed by a non-empty run of digits that reads back as the index |
| ParamMarker.ReplaceFirstAt | datahelperlite.go:146-148 | replacing the first `?` once: in a text whose part before the first `?` has none, that `?` becomes the marker and the text around it is kept |
| ParamMarker.ReplaceFirst | v2/datahelperlite.go:144-146 | replacing the first `?` of a text that has none returns it unchanged |
| ParamMarker.LoopRewritesInOrder | v2/datahelperlite.go:140-148 | for a placeholder without `?`, the loop run from the start over all `?` of the query gives the intended rewrite |
| ParamMarker.LoopFinishesRewrite | v2/datahelperlite.go:142-148 | the loop invariant: once the markers of a prefix are rewritten, the remaining iterations finish the rewrite of the whole query |
| ParamMarker.LoopStep | datahelperlite.go:144-149 | one iteration replaces exactly the next unrewritten `?` with the marker of its index, because no earlier `?` is left |
| ParamMarker.KthMarker | datahelperlite.go:145-146 | the k-th `?` from the left (1-based) becomes the placeholder followed by the decimal k in sequence mode, or the bare placeholder otherwise; the text around it keeps its order |
| ParamMarker.NumberedAppend | datahelperlite.go:144-150 | rewriting a concatenation numbers the markers of the second part after those of the first |
| ParamMarker.NumberedWithoutMarkers | datahelperlite.go:144-150 | text without `?` is copied unchanged |
| ParamMarker.NumberedLeavesNoMarker | datahelperlite.go:144-150 | with a placeholder without `?`, no `?` is left in the result |
| ParamMarker.RepeatedMarkerLength | datahelperlite.go:147-148 | in non-sequence mode the result's length is the input's length plus, for each `?` of the input, the placeholder's length minus one: one replacement per `?` |
| ParamMarker.TwoNumberedMarkers | v2/datahelperlite.go:140-148 | with placeholder `$` in sequence mode, two markers become `$1` and `$2` in order |
| ParamMarker.MarkerHasNoQuestionMark | datahelperlite.go:146 | a marker built from a placeholder without `?` has no `?`: placeholder and decimal digits |
| Numerals.Decimal | datahelperlite.go:146 | the decimal text of a number: at least one digit, no leading zero, one digit exactly below ten |
| Numerals.ParseDecimalInvertsDecimal | datahelperlite.go:146 | reading the decimal text back gives the number |
| Numerals.DecimalInjective | datahelperlite.go:146 | different indexes get different marker texts |
| Coercion.GetZero | datahelperlite.go:175-178 | the zero value of a parameter type is the empty text of that type |
| Coercion.ToDBType | datahelperlite.go:155-172 | fails exactly for a nil `*string`; otherwise the result has the target type, and a string, `*string`, string-kind value or pointer to one gives exactly its text |
| Coercion.ReflectedText | datahelperlite.go:165-169 | reflection's `String()` after one dereference: the text of a string-kind value, and for a non-string value or nil pointer a description that starts with `<` and ends with ` Value>` |
| Coercion.NilIsZero | v2/datahelperlite.go:154-156 | nil gives the zero value, the empty text |
| Coercion.TextFormsAgree | v2/datahelperlite.go:157-168 | a string, a `*string`, a string-kind value and a pointer to one holding the same text all convert to the same parameter |
| Coercion.TextIndependentOfKind | datahelperlite.go:155-172 | the target type decides only the result's type, never its text |
| Coercion.ReconvertKeepsText | datahelperlite.go:160-170 | a converted parameter is itself string-kind, and converting it again keeps its text |
| Coercion.EmptyTextIff | datahelperlite.go:155-172 | the result text is empty if and only if the input is nil or holds the empty text |
| Coercion.NonStringDescribed | datahelperlite.go:164-170 | a value of a non-string type becomes reflection's `<T Value>` and a nil pointer becomes `<invalid Value>`, not an error |
| Coercion.ConvertSamples | v2/datahelperlite_test.go:9-21 | the package test's conversions: `Sample` to VarChar, and `string2("Hey")` and a pointer to it to NVarCharMax, each keeping its text |
| Registry.Package.constructor | datahelperlite.go:77-81 | the package starts with the nil helper map and the nil no-rows error |
| Registry.Package.SetHelper | v2/datahelperlite.go:108-113 | the map exists afterwards, maps the name to the given helper, and every other name keeps its entry |
| Registry.Package.SetErrNoRows | datahelperlite.go:118-120 | the no-rows error becomes the given one |
| Registry.Package.Helpers | datahelperlite.go:99 | looking names up in the helper map: the nil map reads as the empty map, and otherwise the map itself |
| Registry.Package.New | datahelperlite.go:90-107 | a non-nil helper is returned as is; otherwise the result of NewHelper on the helper registered under the id is returned, nil included, with no error; an unregistered id gives `no helper name of such`; calling NewHelper on a registered nil helper panics |
| Registry.NothingRegisteredYet | v2/datahelperlite.go:96-100 | before any registration, asking for a helper by id reads the nil map and fails with `no helper name of such` |
| Registry.RegisterThenCreate | v2/datahelperlite.go:92-113 | after registering a helper, New for its name creates a new instance from it, even after another name was registered |

## Left out

- The `DataHelperLite` interface's methods: transactions, savepoints, queries, `Open`, `Close`, `Now`, `DatabaseVersion` and `VerifyWithin`. The package declares them but does not implement them; drivers do.
- `Rows`, `Row`, `Column` and `VerifyExpression`: declarations with no behaviour.
- The `ReadType` and `ReturnKind` constants and the error sentinels other than `ErrNoRows`: data only.
- Interpolation.InterpolateTable: a `$` in the schema is excluded by a precondition. The source passes `schema + "$1"` as a template, so a `$` there would itself be expanded, and Go's template expansion is not modelled.
- Interpolation: the source works on the UTF-8 bytes of the text; the model works on characters. The pattern and all the characters it names are ASCII, so both give the same matches.
- ParamMarker.ReplaceQueryParamMarker: for a placeholder that itself contains `?`, the only statement is the as-written iteration `ReplaceLoop`. Later iterations can then hit a `?` inserted earlier, and the result is not a numbering of the original markers.
- Registry.Package.New: the helper's `NewHelper` method is a function parameter that may give back a nil helper (then New returns a nil helper and no error); what a driver's `NewHelper` does is not part of this model. A nil pointer and a pointer to a nil helper are told apart, as in the source.
- Registry: the package variables are fields of one object; Go's unsynchronised access to them from several goroutines is not modelled.
- Coercion: Go's `any` is reduced to the shapes the conversion tells apart. For a value of a type that is not of string kind, the text is reflection's `<T Value>` with T the type's name as a parameter. A pointer to a pointer, once dereferenced, is such a value.
- Coercion.ToDBType: dereferencing a nil `*string` is a run-time panic in Go; here it is an `Err` result.
- Coercion.ToDBType: a value that is not of string kind does not make the conversion fail; the code returns reflection's `<T Value>` text, and the model does the same.
