# estab row builder in Dafny

`estab` exports fields of Elasticsearch search hits as delimited text. This
project models its row builder: the loop in `cmd/estab/estab.go` that, for each
hit, walks the requested fields in order. For each field it reads the hit's value,
type-switches on it to build a list of text tokens and joins the tokens with the
`-separator` into one column. It keeps that column only once some field of the hit
has produced data. The header line (`-header`), the field names joined by the
`-delimiter`, is modelled too.

Files and modules:

- `json.dfy`, module `Json`: the decoded values the type switch tells apart
  (`Null | Str | Num | Bool | Arr | Other`), a hit as a map from field name to
  value, and `Lookup`, which reads a missing key as nil.
- `strings.dfy`, module `Strings`: Go's `strings.Join`, and a splitter on a
  one-character separator that undoes it.
- `estab.dfy`, module `Estab`: the settings the row builder reads (`Config`);
  the token rules; the specification functions `FieldTokens`, `ArrayTokens`,
  `FindsData`, `FirstData` and `Row`; the imperative `CoerceField`, `CoerceArray`
  and `BuildRow`, proved equal to those functions; the header; and the lemmas.

The numeric primitives are not given bodies. These are `isFloatingPoint`
(`float64(int64(v)) != v`), the `%.0f` format and `strconv.FormatFloat(v, 'G',
precision, 64)`. They are function-valued fields of `Estab.NumberFormat` inside
the configuration, so every result here holds for any choice of them. A number is
carried as the exact real value of the decoded 64-bit float, so negative
zero is not told apart from zero (see "## Left out").

What the source does, as modelled:

- Lookup is flat: the whole field name is the map key, and a dot in it does not
  descend into nested objects (line 204; `Json.LookupIsFlat`,
  `Json.DottedNameIsNotAPath`).
- A string gives itself. An empty string gives the null placeholder when
  `-zero-as-null` is on.
- A number gives the `%.0f` text when `isFloatingPoint` is false, and the
  general format otherwise.
- A boolean gives `true` or `false`.
- nil, including a missing key, gives exactly the placeholder and finds no data.
- An unknown value type is not an error. At top level, for instance a nested
  object, it silently adds no token and finds no data. As an array element it
  adds no token either; the code only prints an unterminated diagnostic to
  stdout (line 252).
- In an array, elements are handled one by one with the same rules. A nil element
  replaces everything gathered so far with the placeholder. A nested array
  element falls into the default case and adds nothing. The commented-out
  `case []interface{}` (lines 254-287) would walk the outer array again into
  the same token list; the code has no second-level join.
- The found-data flag is initialised to false once per hit, before the field loop. A field's column
  is kept iff that field or an earlier one found data. So a hit's row drops the
  columns of leading fields that found no data, can have fewer columns than there
  are fields, and a hit with no data has none (`Estab.LeadingFieldsDropped`,
  `Estab.NoDataRow`).
- The row write is commented out (lines 304-307): the columns are computed and
  never written, so the model's output is the column sequence itself.

## Model

| member | source | states |
|---|---|---|
| `Estab.BuildRow` | cmd/estab/estab.go:199-302 | The loop over the fields, with one found-data flag per hit, returns exactly `Row`: the columns of the fields from the first data-finding field to the last, in field order. |
| `Estab.CoerceField` | cmd/estab/estab.go:201-293 | The type switch on one field's value yields exactly `FieldTokens` of the value. The new flag is the old flag or'ed with whether the value finds data, so it never goes back from true to false. |
| `Estab.CoerceArray` | cmd/estab/estab.go:224-253 | The walk over an array's elements yields the left fold `ArrayTokens`. The flag ends up set iff it was set before or some element is a string, number or boolean. |
| `Estab.ArrayStep` | cmd/estab/estab.go:226-253 | Taking one more element changes the tokens by one walk step (nil resets, scalar appends, anything else keeps). It sets the flag iff that element is a scalar. |
| `Estab.StringField` | cmd/estab/estab.go:205-211 | A string gives exactly one token: itself, or the placeholder when it is empty under zero-as-null. That token is its column, and it finds data. As an array element it appends the same token and sets the flag. |
| `Estab.NumberField` | cmd/estab/estab.go:212-218 | A number gives one token, from the zero-decimal format when `isFloatingPoint` is false and from the general format with the configured precision otherwise. It finds data. As an array element (lines 239-246) it appends the same token and sets the flag. |
| `Estab.BoolField` | cmd/estab/estab.go:219-221 | A boolean gives `"true"` or `"false"` and finds data. As an array element (lines 247-250) it appends the same token and sets the flag. |
| `Estab.MissingOrNullField` | cmd/estab/estab.go:222-223 | A missing key or a JSON null makes the token list exactly the placeholder, the column the placeholder, and finds no data. |
| `Estab.UnrecognisedAddsNothing` | cmd/estab/estab.go:289-293 | An unknown top-level value, such as an object, gives no token, an empty column and no data. A nested array or object element (lines 251-252) leaves the tokens and the flag unchanged. |
| `Estab.NilElementResets` | cmd/estab/estab.go:228-229 | A nil element leaves only the placeholder, whatever came before. It does not undo data already found. |
| `Estab.EmptyArrayField` | cmd/estab/estab.go:224-226 | An empty array gives no tokens, an empty column, and no data. |
| `Estab.ArrayTokensAfterLastNil` | cmd/estab/estab.go:224-253 | The tokens of an array are the placeholder followed by the tokens of the elements after the last nil. With no nil, they are the tokens of all elements. |
| `Estab.ElementTokensInOrder` | cmd/estab/estab.go:226-250 | The concatenated element tokens hold one token per scalar element, in element order, each that element's token. |
| `Estab.NilFreeArrayTokens` | cmd/estab/estab.go:226-250 | For an array without nil, the tokens are one per scalar element, in element order. |
| `Estab.FirstData` | cmd/estab/estab.go:199-200 | The position it returns has no data-finding field before it. It is a data-finding field unless it is the end of the list. |
| `Estab.ColumnKeptIff` | cmd/estab/estab.go:294-296 | Field i's column is in the row iff some field j with j <= i finds data. When it is there, it is field i's tokens joined by the separator. |
| `Estab.RowEmptyIff` | cmd/estab/estab.go:199-302 | The row has as many columns as there are fields from the first data-finding one on. It is empty iff no field finds data. |
| `Estab.RowExtends` | cmd/estab/estab.go:199-302 | Once a field has found data, every later field has a column whatever its value. Appending fields extends the row by their columns. |
| `Json.LookupIsFlat` | cmd/estab/estab.go:204 | `hit[f]` is flat: writing any key other than f leaves the value read for f unchanged. |
| `Json.DottedNameIsNotAPath` | cmd/estab/estab.go:204 | For a dotted field name `a.b`, whatever is stored under `a`, a nested object included, has no effect on the value read for `a.b`. |
| `Estab.Header` | cmd/estab/estab.go:180 | The header is the field names joined by the delimiter: each name sits at its offset in the line. |
| `Estab.HeaderRoundTrip` | cmd/estab/estab.go:179-181 | The header is the field names joined by the delimiter. With a one-character delimiter that no name contains, it splits back into exactly the field names. |
| `Strings.Join` | cmd/estab/estab.go:295 | `strings.Join` of one or more tokens is as long as the tokens together plus one separator per neighbouring pair, and begins with the first token. |
| `Strings.JoinContents` | cmd/estab/estab.go:295 | In a joined column, token i sits at its offset (the tokens before it, each followed by one separator), the separator follows it unless it is the last token, and the last token ends the string. |
| `Strings.JoinLength` | cmd/estab/estab.go:295 | The length of a joined column is the tokens' total length plus one separator per neighbouring pair. |
| `Strings.JoinSplitRoundTrip` | cmd/estab/estab.go:180 | Joining at least one token with a one-character separator that no token contains is undone by splitting on it. |
| `Estab.EmptyArrayLikeEmptyString` | cmd/estab/estab.go:224-238 | With zero-as-null off, the column of an empty array and the column of `[""]` are both the empty string, so a column cannot tell them apart. |
| `Estab.TwoTagsColumn` | cmd/estab/estab.go:224-250 | The array `["x","y"]` gives the column `x|y` with separator `|`. |
| `Estab.NameAndTagsRow` | cmd/estab/estab.go:199-302 | Fields name and tags, with name `"Alice"` and tags `["x","y"]`, give the columns `Alice` and `x|y`. |
| `Estab.NoDataRow` | cmd/estab/estab.go:199-302 | A null name and an empty tags array give no columns at all. |
| `Estab.LeadingFieldsDropped` | cmd/estab/estab.go:199-302 | For fields a, b, c with only b present as a non-empty string, the row is b's value then the placeholder for c. a's column is dropped. |
| `Estab.NilInsideArray` | cmd/estab/estab.go:226-250 | `["a", nil, "b"]` gives tokens `NA`, `b` (column `NA|b`) and still finds data. |

## Left out

- Flag parsing, the version and field checks, creating the output file, and building the query JSON (lines 27-114): configuration and I/O. The settings the row builder reads come in as `Estab.Config`.
- The Elasticsearch client, `Count` and the `Scan` cursor with its producer goroutine (lines 116-170): network calls into a library that is not part of this model.
- The consumer's loop over the hits channel, the errgroup, the cancellation checks and the final `g.Wait()` panic (lines 138, 186-187, 311-324): concurrency and cancellation. Each hit's row depends on that hit alone, so the model is `BuildRow` for one hit.
- The empty `if len(columns) > 0` block (lines 304-307): the row write in it is commented out, so it does nothing.
- The progress bar, pprof, `spew.Dump`, the `println`, the unterminated diagnostic `fmt.Printf` to stdout for an unknown array element, and the buffered writer with its flush (lines 61-68, 83, 110-112, 124, 133, 172-177, 252, 309, 327): instrumentation and I/O.
- Estab.HeaderRoundTrip: states the header string only. Whether it is printed depends on the `-header` flag, and `fmt.Fprintln` adds a newline and writes it; both are I/O.
- The internals of `%.0f`, of `FormatFloat` with `'G'`, and of `isFloatingPoint`, including its `int64` conversion, whose result for values outside the `int64` range depends on the platform: floating-point numerics, kept as the abstract fields of `Estab.NumberFormat`. The rounding of decoded JSON numbers to 64-bit floats is not modelled either.
- Negative zero: `Json.Num` carries a real, so JSON `-0` and `0` are one value. Go decodes `-0` to -0.0, for which `isFloatingPoint` is false (lines 410-412), and `%.0f` prints it as `-0` (lines 215, 243). No choice of `fixedZero` can give both `-0` and `0`, so the model does not distinguish these two columns.
- `round` (lines 415-427): floating-point arithmetic, and never called.
- The commented-out code: the nested-array branch (lines 254-287), the old scroll loop with `_id`, `_score` and one-value-per-line output (lines 329-407), and the `Response` struct (lines 429-464).
