/**
 The row builder of `estab`: for each search hit, walk the requested fields in
 order, turn each field's value into a list of text tokens, join the tokens
 of a field into one column, and keep a column only once some field of the
 hit, this one or an earlier one, has produced data. Also the header line.
 */
module Estab {
  import opened Json
  import opened Strings

  /** The three numeric primitives of the Go runtime that the row builder
      relies on, left abstract: the test `float64(int64(v)) != v`, the
      zero-decimal format `%.0f`, and `strconv.FormatFloat(v, 'G', p, 64)`. */
  datatype NumberFormat = NumberFormat(
    isFloatingPoint: real -> bool,
    fixedZero: real -> string,
    general: (real, int) -> string)

  /** The command-line settings the row builder reads: `-null`,
      `-separator`, `-zero-as-null` and `-precision`, with the numeric
      primitives. */
  datatype Config = Config(
    nullValue: string,
    separator: string,
    zeroAsNull: bool,
    precision: int,
    num: NumberFormat)

  // ---------------------------------------------------------------------
  // Tokens of single values

  /** A string passes through, except that an empty one becomes the null
      placeholder when zero-as-null is on. */
  function StringToken(s: string, cfg: Config): string
  {
    if s == "" && cfg.zeroAsNull then cfg.nullValue else s
  }

  /** An integral number in zero-decimal format, any other number in the
      general format with the configured precision. */
  function NumberToken(x: real, cfg: Config): string
  {
    if !cfg.num.isFloatingPoint(x) then cfg.num.fixedZero(x)
    else cfg.num.general(x, cfg.precision)
  }

  /** `strconv.FormatBool`. */
  function FormatBool(b: bool): string
  {
    if b then "true" else "false"
  }

  /** The values the type switch formats: strings, numbers and booleans. */
  predicate IsScalar(v: Value)
  {
    v.Str? || v.Num? || v.Bool?
  }

  function Token(v: Value, cfg: Config): string
    requires IsScalar(v)
  {
    match v
    case Str(s) => StringToken(s, cfg)
    case Num(x) => NumberToken(x, cfg)
    case Bool(b) => FormatBool(b)
  }

  /** What a value adds to a token list it is appended to: its token when it
      is a scalar, nothing otherwise. */
  function ScalarTokens(v: Value, cfg: Config): seq<string>
  {
    if IsScalar(v) then [Token(v, cfg)] else []
  }

  // ---------------------------------------------------------------------
  // Tokens of arrays

  /** One step of the walk over an array's elements: a nil element replaces
      everything gathered so far by the null placeholder; any other element
      appends what it adds. */
  function ElementStep(c: seq<string>, e: Value, cfg: Config): seq<string>
  {
    if e.Null? then [cfg.nullValue] else c + ScalarTokens(e, cfg)
  }

  /** The token list after walking the elements in order from an empty list. */
  function ArrayTokens(es: seq<Value>, cfg: Config): seq<string>
    decreases |es|
  {
    if es == [] then [] else ElementStep(ArrayTokens(es[..|es| - 1], cfg), es[|es| - 1], cfg)
  }

  /** Reference definition: every element's own tokens, concatenated in
      element order, with no resetting. */
  function ElementTokens(es: seq<Value>, cfg: Config): seq<string>
    decreases |es|
  {
    if es == [] then [] else ElementTokens(es[..|es| - 1], cfg) + ScalarTokens(es[|es| - 1], cfg)
  }

  /** The elements that produce a token, in order. */
  function Scalars(es: seq<Value>): (r: seq<Value>)
    ensures forall i :: 0 <= i < |r| ==> IsScalar(r[i])
    decreases |es|
  {
    if es == [] then []
    else Scalars(es[..|es| - 1]) + (if IsScalar(es[|es| - 1]) then [es[|es| - 1]] else [])
  }

  /** The position of the last nil element, or -1 when there is none. */
  function LastNil(es: seq<Value>): (k: int)
    ensures -1 <= k < |es|
    ensures k >= 0 ==> es[k].Null?
    ensures forall j :: k < j < |es| ==> !es[j].Null?
    decreases |es|
  {
    if es == [] then -1
    else if es[|es| - 1].Null? then |es| - 1
    else LastNil(es[..|es| - 1])
  }

  /** Some element of the array is a scalar; the walk sets the found-data
      flag exactly then, whether or not a later nil discards its token. */
  predicate ArrayFound(es: seq<Value>)
  {
    exists i :: 0 <= i < |es| && IsScalar(es[i])
  }

  // ---------------------------------------------------------------------
  // Tokens and column of one field

  /** The token list the type switch builds for a field's value. */
  function FieldTokens(v: Value, cfg: Config): seq<string>
  {
    match v
    case Null => [cfg.nullValue]
    case Arr(es) => ArrayTokens(es, cfg)
    case _ => ScalarTokens(v, cfg)
  }

  /** The value sets the found-data flag. */
  predicate FindsData(v: Value)
  {
    IsScalar(v) || (v.Arr? && ArrayFound(v.elems))
  }

  /** The column text of a field's value. */
  function Column(v: Value, cfg: Config): string
  {
    Join(FieldTokens(v, cfg), cfg.separator)
  }

  // ---------------------------------------------------------------------
  // The row

  /** The position of the first field whose value finds data, or the number
      of fields when none does. */
  function FirstData(hit: Hit, fields: seq<string>): (k: nat)
    ensures k <= |fields|
    ensures forall j :: 0 <= j < k ==> !FindsData(Lookup(hit, fields[j]))
    ensures k < |fields| ==> FindsData(Lookup(hit, fields[k]))
    decreases |fields|
  {
    if fields == [] then 0
    else if FindsData(Lookup(hit, fields[0])) then 0
    else 1 + FirstData(hit, fields[1..])
  }

  /** The columns of a hit: one per field from the first data-finding field
      to the last, in field order. */
  function Row(hit: Hit, fields: seq<string>, cfg: Config): seq<string>
  {
    var k := FirstData(hit, fields);
    seq(|fields| - k, i requires 0 <= i < |fields| - k => Column(Lookup(hit, fields[k + i]), cfg))
  }

  /** The type switch on one field's value. `foundData` is the hit's flag as
      it stands before this field; the new flag is returned. */
  method CoerceField(value: Value, foundData: bool, cfg: Config) returns (c: seq<string>, found: bool)
    ensures c == FieldTokens(value, cfg)
    ensures found == (foundData || FindsData(value))
  {
    c := [];
    found := foundData;
    match value {
      case Str(s) =>
        found := true;
        c := c + [StringToken(s, cfg)];
      case Num(x) =>
        found := true;
        c := c + [NumberToken(x, cfg)];
      case Bool(b) =>
        found := true;
        c := c + [FormatBool(b)];
      case Null =>
        c := [cfg.nullValue];
      case Arr(es) =>
        c, found := CoerceArray(es, foundData, cfg);
      case Other =>
    }
  }

  /** The walk over an array's elements, with the nested type switch. */
  method CoerceArray(es: seq<Value>, foundData: bool, cfg: Config) returns (c: seq<string>, found: bool)
    ensures c == ArrayTokens(es, cfg)
    ensures found == (foundData || ArrayFound(es))
  {
    c := [];
    found := foundData;
    for i := 0 to |es|
      invariant c == ArrayTokens(es[..i], cfg)
      invariant found == (foundData || ArrayFound(es[..i]))
    {
      ArrayStep(es, i, cfg);
      match es[i] {
        case Null =>
          c := [cfg.nullValue];
        case Str(s) =>
          found := true;
          c := c + [StringToken(s, cfg)];
        case Num(x) =>
          found := true;
          c := c + [NumberToken(x, cfg)];
        case Bool(b) =>
          found := true;
          c := c + [FormatBool(b)];
        case _ =>
          // an unterminated diagnostic goes to stdout; nothing is added
      }
    }
    assert es[..|es|] == es;
  }

  /** How the walk's tokens and found-data flag change from a prefix of the
      elements to the prefix one longer. */
  lemma ArrayStep(es: seq<Value>, i: nat, cfg: Config)
    requires i < |es|
    ensures ArrayTokens(es[..i + 1], cfg) == ElementStep(ArrayTokens(es[..i], cfg), es[i], cfg)
    ensures ArrayFound(es[..i + 1]) == (ArrayFound(es[..i]) || IsScalar(es[i]))
  {
    assert es[..i + 1][..i] == es[..i];
    assert es[..i + 1][i] == es[i];
    if ArrayFound(es[..i]) {
      var j :| 0 <= j < i && IsScalar(es[..i][j]);
      assert es[..i + 1][j] == es[..i][j];
    }
    if ArrayFound(es[..i + 1]) && !IsScalar(es[i]) {
      var j :| 0 <= j < i + 1 && IsScalar(es[..i + 1][j]);
      assert es[..i][j] == es[..i + 1][j];
    }
  }

  /** The loop over the fields of one hit. The found-data flag is initialised to
      false once per hit, before the loop, so a column is kept from the first field that
      finds data onwards. */
  method BuildRow(hit: Hit, fields: seq<string>, cfg: Config) returns (columns: seq<string>)
    ensures columns == Row(hit, fields, cfg)
  {
    ghost var first := FirstData(hit, fields);
    columns := [];
    var foundData := false;
    for k := 0 to |fields|
      invariant foundData == (first < k)
      invariant |columns| == if first < k then k - first else 0
      invariant forall i :: 0 <= i < |columns| ==> columns[i] == Column(Lookup(hit, fields[first + i]), cfg)
    {
      var c;
      c, foundData := CoerceField(Lookup(hit, fields[k]), foundData, cfg);
      if foundData {
        columns := columns + [Join(c, cfg.separator)];
      }
    }
  }

  /** The header line printed before the rows when `-header` is given. */
  function Header(fields: seq<string>, delimiter: string): (line: string)
    ensures forall i :: 0 <= i < |fields| ==>
      Offset(fields, delimiter, i) + |fields[i]| <= |line| &&
      line[Offset(fields, delimiter, i)..Offset(fields, delimiter, i) + |fields[i]|] == fields[i]
  {
    JoinHoldsTokens(fields, delimiter);
    Join(fields, delimiter)
  }

  // ---------------------------------------------------------------------
  // Properties of single values

  /** A top-level string gives exactly one token, itself or the placeholder
      when it is empty under zero-as-null, and finds data; as an array
      element it appends that token. */
  lemma StringField(s: string, es: seq<Value>, cfg: Config)
    ensures FieldTokens(Str(s), cfg) == [if s == "" && cfg.zeroAsNull then cfg.nullValue else s]
    ensures Column(Str(s), cfg) == if s == "" && cfg.zeroAsNull then cfg.nullValue else s
    ensures FindsData(Str(s))
    ensures ArrayTokens(es + [Str(s)], cfg) == ArrayTokens(es, cfg) + [StringToken(s, cfg)]
    ensures ArrayFound(es + [Str(s)])
  {
  }

  /** A number gives one token, from the zero-decimal format when it is not
      floating point and from the general format otherwise, and finds data,
      at top level and as an array element. */
  lemma NumberField(x: real, es: seq<Value>, cfg: Config)
    ensures FieldTokens(Num(x), cfg) ==
      [if cfg.num.isFloatingPoint(x) then cfg.num.general(x, cfg.precision) else cfg.num.fixedZero(x)]
    ensures Column(Num(x), cfg) ==
      if cfg.num.isFloatingPoint(x) then cfg.num.general(x, cfg.precision) else cfg.num.fixedZero(x)
    ensures FindsData(Num(x))
    ensures ArrayTokens(es + [Num(x)], cfg) == ArrayTokens(es, cfg) + [NumberToken(x, cfg)]
    ensures ArrayFound(es + [Num(x)])
  {
  }

  /** A boolean gives "true" or "false" and finds data, at top level and as
      an array element. */
  lemma BoolField(b: bool, es: seq<Value>, cfg: Config)
    ensures FieldTokens(Bool(b), cfg) == [if b then "true" else "false"]
    ensures Column(Bool(b), cfg) == if b then "true" else "false"
    ensures FindsData(Bool(b))
    ensures ArrayTokens(es + [Bool(b)], cfg) == ArrayTokens(es, cfg) + [if b then "true" else "false"]
    ensures ArrayFound(es + [Bool(b)])
  {
  }

  /** A missing key and a JSON null both give exactly the placeholder token
      and do not find data. */
  lemma MissingOrNullField(hit: Hit, f: string, cfg: Config)
    requires f !in hit || hit[f] == Null
    ensures FieldTokens(Lookup(hit, f), cfg) == [cfg.nullValue]
    ensures Column(Lookup(hit, f), cfg) == cfg.nullValue
    ensures !FindsData(Lookup(hit, f))
  {
  }

  /** A value of a type the switch does not know adds no token and finds no
      data, both as an array element (a nested array or object) and at top
      level. */
  lemma UnrecognisedAddsNothing(e: Value, es: seq<Value>, cfg: Config)
    requires e.Arr? || e.Other?
    ensures ArrayTokens(es + [e], cfg) == ArrayTokens(es, cfg)
    ensures ArrayFound(es + [e]) == ArrayFound(es)
    ensures FieldTokens(Other, cfg) == [] && Column(Other, cfg) == ""
    ensures !FindsData(Other)
  {
  }

  // ---------------------------------------------------------------------
  // Properties of arrays

  /** A nil element throws away what was gathered and leaves the placeholder
      alone, but data found before it stays found. */
  lemma NilElementResets(es: seq<Value>, cfg: Config)
    ensures ArrayTokens(es + [Null], cfg) == [cfg.nullValue]
    ensures ArrayFound(es + [Null]) == ArrayFound(es)
  {
  }

  /** An empty array gives no tokens, so an empty column, and finds no data. */
  lemma EmptyArrayField(cfg: Config)
    ensures FieldTokens(Arr([]), cfg) == []
    ensures Column(Arr([]), cfg) == ""
    ensures !FindsData(Arr([]))
  {
  }

  /** With zero-as-null off, an empty array and an array holding one empty
      string give the same column, the empty string: the column cannot tell
      them apart. */
  lemma EmptyArrayLikeEmptyString(cfg: Config)
    requires !cfg.zeroAsNull
    ensures Column(Arr([]), cfg) == Column(Arr([Str("")]), cfg) == ""
  {
    assert [Str("")] == [] + [Str("")];
  }

  /** The walk over an array gives the placeholder followed by the tokens of
      the elements after the last nil, or, when there is no nil, the tokens
      of all elements. */
  lemma {:induction false} ArrayTokensAfterLastNil(es: seq<Value>, cfg: Config)
    ensures ArrayTokens(es, cfg) ==
      (if LastNil(es) < 0 then [] else [cfg.nullValue]) + ElementTokens(es[LastNil(es) + 1..], cfg)
    decreases |es|
  {
    if es != [] {
      var init, e := es[..|es| - 1], es[|es| - 1];
      if e.Null? {
        assert es[|es|..] == [];
      } else {
        ArrayTokensAfterLastNil(init, cfg);
        var k := LastNil(es);
        assert k == LastNil(init);
        var tail := es[k + 1..];
        assert tail[..|tail| - 1] == init[k + 1..];
        assert tail[|tail| - 1] == e;
      }
    }
  }

  /** The reference concatenation holds one token per scalar element, in
      element order. */
  lemma {:induction false} ElementTokensInOrder(es: seq<Value>, cfg: Config)
    ensures |ElementTokens(es, cfg)| == |Scalars(es)|
    ensures forall i :: 0 <= i < |Scalars(es)| ==> ElementTokens(es, cfg)[i] == Token(Scalars(es)[i], cfg)
    decreases |es|
  {
    if es != [] {
      ElementTokensInOrder(es[..|es| - 1], cfg);
    }
  }

  /** With no nil element, the walk yields exactly the tokens of the scalar
      elements, one each, in element order. */
  lemma {:induction false} NilFreeArrayTokens(es: seq<Value>, cfg: Config)
    requires forall i :: 0 <= i < |es| ==> !es[i].Null?
    ensures |ArrayTokens(es, cfg)| == |Scalars(es)|
    ensures forall i :: 0 <= i < |Scalars(es)| ==> ArrayTokens(es, cfg)[i] == Token(Scalars(es)[i], cfg)
  {
    ArrayTokensAfterLastNil(es, cfg);
    assert es[0..] == es;
    ElementTokensInOrder(es, cfg);
  }

  // ---------------------------------------------------------------------
  // Properties of the row

  /** The column of field `i` is in the row exactly when field `i` or an
      earlier one finds data, and then it is that field's column. */
  lemma ColumnKeptIff(hit: Hit, fields: seq<string>, cfg: Config, i: nat)
    requires i < |fields|
    ensures FirstData(hit, fields) <= i <==> exists j :: 0 <= j <= i && FindsData(Lookup(hit, fields[j]))
    ensures FirstData(hit, fields) <= i ==>
      Row(hit, fields, cfg)[i - FirstData(hit, fields)] == Column(Lookup(hit, fields[i]), cfg)
  {
  }

  /** The row has one column per field from the first data-finding field on,
      and is empty exactly when no field finds data. */
  lemma RowEmptyIff(hit: Hit, fields: seq<string>, cfg: Config)
    ensures |Row(hit, fields, cfg)| == |fields| - FirstData(hit, fields)
    ensures Row(hit, fields, cfg) == [] <==> forall j :: 0 <= j < |fields| ==> !FindsData(Lookup(hit, fields[j]))
  {
  }

  /** Once a field has found data, every later field gets a column, whatever
      its value: fields appended after it extend the row by their columns. */
  lemma {:induction false} RowExtends(hit: Hit, fields: seq<string>, more: seq<string>, cfg: Config)
    requires FirstData(hit, fields) < |fields|
    ensures FirstData(hit, fields + more) == FirstData(hit, fields)
    ensures Row(hit, fields + more, cfg) ==
      Row(hit, fields, cfg) + seq(|more|, i requires 0 <= i < |more| => Column(Lookup(hit, more[i]), cfg))
    decreases |fields|
  {
    if !FindsData(Lookup(hit, fields[0])) {
      assert (fields + more)[1..] == fields[1..] + more;
      RowExtends(hit, fields[1..], more, cfg);
    }
  }

  /** The header line splits back into the field names when the delimiter is
      one character that no field name contains (the default tab, since the
      names come from splitting the `-f` flag on white space). */
  lemma HeaderRoundTrip(fields: seq<string>, d: char)
    requires |fields| > 0
    requires forall i :: 0 <= i < |fields| ==> d !in fields[i]
    ensures SplitOn(Header(fields, [d]), d) == fields
  {
    JoinSplitRoundTrip(fields, d);
  }

  // ---------------------------------------------------------------------
  // Worked rows

  /** Two string elements joined by the separator. */
  lemma TwoTagsColumn(cfg: Config)
    requires cfg.separator == "|"
    ensures Column(Arr([Str("x"), Str("y")]), cfg) == "x|y"
  {
    StringField("x", [], cfg);
    StringField("y", [Str("x")], cfg);
    assert [Str("x")] + [Str("y")] == [Str("x"), Str("y")];
    assert ArrayTokens([Str("x"), Str("y")], cfg) == ["x", "y"];
  }

  /** Fields "name" and "tags"; a hit with a name and two tags gives the
      name and the tags joined by the separator. */
  lemma NameAndTagsRow(hit: Hit, name: string, tags: string, cfg: Config)
    requires name in hit && hit[name] == Str("Alice")
    requires tags in hit && hit[tags] == Arr([Str("x"), Str("y")])
    requires cfg.separator == "|"
    ensures Row(hit, [name, tags], cfg) == ["Alice", "x|y"]
  {
    var fields := [name, tags];
    assert FindsData(Lookup(hit, fields[0]));
    assert FirstData(hit, fields) == 0;
    var r := Row(hit, fields, cfg);
    assert |r| == 2;
    assert r[0] == Column(Str("Alice"), cfg) by {
      StringField("Alice", [], cfg);
    }
    assert Lookup(hit, fields[1]) == Arr([Str("x"), Str("y")]);
    assert r[1] == Column(Lookup(hit, fields[1]), cfg);
    TwoTagsColumn(cfg);
    assert r == ["Alice", "x|y"];
  }

  /** A hit where the name is null and the tags are an empty array finds no
      data, so it has no columns at all. */
  lemma NoDataRow(hit: Hit, name: string, tags: string, cfg: Config)
    requires name in hit && hit[name] == Null
    requires tags in hit && hit[tags] == Arr([])
    ensures Row(hit, [name, tags], cfg) == []
  {
  }

  /** Leading fields without data are dropped, later ones are kept: with
      fields a, b, c of which only b is present, the row is the value of b
      and the placeholder for c. */
  lemma LeadingFieldsDropped(hit: Hit, a: string, b: string, c: string, v: string, cfg: Config)
    requires a !in hit && c !in hit
    requires b in hit && hit[b] == Str(v) && v != ""
    ensures Row(hit, [a, b, c], cfg) == [v, cfg.nullValue]
  {
    var fields := [a, b, c];
    assert FirstData(hit, fields) == 1 by {
      assert Lookup(hit, fields[0]) == Null;
      assert Lookup(hit, fields[1]) == Str(v);
      assert fields[1..] == [b, c];
      assert FirstData(hit, fields[1..]) == 0;
    }
    assert Column(Lookup(hit, b), cfg) == v by {
      assert FieldTokens(Str(v), cfg) == [v];
    }
    assert Column(Lookup(hit, c), cfg) == cfg.nullValue by {
      assert FieldTokens(Null, cfg) == [cfg.nullValue];
    }
    var r := Row(hit, fields, cfg);
    assert |r| == 2;
    assert r[0] == v;
    assert r[1] == cfg.nullValue;
    assert r == [v, cfg.nullValue];
  }

  /** A nil inside an array discards the tokens before it, but still counts
      as having found data. */
  lemma NilInsideArray(num: NumberFormat)
    ensures FieldTokens(Arr([Str("a"), Null, Str("b")]), Config("NA", "|", false, 2, num)) == ["NA", "b"]
    ensures Column(Arr([Str("a"), Null, Str("b")]), Config("NA", "|", false, 2, num)) == "NA|b"
    ensures FindsData(Arr([Str("a"), Null, Str("b")]))
  {
    var cfg := Config("NA", "|", false, 2, num);
    var es := [Str("a"), Null, Str("b")];
    assert es[..2] == [Str("a")] + [Null];
    NilElementResets([Str("a")], cfg);
    assert es == es[..2] + [Str("b")];
    StringField("b", es[..2], cfg);
    assert IsScalar(es[0]);
  }
}
