# A Dafny model of the db package's SQL builder, row coercion and utilities

The Go package `db` is a thin helper over `database/sql`. This model covers the
three parts of it that do not need a database driver:

- **The statement builder** (`sql_builder.go`).
  - An `SQ` object holds a statement kind, the table, field, where, group,
    order and limit fragments, two value maps, the `ignore` and `unsafe`
    flags, and the dialect of its database.
  - `ToSql` renders INSERT [IGNORE], DELETE, UPDATE, INSERT … ON DUPLICATE
    KEY UPDATE or SELECT text with `?` placeholders. It rebuilds the positional
    argument list `args` as it goes.
  - `FullSql` inlines every argument as a SQL literal after its placeholder.
- **Row coercion** (`db.go`).
  - The tag map of a record type.
  - `reflectStruct`, which writes raw cells into record fields by field kind.
  - `queryAndReflectMap`, which builds schema-less rows.
  - The row loops of the query helpers, `Select`/`SelectOne`, the `OneRow`
    accessors, and the package's group/key cache.
- **Utilities** (`utils.go`): `Substr` on runes, the `Atoi` family with
  defaults, the integer formatters, the `sql.Null*` builders and `Ternary`.

Files and modules:

| file | module | contents |
|---|---|---|
| wrappers.dfy | `Wrappers` | `Option`, `Result` |
| utils.dfy | `Utils` | Go integer types, `strconv` base-10 parsing (`ParseInt`, `ParseUint`, with ErrRange clamping), formatters, `Atoi*`, `Substr`, `NewNull*`, `Ternary` |
| inliner.dfy | `Inliner` | the `interface{}` argument type `Arg`, SQL literals, `strings.Split` on `?`, `FullSql` as a loop and as placeholder substitution |
| sql_builder.dfy | `SqlBuilder` | `Values`, the `SQ` class (constructors, setters, `ToSql`, `buildUpdateParams`), and `Render`, the specification of `ToSql` |
| sql_properties.dfy | `SqlProperties` | what `ToSql` promises, for every visiting order of the value maps |
| db.dfy | `Db` | `Cache`, tag maps, `reflectStruct`, the row loops, `queryAndReflectMap`, `Query2Map(s)`, `Select`, `SelectOne`, `OneRow` |

How the model is set up:

- **Map visiting order.** Go's `range` over a map visits the keys in an
  unspecified order.
  - `ToSql` picks each next key nondeterministically from the keys not yet
    visited (`:|`). It returns the order it used as ghost outputs.
  - `Render(d, cols, cols2)` is the statement for a given order. Every
    property is proved for every order (`IsEnumeration`).
- **Arguments and integers.** Arguments are the closed datatype `Arg`: Go
  integers of each width, `*big.Int`, bool, string, nil, and `Other` for any
  other type. Go `int` is 64 bits wide.
- **Raw cells.** A raw cell is `None` (SQL NULL) or the bytes the driver
  returned. `string(b)` maps each byte to the character with that code.
- **Records.** A record is a sequence of field values, one per field, with
  the field kinds listed beside it. `reflect.Value` becomes an `array` that
  `ReflectStruct` writes in place.

Where the code and its documentation differ, the model follows the code:

- `queryAndReflectMap` calls `strconv.Atoi` and drops the error. An integer
  text out of the int64 range therefore yields the clamped bound, not 0. Only
  syntax errors and NULL give 0 (`StrconvAtoiValue`, `MapCell`).
- `reflectStruct` has no case for unsigned integer fields. Such fields are
  never written (`OtherField`).
- `Substr` reads only a single length argument. Two or more are ignored, as if
  none had been given.
- `Substr` works on 64-bit Go ints, so its arithmetic wraps around at the
  extremes and the final slice can panic (see Findings). `Substr` models the
  code as written, with `None` for the panic. `SubstrClamped` is the window its
  doc comment describes; the statement builder, which only calls `Substr(x, 1)`,
  uses that one, and `SubstrAgrees` shows the two agree wherever nothing wraps.

## Model

| member | source | states |
|---|---|---|
| Utils.Truncate | db.go:441-461 | converting to a narrower signed type (`SetInt` on an int8/16/32 field) gives the value congruent to the input modulo 2^bits within that type's range, and leaves in-range values alone |
| Utils.TruncateWide | db.go:441-461 | converting an int64 to int or int64 changes nothing |
| Utils.ParseUint | utils.go:45-56 | a successful `strconv.ParseUint` result is all digits and is their value, at most 2^64-1; a range error reports that bound |
| Utils.ParseInt | utils.go:31-42 | a successful `strconv.ParseInt` result is within int64; a range error reports the bound of the sign |
| Utils.UintRoundTrip | utils.go:87-105 | `ParseUint` reads back the base-10 text of every natural number |
| Utils.IntRoundTrip | utils.go:107-125 | `ParseInt` reads back the base-10 text of every int64 |
| Utils.AtoUi | utils.go:25-28 | `uint(Atoi64(s))`: the parsed value when non-negative, else that value plus 2^64 |
| Utils.Itoa | utils.go:107-110 | its text parses back to the input |
| Utils.I16toA | utils.go:112-115 | its text parses back to the input |
| Utils.I32toA | utils.go:117-120 | its text parses back to the input |
| Utils.I64toA | utils.go:122-125 | its text parses back to the input |
| Utils.UitoA | utils.go:87-90 | its text parses back to the input |
| Utils.Ui16toA | utils.go:92-95 | its text parses back to the input |
| Utils.Ui32toA | utils.go:97-100 | its text parses back to the input |
| Utils.Ui64toA | utils.go:102-105 | its text parses back to the input |
| Utils.AtoiRoundTrip | utils.go:12-42 | `Atoi64(I64toA(i), d) == i` and `Atoi(Itoa(i), d) == i` for every int64 and any defaults |
| Utils.AtoUi64RoundTrip | utils.go:45-56 | `AtoUi64(Ui64toA(u), d) == u` for every uint64 |
| Utils.AtoiFallback | utils.go:12-56 | a text with a non-digit (other than a leading sign) yields the first default, or 0 when none is given |
| Utils.AtoiEmpty | utils.go:31-42 | the empty text and a lone sign yield the default, or 0 |
| Utils.Atoi64 | utils.go:31-42 | a non-empty digit string within int64 gives its value; any text ParseInt accepts gives that value; any error gives the first default, or 0 |
| Utils.Atoi | utils.go:12-23 | the same promise as Atoi64, since Go's int is 64 bits wide |
| Utils.AtoUi64 | utils.go:45-56 | a non-empty digit string within uint64 gives its value; any error gives the first default, or 0 |
| Utils.DigitsParse | utils.go:45-56 | a non-empty digit string within uint64 parses to its value |
| Utils.Wrap | utils.go:188-208 | Go int arithmetic leaves in-range values alone |
| Utils.Substr | utils.go:173-212 | with 64-bit start and length and wrapping arithmetic: a start beyond the rune length gives "", and a result is never longer than the input |
| Utils.SubstrPanics | utils.go:186-212 | the slice panics exactly when start is MinInt64 and a length moves the end below 0, or start plus a positive length overflows |
| Utils.SubstrAgrees | utils.go:173-212 | where nothing wraps, Substr cuts the clamped window of its doc comment |
| Utils.SubstrWrapPanics | utils.go:188-212 | `Substr("abc", 1, MaxInt64)` and `Substr("abc", MinInt64, 2)` panic, where the clamped window gives "bc" and "ab" |
| Utils.SubstrWindow | utils.go:163-212 | on unbounded integers the clamped window always satisfies `0 <= start <= end <= rune length` |
| Utils.SubstrClamped | utils.go:163-212 | the doc comment's Substr: a start beyond the rune length gives "", and the result is never longer than the input |
| Utils.SubstrIsSlice | utils.go:163-212 | the doc comment's Substr always returns a contiguous run of the input's runes |
| Utils.SubstrDropsFirst | utils.go:173-212 | `Substr(s, 1)` drops exactly the first rune |
| Utils.SubstrExamples | utils.go:163-172 | the doc-comment examples on `abc你好1234` hold; none wraps, so Substr gives the same by SubstrAgrees |
| Utils.NewNullString | utils.go:137-146 | Valid iff the string is non-empty; reading NULL back as "" gives the input again |
| Utils.NewNullInt64 | utils.go:148-154 | Valid iff not isNull; the value is always carried |
| Utils.Ternary | utils.go:156-161 | the first value when the condition holds, the second otherwise |
| Inliner.StripQuotes | sql_builder.go:169-170 | after removing every `'` none is left; text without quotes is unchanged |
| Inliner.DoubleBackslashes | sql_builder.go:169-170 | doubling backslashes adds no quote; text without backslashes is unchanged |
| Inliner.UnescapeDoubled | sql_builder.go:169-170 | reading a MySQL literal's `\\` as `\` undoes the doubling |
| Inliner.Literal | sql_builder.go:136-175 | every supported argument has a literal; only an argument of another type is refused |
| Inliner.StringLiteralIsSafe | sql_builder.go:169-170 | a string literal is quoted, has no inner quote, and reads back as the argument without its quotes |
| Inliner.CountZero | sql_builder.go:123-126 | a character occurs exactly when its count is positive |
| Inliner.Split | sql_builder.go:126 | `strings.Split` on `?` gives at least one segment, none containing `?` |
| Inliner.JoinSplit | sql_builder.go:126 | joining the segments with `?` gives the text back, and there is one more segment than `?` |
| Inliner.InlineUpTo | sql_builder.go:128-179 | after n turns of the loop, min(n, len(args)) arguments have been consumed |
| Inliner.InlineUpToFails | sql_builder.go:132-175 | the loop fails exactly when one of the arguments it has reached has an unsupported type |
| Inliner.InlineFailureSticks | sql_builder.go:173-175 | once the loop has failed, that error is the outcome |
| Inliner.FullSql | sql_builder.go:122-182 | the loop over the segments returns `Inline(str, args)` |
| Inliner.InlineUpToSubstitutes | sql_builder.go:132-179 | with supported arguments, the first n turns produce the first n segments with the i-th `?` replaced by the i-th literal (or removed when the arguments have run out) |
| Inliner.InlineIsSubstitution | sql_builder.go:122-182 | on text with `?`, FullSql is the substitution of the literals into the text with one extra `?` appended |
| Inliner.InlineFillsPlaceholders | sql_builder.go:122-182 | with no more arguments than placeholders, each placeholder takes its own argument's literal (unchanged text when there is no `?`) |
| Inliner.InlineExtraArgument | sql_builder.go:132-179 | one argument more than placeholders: its literal lands after the last segment |
| Inliner.InlineFails | sql_builder.go:122-182 | FullSql fails exactly when the text has `?` and one of the first placeholders+1 arguments has an unsupported type |
| Inliner.InlineExample | sql_builder.go:122-182 | `FullSql("age > ?", 18)` is `age > 18` |
| SqlBuilder.Values.constructor | sql_builder.go:421-424 | `NewValues()` is empty |
| SqlBuilder.Values.Add | sql_builder.go:56-59 | the key then maps to the value; nothing else changes |
| SqlBuilder.Values.Del | sql_builder.go:61-64 | the key is gone; nothing else changes |
| SqlBuilder.Values.IsExist | sql_builder.go:66-72 | true iff the key is present |
| SqlBuilder.Values.Get | sql_builder.go:74-80 | the stored value, nil for a missing key |
| SqlBuilder.Values.GetString | sql_builder.go:82-90 | a non-empty result is a stored string; a stored string is returned |
| SqlBuilder.Values.GetInt | sql_builder.go:92-100 | a non-zero result is a stored Go int; a stored int is returned |
| SqlBuilder.Values.GetUint | sql_builder.go:102-110 | a non-zero result is a stored Go uint; a stored uint is returned |
| SqlBuilder.Values.GetInt64 | sql_builder.go:112-120 | a non-zero result is a stored int64; a stored int64 is returned |
| SqlBuilder.EnumerationFacts | sql_builder.go:208-214 | a visiting order lists every key exactly once |
| SqlBuilder.SomeEnumeration | sql_builder.go:208 | every key set has a visiting order |
| SqlBuilder.ArgsAligned | sql_builder.go:208-214 | the i-th collected argument is the value of the i-th visited key |
| SqlBuilder.VisitStep | sql_builder.go:208-214 | visiting one more key appends its column, its assignment and its value |
| SqlBuilder.LimitText | sql_builder.go:367-375 | `Limit(count)` stores text that parses back to count; `Limit(count, offset)` stores `offset,count`, each part parsing back |
| SqlBuilder.SQ.Insert | sql_builder.go:426-433 | an INSERT builder with fresh empty values and nil values2; IGNORE only for exactly one true flag |
| SqlBuilder.SQ.Delete | sql_builder.go:435-438 | a DELETE builder with both maps nil |
| SqlBuilder.SQ.Update | sql_builder.go:440-443 | an UPDATE builder with fresh empty values |
| SqlBuilder.SQ.InsertUpdate | sql_builder.go:445-448 | an INSERT … ON DUPLICATE KEY UPDATE builder with two distinct fresh maps |
| SqlBuilder.SQ.Select | sql_builder.go:450-457 | a SELECT builder whose field list is `*` unless exactly one is given |
| SqlBuilder.SQ.DB | sql_builder.go:332-336 | sets the dialect and nothing else |
| SqlBuilder.SQ.From | sql_builder.go:338-342 | sets the table and nothing else |
| SqlBuilder.SQ.Table | sql_builder.go:344-347 | the same as From |
| SqlBuilder.SQ.Where | sql_builder.go:349-353 | sets the where fragment and nothing else |
| SqlBuilder.SQ.Group | sql_builder.go:355-359 | sets the group fragment and nothing else |
| SqlBuilder.SQ.Order | sql_builder.go:361-365 | sets the order fragment and nothing else |
| SqlBuilder.SQ.Limit | sql_builder.go:367-375 | sets the limit fragment to `LimitText(count, offset)` |
| SqlBuilder.SQ.Unsafe | sql_builder.go:377-385 | on unless exactly one false flag is given |
| SqlBuilder.SQ.Debug | sql_builder.go:387-395 | on unless exactly one false flag is given |
| SqlBuilder.SQ.Value | sql_builder.go:397-401 | the builder shares the caller's map |
| SqlBuilder.SQ.Value2 | sql_builder.go:403-407 | the builder shares the caller's second map |
| SqlBuilder.SQ.AddValue | sql_builder.go:409-413 | writes the key into the shared map |
| SqlBuilder.SQ.AddValue2 | sql_builder.go:415-419 | writes the key into the shared second map |
| SqlBuilder.SQ.FullSql | sql_builder.go:464-472 | the given flag, or on when none or several are given |
| SqlBuilder.SQ.GetArgs | sql_builder.go:459-462 | the argument list the last ToSql collected |
| SqlBuilder.SQ.InsertFields | sql_builder.go:206-214 | the loop visits every key once, writes one backticked column per key and appends that key's value to args in the same step |
| SqlBuilder.SQ.BuildUpdateParams | sql_builder.go:318-329 | one `` `k`=? `` per key, with args extended by the values in the same order |
| SqlBuilder.SQ.BuildInsert | sql_builder.go:190-220 | the INSERT branch leaves exactly the text, error and args `Render` gives for the order it used |
| SqlBuilder.SQ.BuildDelete | sql_builder.go:221-237 | the DELETE branch agrees with `Render` |
| SqlBuilder.SQ.BuildUpdate | sql_builder.go:238-256 | the UPDATE branch agrees with `Render` |
| SqlBuilder.SQ.BuildInsertUpdate | sql_builder.go:257-283 | the INSERT … ON DUPLICATE KEY UPDATE branch agrees with `Render`, values before values2 |
| SqlBuilder.SQ.BuildSelect | sql_builder.go:284-307 | the SELECT branch agrees with `Render` |
| SqlBuilder.SQ.Finish | sql_builder.go:308-314 | with `returnFullSql` exactly one true flag, the text is FullSql of the rendered text and args (or its error); otherwise the rendered text |
| SqlBuilder.SQ.ToSql | sql_builder.go:186-315 | args is reset, and for some visiting order of each map the result is `Render` of the builder, inlined when asked |
| SqlProperties.InsertRefusals | sql_builder.go:190-198 | an empty table fails with "table cannot be empty", else empty values fail with "values cannot be empty"; INSERT succeeds exactly otherwise |
| SqlProperties.EmptyTableRendersNothing | sql_builder.go:221-222 | DELETE, UPDATE and INSERT … ON DUPLICATE KEY UPDATE on an empty table give "" with no error and no args |
| SqlProperties.UnsafeGuard | sql_builder.go:221-243 | DELETE/UPDATE of a named table fail exactly when where is empty and unsafe is off, with the kind's message |
| SqlProperties.LimitRule | sql_builder.go:233-306 | LIMIT is appended last, only for a non-empty limit and the "" or "mysql" dialect, and never to INSERT |
| SqlProperties.NoArgs | sql_builder.go:187 | SELECT and DELETE carry no args, and SELECT never fails |
| SqlProperties.Aligned | sql_builder.go:206-214 | as many args as visited keys as map entries, the i-th arg being the i-th key's value |
| SqlProperties.EveryValueRendered | sql_builder.go:206-214 | every entry of the map is rendered, at a column whose argument is its value |
| SqlProperties.InsertArgs | sql_builder.go:206-214 | INSERT args are aligned with the rendered columns |
| SqlProperties.InsertUpdateArgs | sql_builder.go:257-277 | the values' args come first, then the values2 args, each aligned with its own columns |
| SqlProperties.PlaceholdersCount | sql_builder.go:206 | `strings.Repeat(",?", n)` has n marks |
| SqlProperties.ColumnsCount | sql_builder.go:208-214 | the column list adds no `?` when no key has one |
| SqlProperties.AssignmentsCount | sql_builder.go:318-329 | the assignment list has one `?` per key |
| SqlProperties.PlaceholdersMatchArgs | sql_builder.go:186-307 | with no `?` in the fragments and keys, every rendered statement has exactly as many `?` as args |
| SqlProperties.InsertTextCount | sql_builder.go:199-220 | the INSERT text has one `?` per value |
| SqlProperties.UpdateTextCount | sql_builder.go:244-255 | the UPDATE text has one `?` per assignment |
| SqlProperties.InsertUpdateTextCount | sql_builder.go:259-282 | one `?` per value and one per assignment |
| SqlProperties.DeleteTextCount | sql_builder.go:227-236 | the DELETE text has no `?` |
| SqlProperties.SelectTextCount | sql_builder.go:285-306 | the SELECT text has no `?` |
| SqlProperties.FullSqlFillsRender | sql_builder.go:308-311 | with such fragments and supported arguments, `ToSql(true)` succeeds and each placeholder holds its own argument's literal |
| SqlProperties.SelectExample | sql_builder.go:284-306 | `Select("id,name").From("user").Where("age > 18").Limit(10)` renders `SELECT id,name FROM user WHERE age > 18 LIMIT 10` |
| SqlProperties.DeleteAllRefused | sql_builder.go:221-226 | `Delete().From("user")` is refused |
| SqlProperties.InsertExample | sql_builder.go:190-220 | `Insert().Table("user").AddValue("age", 18)` renders ``INSERT INTO user (`age`) VALUES (?)`` with args [18] |
| Db.GroupOf | db.go:49-59 | the group is the first optional argument, else "default" |
| Db.Cache.constructor | db.go:44-46 | the cache starts with an empty default group |
| Db.Cache.Lookup | db.go:63-76 | a value is found exactly when its group and key exist |
| Db.Cache.Get | db.go:63-76 | the stored value in the named or default group, nil when the group or key is missing |
| Db.Cache.Set | db.go:49-60 | a missing group is created; Get then returns the value; every other group and key is unchanged |
| Db.Cache.Del | db.go:79-91 | the key is removed from its group only; every other group and key is unchanged |
| Db.TagIndex | db.go:154-161 | one more than the index of the last field with a non-empty tag, 0 when no field carries it |
| Db.TagMapOf | db.go:154-161 | every entry names a field carrying that tag, and every tagged field is reached by its own tag or a later duplicate |
| Db.BuildTagMap | db.go:154-161 | the loop builds `TagMapOf(tags)`: a later field with the same tag overwrites an earlier one |
| Db.TagMapLookup | db.go:414-418 | looking a column up in the tag map gives `TagIndex`, and 0 for an unknown column |
| Db.Text | db.go:420-431 | `string(b)` has one character per byte with that byte's code |
| Db.TextOfBytes | db.go:420-431 | the bytes of a text read back as that text |
| Db.Zero | db.go:353 | Go's zero value has the field's kind |
| Db.Coerce | db.go:419-462 | coercing a cell keeps the field's kind (and the range of its integer width) |
| Db.Reflected | db.go:412-464 | the record after the column pass stays well typed |
| Db.ReflectStruct | db.go:412-464 | the loop writes the record in place to `Reflected` |
| Db.ReflectUnmapped | db.go:414-418 | a field no column maps to keeps its value |
| Db.ReflectLastWins | db.go:412-464 | the last column mapped to a field decides it |
| Db.CoerceNull | db.go:420-461 | NULL gives false, "", 0, and leaves byte slices unchanged |
| Db.CoerceStringRoundTrip | db.go:426-431 | a string field receives the text of the cell |
| Db.CoerceIntRoundTrip | db.go:447-460 | an int64 field receives the value of a base-10 cell |
| Db.CoerceBoolRoundTrip | db.go:420-425 | a bool field is false exactly for the text "false" |
| Db.CoerceUnparsable | db.go:448-452 | text that is not base 10 leaves an integer field unchanged |
| Db.FillRecord | db.go:353-366 | a fresh zero record filled from one row |
| Db.QueryAndReflectOne | db.go:329-369 | ErrNoRows for an empty result, else the first row's record; later rows are never read |
| Db.QueryAndReflect | db.go:372-410 | one record per row, in row order; no rows give an empty result without error |
| Db.QueryStruct | db.go:135-172 | the tag map of the record type, then the single-record rule |
| Db.QueryStructs | db.go:174-217 | the tag map of the element type, then one record per row |
| Db.ShadowedFieldStaysZero | db.go:154-161 | a field without a tag, or whose tag a later field repeats, keeps its zero value |
| Db.TaggedFieldTakesLastColumn | db.go:412-464 | the field that carries a column's name as its last tag takes that column's cell |
| Db.Assemble | db.go:566-583 | writing one entry per column leaves exactly the column names as keys |
| Db.AssembleLast | db.go:566-583 | under each name sits the value of the last column with that name |
| Db.MapCell | db.go:308-320 | integer columns give integers and text columns give strings |
| Db.ReflectMap | db.go:281-326 | the loop adds `RowMap` to the map it is given |
| Db.RowMapKeys | db.go:281-326 | exactly one key per column name |
| Db.RowMapCell | db.go:281-326 | each name holds its last column's value in that column's category |
| Db.TextCellValues | db.go:284-297 | text scan types outside DECIMAL read NULL as "" and any other cell as its text; a DECIMAL column is a float, numeric zero for NULL |
| Db.IntCellValues | db.go:308-320 | integer columns read NULL and non-numbers as 0 and base-10 numbers as themselves |
| Db.Query2Maps | db.go:220-246 | one map per row, in row order |
| Db.Query2Map | db.go:249-278 | ErrNoRows for an empty result, else the first row's map |
| Db.CellText | db.go:574-581 | a NULL cell reads as "" |
| Db.AssembleRow | db.go:574-581 | the inner loop builds the row map of the raw values |
| Db.Select | db.go:544-586 | one map per row, in row order |
| Db.SelectRowCells | db.go:574-581 | one key per column, holding the last same-named column's text, "" for NULL |
| Db.SelectOne | db.go:588-597 | the first row, or an empty row when there is none |
| Db.Exist | db.go:506-513 | true exactly when the row has the field |
| Db.Get | db.go:514-521 | the field's text, "" when the field is missing |
| Db.GetInt | db.go:522-529 | the field's value when it is base 10 within int64, else 0, including a missing field |
| Db.GetInt64 | db.go:530-537 | the same promise as GetInt, through Atoi64 |
| Db.Set | db.go:538-541 | the field holds the new text, the keys gain exactly that field, and no other field changes |
| Db.OneRowSetGet | db.go:504-541 | after Set the field exists and reads back; other fields are unchanged; a missing field reads "" and 0 |
| Db.OneRowIntRoundTrip | db.go:523-537 | integers stored with Itoa/I64toA read back with GetInt/GetInt64 |

## Left out

- Driver I/O is not modelled. This covers `Database.Exec`/`Query`/`QueryRow`/`Close`, `rows.Scan`, `Columns`/`ColumnTypes`, `LastInsertId`/`RowsAffected`, `Update`/`Delete`/`Insert`, and the `SQ.Exec`/`Query`/`QueryOne`/`QueryAllRow`/`QueryRow` wrappers. Result sets are inputs (column list and rows), so driver errors (query, column listing, scan, `rows.Err`) do not occur in the model.
- The asynchronous queue (`queueList`, `Database.Queue`) is left out: it is concurrency only.
- Floating point is not modelled.
  - `Atof`/`Atof64`/`F32toA`/`F64toA` and the float cases of `FullSql` are absent.
  - Record fields of float kind do not occur in the model.
  - `queryAndReflectMap`'s float category keeps the text it would parse (`MFloat`), not the number.
- `reflect` kind checks on the destination (pointer, struct, slice) are replaced by a statically given list of field kinds.
  - Kinds outside `reflectStruct`'s switch (unsigned integers, maps, structs and so on) are `OtherField` and are never written.
  - `BytesField` stands for `[]byte`. A field of another slice kind (`[]string`, `[]int`) goes through `SetBytes` as well and panics on a non-NULL cell. The model has no such kind.
- `fmt.Sprint` of a raw value (the default branch of `queryAndReflectMap`) stays symbolic (`MSprint`). The non-`[]byte` fallback in the integer cases is absent: cells are always bytes or NULL.
- Ternary: modelled on one type parameter rather than `interface{}`.
- Logging (`logWari`, the debug output) and the package globals (`Obj`, `lastError`, `LastErr`) are left out.
- Panics of the source are preconditions.
  - `AddValue` on a nil map.
  - Indexing a field beyond the record (`TagsFit`).
- `ToSql` reads `q.db.Type` whenever the limit is non-empty (sql_builder.go:233, 252, 279, 303), and panics when the builder has no database. This panic is not modelled: the dialect is a plain string field.
- Each row has exactly one cell per column (`Rectangular`), because the scan buffers are sized by the column list. A count mismatch would be a `rows.Scan` error, which belongs to the driver I/O left out above.
- `reflectStruct`'s byte slices do not distinguish a nil slice from an empty one.
- Strings are sequences of runes. UTF-8 decoding of raw bytes is not modelled: each byte is one character.
- The setters return nothing; Go's method chaining (returning the receiver) is left out.
- `OneRow` is a Go map, but the model treats it as a value. `Set` returns the updated row, so aliasing of the map reference is not modelled.
- `Values` is a class, so the builder and its caller share one map as in Go.
- `SQ.Debug` only sets its flag; the debug output is not modelled.

## Findings

| source | as written | input that shows it | evidently intended | confidence | as-written member | corrected member |
|---|---|---|---|---|---|---|
| utils.go:188, 197, 212 | `-start` and `end += start` are 64-bit int operations that wrap, and `rs[start:end]` then panics | `Substr("abc", 1, math.MaxInt64)`; `Substr("abc", math.MinInt64, 2)` | the end is clamped to the rune length and the start to 0, as the surrounding code does for every value that does not overflow, giving "bc" and "ab" | not executed; follows from Go's specified int wrap-around and slice bounds check | Utils.SubstrWrapPanics | Utils.SubstrClamped |
