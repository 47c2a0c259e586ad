/** The driver-independent logic of db.go: the process-wide cache, the
    tag map of a record type, the coercion of raw cells into record fields
    (reflectStruct) and into schema-less maps (queryAndReflectMap), and the
    row loops of the query helpers. A result set is given as its column list
    and its rows; a raw cell is SQL NULL or the bytes the driver returned. */
module Db {
  import opened Wrappers
  import opened Utils

  // ---------------------------------------------------------------------------
  // cache (db.go:39-91): group -> key -> value, updated in place

  const DefaultGroup := "default"

  /** The group named by the optional variadic argument. */
  function GroupOf(args: seq<string>): (g: string)
    ensures args == [] ==> g == DefaultGroup
    ensures args != [] ==> g == args[0]
  {
    if |args| > 0 then args[0] else DefaultGroup
  }

  class Cache<V> {
    var data: map<string, map<string, V>>

    /** Every write without a group goes to the default group, so it must exist. */
    predicate Valid()
      reads this
    {
      DefaultGroup in data
    }

    /** The package's init: an empty cache whose default group exists (Init). */
    constructor ()
      ensures data == map[DefaultGroup := map[]]
      ensures Valid()
    {
      data := map[DefaultGroup := map[]];
    }

    /** The value stored under key in group g, None where Go returns nil. */
    function Lookup(g: string, key: string): (r: Option<V>)
      reads this
      ensures r.Some? <==> g in data && key in data[g]
    {
      if g in data && key in data[g] then Some(data[g][key]) else None
    }

    /** Get(key, args...): the lookup in the named (or default) group. */
    function Get(key: string, args: seq<string>): (r: Option<V>)
      reads this
      ensures r.Some? ==> GroupOf(args) in data && key in data[GroupOf(args)] && r.value == data[GroupOf(args)][key]
      ensures r.None? ==> GroupOf(args) !in data || key !in data[GroupOf(args)]
    {
      Lookup(GroupOf(args), key)
    }

    /** Set(key, value, args...): a missing named group is created first. */
    method Set(key: string, value: V, args: seq<string>)
      requires Valid()
      modifies this
      ensures Valid()
      ensures data == old(data)[GroupOf(args) :=
        (if GroupOf(args) in old(data) then old(data)[GroupOf(args)] else map[])[key := value]]
      ensures Get(key, args) == Some(value)
      ensures forall g, k :: (g, k) != (GroupOf(args), key) ==> Lookup(g, k) == old(Lookup(g, k))
    {
      var group: string;
      if |args| > 0 {
        group := args[0];
        if group !in data {
          data := data[group := map[]];
        }
      } else {
        group := DefaultGroup;
      }
      data := data[group := data[group][key := value]];
    }

    /** Del(key, args...): removes the key when both the group and the key exist. */
    method Del(key: string, args: seq<string>)
      requires Valid()
      modifies this
      ensures Valid()
      ensures data == if GroupOf(args) in old(data) && key in old(data)[GroupOf(args)]
        then old(data)[GroupOf(args) := old(data)[GroupOf(args)] - {key}]
        else old(data)
      ensures Get(key, args) == None
      ensures forall g, k :: (g, k) != (GroupOf(args), key) ==> Lookup(g, k) == old(Lookup(g, k))
    {
      var group := if |args| > 0 then args[0] else DefaultGroup;
      if group in data {
        if key in data[group] {
          data := data[group := data[group] - {key}];
        }
      }
    }
  }

  // ---------------------------------------------------------------------------
  // Tag map of a record type (db.go:154-161, 198-205)

  /** The value a Go map lookup yields: the entry, or 0 for a missing key. */
  function IndexOf(tagMap: map<string, nat>, col: string): nat
  {
    if col in tagMap then tagMap[col] else 0
  }

  /** One more than the index of the last field tagged t, or 0 when no field
      carries the (non-empty) tag t. */
  function TagIndex(tags: seq<string>, t: string): (n: nat)
    ensures n <= |tags|
    ensures n > 0 ==> t != "" && tags[n - 1] == t
    ensures forall j :: n <= j < |tags| ==> tags[j] != t || t == ""
    ensures n == 0 <==> t == "" || t !in tags
    decreases |tags|
  {
    if |tags| == 0 then 0
    else if t != "" && tags[|tags| - 1] == t then |tags|
    else TagIndex(tags[..|tags| - 1], t)
  }

  /** The tag map the loops build: every non-empty tag to TagIndex. */
  function TagMapOf(tags: seq<string>): (m: map<string, nat>)
    ensures forall t :: t in m ==> 1 <= m[t] <= |tags| && tags[m[t] - 1] == t
    ensures forall i :: 0 <= i < |tags| && tags[i] != "" ==> tags[i] in m && m[tags[i]] > i
  {
    map t | t in tags && t != "" :: TagIndex(tags, t)
  }

  /** Reading the tag map gives TagIndex for every column name, present or not. */
  lemma TagMapLookup(tags: seq<string>, col: string)
    ensures IndexOf(TagMapOf(tags), col) == TagIndex(tags, col)
  {
  }

  /** The loop of QueryStruct/QueryStructs over the struct's fields; tags[i]
      is the field's `db` tag, "" when it has none. */
  method BuildTagMap(tags: seq<string>) returns (tagMap: map<string, nat>)
    ensures tagMap == TagMapOf(tags)
  {
    tagMap := map[];
    var i := 0;
    while i < |tags|
      invariant 0 <= i <= |tags|
      invariant tagMap == TagMapOf(tags[..i])
    {
      if |tags[i]| > 0 {
        tagMap := tagMap[tags[i] := i + 1];
      }
      TagMapStep(tags, i);
      i := i + 1;
    }
    assert tags[..|tags|] == tags;
  }

  lemma TagMapStep(tags: seq<string>, i: nat)
    requires i < |tags|
    ensures TagMapOf(tags[..i + 1]) ==
      if |tags[i]| > 0 then TagMapOf(tags[..i])[tags[i] := i + 1] else TagMapOf(tags[..i])
  {
    var pre, post := tags[..i], tags[..i + 1];
    assert post[..i] == pre;
    forall t | t in post && t != ""
      ensures TagIndex(post, t) == if t == tags[i] then i + 1 else TagIndex(pre, t)
    {
    }
  }

  // ---------------------------------------------------------------------------
  // Raw cells and their text

  /** A cell scanned into an interface{}: SQL NULL (nil) or the driver's bytes. */
  type Cell = Option<seq<Byte>>

  /** string(b) on the raw bytes: each byte becomes the character with that code. */
  function Text(b: seq<Byte>): (s: string)
    ensures |s| == |b|
    ensures forall i :: 0 <= i < |b| ==> s[i] as int == b[i]
  {
    seq(|b|, i requires 0 <= i < |b| => b[i] as char)
  }

  predicate Narrow(s: string)
  {
    forall i :: 0 <= i < |s| ==> s[i] as int < 0x100
  }

  /** The bytes a driver returns for a text whose characters all fit in a byte. */
  function BytesOf(s: string): (b: seq<Byte>)
    requires Narrow(s)
    ensures |b| == |s|
  {
    seq(|s|, i requires 0 <= i < |s| => s[i] as int)
  }

  lemma TextOfBytes(s: string)
    requires Narrow(s)
    ensures Text(BytesOf(s)) == s
  {
    var t := Text(BytesOf(s));
    forall i | 0 <= i < |s|
      ensures t[i] == s[i]
    {
      assert t[i] as int == s[i] as int;
    }
  }

  /** Base-10 text is made of digits and a sign only. */
  lemma DecimalIsNarrow(i: int)
    ensures Narrow(IntToDecimal(i))
  {
    var s := IntToDecimal(i);
    forall k | 0 <= k < |s|
      ensures s[k] as int < 0x100
    {
      if i < 0 && k > 0 {
        assert s[k] == NatToDecimal(-i)[k - 1];
      }
    }
  }

  // ---------------------------------------------------------------------------
  // Records (reflectStruct, db.go:412-464)

  /** A field's kind as reflectStruct's switch tells them apart. OtherField is
      every kind outside the switch (unsigned integers, structs, maps, ...),
      which reflectStruct never writes. */
  datatype FieldKind = BoolField | StringField | BytesField | IntField(width: IntType) | OtherField

  /** A field's value; OtherVal is whatever a field of another kind holds. */
  datatype FieldValue = BoolVal(b: bool) | StrVal(s: string) | BytesVal(bytes: seq<Byte>) | IntVal(i: int) | OtherVal

  predicate HasKind(v: FieldValue, k: FieldKind)
  {
    match k
    case BoolField => v.BoolVal?
    case StringField => v.StrVal?
    case BytesField => v.BytesVal?
    case IntField(t) => v.IntVal? && -(Modulus(t) / 2) <= v.i < Modulus(t) / 2
    case OtherField => v.OtherVal?
  }

  /** A record of a struct type whose fields have the given kinds. */
  predicate WellTyped(kinds: seq<FieldKind>, rec: seq<FieldValue>)
  {
    |rec| == |kinds| && forall j :: 0 <= j < |kinds| ==> HasKind(rec[j], kinds[j])
  }

  /** Go's zero value of a field. */
  function Zero(k: FieldKind): (v: FieldValue)
    ensures HasKind(v, k)
  {
    match k
    case BoolField => BoolVal(false)
    case StringField => StrVal("")
    case BytesField => BytesVal([])
    case IntField(_) => IntVal(0)
    case OtherField => OtherVal
  }

  /** reflect.New(tp).Elem(): a fresh record of zero values. */
  function ZeroRecord(kinds: seq<FieldKind>): (r: seq<FieldValue>)
    ensures WellTyped(kinds, r)
  {
    seq(|kinds|, j requires 0 <= j < |kinds| => Zero(kinds[j]))
  }

  /** What one cell makes of a field that currently holds prev: booleans are
      true unless the text is exactly "false", texts are copied, byte slices
      keep prev on NULL, integers are parsed in base 10 and truncated to the
      field's width (SetInt), keeping prev when the text does not parse. */
  function Coerce(kind: FieldKind, cell: Cell, prev: FieldValue): (r: FieldValue)
    requires HasKind(prev, kind)
    ensures HasKind(r, kind)
  {
    match kind
    case BoolField => BoolVal(cell.Some? && Text(cell.value) != "false")
    case StringField => StrVal(if cell.Some? then Text(cell.value) else "")
    case BytesField => if cell.Some? then BytesVal(cell.value) else prev
    case IntField(t) =>
      if cell.None? then IntVal(0)
      else
        (match ParseInt(Text(cell.value))
         case Parsed(v) => IntVal(Truncate(v, t))
         case _ => prev)
    case OtherField => prev
  }

  /** Every tag map entry names a field of the record. */
  predicate TagsFit(tagMap: map<string, nat>, kinds: seq<FieldKind>)
  {
    forall t :: t in tagMap ==> tagMap[t] <= |kinds|
  }

  /** The record after reflectStruct has gone through the columns in order:
      a column whose tag map entry is 0 is skipped, any other one coerces its
      cell into field entry-1. */
  function Reflected(cols: seq<string>, tagMap: map<string, nat>, kinds: seq<FieldKind>,
                     rec: seq<FieldValue>, row: seq<Cell>): (r: seq<FieldValue>)
    requires |row| == |cols| && TagsFit(tagMap, kinds) && WellTyped(kinds, rec)
    ensures WellTyped(kinds, r)
    decreases |cols|
  {
    if |cols| == 0 then rec
    else
      var n := |cols| - 1;
      var prev := Reflected(cols[..n], tagMap, kinds, rec, row[..n]);
      var f := IndexOf(tagMap, cols[n]);
      if f == 0 then prev
      else prev[f - 1 := Coerce(kinds[f - 1], row[n], prev[f - 1])]
  }

  /** reflectStruct: writes the record's fields in place, column by column. */
  method ReflectStruct(cols: seq<string>, tagMap: map<string, nat>, kinds: seq<FieldKind>,
                       record: array<FieldValue>, row: seq<Cell>)
    requires |row| == |cols| && TagsFit(tagMap, kinds) && WellTyped(kinds, record[..])
    modifies record
    ensures record[..] == Reflected(cols, tagMap, kinds, old(record[..]), row)
  {
    ghost var rec := record[..];
    var i := 0;
    while i < |cols|
      invariant 0 <= i <= |cols|
      invariant record[..] == Reflected(cols[..i], tagMap, kinds, rec, row[..i])
    {
      assert cols[..i + 1][..i] == cols[..i] && row[..i + 1][..i] == row[..i];
      var n := IndexOf(tagMap, cols[i]) - 1;
      if n >= 0 {
        record[n] := Coerce(kinds[n], row[i], record[n]);
      }
      i := i + 1;
    }
    assert cols[..i] == cols && row[..i] == row;
  }

  /** A field no column maps to keeps the value it had. */
  lemma {:induction false} ReflectUnmapped(cols: seq<string>, tagMap: map<string, nat>, kinds: seq<FieldKind>,
                                           rec: seq<FieldValue>, row: seq<Cell>, j: nat)
    requires |row| == |cols| && TagsFit(tagMap, kinds) && WellTyped(kinds, rec) && j < |kinds|
    requires forall i :: 0 <= i < |cols| ==> IndexOf(tagMap, cols[i]) != j + 1
    ensures Reflected(cols, tagMap, kinds, rec, row)[j] == rec[j]
    decreases |cols|
  {
    if |cols| > 0 {
      var n := |cols| - 1;
      ReflectUnmapped(cols[..n], tagMap, kinds, rec, row[..n], j);
      ReflectSkips(cols, tagMap, kinds, rec, row, j);
    }
  }

  /** The last column mapped to a field decides it: the field ends up holding
      that column's cell, coerced from what the earlier columns left there. */
  lemma {:induction false} ReflectLastWins(cols: seq<string>, tagMap: map<string, nat>, kinds: seq<FieldKind>,
                                           rec: seq<FieldValue>, row: seq<Cell>, i: nat)
    requires |row| == |cols| && TagsFit(tagMap, kinds) && WellTyped(kinds, rec)
    requires i < |cols| && IndexOf(tagMap, cols[i]) > 0
    requires forall k :: i < k < |cols| ==> IndexOf(tagMap, cols[k]) != IndexOf(tagMap, cols[i])
    ensures var j := IndexOf(tagMap, cols[i]) - 1;
      Reflected(cols, tagMap, kinds, rec, row)[j]
        == Coerce(kinds[j], row[i], Reflected(cols[..i], tagMap, kinds, rec, row[..i])[j])
    decreases |cols|
  {
    var n := |cols| - 1;
    if i < n {
      ReflectLastWins(cols[..n], tagMap, kinds, rec, row[..n], i);
      assert cols[..n][..i] == cols[..i] && row[..n][..i] == row[..i];
      assert cols[..n][i] == cols[i] && row[..n][i] == row[i];
      ReflectSkips(cols, tagMap, kinds, rec, row, IndexOf(tagMap, cols[i]) - 1);
    } else {
      ReflectWrites(cols, tagMap, kinds, rec, row);
    }
  }

  /** The last column, when mapped, coerces its cell into its field. */
  lemma ReflectWrites(cols: seq<string>, tagMap: map<string, nat>, kinds: seq<FieldKind>,
                      rec: seq<FieldValue>, row: seq<Cell>)
    requires |row| == |cols| > 0 && TagsFit(tagMap, kinds) && WellTyped(kinds, rec)
    requires IndexOf(tagMap, cols[|cols| - 1]) > 0
    ensures var n, j := |cols| - 1, IndexOf(tagMap, cols[|cols| - 1]) - 1;
      Reflected(cols, tagMap, kinds, rec, row)[j]
        == Coerce(kinds[j], row[n], Reflected(cols[..n], tagMap, kinds, rec, row[..n])[j])
  {
  }

  /** A column that maps elsewhere leaves field j as the earlier columns left it. */
  lemma ReflectSkips(cols: seq<string>, tagMap: map<string, nat>, kinds: seq<FieldKind>,
                     rec: seq<FieldValue>, row: seq<Cell>, j: nat)
    requires |row| == |cols| > 0 && TagsFit(tagMap, kinds) && WellTyped(kinds, rec) && j < |kinds|
    requires IndexOf(tagMap, cols[|cols| - 1]) != j + 1
    ensures Reflected(cols, tagMap, kinds, rec, row)[j]
      == Reflected(cols[..|cols| - 1], tagMap, kinds, rec, row[..|cols| - 1])[j]
  {
  }

  /** NULL cells: false, "", 0, and byte slices left as they were. */
  lemma CoerceNull(kind: FieldKind, prev: FieldValue)
    requires HasKind(prev, kind)
    ensures kind == BoolField ==> Coerce(kind, None, prev) == BoolVal(false)
    ensures kind == StringField ==> Coerce(kind, None, prev) == StrVal("")
    ensures kind.IntField? ==> Coerce(kind, None, prev) == IntVal(0)
    ensures kind == BytesField ==> Coerce(kind, None, prev) == prev
  {
  }

  /** A cell holding a string's bytes fills a string field with that string. */
  lemma CoerceStringRoundTrip(s: string, prev: FieldValue)
    requires Narrow(s) && HasKind(prev, StringField)
    ensures Coerce(StringField, Some(BytesOf(s)), prev) == StrVal(s)
  {
    TextOfBytes(s);
  }

  /** A cell holding an int64 in base 10 fills an int64 field with that value. */
  lemma CoerceIntRoundTrip(i: Int64, prev: FieldValue)
    requires HasKind(prev, IntField(GoInt64))
    ensures Narrow(IntToDecimal(i))
    ensures Coerce(IntField(GoInt64), Some(BytesOf(IntToDecimal(i))), prev) == IntVal(i)
  {
    var s := IntToDecimal(i);
    DecimalIsNarrow(i);
    TextOfBytes(s);
    IntRoundTrip(i);
    TruncateWide(i, GoInt64);
  }

  /** A cell holding true or false fills a bool field with that value. */
  lemma CoerceBoolRoundTrip(b: bool, prev: FieldValue)
    requires HasKind(prev, BoolField)
    ensures Coerce(BoolField, Some(BytesOf(if b then "true" else "false")), prev) == BoolVal(b)
  {
    TextOfBytes("true");
    TextOfBytes("false");
  }

  /** A text that is not base 10 leaves an integer field as it was. */
  lemma CoerceUnparsable(t: IntType, b: seq<Byte>, prev: FieldValue)
    requires HasKind(prev, IntField(t)) && !ParseInt(Text(b)).Parsed?
    ensures Coerce(IntField(t), Some(b), prev) == prev
  {
  }

  // ---------------------------------------------------------------------------
  // Row loops of queryAndReflectOne / queryAndReflect (db.go:329-410)

  datatype QueryError = ErrNoRows

  /** Every row has one cell per column, as rows.Scan demands. */
  predicate Rectangular(width: nat, rows: seq<seq<Cell>>)
  {
    forall k :: 0 <= k < |rows| ==> |rows[k]| == width
  }

  /** The record one row fills in a fresh zero record. */
  function RecordOf(cols: seq<string>, tagMap: map<string, nat>, kinds: seq<FieldKind>, row: seq<Cell>): (r: seq<FieldValue>)
    requires |row| == |cols| && TagsFit(tagMap, kinds)
    ensures WellTyped(kinds, r)
  {
    Reflected(cols, tagMap, kinds, ZeroRecord(kinds), row)
  }

  /** A fresh zero record filled from one row. */
  method FillRecord(cols: seq<string>, tagMap: map<string, nat>, kinds: seq<FieldKind>, row: seq<Cell>)
    returns (rec: seq<FieldValue>)
    requires |row| == |cols| && TagsFit(tagMap, kinds)
    ensures rec == RecordOf(cols, tagMap, kinds, row)
  {
    var record := new FieldValue[|kinds|](j requires 0 <= j < |kinds| => Zero(kinds[j]));
    assert record[..] == ZeroRecord(kinds);
    ReflectStruct(cols, tagMap, kinds, record, row);
    rec := record[..];
  }

  /** queryAndReflectOne: ErrNoRows on an empty result, else the first row's
      record; later rows are never read. */
  method QueryAndReflectOne(cols: seq<string>, tagMap: map<string, nat>, kinds: seq<FieldKind>, rows: seq<seq<Cell>>)
    returns (r: Result<seq<FieldValue>, QueryError>)
    requires Rectangular(|cols|, rows) && TagsFit(tagMap, kinds)
    ensures rows == [] <==> r == Failure(ErrNoRows)
    ensures rows != [] ==> r == Success(RecordOf(cols, tagMap, kinds, rows[0]))
  {
    if |rows| == 0 {
      return Failure(ErrNoRows);
    }
    var rec := FillRecord(cols, tagMap, kinds, rows[0]);
    r := Success(rec);
  }

  /** queryAndReflect: one record per row, in row order; no rows, no records. */
  method QueryAndReflect(cols: seq<string>, tagMap: map<string, nat>, kinds: seq<FieldKind>, rows: seq<seq<Cell>>)
    returns (records: seq<seq<FieldValue>>)
    requires Rectangular(|cols|, rows) && TagsFit(tagMap, kinds)
    ensures |records| == |rows|
    ensures forall k :: 0 <= k < |rows| ==> records[k] == RecordOf(cols, tagMap, kinds, rows[k])
  {
    records := [];
    var k := 0;
    while k < |rows|
      invariant 0 <= k <= |rows| && |records| == k
      invariant forall x :: 0 <= x < k ==> records[x] == RecordOf(cols, tagMap, kinds, rows[x])
    {
      var rec := FillRecord(cols, tagMap, kinds, rows[k]);
      records := records + [rec];
      k := k + 1;
    }
  }

  /** A record type with |tags| fields fits the tag map built from its tags. */
  lemma TagMapFits(tags: seq<string>, kinds: seq<FieldKind>)
    requires |tags| == |kinds|
    ensures TagsFit(TagMapOf(tags), kinds)
  {
  }

  /** QueryStruct: the tag map of the record type, then queryAndReflectOne. */
  method QueryStruct(tags: seq<string>, kinds: seq<FieldKind>, cols: seq<string>, rows: seq<seq<Cell>>)
    returns (r: Result<seq<FieldValue>, QueryError>)
    requires |tags| == |kinds| && Rectangular(|cols|, rows)
    ensures TagsFit(TagMapOf(tags), kinds)
    ensures rows == [] <==> r == Failure(ErrNoRows)
    ensures rows != [] ==> r == Success(RecordOf(cols, TagMapOf(tags), kinds, rows[0]))
  {
    var tagMap := BuildTagMap(tags);
    TagMapFits(tags, kinds);
    r := QueryAndReflectOne(cols, tagMap, kinds, rows);
  }

  /** QueryStructs: the tag map of the element type, then queryAndReflect. */
  method QueryStructs(tags: seq<string>, kinds: seq<FieldKind>, cols: seq<string>, rows: seq<seq<Cell>>)
    returns (records: seq<seq<FieldValue>>)
    requires |tags| == |kinds| && Rectangular(|cols|, rows)
    ensures TagsFit(TagMapOf(tags), kinds)
    ensures |records| == |rows|
    ensures forall k :: 0 <= k < |rows| ==> records[k] == RecordOf(cols, TagMapOf(tags), kinds, rows[k])
  {
    var tagMap := BuildTagMap(tags);
    TagMapFits(tags, kinds);
    records := QueryAndReflect(cols, tagMap, kinds, rows);
  }

  /** A field without a tag, or whose tag a later field repeats, is never
      written: it keeps its zero value whatever the columns are. */
  lemma ShadowedFieldStaysZero(tags: seq<string>, kinds: seq<FieldKind>, cols: seq<string>, row: seq<Cell>, j: nat, k: nat)
    requires |tags| == |kinds| && |row| == |cols| && j < |tags|
    requires tags[j] == "" || (j < k < |tags| && tags[k] == tags[j])
    ensures TagsFit(TagMapOf(tags), kinds)
    ensures RecordOf(cols, TagMapOf(tags), kinds, row)[j] == Zero(kinds[j])
  {
    TagMapFits(tags, kinds);
    forall i | 0 <= i < |cols|
      ensures IndexOf(TagMapOf(tags), cols[i]) != j + 1
    {
      TagMapLookup(tags, cols[i]);
    }
    ReflectUnmapped(cols, TagMapOf(tags), kinds, ZeroRecord(kinds), row, j);
  }

  /** The field carrying tag t last takes the cell of the last column named t. */
  lemma TaggedFieldTakesLastColumn(tags: seq<string>, kinds: seq<FieldKind>, cols: seq<string>, row: seq<Cell>, i: nat)
    requires |tags| == |kinds| && |row| == |cols| && i < |cols| && cols[i] != "" && cols[i] in tags
    requires forall k :: i < k < |cols| ==> cols[k] != cols[i]
    ensures TagsFit(TagMapOf(tags), kinds)
    ensures var j := TagIndex(tags, cols[i]) - 1;
      0 <= j < |kinds| && tags[j] == cols[i] &&
      RecordOf(cols, TagMapOf(tags), kinds, row)[j]
        == Coerce(kinds[j], row[i], Reflected(cols[..i], TagMapOf(tags), kinds, ZeroRecord(kinds), row[..i])[j])
  {
    TagMapFits(tags, kinds);
    var m := TagMapOf(tags);
    forall k | i < k < |cols|
      ensures IndexOf(m, cols[k]) != IndexOf(m, cols[i])
    {
      TagMapLookup(tags, cols[k]);
      TagMapLookup(tags, cols[i]);
    }
    TagMapLookup(tags, cols[i]);
    ReflectLastWins(cols, m, kinds, ZeroRecord(kinds), row, i);
  }

  // ---------------------------------------------------------------------------
  // Maps built column by column

  /** The map a loop builds by writing vals[i] under names[i], in order: a
      later column overwrites an earlier one with the same name. */
  function Assemble<V>(names: seq<string>, vals: seq<V>): (m: map<string, V>)
    requires |names| == |vals|
    ensures m.Keys == set n | n in names
    decreases |names|
  {
    if |names| == 0 then map[]
    else
      var n := |names| - 1;
      Assemble(names[..n], vals[..n])[names[n] := vals[n]]
  }

  /** The last column with a name decides the value under that name. */
  lemma {:induction false} AssembleLast<V>(names: seq<string>, vals: seq<V>, i: nat)
    requires |names| == |vals| && i < |names|
    requires forall k :: i < k < |names| ==> names[k] != names[i]
    ensures names[i] in Assemble(names, vals) && Assemble(names, vals)[names[i]] == vals[i]
    decreases |names|
  {
    var n := |names| - 1;
    if i < n {
      AssembleLast(names[..n], vals[..n], i);
    }
  }

  // ---------------------------------------------------------------------------
  // Schema-less rows: queryAndReflectMap, Query2Maps, Query2Map (db.go:219-326)

  /** The name of a column's scan type (ColumnType.ScanType().Name()), for
      the names queryAndReflectMap's switch tests; OtherScan is any other name. */
  datatype ScanType =
    | NullTime | RawBytes | NullString
    | Float32 | Float64 | NullFloat64 | NullFloat32
    | Int8 | Int16 | Int32 | Int64 | Int
    | NullInt64 | NullInt32 | NullInt16 | NullByte
    | Uint8 | Uint16 | Uint32 | Uint64 | Uint
    | OtherScan(name: string)

  /** What rows.ColumnTypes() reports of a column: its name, its scan type and
      its database type name. */
  datatype ColumnType = ColumnType(name: string, scanType: ScanType, databaseType: string)

  /** The branch of queryAndReflectMap's switch a column falls into. */
  datatype Category = TextCategory | FloatCategory | IntCategory | OtherCategory

  function CategoryOf(c: ColumnType): Category
  {
    match c.scanType
    case NullTime | RawBytes | NullString =>
      if c.databaseType == "DECIMAL" then FloatCategory else TextCategory
    case Float32 | Float64 | NullFloat64 | NullFloat32 => FloatCategory
    case OtherScan(_) => OtherCategory
    case _ => IntCategory
  }

  /** A value stored in a schema-less row. MFloat keeps the text handed to
      strconv.ParseFloat (None for NULL, which gives 0); MSprint stands for
      fmt.Sprint of the raw cell. */
  datatype MapValue = MStr(s: string) | MInt(i: Int64) | MFloat(text: Option<string>) | MSprint(cell: Cell)

  /** The value one cell gives in its column's category: integers go through
      strconv.Atoi with the error dropped, NULL texts become "". */
  function MapCell(k: Category, cell: Cell): (v: MapValue)
    ensures k == IntCategory ==> v.MInt?
    ensures k == TextCategory ==> v.MStr?
  {
    match k
    case TextCategory => MStr(if cell.Some? then Text(cell.value) else "")
    case FloatCategory => MFloat(if cell.Some? then Some(Text(cell.value)) else None)
    case IntCategory => MInt(if cell.Some? then StrconvAtoiValue(Text(cell.value)) else 0)
    case OtherCategory => MSprint(cell)
  }

  function Names(cols: seq<ColumnType>): (ns: seq<string>)
    ensures |ns| == |cols| && forall i :: 0 <= i < |cols| ==> ns[i] == cols[i].name
  {
    seq(|cols|, i requires 0 <= i < |cols| => cols[i].name)
  }

  function MapCells(cols: seq<ColumnType>, row: seq<Cell>): (vs: seq<MapValue>)
    requires |row| == |cols|
    ensures |vs| == |cols|
  {
    seq(|cols|, i requires 0 <= i < |cols| => MapCell(CategoryOf(cols[i]), row[i]))
  }

  /** The entries queryAndReflectMap writes for one row. */
  function RowMap(cols: seq<ColumnType>, row: seq<Cell>): (m: map<string, MapValue>)
    requires |row| == |cols|
  {
    Assemble(Names(cols), MapCells(cols, row))
  }

  /** queryAndReflectMap: writes one entry per column into m. */
  method ReflectMap(cols: seq<ColumnType>, row: seq<Cell>, m0: map<string, MapValue>) returns (m: map<string, MapValue>)
    requires |row| == |cols|
    ensures m == m0 + RowMap(cols, row)
  {
    ghost var names, vals := Names(cols), MapCells(cols, row);
    m := m0;
    var i := 0;
    while i < |cols|
      invariant 0 <= i <= |cols|
      invariant m == m0 + Assemble(names[..i], vals[..i])
    {
      var v := MapCell(CategoryOf(cols[i]), row[i]);
      assert vals[i] == v;
      MergeStep(m0, names, vals, i);
      m := m[cols[i].name := v];
      i := i + 1;
    }
    assert names[..i] == names && vals[..i] == vals;
  }

  /** One more column written over a map that already held entries. */
  lemma MergeStep<V>(m0: map<string, V>, names: seq<string>, vals: seq<V>, i: nat)
    requires |names| == |vals| && i < |names|
    ensures m0 + Assemble(names[..i + 1], vals[..i + 1]) == (m0 + Assemble(names[..i], vals[..i]))[names[i] := vals[i]]
  {
    assert names[..i + 1][..i] == names[..i] && vals[..i + 1][..i] == vals[..i];
  }

  /** queryAndReflectMap on the fresh map its callers pass. */
  method RowMapOf(cols: seq<ColumnType>, row: seq<Cell>) returns (m: map<string, MapValue>)
    requires |row| == |cols|
    ensures m == RowMap(cols, row)
  {
    m := ReflectMap(cols, row, map[]);
    assert map[] + RowMap(cols, row) == RowMap(cols, row);
  }

  /** Every column leaves exactly its name as a key. */
  lemma RowMapKeys(cols: seq<ColumnType>, row: seq<Cell>)
    requires |row| == |cols|
    ensures RowMap(cols, row).Keys == set c | c in cols :: c.name
  {
    var names := Names(cols);
    forall n | n in names
      ensures exists c :: c in cols && c.name == n
    {
      var i :| 0 <= i < |names| && names[i] == n;
      assert cols[i] in cols;
    }
  }

  /** Under the name of its last column, an integer column holds the cell's
      base-10 value: 0 for NULL and for text that is not a number, and the
      value itself for a number written in base 10; a text column holds ""
      for NULL and the text otherwise. */
  lemma RowMapCell(cols: seq<ColumnType>, row: seq<Cell>, i: nat)
    requires |row| == |cols| && i < |cols|
    requires forall k :: i < k < |cols| ==> cols[k].name != cols[i].name
    ensures cols[i].name in RowMap(cols, row)
    ensures RowMap(cols, row)[cols[i].name] == MapCell(CategoryOf(cols[i]), row[i])
  {
    AssembleLast(Names(cols), MapCells(cols, row), i);
    assert MapCells(cols, row)[i] == MapCell(CategoryOf(cols[i]), row[i]);
  }

  /** The integer category: NULL and non-numbers read 0, base-10 numbers read back. */
  lemma IntCellValues(b: seq<Byte>, v: Int64)
    ensures MapCell(IntCategory, None) == MInt(0)
    ensures ParseInt(Text(b)).SyntaxError? ==> MapCell(IntCategory, Some(b)) == MInt(0)
    ensures Narrow(IntToDecimal(v))
    ensures MapCell(IntCategory, Some(BytesOf(IntToDecimal(v)))) == MInt(v)
  {
    DecimalIsNarrow(v);
    TextOfBytes(IntToDecimal(v));
    IntRoundTrip(v);
  }

  /** The text scan types: outside DECIMAL a NULL cell reads "" and any other
      cell its text; a DECIMAL column is a float, numeric zero for NULL. */
  lemma TextCellValues(c: ColumnType, s: string)
    requires c.scanType.NullTime? || c.scanType.RawBytes? || c.scanType.NullString?
    ensures c.databaseType != "DECIMAL" ==> MapCell(CategoryOf(c), None) == MStr("")
    ensures c.databaseType != "DECIMAL" && Narrow(s) ==> MapCell(CategoryOf(c), Some(BytesOf(s))) == MStr(s)
    ensures c.databaseType == "DECIMAL" ==> MapCell(CategoryOf(c), None) == MFloat(None)
    ensures c.databaseType == "DECIMAL" && Narrow(s) ==> MapCell(CategoryOf(c), Some(BytesOf(s))) == MFloat(Some(s))
  {
    if Narrow(s) {
      TextOfBytes(s);
    }
  }

  /** Query2Maps: one map per row, in row order. */
  method Query2Maps(cols: seq<ColumnType>, rows: seq<seq<Cell>>) returns (data: seq<map<string, MapValue>>)
    requires Rectangular(|cols|, rows)
    ensures |data| == |rows|
    ensures forall k :: 0 <= k < |rows| ==> data[k] == RowMap(cols, rows[k])
  {
    data := [];
    var k := 0;
    while k < |rows|
      invariant 0 <= k <= |rows| && |data| == k
      invariant forall x :: 0 <= x < k ==> data[x] == RowMap(cols, rows[x])
    {
      var m := RowMapOf(cols, rows[k]);
      data := data + [m];
      k := k + 1;
    }
  }

  /** Query2Map: ErrNoRows on an empty result, else the first row's map. */
  method Query2Map(cols: seq<ColumnType>, rows: seq<seq<Cell>>) returns (r: Result<map<string, MapValue>, QueryError>)
    requires Rectangular(|cols|, rows)
    ensures rows == [] <==> r == Failure(ErrNoRows)
    ensures rows != [] ==> r == Success(RowMap(cols, rows[0]))
  {
    if |rows| == 0 {
      return Failure(ErrNoRows);
    }
    var m := RowMapOf(cols, rows[0]);
    r := Success(m);
  }

  // ---------------------------------------------------------------------------
  // Select / SelectOne (db.go:544-597) and OneRow (db.go:477-541)

  /** string(raw) for a cell scanned into a []byte: NULL is the nil slice, "". */
  function CellText(c: Cell): (s: string)
    ensures c.None? ==> s == ""
  {
    if c.Some? then Text(c.value) else ""
  }

  function CellTexts(raw: seq<Cell>): (ts: seq<string>)
    ensures |ts| == |raw| && forall i :: 0 <= i < |raw| ==> ts[i] == CellText(raw[i])
  {
    seq(|raw|, i requires 0 <= i < |raw| => CellText(raw[i]))
  }

  /** The map Select builds for one row. */
  function RowStrings(cols: seq<string>, raw: seq<Cell>): map<string, string>
    requires |raw| == |cols|
  {
    Assemble(cols, CellTexts(raw))
  }

  /** Select's inner loop over the raw values of one row. */
  method AssembleRow(cols: seq<string>, raw: seq<Cell>) returns (row: map<string, string>)
    requires |raw| == |cols|
    ensures row == RowStrings(cols, raw)
  {
    ghost var texts := CellTexts(raw);
    row := map[];
    var k := 0;
    while k < |raw|
      invariant 0 <= k <= |raw|
      invariant row == Assemble(cols[..k], texts[..k])
    {
      assert cols[..k + 1][..k] == cols[..k] && texts[..k + 1][..k] == texts[..k];
      row := row[cols[k] := CellText(raw[k])];
      k := k + 1;
    }
    assert cols[..k] == cols && texts[..k] == texts;
  }

  /** Select: one map per row, in row order, with one key per column. */
  method Select(cols: seq<string>, rows: seq<seq<Cell>>) returns (results: seq<map<string, string>>)
    requires Rectangular(|cols|, rows)
    ensures |results| == |rows|
    ensures forall k :: 0 <= k < |rows| ==> results[k] == RowStrings(cols, rows[k])
  {
    results := [];
    var k := 0;
    while k < |rows|
      invariant 0 <= k <= |rows| && |results| == k
      invariant forall x :: 0 <= x < k ==> results[x] == RowStrings(cols, rows[x])
    {
      var row := AssembleRow(cols, rows[k]);
      results := results + [row];
      k := k + 1;
    }
  }

  /** Every column's name is a key of the row, holding the text of the last
      column with that name ("" for NULL); there are no other keys. */
  lemma SelectRowCells(cols: seq<string>, raw: seq<Cell>, i: nat)
    requires |raw| == |cols| && i < |cols|
    requires forall k :: i < k < |cols| ==> cols[k] != cols[i]
    ensures RowStrings(cols, raw).Keys == set c | c in cols
    ensures RowStrings(cols, raw)[cols[i]] == CellText(raw[i])
    ensures raw[i].None? ==> RowStrings(cols, raw)[cols[i]] == ""
  {
    AssembleLast(cols, CellTexts(raw), i);
  }

  type OneRow = map<string, string>

  /** SelectOne: the first row, or an empty row (and no error) when there is none. */
  method SelectOne(cols: seq<string>, rows: seq<seq<Cell>>) returns (row: OneRow)
    requires Rectangular(|cols|, rows)
    ensures rows == [] ==> row == map[]
    ensures rows != [] ==> row == RowStrings(cols, rows[0])
  {
    var ret := Select(cols, rows);
    if |ret| > 0 {
      return ret[0];
    }
    return map[];
  }

  /** OneRow.Exist: whether the row has the field. */
  function Exist(row: OneRow, field: string): (b: bool)
    ensures b <==> field in row
  {
    field in row
  }

  /** OneRow.Get: the field's text, "" for a missing field. */
  function Get(row: OneRow, field: string): (v: string)
    ensures field in row ==> v == row[field]
    ensures field !in row ==> v == ""
  {
    if field in row then row[field] else ""
  }

  /** OneRow.GetInt: the field read with Atoi, 0 for a missing or non-numeric field. */
  function GetInt(row: OneRow, field: string): (v: Int64)
    ensures field in row && ParseInt(row[field]).Parsed? ==> v == ParseInt(row[field]).value
    ensures field !in row || !ParseInt(row[field]).Parsed? ==> v == 0
  {
    if field in row then Atoi(row[field], []) else 0
  }

  /** OneRow.GetInt64: the field read with Atoi64, 0 for a missing or non-numeric field. */
  function GetInt64(row: OneRow, field: string): (v: Int64)
    ensures field in row && ParseInt(row[field]).Parsed? ==> v == ParseInt(row[field]).value
    ensures field !in row || !ParseInt(row[field]).Parsed? ==> v == 0
  {
    if field in row then Atoi64(row[field], []) else 0
  }

  /** OneRow.Set: the row with the field written; no other field changes. */
  function Set(row: OneRow, key: string, val: string): (r: OneRow)
    ensures r.Keys == row.Keys + {key}
    ensures r[key] == val
    ensures forall k :: k in row && k != key ==> r[k] == row[k]
  {
    row[key := val]
  }

  /** After Set(k, v) the field exists and reads v, and every other field reads
      as before; a missing field reads "" and 0. */
  lemma OneRowSetGet(row: OneRow, k: string, v: string, other: string)
    requires other != k
    ensures Exist(Set(row, k, v), k) && Get(Set(row, k, v), k) == v
    ensures Exist(Set(row, k, v), other) == Exist(row, other)
    ensures Get(Set(row, k, v), other) == Get(row, other)
    ensures !Exist(row, other) ==> Get(row, other) == "" && GetInt(row, other) == 0 && GetInt64(row, other) == 0
  {
  }

  /** Integers stored with Itoa / I64toA read back with GetInt / GetInt64. */
  lemma OneRowIntRoundTrip(row: OneRow, k: string, i: Int64)
    ensures GetInt(Set(row, k, Itoa(i)), k) == i
    ensures GetInt64(Set(row, k, I64toA(i)), k) == i
  {
    AtoiRoundTrip(i, []);
  }
}
