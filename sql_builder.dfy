/** The statement builder of sql_builder.go: the Values map, the SQ object with
    its constructors and setters, and ToSql, which renders INSERT [IGNORE],
    DELETE, UPDATE, INSERT ... ON DUPLICATE KEY UPDATE or SELECT text together
    with the positional arguments of its `?` placeholders. */
module SqlBuilder {
  import opened Wrappers
  import opened Utils
  import opened Inliner

  /** TypeInsert, TypeDelete, TypeUpdate, TypeSelect, TypeInsertUpdate. */
  datatype Kind = Insert | Delete | Update | Select | InsertUpdate

  /** The dialect name (besides the empty one) for which LIMIT is rendered. */
  const MySql: string := "mysql"

  // ---------------------------------------------------------------------------
  // Values: a Go map[string]interface{}, which is shared by reference

  class Values {
    var entries: map<string, Arg>

    /** NewValues() and the literal Values{}: an empty map. */
    constructor ()
      ensures entries == map[]
    {
      entries := map[];
    }

    method Add(key: string, val: Arg)
      modifies this
      ensures entries == old(entries)[key := val]
      ensures Get(key) == val && IsExist(key)
    {
      entries := entries[key := val];
    }

    method Del(key: string)
      modifies this
      ensures entries == old(entries) - {key}
      ensures !IsExist(key) && Get(key) == Null
    {
      entries := entries - {key};
    }

    function IsExist(key: string): (b: bool)
      reads this
      ensures b <==> key in entries
    {
      key in entries
    }

    /** The stored value; nil (Null) for a missing key. */
    function Get(key: string): (r: Arg)
      reads this
      ensures key in entries ==> r == entries[key]
      ensures key !in entries ==> r == Null
    {
      if key in entries then entries[key] else Null
    }

    /** The stored value when it is a Go string, else "". */
    function GetString(key: string): (r: string)
      reads this
      ensures r != "" ==> IsExist(key) && Get(key) == Str(r)
      ensures Get(key).Str? ==> r == Get(key).s
    {
      match Get(key)
      case Str(s) => s
      case _ => ""
    }

    /** The stored value when it is a Go int, else 0. */
    function GetInt(key: string): (r: int)
      reads this
      ensures r != 0 ==> IsExist(key) && Get(key) == Int(GoInt, r)
      ensures Get(key).Int? && Get(key).itype == GoInt ==> r == Get(key).i
    {
      match Get(key)
      case Int(GoInt, i) => i
      case _ => 0
    }

    /** The stored value when it is a Go uint, else 0. */
    function GetUint(key: string): (r: nat)
      reads this
      ensures r != 0 ==> IsExist(key) && Get(key) == Uint(GoUint, r)
      ensures Get(key).Uint? && Get(key).utype == GoUint ==> r == Get(key).u
    {
      match Get(key)
      case Uint(GoUint, u) => u
      case _ => 0
    }

    /** The stored value when it is a Go int64, else 0. */
    function GetInt64(key: string): (r: int)
      reads this
      ensures r != 0 ==> IsExist(key) && Get(key) == Int(GoInt64, r)
      ensures Get(key).Int? && Get(key).itype == GoInt64 ==> r == Get(key).i
    {
      match Get(key)
      case Int(GoInt64, i) => i
      case _ => 0
    }
  }

  /** The entries of a Values reference; a nil map reads as empty. */
  function Entries(v: Values?): map<string, Arg>
    reads v
  {
    if v == null then map[] else v.entries
  }

  // ---------------------------------------------------------------------------
  // What ToSql renders, as a function of the builder's fields and of the order
  // in which Go's `range` happens to visit the keys of each map

  /** The fields of an SQ that ToSql reads; `dbType` is the Type of its Database. */
  datatype Descriptor = Descriptor(
    kind: Kind, dbType: string,
    field: string, table: string, where: string, group: string, order: string, limit: string,
    values: map<string, Arg>, values2: map<string, Arg>,
    ignore: bool, unsafe: bool)

  /** Statement text with `?` placeholders and the arguments that fill them. */
  datatype Statement = Statement(sql: string, args: seq<Arg>)

  /** cols lists every key exactly once: one possible order of Go's `range`
      over a map with these keys. */
  ghost predicate IsEnumeration(cols: seq<string>, keys: set<string>)
    decreases |cols|
  {
    if cols == [] then keys == {}
    else
      var last := cols[|cols| - 1];
      last in keys && IsEnumeration(cols[..|cols| - 1], keys - {last})
  }

  /** An enumeration has no repeats, lists exactly the keys, and is as long
      as the map is large. */
  lemma {:induction false} EnumerationFacts(cols: seq<string>, keys: set<string>)
    requires IsEnumeration(cols, keys)
    ensures |cols| == |keys|
    ensures forall i :: 0 <= i < |cols| ==> cols[i] in keys
    ensures forall c :: c in keys ==> c in cols
    ensures forall i, j :: 0 <= i < j < |cols| ==> cols[i] != cols[j]
    decreases |cols|
  {
    if cols != [] {
      var init, last := cols[..|cols| - 1], cols[|cols| - 1];
      EnumerationFacts(init, keys - {last});
      assert keys == (keys - {last}) + {last};
    }
  }

  /** Visiting one more key extends the enumeration of the keys seen so far. */
  lemma EnumerationStep(cols: seq<string>, seen: set<string>, k: string)
    requires IsEnumeration(cols, seen) && k !in seen
    ensures IsEnumeration(cols + [k], seen + {k})
  {
    assert (cols + [k])[..|cols|] == cols;
    assert (seen + {k}) - {k} == seen;
  }

  /** Some enumeration of any key set. */
  ghost function SomeEnumeration(keys: set<string>): (cols: seq<string>)
    ensures IsEnumeration(cols, keys)
    decreases |keys|
  {
    if keys == {} then []
    else
      var k :| k in keys;
      var rest := SomeEnumeration(keys - {k});
      EnumerationStep(rest, keys - {k}, k);
      assert (keys - {k}) + {k} == keys;
      rest + [k]
  }

  /** ",`k`": one column of the fields list. */
  function Column(k: string): string
  {
    ",`" + k + "`"
  }

  /** ",`k`=?": one assignment of buildUpdateParams. */
  function Assignment(k: string): string
  {
    ",`" + k + "`=?"
  }

  function Columns(cols: seq<string>): string
  {
    if cols == [] then "" else Columns(cols[..|cols| - 1]) + Column(cols[|cols| - 1])
  }

  function Assignments(cols: seq<string>): string
  {
    if cols == [] then "" else Assignments(cols[..|cols| - 1]) + Assignment(cols[|cols| - 1])
  }

  /** strings.Repeat(",?", n). */
  function Placeholders(n: nat): string
  {
    if n == 0 then "" else Placeholders(n - 1) + ",?"
  }

  /** The values of the map in the order of cols. */
  function ArgsOf(vals: map<string, Arg>, cols: seq<string>): (args: seq<Arg>)
    requires forall i :: 0 <= i < |cols| ==> cols[i] in vals
    ensures |args| == |cols|
  {
    if cols == [] then []
    else ArgsOf(vals, cols[..|cols| - 1]) + [vals[cols[|cols| - 1]]]
  }

  /** args[i] is the value of the i-th column. */
  lemma {:induction false} ArgsAligned(vals: map<string, Arg>, cols: seq<string>)
    requires forall i :: 0 <= i < |cols| ==> cols[i] in vals
    ensures forall i :: 0 <= i < |cols| ==> ArgsOf(vals, cols)[i] == vals[cols[i]]
    decreases |cols|
  {
    if cols != [] {
      ArgsAligned(vals, cols[..|cols| - 1]);
    }
  }

  /** Visiting one more key appends its column, its assignment and its value. */
  lemma VisitStep(m: map<string, Arg>, cols: seq<string>, k: string)
    requires forall i :: 0 <= i < |cols| ==> cols[i] in m
    requires k in m
    ensures forall i :: 0 <= i < |cols + [k]| ==> (cols + [k])[i] in m
    ensures Columns(cols + [k]) == Columns(cols) + Column(k)
    ensures Assignments(cols + [k]) == Assignments(cols) + Assignment(k)
    ensures ArgsOf(m, cols + [k]) == ArgsOf(m, cols) + [m[k]]
  {
    assert (cols + [k])[..|cols|] == cols;
  }

  /** `kw + frag` when the fragment is set. */
  function Clause(kw: string, frag: string): string
  {
    if frag != "" then kw + frag else ""
  }

  /** The LIMIT clause, rendered only for the "" and "mysql" dialects. */
  function LimitClause(limit: string, dbType: string): string
  {
    if limit != "" && (dbType == "" || dbType == MySql) then " LIMIT " + limit else ""
  }

  /** " (cols) VALUES (?,...)": the fields list and the placeholders, each
      without its leading comma. */
  function ValuesClause(fields: string, placeholder: string): string
  {
    " (" + SubstrClamped(fields, 1, []) + ") VALUES (" + SubstrClamped(placeholder, 1, []) + ")"
  }

  function RenderInsert(d: Descriptor, cols: seq<string>): Result<Statement, string>
    requires IsEnumeration(cols, d.values.Keys)
  {
    EnumerationFacts(cols, d.values.Keys);
    if d.table == "" then Failure("table cannot be empty")
    else if |d.values| == 0 then Failure("values cannot be empty")
    else
      Success(Statement(
        (if d.ignore then "INSERT IGNORE INTO " else "INSERT INTO ") + d.table
          + ValuesClause(Columns(cols), Placeholders(|d.values|)),
        ArgsOf(d.values, cols)))
  }

  function RenderDelete(d: Descriptor): Result<Statement, string>
  {
    if d.table == "" then Success(Statement("", []))
    else if d.where == "" && !d.unsafe then Failure("deleting all data is not safe")
    else Success(Statement("DELETE FROM " + d.table + Clause(" WHERE ", d.where) + LimitClause(d.limit, d.dbType), []))
  }

  function RenderUpdate(d: Descriptor, cols: seq<string>): Result<Statement, string>
    requires IsEnumeration(cols, d.values.Keys)
  {
    EnumerationFacts(cols, d.values.Keys);
    if d.table == "" then Success(Statement("", []))
    else if d.where == "" && !d.unsafe then Failure("updating all data is not safe")
    else
      Success(Statement(
        "UPDATE " + d.table + " SET " + SubstrClamped(Assignments(cols), 1, [])
          + Clause(" WHERE ", d.where) + LimitClause(d.limit, d.dbType),
        ArgsOf(d.values, cols)))
  }

  function RenderInsertUpdate(d: Descriptor, cols: seq<string>, cols2: seq<string>): Result<Statement, string>
    requires IsEnumeration(cols, d.values.Keys) && IsEnumeration(cols2, d.values2.Keys)
  {
    EnumerationFacts(cols, d.values.Keys);
    EnumerationFacts(cols2, d.values2.Keys);
    if d.table == "" then Success(Statement("", []))
    else
      Success(Statement(
        "INSERT INTO " + d.table + ValuesClause(Columns(cols), Placeholders(|d.values|))
          + " ON DUPLICATE KEY UPDATE " + SubstrClamped(Assignments(cols2), 1, [])
          + LimitClause(d.limit, d.dbType),
        ArgsOf(d.values, cols) + ArgsOf(d.values2, cols2)))
  }

  function RenderSelect(d: Descriptor): Result<Statement, string>
  {
    Success(Statement(
      "SELECT " + d.field + Clause(" FROM ", d.table) + Clause(" WHERE ", d.where)
        + Clause(" GROUP BY ", d.group) + Clause(" ORDER BY ", d.order)
        + LimitClause(d.limit, d.dbType),
      []))
  }

  /** The statement ToSql renders for d when `range` visits the keys of
      `values` in the order cols and those of `values2` in the order cols2. */
  function Render(d: Descriptor, cols: seq<string>, cols2: seq<string>): Result<Statement, string>
    requires IsEnumeration(cols, d.values.Keys) && IsEnumeration(cols2, d.values2.Keys)
  {
    match d.kind
    case Insert => RenderInsert(d, cols)
    case Delete => RenderDelete(d)
    case Update => RenderUpdate(d, cols)
    case InsertUpdate => RenderInsertUpdate(d, cols, cols2)
    case Select => RenderSelect(d)
  }

  /** The text, error and args a render leaves: its error with empty text and
      no args, or its statement. */
  predicate Outcome(r: Result<Statement, string>, s: string, err: Option<string>, args: seq<Arg>)
  {
    match r
    case Failure(e) => s == "" && err == Some(e) && args == []
    case Success(st) => s == st.sql && err == None && args == st.args
  }

  /** What ToSql returns for the render r: its error with empty text and no
      args, or its statement, inlined when exactly one true flag was passed. */
  predicate Finished(r: Result<Statement, string>, returnFullSql: seq<bool>, str: string, err: Option<string>, args: seq<Arg>)
  {
    match r
    case Failure(e) => str == "" && err == Some(e) && args == []
    case Success(st) =>
      && args == st.args
      && if |returnFullSql| == 1 && returnFullSql[0] then
           match Inline(st.sql, st.args)
           case Success(t) => str == t && err == None
           case Failure(e) => str == "" && err == Some(e)
         else str == st.sql && err == None
  }

  /** The text Limit(count, offset...) stores: "offset,count" or "count". */
  function LimitText(count: Int64, offset: seq<Int64>): (t: string)
    ensures |offset| == 0 ==> ParseInt(t) == Parsed(count)
    ensures |offset| > 0 ==>
      var i := |Itoa(offset[0])|;
      && i < |t| && t[i] == ','
      && ParseInt(t[..i]) == Parsed(offset[0])
      && ParseInt(t[i + 1..]) == Parsed(count)
  {
    if |offset| > 0 then
      var o := Itoa(offset[0]);
      var t := o + "," + Itoa(count);
      assert t[..|o|] == o && t[|o| + 1..] == Itoa(count);
      t
    else Itoa(count)
  }

  // ---------------------------------------------------------------------------
  // The SQ builder object

  class SQ {
    var kind: Kind
    /** The Type of the Database the statement is built for. */
    var dbType: string
    var field: string
    var table: string
    var where: string
    var group: string
    var order: string
    var limit: string
    var values: Values?
    var values2: Values?
    var ignore: bool
    var fullsql: bool
    var debug: bool
    var unsafe: bool
    var args: seq<Arg>

    /** The part of the object ToSql reads. */
    function Snapshot(): Descriptor
      reads this`kind, this`dbType, this`field, this`table, this`where, this`group
      reads this`order, this`limit, this`values, this`values2, this`ignore, this`unsafe
      reads values, values2
    {
      Descriptor(kind, dbType, field, table, where, group, order, limit,
        Entries(values), Entries(values2), ignore, unsafe)
    }

    /** Insert(ignore...): IGNORE only when exactly one true flag is given. */
    constructor Insert(ignore: seq<bool>, dbType: string)
      ensures Snapshot() == Descriptor(Kind.Insert, dbType, "", "", "", "", "", "",
        map[], map[], |ignore| == 1 && ignore[0], false)
      ensures values != null && fresh(values) && values2 == null
      ensures args == [] && !fullsql && !debug
    {
      kind := Kind.Insert;
      this.dbType := dbType;
      field, table, where, group, order, limit := "", "", "", "", "", "";
      values := new Values();
      values2 := null;
      this.ignore := |ignore| == 1 && ignore[0];
      fullsql, debug, unsafe := false, false, false;
      args := [];
    }

    /** Delete(): both value maps are nil. */
    constructor Delete(dbType: string)
      ensures Snapshot() == Descriptor(Kind.Delete, dbType, "", "", "", "", "", "",
        map[], map[], false, false)
      ensures values == null && values2 == null
      ensures args == [] && !fullsql && !debug
    {
      kind := Kind.Delete;
      this.dbType := dbType;
      field, table, where, group, order, limit := "", "", "", "", "", "";
      values, values2 := null, null;
      ignore, fullsql, debug, unsafe := false, false, false, false;
      args := [];
    }

    /** Update(): an empty values map, a nil values2. */
    constructor Update(dbType: string)
      ensures Snapshot() == Descriptor(Kind.Update, dbType, "", "", "", "", "", "",
        map[], map[], false, false)
      ensures values != null && fresh(values) && values2 == null
      ensures args == [] && !fullsql && !debug
    {
      kind := Kind.Update;
      this.dbType := dbType;
      field, table, where, group, order, limit := "", "", "", "", "", "";
      values := new Values();
      values2 := null;
      ignore, fullsql, debug, unsafe := false, false, false, false;
      args := [];
    }

    /** InsertUpdate(): two distinct empty maps. */
    constructor InsertUpdate(dbType: string)
      ensures Snapshot() == Descriptor(Kind.InsertUpdate, dbType, "", "", "", "", "", "",
        map[], map[], false, false)
      ensures values != null && values2 != null && fresh(values) && fresh(values2)
      ensures values != values2
      ensures args == [] && !fullsql && !debug
    {
      kind := Kind.InsertUpdate;
      this.dbType := dbType;
      field, table, where, group, order, limit := "", "", "", "", "", "";
      values := new Values();
      values2 := new Values();
      ignore, fullsql, debug, unsafe := false, false, false, false;
      args := [];
    }

    /** Select(str...): the field list is "*" unless exactly one is given. */
    constructor Select(str: seq<string>, dbType: string)
      ensures Snapshot() == Descriptor(Kind.Select, dbType, if |str| == 1 then str[0] else "*",
        "", "", "", "", "", map[], map[], false, false)
      ensures values == null && values2 == null
      ensures args == [] && !fullsql && !debug
    {
      kind := Kind.Select;
      this.dbType := dbType;
      field := if |str| == 1 then str[0] else "*";
      table, where, group, order, limit := "", "", "", "", "";
      values, values2 := null, null;
      ignore, fullsql, debug, unsafe := false, false, false, false;
      args := [];
    }

    /** DB(db): the dialect the statement is rendered for. */
    method DB(dbType: string)
      modifies this`dbType
      ensures this.dbType == dbType
    {
      this.dbType := dbType;
    }

    method From(str: string)
      modifies this`table
      ensures table == str
    {
      table := str;
    }

    method Table(str: string)
      modifies this`table
      ensures table == str
    {
      From(str);
    }

    method Where(str: string)
      modifies this`where
      ensures where == str
    {
      where := str;
    }

    method Group(str: string)
      modifies this`group
      ensures group == str
    {
      group := str;
    }

    method Order(str: string)
      modifies this`order
      ensures order == str
    {
      order := str;
    }

    method Limit(count: Int64, offset: seq<Int64>)
      modifies this`limit
      ensures limit == LimitText(count, offset)
    {
      if |offset| > 0 {
        limit := Itoa(offset[0]) + "," + Itoa(count);
      } else {
        limit := Itoa(count);
      }
    }

    /** Unsafe(flags...): on unless exactly one false flag is given. */
    method Unsafe(flags: seq<bool>)
      modifies this`unsafe
      ensures unsafe <==> !(|flags| == 1 && !flags[0])
    {
      if |flags| == 1 && !flags[0] {
        unsafe := false;
      } else {
        unsafe := true;
      }
    }

    /** Debug(flags...): on unless exactly one false flag is given. */
    method Debug(flags: seq<bool>)
      modifies this`debug
      ensures debug <==> !(|flags| == 1 && !flags[0])
    {
      if |flags| == 1 && !flags[0] {
        debug := false;
      } else {
        debug := true;
      }
    }

    /** Value(m): the builder shares the caller's map. */
    method Value(m: Values?)
      modifies this`values
      ensures values == m
    {
      values := m;
    }

    method Value2(m: Values?)
      modifies this`values2
      ensures values2 == m
    {
      values2 := m;
    }

    /** AddValue writes into the shared map; Go panics on a nil one. */
    method AddValue(key: string, val: Arg)
      requires values != null
      modifies values
      ensures values.entries == old(values.entries)[key := val]
    {
      values.Add(key, val);
    }

    method AddValue2(key: string, val: Arg)
      requires values2 != null
      modifies values2
      ensures values2.entries == old(values2.entries)[key := val]
    {
      values2.Add(key, val);
    }

    /** FullSql(yes...): the given flag, or on when none or several are given. */
    method FullSql(yes: seq<bool>)
      modifies this`fullsql
      ensures fullsql == (if |yes| == 1 then yes[0] else true)
    {
      if |yes| == 1 {
        fullsql := yes[0];
      } else {
        fullsql := true;
      }
    }

    /** The arguments collected by the last ToSql. */
    function GetArgs(): (r: seq<Arg>)
      reads this
      ensures r == args
    {
      args
    }

    /** The loop shared by INSERT and INSERT ... ON DUPLICATE KEY UPDATE: one
        ",`k`" per key of the map, its value appended to args in the same
        step. */
    method InsertFields(m: map<string, Arg>) returns (fields: string, ghost cols: seq<string>)
      modifies this`args
      ensures IsEnumeration(cols, m.Keys)
      ensures forall i :: 0 <= i < |cols| ==> cols[i] in m
      ensures fields == Columns(cols)
      ensures args == old(args) + ArgsOf(m, cols)
    {
      var remaining := m.Keys;
      fields := "";
      cols := [];
      while remaining != {}
        invariant remaining <= m.Keys
        invariant IsEnumeration(cols, m.Keys - remaining)
        invariant forall i :: 0 <= i < |cols| ==> cols[i] in m
        invariant fields == Columns(cols)
        invariant args == old(args) + ArgsOf(m, cols)
        decreases |remaining|
      {
        var k :| k in remaining;
        EnumerationStep(cols, m.Keys - remaining, k);
        assert (m.Keys - remaining) + {k} == m.Keys - (remaining - {k});
        fields := fields + Column(k);
        args := args + [m[k]];
        VisitStep(m, cols, k);
        cols := cols + [k];
        remaining := remaining - {k};
      }
      assert m.Keys - remaining == m.Keys;
    }

    /** buildUpdateParams: one "`k`=?" per key, its value appended to args. */
    method BuildUpdateParams(m: map<string, Arg>) returns (text: string, ghost cols: seq<string>)
      modifies this`args
      ensures IsEnumeration(cols, m.Keys)
      ensures forall i :: 0 <= i < |cols| ==> cols[i] in m
      ensures text == Assignments(cols)
      ensures args == old(args) + ArgsOf(m, cols)
    {
      var remaining := m.Keys;
      text := "";
      cols := [];
      while remaining != {}
        invariant remaining <= m.Keys
        invariant IsEnumeration(cols, m.Keys - remaining)
        invariant forall i :: 0 <= i < |cols| ==> cols[i] in m
        invariant text == Assignments(cols)
        invariant args == old(args) + ArgsOf(m, cols)
        decreases |remaining|
      {
        var k :| k in remaining;
        EnumerationStep(cols, m.Keys - remaining, k);
        assert (m.Keys - remaining) + {k} == m.Keys - (remaining - {k});
        text := text + Assignment(k);
        args := args + [m[k]];
        VisitStep(m, cols, k);
        cols := cols + [k];
        remaining := remaining - {k};
      }
      assert m.Keys - remaining == m.Keys;
    }

    /** The INSERT branch of ToSql; cols is the order the values were visited in. */
    method BuildInsert(ghost d: Descriptor, ghost cols2: seq<string>) returns (s: string, err: Option<string>, ghost cols: seq<string>)
      requires kind == Kind.Insert && args == []
      requires d == Snapshot() && IsEnumeration(cols2, d.values2.Keys)
      modifies this`args
      ensures IsEnumeration(cols, d.values.Keys)
      ensures Outcome(Render(d, cols, cols2), s, err, args)
    {
      cols := SomeEnumeration(d.values.Keys);
      s, err := "", None;
      if table == "" {
        err := Some("table cannot be empty");
        return;
      }
      if |Entries(values)| == 0 {
        err := Some("values cannot be empty");
        return;
      }
      s := (if ignore then "INSERT IGNORE INTO " else "INSERT INTO ") + table;
      var placeholder := Placeholders(|Entries(values)|);
      var fields;
      fields, cols := InsertFields(Entries(values));
      s := s + ValuesClause(fields, placeholder);
      assert [] + ArgsOf(Entries(values), cols) == ArgsOf(Entries(values), cols);
    }

    /** The DELETE branch of ToSql. */
    method BuildDelete(ghost d: Descriptor, ghost cols: seq<string>, ghost cols2: seq<string>) returns (s: string, err: Option<string>)
      requires kind == Kind.Delete && args == []
      requires d == Snapshot() && IsEnumeration(cols, d.values.Keys) && IsEnumeration(cols2, d.values2.Keys)
      ensures Outcome(Render(d, cols, cols2), s, err, args)
    {
      s, err := "", None;
      if table != "" {
        if where == "" && !unsafe {
          err := Some("deleting all data is not safe");
          return;
        }
        s := "DELETE FROM " + table;
        s := s + Clause(" WHERE ", where);
        s := s + LimitClause(limit, dbType);
      }
    }

    /** The UPDATE branch of ToSql. */
    method BuildUpdate(ghost d: Descriptor, ghost cols2: seq<string>) returns (s: string, err: Option<string>, ghost cols: seq<string>)
      requires kind == Kind.Update && args == []
      requires d == Snapshot() && IsEnumeration(cols2, d.values2.Keys)
      modifies this`args
      ensures IsEnumeration(cols, d.values.Keys)
      ensures Outcome(Render(d, cols, cols2), s, err, args)
    {
      cols := SomeEnumeration(d.values.Keys);
      s, err := "", None;
      if table != "" {
        if where == "" && !unsafe {
          err := Some("updating all data is not safe");
          return;
        }
        s := "UPDATE " + table + " SET ";
        var assignments;
        assignments, cols := BuildUpdateParams(Entries(values));
        s := s + SubstrClamped(assignments, 1, []);
        s := s + Clause(" WHERE ", where);
        s := s + LimitClause(limit, dbType);
        assert [] + ArgsOf(Entries(values), cols) == ArgsOf(Entries(values), cols);
      }
    }

    /** The INSERT ... ON DUPLICATE KEY UPDATE branch of ToSql. */
    method BuildInsertUpdate(ghost d: Descriptor) returns (s: string, err: Option<string>, ghost cols: seq<string>, ghost cols2: seq<string>)
      requires kind == Kind.InsertUpdate && args == []
      requires d == Snapshot()
      modifies this`args
      ensures IsEnumeration(cols, d.values.Keys)
      ensures IsEnumeration(cols2, d.values2.Keys)
      ensures Outcome(Render(d, cols, cols2), s, err, args)
    {
      var m, m2 := Entries(values), Entries(values2);
      cols := SomeEnumeration(m.Keys);
      cols2 := SomeEnumeration(m2.Keys);
      s, err := "", None;
      if table != "" {
        s := "INSERT INTO " + table;
        var placeholder := Placeholders(|m|);
        var fields;
        fields, cols := InsertFields(m);
        s := s + ValuesClause(fields, placeholder) + " ON DUPLICATE KEY UPDATE ";
        var assignments;
        assignments, cols2 := BuildUpdateParams(m2);
        s := s + SubstrClamped(assignments, 1, []);
        s := s + LimitClause(limit, dbType);
        assert [] + ArgsOf(m, cols) == ArgsOf(m, cols);
      }
    }

    /** The SELECT branch of ToSql. */
    method BuildSelect(ghost d: Descriptor, ghost cols: seq<string>, ghost cols2: seq<string>) returns (s: string, err: Option<string>)
      requires kind == Kind.Select && args == []
      requires d == Snapshot() && IsEnumeration(cols, d.values.Keys) && IsEnumeration(cols2, d.values2.Keys)
      ensures Outcome(Render(d, cols, cols2), s, err, args)
    {
      err := None;
      s := "SELECT " + field;
      s := s + Clause(" FROM ", table);
      s := s + Clause(" WHERE ", where);
      s := s + Clause(" GROUP BY ", group);
      s := s + Clause(" ORDER BY ", order);
      s := s + LimitClause(limit, dbType);
    }

    /** The switch of ToSql: the branch of the statement's kind renders it. */
    method Build(ghost d: Descriptor) returns (s: string, err: Option<string>, ghost cols: seq<string>, ghost cols2: seq<string>)
      requires args == [] && d == Snapshot()
      modifies this`args
      ensures IsEnumeration(cols, d.values.Keys) && IsEnumeration(cols2, d.values2.Keys)
      ensures Outcome(Render(d, cols, cols2), s, err, args)
    {
      cols := SomeEnumeration(d.values.Keys);
      cols2 := SomeEnumeration(d.values2.Keys);
      match kind {
        case Insert =>
          s, err, cols := BuildInsert(d, cols2);
        case Delete =>
          s, err := BuildDelete(d, cols, cols2);
        case Update =>
          s, err, cols := BuildUpdate(d, cols2);
        case InsertUpdate =>
          s, err, cols, cols2 := BuildInsertUpdate(d);
        case Select =>
          s, err := BuildSelect(d, cols, cols2);
      }
    }

    /** The FullSql step of ToSql: with exactly one true flag the arguments
        of the rendered statement r are inlined into its text; a failure
        empties the text. */
    method Finish(ghost r: Result<Statement, string>, s: string, err: Option<string>, returnFullSql: seq<bool>)
      returns (str: string, err2: Option<string>)
      requires Outcome(r, s, err, args)
      ensures Finished(r, returnFullSql, str, err2, args)
    {
      str, err2 := s, err;
      if err.None? && |returnFullSql| == 1 && returnFullSql[0] {
        var inlined := Inliner.FullSql(s, args);
        match inlined {
          case Success(t) =>
            str := t;
          case Failure(e) =>
            str := "";
            err2 := Some(e);
        }
      }
    }

    /** ToSql(returnFullSql...): args is rebuilt from scratch; with exactly one
        true flag the arguments are inlined into the text. cols and cols2 are
        the orders in which the two maps were visited. */
    method ToSql(returnFullSql: seq<bool>)
      returns (str: string, err: Option<string>, ghost cols: seq<string>, ghost cols2: seq<string>)
      modifies this`args
      ensures IsEnumeration(cols, Snapshot().values.Keys)
      ensures IsEnumeration(cols2, Snapshot().values2.Keys)
      ensures Finished(Render(Snapshot(), cols, cols2), returnFullSql, str, err, args)
    {
      ghost var d := Snapshot();
      args := [];
      var s, e;
      s, e, cols, cols2 := Build(d);
      str, err := Finish(Render(d, cols, cols2), s, e, returnFullSql);
    }
  }
}
