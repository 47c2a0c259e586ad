/** What ToSql promises, stated over every order in which Go's `range` may
    visit the value maps: the refusals, the LIMIT rule, the alignment of the
    rendered columns with `args`, and the agreement between the number of `?`
    placeholders and the number of arguments that FullSql later inlines. */
module SqlProperties {
  import opened Wrappers
  import opened Utils
  import opened Inliner
  import opened SqlBuilder

  // ---------------------------------------------------------------------------
  // Refusals and empty statements

  /** INSERT checks the table before the values. */
  lemma InsertRefusals(d: Descriptor, cols: seq<string>, cols2: seq<string>)
    requires d.kind == Insert
    requires IsEnumeration(cols, d.values.Keys) && IsEnumeration(cols2, d.values2.Keys)
    ensures d.table == "" ==> Render(d, cols, cols2) == Failure("table cannot be empty")
    ensures d.table != "" && |d.values| == 0 ==> Render(d, cols, cols2) == Failure("values cannot be empty")
    ensures Render(d, cols, cols2).Success? <==> d.table != "" && |d.values| > 0
  {
  }

  /** DELETE, UPDATE and INSERT ... ON DUPLICATE KEY UPDATE on an empty table
      render nothing, with no error and no arguments. */
  lemma EmptyTableRendersNothing(d: Descriptor, cols: seq<string>, cols2: seq<string>)
    requires d.kind in {Delete, Update, InsertUpdate} && d.table == ""
    requires IsEnumeration(cols, d.values.Keys) && IsEnumeration(cols2, d.values2.Keys)
    ensures Render(d, cols, cols2) == Success(Statement("", []))
  {
  }

  /** DELETE and UPDATE of a named table without WHERE are refused exactly
      when the unsafe switch is off. */
  lemma UnsafeGuard(d: Descriptor, cols: seq<string>, cols2: seq<string>)
    requires d.kind in {Delete, Update} && d.table != ""
    requires IsEnumeration(cols, d.values.Keys) && IsEnumeration(cols2, d.values2.Keys)
    ensures Render(d, cols, cols2).Failure? <==> d.where == "" && !d.unsafe
    ensures Render(d, cols, cols2).Failure? ==>
      Render(d, cols, cols2).error ==
        (if d.kind == Delete then "deleting all data is not safe" else "updating all data is not safe")
  {
  }

  // ---------------------------------------------------------------------------
  // The LIMIT rule

  /** LIMIT is appended last, for the "" and "mysql" dialects only; INSERT
      never has one. */
  lemma LimitRule(d: Descriptor, cols: seq<string>, cols2: seq<string>)
    requires IsEnumeration(cols, d.values.Keys) && IsEnumeration(cols2, d.values2.Keys)
    ensures d.kind == Insert || d.limit == "" || (d.dbType != "" && d.dbType != MySql) ==>
      Render(d, cols, cols2) == Render(d.(limit := ""), cols, cols2)
    ensures
      var r0 := Render(d.(limit := ""), cols, cols2);
      d.kind != Insert && d.limit != "" && (d.dbType == "" || d.dbType == MySql)
        && r0.Success? && r0.value.sql != "" ==>
        Render(d, cols, cols2) == Success(Statement(r0.value.sql + (" LIMIT " + d.limit), r0.value.args))
  {
    var d0 := d.(limit := "");
    assert LimitClause(d0.limit, d0.dbType) == "";
    match d.kind {
      case Insert =>
      case Delete =>
        if d.table != "" && (d.where != "" || d.unsafe) {
          var p := "DELETE FROM " + d.table + Clause(" WHERE ", d.where);
          assert p + "" == p;
        }
      case Update =>
        if d.table != "" && (d.where != "" || d.unsafe) {
          var p := "UPDATE " + d.table + " SET " + SubstrClamped(Assignments(cols), 1, []) + Clause(" WHERE ", d.where);
          assert p + "" == p;
        }
      case InsertUpdate =>
        if d.table != "" {
          var p := "INSERT INTO " + d.table + ValuesClause(Columns(cols), Placeholders(|d.values|))
            + " ON DUPLICATE KEY UPDATE " + SubstrClamped(Assignments(cols2), 1, []);
          assert p + "" == p;
        }
      case Select =>
        var p := "SELECT " + d.field + Clause(" FROM ", d.table) + Clause(" WHERE ", d.where)
          + Clause(" GROUP BY ", d.group) + Clause(" ORDER BY ", d.order);
        assert p + "" == p;
    }
  }

  // ---------------------------------------------------------------------------
  // Arguments

  /** SELECT and DELETE never carry arguments. */
  lemma NoArgs(d: Descriptor, cols: seq<string>, cols2: seq<string>)
    requires d.kind in {Select, Delete}
    requires IsEnumeration(cols, d.values.Keys) && IsEnumeration(cols2, d.values2.Keys)
    ensures Render(d, cols, cols2).Success? ==> Render(d, cols, cols2).value.args == []
    ensures d.kind == Select ==> Render(d, cols, cols2).Success?
  {
  }

  /** The i-th argument is the value of the i-th visited key, and every key is
      visited once: the map is recovered from the columns and the arguments. */
  lemma {:induction false} Aligned(m: map<string, Arg>, cols: seq<string>)
    requires IsEnumeration(cols, m.Keys)
    ensures forall i :: 0 <= i < |cols| ==> cols[i] in m
    ensures |ArgsOf(m, cols)| == |cols| == |m|
    ensures forall i :: 0 <= i < |cols| ==> ArgsOf(m, cols)[i] == m[cols[i]]
  {
    EnumerationFacts(cols, m.Keys);
    ArgsAligned(m, cols);
  }

  /** Every value of the map is rendered: some column carries its key and the
      argument at that column's position is the value. */
  lemma EveryValueRendered(m: map<string, Arg>, cols: seq<string>)
    requires IsEnumeration(cols, m.Keys)
    ensures forall i :: 0 <= i < |cols| ==> cols[i] in m
    ensures forall k :: k in m ==> exists i :: 0 <= i < |cols| && cols[i] == k && ArgsOf(m, cols)[i] == m[k]
  {
    EnumerationFacts(cols, m.Keys);
    ArgsAligned(m, cols);
    forall k | k in m
      ensures exists i :: 0 <= i < |cols| && cols[i] == k && ArgsOf(m, cols)[i] == m[k]
    {
      var i :| 0 <= i < |cols| && cols[i] == k;
    }
  }

  /** INSERT: one argument per value, aligned with the rendered columns. */
  lemma InsertArgs(d: Descriptor, cols: seq<string>, cols2: seq<string>)
    requires d.kind == Insert
    requires IsEnumeration(cols, d.values.Keys) && IsEnumeration(cols2, d.values2.Keys)
    requires Render(d, cols, cols2).Success?
    ensures var st := Render(d, cols, cols2).value;
      && |st.args| == |cols| == |d.values|
      && forall i :: 0 <= i < |cols| ==> cols[i] in d.values && st.args[i] == d.values[cols[i]]
  {
    Aligned(d.values, cols);
  }

  /** INSERT ... ON DUPLICATE KEY UPDATE: the values' arguments, then those of
      values2, each aligned with its own visiting order. */
  lemma InsertUpdateArgs(d: Descriptor, cols: seq<string>, cols2: seq<string>)
    requires d.kind == InsertUpdate && d.table != ""
    requires IsEnumeration(cols, d.values.Keys) && IsEnumeration(cols2, d.values2.Keys)
    ensures var st := Render(d, cols, cols2).value;
      && |st.args| == |d.values| + |d.values2|
      && (forall i :: 0 <= i < |cols| ==> cols[i] in d.values && st.args[i] == d.values[cols[i]])
      && (forall i :: 0 <= i < |cols2| ==> cols2[i] in d.values2 && st.args[|cols| + i] == d.values2[cols2[i]])
  {
    Aligned(d.values, cols);
    Aligned(d.values2, cols2);
    var a, b := ArgsOf(d.values, cols), ArgsOf(d.values2, cols2);
    assert Render(d, cols, cols2).value.args == a + b;
    forall i | 0 <= i < |cols2|
      ensures (a + b)[|cols| + i] == b[i]
    {
    }
  }

  // ---------------------------------------------------------------------------
  // Placeholders

  /** No `?` in any fragment nor in any key. */
  predicate NoMarks(d: Descriptor)
  {
    && '?' !in d.field && '?' !in d.table && '?' !in d.where
    && '?' !in d.group && '?' !in d.order && '?' !in d.limit
    && (forall k :: k in d.values ==> '?' !in k)
    && (forall k :: k in d.values2 ==> '?' !in k)
  }

  /** Removing a first character other than `?` keeps the count of `?`. */
  lemma DropFirstCount(x: string)
    requires x == "" || x[0] != '?'
    ensures CountChar(SubstrClamped(x, 1, []), '?') == CountChar(x, '?')
  {
    SubstrDropsFirst(x);
    if x != "" {
      assert x == [x[0]] + x[1..];
      CountConcat([x[0]], x[1..], '?');
      assert [x[0]][..0] == "";
    }
  }

  /** strings.Repeat(",?", n) holds n placeholders and starts with a comma. */
  lemma {:induction false} PlaceholdersCount(n: nat)
    ensures CountChar(Placeholders(n), '?') == n
    ensures n > 0 ==> |Placeholders(n)| > 0 && Placeholders(n)[0] == ','
  {
    if n > 0 {
      PlaceholdersCount(n - 1);
      CountConcat(Placeholders(n - 1), ",?", '?');
      assert ",?"[..1] == ",";
    }
  }

  /** The column list has no `?` and starts with a comma. */
  lemma {:induction false} ColumnsCount(cols: seq<string>)
    requires forall i :: 0 <= i < |cols| ==> '?' !in cols[i]
    ensures CountChar(Columns(cols), '?') == 0
    ensures cols != [] ==> |Columns(cols)| > 0 && Columns(cols)[0] == ','
  {
    if cols != [] {
      ColumnsCount(cols[..|cols| - 1]);
      var k := cols[|cols| - 1];
      assert '?' !in Column(k);
      CountZero(Column(k), '?');
      CountConcat(Columns(cols[..|cols| - 1]), Column(k), '?');
    }
  }

  /** One `?` per assignment, and a leading comma. */
  lemma {:induction false} AssignmentsCount(cols: seq<string>)
    requires forall i :: 0 <= i < |cols| ==> '?' !in cols[i]
    ensures CountChar(Assignments(cols), '?') == |cols|
    ensures cols != [] ==> |Assignments(cols)| > 0 && Assignments(cols)[0] == ','
  {
    if cols != [] {
      AssignmentsCount(cols[..|cols| - 1]);
      AssignmentCount(cols[|cols| - 1]);
      CountConcat(Assignments(cols[..|cols| - 1]), Assignment(cols[|cols| - 1]), '?');
    }
  }

  /** ",`k`=?" holds exactly one placeholder. */
  lemma AssignmentCount(k: string)
    requires '?' !in k
    ensures CountChar(Assignment(k), '?') == 1
  {
    CountZero(",`", '?');
    CountZero(k, '?');
    assert "`=?"[..2] == "`=";
    CountZero("`=", '?');
    Count3(",`", k, "`=?");
  }

  /** The keywords ToSql writes contain no placeholder. */
  lemma KeywordsUnmarked()
    ensures CountChar("INSERT INTO ", '?') == 0 && CountChar("INSERT IGNORE INTO ", '?') == 0
    ensures CountChar("UPDATE ", '?') == 0 && CountChar(" SET ", '?') == 0
    ensures CountChar("DELETE FROM ", '?') == 0 && CountChar("SELECT ", '?') == 0
    ensures CountChar(" ON DUPLICATE KEY UPDATE ", '?') == 0
    ensures CountChar(" (", '?') == 0 && CountChar(") VALUES (", '?') == 0 && CountChar(")", '?') == 0
    ensures CountChar(" FROM ", '?') == 0 && CountChar(" WHERE ", '?') == 0
    ensures CountChar(" GROUP BY ", '?') == 0 && CountChar(" ORDER BY ", '?') == 0
    ensures CountChar(" LIMIT ", '?') == 0
  {
    StatementKeywordsUnmarked();
    ClauseKeywordsUnmarked();
  }

  lemma StatementKeywordsUnmarked()
    ensures CountChar("INSERT INTO ", '?') == 0 && CountChar("INSERT IGNORE INTO ", '?') == 0
    ensures CountChar("UPDATE ", '?') == 0 && CountChar(" SET ", '?') == 0
    ensures CountChar("DELETE FROM ", '?') == 0 && CountChar("SELECT ", '?') == 0
    ensures CountChar(" ON DUPLICATE KEY UPDATE ", '?') == 0
  {
    CountZero("INSERT INTO ", '?');
    CountZero("INSERT IGNORE INTO ", '?');
    CountZero("UPDATE ", '?');
    CountZero(" SET ", '?');
    CountZero("DELETE FROM ", '?');
    CountZero("SELECT ", '?');
    CountZero(" ON DUPLICATE KEY UPDATE ", '?');
  }

  lemma ClauseKeywordsUnmarked()
    ensures CountChar(" (", '?') == 0 && CountChar(") VALUES (", '?') == 0 && CountChar(")", '?') == 0
    ensures CountChar(" FROM ", '?') == 0 && CountChar(" WHERE ", '?') == 0
    ensures CountChar(" GROUP BY ", '?') == 0 && CountChar(" ORDER BY ", '?') == 0
    ensures CountChar(" LIMIT ", '?') == 0
  {
    CountZero(" (", '?');
    CountZero(") VALUES (", '?');
    CountZero(")", '?');
    CountZero(" FROM ", '?');
    CountZero(" WHERE ", '?');
    CountZero(" GROUP BY ", '?');
    CountZero(" ORDER BY ", '?');
    CountZero(" LIMIT ", '?');
  }

  /** Counting over three concatenated pieces. */
  lemma Count3(a: string, b: string, c: string)
    ensures CountChar(a + b + c, '?') == CountChar(a, '?') + CountChar(b, '?') + CountChar(c, '?')
  {
    CountConcat(a, b, '?');
    CountConcat(a + b, c, '?');
  }

  /** Counting over four concatenated pieces. */
  lemma Count4(a: string, b: string, c: string, e: string)
    ensures CountChar(a + b + c + e, '?') == CountChar(a, '?') + CountChar(b, '?') + CountChar(c, '?') + CountChar(e, '?')
  {
    Count3(a, b, c);
    CountConcat(a + b + c, e, '?');
  }

  /** The placeholders of " (cols) VALUES (?,...)" are those of its two lists. */
  lemma ValuesClauseCount(fields: string, placeholder: string)
    ensures CountChar(ValuesClause(fields, placeholder), '?')
      == CountChar(SubstrClamped(fields, 1, []), '?') + CountChar(SubstrClamped(placeholder, 1, []), '?')
  {
    var a, b := SubstrClamped(fields, 1, []), SubstrClamped(placeholder, 1, []);
    KeywordsUnmarked();
    Count4(" (", a, ") VALUES (", b);
    CountConcat(" (" + a + ") VALUES (" + b, ")", '?');
  }

  /** The keys of an enumeration of a map without marked keys have no mark. */
  lemma UnmarkedColumns(m: map<string, Arg>, cols: seq<string>)
    requires IsEnumeration(cols, m.Keys)
    requires forall k :: k in m ==> '?' !in k
    ensures forall i :: 0 <= i < |cols| ==> '?' !in cols[i]
    ensures |cols| == |m|
  {
    EnumerationFacts(cols, m.Keys);
  }

  /** With no `?` in the fragments and keys, every statement ToSql renders has
      exactly as many placeholders as arguments. */
  lemma PlaceholdersMatchArgs(d: Descriptor, cols: seq<string>, cols2: seq<string>)
    requires NoMarks(d)
    requires IsEnumeration(cols, d.values.Keys) && IsEnumeration(cols2, d.values2.Keys)
    requires Render(d, cols, cols2).Success?
    ensures CountChar(Render(d, cols, cols2).value.sql, '?') == |Render(d, cols, cols2).value.args|
  {
    UnmarkedColumns(d.values, cols);
    UnmarkedColumns(d.values2, cols2);
    CountZero(d.table, '?');
    CountZero(d.where, '?');
    CountZero(d.limit, '?');
    match d.kind {
      case Insert =>
        InsertTextCount(d.ignore, d.table, cols, |d.values|);
      case Update =>
        if d.table != "" {
          UpdateTextCount(d.table, cols, d.where, d.limit, d.dbType);
        }
      case InsertUpdate =>
        if d.table != "" {
          InsertUpdateTextCount(d.table, cols, |d.values|, cols2, d.limit, d.dbType);
        }
      case Delete =>
        if d.table != "" {
          DeleteTextCount(d.table, d.where, d.limit, d.dbType);
        }
      case Select =>
        CountZero(d.field, '?');
        CountZero(d.group, '?');
        CountZero(d.order, '?');
        SelectTextCount(d);
    }
  }

  /** An optional clause has the placeholders of its fragment. */
  lemma ClauseCount(kw: string, frag: string)
    requires CountChar(kw, '?') == 0
    ensures CountChar(Clause(kw, frag), '?') == CountChar(frag, '?')
  {
    CountConcat(kw, frag, '?');
  }

  /** The LIMIT clause has the placeholders of the limit fragment, if any. */
  lemma LimitClauseCount(limit: string, dbType: string)
    ensures CountChar(LimitClause(limit, dbType), '?') <= CountChar(limit, '?')
  {
    KeywordsUnmarked();
    ClauseCount(" LIMIT ", limit);
  }

  /** The INSERT text has one placeholder per value. */
  lemma InsertTextCount(ignore: bool, table: string, cols: seq<string>, n: nat)
    requires CountChar(table, '?') == 0
    requires forall i :: 0 <= i < |cols| ==> '?' !in cols[i]
    ensures CountChar((if ignore then "INSERT IGNORE INTO " else "INSERT INTO ") + table
      + ValuesClause(Columns(cols), Placeholders(n)), '?') == n
  {
    ValuesClauseHolds(cols, n);
    KeywordsUnmarked();
    Count3(if ignore then "INSERT IGNORE INTO " else "INSERT INTO ", table, ValuesClause(Columns(cols), Placeholders(n)));
  }

  /** " (cols) VALUES (?,...)" with n placeholders holds n marks. */
  lemma ValuesClauseHolds(cols: seq<string>, n: nat)
    requires forall i :: 0 <= i < |cols| ==> '?' !in cols[i]
    ensures CountChar(ValuesClause(Columns(cols), Placeholders(n)), '?') == n
  {
    ColumnsCount(cols);
    PlaceholdersCount(n);
    DropFirstCount(Columns(cols));
    DropFirstCount(Placeholders(n));
    ValuesClauseCount(Columns(cols), Placeholders(n));
  }

  /** The UPDATE text has one placeholder per assignment. */
  lemma UpdateTextCount(table: string, cols: seq<string>, where: string, limit: string, dbType: string)
    requires CountChar(table, '?') == 0 && CountChar(where, '?') == 0 && CountChar(limit, '?') == 0
    requires forall i :: 0 <= i < |cols| ==> '?' !in cols[i]
    ensures CountChar("UPDATE " + table + " SET " + SubstrClamped(Assignments(cols), 1, [])
      + Clause(" WHERE ", where) + LimitClause(limit, dbType), '?') == |cols|
  {
    AssignmentsCount(cols);
    DropFirstCount(Assignments(cols));
    KeywordsUnmarked();
    ClauseCount(" WHERE ", where);
    LimitClauseCount(limit, dbType);
    Count3("UPDATE ", table, " SET ");
    Count4("UPDATE " + table + " SET ", SubstrClamped(Assignments(cols), 1, []), Clause(" WHERE ", where), LimitClause(limit, dbType));
  }

  /** The INSERT ... ON DUPLICATE KEY UPDATE text has one placeholder per value
      and one per assignment. */
  lemma InsertUpdateTextCount(table: string, cols: seq<string>, n: nat, cols2: seq<string>, limit: string, dbType: string)
    requires CountChar(table, '?') == 0 && CountChar(limit, '?') == 0
    requires forall i :: 0 <= i < |cols| ==> '?' !in cols[i]
    requires forall i :: 0 <= i < |cols2| ==> '?' !in cols2[i]
    ensures CountChar("INSERT INTO " + table + ValuesClause(Columns(cols), Placeholders(n))
      + " ON DUPLICATE KEY UPDATE " + SubstrClamped(Assignments(cols2), 1, []) + LimitClause(limit, dbType), '?')
      == n + |cols2|
  {
    InsertTextCount(false, table, cols, n);
    AssignmentsCount(cols2);
    DropFirstCount(Assignments(cols2));
    LimitClauseCount(limit, dbType);
    KeywordsUnmarked();
    Count4("INSERT INTO " + table + ValuesClause(Columns(cols), Placeholders(n)),
      " ON DUPLICATE KEY UPDATE ", SubstrClamped(Assignments(cols2), 1, []), LimitClause(limit, dbType));
  }

  /** The DELETE text has no placeholder. */
  lemma DeleteTextCount(table: string, where: string, limit: string, dbType: string)
    requires CountChar(table, '?') == 0 && CountChar(where, '?') == 0 && CountChar(limit, '?') == 0
    ensures CountChar("DELETE FROM " + table + Clause(" WHERE ", where) + LimitClause(limit, dbType), '?') == 0
  {
    KeywordsUnmarked();
    ClauseCount(" WHERE ", where);
    LimitClauseCount(limit, dbType);
    Count4("DELETE FROM ", table, Clause(" WHERE ", where), LimitClause(limit, dbType));
  }

  /** The SELECT text has no placeholder. */
  lemma SelectTextCount(d: Descriptor)
    requires CountChar(d.field, '?') == 0 && CountChar(d.table, '?') == 0 && CountChar(d.where, '?') == 0
    requires CountChar(d.group, '?') == 0 && CountChar(d.order, '?') == 0 && CountChar(d.limit, '?') == 0
    ensures CountChar("SELECT " + d.field + Clause(" FROM ", d.table) + Clause(" WHERE ", d.where)
      + Clause(" GROUP BY ", d.group) + Clause(" ORDER BY ", d.order) + LimitClause(d.limit, d.dbType), '?') == 0
  {
    var p3 := "SELECT " + d.field + Clause(" FROM ", d.table);
    KeywordsUnmarked();
    ClauseCount(" FROM ", d.table);
    ClauseCount(" WHERE ", d.where);
    ClauseCount(" GROUP BY ", d.group);
    ClauseCount(" ORDER BY ", d.order);
    LimitClauseCount(d.limit, d.dbType);
    Count3("SELECT ", d.field, Clause(" FROM ", d.table));
    Count4(p3, Clause(" WHERE ", d.where), Clause(" GROUP BY ", d.group), Clause(" ORDER BY ", d.order));
    CountConcat(p3 + Clause(" WHERE ", d.where) + Clause(" GROUP BY ", d.group) + Clause(" ORDER BY ", d.order),
      LimitClause(d.limit, d.dbType), '?');
  }

  // ---------------------------------------------------------------------------
  // ToSql(true)

  /** With unmarked fragments and keys and only supported argument types,
      ToSql(true) succeeds and each placeholder holds the literal of its own
      argument. */
  lemma FullSqlFillsRender(d: Descriptor, cols: seq<string>, cols2: seq<string>)
    requires NoMarks(d)
    requires IsEnumeration(cols, d.values.Keys) && IsEnumeration(cols2, d.values2.Keys)
    requires Render(d, cols, cols2).Success?
    requires forall k :: k in d.values ==> !d.values[k].Other?
    requires forall k :: k in d.values2 ==> !d.values2[k].Other?
    ensures var st := Render(d, cols, cols2).value;
      && (forall j :: 0 <= j < |st.args| ==> !st.args[j].Other?)
      && Inline(st.sql, st.args) == Success(Substitute(st.sql, Literals(st.args)))
  {
    var st := Render(d, cols, cols2).value;
    PlaceholdersMatchArgs(d, cols, cols2);
    ArgsSupported(d, cols, cols2);
    InlineFillsPlaceholders(st.sql, st.args);
  }

  /** The arguments of a render are values of its maps, so none is unsupported
      when no value is. */
  lemma ArgsSupported(d: Descriptor, cols: seq<string>, cols2: seq<string>)
    requires IsEnumeration(cols, d.values.Keys) && IsEnumeration(cols2, d.values2.Keys)
    requires Render(d, cols, cols2).Success?
    requires forall k :: k in d.values ==> !d.values[k].Other?
    requires forall k :: k in d.values2 ==> !d.values2[k].Other?
    ensures forall j :: 0 <= j < |Render(d, cols, cols2).value.args| ==> !Render(d, cols, cols2).value.args[j].Other?
  {
    EnumerationFacts(cols, d.values.Keys);
    EnumerationFacts(cols2, d.values2.Keys);
    ValuesSupported(d.values, cols);
    ValuesSupported(d.values2, cols2);
    match d.kind {
      case Insert =>
      case Update =>
      case InsertUpdate =>
      case Delete =>
      case Select =>
    }
  }

  /** The arguments taken from one map are values of that map. */
  lemma ValuesSupported(m: map<string, Arg>, cols: seq<string>)
    requires forall i :: 0 <= i < |cols| ==> cols[i] in m
    requires forall k :: k in m ==> !m[k].Other?
    ensures forall j :: 0 <= j < |cols| ==> !ArgsOf(m, cols)[j].Other?
  {
    ArgsAligned(m, cols);
  }

  // ---------------------------------------------------------------------------
  // Examples

  /** Select("id,name").From("user").Where("age > 18").Limit(10) on MySQL. */
  lemma SelectExample()
    ensures Render(Descriptor(Select, MySql, "id,name", "user", "age > 18", "", "", LimitText(10, []), map[], map[], false, false), [], [])
      == Success(Statement("SELECT id,name FROM user WHERE age > 18 LIMIT 10", []))
  {
    assert NatToDecimal(1) == "1" && NatToDecimal(10) == NatToDecimal(1) + "0";
    assert LimitText(10, []) == "10";
    SelectExampleText();
  }

  lemma SelectExampleText()
    ensures "SELECT " + "id,name" + Clause(" FROM ", "user") + Clause(" WHERE ", "age > 18")
      + Clause(" GROUP BY ", "") + Clause(" ORDER BY ", "") + LimitClause("10", MySql)
      == "SELECT id,name FROM user WHERE age > 18 LIMIT 10"
  {
    assert Clause(" FROM ", "user") == " FROM user";
    assert Clause(" WHERE ", "age > 18") == " WHERE age > 18";
    assert LimitClause("10", MySql) == " LIMIT 10";
    assert "SELECT " + "id,name" + " FROM user" == "SELECT id,name FROM user";
    assert "SELECT id,name FROM user" + " WHERE age > 18" == "SELECT id,name FROM user WHERE age > 18";
    assert "SELECT id,name FROM user WHERE age > 18" + "" + "" == "SELECT id,name FROM user WHERE age > 18";
    assert "SELECT id,name FROM user WHERE age > 18" + " LIMIT 10" == "SELECT id,name FROM user WHERE age > 18 LIMIT 10";
  }

  /** Delete().From("user") without WHERE is refused. */
  lemma DeleteAllRefused()
    ensures Render(Descriptor(Delete, MySql, "", "user", "", "", "", "", map[], map[], false, false), [], [])
      == Failure("deleting all data is not safe")
  {
  }

  /** Insert().Table("user").AddValue("age", 18): one column, one placeholder. */
  lemma InsertExample()
    ensures IsEnumeration(["age"], {"age"})
    ensures Render(Descriptor(Insert, MySql, "", "user", "", "", "", "", map["age" := Int(GoInt, 18)], map[], false, false), ["age"], [])
      == Success(Statement("INSERT INTO user (`age`) VALUES (?)", [Int(GoInt, 18)]))
  {
    var m := map["age" := Int(GoInt, 18)];
    AgeEnumeration();
    assert m.Keys == {"age"};
    AgeInsertText();
    AgeArgs();
  }

  lemma AgeInsertText()
    ensures "INSERT INTO " + "user" + ValuesClause(Columns(["age"]), Placeholders(|map["age" := Int(GoInt, 18)]|))
      == "INSERT INTO user (`age`) VALUES (?)"
  {
    assert |map["age" := Int(GoInt, 18)]| == 1;
    AgeValuesClause();
    assert "INSERT INTO " + "user" + " (`age`) VALUES (?)" == "INSERT INTO user (`age`) VALUES (?)";
  }

  lemma AgeArgs()
    ensures ArgsOf(map["age" := Int(GoInt, 18)], ["age"]) == [Int(GoInt, 18)]
  {
    assert ["age"][..0] == [];
  }

  lemma AgeEnumeration()
    ensures IsEnumeration(["age"], {"age"})
  {
    assert ["age"][..0] == [];
    assert {"age"} - {"age"} == {};
  }

  lemma AgeValuesClause()
    ensures ValuesClause(Columns(["age"]), Placeholders(1)) == " (`age`) VALUES (?)"
  {
    assert ["age"][..0] == [];
    assert Columns(["age"]) == ",`age`";
    assert Placeholders(1) == ",?";
    SubstrDropsFirst(",`age`");
    SubstrDropsFirst(",?");
    assert ",`age`"[1..] == "`age`";
    assert ",?"[1..] == "?";
  }
}
