/** What the SQL lowering guarantees: when it is empty, how each case of a
    leaf comes out, and how the add edits change (or do not change) the
    generated SQL. */
module SqlProperties {
  import opened Types
  import opened Tree
  import opened JsValues
  import opened Editor
  import opened Sql

  // ---------------------------------------------------------------------
  // Literals
  // ---------------------------------------------------------------------

  /** For a string, date or enum column the bare `NULL` comes out exactly
      for the null-like values; everything else is quoted. */
  lemma QuotedTypesNullIff(v: JsValue, dt: DataType)
    requires IsQuotedType(dt)
    ensures FormatSqlValue(v, dt) == "NULL" <==> IsNullLike(v)
  {
    if !IsNullLike(v) {
      assert FormatSqlValue(v, dt)[0] == '\'';
    }
  }

  // ---------------------------------------------------------------------
  // Leaves
  // ---------------------------------------------------------------------

  /** The leaf a group adds by default (`=`, value `''`) lowers to `= NULL`. */
  lemma NewLeafLowersToEqualsNull(id: Id, col: Column)
    ensures LowerLeaf(Single(id, col, Eq, EmptyLiteral())) == col.name + " = NULL"
  {
  }

  /** BETWEEN with an array value formats its first two elements (missing
      ones as `NULL`), even when the value is a column reference. */
  lemma BetweenArrayLowering(leaf: SingleCondition)
    requires leaf.operator == Between && leaf.value.value.Arr?
    ensures LowerLeaf(leaf) == leaf.column.name + " BETWEEN "
              + FormatSqlValue(ElementAt(leaf.value.value.items, 0), leaf.column.dataType) + " AND "
              + FormatSqlValue(ElementAt(leaf.value.value.items, 1), leaf.column.dataType)
  {
  }

  /** BETWEEN two numbers on a numeric column writes both numbers as they
      are. */
  lemma BetweenNumbers(leaf: SingleCondition, low: string, high: string)
    requires leaf.operator == Between && leaf.value.value == Arr([Num(low), Num(high)])
    requires IsNumericType(leaf.column.dataType) && low != "NaN" && high != "NaN"
    ensures LowerLeaf(leaf) == leaf.column.name + " BETWEEN " + low + " AND " + high
  {
    BetweenArrayLowering(leaf);
  }

  /** IN / NOT IN treat a single value as a one-element list. */
  lemma InWrapsScalar(leaf: SingleCondition)
    requires leaf.operator == In || leaf.operator == NotIn
    requires !leaf.value.value.Arr?
    ensures LowerLeaf(leaf) == LowerLeaf(leaf.(value := leaf.value.(value := Arr([leaf.value.value]))))
    ensures LowerLeaf(leaf) == leaf.column.name + " " + leaf.operator.Text()
              + " (" + FormatSqlValue(leaf.value.value, leaf.column.dataType) + ")"
  {
    var dt := leaf.column.dataType;
    var formatted := FormatAll([leaf.value.value], dt);
    assert formatted == [FormatSqlValue(leaf.value.value, dt)];
    assert Join(formatted, ", ") == formatted[0];
  }

  /** IN / NOT IN over a list format every item with the column's type and join them with commas. */
  lemma InArrayLowering(leaf: SingleCondition)
    requires leaf.operator == In || leaf.operator == NotIn
    requires leaf.value.value.Arr?
    ensures LowerLeaf(leaf) == leaf.column.name + " " + leaf.operator.Text()
              + " (" + Join(FormatAll(leaf.value.value.items, leaf.column.dataType), ", ") + ")"
  {
  }

  /** IS NULL / IS NOT NULL ignore the value entirely. */
  lemma NullOperatorsIgnoreValue(leaf: SingleCondition, v: ConditionValue)
    requires leaf.operator == IsNull || leaf.operator == IsNotNull
    ensures LowerLeaf(leaf.(value := v)) == LowerLeaf(leaf) == leaf.column.name + " " + leaf.operator.Text()
  {
  }

  /** Outside IN, NOT IN, IS NULL and IS NOT NULL, a null or `'NULL'` value
      lowers to `IS NULL`, whatever the operator and even when the value is
      a column reference. */
  lemma NullValueLowersToIsNull(leaf: SingleCondition)
    requires leaf.operator !in {In, NotIn, IsNull, IsNotNull}
    requires leaf.value.value == Null || leaf.value.value == Str("NULL")
    ensures LowerLeaf(leaf) == leaf.column.name + " IS NULL"
  {
  }

  /** A column reference is compared unquoted. */
  lemma ColumnReferenceUnquoted(leaf: SingleCondition)
    requires HasColumnReference(leaf.value)
    requires leaf.operator !in {In, NotIn, IsNull, IsNotNull}
    requires !(leaf.operator == Between && leaf.value.value.Arr?)
    requires leaf.value.value != Null && leaf.value.value != Str("NULL")
    ensures LowerLeaf(leaf) == leaf.column.name + " " + leaf.operator.Text() + " " + leaf.value.columnReference.value
  {
  }

  /** Any other leaf compares against its formatted literal. */
  lemma LiteralComparison(leaf: SingleCondition)
    requires !HasColumnReference(leaf.value)
    requires leaf.operator !in {In, NotIn, IsNull, IsNotNull}
    requires !(leaf.operator == Between && leaf.value.value.Arr?)
    requires leaf.value.value != Null && leaf.value.value != Str("NULL")
    ensures LowerLeaf(leaf) == leaf.column.name + " " + leaf.operator.Text() + " "
              + FormatSqlValue(leaf.value.value, leaf.column.dataType)
  {
  }

  /** A comparison with a text literal on a quoted column puts the text
      between single quotes, as it is. */
  lemma QuotedComparison(leaf: SingleCondition, t: string)
    requires leaf.value == ConditionValue(Literal, Str(t), None, None) && t != "" && t != "NULL"
    requires IsQuotedType(leaf.column.dataType)
    requires leaf.operator !in {In, NotIn, IsNull, IsNotNull, Between}
    ensures LowerLeaf(leaf) == leaf.column.name + " " + leaf.operator.Text() + " " + ("'" + t + "'")
  {
    LiteralComparison(leaf);
  }

  /** A comparison with a number on a numeric column writes the number's
      text as it is. */
  lemma NumberComparison(leaf: SingleCondition, t: string)
    requires leaf.value == ConditionValue(Literal, Num(t), None, None) && t != "NaN"
    requires IsNumericType(leaf.column.dataType)
    requires leaf.operator !in {In, NotIn, IsNull, IsNotNull, Between}
    ensures LowerLeaf(leaf) == leaf.column.name + " " + leaf.operator.Text() + " " + t
  {
    LiteralComparison(leaf);
  }

  // ---------------------------------------------------------------------
  // Groups
  // ---------------------------------------------------------------------

  lemma {:induction false} PartsConcat(a: seq<Condition>, b: seq<Condition>)
    ensures Parts(a + b) == Parts(a) + Parts(b)
    decreases a
  {
    if a == [] {
      assert a + b == b;
    } else {
      assert (a + b)[1..] == a[1..] + b;
      PartsConcat(a[1..], b);
    }
  }

  /** A single leaf contributes its own clause. */
  lemma PartsOfLeaf(leaf: SingleCondition)
    ensures Parts([leaf]) == [LowerLeaf(leaf)]
  {
    var cs: seq<Condition> := [leaf];
    assert cs[0] == leaf && cs[1..] == [];
    assert Parts(cs[1..]) == [];
  }

  /** A separator `" op "` spliced between two texts, whichever way the
      concatenation is grouped. */
  lemma SeparatorRegroup(s: string, op: string, t: string)
    ensures s + (" " + op + " ") + t == s + " " + op + " " + t
  {
  }

  /** A nested group with SQL contributes that SQL in parentheses. */
  lemma PartsOfGroup(g: ConditionGroup)
    requires GenerateSqlForGroup(g) != ""
    ensures Parts([g]) == ["(" + GenerateSqlForGroup(g) + ")"]
  {
    var cs: seq<Condition> := [g];
    assert cs[0] == g && cs[1..] == [];
    assert Parts(cs[1..]) == [];
  }

  /** A group of one leaf lowers to that leaf's clause, whatever its
      operator. */
  lemma OneLeafSql(id: Id, op: LogicalOperator, a: SingleCondition)
    ensures GenerateSqlForGroup(Group(id, op, [a])) == LowerLeaf(a)
  {
    PartsOfLeaf(a);
  }

  /** A group of two leaves joins their clauses with its operator. */
  lemma TwoLeavesSql(id: Id, op: LogicalOperator, a: SingleCondition, b: SingleCondition)
    ensures GenerateSqlForGroup(Group(id, op, [a, b])) == LowerLeaf(a) + " " + op.Text() + " " + LowerLeaf(b)
  {
    PartsOfLeaf(a);
    PartsOfLeaf(b);
    assert [a, b] == [a] + [b];
    PartsConcat([a], [b]);
    JoinAppend([LowerLeaf(a)], LowerLeaf(b), " " + op.Text() + " ");
    SeparatorRegroup(LowerLeaf(a), op.Text(), LowerLeaf(b));
  }

  /** A leaf followed by a group with SQL: the group's SQL is parenthesised
      after the operator. */
  lemma LeafThenGroupSql(id: Id, op: LogicalOperator, a: SingleCondition, g: ConditionGroup)
    requires GenerateSqlForGroup(g) != ""
    ensures GenerateSqlForGroup(Group(id, op, [a, g]))
            == LowerLeaf(a) + " " + op.Text() + " " + ("(" + GenerateSqlForGroup(g) + ")")
  {
    PartsOfLeaf(a);
    PartsOfGroup(g);
    assert [a, g] == [a] + [g];
    PartsConcat([a], [g]);
    JoinAppend([LowerLeaf(a)], "(" + GenerateSqlForGroup(g) + ")", " " + op.Text() + " ");
    SeparatorRegroup(LowerLeaf(a), op.Text(), "(" + GenerateSqlForGroup(g) + ")");
  }

  /** Appending a leaf to a group extends its SQL by one clause joined with
      the group's operator. */
  lemma AppendLeafSql(g: ConditionGroup, leaf: SingleCondition)
    ensures var s := GenerateSqlForGroup(g);
            GenerateSqlForGroup(Group(g.id, g.logicalOperator, g.conditions + [leaf]))
            == if s == "" then LowerLeaf(leaf)
               else s + " " + g.logicalOperator.Text() + " " + LowerLeaf(leaf)
  {
    var r := Group(g.id, g.logicalOperator, g.conditions + [leaf]);
    var sep, clause := " " + g.logicalOperator.Text() + " ", LowerLeaf(leaf);
    PartsConcat(g.conditions, [leaf]);
    PartsOfLeaf(leaf);
    assert Parts(r.conditions) == Parts(g.conditions) + [clause];
    JoinAppend(Parts(g.conditions), clause, sep);
    assert GenerateSqlForGroup(r) == Join(Parts(g.conditions) + [clause], sep);
    if g.conditions == [] {
      assert Parts(g.conditions) == [];
    } else {
      assert GenerateSqlForGroup(g) == Join(Parts(g.conditions), sep);
      if Parts(g.conditions) == [] {
        assert Join(Parts(g.conditions), sep) == "";
      } else {
        assert Join(Parts(g.conditions), sep) != "";
        SeparatorRegroup(GenerateSqlForGroup(g), g.logicalOperator.Text(), clause);
      }
    }
  }

  /** addCondition addressed to the root adds one clause at the end of the
      root's SQL. */
  lemma AddConditionToRootSql(root: ConditionGroup, leaf: SingleCondition)
    ensures var s := GenerateSqlForGroup(root);
            GenerateSqlForGroup(AddCondition(root, root.id, leaf))
            == if s == "" then LowerLeaf(leaf)
               else s + " " + root.logicalOperator.Text() + " " + LowerLeaf(leaf)
  {
    AppendLeafSql(root, leaf);
  }

  /** Appending a child without leaves (an empty group, say) anywhere in the
      tree leaves the SQL as it was. */
  lemma {:induction false} AppendLeaflessKeepsSql(g: ConditionGroup, pid: Id, x: Condition)
    requires |Leaves(x)| == 0
    ensures GenerateSqlForGroup(AppendChild(g, pid, x)) == GenerateSqlForGroup(g)
    decreases g
  {
    if g.id == pid {
      PartsConcat(g.conditions, [x]);
      assert x.Group?;
      assert Parts([x]) == [];
      assert g.conditions + [x] != [];
      var r := AppendChild(g, pid, x);
      assert r.conditions == g.conditions + [x];
      assert Parts(r.conditions) == Parts(g.conditions);
      if g.conditions == [] {
        assert GenerateSqlForGroup(r) == Join([], " " + g.logicalOperator.Text() + " ") == "";
      }
    } else {
      PartsAppendLeafless(g.conditions, pid, x);
    }
  }

  lemma {:induction false} PartsAppendLeafless(cs: seq<Condition>, pid: Id, x: Condition)
    requires |Leaves(x)| == 0
    ensures Parts(AppendChildAll(cs, pid, x)) == Parts(cs)
    decreases cs
  {
    if cs != [] {
      var r := AppendChildAll(cs, pid, x);
      assert r[0] == AppendChild(cs[0], pid, x) && r[1..] == AppendChildAll(cs[1..], pid, x);
      if cs[0].Group? {
        AppendLeaflessKeepsSql(cs[0], pid, x);
      }
      PartsAppendLeafless(cs[1..], pid, x);
    }
  }

  /** addGroup never changes the generated SQL. */
  lemma AddGroupKeepsSql(root: ConditionGroup, pid: Id, uuid: string)
    ensures GenerateSqlForGroup(AddGroup(root, pid, uuid)) == GenerateSqlForGroup(root)
  {
    AppendLeaflessKeepsSql(root, pid, NewGroup(uuid));
  }

  // ---------------------------------------------------------------------
  // The statement
  // ---------------------------------------------------------------------

  /** With a table and a non-empty root, the WHERE clause is present exactly
      when the tree holds a leaf; a root of empty groups gives a bare
      `SELECT * FROM name`. */
  lemma WhereIffLeaves(table: Table, root: ConditionGroup)
    requires |root.conditions| > 0
    ensures GenerateSql(Some(table), root) == "SELECT * FROM " + table.name <==> |Leaves(root)| == 0
    ensures |Leaves(root)| > 0 ==>
              GenerateSql(Some(table), root) == "SELECT * FROM " + table.name + " WHERE " + GenerateSqlForGroup(root)
  {
  }

  /** A statement whose WHERE clause is a given non-empty text. */
  lemma StatementWithWhere(table: Table, root: ConditionGroup, w: string)
    requires |root.conditions| > 0 && GenerateSqlForGroup(root) == w && w != ""
    ensures GenerateSql(Some(table), root) == "SELECT * FROM " + table.name + " WHERE " + w
  {
  }
}
