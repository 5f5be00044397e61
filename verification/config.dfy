/** The project configuration: the tables offered to the builder, the
    per-type operator table of the configuration (which uses `IS` and is not
    the list the row editor offers), and the value validation rules. */
module TablesConfig {
  import opened Types
  import opened JsValues
  import opened OperatorPolicy

  function UsersColumns(): seq<Column> {
    [ Column("id", "ID", IntegerType, "users", None),
      Column("name", "Name", StringType, "users", None),
      Column("email", "Email", StringType, "users", None),
      Column("age", "Age", IntegerType, "users", None),
      Column("status", "Status", EnumType, "users", Some(["active", "inactive", "pending"])),
      Column("created_at", "Created At", DateType, "users", None),
      Column("score_mapping", "Score Mapping", MappingType, "users", None) ]
  }

  function OrdersColumns(): seq<Column> {
    [ Column("id", "ID", IntegerType, "orders", None),
      Column("user_id", "User ID", IntegerType, "orders", None),
      Column("amount", "Amount", NumberType, "orders", None),
      Column("status", "Status", EnumType, "orders", Some(["pending", "paid", "shipped", "delivered", "cancelled"])),
      Column("created_at", "Created At", DateType, "orders", None) ]
  }

  /** The tables of the project: two, with distinct ids and names, and no
      column name repeated within a table. */
  function ProjectTables(): (r: seq<Table>)
    ensures |r| == 2 && r[0].id != r[1].id && r[0].name != r[1].name
    ensures forall t :: t in r ==> DistinctColumnNames(t.columns)
  {
    UsersColumnNamesDistinct();
    OrdersColumnNamesDistinct();
    [ Table("1", "users", "Users", UsersColumns()),
      Table("2", "orders", "Orders", OrdersColumns()) ]
  }

  predicate DistinctColumnNames(cols: seq<Column>) {
    forall i, j :: 0 <= i < j < |cols| ==> cols[i].name != cols[j].name
  }

  lemma UsersColumnNamesDistinct()
    ensures DistinctColumnNames(UsersColumns())
  {
    var names := ["id", "name", "email", "age", "status", "created_at", "score_mapping"];
    assert forall i :: 0 <= i < 7 ==> UsersColumns()[i].name == names[i];
  }

  lemma OrdersColumnNamesDistinct()
    ensures DistinctColumnNames(OrdersColumns())
  {
    var names := ["id", "user_id", "amount", "status", "created_at"];
    assert forall i :: 0 <= i < 5 ==> OrdersColumns()[i].name == names[i];
  }

  /** The configuration's operator table, keyed by data-type name. */
  function DefaultOperators(): (m: map<string, seq<string>>)
    ensures forall k :: k in m <==> exists dt: DataType :: dt.Name() == k
  {
    var m := map[
      "string" := ["=", "!=", "LIKE", "NOT LIKE", "IS"],
      "number" := ["=", "!=", ">", ">=", "<", "<=", "BETWEEN", "IS"],
      "integer" := ["=", "!=", ">", ">=", "<", "<=", "BETWEEN", "IS"],
      "boolean" := ["=", "IS"],
      "date" := ["=", "!=", ">", ">=", "<", "<=", "BETWEEN", "IS"],
      "enum" := ["=", "!=", "IN", "NOT IN", "IS"],
      "Mapping" := ["=", "!="]
    ];
    assert StringType.Name() == "string" && NumberType.Name() == "number" && IntegerType.Name() == "integer";
    assert BooleanType.Name() == "boolean" && DateType.Name() == "date" && EnumType.Name() == "enum";
    assert MappingType.Name() == "Mapping";
    m
  }

  /** Every list of the table is non-empty and starts with `=`; `Mapping`
      allows only `=` and `!=`, boolean only `=` and `IS`; `BETWEEN` is
      listed only for number, integer and date, `IN` and `NOT IN` only for
      enum. */
  lemma DefaultOperatorsPolicy()
    ensures forall k :: k in DefaultOperators() ==> |DefaultOperators()[k]| > 0 && DefaultOperators()[k][0] == "="
    ensures DefaultOperators()["Mapping"] == ["=", "!="] && DefaultOperators()["boolean"] == ["=", "IS"]
    ensures forall k :: k in DefaultOperators() ==>
              ("BETWEEN" in DefaultOperators()[k] <==> k == "number" || k == "integer" || k == "date")
    ensures forall k :: k in DefaultOperators() ==>
              ("IN" in DefaultOperators()[k] <==> k == "enum") && ("NOT IN" in DefaultOperators()[k] <==> k == "enum")
  {
    forall k | k in DefaultOperators()
      ensures |DefaultOperators()[k]| > 0 && DefaultOperators()[k][0] == "="
      ensures "BETWEEN" in DefaultOperators()[k] <==> k == "number" || k == "integer" || k == "date"
      ensures ("IN" in DefaultOperators()[k] <==> k == "enum") && ("NOT IN" in DefaultOperators()[k] <==> k == "enum")
    {
      var dt: DataType :| dt.Name() == k;
      DefaultOperatorsEntry(dt);
    }
  }

  /** The entry of the configuration's table for one type. */
  lemma DefaultOperatorsEntry(dt: DataType)
    ensures var list := DefaultOperators()[dt.Name()];
            |list| > 0 && list[0] == "="
            && ("BETWEEN" in list <==> dt in {NumberType, IntegerType, DateType})
            && ("IN" in list <==> dt == EnumType) && ("NOT IN" in list <==> dt == EnumType)
  {
    var list := DefaultOperators()[dt.Name()];
    match dt
    case StringType => assert list == ["=", "!=", "LIKE", "NOT LIKE", "IS"];
    case NumberType => assert list == ["=", "!=", ">", ">=", "<", "<=", "BETWEEN", "IS"];
    case IntegerType => assert list == ["=", "!=", ">", ">=", "<", "<=", "BETWEEN", "IS"];
    case BooleanType => assert list == ["=", "IS"];
    case DateType => assert list == ["=", "!=", ">", ">=", "<", "<=", "BETWEEN", "IS"];
    case EnumType => assert list == ["=", "!=", "IN", "NOT IN", "IS"];
    case MappingType => assert list == ["=", "!="];
  }

  /** The operator an entry of the table names, if any. */
  function OperatorNamed(t: string): (r: Option<Operator>)
    ensures r.Some? ==> r.value.Text() == t
  {
    if t == "=" then Some(Eq)
    else if t == "!=" then Some(Ne)
    else if t == ">" then Some(Gt)
    else if t == ">=" then Some(Ge)
    else if t == "<" then Some(Lt)
    else if t == "<=" then Some(Le)
    else if t == "LIKE" then Some(Like)
    else if t == "NOT LIKE" then Some(NotLike)
    else if t == "IN" then Some(In)
    else if t == "NOT IN" then Some(NotIn)
    else if t == "IS NULL" then Some(IsNull)
    else if t == "IS NOT NULL" then Some(IsNotNull)
    else if t == "BETWEEN" then Some(Between)
    else None
  }

  /** Every operator is named by its own text, and by nothing else. */
  lemma OperatorNamedInvertsText(op: Operator, t: string)
    ensures OperatorNamed(op.Text()) == Some(op)
    ensures OperatorNamed(t) == Some(op) <==> t == op.Text()
  {
  }

  /** Apart from `IS`, which names no operator of the editor, every entry of
      the configuration's list for a type names an operator the editor
      offers for that type. */
  lemma DefaultOperatorsWithinEditorMenus(dt: DataType)
    ensures forall t :: t in DefaultOperators()[dt.Name()] ==>
              t == "IS" || (OperatorNamed(t).Some? && OperatorNamed(t).value in ValidOperators(dt))
    ensures OperatorNamed("IS").None?
  {
    var list := DefaultOperators()[dt.Name()];
    match dt
    case StringType => assert list == ["=", "!=", "LIKE", "NOT LIKE", "IS"];
    case NumberType => assert list == ["=", "!=", ">", ">=", "<", "<=", "BETWEEN", "IS"];
    case IntegerType => assert list == ["=", "!=", ">", ">=", "<", "<=", "BETWEEN", "IS"];
    case BooleanType => assert list == ["=", "IS"];
    case DateType => assert list == ["=", "!=", ">", ">=", "<", "<=", "BETWEEN", "IS"];
    case EnumType => assert list == ["=", "!=", "IN", "NOT IN", "IS"];
    case MappingType => assert list == ["=", "!="];
  }

  /** Every column's type has an entry in the operator table, and every
      column names the table it belongs to. */
  lemma ProjectTablesConsistent()
    ensures forall t, c :: t in ProjectTables() && c in t.columns ==>
              c.dataType.Name() in DefaultOperators() && c.table == t.name
  {
    forall t, c | t in ProjectTables() && c in t.columns
      ensures c.dataType.Name() in DefaultOperators() && c.table == t.name
    {
      assert c.dataType.Name() in DefaultOperators();
      assert t == ProjectTables()[0] || t == ProjectTables()[1];
      if t == ProjectTables()[0] {
        ColumnsNameTable(UsersColumns(), "users", c);
      } else {
        ColumnsNameTable(OrdersColumns(), "orders", c);
      }
    }
  }

  /** Every column of the two column lists names its own table. */
  lemma ColumnsNameTable(cols: seq<Column>, name: string, c: Column)
    requires (cols == UsersColumns() && name == "users") || (cols == OrdersColumns() && name == "orders")
    requires c in cols
    ensures c.table == name
  {
    var i :| 0 <= i < |cols| && cols[i] == c;
  }

  // ---------------------------------------------------------------------
  // Validation rules
  // ---------------------------------------------------------------------

  /** A non-empty run of characters that are neither `@` nor white space. */
  predicate PlainRun(t: string) {
    |t| > 0 && forall k :: 0 <= k < |t| ==> t[k] != '@' && !IsJsWhitespace(t[k])
  }

  /** The shape the email pattern describes: a plain run, `@`, a plain run,
      a dot, a plain run, covering the whole text. */
  ghost predicate MatchesEmailPattern(s: string) {
    exists i, j :: 0 < i && i + 1 < j && j + 1 < |s| && s[i] == '@' && s[j] == '.'
      && PlainRun(s[..i]) && PlainRun(s[i + 1..j]) && PlainRun(s[j + 1..])
  }

  /** The email rule as a check on characters: no white space, exactly one
      `@` with something before it, and after it a dot that is neither the
      first nor the last character. */
  predicate EmailRule(s: string)
    ensures EmailRule(s) ==> |s| >= 5 && s[0] != '@' && s[|s| - 1] != '@'
  {
    (forall k :: 0 <= k < |s| ==> !IsJsWhitespace(s[k]))
    && exists i :: 0 < i < |s| && s[i] == '@' && (forall k :: 0 <= k < |s| && s[k] == '@' ==> k == i)
                   && exists j :: i + 1 < j < |s| - 1 && s[j] == '.'
  }

  /** The character check accepts exactly the texts of the pattern's shape. */
  lemma EmailRuleMatchesPattern(s: string)
    ensures EmailRule(s) <==> MatchesEmailPattern(s)
  {
    if MatchesEmailPattern(s) {
      PatternPassesRule(s);
    }
    if EmailRule(s) {
      RulePassesPattern(s);
    }
  }

  lemma PatternPassesRule(s: string)
    requires MatchesEmailPattern(s)
    ensures EmailRule(s)
  {
    var i, j :| 0 < i && i + 1 < j && j + 1 < |s| && s[i] == '@' && s[j] == '.'
                && PlainRun(s[..i]) && PlainRun(s[i + 1..j]) && PlainRun(s[j + 1..]);
    forall k | 0 <= k < |s| && k != i && k != j
      ensures s[k] != '@' && !IsJsWhitespace(s[k])
    {
      if k < i { assert s[k] == s[..i][k]; }
      else if k < j { assert s[k] == s[i + 1..j][k - i - 1]; }
      else { assert s[k] == s[j + 1..][k - j - 1]; }
    }
    assert forall k :: 0 <= k < |s| && s[k] == '@' ==> k == i;
    assert i + 1 < j < |s| - 1 && s[j] == '.';
  }

  lemma RulePassesPattern(s: string)
    requires EmailRule(s)
    ensures MatchesEmailPattern(s)
  {
    var i :| 0 < i < |s| && s[i] == '@' && (forall k :: 0 <= k < |s| && s[k] == '@' ==> k == i)
             && exists j :: i + 1 < j < |s| - 1 && s[j] == '.';
    var j :| i + 1 < j < |s| - 1 && s[j] == '.';
    assert PlainRun(s[..i]);
    assert PlainRun(s[i + 1..j]);
    assert PlainRun(s[j + 1..]);
  }

  /** The age rule: a number between 0 and 120 inclusive. */
  predicate AgeRule(v: real)
    ensures AgeRule(v) ==> AmountRule(v) && AmountRule(120.0 - v)
  {
    0.0 <= v <= 120.0
  }

  /** The amount rule: a number that is not negative. */
  predicate AmountRule(v: real) {
    v >= 0.0
  }

  /** The boundaries of the numeric rules: both accept 0, age accepts 120 but
      nothing above it, neither accepts a negative number, and every valid
      age is a valid amount. */
  lemma NumericRuleBounds(v: real)
    ensures AgeRule(0.0) && AgeRule(120.0) && AmountRule(0.0)
    ensures v > 120.0 ==> !AgeRule(v) && AmountRule(v)
    ensures v < 0.0 ==> !AgeRule(v) && !AmountRule(v)
    ensures AgeRule(v) ==> AmountRule(v)
  {
  }
}
