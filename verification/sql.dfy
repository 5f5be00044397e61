/** Lowering a condition tree to SQL: literal formatting by column type,
    one clause per leaf with a fixed order of cases, groups joined by their
    logical operator, and the final `SELECT * FROM ... WHERE ...`. */
module Sql {
  import opened Types
  import opened Tree
  import opened JsValues

  /** The values `formatSqlValue` turns into `NULL` whatever the type. */
  predicate IsNullLike(v: JsValue) {
    v == Null || v == Undefined || v == Str("") || v == Str("NULL")
  }

  predicate IsQuotedType(dt: DataType) {
    dt == StringType || dt == DateType || dt == EnumType
  }

  predicate IsNumericType(dt: DataType) {
    dt == NumberType || dt == IntegerType
  }

  /** A literal as SQL text for a column of type `dt`. */
  function FormatSqlValue(v: JsValue, dt: DataType): (r: string)
    ensures IsNullLike(v) ==> r == "NULL"
    ensures !IsNullLike(v) && IsQuotedType(dt) ==> r == "'" + JsText(v) + "'"
    ensures !IsNullLike(v) && IsNumericType(dt) ==> r == (if IsNumeric(v) then JsText(v) else "NULL")
    ensures !IsNullLike(v) && dt == BooleanType ==> r == (if Truthy(v) then "TRUE" else "FALSE")
    ensures !IsNullLike(v) && dt == MappingType ==> r == JsText(v)
  {
    if IsNullLike(v) then "NULL"
    else
      match dt
      case StringType => "'" + JsText(v) + "'"
      case DateType => "'" + JsText(v) + "'"
      case EnumType => "'" + JsText(v) + "'"
      case NumberType => if IsNumeric(v) then JsText(v) else "NULL"
      case IntegerType => if IsNumeric(v) then JsText(v) else "NULL"
      case BooleanType => if Truthy(v) then "TRUE" else "FALSE"
      case MappingType => JsText(v)
  }

  /** `items[i]`, which is `undefined` past the end. */
  function ElementAt(items: seq<JsValue>, i: nat): (r: JsValue)
    ensures i < |items| ==> r == items[i]
    ensures i >= |items| ==> r == Undefined
  {
    if i < |items| then items[i] else Undefined
  }

  /** `values.map(v => formatSqlValue(v, dt))`. */
  function FormatAll(values: seq<JsValue>, dt: DataType): (r: seq<string>)
    ensures |r| == |values|
    ensures forall i :: 0 <= i < |values| ==> r[i] == FormatSqlValue(values[i], dt)
  {
    seq(|values|, i requires 0 <= i < |values| => FormatSqlValue(values[i], dt))
  }

  /** Whether the leaf compares against another column: a column-kind value
      with a non-empty reference. */
  predicate HasColumnReference(v: ConditionValue) {
    v.kind == ColumnRef && v.columnReference.Some? && v.columnReference.value != ""
  }

  /** The clause of one leaf. The cases are tried in this order: BETWEEN
      with an array value, IN / NOT IN, IS NULL / IS NOT NULL, a null or
      `'NULL'` value, then a comparison with the column reference or the
      formatted literal. */
  function LowerLeaf(leaf: SingleCondition): (r: string)
    ensures |r| > |leaf.column.name| && r[..|leaf.column.name| + 1] == leaf.column.name + " "
  {
    var name, dt, v, op := leaf.column.name, leaf.column.dataType, leaf.value, leaf.operator;
    var tail :=
      if op == Between && v.value.Arr? then
        "BETWEEN " + FormatSqlValue(ElementAt(v.value.items, 0), dt)
        + " AND " + FormatSqlValue(ElementAt(v.value.items, 1), dt)
      else if op == In || op == NotIn then
        var values := if v.value.Arr? then v.value.items else [v.value];
        op.Text() + " (" + Join(FormatAll(values, dt), ", ") + ")"
      else if op == IsNull || op == IsNotNull then
        op.Text()
      else if v.value == Null || v.value == Str("NULL") then
        "IS NULL"
      else
        // the comparison operand, only needed in this last case
        var sqlValue := if HasColumnReference(v) then v.columnReference.value else FormatSqlValue(v.value, dt);
        op.Text() + " " + sqlValue;
    assert (name + " " + tail)[..|name| + 1] == name + " ";
    name + " " + tail
  }

  /** The SQL of a group: empty for a group without children, otherwise the
      non-empty clauses of its children joined by its logical operator. It
      is empty exactly when the group holds no leaf at any depth. */
  function GenerateSqlForGroup(g: ConditionGroup): (r: string)
    ensures r == "" <==> |Leaves(g)| == 0
    decreases g
  {
    if |g.conditions| == 0 then ""
    else Join(Parts(g.conditions), " " + g.logicalOperator.Text() + " ")
  }

  /** The children's clauses with the empty ones filtered out: a leaf gives
      its clause, a nested group its SQL in parentheses, or nothing when
      that SQL is empty. There are none exactly when no child holds a leaf. */
  function Parts(cs: seq<Condition>): (ps: seq<string>)
    ensures forall i :: 0 <= i < |ps| ==> ps[i] != ""
    ensures ps == [] <==> |LeavesAll(cs)| == 0
    decreases cs
  {
    if cs == [] then []
    else
      var head :=
        if cs[0].Single? then [LowerLeaf(cs[0])]
        else
          var nested := GenerateSqlForGroup(cs[0]);
          if nested == "" then [] else ["(" + nested + ")"];
      head + Parts(cs[1..])
  }

  /** The statement for the selected table, or nothing when no table is
      selected or the root has no children. */
  function GenerateSql(table: Option<Table>, root: ConditionGroup): (r: string)
    ensures r == "" <==> table.None? || |root.conditions| == 0
    ensures table.Some? && |root.conditions| > 0 ==>
              var w := GenerateSqlForGroup(root);
              r == "SELECT * FROM " + table.value.name + (if w == "" then "" else " WHERE " + w)
  {
    if table.None? || |root.conditions| == 0 then ""
    else
      var w := GenerateSqlForGroup(root);
      var r := "SELECT * FROM " + table.value.name + (if w == "" then "" else " WHERE " + w);
      assert r[0] == 'S';
      r
  }
}
