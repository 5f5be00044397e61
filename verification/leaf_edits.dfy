/** The leaf records the row editor builds in response to user input, and the
    leaf a group adds by default. Each handler returns the new leaf; the row
    then passes it to the provider's `updateCondition` (or `addCondition`). */
module LeafEdits {
  import opened Types
  import opened Sql
  import opened OperatorPolicy

  /** The value a null test leaves behind: `{type: 'value', value: null}`. */
  function NullLiteral(): ConditionValue {
    ConditionValue(Literal, Null, None, None)
  }

  /** The value a switch to column mode leaves behind: kind `column`,
      value null, no reference yet. */
  function EmptyColumnReference(): ConditionValue {
    ConditionValue(ColumnRef, Null, None, None)
  }

  // ---------------------------------------------------------------------
  // Columns
  // ---------------------------------------------------------------------

  /** `table?.columns.find(col => col.name === name)`. */
  function FindColumn(table: Option<Table>, name: string): (r: Option<Column>)
    ensures table.None? ==> r.None?
    ensures table.Some? ==> r == FirstNamed(table.value.columns, name)
  {
    if table.None? then None else FirstNamed(table.value.columns, name)
  }

  /** The first column called `name`. */
  function FirstNamed(cols: seq<Column>, name: string): (r: Option<Column>)
    ensures r.None? <==> forall i :: 0 <= i < |cols| ==> cols[i].name != name
    ensures r.Some? ==> exists i :: 0 <= i < |cols| && cols[i] == r.value && r.value.name == name
                          && forall j :: 0 <= j < i ==> cols[j].name != name
    decreases cols
  {
    if cols == [] then None
    else if cols[0].name == name then Some(cols[0])
    else
      var r := FirstNamed(cols[1..], name);
      if r.Some? then
        ghost var i :| 0 <= i < |cols[1..]| && cols[1..][i] == r.value && r.value.name == name
                       && forall j :: 0 <= j < i ==> cols[1..][j].name != name;
        assert cols[i + 1] == r.value;
        assert forall j :: 0 <= j < i + 1 ==> cols[j].name != name by {
          forall j | 0 <= j < i + 1 ensures cols[j].name != name {
            if j > 0 { assert cols[j] == cols[1..][j - 1]; }
          }
        }
        r
      else
        assert forall i :: 0 <= i < |cols| ==> cols[i].name != name by {
          forall i | 0 <= i < |cols| ensures cols[i].name != name {
            if i > 0 { assert cols[i] == cols[1..][i - 1]; }
          }
        }
        r
  }

  /** A column change: the leaf gets the named column, that column's first
      offered operator and an empty literal; id kept. Nothing changes when no
      table is selected or the table has no such column. */
  function ChangeColumn(leaf: SingleCondition, table: Option<Table>, columnName: string): (r: SingleCondition)
    ensures FindColumn(table, columnName).None? ==> r == leaf
    ensures FindColumn(table, columnName).Some? ==>
              r == Single(leaf.id, FindColumn(table, columnName).value,
                          ValidOperators(FindColumn(table, columnName).value.dataType)[0], EmptyLiteral())
  {
    match FindColumn(table, columnName)
    case None => leaf
    case Some(col) => leaf.(column := col, operator := ValidOperators(col.dataType)[0], value := EmptyLiteral())
  }

  /** The reset run whenever a leaf's column changes: it fires (giving a
      leaf to store) only when the current operator is not offered for the
      column, and then resets the operator to the first offered one and the
      value to an empty literal. */
  function OperatorReset(leaf: SingleCondition): (r: Option<SingleCondition>)
    ensures r.None? <==> OperatorFits(leaf)
    ensures r.Some? ==> r.value == leaf.(operator := Eq, value := EmptyLiteral())
  {
    var valid := ValidOperators(leaf.column.dataType);
    if leaf.operator in valid then None
    else Some(leaf.(operator := valid[0], value := EmptyLiteral()))
  }

  /** The columns a column reference may point to: those of the selected
      table with the leaf's data type and another name, in table order. */
  function SameTypeColumns(table: Option<Table>, leaf: SingleCondition): (r: seq<Column>)
    ensures table.None? ==> r == []
    ensures table.Some? ==> r == SameTypeAmong(table.value.columns, leaf.column)
  {
    if table.None? then [] else SameTypeAmong(table.value.columns, leaf.column)
  }

  function SameTypeAmong(cols: seq<Column>, col: Column): (r: seq<Column>)
    ensures |r| <= |cols|
    ensures forall c :: c in r <==> c in cols && c.dataType == col.dataType && c.name != col.name
    decreases cols
  {
    if cols == [] then []
    else
      (if cols[0].dataType == col.dataType && cols[0].name != col.name then [cols[0]] else [])
      + SameTypeAmong(cols[1..], col)
  }

  // ---------------------------------------------------------------------
  // Operator and value
  // ---------------------------------------------------------------------

  /** An operator change: the null tests drop the value for a null literal;
      any other operator keeps the value. The menu only offers operators
      valid for the column, but the handler itself does not check. */
  function ChangeOperator(leaf: SingleCondition, op: Operator): (r: SingleCondition)
    ensures r.id == leaf.id && r.column == leaf.column && r.operator == op
    ensures r.value == if op == IsNull || op == IsNotNull then NullLiteral() else leaf.value
  {
    if op == IsNull || op == IsNotNull then leaf.(operator := op, value := NullLiteral())
    else leaf.(operator := op)
  }

  /** A value-kind change: column mode starts from an empty reference,
      literal mode from an empty literal. */
  function ChangeValueType(leaf: SingleCondition, kind: ValueKind): (r: SingleCondition)
    ensures r.id == leaf.id && r.column == leaf.column && r.operator == leaf.operator
    ensures r.value.kind == kind && r.value.columnReference.None? && r.value.columnDataType.None?
    ensures r.value.value == if kind == ColumnRef then Null else Str("")
  {
    match kind
    case ColumnRef => leaf.(value := EmptyColumnReference())
    case Literal => leaf.(value := EmptyLiteral())
  }

  /** Typing a value, or choosing an enum value: only the value slot changes. */
  function ChangeValue(leaf: SingleCondition, text: string): (r: SingleCondition)
    ensures r.id == leaf.id && r.column == leaf.column && r.operator == leaf.operator
    ensures r.value.kind == leaf.value.kind && r.value.columnReference == leaf.value.columnReference
    ensures r.value.columnDataType == leaf.value.columnDataType && r.value.value == Str(text)
  {
    leaf.(value := leaf.value.(value := Str(text)))
  }

  /** Choosing the referenced column: only the reference changes. */
  function ChangeColumnReference(leaf: SingleCondition, reference: string): (r: SingleCondition)
    ensures r.id == leaf.id && r.column == leaf.column && r.operator == leaf.operator
    ensures r.value.kind == leaf.value.kind && r.value.value == leaf.value.value
    ensures r.value.columnDataType == leaf.value.columnDataType && r.value.columnReference == Some(reference)
  {
    leaf.(value := leaf.value.(columnReference := Some(reference)))
  }

  function Strings(values: seq<string>): (r: seq<JsValue>)
    ensures |r| == |values| && forall i :: 0 <= i < |values| ==> r[i] == Str(values[i])
  {
    seq(|values|, i requires 0 <= i < |values| => Str(values[i]))
  }

  /** Editing the IN list: the value slot becomes the list of strings. */
  function ChangeInValues(leaf: SingleCondition, values: seq<string>): (r: SingleCondition)
    ensures r.id == leaf.id && r.column == leaf.column && r.operator == leaf.operator
    ensures r.value.kind == leaf.value.kind && r.value.columnReference == leaf.value.columnReference
    ensures r.value.columnDataType == leaf.value.columnDataType
    ensures r.value.value.Arr? && |r.value.value.items| == |values|
    ensures forall i :: 0 <= i < |values| ==> r.value.value.items[i] == Str(values[i])
  {
    leaf.(value := leaf.value.(value := Arr(Strings(values))))
  }

  // ---------------------------------------------------------------------
  // BETWEEN
  // ---------------------------------------------------------------------

  /** The slots a BETWEEN edit starts from: the current array, or two empty
      strings when the value is not an array. */
  function BetweenBase(v: JsValue): seq<JsValue> {
    if v.Arr? then v.items else [Str(""), Str("")]
  }

  /** The array after writing `text` at `index`: the written slot holds the
      text, the other slots of the base are kept, and writing past the end
      leaves holes (read back as `undefined`) up to the index. */
  function BetweenSlots(v: JsValue, index: nat, text: string): (r: seq<JsValue>)
    ensures |r| == if index < |BetweenBase(v)| then |BetweenBase(v)| else index + 1
    ensures r[index] == Str(text)
    ensures forall i :: 0 <= i < |BetweenBase(v)| && i != index ==> r[i] == BetweenBase(v)[i]
    ensures forall i :: |BetweenBase(v)| <= i < |r| && i != index ==> r[i] == Undefined
  {
    var base := BetweenBase(v);
    var n := if index < |base| then |base| else index + 1;
    seq(n, i requires 0 <= i < n => if i == index then Str(text) else if i < |base| then base[i] else Undefined)
  }

  /** A BETWEEN slot edit: the value array is copied, the slot at `index`
      overwritten, and the copy stored as the value. */
  method ChangeBetweenValue(leaf: SingleCondition, index: nat, text: string) returns (r: SingleCondition)
    ensures r == leaf.(value := leaf.value.(value := Arr(BetweenSlots(leaf.value.value, index, text))))
  {
    var base := BetweenBase(leaf.value.value);
    var n := if index < |base| then |base| else index + 1;
    var slots := new JsValue[n](_ => Undefined);
    var i := 0;
    while i < |base|
      invariant 0 <= i <= |base|
      invariant forall j :: 0 <= j < i ==> slots[j] == base[j]
      invariant forall j :: i <= j < n ==> slots[j] == Undefined
    {
      slots[i] := base[i];
      i := i + 1;
    }
    slots[index] := Str(text);
    assert slots[..] == BetweenSlots(leaf.value.value, index, text);
    r := leaf.(value := leaf.value.(value := Arr(slots[..])));
  }

  // ---------------------------------------------------------------------
  // A new leaf
  // ---------------------------------------------------------------------

  /** The leaf "add condition" creates: the table's first column, `=`, an
      empty literal; none without a table or with a table of no columns. */
  function NewLeaf(table: Option<Table>, id: string): (r: Option<SingleCondition>)
    ensures r.None? <==> table.None? || |table.value.columns| == 0
    ensures r.Some? ==> r.value == Single(Some(id), table.value.columns[0], Eq, EmptyLiteral())
  {
    if table.None? || |table.value.columns| == 0 then None
    else Some(Single(Some(id), table.value.columns[0], Eq, EmptyLiteral()))
  }
}
