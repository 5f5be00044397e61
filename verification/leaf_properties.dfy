/** What the row editor's handlers guarantee: which of them keep the
    operator valid for the column, how the reset interacts with a column
    change, and what the edited leaves lower to. */
module LeafProperties {
  import opened Types
  import opened JsValues
  import opened Sql
  import opened OperatorPolicy
  import opened LeafEdits
  import SqlProperties

  // ---------------------------------------------------------------------
  // Keeping the operator valid
  // ---------------------------------------------------------------------

  /** A column change that finds its column leaves a leaf whose operator
      fits, so the reset that follows it does not fire. */
  lemma ChangeColumnFits(leaf: SingleCondition, table: Option<Table>, columnName: string)
    requires FindColumn(table, columnName).Some?
    ensures ChangeColumn(leaf, table, columnName).operator == Eq
    ensures OperatorFits(ChangeColumn(leaf, table, columnName))
    ensures OperatorReset(ChangeColumn(leaf, table, columnName)).None?
  {
  }

  /** The reset leaves a leaf that fits, and running it again does nothing. */
  lemma OperatorResetSettles(leaf: SingleCondition)
    ensures OperatorReset(leaf).Some? ==> OperatorFits(OperatorReset(leaf).value)
    ensures OperatorReset(leaf).Some? ==> OperatorReset(OperatorReset(leaf).value).None?
  {
  }

  /** An operator change keeps the leaf fitting exactly when the new
      operator is offered for its column. */
  lemma ChangeOperatorFits(leaf: SingleCondition, op: Operator)
    ensures OperatorFits(ChangeOperator(leaf, op)) <==> op in ValidOperators(leaf.column.dataType)
  {
  }

  /** Value edits never touch column or operator, so they keep a fitting
      leaf fitting. */
  lemma ValueEditsKeepFit(leaf: SingleCondition, kind: ValueKind, text: string, reference: string,
                          values: seq<string>, index: nat)
    requires OperatorFits(leaf)
    ensures OperatorFits(ChangeValueType(leaf, kind))
    ensures OperatorFits(ChangeValue(leaf, text))
    ensures OperatorFits(ChangeColumnReference(leaf, reference))
    ensures OperatorFits(ChangeInValues(leaf, values))
    ensures OperatorFits(leaf.(value := leaf.value.(value := Arr(BetweenSlots(leaf.value.value, index, text)))))
  {
  }

  /** A new leaf fits its column and lowers to `col = NULL`. */
  lemma NewLeafFits(table: Option<Table>, id: string)
    requires NewLeaf(table, id).Some?
    ensures OperatorFits(NewLeaf(table, id).value)
    ensures LowerLeaf(NewLeaf(table, id).value) == table.value.columns[0].name + " = NULL"
  {
  }

  // ---------------------------------------------------------------------
  // What edited leaves lower to
  // ---------------------------------------------------------------------

  /** Choosing a null test lowers to that test alone. */
  lemma NullTestLowering(leaf: SingleCondition, op: Operator)
    requires op == IsNull || op == IsNotNull
    ensures LowerLeaf(ChangeOperator(leaf, op)) == leaf.column.name + " " + op.Text()
  {
  }

  /** Switching to column mode and picking a column keeps the value slot
      null, and a null value is checked before the reference: unless the
      operator is IN, NOT IN or a null test, the leaf lowers to `IS NULL`
      rather than a comparison with the chosen column. */
  lemma PickedColumnReferenceLowersToIsNull(leaf: SingleCondition, reference: string)
    requires leaf.operator !in {In, NotIn, IsNull, IsNotNull}
    ensures var edited := ChangeColumnReference(ChangeValueType(leaf, ColumnRef), reference);
            HasColumnReference(edited.value) <==> reference != ""
    ensures LowerLeaf(ChangeColumnReference(ChangeValueType(leaf, ColumnRef), reference))
            == leaf.column.name + " IS NULL"
  {
  }

  /** Typing a value replaces whatever was typed before. */
  lemma ChangeValueLastWins(leaf: SingleCondition, first: string, second: string)
    ensures ChangeValue(ChangeValue(leaf, first), second) == ChangeValue(leaf, second)
  {
  }

  /** For IN and NOT IN, a one-element list and the same text typed as a
      single value give the same clause. */
  lemma InSingletonMatchesScalar(leaf: SingleCondition, text: string)
    requires leaf.operator == In || leaf.operator == NotIn
    ensures LowerLeaf(ChangeInValues(leaf, [text])) == LowerLeaf(ChangeValue(leaf, text))
  {
    var a, b := ChangeInValues(leaf, [text]), ChangeValue(leaf, text);
    assert FormatAll(a.value.value.items, leaf.column.dataType) == [FormatSqlValue(Str(text), leaf.column.dataType)];
    assert FormatAll([b.value.value], leaf.column.dataType) == [FormatSqlValue(Str(text), leaf.column.dataType)];
  }

  // ---------------------------------------------------------------------
  // BETWEEN
  // ---------------------------------------------------------------------

  /** Filling both slots of a fresh BETWEEN (a value that is not an array, or
      an array of at most two elements) gives exactly the two texts. */
  lemma BetweenBothSlots(v: JsValue, low: string, high: string)
    requires |BetweenBase(v)| <= 2
    ensures BetweenSlots(Arr(BetweenSlots(v, 0, low)), 1, high) == [Str(low), Str(high)]
  {
    var first := BetweenSlots(v, 0, low);
    assert |first| == if |BetweenBase(v)| == 0 then 1 else |BetweenBase(v)|;
  }

  /** Writing one bound of an array-valued BETWEEN keeps the other bound's
      SQL. */
  lemma BetweenSlotKeepsOtherBound(leaf: SingleCondition, text: string)
    requires leaf.operator == Between && leaf.value.value.Arr?
    ensures var edited := leaf.(value := leaf.value.(value := Arr(BetweenSlots(leaf.value.value, 0, text))));
            LowerLeaf(edited) == leaf.column.name + " BETWEEN "
              + FormatSqlValue(Str(text), leaf.column.dataType) + " AND "
              + FormatSqlValue(ElementAt(leaf.value.value.items, 1), leaf.column.dataType)
  {
    var slots := BetweenSlots(leaf.value.value, 0, text);
    var edited := leaf.(value := leaf.value.(value := Arr(slots)));
    SqlProperties.BetweenArrayLowering(edited);
    assert ElementAt(slots, 0) == Str(text);
    assert ElementAt(slots, 1) == ElementAt(leaf.value.value.items, 1);
  }

  // ---------------------------------------------------------------------
  // Column references
  // ---------------------------------------------------------------------

  /** The reference candidates never include the leaf's own column. */
  lemma SameTypeExcludesOwnColumn(table: Option<Table>, leaf: SingleCondition)
    ensures leaf.column !in SameTypeColumns(table, leaf)
  {
  }

  /** The candidates keep table order: filtering two runs of columns is
      filtering each and concatenating. */
  lemma {:induction false} SameTypeAmongConcat(a: seq<Column>, b: seq<Column>, col: Column)
    ensures SameTypeAmong(a + b, col) == SameTypeAmong(a, col) + SameTypeAmong(b, col)
    decreases a
  {
    if a == [] {
      assert a + b == b;
    } else {
      var head := if a[0].dataType == col.dataType && a[0].name != col.name then [a[0]] else [];
      calc {
        SameTypeAmong(a + b, col);
      == { assert (a + b)[0] == a[0]; assert (a + b)[1..] == a[1..] + b; }
        head + SameTypeAmong(a[1..] + b, col);
      == { SameTypeAmongConcat(a[1..], b, col); }
        head + (SameTypeAmong(a[1..], col) + SameTypeAmong(b, col));
      ==
        head + SameTypeAmong(a[1..], col) + SameTypeAmong(b, col);
      }
    }
  }
}
