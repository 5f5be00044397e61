# Condition builder: a verified model of the condition tree

The condition builder lets a user compose a filter over one table's columns.
The filter is a tree: leaves compare a column with a literal or with another
column, and groups join their children with AND or OR. The builder turns the
tree into a `SELECT * FROM <table> WHERE ...` statement and keeps a list of
saved conditions that can be inserted into the tree or loaded as the tree.

This project models the core of that builder in Dafny:

- `types.dfy` (module `Types`): columns, tables, operators, condition values,
  the condition tree and saved conditions. A JavaScript `any` value is a sum
  type `JsValue` (null, undefined, string, number as its printed text,
  boolean, array).
- `tree.dfy` (module `Tree`): read-only views used to state what the edits do:
  size, leaves in order, ids, the number of groups an id addresses, and the
  skeleton.
- `editor.dfy` (module `Editor`): the provider's tree edits as pure rebuilds of
  the tree. `editor_properties.dfy` (module `EditorProperties`) proves what
  they keep and what they change.
- `sql.dfy` (module `Sql`): value formatting, the clause of one leaf, the SQL
  of a group and the full statement. `sql_properties.dfy` (module
  `SqlProperties`) proves the case analysis and how the edits change the SQL.
- `js_values.dfy` (module `JsValues`): `String(v)`, `Array.prototype.join`,
  `!isNaN(Number(v))` and truthiness.
- `operators.dfy` (module `OperatorPolicy`): the operator menu of each column
  type.
- `leaf_edits.dfy` (module `LeafEdits`): the leaf each handler of the row
  editor builds. The BETWEEN slot edit copies the value into an array and
  writes one slot in place. `leaf_properties.dfy` (module `LeafProperties`)
  proves how these edits interact with the operator menus and with the SQL.
- `config.dfy` (module `TablesConfig`): the configured tables, the
  configuration's operator table and the validation rules.
- `builder.dfy` (module `Builder`): the provider as a class. It holds the
  selected table, the root group and the saved conditions. Every edit replaces
  the root with the result of the pure rebuild; saving appends a record and
  loading replaces the root.
- `scenarios.dfy` (module `Scenarios`): the two sample saved conditions and
  their recorded SQL. It also covers a BETWEEN range, an OR group, and what
  happens when ids are absent or shared.

The model follows these behaviours of the code:

- Ids are never re-minted. Adding a saved condition, or loading one, uses the
  tree exactly as it was saved, ids included. Inserting the same saved
  condition twice yields two copies with the same ids. The samples carry no
  ids at all, so one update of an id-less leaf rewrites every id-less leaf.
- An edit that names a group id reaches every group with that id, not just
  the first one.
- Saving keeps ids in the JSON text. It checks neither that the name is
  non-empty nor that it is new.
- The null tests are the operators `IS NULL` and `IS NOT NULL`. No `IS`
  operator takes a `NULL` / `NOT NULL` value.
- There is no loader from JSON text.
- A root whose children are only empty groups gives `SELECT * FROM <table>`
  with no WHERE clause.
- The configuration's operator table lists `IS`, which the row editor never
  offers. The row editor's menus are a separate list.

## Model

| member | source | states |
|---|---|---|
| `Editor.AddCondition` | src/components/ConditionBuilder/ConditionBuilderContext.tsx:56-79 | The root keeps its id and operator. When the root has the parent id, the new leaf becomes its last child. Otherwise each child is rebuilt in place by the add rebuild, which puts the leaf last at every depth (`AppendChildAppendsLast`). |
| `Editor.NewGroup` | src/components/ConditionBuilder/ConditionBuilderContext.tsx:136-141 | The new group is an AND group with the id `group-<uuid>` and no children or leaves. |
| `Editor.AddGroup` | src/components/ConditionBuilder/ConditionBuilderContext.tsx:135-165 | The root keeps its id and operator. When the root has the parent id, the new empty group becomes its last child. Otherwise each child is rebuilt in place by the add rebuild, which puts the group last at every depth (`AppendChildAppendsLast`). |
| `Editor.RemoveCondition` | src/components/ConditionBuilder/ConditionBuilderContext.tsx:82-110 | The root keeps its id and operator. When the root has the parent id, a child stays exactly when it was there and its id differs from the removed id, leaf or group. |
| `Editor.RemoveGroup` | src/components/ConditionBuilder/ConditionBuilderContext.tsx:168-196 | The root keeps its id and operator. When the root has the parent id, a child stays exactly when it was there and is not a group with the removed id. Leaves are kept whatever their id. |
| `Editor.AppendChild` | src/components/ConditionBuilder/ConditionBuilderContext.tsx:56-79 | Node kind, id and group operator are kept. A group whose id is the parent id gets the child as its new last child. Any other group rebuilds each child in place, and a leaf is returned as is. |
| `Editor.FindSaved` | src/components/ConditionBuilder/ConditionBuilderContext.tsx:226 | None exactly when no saved condition has the id. Otherwise the result is the first one with that id. |
| `Editor.AddPreviousCondition` | src/components/ConditionBuilder/ConditionBuilderContext.tsx:225-252 | An unknown saved id leaves the tree alone. Otherwise the result is the add rebuild with the saved group, exactly as saved, so it goes last under every reached group with the parent id (`AppendChildAppendsLast`). |
| `Editor.Keep` | src/components/ConditionBuilder/ConditionBuilderContext.tsx:88-93 | The filter never grows the list. A child survives exactly when the filter does not drop it. |
| `Editor.RemoveChildren` | src/components/ConditionBuilder/ConditionBuilderContext.tsx:168-196 | The remove rebuild keeps node kind, id and group operator. A group with the parent id keeps exactly the children the filter keeps, in order. Any other group rebuilds each of its children in place. |
| `Editor.UpdateCondition` | src/components/ConditionBuilder/ConditionBuilderContext.tsx:113-132 | The update keeps node kind, and keeps the id and operator of every group. |
| `Editor.UpdateGroupLogicalOperator` | src/components/ConditionBuilder/ConditionBuilderContext.tsx:199-222 | A group with the addressed id gets the new operator and nothing else changes in it. Any other group keeps its operator and rebuilds each child in place. Every node keeps its kind and id, and a leaf is returned as is. |
| `EditorProperties.AppendChildUntargeted` | src/components/ConditionBuilder/ConditionBuilderContext.tsx:56-79 | When no group has the parent id, the add edits return the tree unchanged. |
| `EditorProperties.AppendChildSize` | src/components/ConditionBuilder/ConditionBuilderContext.tsx:56-79 | The add edits grow the tree by the child's size times the number of groups with the parent id. |
| `EditorProperties.AppendChildIds` | src/components/ConditionBuilder/ConditionBuilderContext.tsx:135-165 | Ids after an add are the old ids plus the child's own ids, when some group was targeted. No id is minted. |
| `EditorProperties.AddPreviousConditionKeepsSavedIds` | src/components/ConditionBuilder/ConditionBuilderContext.tsx:225-252 | With a known saved id and a targeted parent, the tree's ids become the old ids plus those of the saved group. |
| `EditorProperties.KeepConcat` | src/components/ConditionBuilder/ConditionBuilderContext.tsx:88-93 | The filter keeps survivors in order: filtering a concatenation is concatenating the filtered parts. |
| `EditorProperties.KeepNothingDropped` | src/components/ConditionBuilder/ConditionBuilderContext.tsx:88-93 | With nothing to drop, the filter returns the children unchanged. |
| `EditorProperties.KeepIdempotent` | src/components/ConditionBuilder/ConditionBuilderContext.tsx:174-179 | Filtering twice is filtering once. |
| `EditorProperties.KeepSize` | src/components/ConditionBuilder/ConditionBuilderContext.tsx:174-179 | The filter never increases the size of the children. |
| `EditorProperties.RemoveChildrenUntargeted` | src/components/ConditionBuilder/ConditionBuilderContext.tsx:82-110 | When no group has the parent id, the remove edits return the tree unchanged. |
| `EditorProperties.RemoveChildrenIdempotent` | src/components/ConditionBuilder/ConditionBuilderContext.tsx:168-196 | Removing a second time removes nothing more. |
| `EditorProperties.RemoveChildrenSize` | src/components/ConditionBuilder/ConditionBuilderContext.tsx:82-110 | The remove edits never make the tree larger. |
| `EditorProperties.ChildrenLackFreshId` | src/components/ConditionBuilder/ConditionBuilderContext.tsx:88-93 | A child list that does not carry an id drops nothing when filtering on that id. |
| `EditorProperties.RemoveUndoesAppend` | src/components/ConditionBuilder/ConditionBuilderContext.tsx:82-110 | Removing, from the same parent, a child just appended whose id is new to the tree gives back the original tree. |
| `EditorProperties.RemoveConditionUndoesAddCondition` | src/components/ConditionBuilder/ConditionBuilderContext.tsx:82-110 | removeCondition undoes addCondition when the new leaf's id is new to the tree. |
| `EditorProperties.RemoveGroupUndoesAddGroup` | src/components/ConditionBuilder/ConditionBuilderContext.tsx:168-196 | removeGroup undoes addGroup when the minted `group-<uuid>` id is new to the tree. |
| `EditorProperties.UpdateConditionLeavesAre` | src/components/ConditionBuilder/ConditionBuilderContext.tsx:113-132 | The leaves after an update are the old leaves, each replaced exactly when its id equals the updated leaf's id. |
| `EditorProperties.UpdateConditionLeaves` | src/components/ConditionBuilder/ConditionBuilderContext.tsx:113-132 | The update keeps the number of leaves. Position by position, a leaf becomes the updated leaf exactly when the ids are equal, at any depth. |
| `EditorProperties.UpdateConditionSkeleton` | src/components/ConditionBuilder/ConditionBuilderContext.tsx:113-132 | The update keeps group ids, group operators, child counts and leaf positions. |
| `EditorProperties.UpdateConditionIdempotent` | src/components/ConditionBuilder/ConditionBuilderContext.tsx:113-132 | Applying the same update twice is applying it once. |
| `EditorProperties.UpdateConditionNoMatch` | src/components/ConditionBuilder/ConditionBuilderContext.tsx:122-125 | When no leaf has the updated leaf's id, the tree is unchanged. |
| `EditorProperties.UpdateGroupLogicalOperatorOnlyOperators` | src/components/ConditionBuilder/ConditionBuilderContext.tsx:199-222 | The operator change yields a tree of the same shape, with the same leaves and ids. Only groups with the addressed id may have another operator. |
| `EditorProperties.UpdateGroupLogicalOperatorSetsAddressed` | src/components/ConditionBuilder/ConditionBuilderContext.tsx:199-222 | Every group with the id that the search reaches, at any depth, has the new operator afterwards. |
| `EditorProperties.AppendChildAppendsLast` | src/components/ConditionBuilder/ConditionBuilderContext.tsx:56-79 | The add rebuild gives the child as the new last child of every group with the parent id that the search reaches, at any depth. Every other node keeps its id, operator and children, in place. |
| `EditorProperties.UpdateGroupLogicalOperatorLeaves` | src/components/ConditionBuilder/ConditionBuilderContext.tsx:199-222 | Changing a group operator touches no leaf. |
| `EditorProperties.UpdateGroupLogicalOperatorIdsAndSize` | src/components/ConditionBuilder/ConditionBuilderContext.tsx:199-222 | Changing a group operator keeps every id and every node. |
| `EditorProperties.UpdateGroupLogicalOperatorUntargeted` | src/components/ConditionBuilder/ConditionBuilderContext.tsx:199-222 | An id that no group carries changes nothing. |
| `EditorProperties.UpdateGroupLogicalOperatorLastWins` | src/components/ConditionBuilder/ConditionBuilderContext.tsx:199-222 | Setting the operator twice is setting it to the second value. |
| `Sql.FormatSqlValue` | src/components/ConditionBuilder/ConditionBuilderContext.tsx:255-273 | null, undefined, `''` and `'NULL'` give `NULL`. String, date and enum values are quoted. Numbers give their text, or `NULL` when not numeric. Booleans give `TRUE` or `FALSE` by truthiness, and Mapping gives the text. |
| `JsValues.JsText` | src/components/ConditionBuilder/ConditionBuilderContext.tsx:267-271 | `String(v)` prints an empty array as nothing, and a one-element array as its element, with null and undefined as nothing. |
| `JsValues.IsNumeric` | src/components/ConditionBuilder/ConditionBuilderContext.tsx:267 | Every text made only of decimal digits converts to a number. |
| `JsValues.DigitsNumericText` | src/components/ConditionBuilder/ConditionBuilderContext.tsx:267 | A text made only of decimal digits passes the numeric test. |
| `JsValues.IsNumericEdges` | src/components/ConditionBuilder/ConditionBuilderContext.tsx:267 | null, `''` and `[]` convert to a number, and undefined does not. |
| `JsValues.Truthy` | src/components/ConditionBuilder/ConditionBuilderContext.tsx:269 | A value is falsy exactly when it is null, undefined, `''`, 0, NaN or false. |
| `Sql.ElementAt` | src/components/ConditionBuilder/ConditionBuilderContext.tsx:300 | Indexing an array gives the element, or `undefined` past the end. |
| `Sql.FormatAll` | src/components/ConditionBuilder/ConditionBuilderContext.tsx:303 | Formatting a list keeps its length, and each entry is the formatted element at that position. |
| `Sql.LowerLeaf` | src/components/ConditionBuilder/ConditionBuilderContext.tsx:286-311 | Every leaf clause begins with the column name followed by a space. |
| `Sql.Parts` | src/components/ConditionBuilder/ConditionBuilderContext.tsx:281-315 | No clause kept for joining is empty. There is no clause exactly when the children hold no leaf at any depth. |
| `Sql.GenerateSqlForGroup` | src/components/ConditionBuilder/ConditionBuilderContext.tsx:276-319 | A group's SQL is empty exactly when the group holds no leaf at any depth. |
| `Sql.GenerateSql` | src/components/ConditionBuilder/ConditionBuilderContext.tsx:322-329 | The statement is empty exactly without a table or with a childless root. Otherwise it is `SELECT * FROM name`, with ` WHERE` and the root's SQL when that SQL is not empty. |
| `SqlProperties.QuotedTypesNullIff` | src/components/ConditionBuilder/ConditionBuilderContext.tsx:255-264 | For string, date and enum columns, `NULL` comes out exactly for null, undefined, `''` and `'NULL'`. Any other value is quoted. |
| `SqlProperties.NewLeafLowersToEqualsNull` | src/components/ConditionBuilder/ConditionBuilderContext.tsx:307-310 | A default leaf (`=`, value `''`) lowers to `col = NULL`, not `col IS NULL`. |
| `SqlProperties.BetweenArrayLowering` | src/components/ConditionBuilder/ConditionBuilderContext.tsx:299-300 | BETWEEN with an array formats its first two elements, missing ones as `undefined`. |
| `SqlProperties.BetweenNumbers` | src/components/ConditionBuilder/ConditionBuilderContext.tsx:265-267 | BETWEEN over two numbers on a numeric column writes both numbers as printed. |
| `SqlProperties.InWrapsScalar` | src/components/ConditionBuilder/ConditionBuilderContext.tsx:301-304 | IN and NOT IN treat a scalar as a one-element list, and their clause is `col OP (...)`. |
| `SqlProperties.InArrayLowering` | src/components/ConditionBuilder/ConditionBuilderContext.tsx:301-304 | IN and NOT IN with an array give `col OP (...)`, where the list is every element formatted with the column's type and joined with `, `. |
| `SqlProperties.NullOperatorsIgnoreValue` | src/components/ConditionBuilder/ConditionBuilderContext.tsx:305-306 | IS NULL and IS NOT NULL ignore the value and give `col IS [NOT] NULL`. |
| `SqlProperties.NullValueLowersToIsNull` | src/components/ConditionBuilder/ConditionBuilderContext.tsx:307-308 | With any other operator, a null or `'NULL'` value forces `col IS NULL`. |
| `SqlProperties.ColumnReferenceUnquoted` | src/components/ConditionBuilder/ConditionBuilderContext.tsx:289-292 | A comparison with a column reference writes the referenced name unquoted. |
| `SqlProperties.LiteralComparison` | src/components/ConditionBuilder/ConditionBuilderContext.tsx:293-310 | Any other comparison writes the operator and the formatted literal. |
| `SqlProperties.QuotedComparison` | src/components/ConditionBuilder/ConditionBuilderContext.tsx:261-264 | A text literal on a quoted column is compared as `'text'`. |
| `SqlProperties.NumberComparison` | src/components/ConditionBuilder/ConditionBuilderContext.tsx:265-267 | A number on a numeric column is compared as its printed text. |
| `SqlProperties.PartsConcat` | src/components/ConditionBuilder/ConditionBuilderContext.tsx:281-315 | The clauses of a concatenation of children are the concatenated clauses, in order. |
| `SqlProperties.PartsOfGroup` | src/components/ConditionBuilder/ConditionBuilderContext.tsx:282-284 | A nested group with SQL contributes that SQL in parentheses. |
| `SqlProperties.OneLeafSql` | src/components/ConditionBuilder/ConditionBuilderContext.tsx:317-318 | A group of one leaf lowers to that leaf's clause, whatever its operator. |
| `SqlProperties.TwoLeavesSql` | src/components/ConditionBuilder/ConditionBuilderContext.tsx:317-318 | A group of two leaves joins their clauses with ` AND ` or ` OR `. |
| `SqlProperties.LeafThenGroupSql` | src/components/ConditionBuilder/ConditionBuilderContext.tsx:282-284 | A leaf followed by a nested group gives the leaf's clause, the operator and the group's SQL in parentheses. |
| `SqlProperties.AppendLeafSql` | src/components/ConditionBuilder/ConditionBuilderContext.tsx:276-319 | Appending a leaf to a group extends its SQL by one clause after the group's operator. With no SQL before, the result is the leaf's clause alone. |
| `SqlProperties.AddConditionToRootSql` | src/components/ConditionBuilder/ConditionBuilderContext.tsx:56-79 | addCondition on the root adds one clause at the end of the root's SQL. |
| `SqlProperties.AppendLeaflessKeepsSql` | src/components/ConditionBuilder/ConditionBuilderContext.tsx:276-319 | Appending a child without leaves anywhere in the tree leaves the SQL as it was. |
| `SqlProperties.AddGroupKeepsSql` | src/components/ConditionBuilder/ConditionBuilderContext.tsx:135-165 | addGroup never changes the generated SQL. |
| `SqlProperties.WhereIffLeaves` | src/components/ConditionBuilder/ConditionBuilderContext.tsx:322-329 | With a table and a non-empty root, the WHERE clause is present exactly when the tree holds a leaf. |
| `SqlProperties.StatementWithWhere` | src/components/ConditionBuilder/ConditionBuilderContext.tsx:328 | A non-empty group SQL is appended after ` WHERE `. |
| `OperatorPolicy.ValidOperators` | src/components/ConditionBuilder/ConditionRow.tsx:32-48 | Every menu is non-empty, starts with `=` and offers both null tests. BETWEEN is offered exactly for number, integer and date, and LIKE exactly for string. The boolean and Mapping menus are given in full. |
| `OperatorPolicy.OperatorFits` | src/components/ConditionBuilder/ConditionRow.tsx:60-62 | `=` and both null tests always fit. BETWEEN fits exactly number, integer and date columns, and LIKE exactly string columns. |
| `OperatorPolicy.BooleanMenuIsCommon` | src/components/ConditionBuilder/ConditionRow.tsx:32-48 | Every operator of the boolean menu is offered for every type. |
| `LeafEdits.FindColumn` | src/components/ConditionBuilder/ConditionRow.tsx:75 | No table finds nothing. Otherwise the result is the first column with the name. |
| `LeafEdits.FirstNamed` | src/components/ConditionBuilder/ConditionRow.tsx:75 | None exactly when no column has the name. Otherwise the result is the first column with it. |
| `LeafEdits.ChangeColumn` | src/components/ConditionBuilder/ConditionRow.tsx:73-87 | An unknown column leaves the leaf alone. Otherwise the leaf gets the column, its first offered operator and an empty literal, keeping its id. |
| `LeafEdits.OperatorReset` | src/components/ConditionBuilder/ConditionRow.tsx:60-70 | The reset fires exactly when the operator is not offered for the column. It then gives `=` and an empty literal. |
| `LeafEdits.SameTypeColumns` | src/components/ConditionBuilder/ConditionRow.tsx:51-57 | No table gives no candidates. Otherwise the candidates are the table's columns filtered to the same type. |
| `LeafEdits.SameTypeAmong` | src/components/ConditionBuilder/ConditionRow.tsx:54-56 | A column is a candidate exactly when it has the leaf's type and a different name. |
| `LeafEdits.ChangeOperator` | src/components/ConditionBuilder/ConditionRow.tsx:90-103 | Only the operator changes, except that the null tests replace the value by a null literal. |
| `LeafEdits.ChangeValueType` | src/components/ConditionBuilder/ConditionRow.tsx:106-129 | The value becomes an empty reference (null value) in column mode, or `''` in literal mode, with no reference. |
| `LeafEdits.ChangeValue` | src/components/ConditionBuilder/ConditionRow.tsx:132-140 | Only the value slot changes, to the typed text. |
| `LeafEdits.ChangeColumnReference` | src/components/ConditionBuilder/ConditionRow.tsx:143-151 | Only the reference changes. |
| `LeafEdits.ChangeInValues` | src/components/ConditionBuilder/ConditionRow.tsx:171-179 | The value slot becomes the list of strings, element by element. |
| `LeafEdits.BetweenSlots` | src/components/ConditionBuilder/ConditionRow.tsx:154-159 | The written slot holds the text and the other slots of the base are kept. Writing past the end fills the skipped slots with `undefined`. |
| `LeafEdits.ChangeBetweenValue` | src/components/ConditionBuilder/ConditionRow.tsx:154-168 | The in-place copy-and-write loop stores exactly the slot array that BetweenSlots specifies. |
| `LeafEdits.NewLeaf` | src/components/ConditionBuilder/ConditionGroup.tsx:56-67 | No leaf without a table or columns. Otherwise the leaf has the first column, `=` and an empty literal. |
| `LeafProperties.ChangeColumnFits` | src/components/ConditionBuilder/ConditionRow.tsx:73-87 | After a column change the operator is `=`, it fits the column, and the reset does not fire. |
| `LeafProperties.OperatorResetSettles` | src/components/ConditionBuilder/ConditionRow.tsx:60-70 | After the reset the leaf fits, and a second reset does nothing. |
| `LeafProperties.ChangeOperatorFits` | src/components/ConditionBuilder/ConditionRow.tsx:90-103 | An operator change keeps the leaf fitting exactly when the operator is offered for the column. |
| `LeafProperties.ValueEditsKeepFit` | src/components/ConditionBuilder/ConditionRow.tsx:106-190 | Value edits keep a fitting leaf fitting. |
| `LeafProperties.NewLeafFits` | src/components/ConditionBuilder/ConditionGroup.tsx:56-67 | A new leaf fits its column and lowers to `col = NULL`. |
| `LeafProperties.NullTestLowering` | src/components/ConditionBuilder/ConditionRow.tsx:93-96 | Choosing a null test lowers to `col IS [NOT] NULL`. |
| `LeafProperties.PickedColumnReferenceLowersToIsNull` | src/components/ConditionBuilder/ConditionRow.tsx:113-119 | Column mode with a picked reference keeps a null value. So a comparison lowers to `col IS NULL`, not a comparison with the referenced column. |
| `LeafProperties.ChangeValueLastWins` | src/components/ConditionBuilder/ConditionRow.tsx:132-140 | Typing twice is typing the second text. |
| `LeafProperties.InSingletonMatchesScalar` | src/components/ConditionBuilder/ConditionRow.tsx:171-179 | A one-element IN list and the same text typed as a scalar give the same clause. |
| `LeafProperties.BetweenBothSlots` | src/components/ConditionBuilder/ConditionRow.tsx:154-168 | Filling both slots of a fresh BETWEEN gives exactly the two texts. |
| `LeafProperties.BetweenSlotKeepsOtherBound` | src/components/ConditionBuilder/ConditionRow.tsx:154-168 | Writing the low bound keeps the high bound's SQL. |
| `LeafProperties.SameTypeExcludesOwnColumn` | src/components/ConditionBuilder/ConditionRow.tsx:51-57 | The reference candidates never include the leaf's own column. |
| `LeafProperties.SameTypeAmongConcat` | src/components/ConditionBuilder/ConditionRow.tsx:54-56 | The candidates keep table order: filtering concatenated columns is concatenating the filtered parts. |
| `TablesConfig.ProjectTables` | src/config/tables.ts:4-31 | There are two tables with different ids and names. No table repeats a column name. |
| `TablesConfig.UsersColumnNamesDistinct` | src/config/tables.ts:9-17 | The users table repeats no column name. |
| `TablesConfig.OrdersColumnNamesDistinct` | src/config/tables.ts:20-28 | The orders table repeats no column name. |
| `TablesConfig.EmailRule` | src/config/tables.ts:46 | An accepted email has at least five characters and neither starts nor ends with `@`. |
| `TablesConfig.AgeRule` | src/config/tables.ts:47 | A valid age is a valid amount, and so is its distance to 120. |
| `TablesConfig.DefaultOperators` | src/config/tables.ts:34-42 | The operator table has an entry for exactly the names of the seven data types. |
| `TablesConfig.DefaultOperatorsPolicy` | src/config/tables.ts:34-42 | Every entry is non-empty and starts with `=`. BETWEEN is listed exactly for number, integer and date, and IN / NOT IN exactly for enum. The Mapping and boolean entries are given in full. |
| `TablesConfig.DefaultOperatorsEntry` | src/config/tables.ts:34-42 | The same policy, stated for the entry of each data type. |
| `TablesConfig.OperatorNamed` | src/types.ts:16-21 | An operator found for a text is written as that text. |
| `TablesConfig.OperatorNamedInvertsText` | src/types.ts:16-21 | Each operator is named by its own text and by no other text. |
| `TablesConfig.DefaultOperatorsWithinEditorMenus` | src/config/tables.ts:34-42 | Apart from `IS`, which names no operator, every configured operator is offered by the row editor for that type. |
| `TablesConfig.ProjectTablesConsistent` | src/config/tables.ts:4-31 | Every column's type has an entry in the operator table, and every column names its own table. |
| `TablesConfig.ColumnsNameTable` | src/config/tables.ts:9-28 | Every column of the users and orders lists names its table. |
| `TablesConfig.EmailRuleMatchesPattern` | src/config/tables.ts:46 | The character-level email rule accepts exactly the texts the pattern describes. |
| `TablesConfig.PatternPassesRule` | src/config/tables.ts:46 | Every text of the pattern's shape passes the character rule. |
| `TablesConfig.RulePassesPattern` | src/config/tables.ts:46 | Every text passing the character rule has the pattern's shape. |
| `TablesConfig.NumericRuleBounds` | src/config/tables.ts:47-48 | Age accepts 0 and 120 and rejects anything above 120; amount accepts 0. Both reject negative numbers, and every valid age is a valid amount. |
| `Builder.ConditionBuilder.constructor` | src/components/ConditionBuilder/ConditionBuilderContext.tsx:43-53 | Starts with no table, the empty AND root `root`, and the given saved conditions. |
| `Builder.ConditionBuilder.SetSelectedTable` | src/components/ConditionBuilder/ConditionBuilderContext.tsx:43 | Sets the table and nothing else. |
| `Builder.ConditionBuilder.SetRootCondition` | src/components/ConditionBuilder/ConditionBuilderContext.tsx:46-51 | Sets the root and nothing else. |
| `Builder.ConditionBuilder.SetSavedConditions` | src/components/ConditionBuilder/ConditionBuilderContext.tsx:53 | Sets the saved list and nothing else. |
| `Builder.ConditionBuilder.AddCondition` | src/components/ConditionBuilder/ConditionBuilderContext.tsx:56-79 | The root becomes the add rebuild of the old root; table and saved list are unchanged. The leaf goes last under every reached group with the parent id, at any depth. |
| `Builder.ConditionBuilder.AddNewCondition` | src/components/ConditionBuilder/ConditionGroup.tsx:56-67 | Adds the default leaf under the group, or does nothing without a table or columns. The new leaf goes last under every reached group with the parent id. |
| `Builder.ConditionBuilder.RemoveCondition` | src/components/ConditionBuilder/ConditionBuilderContext.tsx:82-110 | The root becomes the remove rebuild of the old root; the rest is unchanged. When the root is the parent, a child stays exactly when its id differs from the removed id. |
| `Builder.ConditionBuilder.UpdateCondition` | src/components/ConditionBuilder/ConditionBuilderContext.tsx:113-132 | The root becomes the update rebuild of the old root; the rest is unchanged. |
| `Builder.ConditionBuilder.AddGroup` | src/components/ConditionBuilder/ConditionBuilderContext.tsx:135-165 | An empty AND group `group-<uuid>` is appended under the parent; the rest is unchanged. The new group goes last under every reached group with the parent id, at any depth. |
| `Builder.ConditionBuilder.RemoveGroup` | src/components/ConditionBuilder/ConditionBuilderContext.tsx:168-196 | The root becomes the remove rebuild of the old root; the rest is unchanged. When the root is the parent, a child stays exactly when it is not a group with the id, so leaves with that id stay. |
| `Builder.ConditionBuilder.UpdateGroupLogicalOperator` | src/components/ConditionBuilder/ConditionBuilderContext.tsx:199-222 | The root becomes the operator rebuild of the old root; the rest is unchanged. Every reached group with the id, at any depth, gets the operator. The tree differs from before only in the operators of groups with the id. |
| `Builder.ConditionBuilder.AddPreviousCondition` | src/components/ConditionBuilder/ConditionBuilderContext.tsx:225-252 | An unknown saved id changes nothing. Otherwise the saved group is appended, ids as saved. It goes last under every reached group with the parent id. |
| `Builder.ConditionBuilder.GenerateSQL` | src/components/ConditionBuilder/ConditionBuilderContext.tsx:322-329 | Empty exactly without a table or with a childless root. A WHERE clause is present exactly when the tree holds a leaf. |
| `Builder.ConditionBuilder.SaveCondition` | src/components/ConditionBuilder/ConditionBuilderContext.tsx:337-356 | Appends and returns a record with id `saved-<uuid>`, the table id or `''`, the root as is, its SQL and JSON, and the two given clock readings as creation and update times. Table and root are unchanged. |
| `Builder.ConditionBuilder.LoadSavedCondition` | src/components/ConditionBuilder/ConditionBuilderContext.tsx:359-364 | An unknown id changes nothing. Otherwise the root becomes the saved group, ids as saved. |
| `Builder.FindSavedAfterAppend` | src/components/ConditionBuilder/ConditionBuilderContext.tsx:353 | After an append, an earlier record with the id still wins. Otherwise the appended record is found when it carries the id. |
| `Scenarios.StatusActiveLowering` | src/mockData.ts:52-57 | The sample leaf `status = 'active'` lowers to that text. |
| `Scenarios.CreatedAfterLowering` | src/mockData.ts:73-78 | The sample date leaf lowers to `created_at > '2023-01-01'`. |
| `Scenarios.AmountAboveLowering` | src/mockData.ts:79-84 | The sample numeric leaf lowers to `amount > 1000`, unquoted. |
| `Scenarios.ActiveUsersSql` | src/mockData.ts:44-64 | The first sample's tree over `users` gives exactly its recorded SQL. |
| `Scenarios.HighValueOrdersSql` | src/mockData.ts:65-91 | The second sample's tree over `orders` gives exactly its recorded SQL. |
| `Scenarios.SampleSqlIsReproduced` | src/mockData.ts:43-92 | Both samples' recorded SQL is what the lowering produces. |
| `Scenarios.AmountRangeLowering` | src/components/ConditionBuilder/ConditionBuilderContext.tsx:299-300 | `amount BETWEEN 100 AND 500` for a two-number range. |
| `Scenarios.PaidOrShippedSql` | src/components/ConditionBuilder/ConditionBuilderContext.tsx:317-318 | An OR group of two status tests lowers to `status = 'paid' OR status = 'shipped'`. |
| `Scenarios.SharedGroupIdAddsTwice` | src/components/ConditionBuilder/ConditionBuilderContext.tsx:56-79 | Two groups sharing an id both receive the added leaf. |
| `Scenarios.InsertSampleTwice` | src/components/ConditionBuilder/ConditionBuilderContext.tsx:225-252 | Inserting a sample twice gives two identical id-less copies. |
| `Scenarios.IdlessCopiesUpdateTogether` | src/components/ConditionBuilder/ConditionBuilderContext.tsx:113-132 | Updating an id-less leaf rewrites both copies. |
| `Scenarios.SaveThenLoadRestores` | src/components/ConditionBuilder/ConditionBuilderContext.tsx:337-364 | Saving, editing, then loading the new record restores the saved root and leaves one more record. |

## Left out

- The JSX rendering, the Material UI widgets, the dialogs, the read-only
  display of a leaf and the row's local `valueType` state are not modelled.
  Only the records the handlers pass to the provider are.
- React's state setters and effects are not modelled. Each provider edit
  stores the result of its rebuild directly. The reset effect is the function
  `OperatorReset`, applied by whoever changes the column.
- `JSON.stringify` (`generateJSON`) is a function parameter of
  `SaveCondition`. Its text is not modelled.
- `uuidv4()` and `new Date()` are parameters. `saveCondition` is asynchronous
  in the source; the model runs it as one step.
- `Number(v)` for JavaScript numbers: a number is carried as its printed
  text, and NaN as the text `NaN`. Whether a string converts to a number is
  the hand-written predicate `IsNumeric`.
- The email rule's regular expression is stated as the predicate
  `MatchesEmailPattern` rather than run by a regex engine. The age and
  amount rules work on `real`, not on floating point.
- `conditionBuilderConfig` only groups the three exports and is not a
  separate member.
- `useConditionBuilder` and the provider's context wiring are not modelled.
- Products and other mock tables outside the two sample saved conditions are
  not modelled.
- `LeafEdits.BetweenSlots`: writing a slot past the end of the array leaves
  a hole in JavaScript, but the model stores `undefined` there. BETWEEN
  lowering and a later spread read a hole as `undefined`, so they agree.
  An IN list, however, skips holes in `map` and prints them as nothing:
  `[<hole>, 'x']` gives `col IN (, 'x')` in the source and `col IN (NULL, 'x')`
  in the model. The value type has no hole, so this case is not modelled.
- `LeafEdits.ChangeBetweenValue`: stores the `BetweenSlots` array and so has
  the same hole-versus-`undefined` difference.
- `OperatorPolicy.ValidOperators`: does not state that each menu lists its
  operators without repetition or in the order of the operator type. This is
  only visible in the function's body.
