/** Concrete trees and sessions: the SQL recorded with the sample saved
    conditions, a range test and an OR group, and the consequences of ids that are absent
    or shared. */
module Scenarios {
  import opened Types
  import opened Tree
  import opened Editor
  import opened Sql
  import opened TablesConfig
  import opened JsValues
  import SqlProperties
  import opened Builder

  /** The columns the samples use, as they appear in the tables. */
  function UserStatus(): Column {
    Column("status", "Status", EnumType, "users", Some(["active", "inactive", "pending"]))
  }

  function OrderCreatedAt(): Column {
    Column("created_at", "Created At", DateType, "orders", None)
  }

  function OrderAmount(): Column {
    Column("amount", "Amount", NumberType, "orders", None)
  }

  function OrderStatus(): Column {
    Column("status", "Status", EnumType, "orders", Some(["pending", "paid", "shipped", "delivered", "cancelled"]))
  }

  function StatusActive(): SingleCondition {
    Single(None, UserStatus(), Eq, ConditionValue(Literal, Str("active"), None, None))
  }

  function CreatedAfter(): SingleCondition {
    Single(None, OrderCreatedAt(), Gt, ConditionValue(Literal, Str("2023-01-01"), None, None))
  }

  function AmountAbove(): SingleCondition {
    Single(None, OrderAmount(), Gt, ConditionValue(Literal, Num("1000"), None, None))
  }

  /** The two sample saved conditions; their trees carry no ids. */
  function SampleSavedConditions(created: Timestamp): seq<SavedCondition> {
    [ SavedCondition("saved-1", "Active Users", "1", Group(None, And, [StatusActive()]),
                     "SELECT * FROM users WHERE status = 'active'", "", created, created),
      SavedCondition("saved-2", "Recent High Value Orders", "2", Group(None, And, [CreatedAfter(), AmountAbove()]),
                     "SELECT * FROM orders WHERE created_at > '2023-01-01' AND amount > 1000", "", created, created) ]
  }

  function Users(): Table { Table("1", "users", "Users", UsersColumns()) }

  function Orders(): Table { Table("2", "orders", "Orders", OrdersColumns()) }

  // ---------------------------------------------------------------------
  // The recorded SQL of the samples
  // ---------------------------------------------------------------------

  lemma StatusActiveLowering()
    ensures LowerLeaf(StatusActive()) == "status = 'active'"
  {
    SqlProperties.QuotedComparison(StatusActive(), "active");
    StatusActiveText();
  }

  // Proof helper for the neighbouring scenario lemma: one string-literal equality.
  lemma StatusActiveText()
    ensures "status" + " " + "=" + " " + ("'" + "active" + "'") == "status = 'active'"
  {
  }

  lemma CreatedAfterLowering()
    ensures LowerLeaf(CreatedAfter()) == "created_at > '2023-01-01'"
  {
    SqlProperties.QuotedComparison(CreatedAfter(), "2023-01-01");
    CreatedAfterText();
  }

  // Proof helper for the neighbouring scenario lemma: one string-literal equality.
  lemma CreatedAfterText()
    ensures "created_at" + " " + ">" + " " + ("'" + "2023-01-01" + "'") == "created_at > '2023-01-01'"
  {
  }

  lemma AmountAboveLowering()
    ensures LowerLeaf(AmountAbove()) == "amount > 1000"
  {
    SqlProperties.NumberComparison(AmountAbove(), "1000");
    AmountAboveText();
  }

  // Proof helper for the neighbouring scenario lemma: one string-literal equality.
  lemma AmountAboveText()
    ensures "amount" + " " + ">" + " " + "1000" == "amount > 1000"
  {
  }

  /** `SELECT * FROM <name> WHERE ` for the two tables. */
  lemma StatementHeads()
    ensures "SELECT * FROM " + "users" + " WHERE " == "SELECT * FROM users WHERE "
    ensures "SELECT * FROM " + "orders" + " WHERE " == "SELECT * FROM orders WHERE "
  {
  }

  /** A WHERE clause of one operator between two clauses, regrouped. */
  lemma Regroup(p: string, x: string, o: string, y: string)
    ensures p + (x + " " + o + " " + y) == p + x + (" " + o + " ") + y
  {
  }

  lemma ActiveUsersSql()
    ensures GenerateSql(Some(Users()), Group(None, And, [StatusActive()]))
            == "SELECT * FROM users WHERE status = 'active'"
  {
    SqlProperties.OneLeafSql(None, And, StatusActive());
    StatusActiveLowering();
    SqlProperties.StatementWithWhere(Users(), Group(None, And, [StatusActive()]), "status = 'active'");
    StatementHeads();
    ActiveUsersText();
  }

  // Proof helper for the neighbouring scenario lemma: one string-literal equality.
  lemma ActiveUsersText()
    ensures "SELECT * FROM users WHERE " + "status = 'active'" == "SELECT * FROM users WHERE status = 'active'"
  {
  }

  lemma HighValueOrdersSql()
    ensures GenerateSql(Some(Orders()), Group(None, And, [CreatedAfter(), AmountAbove()]))
            == "SELECT * FROM orders WHERE created_at > '2023-01-01' AND amount > 1000"
  {
    var root := Group(None, And, [CreatedAfter(), AmountAbove()]);
    var a, b := "created_at > '2023-01-01'", "amount > 1000";
    SqlProperties.TwoLeavesSql(None, And, CreatedAfter(), AmountAbove());
    CreatedAfterLowering();
    AmountAboveLowering();
    SqlProperties.StatementWithWhere(Orders(), root, a + " " + "AND" + " " + b);
    StatementHeads();
    Regroup("SELECT * FROM orders WHERE ", a, "AND", b);
    HighValueOrdersText1();
    HighValueOrdersText2();
    HighValueOrdersText3();
  }

  lemma HighValueOrdersText1()
    ensures "SELECT * FROM orders WHERE " + "created_at > '2023-01-01'"
            == "SELECT * FROM orders WHERE created_at > '2023-01-01'"
  {
  }

  lemma HighValueOrdersText2()
    ensures "SELECT * FROM orders WHERE created_at > '2023-01-01'" + (" " + "AND" + " ")
            == "SELECT * FROM orders WHERE created_at > '2023-01-01' AND "
  {
  }

  lemma HighValueOrdersText3()
    ensures "SELECT * FROM orders WHERE created_at > '2023-01-01' AND " + "amount > 1000"
            == "SELECT * FROM orders WHERE created_at > '2023-01-01' AND amount > 1000"
  {
  }

  /** The SQL recorded with each sample is what the lowering produces for
      its tree over its table. */
  lemma SampleSqlIsReproduced(created: Timestamp)
    ensures var saved := SampleSavedConditions(created);
            GenerateSql(Some(Users()), saved[0].condition) == saved[0].sqlRepresentation
            && GenerateSql(Some(Orders()), saved[1].condition) == saved[1].sqlRepresentation
  {
    ActiveUsersSql();
    HighValueOrdersSql();
  }

  // ---------------------------------------------------------------------
  // A range test and an OR group over the orders table
  // ---------------------------------------------------------------------

  function StatusIs(text: string): SingleCondition {
    Single(None, OrderStatus(), Eq, ConditionValue(Literal, Str(text), None, None))
  }

  function AmountRange(): SingleCondition {
    Single(None, OrderAmount(), Between, ConditionValue(Literal, Arr([Num("100"), Num("500")]), None, None))
  }

  function PaidOrShipped(): ConditionGroup {
    Group(Some("g"), Or, [StatusIs("paid"), StatusIs("shipped")])
  }

  lemma AmountRangeLowering()
    ensures LowerLeaf(AmountRange()) == "amount BETWEEN 100 AND 500"
  {
    SqlProperties.BetweenNumbers(AmountRange(), "100", "500");
    AmountRangeText();
  }

  // Proof helper for the neighbouring scenario lemma: one string-literal equality.
  lemma AmountRangeText()
    ensures "amount" + " BETWEEN " + "100" + " AND " + "500" == "amount BETWEEN 100 AND 500"
  {
  }

  lemma PaidOrShippedSql()
    ensures GenerateSqlForGroup(PaidOrShipped()) == "status = 'paid' OR status = 'shipped'"
  {
    SqlProperties.TwoLeavesSql(Some("g"), Or, StatusIs("paid"), StatusIs("shipped"));
    SqlProperties.QuotedComparison(StatusIs("paid"), "paid");
    SqlProperties.QuotedComparison(StatusIs("shipped"), "shipped");
    StatusIsText();
    PaidOrShippedText();
  }

  // Proof helper for the neighbouring scenario lemma: one string-literal equality.
  lemma StatusIsText()
    ensures "status" + " " + "=" + " " + ("'" + "paid" + "'") == "status = 'paid'"
    ensures "status" + " " + "=" + " " + ("'" + "shipped" + "'") == "status = 'shipped'"
  {
  }

  // Proof helper for the neighbouring scenario lemma: one string-literal equality.
  lemma PaidOrShippedText()
    ensures "status = 'paid'" + " " + "OR" + " " + "status = 'shipped'" == "status = 'paid' OR status = 'shipped'"
  {
  }

  // ---------------------------------------------------------------------
  // Ids shared or absent
  // ---------------------------------------------------------------------

  lemma AppendChildAllOfTwo(x: Condition, y: Condition, parentId: Id, child: Condition)
    ensures AppendChildAll([x, y], parentId, child) == [AppendChild(x, parentId, child), AppendChild(y, parentId, child)]
  {
    var cs := [x, y];
    assert cs[1..] == [y] && [y][1..] == [];
  }

  /** Two groups with the same id both receive an added leaf. */
  lemma SharedGroupIdAddsTwice(leaf: SingleCondition)
    ensures var root := Group(Some("root"), And, [Group(Some("g"), Or, []), Group(Some("g"), And, [])]);
            AddCondition(root, Some("g"), leaf)
            == Group(Some("root"), And, [Group(Some("g"), Or, [leaf]), Group(Some("g"), And, [leaf])])
  {
    var empty: seq<Condition> := [];
    assert empty + [leaf] == [leaf];
    assert Some("root") != Some("g") by { assert "root"[0] != "g"[0]; }
    AppendChildAllOfTwo(Group(Some("g"), Or, []), Group(Some("g"), And, []), Some("g"), leaf);
  }

  lemma InsertSampleTwice(created: Timestamp)
    ensures var saved := SampleSavedConditions(created);
            var once := AddPreviousCondition(EmptyRoot(), saved, Some("root"), "saved-1");
            AddPreviousCondition(once, saved, Some("root"), "saved-1")
            == Group(Some("root"), And, [Group(None, And, [StatusActive()]), Group(None, And, [StatusActive()])])
  {
    var saved := SampleSavedConditions(created);
    assert FindSaved(saved, "saved-1") == Some(saved[0]);
  }

  /** A sample saved condition inserted twice keeps its id-less leaf in both
      copies, so an update of a leaf without id rewrites both copies. */
  lemma IdlessCopiesUpdateTogether(created: Timestamp)
    ensures var saved := SampleSavedConditions(created);
            var once := AddPreviousCondition(EmptyRoot(), saved, Some("root"), "saved-1");
            var twice := AddPreviousCondition(once, saved, Some("root"), "saved-1");
            var updated := StatusActive().(value := ConditionValue(Literal, Str("inactive"), None, None));
            UpdateCondition(twice, updated)
            == Group(Some("root"), And, [Group(None, And, [updated]), Group(None, And, [updated])])
  {
    InsertSampleTwice(created);
    var copy := Group(None, And, [StatusActive()]);
    var updated := StatusActive().(value := ConditionValue(Literal, Str("inactive"), None, None));
    assert UpdateConditionAll([StatusActive()], updated) == [updated];
    assert UpdateCondition(copy, updated) == Group(None, And, [updated]);
  }

  /** A session: saving the tree and later loading the new record restores
      the tree as it was saved, provided no earlier record used the new id. */
  method SaveThenLoadRestores(b: ConditionBuilder, name: string, uuid: string, createdAt: Timestamp, updatedAt: Timestamp,
                              toJson: Condition -> string, leaf: SingleCondition)
    requires forall i :: 0 <= i < |b.savedConditions| ==> b.savedConditions[i].id != "saved-" + uuid
    modifies b
    ensures b.rootCondition == old(b.rootCondition)
    ensures |b.savedConditions| == |old(b.savedConditions)| + 1
  {
    var saved := b.SaveCondition(name, uuid, createdAt, updatedAt, toJson);
    FindSavedAfterAppend(old(b.savedConditions), saved, saved.id);
    b.AddCondition(b.rootCondition.id, leaf);
    b.LoadSavedCondition("saved-" + uuid);
  }
}
