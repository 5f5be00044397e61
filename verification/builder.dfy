/** The condition-builder provider: the selected table, the root of the
    condition tree and the list of saved conditions, with the edits that
    replace the root and the operations that save and load conditions.
    Each edit stores the result of the corresponding pure rebuild. */
module Builder {
  import opened Types
  import opened Tree
  import Editor
  import opened Sql
  import LeafEdits
  import EditorProperties

  /** `selectedTable?.id || ''`. */
  function TableIdOf(table: Option<Table>): (r: string)
    ensures table.None? ==> r == ""
    ensures table.Some? ==> r == table.value.id
  {
    if table.None? then "" else table.value.id
  }

  /** Looking a saved condition up after one more was appended: an earlier
      entry with the id still wins; otherwise the appended one is found when
      it carries the id. */
  lemma {:induction false} FindSavedAfterAppend(saved: seq<SavedCondition>, s: SavedCondition, id: string)
    ensures Editor.FindSaved(saved + [s], id)
            == if Editor.FindSaved(saved, id).Some? then Editor.FindSaved(saved, id)
               else if s.id == id then Some(s) else None
    decreases saved
  {
    if saved == [] {
      assert saved + [s] == [s];
    } else {
      assert (saved + [s])[0] == saved[0];
      assert (saved + [s])[1..] == saved[1..] + [s];
      FindSavedAfterAppend(saved[1..], s, id);
    }
  }

  class ConditionBuilder {
    var selectedTable: Option<Table>
    var rootCondition: ConditionGroup
    var savedConditions: seq<SavedCondition>

    /** No table, the empty root, and the given saved conditions. */
    constructor(initialSaved: seq<SavedCondition>)
      ensures selectedTable == None && rootCondition == EmptyRoot() && savedConditions == initialSaved
    {
      selectedTable := None;
      rootCondition := EmptyRoot();
      savedConditions := initialSaved;
    }

    method SetSelectedTable(table: Option<Table>)
      modifies this
      ensures selectedTable == table
      ensures rootCondition == old(rootCondition) && savedConditions == old(savedConditions)
    {
      selectedTable := table;
    }

    method SetRootCondition(root: ConditionGroup)
      modifies this
      ensures rootCondition == root
      ensures selectedTable == old(selectedTable) && savedConditions == old(savedConditions)
    {
      rootCondition := root;
    }

    method SetSavedConditions(saved: seq<SavedCondition>)
      modifies this
      ensures savedConditions == saved
      ensures selectedTable == old(selectedTable) && rootCondition == old(rootCondition)
    {
      savedConditions := saved;
    }

    method AddCondition(parentGroupId: Id, condition: SingleCondition)
      modifies this
      ensures rootCondition == Editor.AddCondition(old(rootCondition), parentGroupId, condition)
      ensures EditorProperties.AppendedUnder(old(rootCondition), rootCondition, parentGroupId, condition)
      ensures selectedTable == old(selectedTable) && savedConditions == old(savedConditions)
    {
      EditorProperties.AppendChildAppendsLast(rootCondition, parentGroupId, condition);
      rootCondition := Editor.AddCondition(rootCondition, parentGroupId, condition);
    }

    /** "Add condition" on a group: a new leaf over the selected table's
        first column, or nothing when there is no table or it has no
        columns. */
    method AddNewCondition(parentGroupId: Id, uuid: string)
      modifies this
      ensures LeafEdits.NewLeaf(selectedTable, uuid).None? ==> rootCondition == old(rootCondition)
      ensures LeafEdits.NewLeaf(selectedTable, uuid).Some? ==>
                rootCondition == Editor.AddCondition(old(rootCondition), parentGroupId,
                                                     LeafEdits.NewLeaf(selectedTable, uuid).value)
                && EditorProperties.AppendedUnder(old(rootCondition), rootCondition, parentGroupId,
                                                  LeafEdits.NewLeaf(selectedTable, uuid).value)
      ensures selectedTable == old(selectedTable) && savedConditions == old(savedConditions)
    {
      var leaf := LeafEdits.NewLeaf(selectedTable, uuid);
      if leaf.Some? {
        AddCondition(parentGroupId, leaf.value);
      }
    }

    method RemoveCondition(conditionId: Id, parentGroupId: Id)
      modifies this
      ensures rootCondition == Editor.RemoveCondition(old(rootCondition), conditionId, parentGroupId)
      ensures old(rootCondition).id == parentGroupId ==>
                forall x :: x in rootCondition.conditions <==> x in old(rootCondition).conditions && x.id != conditionId
      ensures selectedTable == old(selectedTable) && savedConditions == old(savedConditions)
    {
      rootCondition := Editor.RemoveCondition(rootCondition, conditionId, parentGroupId);
    }

    method UpdateCondition(condition: SingleCondition)
      modifies this
      ensures rootCondition == Editor.UpdateCondition(old(rootCondition), condition)
      ensures selectedTable == old(selectedTable) && savedConditions == old(savedConditions)
    {
      rootCondition := Editor.UpdateCondition(rootCondition, condition);
    }

    method AddGroup(parentGroupId: Id, uuid: string)
      modifies this
      ensures rootCondition == Editor.AddGroup(old(rootCondition), parentGroupId, uuid)
      ensures EditorProperties.AppendedUnder(old(rootCondition), rootCondition, parentGroupId, Editor.NewGroup(uuid))
      ensures selectedTable == old(selectedTable) && savedConditions == old(savedConditions)
    {
      EditorProperties.AppendChildAppendsLast(rootCondition, parentGroupId, Editor.NewGroup(uuid));
      rootCondition := Editor.AddGroup(rootCondition, parentGroupId, uuid);
    }

    method RemoveGroup(groupId: Id, parentGroupId: Id)
      modifies this
      ensures rootCondition == Editor.RemoveGroup(old(rootCondition), groupId, parentGroupId)
      ensures old(rootCondition).id == parentGroupId ==>
                forall x :: x in rootCondition.conditions <==>
                              x in old(rootCondition).conditions && !(x.Group? && x.id == groupId)
      ensures selectedTable == old(selectedTable) && savedConditions == old(savedConditions)
    {
      rootCondition := Editor.RemoveGroup(rootCondition, groupId, parentGroupId);
    }

    method UpdateGroupLogicalOperator(groupId: Id, op: LogicalOperator)
      modifies this
      ensures rootCondition == Editor.UpdateGroupLogicalOperator(old(rootCondition), groupId, op)
      ensures old(rootCondition).id == groupId ==> rootCondition.logicalOperator == op
      ensures EditorProperties.OperatorsOnlyDiffer(old(rootCondition), rootCondition, groupId)
      ensures EditorProperties.AddressedHaveOperator(rootCondition, groupId, op)
      ensures selectedTable == old(selectedTable) && savedConditions == old(savedConditions)
    {
      EditorProperties.UpdateGroupLogicalOperatorSetsAddressed(rootCondition, groupId, op);
      EditorProperties.UpdateGroupLogicalOperatorOnlyOperators(rootCondition, groupId, op);
      rootCondition := Editor.UpdateGroupLogicalOperator(rootCondition, groupId, op);
    }

    /** Inserts a saved condition's group, ids as saved, under every group
        with id `parentGroupId`; nothing happens for an unknown saved id. */
    method AddPreviousCondition(parentGroupId: Id, savedConditionId: string)
      modifies this
      ensures Editor.FindSaved(savedConditions, savedConditionId).None? ==> rootCondition == old(rootCondition)
      ensures Editor.FindSaved(savedConditions, savedConditionId).Some? ==>
                rootCondition == Editor.AppendChild(old(rootCondition), parentGroupId,
                                                    Editor.FindSaved(savedConditions, savedConditionId).value.condition)
                && EditorProperties.AppendedUnder(old(rootCondition), rootCondition, parentGroupId,
                                                  Editor.FindSaved(savedConditions, savedConditionId).value.condition)
      ensures selectedTable == old(selectedTable) && savedConditions == old(savedConditions)
    {
      var found := Editor.FindSaved(savedConditions, savedConditionId);
      if found.Some? {
        EditorProperties.AppendChildAppendsLast(rootCondition, parentGroupId, found.value.condition);
      }
      rootCondition := Editor.AddPreviousCondition(rootCondition, savedConditions, parentGroupId, savedConditionId);
    }

    /** The statement for the current tree: empty without a table or with a
        childless root, otherwise `SELECT * FROM` the table, with a WHERE
        clause exactly when the tree holds a leaf. */
    function GenerateSQL(): (r: string)
      reads this
      ensures r == "" <==> selectedTable.None? || |rootCondition.conditions| == 0
      ensures selectedTable.Some? && |rootCondition.conditions| > 0 && |Leaves(rootCondition)| == 0 ==>
                r == "SELECT * FROM " + selectedTable.value.name
      ensures selectedTable.Some? && |Leaves(rootCondition)| > 0 ==>
                r == "SELECT * FROM " + selectedTable.value.name + " WHERE " + GenerateSqlForGroup(rootCondition)
    {
      GenerateSql(selectedTable, rootCondition)
    }

    /** Appends a record of the current tree: id `saved-<uuid>`, the given
        name, the selected table's id (or `''`), the root as it is, its SQL
        and its JSON text, and the two clock readings taken for its creation
        and update times. Earlier entries stay, and
        no check is made that the name is new. */
    method SaveCondition(name: string, uuid: string, createdAt: Timestamp, updatedAt: Timestamp,
                         toJson: Condition -> string)
      returns (saved: SavedCondition)
      modifies this
      ensures saved == SavedCondition("saved-" + uuid, name, TableIdOf(selectedTable), rootCondition,
                                      GenerateSql(selectedTable, rootCondition), toJson(rootCondition),
                                      createdAt, updatedAt)
      ensures savedConditions == old(savedConditions) + [saved]
      ensures selectedTable == old(selectedTable) && rootCondition == old(rootCondition)
    {
      var sql := GenerateSQL();
      var json := toJson(rootCondition);
      saved := SavedCondition("saved-" + uuid, name, TableIdOf(selectedTable), rootCondition, sql, json,
                              createdAt, updatedAt);
      savedConditions := savedConditions + [saved];
    }

    /** Replaces the root by a saved condition's group, ids as saved; nothing
        happens for an unknown id. */
    method LoadSavedCondition(conditionId: string)
      modifies this
      ensures Editor.FindSaved(savedConditions, conditionId).None? ==> rootCondition == old(rootCondition)
      ensures Editor.FindSaved(savedConditions, conditionId).Some? ==>
                rootCondition == Editor.FindSaved(savedConditions, conditionId).value.condition
      ensures selectedTable == old(selectedTable) && savedConditions == old(savedConditions)
    {
      var found := Editor.FindSaved(savedConditions, conditionId);
      if found.Some? {
        rootCondition := found.value.condition;
      }
    }
  }

}
