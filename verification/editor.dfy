/** The tree edits of the condition-builder provider. Every edit rebuilds the
    tree from the root and addresses nodes by id; an id that matches nothing
    leaves the tree as it was, and an id that matches several groups edits all
    of them. Saved conditions are inserted with the ids they were saved with. */
module Editor {
  import opened Types
  import opened Tree

  // ---------------------------------------------------------------------
  // Appending a child: addCondition, addGroup, addPreviousCondition
  // ---------------------------------------------------------------------

  /** The rebuild shared by the three "add" edits: every group whose id is
      `parentId` gets `child` as its new last child (its own children are not
      searched further); every other group is rebuilt from its rebuilt
      children; leaves stay as they are. */
  function AppendChild(c: Condition, parentId: Id, child: Condition): (r: Condition)
    ensures r.Group? == c.Group? && r.id == c.id
    ensures c.Group? ==> r.logicalOperator == c.logicalOperator
    ensures c.Group? && c.id == parentId ==> r.conditions == c.conditions + [child]
    ensures c.Group? && c.id != parentId ==> r.conditions == AppendChildAll(c.conditions, parentId, child)
    ensures c.Single? ==> r == c
    decreases c
  {
    match c
    case Single(_, _, _, _) => c
    case Group(id, op, cs) =>
      if id == parentId then Group(id, op, cs + [child])
      else Group(id, op, AppendChildAll(cs, parentId, child))
  }

  function AppendChildAll(cs: seq<Condition>, parentId: Id, child: Condition): (rs: seq<Condition>)
    ensures |rs| == |cs|
    ensures forall i :: 0 <= i < |cs| ==> rs[i] == AppendChild(cs[i], parentId, child)
    decreases cs
  {
    if cs == [] then [] else [AppendChild(cs[0], parentId, child)] + AppendChildAll(cs[1..], parentId, child)
  }

  /** addCondition: the leaf becomes the last child of every group with id
      `parentGroupId`; the root keeps its id and operator. */
  function AddCondition(root: ConditionGroup, parentGroupId: Id, condition: SingleCondition): (r: ConditionGroup)
    ensures r.id == root.id && r.logicalOperator == root.logicalOperator
    ensures root.id == parentGroupId ==> r.conditions == root.conditions + [condition]
    ensures root.id != parentGroupId ==>
              |r.conditions| == |root.conditions|
              && forall i :: 0 <= i < |root.conditions| ==>
                   r.conditions[i] == AppendChild(root.conditions[i], parentGroupId, condition)
  {
    AppendChild(root, parentGroupId, condition)
  }

  /** The group `addGroup` creates: a single node with id `group-<uuid>`,
      operator AND and no leaves. */
  function NewGroup(uuid: string): (r: ConditionGroup)
    ensures r.logicalOperator == And && Size(r) == 1
    ensures |Leaves(r)| == 0 && Ids(r) == {"group-" + uuid}
  {
    Group(Some("group-" + uuid), And, [])
  }

  /** addGroup: the new group becomes the last child of every group with id
      `parentGroupId`; the root keeps its id and operator. */
  function AddGroup(root: ConditionGroup, parentGroupId: Id, uuid: string): (r: ConditionGroup)
    ensures r.id == root.id && r.logicalOperator == root.logicalOperator
    ensures root.id == parentGroupId ==> r.conditions == root.conditions + [NewGroup(uuid)]
    ensures root.id != parentGroupId ==>
              |r.conditions| == |root.conditions|
              && forall i :: 0 <= i < |root.conditions| ==>
                   r.conditions[i] == AppendChild(root.conditions[i], parentGroupId, NewGroup(uuid))
  {
    AppendChild(root, parentGroupId, NewGroup(uuid))
  }

  /** `savedConditions.find(c => c.id === savedConditionId)`: the first saved
      condition with that id. */
  function FindSaved(saved: seq<SavedCondition>, savedId: string): (r: Option<SavedCondition>)
    ensures r.None? <==> forall i :: 0 <= i < |saved| ==> saved[i].id != savedId
    ensures r.Some? ==> exists i :: 0 <= i < |saved| && saved[i] == r.value && r.value.id == savedId
                          && forall j :: 0 <= j < i ==> saved[j].id != savedId
    decreases saved
  {
    if saved == [] then None
    else if saved[0].id == savedId then Some(saved[0])
    else
      var r := FindSaved(saved[1..], savedId);
      if r.Some? then
        ghost var i :| 0 <= i < |saved[1..]| && saved[1..][i] == r.value && r.value.id == savedId
                       && forall j :: 0 <= j < i ==> saved[1..][j].id != savedId;
        assert saved[i + 1] == r.value;
        assert forall j :: 0 <= j < i + 1 ==> saved[j].id != savedId by {
          forall j | 0 <= j < i + 1 ensures saved[j].id != savedId {
            if j > 0 { assert saved[j] == saved[1..][j - 1]; }
          }
        }
        r
      else
        assert forall i :: 0 <= i < |saved| ==> saved[i].id != savedId by {
          forall i | 0 <= i < |saved| ensures saved[i].id != savedId {
            if i > 0 { assert saved[i] == saved[1..][i - 1]; }
          }
        }
        r
  }

  /** Inserts the saved condition's group, exactly as it was saved, as the
      last child of every group with id `parentGroupId`; nothing happens when
      no saved condition has id `savedConditionId`. */
  function AddPreviousCondition(root: ConditionGroup, saved: seq<SavedCondition>,
                                parentGroupId: Id, savedConditionId: string): (r: ConditionGroup)
    ensures FindSaved(saved, savedConditionId).None? ==> r == root
    ensures FindSaved(saved, savedConditionId).Some? ==>
              r == AppendChild(root, parentGroupId, FindSaved(saved, savedConditionId).value.condition)
  {
    match FindSaved(saved, savedConditionId)
    case None => root
    case Some(s) => AppendChild(root, parentGroupId, s.condition)
  }

  // ---------------------------------------------------------------------
  // Removing children: removeCondition, removeGroup
  // ---------------------------------------------------------------------

  /** Whether the filter of a remove edit drops child `c`: its id is
      `childId`, and, for removeGroup, it is a group. */
  predicate Dropped(c: Condition, childId: Id, groupsOnly: bool) {
    c.id == childId && (c.Group? || !groupsOnly)
  }

  /** The filter applied to a matched parent's children. */
  function Keep(cs: seq<Condition>, childId: Id, groupsOnly: bool): (rs: seq<Condition>)
    ensures |rs| <= |cs|
    ensures forall c :: c in rs <==> c in cs && !Dropped(c, childId, groupsOnly)
    decreases cs
  {
    if cs == [] then []
    else (if Dropped(cs[0], childId, groupsOnly) then [] else [cs[0]]) + Keep(cs[1..], childId, groupsOnly)
  }

  /** The rebuild shared by the two remove edits: every group whose id is
      `parentId` keeps only the children the filter does not drop. */
  function RemoveChildren(c: Condition, parentId: Id, childId: Id, groupsOnly: bool): (r: Condition)
    ensures r.Group? == c.Group? && r.id == c.id
    ensures c.Group? ==> r.logicalOperator == c.logicalOperator
    ensures c.Group? && c.id == parentId ==> r.conditions == Keep(c.conditions, childId, groupsOnly)
    ensures c.Group? && c.id != parentId ==>
              |r.conditions| == |c.conditions|
              && forall i :: 0 <= i < |c.conditions| ==> r.conditions[i] == RemoveChildren(c.conditions[i], parentId, childId, groupsOnly)
    decreases c
  {
    match c
    case Single(_, _, _, _) => c
    case Group(id, op, cs) =>
      if id == parentId then Group(id, op, Keep(cs, childId, groupsOnly))
      else Group(id, op, RemoveChildrenAll(cs, parentId, childId, groupsOnly))
  }

  function RemoveChildrenAll(cs: seq<Condition>, parentId: Id, childId: Id, groupsOnly: bool): (rs: seq<Condition>)
    ensures |rs| == |cs|
    ensures forall i :: 0 <= i < |cs| ==> rs[i] == RemoveChildren(cs[i], parentId, childId, groupsOnly)
    decreases cs
  {
    if cs == [] then []
    else [RemoveChildren(cs[0], parentId, childId, groupsOnly)] + RemoveChildrenAll(cs[1..], parentId, childId, groupsOnly)
  }

  /** removeCondition: a group with id `parentGroupId` loses every child,
      leaf or group, whose id is `conditionId` and keeps all the others. */
  function RemoveCondition(root: ConditionGroup, conditionId: Id, parentGroupId: Id): (r: ConditionGroup)
    ensures r.id == root.id && r.logicalOperator == root.logicalOperator
    ensures root.id == parentGroupId ==>
              forall x :: x in r.conditions <==> x in root.conditions && x.id != conditionId
  {
    RemoveChildren(root, parentGroupId, conditionId, false)
  }

  /** removeGroup: a group with id `parentGroupId` loses every group child
      whose id is `groupId`; its leaf children all stay. */
  function RemoveGroup(root: ConditionGroup, groupId: Id, parentGroupId: Id): (r: ConditionGroup)
    ensures r.id == root.id && r.logicalOperator == root.logicalOperator
    ensures root.id == parentGroupId ==>
              forall x :: x in r.conditions <==> x in root.conditions && !(x.Group? && x.id == groupId)
  {
    RemoveChildren(root, parentGroupId, groupId, true)
  }

  // ---------------------------------------------------------------------
  // Replacing leaves: updateCondition
  // ---------------------------------------------------------------------

  /** Every leaf, at any depth, whose id equals `updated.id` (both absent
      counts as equal) becomes `updated`; groups keep their id and operator. */
  function UpdateCondition(c: Condition, updated: SingleCondition): (r: Condition)
    ensures r.Group? == c.Group?
    ensures c.Group? ==> r.id == c.id && r.logicalOperator == c.logicalOperator
    decreases c
  {
    match c
    case Single(id, _, _, _) => if id == updated.id then updated else c
    case Group(id, op, cs) => Group(id, op, UpdateConditionAll(cs, updated))
  }

  function UpdateConditionAll(cs: seq<Condition>, updated: SingleCondition): (rs: seq<Condition>)
    ensures |rs| == |cs|
    decreases cs
  {
    if cs == [] then [] else [UpdateCondition(cs[0], updated)] + UpdateConditionAll(cs[1..], updated)
  }

  // ---------------------------------------------------------------------
  // Changing a group's operator: updateGroupLogicalOperator
  // ---------------------------------------------------------------------

  /** Every group whose id is `groupId` gets operator `op`; its children are
      not searched further. */
  function UpdateGroupLogicalOperator(c: Condition, groupId: Id, op: LogicalOperator): (r: Condition)
    ensures r.Group? == c.Group? && r.id == c.id
    ensures c.Group? && c.id == groupId ==> r == c.(logicalOperator := op)
    ensures c.Group? && c.id != groupId ==> r.logicalOperator == c.logicalOperator && |r.conditions| == |c.conditions|
    ensures c.Group? && c.id != groupId ==> r.conditions == UpdateGroupLogicalOperatorAll(c.conditions, groupId, op)
    ensures c.Single? ==> r == c
    decreases c
  {
    match c
    case Single(_, _, _, _) => c
    case Group(id, lo, cs) =>
      if id == groupId then Group(id, op, cs)
      else Group(id, lo, UpdateGroupLogicalOperatorAll(cs, groupId, op))
  }

  function UpdateGroupLogicalOperatorAll(cs: seq<Condition>, groupId: Id, op: LogicalOperator): (rs: seq<Condition>)
    ensures |rs| == |cs|
    ensures forall i :: 0 <= i < |cs| ==> rs[i] == UpdateGroupLogicalOperator(cs[i], groupId, op)
    decreases cs
  {
    if cs == [] then []
    else [UpdateGroupLogicalOperator(cs[0], groupId, op)] + UpdateGroupLogicalOperatorAll(cs[1..], groupId, op)
  }
}
