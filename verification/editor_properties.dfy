/** What the tree edits guarantee, stated over the views of module Tree and
    proved by induction over the tree, one lemma for a node and one for a
    list of siblings. */
module EditorProperties {
  import opened Types
  import opened Tree
  import opened Editor

  // ---------------------------------------------------------------------
  // Appending a child
  // ---------------------------------------------------------------------

  /** No group carries the parent id: the add edits change nothing. */
  lemma {:induction false} AppendChildUntargeted(c: Condition, pid: Id, x: Condition)
    requires Targets(c, pid) == 0
    ensures AppendChild(c, pid, x) == c
    decreases c
  {
    match c
    case Single(_, _, _, _) =>
    case Group(_, _, cs) => AppendChildAllUntargeted(cs, pid, x);
  }

  lemma {:induction false} AppendChildAllUntargeted(cs: seq<Condition>, pid: Id, x: Condition)
    requires TargetsAll(cs, pid) == 0
    ensures AppendChildAll(cs, pid, x) == cs
    decreases cs
  {
    if cs != [] {
      AppendChildUntargeted(cs[0], pid, x);
      AppendChildAllUntargeted(cs[1..], pid, x);
    }
  }

  /** Each targeted group receives exactly one copy of the child and nothing
      else grows or shrinks. */
  lemma {:induction false} AppendChildSize(c: Condition, pid: Id, x: Condition)
    ensures Size(AppendChild(c, pid, x)) == Size(c) + Targets(c, pid) * Size(x)
    decreases c
  {
    match c
    case Single(_, _, _, _) =>
    case Group(id, _, cs) =>
      if id == pid {
        SizeAllConcat(cs, [x]);
      } else {
        AppendChildAllSize(cs, pid, x);
      }
  }

  lemma {:induction false} AppendChildAllSize(cs: seq<Condition>, pid: Id, x: Condition)
    ensures SizeAll(AppendChildAll(cs, pid, x)) == SizeAll(cs) + TargetsAll(cs, pid) * Size(x)
    decreases cs
  {
    if cs != [] {
      AppendChildSize(cs[0], pid, x);
      AppendChildAllSize(cs[1..], pid, x);
      var t0, t1 := Targets(cs[0], pid), TargetsAll(cs[1..], pid);
      assert t0 * Size(x) + t1 * Size(x) == (t0 + t1) * Size(x);
    }
  }

  /** Ids are never re-minted: the ids after an add edit are the old ones
      plus, if some group was targeted, exactly the ids the child carries. */
  lemma {:induction false} AppendChildIds(c: Condition, pid: Id, x: Condition)
    ensures Ids(AppendChild(c, pid, x)) == Ids(c) + (if Targets(c, pid) > 0 then Ids(x) else {})
    decreases c
  {
    match c
    case Single(_, _, _, _) =>
    case Group(id, _, cs) =>
      if id == pid {
        IdsAllConcat(cs, [x]);
      } else {
        AppendChildAllIds(cs, pid, x);
      }
  }

  lemma {:induction false} AppendChildAllIds(cs: seq<Condition>, pid: Id, x: Condition)
    ensures IdsAll(AppendChildAll(cs, pid, x)) == IdsAll(cs) + (if TargetsAll(cs, pid) > 0 then Ids(x) else {})
    decreases cs
  {
    if cs != [] {
      AppendChildIds(cs[0], pid, x);
      AppendChildAllIds(cs[1..], pid, x);
    }
  }

  /** addPreviousCondition with a known saved id inserts the saved group
      with its own ids: afterwards the tree's ids are the old ones plus the
      saved group's, whenever some group had the parent id. */
  lemma AddPreviousConditionKeepsSavedIds(root: ConditionGroup, saved: seq<SavedCondition>,
                                          pid: Id, savedId: string)
    requires FindSaved(saved, savedId).Some?
    requires Targets(root, pid) > 0
    ensures Ids(AddPreviousCondition(root, saved, pid, savedId))
            == Ids(root) + Ids(FindSaved(saved, savedId).value.condition)
  {
    AppendChildIds(root, pid, FindSaved(saved, savedId).value.condition);
  }

  // ---------------------------------------------------------------------
  // The remove filter
  // ---------------------------------------------------------------------

  /** The filter keeps the survivors in their original order. */
  lemma {:induction false} KeepConcat(a: seq<Condition>, b: seq<Condition>, cid: Id, groupsOnly: bool)
    ensures Keep(a + b, cid, groupsOnly) == Keep(a, cid, groupsOnly) + Keep(b, cid, groupsOnly)
    decreases a
  {
    if a == [] {
      assert a + b == b;
    } else {
      assert (a + b)[1..] == a[1..] + b;
      KeepConcat(a[1..], b, cid, groupsOnly);
    }
  }

  /** Nothing to drop: the filter returns the children unchanged. */
  lemma {:induction false} KeepNothingDropped(cs: seq<Condition>, cid: Id, groupsOnly: bool)
    requires forall i :: 0 <= i < |cs| ==> !Dropped(cs[i], cid, groupsOnly)
    ensures Keep(cs, cid, groupsOnly) == cs
    decreases cs
  {
    if cs != [] {
      KeepNothingDropped(cs[1..], cid, groupsOnly);
    }
  }

  lemma KeepIdempotent(cs: seq<Condition>, cid: Id, groupsOnly: bool)
    ensures Keep(Keep(cs, cid, groupsOnly), cid, groupsOnly) == Keep(cs, cid, groupsOnly)
  {
    var k := Keep(cs, cid, groupsOnly);
    assert forall i :: 0 <= i < |k| ==> k[i] in k;
    KeepNothingDropped(k, cid, groupsOnly);
  }

  lemma {:induction false} KeepSize(cs: seq<Condition>, cid: Id, groupsOnly: bool)
    ensures SizeAll(Keep(cs, cid, groupsOnly)) <= SizeAll(cs)
    decreases cs
  {
    if cs != [] {
      var head := if Dropped(cs[0], cid, groupsOnly) then [] else [cs[0]];
      KeepSize(cs[1..], cid, groupsOnly);
      SizeAllConcat(head, Keep(cs[1..], cid, groupsOnly));
    }
  }

  // ---------------------------------------------------------------------
  // Removing children
  // ---------------------------------------------------------------------

  /** No group carries the parent id: the remove edits change nothing. */
  lemma {:induction false} RemoveChildrenUntargeted(c: Condition, pid: Id, cid: Id, groupsOnly: bool)
    requires Targets(c, pid) == 0
    ensures RemoveChildren(c, pid, cid, groupsOnly) == c
    decreases c
  {
    match c
    case Single(_, _, _, _) =>
    case Group(_, _, cs) => RemoveChildrenAllUntargeted(cs, pid, cid, groupsOnly);
  }

  lemma {:induction false} RemoveChildrenAllUntargeted(cs: seq<Condition>, pid: Id, cid: Id, groupsOnly: bool)
    requires TargetsAll(cs, pid) == 0
    ensures RemoveChildrenAll(cs, pid, cid, groupsOnly) == cs
    decreases cs
  {
    if cs != [] {
      RemoveChildrenUntargeted(cs[0], pid, cid, groupsOnly);
      RemoveChildrenAllUntargeted(cs[1..], pid, cid, groupsOnly);
    }
  }

  /** Removing a second time removes nothing more. */
  lemma {:induction false} RemoveChildrenIdempotent(c: Condition, pid: Id, cid: Id, groupsOnly: bool)
    ensures RemoveChildren(RemoveChildren(c, pid, cid, groupsOnly), pid, cid, groupsOnly)
            == RemoveChildren(c, pid, cid, groupsOnly)
    decreases c
  {
    match c
    case Single(_, _, _, _) =>
    case Group(id, _, cs) =>
      if id == pid {
        KeepIdempotent(cs, cid, groupsOnly);
      } else {
        RemoveChildrenAllIdempotent(cs, pid, cid, groupsOnly);
      }
  }

  lemma {:induction false} RemoveChildrenAllIdempotent(cs: seq<Condition>, pid: Id, cid: Id, groupsOnly: bool)
    ensures RemoveChildrenAll(RemoveChildrenAll(cs, pid, cid, groupsOnly), pid, cid, groupsOnly)
            == RemoveChildrenAll(cs, pid, cid, groupsOnly)
    decreases cs
  {
    if cs != [] {
      var r := RemoveChildrenAll(cs, pid, cid, groupsOnly);
      assert r[1..] == RemoveChildrenAll(cs[1..], pid, cid, groupsOnly);
      RemoveChildrenIdempotent(cs[0], pid, cid, groupsOnly);
      RemoveChildrenAllIdempotent(cs[1..], pid, cid, groupsOnly);
    }
  }

  /** A remove edit never makes the tree larger. */
  lemma {:induction false} RemoveChildrenSize(c: Condition, pid: Id, cid: Id, groupsOnly: bool)
    ensures Size(RemoveChildren(c, pid, cid, groupsOnly)) <= Size(c)
    decreases c
  {
    match c
    case Single(_, _, _, _) =>
    case Group(id, _, cs) =>
      if id == pid {
        KeepSize(cs, cid, groupsOnly);
      } else {
        RemoveChildrenAllSize(cs, pid, cid, groupsOnly);
      }
  }

  lemma {:induction false} RemoveChildrenAllSize(cs: seq<Condition>, pid: Id, cid: Id, groupsOnly: bool)
    ensures SizeAll(RemoveChildrenAll(cs, pid, cid, groupsOnly)) <= SizeAll(cs)
    decreases cs
  {
    if cs != [] {
      RemoveChildrenSize(cs[0], pid, cid, groupsOnly);
      RemoveChildrenAllSize(cs[1..], pid, cid, groupsOnly);
    }
  }

  /** A child whose id occurs nowhere in `cs` is never dropped from `cs`. */
  lemma ChildrenLackFreshId(cs: seq<Condition>, newId: string, groupsOnly: bool)
    requires newId !in IdsAll(cs)
    ensures forall i :: 0 <= i < |cs| ==> !Dropped(cs[i], Some(newId), groupsOnly)
  {
    forall i | 0 <= i < |cs| ensures cs[i].id != Some(newId) {
      IdsAllMember(cs, i);
    }
  }

  /** Removing, from the same parent, a child that was just appended with an
      id found nowhere in the tree gives back the original tree. */
  lemma {:induction false} RemoveUndoesAppend(c: Condition, pid: Id, x: Condition, groupsOnly: bool)
    requires x.id.Some? && x.id.value !in Ids(c)
    requires x.Group? || !groupsOnly
    ensures RemoveChildren(AppendChild(c, pid, x), pid, x.id, groupsOnly) == c
    decreases c
  {
    match c
    case Single(_, _, _, _) =>
    case Group(id, _, cs) =>
      if id == pid {
        KeepConcat(cs, [x], x.id, groupsOnly);
        ChildrenLackFreshId(cs, x.id.value, groupsOnly);
        KeepNothingDropped(cs, x.id, groupsOnly);
        assert Keep([x], x.id, groupsOnly) == [];
      } else {
        RemoveUndoesAppendAll(cs, pid, x, groupsOnly);
      }
  }

  lemma {:induction false} RemoveUndoesAppendAll(cs: seq<Condition>, pid: Id, x: Condition, groupsOnly: bool)
    requires x.id.Some? && x.id.value !in IdsAll(cs)
    requires x.Group? || !groupsOnly
    ensures RemoveChildrenAll(AppendChildAll(cs, pid, x), pid, x.id, groupsOnly) == cs
    decreases cs
  {
    if cs != [] {
      var a := AppendChildAll(cs, pid, x);
      assert a[1..] == AppendChildAll(cs[1..], pid, x);
      RemoveUndoesAppend(cs[0], pid, x, groupsOnly);
      RemoveUndoesAppendAll(cs[1..], pid, x, groupsOnly);
    }
  }

  /** removeCondition undoes addCondition when the new leaf's id occurs nowhere in the tree. */
  lemma RemoveConditionUndoesAddCondition(root: ConditionGroup, pid: Id, leaf: SingleCondition)
    requires leaf.id.Some? && leaf.id.value !in Ids(root)
    ensures RemoveCondition(AddCondition(root, pid, leaf), leaf.id, pid) == root
  {
    RemoveUndoesAppend(root, pid, leaf, false);
  }

  /** removeGroup undoes addGroup when the minted group id occurs nowhere in the tree. */
  lemma RemoveGroupUndoesAddGroup(root: ConditionGroup, pid: Id, uuid: string)
    requires "group-" + uuid !in Ids(root)
    ensures RemoveGroup(AddGroup(root, pid, uuid), Some("group-" + uuid), pid) == root
  {
    RemoveUndoesAppend(root, pid, NewGroup(uuid), true);
  }

  // ---------------------------------------------------------------------
  // Replacing leaves
  // ---------------------------------------------------------------------

  /** The leaves after updateCondition, position by position. */
  function ReplaceLeaves(ls: seq<Condition>, u: SingleCondition): (rs: seq<Condition>)
  {
    seq(|ls|, i requires 0 <= i < |ls| => if ls[i].id == u.id then u else ls[i])
  }

  lemma {:induction false} UpdateConditionLeavesAre(c: Condition, u: SingleCondition)
    ensures Leaves(UpdateCondition(c, u)) == ReplaceLeaves(Leaves(c), u)
    decreases c
  {
    match c
    case Single(_, _, _, _) =>
    case Group(_, _, cs) => UpdateConditionAllLeavesAre(cs, u);
  }

  lemma {:induction false} UpdateConditionAllLeavesAre(cs: seq<Condition>, u: SingleCondition)
    ensures LeavesAll(UpdateConditionAll(cs, u)) == ReplaceLeaves(LeavesAll(cs), u)
    decreases cs
  {
    if cs != [] {
      var r := UpdateConditionAll(cs, u);
      assert r[1..] == UpdateConditionAll(cs[1..], u);
      UpdateConditionLeavesAre(cs[0], u);
      UpdateConditionAllLeavesAre(cs[1..], u);
      var a, b := Leaves(cs[0]), LeavesAll(cs[1..]);
      assert ReplaceLeaves(a + b, u) == ReplaceLeaves(a, u) + ReplaceLeaves(b, u);
    }
  }

  /** updateCondition replaces exactly the leaves whose id equals the
      updated leaf's id, at any depth, and keeps every other leaf where it
      was. */
  lemma UpdateConditionLeaves(c: Condition, u: SingleCondition)
    ensures |Leaves(UpdateCondition(c, u))| == |Leaves(c)|
    ensures forall i :: 0 <= i < |Leaves(c)| ==>
              Leaves(UpdateCondition(c, u))[i] == (if Leaves(c)[i].id == u.id then u else Leaves(c)[i])
  {
    UpdateConditionLeavesAre(c, u);
  }

  /** updateCondition leaves the shape alone: group ids, logical operators,
      numbers of children and the positions of the leaves. */
  lemma {:induction false} UpdateConditionSkeleton(c: Condition, u: SingleCondition)
    ensures Skeleton(UpdateCondition(c, u)) == Skeleton(c)
    decreases c
  {
    match c
    case Single(_, _, _, _) =>
    case Group(_, _, cs) => UpdateConditionAllSkeleton(cs, u);
  }

  lemma {:induction false} UpdateConditionAllSkeleton(cs: seq<Condition>, u: SingleCondition)
    ensures SkeletonAll(UpdateConditionAll(cs, u)) == SkeletonAll(cs)
    decreases cs
  {
    if cs != [] {
      var r := UpdateConditionAll(cs, u);
      assert r[1..] == UpdateConditionAll(cs[1..], u);
      UpdateConditionSkeleton(cs[0], u);
      UpdateConditionAllSkeleton(cs[1..], u);
    }
  }

  /** Applying the same update twice is applying it once. */
  lemma {:induction false} UpdateConditionIdempotent(c: Condition, u: SingleCondition)
    ensures UpdateCondition(UpdateCondition(c, u), u) == UpdateCondition(c, u)
    decreases c
  {
    match c
    case Single(_, _, _, _) =>
    case Group(_, _, cs) => UpdateConditionAllIdempotent(cs, u);
  }

  lemma {:induction false} UpdateConditionAllIdempotent(cs: seq<Condition>, u: SingleCondition)
    ensures UpdateConditionAll(UpdateConditionAll(cs, u), u) == UpdateConditionAll(cs, u)
    decreases cs
  {
    if cs != [] {
      var r := UpdateConditionAll(cs, u);
      assert r[1..] == UpdateConditionAll(cs[1..], u);
      UpdateConditionIdempotent(cs[0], u);
      UpdateConditionAllIdempotent(cs[1..], u);
    }
  }

  /** No leaf has the updated leaf's id: updateCondition changes nothing. */
  lemma {:induction false} UpdateConditionNoMatch(c: Condition, u: SingleCondition)
    requires forall l :: l in Leaves(c) ==> l.id != u.id
    ensures UpdateCondition(c, u) == c
    decreases c
  {
    match c
    case Single(_, _, _, _) => assert c in Leaves(c);
    case Group(_, _, cs) => UpdateConditionAllNoMatch(cs, u);
  }

  lemma {:induction false} UpdateConditionAllNoMatch(cs: seq<Condition>, u: SingleCondition)
    requires forall l :: l in LeavesAll(cs) ==> l.id != u.id
    ensures UpdateConditionAll(cs, u) == cs
    decreases cs
  {
    if cs != [] {
      assert LeavesAll(cs) == Leaves(cs[0]) + LeavesAll(cs[1..]);
      UpdateConditionNoMatch(cs[0], u);
      UpdateConditionAllNoMatch(cs[1..], u);
    }
  }

  // ---------------------------------------------------------------------
  // Changing a group's operator
  // ---------------------------------------------------------------------

  /** updateGroupLogicalOperator touches no leaf. */
  lemma {:induction false} UpdateGroupLogicalOperatorLeaves(c: Condition, gid: Id, op: LogicalOperator)
    ensures Leaves(UpdateGroupLogicalOperator(c, gid, op)) == Leaves(c)
    decreases c
  {
    match c
    case Single(_, _, _, _) =>
    case Group(id, _, cs) =>
      if id != gid { UpdateGroupLogicalOperatorAllLeaves(cs, gid, op); }
  }

  lemma {:induction false} UpdateGroupLogicalOperatorAllLeaves(cs: seq<Condition>, gid: Id, op: LogicalOperator)
    ensures LeavesAll(UpdateGroupLogicalOperatorAll(cs, gid, op)) == LeavesAll(cs)
    decreases cs
  {
    if cs != [] {
      var r := UpdateGroupLogicalOperatorAll(cs, gid, op);
      assert r[1..] == UpdateGroupLogicalOperatorAll(cs[1..], gid, op);
      UpdateGroupLogicalOperatorLeaves(cs[0], gid, op);
      UpdateGroupLogicalOperatorAllLeaves(cs[1..], gid, op);
    }
  }

  /** updateGroupLogicalOperator keeps every id and every node. */
  lemma {:induction false} UpdateGroupLogicalOperatorIdsAndSize(c: Condition, gid: Id, op: LogicalOperator)
    ensures Ids(UpdateGroupLogicalOperator(c, gid, op)) == Ids(c)
    ensures Size(UpdateGroupLogicalOperator(c, gid, op)) == Size(c)
    decreases c
  {
    match c
    case Single(_, _, _, _) =>
    case Group(id, _, cs) =>
      if id != gid { UpdateGroupLogicalOperatorAllIdsAndSize(cs, gid, op); }
  }

  lemma {:induction false} UpdateGroupLogicalOperatorAllIdsAndSize(cs: seq<Condition>, gid: Id, op: LogicalOperator)
    ensures IdsAll(UpdateGroupLogicalOperatorAll(cs, gid, op)) == IdsAll(cs)
    ensures SizeAll(UpdateGroupLogicalOperatorAll(cs, gid, op)) == SizeAll(cs)
    decreases cs
  {
    if cs != [] {
      var r := UpdateGroupLogicalOperatorAll(cs, gid, op);
      assert r[1..] == UpdateGroupLogicalOperatorAll(cs[1..], gid, op);
      UpdateGroupLogicalOperatorIdsAndSize(cs[0], gid, op);
      UpdateGroupLogicalOperatorAllIdsAndSize(cs[1..], gid, op);
    }
  }

  /** No group carries the id: nothing changes. */
  lemma {:induction false} UpdateGroupLogicalOperatorUntargeted(c: Condition, gid: Id, op: LogicalOperator)
    requires Targets(c, gid) == 0
    ensures UpdateGroupLogicalOperator(c, gid, op) == c
    decreases c
  {
    match c
    case Single(_, _, _, _) =>
    case Group(_, _, cs) => UpdateGroupLogicalOperatorAllUntargeted(cs, gid, op);
  }

  lemma {:induction false} UpdateGroupLogicalOperatorAllUntargeted(cs: seq<Condition>, gid: Id, op: LogicalOperator)
    requires TargetsAll(cs, gid) == 0
    ensures UpdateGroupLogicalOperatorAll(cs, gid, op) == cs
    decreases cs
  {
    if cs != [] {
      UpdateGroupLogicalOperatorUntargeted(cs[0], gid, op);
      UpdateGroupLogicalOperatorAllUntargeted(cs[1..], gid, op);
    }
  }

  /** Setting the operator twice is setting it to the second value. */
  lemma {:induction false} UpdateGroupLogicalOperatorLastWins(c: Condition, gid: Id, a: LogicalOperator, b: LogicalOperator)
    ensures UpdateGroupLogicalOperator(UpdateGroupLogicalOperator(c, gid, a), gid, b)
            == UpdateGroupLogicalOperator(c, gid, b)
    decreases c
  {
    match c
    case Single(_, _, _, _) =>
    case Group(id, _, cs) =>
      if id != gid { UpdateGroupLogicalOperatorAllLastWins(cs, gid, a, b); }
  }

  lemma {:induction false} UpdateGroupLogicalOperatorAllLastWins(cs: seq<Condition>, gid: Id, a: LogicalOperator, b: LogicalOperator)
    ensures UpdateGroupLogicalOperatorAll(UpdateGroupLogicalOperatorAll(cs, gid, a), gid, b)
            == UpdateGroupLogicalOperatorAll(cs, gid, b)
    decreases cs
  {
    if cs != [] {
      var r := UpdateGroupLogicalOperatorAll(cs, gid, a);
      assert r[1..] == UpdateGroupLogicalOperatorAll(cs[1..], gid, a);
      UpdateGroupLogicalOperatorLastWins(cs[0], gid, a, b);
      UpdateGroupLogicalOperatorAllLastWins(cs[1..], gid, a, b);
    }
  }

  /** `b` is `a` with, at most, the operators of some groups with id `gid`
      changed: same kinds, ids, leaves and numbers of children everywhere,
      and every group with another id keeps its operator. */
  predicate OperatorsOnlyDiffer(a: Condition, b: Condition, gid: Id)
    decreases a
  {
    match a
    case Single(_, _, _, _) => b == a
    case Group(id, op, cs) =>
      b.Group? && b.id == id && |b.conditions| == |cs|
      && (id != gid ==> b.logicalOperator == op)
      && forall i :: 0 <= i < |cs| ==> OperatorsOnlyDiffer(cs[i], b.conditions[i], gid)
  }

  lemma {:induction false} OperatorsOnlyDifferReflexive(a: Condition, gid: Id)
    ensures OperatorsOnlyDiffer(a, a, gid)
    decreases a
  {
    match a
    case Single(_, _, _, _) =>
    case Group(_, _, cs) =>
      forall i | 0 <= i < |cs| ensures OperatorsOnlyDiffer(cs[i], cs[i], gid) {
        OperatorsOnlyDifferReflexive(cs[i], gid);
      }
  }

  /** updateGroupLogicalOperator changes nothing but the operators of groups
      with the addressed id. */
  lemma {:induction false} UpdateGroupLogicalOperatorOnlyOperators(c: Condition, gid: Id, op: LogicalOperator)
    ensures OperatorsOnlyDiffer(c, UpdateGroupLogicalOperator(c, gid, op), gid)
    decreases c
  {
    match c
    case Single(_, _, _, _) =>
    case Group(id, _, cs) =>
      if id == gid {
        OperatorsOnlyDifferReflexive(c, gid);
      } else {
        UpdateGroupLogicalOperatorAllOnlyOperators(cs, gid, op);
      }
  }

  lemma {:induction false} UpdateGroupLogicalOperatorAllOnlyOperators(cs: seq<Condition>, gid: Id, op: LogicalOperator)
    ensures forall i :: 0 <= i < |cs| ==> OperatorsOnlyDiffer(cs[i], UpdateGroupLogicalOperatorAll(cs, gid, op)[i], gid)
    decreases cs
  {
    if cs != [] {
      var r := UpdateGroupLogicalOperatorAll(cs, gid, op);
      assert r[1..] == UpdateGroupLogicalOperatorAll(cs[1..], gid, op);
      UpdateGroupLogicalOperatorOnlyOperators(cs[0], gid, op);
      UpdateGroupLogicalOperatorAllOnlyOperators(cs[1..], gid, op);
      forall i | 1 <= i < |cs| ensures OperatorsOnlyDiffer(cs[i], r[i], gid) {
        assert cs[i] == cs[1..][i - 1] && r[i] == r[1..][i - 1];
      }
    }
  }

  /** Every group of `b` with id `gid` that the search reaches (one not
      enclosed by another group with that id) has operator `op`. */
  predicate AddressedHaveOperator(b: Condition, gid: Id, op: LogicalOperator)
    decreases b
  {
    match b
    case Single(_, _, _, _) => true
    case Group(id, lo, cs) =>
      if id == gid then lo == op
      else forall i :: 0 <= i < |cs| ==> AddressedHaveOperator(cs[i], gid, op)
  }

  /** updateGroupLogicalOperator sets the operator of every group it
      reaches with the addressed id, at any depth. */
  lemma {:induction false} UpdateGroupLogicalOperatorSetsAddressed(c: Condition, gid: Id, op: LogicalOperator)
    ensures AddressedHaveOperator(UpdateGroupLogicalOperator(c, gid, op), gid, op)
    decreases c
  {
    match c
    case Single(_, _, _, _) =>
    case Group(id, _, cs) =>
      if id != gid {
        var rs := UpdateGroupLogicalOperatorAll(cs, gid, op);
        forall i | 0 <= i < |cs| ensures AddressedHaveOperator(rs[i], gid, op) {
          UpdateGroupLogicalOperatorSetsAddressed(cs[i], gid, op);
        }
      }
  }

  /** `b` is `a` with `x` appended as the last child of every group with id
      `pid` that the search reaches; everything else is as in `a`. */
  predicate AppendedUnder(a: Condition, b: Condition, pid: Id, x: Condition)
    decreases a
  {
    match a
    case Single(_, _, _, _) => b == a
    case Group(id, op, cs) =>
      b.Group? && b.id == id && b.logicalOperator == op
      && if id == pid then b.conditions == cs + [x]
         else |b.conditions| == |cs| && forall i :: 0 <= i < |cs| ==> AppendedUnder(cs[i], b.conditions[i], pid, x)
  }

  /** The add rebuild puts the child last under every reached group with the
      parent id, at any depth, and changes nothing else. */
  lemma {:induction false} AppendChildAppendsLast(c: Condition, pid: Id, x: Condition)
    ensures AppendedUnder(c, AppendChild(c, pid, x), pid, x)
    decreases c
  {
    match c
    case Single(_, _, _, _) =>
    case Group(id, _, cs) =>
      if id != pid {
        var rs := AppendChildAll(cs, pid, x);
        forall i | 0 <= i < |cs| ensures AppendedUnder(cs[i], rs[i], pid, x) {
          AppendChildAppendsLast(cs[i], pid, x);
        }
      }
  }
}
