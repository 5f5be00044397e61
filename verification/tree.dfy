/** Read-only views of a condition tree, used to state what the edits do:
    its size, its leaves in document order, the ids it carries, the groups an
    id-addressed edit acts on, and its shape with the leaves erased. */
module Tree {
  import opened Types

  /** Number of nodes. */
  function Size(c: Condition): nat
    decreases c
  {
    match c
    case Single(_, _, _, _) => 1
    case Group(_, _, cs) => 1 + SizeAll(cs)
  }

  function SizeAll(cs: seq<Condition>): nat
    decreases cs
  {
    if cs == [] then 0 else Size(cs[0]) + SizeAll(cs[1..])
  }

  /** The leaf comparisons, depth first, left to right. */
  function Leaves(c: Condition): seq<Condition>
    decreases c
  {
    match c
    case Single(_, _, _, _) => [c]
    case Group(_, _, cs) => LeavesAll(cs)
  }

  function LeavesAll(cs: seq<Condition>): seq<Condition>
    decreases cs
  {
    if cs == [] then [] else Leaves(cs[0]) + LeavesAll(cs[1..])
  }

  /** Every id present on some node of the tree. */
  function Ids(c: Condition): set<string>
    decreases c
  {
    var own := if c.id.Some? then {c.id.value} else {};
    match c
    case Single(_, _, _, _) => own
    case Group(_, _, cs) => own + IdsAll(cs)
  }

  function IdsAll(cs: seq<Condition>): set<string>
    decreases cs
  {
    if cs == [] then {} else Ids(cs[0]) + IdsAll(cs[1..])
  }

  /** How many groups an edit addressed to group id `gid` acts on: every
      group whose id equals `gid`, found by a walk that does not look inside
      a group once it has matched. */
  function Targets(c: Condition, gid: Id): nat
    decreases c
  {
    match c
    case Single(_, _, _, _) => 0
    case Group(id, _, cs) => if id == gid then 1 else TargetsAll(cs, gid)
  }

  function TargetsAll(cs: seq<Condition>, gid: Id): nat
    decreases cs
  {
    if cs == [] then 0 else Targets(cs[0], gid) + TargetsAll(cs[1..], gid)
  }

  /** The stand-in for every leaf in a skeleton. */
  function Hole(): Condition {
    Single(None, Column("", "", StringType, "", None), Eq, EmptyLiteral())
  }

  /** The tree with every leaf replaced by `Hole()`: group ids, logical
      operators, the number of children and where the leaves sit. */
  function Skeleton(c: Condition): Condition
    decreases c
  {
    match c
    case Single(_, _, _, _) => Hole()
    case Group(id, op, cs) => Group(id, op, SkeletonAll(cs))
  }

  function SkeletonAll(cs: seq<Condition>): seq<Condition>
    decreases cs
  {
    if cs == [] then [] else [Skeleton(cs[0])] + SkeletonAll(cs[1..])
  }

  lemma {:induction false} LeavesAllConcat(a: seq<Condition>, b: seq<Condition>)
    ensures LeavesAll(a + b) == LeavesAll(a) + LeavesAll(b)
    decreases a
  {
    if a == [] {
      assert a + b == b;
    } else {
      assert (a + b)[1..] == a[1..] + b;
      LeavesAllConcat(a[1..], b);
    }
  }

  lemma {:induction false} IdsAllConcat(a: seq<Condition>, b: seq<Condition>)
    ensures IdsAll(a + b) == IdsAll(a) + IdsAll(b)
    decreases a
  {
    if a == [] {
      assert a + b == b;
    } else {
      assert (a + b)[1..] == a[1..] + b;
      IdsAllConcat(a[1..], b);
    }
  }

  lemma {:induction false} SizeAllConcat(a: seq<Condition>, b: seq<Condition>)
    ensures SizeAll(a + b) == SizeAll(a) + SizeAll(b)
    decreases a
  {
    if a == [] {
      assert a + b == b;
    } else {
      assert (a + b)[1..] == a[1..] + b;
      SizeAllConcat(a[1..], b);
    }
  }

  /** An id carried by a child is an id of the list. */
  lemma {:induction false} IdsAllMember(cs: seq<Condition>, i: nat)
    requires i < |cs|
    ensures Ids(cs[i]) <= IdsAll(cs)
    decreases cs
  {
    if i > 0 {
      IdsAllMember(cs[1..], i - 1);
    }
  }
}
