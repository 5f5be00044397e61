/** Which comparison operators the row editor offers for each column type. */
module OperatorPolicy {
  import opened Types

  /** The operators offered for a column of type `dt`, in menu order. */
  function ValidOperators(dt: DataType): (r: seq<Operator>)
    ensures |r| > 0 && r[0] == Eq
    ensures IsNull in r && IsNotNull in r
    ensures Between in r <==> dt == NumberType || dt == IntegerType || dt == DateType
    ensures Like in r <==> dt == StringType
    ensures dt == BooleanType ==> r == [Eq, IsNull, IsNotNull]
    ensures dt == MappingType ==> r == [Eq, Ne, IsNull, IsNotNull]
  {
    match dt
    case StringType => [Eq, Ne, Like, NotLike, In, NotIn, IsNull, IsNotNull]
    case NumberType => [Eq, Ne, Gt, Ge, Lt, Le, Between, In, NotIn, IsNull, IsNotNull]
    case IntegerType => [Eq, Ne, Gt, Ge, Lt, Le, Between, In, NotIn, IsNull, IsNotNull]
    case BooleanType => [Eq, IsNull, IsNotNull]
    case DateType => [Eq, Ne, Gt, Ge, Lt, Le, Between, IsNull, IsNotNull]
    case EnumType => [Eq, Ne, In, NotIn, IsNull, IsNotNull]
    case MappingType => [Eq, Ne, IsNull, IsNotNull]
  }

  /** The boolean menu is the smallest: every type offers at least `=`,
      `IS NULL` and `IS NOT NULL`. */
  lemma BooleanMenuIsCommon(dt: DataType)
    ensures forall op :: op in ValidOperators(BooleanType) ==> op in ValidOperators(dt)
  {
  }

  /** Whether a leaf's operator is one its column's menu offers. */
  predicate OperatorFits(leaf: SingleCondition)
    ensures leaf.operator in {Eq, IsNull, IsNotNull} ==> OperatorFits(leaf)
    ensures leaf.operator == Between ==>
              (OperatorFits(leaf) <==> leaf.column.dataType in {NumberType, IntegerType, DateType})
    ensures leaf.operator == Like ==> (OperatorFits(leaf) <==> leaf.column.dataType == StringType)
  {
    leaf.operator in ValidOperators(leaf.column.dataType)
  }
}
