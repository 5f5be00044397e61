/** The records of the condition builder: columns and tables from the
    configuration, the comparison operators, the right-hand-side value of a
    comparison, the condition tree itself and a saved condition. */
module Types {

  datatype Option<+T> = None | Some(value: T)

  /** The declared type of a column. `MappingType` is the configuration's
      `Mapping`; every switch over data types sends it to its default branch. */
  datatype DataType =
    | StringType | NumberType | IntegerType | BooleanType | DateType | EnumType | MappingType
  {
    /** The key the configuration uses for this type. */
    function Name(): string {
      match this
      case StringType => "string"
      case NumberType => "number"
      case IntegerType => "integer"
      case BooleanType => "boolean"
      case DateType => "date"
      case EnumType => "enum"
      case MappingType => "Mapping"
    }
  }

  datatype Column = Column(
    name: string,
    displayName: string,
    dataType: DataType,
    table: string,
    enumValues: Option<seq<string>>)

  datatype Table = Table(id: string, name: string, displayName: string, columns: seq<Column>)

  datatype Operator =
    | Eq | Ne | Gt | Ge | Lt | Le
    | Like | NotLike
    | In | NotIn
    | IsNull | IsNotNull
    | Between
  {
    /** The operator as it is written in SQL and in the editor. */
    function Text(): string {
      match this
      case Eq => "="
      case Ne => "!="
      case Gt => ">"
      case Ge => ">="
      case Lt => "<"
      case Le => "<="
      case Like => "LIKE"
      case NotLike => "NOT LIKE"
      case In => "IN"
      case NotIn => "NOT IN"
      case IsNull => "IS NULL"
      case IsNotNull => "IS NOT NULL"
      case Between => "BETWEEN"
    }
  }

  datatype LogicalOperator = And | Or {
    function Text(): string {
      match this
      case And => "AND"
      case Or => "OR"
    }
  }

  /** The untyped `value` slot of a condition value: whatever the editor
      stored there. A number is carried as the text JavaScript's `String()`
      gives for it (so `1000` is `Num("1000")` and not-a-number is `Num("NaN")`). */
  datatype JsValue =
    | Null
    | Undefined
    | Str(s: string)
    | Num(text: string)
    | Bool(b: bool)
    | Arr(items: seq<JsValue>)

  /** `'value'` (a literal) or `'column'` (a reference to another column). */
  datatype ValueKind = Literal | ColumnRef

  datatype ConditionValue = ConditionValue(
    kind: ValueKind,
    value: JsValue,
    columnReference: Option<string>,
    columnDataType: Option<string>)

  /** A node id. Ids are optional on every node, and the editor compares a
      possibly absent id with `===`, so an absent id matches an absent id. */
  type Id = Option<string>

  /** A node of the condition tree: a leaf comparison or a group whose
      ordered children are joined by its logical operator. */
  datatype Condition =
    | Single(id: Id, column: Column, operator: Operator, value: ConditionValue)
    | Group(id: Id, logicalOperator: LogicalOperator, conditions: seq<Condition>)

  type SingleCondition = c: Condition | c.Single?
    witness Single(None, Column("", "", StringType, "", None), Eq,
                   ConditionValue(Literal, Str(""), None, None))

  type ConditionGroup = c: Condition | c.Group? witness Group(None, And, [])

  /** Milliseconds since the epoch, as a `Date` holds them. */
  type Timestamp = nat

  datatype SavedCondition = SavedCondition(
    id: string,
    name: string,
    tableId: string,
    condition: ConditionGroup,
    sqlRepresentation: string,
    jsonRepresentation: string,
    createdAt: Timestamp,
    updatedAt: Timestamp)

  /** The literal value a reset leaves behind: `{type: 'value', value: ''}`. */
  function EmptyLiteral(): ConditionValue {
    ConditionValue(Literal, Str(""), None, None)
  }

  /** The tree the provider starts from: `{id: 'root', AND, []}`. */
  function EmptyRoot(): ConditionGroup {
    Group(Some("root"), And, [])
  }
}
