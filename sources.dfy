/**
 * The read-only capabilities the resolver consumes. Each Go interface is a
 * record of total functions, so any backend (in-memory, database, mock that
 * returns duplicates) is one value of these types.
 */
module Sources {
  import opened Wrappers
  import opened Entities

  /** A list of ids to filter by; `None` is Go's nil slice, meaning "every row". */
  type IdFilter = Option<seq<string>>

  datatype EmployeeSource = EmployeeSource(
    listEmployees: IdFilter -> seq<Employee>,
    listEmployeesByPosition: IdFilter -> seq<Employee>)

  datatype PositionSource = PositionSource(listPositions: IdFilter -> seq<Position>)

  /** `listAttributes(kind)`; the empty kind asks for every record. */
  datatype AttributeSource = AttributeSource(listAttributes: string -> seq<HierarchyAttributes>)

  datatype PolicyManagerDependency = PolicyManagerDependency(
    employeeSource: EmployeeSource,
    positionSource: PositionSource,
    attributeSource: AttributeSource)
}
