/**
 * The in-memory backend: three slices, each listed through an
 * order-preserving filter, with the nil filter (or the empty kind) returning
 * the slice itself.
 */
module MemoryStorage {
  import opened Wrappers
  import opened Entities
  import opened Sources
  import opened Seqs

  /** Keeps the records whose owner kind is `t`. */
  function HasKind(t: string): HierarchyAttributes -> bool {
    (a: HierarchyAttributes) => a.kind == t
  }

  /** Keeps the employees whose id is listed in `ids`. */
  function EmployeeIdIn(ids: seq<string>): Employee -> bool {
    (e: Employee) => e.id in ids
  }

  /** Keeps the employees whose position id is listed in `ids`. */
  function EmployeePositionIn(ids: seq<string>): Employee -> bool {
    (e: Employee) => e.positionId in ids
  }

  /** Keeps the positions whose id is listed in `ids`. */
  function PositionIdIn(ids: seq<string>): Position -> bool {
    (p: Position) => p.id in ids
  }

  datatype Storage = Storage(
    attributes: seq<HierarchyAttributes>,
    employees: seq<Employee>,
    positions: seq<Position>)
  {
    /** What `ListAttributes(t)` returns. */
    function AttributesOfKind(t: string): seq<HierarchyAttributes> {
      if t == "" then attributes else Filter(attributes, HasKind(t))
    }

    /** What `ListEmployees(ids)` returns. */
    function EmployeesWithIds(ids: IdFilter): seq<Employee> {
      match ids
      case None => employees
      case Some(ids) => Filter(employees, EmployeeIdIn(ids))
    }

    /** What `ListEmployeesByPosition(ids)` returns. */
    function EmployeesInPositions(ids: IdFilter): seq<Employee> {
      match ids
      case None => employees
      case Some(ids) => Filter(employees, EmployeePositionIn(ids))
    }

    /** What `ListPositions(ids)` returns. */
    function PositionsWithIds(ids: IdFilter): seq<Position> {
      match ids
      case None => positions
      case Some(ids) => Filter(positions, PositionIdIn(ids))
    }

    method ListAttributes(t: string) returns (resp: seq<HierarchyAttributes>)
      ensures resp == AttributesOfKind(t)
    {
      if t == "" {
        return attributes;
      }
      resp := [];
      for i := 0 to |attributes|
        invariant resp == Filter(attributes[..i], HasKind(t))
      {
        var attr := attributes[i];
        if attr.kind == t {
          resp := resp + [attr];
        }
        assert attributes[..i + 1] == attributes[..i] + [attr];
        FilterSnoc(attributes[..i], attr, HasKind(t));
      }
      assert attributes[..|attributes|] == attributes;
    }

    method ListEmployees(ids: IdFilter) returns (resp: seq<Employee>)
      ensures resp == EmployeesWithIds(ids)
    {
      if ids.None? {
        return employees;
      }
      resp := [];
      for i := 0 to |employees|
        invariant resp == Filter(employees[..i], EmployeeIdIn(ids.value))
      {
        var emp := employees[i];
        if emp.id in ids.value {
          resp := resp + [emp];
        }
        assert employees[..i + 1] == employees[..i] + [emp];
        FilterSnoc(employees[..i], emp, EmployeeIdIn(ids.value));
      }
      assert employees[..|employees|] == employees;
    }

    method ListEmployeesByPosition(ids: IdFilter) returns (resp: seq<Employee>)
      ensures resp == EmployeesInPositions(ids)
    {
      if ids.None? {
        return employees;
      }
      resp := [];
      for i := 0 to |employees|
        invariant resp == Filter(employees[..i], EmployeePositionIn(ids.value))
      {
        var emp := employees[i];
        if emp.positionId in ids.value {
          resp := resp + [emp];
        }
        assert employees[..i + 1] == employees[..i] + [emp];
        FilterSnoc(employees[..i], emp, EmployeePositionIn(ids.value));
      }
      assert employees[..|employees|] == employees;
    }

    method ListPositions(ids: IdFilter) returns (resp: seq<Position>)
      ensures resp == PositionsWithIds(ids)
    {
      if ids.None? {
        return positions;
      }
      resp := [];
      for i := 0 to |positions|
        invariant resp == Filter(positions[..i], PositionIdIn(ids.value))
      {
        var pos := positions[i];
        if pos.id in ids.value {
          resp := resp + [pos];
        }
        assert positions[..i + 1] == positions[..i] + [pos];
        FilterSnoc(positions[..i], pos, PositionIdIn(ids.value));
      }
      assert positions[..|positions|] == positions;
    }

    /** This storage plugged in as all three sources, as the program wires it. */
    function AsDependency(): PolicyManagerDependency {
      PolicyManagerDependency(
        EmployeeSource(ids => EmployeesWithIds(ids), ids => EmployeesInPositions(ids)),
        PositionSource(ids => PositionsWithIds(ids)),
        AttributeSource(t => AttributesOfKind(t)))
    }
  }
}
