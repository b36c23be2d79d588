/**
 * The policy resolver: "first managers of an employee", a fixed chain of
 * source lookups with cardinality checks and four classified errors.
 */
module Policy {
  import opened Wrappers
  import opened Entities
  import opened Sources

  datatype HierarchyError =
    | EmpNotFound     // the employee lookup returned no row
    | InvalidEmpResp  // the employee lookup returned more than one row
    | PosNotFound     // the position lookup returned no row
    | InvalidPosResp  // the position lookup returned more than one row

  /**
   * The last record of `attrs` whose owner id is `id`, or the zero record
   * when there is none: what the scanning loop leaves behind.
   */
  function LastMatch(attrs: seq<HierarchyAttributes>, id: string): HierarchyAttributes
    decreases |attrs|
  {
    if attrs == [] then NoAttributes
    else if attrs[|attrs| - 1].id == id then attrs[|attrs| - 1]
    else LastMatch(attrs[..|attrs| - 1], id)
  }

  /** When `attrs[t]` is the last record owned by `id`, the scan picks exactly it. */
  lemma {:induction false} LastMatchIsLastOccurrence(attrs: seq<HierarchyAttributes>, id: string, t: int)
    requires 0 <= t < |attrs| && attrs[t].id == id
    requires forall j :: t < j < |attrs| ==> attrs[j].id != id
    ensures LastMatch(attrs, id) == attrs[t]
  {
    if t < |attrs| - 1 {
      LastMatchIsLastOccurrence(attrs[..|attrs| - 1], id, t);
    }
  }

  /** When no record is owned by `id`, the scan leaves the zero record. */
  lemma {:induction false} LastMatchAbsent(attrs: seq<HierarchyAttributes>, id: string)
    requires forall j :: 0 <= j < |attrs| ==> attrs[j].id != id
    ensures LastMatch(attrs, id) == NoAttributes
  {
    if attrs != [] {
      LastMatchAbsent(attrs[..|attrs| - 1], id);
    }
  }

  datatype PolicyManager = PolicyManager(d: PolicyManagerDependency)
  {
    /** The answer `GetFirstManagers(empId)` computes, as one expression over the sources. */
    function FirstManagers(empId: string): Result<seq<Employee>, HierarchyError> {
      var emps := d.employeeSource.listEmployees(Some([empId]));
      if |emps| > 1 then Failure(InvalidEmpResp)
      else if |emps| == 0 then Failure(EmpNotFound)
      else
        var pos := d.positionSource.listPositions(Some([emps[0].positionId]));
        if |pos| > 1 then Failure(InvalidPosResp)
        else if |pos| == 0 then Failure(PosNotFound)
        else
          var attributes := LastMatch(d.attributeSource.listAttributes("position"), pos[0].id);
          match GetStringAttribute(attributes, "managerPosition")
          case None => Success([])
          case Some(managerPositionId) =>
            Success(d.employeeSource.listEmployeesByPosition(Some([managerPositionId])))
    }

    method GetFirstManagers(empId: string) returns (r: Result<seq<Employee>, HierarchyError>)
      ensures r == FirstManagers(empId)
    {
      var emp: Employee;
      var emps := d.employeeSource.listEmployees(Some([empId]));
      if |emps| > 1 {
        return Failure(InvalidEmpResp);
      } else if |emps| == 0 {
        return Failure(EmpNotFound);
      } else {
        emp := emps[0];
      }

      var position: Position;
      var pos := d.positionSource.listPositions(Some([emp.positionId]));
      if |pos| > 1 {
        return Failure(InvalidPosResp);
      } else if |pos| == 0 {
        return Failure(PosNotFound);
      } else {
        position := pos[0];
      }

      var attributes := NoAttributes;
      var attrs := d.attributeSource.listAttributes("position");
      for i := 0 to |attrs|
        invariant attributes == LastMatch(attrs[..i], position.id)
      {
        if attrs[i].id == position.id {
          attributes := attrs[i];
        }
        assert attrs[..i + 1][..i] == attrs[..i];
      }
      assert attrs[..|attrs|] == attrs;

      var managerPositionId := GetStringAttribute(attributes, "managerPosition");
      if managerPositionId.None? {
        return Success([]);  // no position above: not an error
      }
      return Success(d.employeeSource.listEmployeesByPosition(Some([managerPositionId.value])));
    }
  }

  /**
   * The employee lookup alone decides a failed employee step: once it returns
   * zero or several rows, no later source is consulted.
   */
  lemma EmployeeStepDecides(p: PolicyManager, q: PolicyManager, empId: string)
    requires p.d.employeeSource.listEmployees(Some([empId])) == q.d.employeeSource.listEmployees(Some([empId]))
    requires |p.d.employeeSource.listEmployees(Some([empId]))| != 1
    ensures p.FirstManagers(empId) == q.FirstManagers(empId)
    ensures p.FirstManagers(empId) ==
      if |p.d.employeeSource.listEmployees(Some([empId]))| == 0 then Failure(EmpNotFound) else Failure(InvalidEmpResp)
  {
  }

  /**
   * With one employee row, the position lookup alone decides a failed
   * position step; the attribute source and the by-position lookup are not
   * consulted.
   */
  lemma PositionStepDecides(p: PolicyManager, q: PolicyManager, empId: string)
    requires p.d.employeeSource.listEmployees(Some([empId])) == q.d.employeeSource.listEmployees(Some([empId]))
    requires |p.d.employeeSource.listEmployees(Some([empId]))| == 1
    requires
      var posId := p.d.employeeSource.listEmployees(Some([empId]))[0].positionId;
      && p.d.positionSource.listPositions(Some([posId])) == q.d.positionSource.listPositions(Some([posId]))
      && |p.d.positionSource.listPositions(Some([posId]))| != 1
    ensures p.FirstManagers(empId) == q.FirstManagers(empId)
    ensures
      var posId := p.d.employeeSource.listEmployees(Some([empId]))[0].positionId;
      p.FirstManagers(empId) ==
        if |p.d.positionSource.listPositions(Some([posId]))| == 0 then Failure(PosNotFound) else Failure(InvalidPosResp)
  {
  }

  /**
   * Errors arise only from cardinality. A non-empty answer is exactly the
   * by-position listing for the `managerPosition` string of the last
   * position-kind record owned by the employee's position.
   */
  lemma SuccessIsByPositionLookup(p: PolicyManager, empId: string)
    ensures p.FirstManagers(empId).Failure? ==>
      |p.d.employeeSource.listEmployees(Some([empId]))| != 1 ||
      |p.d.positionSource.listPositions(Some([p.d.employeeSource.listEmployees(Some([empId]))[0].positionId]))| != 1
    ensures p.FirstManagers(empId).Success? && p.FirstManagers(empId).value != [] ==>
      var emps := p.d.employeeSource.listEmployees(Some([empId]));
      var pos := p.d.positionSource.listPositions(Some([emps[0].positionId]));
      var mp := GetStringAttribute(LastMatch(p.d.attributeSource.listAttributes("position"), pos[0].id), "managerPosition");
      && |emps| == 1 && |pos| == 1 && mp.Some?
      && p.FirstManagers(empId).value == p.d.employeeSource.listEmployeesByPosition(Some([mp.value]))
  {
  }
}
