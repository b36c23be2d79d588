/**
 * The resolver running over the in-memory storage, as the program wires it:
 * which storage contents lead to which outcome.
 */
module StoragePolicy {
  import opened Wrappers
  import opened Entities
  import opened Seqs
  import opened MemoryStorage
  import opened Policy

  /** `GetFirstManagers(empId)` with `s` serving as every source. */
  function FirstManagersIn(s: Storage, empId: string): Result<seq<Employee>, HierarchyError> {
    PolicyManager(s.AsDependency()).FirstManagers(empId)
  }

  /** `s.employees[k]` is the one and only employee with id `empId`. */
  ghost predicate UniqueEmployee(s: Storage, empId: string, k: int) {
    && 0 <= k < |s.employees|
    && s.employees[k].id == empId
    && forall j :: 0 <= j < |s.employees| && j != k ==> s.employees[j].id != empId
  }

  /** `s.positions[q]` is the one and only position with id `posId`. */
  ghost predicate UniquePosition(s: Storage, posId: string, q: int) {
    && 0 <= q < |s.positions|
    && s.positions[q].id == posId
    && forall j :: 0 <= j < |s.positions| && j != q ==> s.positions[j].id != posId
  }

  /** `s.attributes[t]` is the last position-kind record owned by `posId`. */
  ghost predicate LastPositionRecord(s: Storage, posId: string, t: int) {
    && 0 <= t < |s.attributes|
    && s.attributes[t].kind == "position"
    && s.attributes[t].id == posId
    && forall j :: t < j < |s.attributes| ==> !(s.attributes[j].kind == "position" && s.attributes[j].id == posId)
  }

  /** No position-kind record is owned by `posId`. */
  ghost predicate NoPositionRecord(s: Storage, posId: string) {
    forall j :: 0 <= j < |s.attributes| ==> !(s.attributes[j].kind == "position" && s.attributes[j].id == posId)
  }

  /** Scanning the records of one kind picks the last record of that kind owned by `id`. */
  lemma {:induction false} LastMatchOfKind(attrs: seq<HierarchyAttributes>, kind: string, id: string, t: int)
    requires 0 <= t < |attrs| && attrs[t].kind == kind && attrs[t].id == id
    requires forall j :: t < j < |attrs| ==> !(attrs[j].kind == kind && attrs[j].id == id)
    ensures LastMatch(Filter(attrs, HasKind(kind)), id) == attrs[t]
  {
    var n := |attrs| - 1;
    var init, x := attrs[..n], attrs[n];
    assert attrs == init + [x];
    FilterSnoc(init, x, HasKind(kind));
    var f := Filter(init, HasKind(kind));
    if t < n {
      LastMatchOfKind(init, kind, id, t);
      if x.kind == kind {
        assert Filter(attrs, HasKind(kind)) == f + [x];
        assert (f + [x])[..|f|] == f;
        assert LastMatch(f + [x], id) == LastMatch(f, id);
      } else {
        assert Filter(attrs, HasKind(kind)) == f;
      }
    }
  }

  /** With no record of that kind owned by `id`, the scan leaves the zero record. */
  lemma LastMatchOfKindAbsent(attrs: seq<HierarchyAttributes>, kind: string, id: string)
    requires forall j :: 0 <= j < |attrs| ==> !(attrs[j].kind == kind && attrs[j].id == id)
    ensures LastMatch(Filter(attrs, HasKind(kind)), id) == NoAttributes
  {
    var f := Filter(attrs, HasKind(kind));
    forall j | 0 <= j < |f| ensures f[j].id != id {
      FilterMembership(attrs, HasKind(kind), f[j]);
    }
    LastMatchAbsent(f, id);
  }

  /** The outcome is employee-not-found exactly when no stored employee has the id. */
  lemma EmployeeNotFoundIff(s: Storage, empId: string)
    ensures FirstManagersIn(s, empId) == Failure(EmpNotFound) <==>
      forall i :: 0 <= i < |s.employees| ==> s.employees[i].id != empId
  {
    FilterEmpty(s.employees, EmployeeIdIn([empId]));
  }

  /** The outcome is invalid-employee-response exactly when two stored employees share the id. */
  lemma DuplicateEmployeeIff(s: Storage, empId: string)
    ensures FirstManagersIn(s, empId) == Failure(InvalidEmpResp) <==>
      exists i, j :: 0 <= i < j < |s.employees| && s.employees[i].id == empId && s.employees[j].id == empId
  {
    FilterAtLeastTwo(s.employees, EmployeeIdIn([empId]));
  }

  /**
   * For a uniquely stored employee, the position step fails with
   * position-not-found exactly when no position has the employee's position
   * id, and with invalid-position-response exactly when two do.
   */
  lemma PositionOutcomesIff(s: Storage, empId: string, k: int)
    requires UniqueEmployee(s, empId, k)
    ensures FirstManagersIn(s, empId) == Failure(PosNotFound) <==>
      forall i :: 0 <= i < |s.positions| ==> s.positions[i].id != s.employees[k].positionId
    ensures FirstManagersIn(s, empId) == Failure(InvalidPosResp) <==>
      exists i, j :: 0 <= i < j < |s.positions| &&
        s.positions[i].id == s.employees[k].positionId && s.positions[j].id == s.employees[k].positionId
  {
    FilterSingle(s.employees, EmployeeIdIn([empId]), k);
    var posId := s.employees[k].positionId;
    FilterEmpty(s.positions, PositionIdIn([posId]));
    FilterAtLeastTwo(s.positions, PositionIdIn([posId]));
  }

  /**
   * Past the two cardinality checks the outcome depends only on the last
   * position-kind record owned by the position.
   */
  lemma ResolvedThroughRecord(s: Storage, empId: string, k: int, q: int)
    requires UniqueEmployee(s, empId, k)
    requires UniquePosition(s, s.employees[k].positionId, q)
    ensures FirstManagersIn(s, empId) ==
      match GetStringAttribute(LastMatch(Filter(s.attributes, HasKind("position")), s.positions[q].id), "managerPosition")
      case None => Success([])
      case Some(m) => Success(s.EmployeesInPositions(Some([m])))
  {
    FilterSingle(s.employees, EmployeeIdIn([empId]), k);
    FilterSingle(s.positions, PositionIdIn([s.employees[k].positionId]), q);
  }

  /** A position without a position-kind record has no tier above: an empty answer, not an error. */
  lemma NoRecordMeansNoManagers(s: Storage, empId: string, k: int, q: int)
    requires UniqueEmployee(s, empId, k)
    requires UniquePosition(s, s.employees[k].positionId, q)
    requires NoPositionRecord(s, s.employees[k].positionId)
    ensures FirstManagersIn(s, empId) == Success([])
  {
    ResolvedThroughRecord(s, empId, k, q);
    LastMatchOfKindAbsent(s.attributes, "position", s.positions[q].id);
  }

  /**
   * When the last record's `managerPosition` is absent or not a string, the
   * answer is empty, not an error.
   */
  lemma UnusableManagerPositionMeansNoManagers(s: Storage, empId: string, k: int, q: int, t: int)
    requires UniqueEmployee(s, empId, k)
    requires UniquePosition(s, s.employees[k].positionId, q)
    requires LastPositionRecord(s, s.employees[k].positionId, t)
    requires GetStringAttribute(s.attributes[t], "managerPosition").None?
    ensures FirstManagersIn(s, empId) == Success([])
  {
    ResolvedThroughRecord(s, empId, k, q);
    LastMatchOfKind(s.attributes, "position", s.positions[q].id, t);
  }

  /**
   * When the last record names manager position `m`, the answer is the
   * by-position listing for `m`: every stored employee holding `m` and only
   * those, in storage order, duplicates included; empty when nobody holds `m`.
   */
  lemma ManagersHoldManagerPosition(s: Storage, empId: string, k: int, q: int, t: int, m: string)
    requires UniqueEmployee(s, empId, k)
    requires UniquePosition(s, s.employees[k].positionId, q)
    requires LastPositionRecord(s, s.employees[k].positionId, t)
    requires GetStringAttribute(s.attributes[t], "managerPosition") == Some(m)
    ensures FirstManagersIn(s, empId) == Success(s.EmployeesInPositions(Some([m])))
    ensures forall e :: e in FirstManagersIn(s, empId).value <==> e in s.employees && e.positionId == m
    ensures forall e :: e in s.employees && e.positionId == m ==>
      multiset(FirstManagersIn(s, empId).value)[e] == multiset(s.employees)[e]
    ensures IsSubsequence(FirstManagersIn(s, empId).value, s.employees)
    ensures FirstManagersIn(s, empId).value == [] <==>
      forall i :: 0 <= i < |s.employees| ==> s.employees[i].positionId != m
  {
    ResolvedThroughRecord(s, empId, k, q);
    LastMatchOfKind(s.attributes, "position", s.positions[q].id, t);
    var p := EmployeePositionIn([m]);
    forall e ensures e in Filter(s.employees, p) <==> e in s.employees && e.positionId == m {
      FilterMembership(s.employees, p, e);
    }
    forall e | e in s.employees && e.positionId == m
      ensures multiset(Filter(s.employees, p))[e] == multiset(s.employees)[e]
    {
      FilterCount(s.employees, p, e);
    }
    FilterIsSubsequence(s.employees, p);
    FilterEmpty(s.employees, p);
  }

  /** The nil filter lists every row, and so does a filter naming every stored id. */
  lemma NilFilterListsEverything(s: Storage)
    ensures s.EmployeesWithIds(None) == s.employees
    ensures s.EmployeesInPositions(None) == s.employees
    ensures s.PositionsWithIds(None) == s.positions
    ensures s.AttributesOfKind("") == s.attributes
    ensures s.EmployeesWithIds(Some(seq(|s.employees|, i requires 0 <= i < |s.employees| => s.employees[i].id))) == s.employees
  {
    var ids := seq(|s.employees|, i requires 0 <= i < |s.employees| => s.employees[i].id);
    forall i | 0 <= i < |s.employees| ensures EmployeeIdIn(ids)(s.employees[i]) {
      assert ids[i] == s.employees[i].id;
    }
    FilterKeepsAll(s.employees, EmployeeIdIn(ids));
  }

  /**
   * A non-empty kind lists exactly the records of that kind, in storage
   * order and with their multiplicity.
   */
  lemma KindFilterListsThatKind(s: Storage, t: string)
    requires t != ""
    ensures forall a :: a in s.AttributesOfKind(t) <==> a in s.attributes && a.kind == t
    ensures forall a :: a in s.attributes && a.kind == t ==>
      multiset(s.AttributesOfKind(t))[a] == multiset(s.attributes)[a]
    ensures IsSubsequence(s.AttributesOfKind(t), s.attributes)
  {
    forall a ensures a in s.AttributesOfKind(t) <==> a in s.attributes && a.kind == t {
      FilterMembership(s.attributes, HasKind(t), a);
    }
    forall a | a in s.attributes && a.kind == t
      ensures multiset(s.AttributesOfKind(t))[a] == multiset(s.attributes)[a]
    {
      FilterCount(s.attributes, HasKind(t), a);
    }
    FilterIsSubsequence(s.attributes, HasKind(t));
  }

  /**
   * An id filter lists exactly the employees (by id or by position id) or
   * positions whose field is one of the ids, in storage order and with their
   * multiplicity; unknown ids contribute nothing.
   */
  lemma IdFiltersListMatchingRows(s: Storage, ids: seq<string>)
    ensures forall e :: e in s.EmployeesWithIds(Some(ids)) <==> e in s.employees && e.id in ids
    ensures forall e :: e in s.EmployeesInPositions(Some(ids)) <==> e in s.employees && e.positionId in ids
    ensures forall p :: p in s.PositionsWithIds(Some(ids)) <==> p in s.positions && p.id in ids
    ensures forall e :: e in s.employees && e.id in ids ==>
      multiset(s.EmployeesWithIds(Some(ids)))[e] == multiset(s.employees)[e]
    ensures forall e :: e in s.employees && e.positionId in ids ==>
      multiset(s.EmployeesInPositions(Some(ids)))[e] == multiset(s.employees)[e]
    ensures forall p :: p in s.positions && p.id in ids ==>
      multiset(s.PositionsWithIds(Some(ids)))[p] == multiset(s.positions)[p]
    ensures IsSubsequence(s.EmployeesWithIds(Some(ids)), s.employees)
    ensures IsSubsequence(s.EmployeesInPositions(Some(ids)), s.employees)
    ensures IsSubsequence(s.PositionsWithIds(Some(ids)), s.positions)
  {
    forall e | e in s.employees && e.id in ids
      ensures multiset(s.EmployeesWithIds(Some(ids)))[e] == multiset(s.employees)[e]
    {
      FilterCount(s.employees, EmployeeIdIn(ids), e);
    }
    forall e | e in s.employees && e.positionId in ids
      ensures multiset(s.EmployeesInPositions(Some(ids)))[e] == multiset(s.employees)[e]
    {
      FilterCount(s.employees, EmployeePositionIn(ids), e);
    }
    forall p | p in s.positions && p.id in ids
      ensures multiset(s.PositionsWithIds(Some(ids)))[p] == multiset(s.positions)[p]
    {
      FilterCount(s.positions, PositionIdIn(ids), p);
    }
    forall e ensures e in s.EmployeesWithIds(Some(ids)) <==> e in s.employees && e.id in ids {
      FilterMembership(s.employees, EmployeeIdIn(ids), e);
    }
    forall e ensures e in s.EmployeesInPositions(Some(ids)) <==> e in s.employees && e.positionId in ids {
      FilterMembership(s.employees, EmployeePositionIn(ids), e);
    }
    forall p ensures p in s.PositionsWithIds(Some(ids)) <==> p in s.positions && p.id in ids {
      FilterMembership(s.positions, PositionIdIn(ids), p);
    }
    FilterIsSubsequence(s.employees, EmployeeIdIn(ids));
    FilterIsSubsequence(s.employees, EmployeePositionIn(ids));
    FilterIsSubsequence(s.positions, PositionIdIn(ids));
  }
}
