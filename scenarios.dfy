/**
 * The demonstration fixture and the answers the resolver gives over it,
 * including variants of it with a changed attribute or a duplicated employee.
 */
module Scenarios {
  import opened Wrappers
  import opened Entities
  import opened Seqs
  import opened MemoryStorage
  import opened Policy
  import opened StoragePolicy

  /** The seeded storage: three employees, two positions, two attribute records. */
  function NewStorage(): Storage {
    Storage(
      [ HierarchyAttributes("1", "employee", map[]),
        HierarchyAttributes("2", "position", map["managerPosition" := VString("1")]) ],
      [ Employee("1", "John 1", "1"),
        Employee("2", "John 2", "2"),
        Employee("3", "John 3", "1") ],
      [ Position("1", "Мастер"),
        Position("2", "Пекарь") ])
  }

  /** The seed with position "2"'s record replaced by one holding `managerPosition := v`. */
  function WithManagerPosition(v: Value): Storage {
    NewStorage().(attributes := [
      HierarchyAttributes("1", "employee", map[]),
      HierarchyAttributes("2", "position", map["managerPosition" := v]) ])
  }

  /**
   * The program's own query: the second employee of the unfiltered listing is
   * "2", whose managers are employees "1" and "3", in storage order.
   */
  lemma SeedManagersOfEmployee2()
    ensures NewStorage().EmployeesWithIds(None)[1].id == "2"
    ensures FirstManagersIn(NewStorage(), "2") ==
      Success([Employee("1", "John 1", "1"), Employee("3", "John 3", "1")])
  {
    var s := NewStorage();
    assert UniqueEmployee(s, "2", 1);
    assert UniquePosition(s, "2", 1);
    assert LastPositionRecord(s, "2", 1);
    ManagersHoldManagerPosition(s, "2", 1, 1, 1, "1");
    SeedHoldersOfPosition1();
  }

  /** Employees "1" and "3" hold position "1", in that order. */
  lemma SeedHoldersOfPosition1()
    ensures NewStorage().EmployeesInPositions(Some(["1"])) ==
      [Employee("1", "John 1", "1"), Employee("3", "John 3", "1")]
  {
    var e := NewStorage().employees;
    var p := EmployeePositionIn(["1"]);
    assert e == [e[0], e[1]] + [e[2]];
    FilterSnoc([e[0], e[1]], e[2], p);
    assert [e[0], e[1]] == [e[0]] + [e[1]];
    FilterSnoc([e[0]], e[1], p);
    assert [e[0]] == [] + [e[0]];
    FilterSnoc([], e[0], p);
  }

  /** Employee "1" holds position "1", which has no position record: no managers. */
  lemma SeedManagersOfEmployee1()
    ensures FirstManagersIn(NewStorage(), "1") == Success([])
  {
    NoRecordMeansNoManagers(NewStorage(), "1", 0, 0);
  }

  /** An id nobody has is employee-not-found. */
  lemma SeedUnknownEmployee()
    ensures FirstManagersIn(NewStorage(), "99") == Failure(EmpNotFound)
  {
    EmployeeNotFoundIff(NewStorage(), "99");
  }

  /** A non-string manager position reads as absent: no managers, no error. */
  lemma SeedNonStringManagerPosition()
    ensures FirstManagersIn(WithManagerPosition(VInt(42)), "2") == Success([])
  {
    UnusableManagerPositionMeansNoManagers(WithManagerPosition(VInt(42)), "2", 1, 1, 1);
  }

  /** A manager position nobody holds (an orphan reference) gives no managers, no error. */
  lemma SeedOrphanManagerPosition()
    ensures FirstManagersIn(WithManagerPosition(VString("99")), "2") == Success([])
  {
    var s := WithManagerPosition(VString("99"));
    ManagersHoldManagerPosition(s, "2", 1, 1, 1, "99");
  }

  /** A second stored employee with id "2" makes the employee lookup ambiguous. */
  lemma SeedDuplicateEmployee()
    ensures FirstManagersIn(NewStorage().(employees := NewStorage().employees + [Employee("2", "John 2 again", "1")]), "2")
      == Failure(InvalidEmpResp)
  {
    var s := NewStorage().(employees := NewStorage().employees + [Employee("2", "John 2 again", "1")]);
    DuplicateEmployeeIff(s, "2");
    assert s.employees[1].id == "2" && s.employees[3].id == "2";
  }
}
