/**
 * The records of the hierarchy (employees, positions, attribute records)
 * and the typed accessor for an attribute record's property bag.
 */
module Entities {
  import opened Wrappers

  datatype Employee = Employee(id: string, name: string, positionId: string)

  datatype Position = Position(id: string, name: string)

  /**
   * A value of the schema-less property bag. Only strings are read by the
   * resolver; every other dynamic type is folded into the remaining variants.
   */
  datatype Value = VString(str: string) | VInt(num: int) | VOther

  /** An attribute record: owner id, owner kind ("employee", "position", ...) and property bag. */
  datatype HierarchyAttributes = HierarchyAttributes(id: string, kind: string, attributes: map<string, Value>)

  /** The zero value of an attribute record: empty id and kind, no properties. */
  const NoAttributes := HierarchyAttributes("", "", map[])

  /**
   * The property `name` read as a string. `None` both when the key is absent
   * and when the stored value is not a string.
   */
  function GetStringAttribute(a: HierarchyAttributes, name: string): (r: Option<string>)
    ensures r.Some? <==> name in a.attributes && a.attributes[name].VString?
    ensures r.Some? ==> a.attributes[name] == VString(r.value)
  {
    if name !in a.attributes then None
    else match a.attributes[name]
      case VString(v) => Some(v)
      case _ => None
  }

  /** A present value of another type reads exactly as if the key were absent. */
  lemma NonStringReadsAsAbsent(a: HierarchyAttributes, name: string)
    requires name in a.attributes && !a.attributes[name].VString?
    ensures GetStringAttribute(a, name) == GetStringAttribute(a.(attributes := a.attributes - {name}), name)
    ensures GetStringAttribute(a, name) == None
  {
  }

  /** A string stored under `name` reads back unchanged, whatever was stored there before. */
  lemma StoredStringReadsBack(a: HierarchyAttributes, name: string, v: string)
    ensures GetStringAttribute(a.(attributes := a.attributes[name := VString(v)]), name) == Some(v)
  {
  }
}
