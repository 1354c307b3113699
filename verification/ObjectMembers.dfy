/** Names that a plain JavaScript object answers although nobody stored anything under them. */
module ObjectMembers {

  /** The members of `Object.prototype` (section 20.1.3 and annex B.2.2 of ECMA-262). */
  const INHERITED: set<string> := {
    "constructor", "hasOwnProperty", "isPrototypeOf", "propertyIsEnumerable", "toLocaleString", "toString", "valueOf",
    "__proto__", "__defineGetter__", "__defineSetter__", "__lookupGetter__", "__lookupSetter__"
  }

  predicate Inherited(name: string) {
    name in INHERITED
  }

  /** None of them ends like a prose file. */
  lemma InheritedEnds(name: string)
    requires Inherited(name)
    ensures name != "" && name[|name| - 1] !in "dxl"
  {
  }

  lemma ConstructorIsInherited()
    ensures Inherited("constructor")
  {
  }
}
