/**
  The part of the Java type system the replicator relies on: enum types with
  their constants in declaration order, the `Class` objects that name a
  replication target, and the immutable values that are replicated.
*/
module JavaEnums {

  /** No name occurs twice in `s`. */
  predicate Distinct(s: seq<string>) {
    forall i, j :: 0 <= i < j < |s| ==> s[i] != s[j]
  }

  /** An enum type: its name and the names of its constants, in declaration order. */
  datatype EnumDecl = EnumDecl(name: string, constants: seq<string>)

  /** The Java compiler rejects an enum that declares the same constant twice. */
  predicate ValidDecl(e: EnumDecl) {
    Distinct(e.constants)
  }

  /** A `Class` object given as the target of a replication. */
  datatype Class = EnumClass(decl: EnumDecl) | OtherClass(name: string) {
    /** `Class.isEnum()`. */
    predicate IsEnum() {
      EnumClass?
    }
  }

  /**
    An immutable value: either a value of a non-enum immutable type (a string,
    a boxed number, ...), or an enum constant, which the JVM identifies by its
    enum type and its name.
  */
  datatype Value = Immutable(typeName: string, text: string) | Constant(owner: EnumDecl, name: string)

  predicate ValidValue(v: Value) {
    v.Constant? ==> ValidDecl(v.owner) && v.name in v.owner.constants
  }

  predicate ValidClass(c: Class) {
    c.EnumClass? ==> ValidDecl(c.decl)
  }

  /** The values that can exist at run time: an enum constant is one of its own type's constants. */
  type JValue = v: Value | ValidValue(v) witness Immutable("", "")

  /** The classes that can exist at run time. */
  type JClass = c: Class | ValidClass(c) witness OtherClass("")

  /** The first position of `x` in `s`. */
  function IndexOf(s: seq<string>, x: string): (i: nat)
    requires x in s
    ensures i < |s| && s[i] == x
    ensures forall j :: 0 <= j < i ==> s[j] != x
  {
    if s[0] == x then 0 else 1 + IndexOf(s[1..], x)
  }

  /** `Enum.ordinal()`: the position of the constant in its enum's declaration order. */
  function Ordinal(c: JValue): (i: nat)
    requires c.Constant?
    ensures i < |c.owner.constants| && c.owner.constants[i] == c.name
    ensures forall j :: 0 <= j < |c.owner.constants| && c.owner.constants[j] == c.name ==> j == i
  {
    IndexOf(c.owner.constants, c.name)
  }

  /** The array returned by the static `values()` accessor of an enum: its constants, each at its own ordinal. */
  function Values(e: EnumDecl): (vs: seq<JValue>)
    requires ValidDecl(e)
    ensures |vs| == |e.constants|
    ensures forall i :: 0 <= i < |vs| ==> vs[i].Constant? && vs[i].owner == e && vs[i].name == e.constants[i]
    ensures forall i :: 0 <= i < |vs| ==> Ordinal(vs[i]) == i
  {
    seq(|e.constants|, i requires 0 <= i < |e.constants| => Constant(e, e.constants[i]))
  }

  /** A constant is determined by its enum and its ordinal. */
  lemma OrdinalDeterminesConstant(c: JValue, d: JValue)
    requires c.Constant? && d.Constant? && c.owner == d.owner
    ensures Ordinal(c) == Ordinal(d) <==> c == d
  {
  }

  /** Every constant of an enum appears in its `values()` array, at its ordinal. */
  lemma ConstantInValues(c: JValue)
    requires c.Constant?
    ensures c in Values(c.owner) && Values(c.owner)[Ordinal(c)] == c
  {
  }
}
