/**
  The immutable replicator that supports replication across different enum
  types: when the base immutable replicator produces nothing, an enum constant
  is carried over to the target enum by position.
*/
module HeteroImmutableReplicator {
  import opened Wrappers
  import opened JavaEnums

  /**
    The inherited `replicateImmutable`, whose logic is not part of this model:
    for a source value and a target class it returns a replica or nothing.
  */
  type BaseReplicator = (JValue, JClass) -> Option<JValue>

  /**
    The cross-enum fallback: the constant of `target` whose ordinal is the
    ordinal of `from`, or nothing when `target` has too few constants (the
    index that Java's `Array.get` would reject).
  */
  function ByOrdinal(from: JValue, target: EnumDecl): (r: Option<JValue>)
    requires from.Constant? && ValidDecl(target)
    ensures r.Some? <==> Ordinal(from) < |target.constants|
    ensures r.Some? ==> r.value in Values(target)
    ensures r.Some? ==> r.value.Constant? && r.value.owner == target && Ordinal(r.value) == Ordinal(from)
  {
    var values := Values(target);
    var i := Ordinal(from);
    if i < |values| then Some(values[i]) else None
  }

  /**
    `replicateImmutable(immutableFrom, toClass)`: the base replicator's answer
    when it has one; otherwise, for an enum constant and an enum target, the
    target constant at the same ordinal; otherwise nothing.
  */
  function ReplicateImmutable(base: BaseReplicator, from: JValue, to: JClass): (r: Option<JValue>)
    ensures base(from, to).Some? ==> r == base(from, to)
    ensures base(from, to).None? ==>
      (r.Some? <==> to.EnumClass? && from.Constant? && Ordinal(from) < |to.decl.constants|)
    ensures base(from, to).None? && r.Some? ==>
      to.EnumClass? && r.value.Constant? && r.value.owner == to.decl && Ordinal(r.value) == Ordinal(from)
  {
    var result := base(from, to);
    if result.Some? then
      result
    else if to.IsEnum() && from.Constant? then
      ByOrdinal(from, to.decl)
    else
      None
  }

  /** The base replicator is consulted once, on the very value and class given: nothing else about it matters. */
  lemma DependsOnlyOnBaseAnswer(base1: BaseReplicator, base2: BaseReplicator, from: JValue, to: JClass)
    requires base1(from, to) == base2(from, to)
    ensures ReplicateImmutable(base1, from, to) == ReplicateImmutable(base2, from, to)
  {
  }

  /** When the base gives up on an enum constant and an enum target, the result is exactly the target's constant at the source's ordinal, or nothing. */
  lemma FallbackIsPositional(base: BaseReplicator, from: JValue, to: JClass)
    requires base(from, to).None? && to.EnumClass? && from.Constant?
    ensures Ordinal(from) < |to.decl.constants| ==>
      ReplicateImmutable(base, from, to) == Some(Constant(to.decl, to.decl.constants[Ordinal(from)]))
    ensures Ordinal(from) >= |to.decl.constants| ==> ReplicateImmutable(base, from, to) == None
  {
  }

  /**
    The mapping never looks at names: two source constants with the same
    ordinal, of whatever enums, map to the same target constant, and two
    targets with the same number of constants receive the constant at the same
    position.
  */
  lemma NameIndependent(from1: JValue, from2: JValue, target1: EnumDecl, target2: EnumDecl)
    requires from1.Constant? && from2.Constant? && ValidDecl(target1) && ValidDecl(target2)
    requires Ordinal(from1) == Ordinal(from2)
    requires |target1.constants| == |target2.constants|
    ensures ByOrdinal(from1, target1) == ByOrdinal(from2, target1)
    ensures ByOrdinal(from1, target1).Some? == ByOrdinal(from1, target2).Some?
    ensures ByOrdinal(from1, target1).Some? ==>
      Ordinal(ByOrdinal(from1, target1).value) == Ordinal(ByOrdinal(from1, target2).value)
  {
  }

  /** Mapping a constant onto its own enum gives back the constant itself. */
  lemma SameEnumIsIdentity(from: JValue)
    requires from.Constant?
    ensures ByOrdinal(from, from.owner) == Some(from)
  {
  }

  /** Mapping into a long enough enum and back returns the original constant. */
  lemma RoundTrip(from: JValue, target: EnumDecl)
    requires from.Constant? && ValidDecl(target) && Ordinal(from) < |target.constants|
    ensures ByOrdinal(from, target).Some?
    ensures ByOrdinal(ByOrdinal(from, target).value, from.owner) == Some(from)
  {
  }

  /** The same round trip through the full replicator, whenever the base replicator gives up on both legs. */
  lemma ReplicateRoundTrip(base: BaseReplicator, from: JValue, to: JClass, back: JClass)
    requires from.Constant? && to.EnumClass? && back == EnumClass(from.owner)
    requires Ordinal(from) < |to.decl.constants|
    requires base(from, to).None?
    requires base(ReplicateImmutable(base, from, to).value, back).None?
    ensures ReplicateImmutable(base, from, to).Some?
    ensures ReplicateImmutable(base, ReplicateImmutable(base, from, to).value, back) == Some(from)
  {
  }

  /** Distinct constants of one enum never collapse onto one target constant. */
  lemma Injective(from1: JValue, from2: JValue, target: EnumDecl)
    requires from1.Constant? && from2.Constant? && from1.owner == from2.owner && ValidDecl(target)
    requires ByOrdinal(from1, target).Some? && ByOrdinal(from1, target) == ByOrdinal(from2, target)
    ensures from1 == from2
  {
  }

  /** Mapping through an intermediate enum that is long enough is the same as mapping directly. */
  lemma Compose(from: JValue, middle: EnumDecl, target: EnumDecl)
    requires from.Constant? && ValidDecl(middle) && ValidDecl(target)
    requires Ordinal(from) < |middle.constants|
    ensures ByOrdinal(from, middle).Some?
    ensures ByOrdinal(ByOrdinal(from, middle).value, target) == ByOrdinal(from, target)
  {
  }

  /**
    Every constant of the target is reached from a source enum that has at
    least as many constants: the one at the same position.
  */
  lemma Surjective(source: EnumDecl, t: JValue)
    requires t.Constant? && ValidDecl(source) && |t.owner.constants| <= |source.constants|
    ensures exists from: JValue :: from.Constant? && from.owner == source && ByOrdinal(from, t.owner) == Some(t)
  {
    var from := Values(source)[Ordinal(t)];
  }

  /** A base replicator that never produces a replica, so that every answer comes from the fallback. */
  const NoReplica: BaseReplicator := (v, c) => None

  const Color := EnumDecl("Color", ["RED", "GREEN", "BLUE"])
  const Size := EnumDecl("Size", ["SMALL", "MEDIUM", "LARGE"])
  const Switch := EnumDecl("Switch", ["ON", "OFF"])
  const Single := EnumDecl("Single", ["A"])
  const Letter := EnumDecl("Letter", ["X", "Y", "Z"])
  const Day := EnumDecl("Day", ["MON", "TUE", "WED", "THU", "FRI", "SAT", "SUN"])
  const Note := EnumDecl("Note", ["DO", "RE", "MI", "FA", "SOL", "LA", "TI"])

  /** GREEN, second of three colors, becomes MEDIUM, second of three sizes. */
  lemma ColorToSize()
    ensures ReplicateImmutable(NoReplica, Constant(Color, "GREEN"), EnumClass(Size)) == Some(Constant(Size, "MEDIUM"))
  {
  }

  /** BLUE, third color, has no counterpart in a two-constant enum: the result is null, not an error. */
  lemma ColorToSwitch()
    ensures ReplicateImmutable(NoReplica, Constant(Color, "BLUE"), EnumClass(Switch)) == None
  {
  }

  /** The only constant of a one-constant enum becomes the first constant of the target. */
  lemma SingleToLetter()
    ensures ReplicateImmutable(NoReplica, Constant(Single, "A"), EnumClass(Letter)) == Some(Constant(Letter, "X"))
  {
  }

  /** SUN, seventh day, becomes the seventh note, whatever the names. */
  lemma DayToNote()
    ensures ReplicateImmutable(NoReplica, Constant(Day, "SUN"), EnumClass(Note)) == Some(Constant(Note, "TI"))
  {
  }

  /** A non-enum value aimed at an enum class, and a constant aimed at a non-enum class, both give null. */
  lemma NotBothEnums()
    ensures ReplicateImmutable(NoReplica, Immutable("java.lang.String", "GREEN"), EnumClass(Size)) == None
    ensures ReplicateImmutable(NoReplica, Constant(Color, "GREEN"), OtherClass("java.lang.String")) == None
  {
  }
}

