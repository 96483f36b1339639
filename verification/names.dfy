/**
 * `JennyNameProvider`: the names of the C++ static members that cache the
 * JNI method, field and constructor IDs, and of the class-state accessor.
 */
module Names {
  import opened Text
  import opened Elements

  /** `getType`: "Method" for executables, "Field" otherwise. */
  function TypeTag(e: Element): (r: string)
    ensures |r| > 0
    ensures r[0] == (if e.IsExecutable() then 'M' else 'F')
  {
    if e.IsExecutable() then "Method" else "Field"
  }

  /** `getElementName(e, index)`, like "sMethod_run_0" or "sField_count_2". */
  function ElementName(e: Element, index: nat): string
  {
    "s" + TypeTag(e) + "_" + e.name + "_" + NatToString(index)
  }

  /** `getConstructorName(index)`, like "sConstruct_0". */
  function ConstructorIdName(index: nat): string
  {
    "sConstruct_" + NatToString(index)
  }

  const Clazz: string := "sClazz"
  const ClassStatePrefix: string := "getClassInitState()."

  /** `getClassState(what)`; the default member is `sClazz`. */
  function ClassState(what: string): (r: string)
    ensures |r| == |ClassStatePrefix| + |what| && r[|ClassStatePrefix|..] == what
  {
    ClassStatePrefix + what
  }

  function DefaultClassState(): (r: string)
    ensures r == ClassState(Clazz)
  {
    ClassStatePrefix + Clazz
  }

  lemma ElementNameShape(e: Element, index: nat)
    ensures ElementName(e, index) == ("s" + TypeTag(e) + "_") + (e.name + "_" + NatToString(index))
    ensures ElementName(e, index)[1] == TypeTag(e)[0]
  {
  }

  lemma UnderscoreNotDigit(d: string)
    requires forall i | 0 <= i < |d| :: IsDigit(d[i])
    ensures '_' !in d
  {
  }

  /**
   * An element name determines whether the element is executable, its name and
   * its index: different IDs never share a C++ member name, and method IDs never
   * clash with field IDs.
   */
  lemma ElementNameInjective(e1: Element, i1: nat, e2: Element, i2: nat)
    requires ElementName(e1, i1) == ElementName(e2, i2)
    ensures e1.IsExecutable() == e2.IsExecutable()
    ensures e1.name == e2.name && i1 == i2
  {
    ElementNameShape(e1, i1);
    ElementNameShape(e2, i2);
    var p := "s" + TypeTag(e1) + "_";
    assert TypeTag(e1) == TypeTag(e2);
    var d1, d2 := NatToString(i1), NatToString(i2);
    UnderscoreNotDigit(d1);
    UnderscoreNotDigit(d2);
    DropCommonPrefix(p, e1.name + "_" + d1, e2.name + "_" + d2);
    SplitAtLast(e1.name, d1, e2.name, d2, '_');
    NatToStringInjective(i1, i2);
  }

  lemma DropCommonPrefix(p: string, a: string, b: string)
    requires p + a == p + b
    ensures a == b
  {
    assert a == (p + a)[|p|..];
  }

  /** For one element, distinct positions give distinct ID names. */
  lemma ElementNamesDistinct(e: Element, i: nat, j: nat)
    requires i != j
    ensures ElementName(e, i) != ElementName(e, j)
  {
    if ElementName(e, i) == ElementName(e, j) {
      ElementNameInjective(e, i, e, j);
    }
  }

  /** Constructor IDs are a family of their own, injective in the index. */
  lemma ConstructorIdNames(i: nat, j: nat, e: Element, k: nat)
    ensures ConstructorIdName(i) == ConstructorIdName(j) ==> i == j
    ensures ConstructorIdName(i) != ElementName(e, k)
  {
    if ConstructorIdName(i) == ConstructorIdName(j) {
      DropCommonPrefix("sConstruct_", NatToString(i), NatToString(j));
      NatToStringInjective(i, j);
    }
    ElementNameShape(e, k);
    assert ConstructorIdName(i)[1] == 'C';
  }
}
