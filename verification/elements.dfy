/**
 * The program elements the generators read: classes, fields, methods and
 * constructors (`JennyElement` and its sub-interfaces), with the modifier
 * predicates and the visibility filter of `utils/ext.kt`.
 */
module Elements {
  import opened Wrappers
  import opened Kinds
  import opened Modifiers

  datatype Param = Param(name: string, ptype: JType)

  /**
   * A class as seen from one of its members (`declaringClass`): its simple
   * name, fully qualified name, type, whether it is nested, and its own
   * declaring class.
   */
  datatype ClassRef = ClassRef(
    simpleName: string,
    fullName: string,
    ctype: JType,
    isNested: bool,
    outer: Option<ClassRef>)

  /** What a constant's `call()` reads. */
  datatype ConstValue =
    | BoolValue(b: bool)
    | NumberValue(text: string)     // a `Number`, as its `toString()` prints it
    | CharValue(c: char)
    | StringValue(s: string)
    | OtherValue(text: string)      // anything else, as "$v (${v?.javaClass})" prints it

  /** The outcome of `call()`: a value or null, or an exception. */
  datatype CallOutcome = Returned(value: Option<ConstValue>) | Threw

  /** The executable part of a method or constructor. */
  datatype Executable = Executable(params: seq<Param>, returnType: JType)

  /**
   * A field, method or constructor. `exec` is present exactly for
   * executables; a constructor is the executable named "<init>". `etype` is
   * the element's `type`: a field's type; for an executable read by
   * reflection its return type, and for one read from a type mirror the
   * method's own type, whose kind is UNKNOWN. `exec.returnType` is the
   * return type on both routes.
   */
  datatype Element = Element(
    name: string,
    etype: JType,
    modifiers: set<JennyModifier>,
    declaring: Option<ClassRef>,
    exec: Option<Executable>,
    value: CallOutcome)
  {
    predicate IsExecutable() { exec.Some? }
    function Params(): seq<Param> { if exec.Some? then exec.value.params else [] }
  }

  const ConstructorName: string := "<init>"

  /** `isConstructor()`: a constructor is the executable named "<init>". */
  predicate IsConstructor(e: Element)
  {
    e.IsExecutable() && e.name == ConstructorName
  }

  /** A class together with its members (`JennyClazzElement`). */
  datatype ClassElement = ClassElement(
    ref: ClassRef,
    constructors: seq<Element>,
    methods: seq<Element>,
    fields: seq<Element>)

  /** Does the element's declaring class exist and is it nested? */
  predicate InNestedClass(e: Element)
  {
    e.declaring.Some? && e.declaring.value.isNested
  }

  // ------------------------------------------------------------ ext.kt predicates

  predicate IsStatic(e: Element) { STATIC in e.modifiers }
  predicate IsConstant(e: Element) { IsStatic(e) && FINAL in e.modifiers }
  predicate IsNative(e: Element) { NATIVE in e.modifiers }
  predicate IsPublic(e: Element) { PUBLIC in e.modifiers }

  /** The public elements of `es`, in order. */
  function PublicOnly(es: seq<Element>): (r: seq<Element>)
    ensures forall x :: x in r <==> x in es && IsPublic(x)
    ensures |r| <= |es|
    ensures IsSubsequence(r, es)
    ensures forall x :: multiset(r)[x] == if IsPublic(x) then multiset(es)[x] else 0
  {
    if |es| == 0 then []
    else
      assert es == [es[0]] + es[1..];
      if IsPublic(es[0]) then [es[0]] + PublicOnly(es[1..])
      else PublicOnly(es[1..])
  }

  /** `a` is `b` with some elements dropped, order kept. */
  predicate IsSubsequence<T(==)>(a: seq<T>, b: seq<T>)
  {
    |a| <= |b| && (|a| == 0 || (if a[0] == b[0] then IsSubsequence(a[1..], b[1..]) else IsSubsequence(a, b[1..])))
  }

  /** `Collection.visibility(onlyPublic)`. */
  function Visibility(es: seq<Element>, onlyPublic: bool): (r: seq<Element>)
    ensures !onlyPublic ==> r == es
    ensures onlyPublic ==> forall x :: x in r <==> x in es && IsPublic(x)
    ensures onlyPublic ==> forall x :: multiset(r)[x] == if IsPublic(x) then multiset(es)[x] else 0
    ensures IsSubsequence(r, es)
  {
    SubsequenceRefl(es);
    if onlyPublic then PublicOnly(es) else es
  }

  lemma SubsequenceRefl<T>(s: seq<T>)
    ensures IsSubsequence(s, s)
  {
    if |s| > 0 {
      SubsequenceRefl(s[1..]);
    }
  }

  /** Keeps the elements satisfying `IsConstant`, in order (`filter { it.isConstant() }`). */
  function Constants(es: seq<Element>): (r: seq<Element>)
    ensures forall x :: x in r <==> x in es && IsConstant(x)
    ensures IsSubsequence(r, es)
    ensures forall x :: multiset(r)[x] == if IsConstant(x) then multiset(es)[x] else 0
  {
    if |es| == 0 then []
    else
      assert es == [es[0]] + es[1..];
      if IsConstant(es[0]) then [es[0]] + Constants(es[1..])
      else Constants(es[1..])
  }

  /** Keeps the elements that are not constants (`filter { !it.isConstant() }`). */
  function NonConstants(es: seq<Element>): (r: seq<Element>)
    ensures forall x :: x in r <==> x in es && !IsConstant(x)
    ensures IsSubsequence(r, es)
    ensures forall x :: multiset(r)[x] == if IsConstant(x) then 0 else multiset(es)[x]
  {
    if |es| == 0 then []
    else
      assert es == [es[0]] + es[1..];
      if !IsConstant(es[0]) then [es[0]] + NonConstants(es[1..])
      else NonConstants(es[1..])
  }

  /** Constants and non-constants split the fields: together they have as many elements. */
  lemma {:induction false} ConstantsPartition(es: seq<Element>)
    ensures |Constants(es)| + |NonConstants(es)| == |es|
  {
    if |es| > 0 {
      ConstantsPartition(es[1..]);
    }
  }

  /** Keeps the native methods, in order (`filter { it.isNative() }`). */
  function NativeOnly(es: seq<Element>): (r: seq<Element>)
    ensures forall x :: x in r <==> x in es && IsNative(x)
    ensures IsSubsequence(r, es)
    ensures forall x :: multiset(r)[x] == if IsNative(x) then multiset(es)[x] else 0
  {
    if |es| == 0 then []
    else
      assert es == [es[0]] + es[1..];
      if IsNative(es[0]) then [es[0]] + NativeOnly(es[1..])
      else NativeOnly(es[1..])
  }
}
