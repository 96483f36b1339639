/**
 * Jenny's abstraction of Java types: the `JennyKind` classification, the two
 * ways it is computed (from reflection types and from annotation-processing
 * type mirrors), and `JType`, the view of a type the generators consume.
 */
module Kinds {
  import opened Wrappers

  datatype JennyKind =
    | VOID | BOOLEAN | BYTE | SHORT | INT | LONG | FLOAT | CHAR | DOUBLE
    | ARRAY | NULL | DECLARED | UNKNOWN

  predicate IsPrimitiveKind(k: JennyKind)
  {
    k in {BOOLEAN, BYTE, CHAR, SHORT, INT, LONG, FLOAT, DOUBLE}
  }

  /** The eight Java primitive types. */
  datatype Primitive = PBoolean | PByte | PShort | PInt | PLong | PFloat | PDouble | PChar

  function PrimitiveKind(p: Primitive): (k: JennyKind)
    ensures IsPrimitiveKind(k)
  {
    match p
    case PBoolean => BOOLEAN
    case PByte => BYTE
    case PShort => SHORT
    case PInt => INT
    case PLong => LONG
    case PFloat => FLOAT
    case PDouble => DOUBLE
    case PChar => CHAR
  }

  lemma PrimitiveKindInjective(p: Primitive, q: Primitive)
    ensures PrimitiveKind(p) == PrimitiveKind(q) ==> p == q
  {
  }

  // ------------------------------------------------------------ reflection

  /** The `java.lang.Class` objects `fromReflectionType` distinguishes. */
  datatype JavaClass =
    | PrimitiveClass(p: Primitive)       // int.class, ...
    | BoxedClass(p: Primitive)           // Integer.class, ...
    | VoidPrimitive                      // Void.TYPE
    | ReflectArrayUtility                // java.lang.reflect.Array.class
    | ArrayClass(component: JavaClass)   // int[].class, String[].class, ...
    | OtherClass(name: string)

  /** The `java.lang.reflect.Type` implementations. */
  datatype ReflectType =
    | ClassType(cls: JavaClass)
    | GenericArrayType(genericComponent: ReflectType)
    | WildcardType
    | ParameterizedType(raw: JavaClass)
    | TypeVariable
    | OtherReflectType

  /**
   * `JennyKind.fromReflectionType` as written. The `Array` it compares with is
   * `java.lang.reflect.Array` (the file imports it), so a real array class
   * such as `int[].class` falls through to DECLARED.
   */
  function FromReflectionType(t: ReflectType): (k: JennyKind)
  {
    match t
    case ClassType(c) =>
      (match c
       case PrimitiveClass(p) => PrimitiveKind(p)
       case BoxedClass(p) => PrimitiveKind(p)
       case ReflectArrayUtility => ARRAY
       case VoidPrimitive => VOID
       case _ => DECLARED)
    case GenericArrayType(_) => ARRAY
    case WildcardType => DECLARED
    case ParameterizedType(_) => DECLARED
    case _ => UNKNOWN
  }

  /** A primitive class and its wrapper class get the same kind. */
  lemma BoxedSameKind(p: Primitive)
    ensures FromReflectionType(ClassType(PrimitiveClass(p))) == FromReflectionType(ClassType(BoxedClass(p)))
    ensures IsPrimitiveKind(FromReflectionType(ClassType(BoxedClass(p))))
  {
  }

  /** As written, `int[].class` is DECLARED and the utility class `Array` is ARRAY. */
  lemma ReflectionArrayMisclassified()
    ensures FromReflectionType(ClassType(ArrayClass(PrimitiveClass(PInt)))) == DECLARED
    ensures FromReflectionType(ClassType(ReflectArrayUtility)) == ARRAY
  {
  }

  /** Does `t` denote a Java array type? */
  predicate IsArrayType(t: ReflectType)
  {
    (t.ClassType? && t.cls.ArrayClass?) || t.GenericArrayType?
  }

  /** `fromReflectionType` with array classes recognised as arrays. */
  function FromReflectionTypeFixed(t: ReflectType): (k: JennyKind)
    ensures k == ARRAY <==> IsArrayType(t)
    ensures !IsArrayType(t) && !(t.ClassType? && t.cls.ReflectArrayUtility?) ==> k == FromReflectionType(t)
  {
    match t
    case ClassType(c) =>
      (match c
       case PrimitiveClass(p) => PrimitiveKind(p)
       case BoxedClass(p) => PrimitiveKind(p)
       case ArrayClass(_) => ARRAY
       case VoidPrimitive => VOID
       case _ => DECLARED)
    case GenericArrayType(_) => ARRAY
    case WildcardType => DECLARED
    case ParameterizedType(_) => DECLARED
    case _ => UNKNOWN
  }

  // ------------------------------------------------------------ type mirrors

  /** `javax.lang.model.type.TypeKind`. */
  datatype TypeKind =
    | TK_BOOLEAN | TK_BYTE | TK_SHORT | TK_INT | TK_LONG | TK_CHAR | TK_FLOAT | TK_DOUBLE
    | TK_VOID | TK_NONE | TK_NULL | TK_ARRAY | TK_DECLARED | TK_ERROR | TK_TYPEVAR
    | TK_WILDCARD | TK_PACKAGE | TK_EXECUTABLE | TK_OTHER | TK_UNION | TK_INTERSECTION | TK_MODULE

  /** `TypeKind.isPrimitive()` */
  predicate IsPrimitiveTypeKind(k: TypeKind)
  {
    k in {TK_BOOLEAN, TK_BYTE, TK_SHORT, TK_INT, TK_LONG, TK_CHAR, TK_FLOAT, TK_DOUBLE}
  }

  function MirrorOfPrimitive(p: Primitive): (k: TypeKind)
    ensures IsPrimitiveTypeKind(k)
  {
    match p
    case PBoolean => TK_BOOLEAN
    case PByte => TK_BYTE
    case PShort => TK_SHORT
    case PInt => TK_INT
    case PLong => TK_LONG
    case PFloat => TK_FLOAT
    case PDouble => TK_DOUBLE
    case PChar => TK_CHAR
  }

  /** `JennyKind.fromMirrorType` as written: it has no FLOAT case. */
  function FromMirrorType(k: TypeKind): (r: JennyKind)
  {
    match k
    case TK_VOID => VOID
    case TK_BOOLEAN => BOOLEAN
    case TK_BYTE => BYTE
    case TK_SHORT => SHORT
    case TK_INT => INT
    case TK_LONG => LONG
    case TK_CHAR => CHAR
    case TK_DOUBLE => DOUBLE
    case TK_ARRAY => ARRAY
    case TK_NULL => NULL
    case TK_DECLARED => DECLARED
    case _ => UNKNOWN
  }

  /** A `float` mirror is primitive, yet its kind comes out UNKNOWN. */
  lemma MirrorFloatUnknown()
    ensures IsPrimitiveTypeKind(TK_FLOAT)
    ensures FromMirrorType(TK_FLOAT) == UNKNOWN
    ensures FromMirrorType(MirrorOfPrimitive(PFloat)) != FromReflectionType(ClassType(PrimitiveClass(PFloat)))
  {
  }

  /** `fromMirrorType` with the missing FLOAT case added. */
  function FromMirrorTypeFixed(k: TypeKind): (r: JennyKind)
    ensures k != TK_FLOAT ==> r == FromMirrorType(k)
    ensures IsPrimitiveTypeKind(k) <==> IsPrimitiveKind(r)
  {
    if k == TK_FLOAT then FLOAT else FromMirrorType(k)
  }

  /** The mirror and reflection routes classify every primitive alike. */
  lemma MirrorAgreesWithReflection(p: Primitive)
    ensures FromMirrorTypeFixed(MirrorOfPrimitive(p)) == FromReflectionTypeFixed(ClassType(PrimitiveClass(p)))
    ensures FromMirrorTypeFixed(MirrorOfPrimitive(p)) == PrimitiveKind(p)
  {
  }

  // ------------------------------------------------------------ JType

  /**
   * What the generators read of a `JennyType`: its kind, `typeName`,
   * `isPrimitive()`, `isArray()`, `componentType`, the type name of
   * `getNonGenericType()`, and `toString()`.
   */
  datatype JType = JType(
    kind: JennyKind,
    typeName: string,
    isPrimitive: bool,
    isArray: bool,
    component: Option<JType>,
    nonGenericName: string,
    text: string)

  /** Java's name for a primitive type, as `Class.getName` gives it. */
  function PrimitiveName(p: Primitive): string
  {
    match p
    case PBoolean => "boolean"
    case PByte => "byte"
    case PShort => "short"
    case PInt => "int"
    case PLong => "long"
    case PFloat => "float"
    case PDouble => "double"
    case PChar => "char"
  }

  function BoxName(p: Primitive): string
  {
    match p
    case PBoolean => "java.lang.Boolean"
    case PByte => "java.lang.Byte"
    case PShort => "java.lang.Short"
    case PInt => "java.lang.Integer"
    case PLong => "java.lang.Long"
    case PFloat => "java.lang.Float"
    case PDouble => "java.lang.Double"
    case PChar => "java.lang.Character"
  }

  /** `Type.getTypeName()` of a class: arrays print as the component name and "[]". */
  function ClassTypeName(c: JavaClass): string
  {
    match c
    case PrimitiveClass(p) => PrimitiveName(p)
    case BoxedClass(p) => BoxName(p)
    case VoidPrimitive => "void"
    case ReflectArrayUtility => "java.lang.reflect.Array"
    case ArrayClass(e) => ClassTypeName(e) + "[]"
    case OtherClass(n) => n
  }

  /**
   * `JennyReflectType` over a `Class` with the kind function as written: an
   * array class is DECLARED, so it is not an array.
   */
  function OfClassAsWritten(c: JavaClass): (t: JType)
    ensures c.ArrayClass? ==> t.kind == DECLARED && !t.isArray && !t.isPrimitive
  {
    var k := FromReflectionType(ClassType(c));
    var name := ClassTypeName(c);
    JType(k, name, IsPrimitiveKind(k), k == ARRAY,
          if c.ArrayClass? then Some(OfClassAsWritten(c.component)) else None,
          name, name)
  }

  /**
   * `JennyReflectType` over a `Class`, classified with the corrected kind
   * function: primitive iff its kind is one of the eight primitive kinds,
   * array iff its kind is ARRAY, component from `Class.getComponentType`.
   */
  function OfClass(c: JavaClass): (t: JType)
    ensures t.isArray <==> c.ArrayClass?
    ensures t.isArray ==> t.component == Some(OfClass(c.component))
    ensures t.isPrimitive <==> c.PrimitiveClass? || c.BoxedClass?
  {
    var k := FromReflectionTypeFixed(ClassType(c));
    var name := ClassTypeName(c);
    JType(k, name, IsPrimitiveKind(k), k == ARRAY,
          if c.ArrayClass? then Some(OfClass(c.component)) else None,
          name, name)
  }
}
