/**
 * The type-to-JNI helpers of `utils/ext.kt`: the JNI C type a Java type is
 * passed as, the `Call<Type>Method` family name, the local-reference
 * wrapping rule and the JNI class-name conversion.
 */
module Ext {
  import opened Wrappers
  import opened Text
  import opened Kinds

  /** `JennyType.toJniReturnTypeString()` */
  function JniReturnType(t: JType): (r: string)
    ensures (|r| > 0 && r[0] == 'j') || r == "void"
  {
    if t.isPrimitive then "j" + Lower(t.typeName)
    else if t.isArray then
      (if t.component.Some? && t.component.value.isPrimitive
       then "j" + Lower(t.component.value.typeName) + "Array"
       else "jobjectArray")
    else if t.kind == VOID then "void"
    else if t.kind == DECLARED then
      (if t.typeName == "java.lang.String" then "jstring"
       else if t.typeName == "java.lang.Class" then "jclass"
       else if t.typeName == "java.lang.Throwable" then "jthrowable"
       else "jobject")
    else "jobject"
  }

  /** The JNI C type of each Java primitive, from the JNI type table. */
  function JniPrimitive(p: Primitive): string
  {
    match p
    case PBoolean => "jboolean"
    case PByte => "jbyte"
    case PShort => "jshort"
    case PInt => "jint"
    case PLong => "jlong"
    case PFloat => "jfloat"
    case PDouble => "jdouble"
    case PChar => "jchar"
  }

  /** Java's primitive type names are already lower case. */
  lemma LowerPrimitiveName(p: Primitive)
    ensures Lower(PrimitiveName(p)) == PrimitiveName(p)
  {
    var n := PrimitiveName(p);
    forall i | 0 <= i < |n| ensures !IsUpperAscii(n[i]) {
      match p
      case PBoolean =>
      case PByte =>
      case PShort =>
      case PInt =>
      case PLong =>
      case PFloat =>
      case PDouble =>
      case PChar =>
    }
    LowerNoUpper(n);
  }

  lemma LowerNoUpper(s: string)
    requires forall i | 0 <= i < |s| :: !IsUpperAscii(s[i])
    ensures Lower(s) == s
  {
  }

  lemma JniPrimitivePrefix(p: Primitive)
    ensures "j" + PrimitiveName(p) == JniPrimitive(p)
  {
  }

  lemma OfPrimitiveClass(p: Primitive)
    ensures OfClass(PrimitiveClass(p))
         == JType(PrimitiveKind(p), PrimitiveName(p), true, false, None, PrimitiveName(p), PrimitiveName(p))
  {
  }

  /**
   * On the reflection types of the eight primitives, of their arrays and of
   * object arrays, classified with the corrected kind function (`OfClass`),
   * `toJniReturnTypeString` agrees with the JNI type table.
   */
  lemma JniReturnTypeTable(p: Primitive, n: string)
    ensures JniReturnType(OfClass(PrimitiveClass(p))) == JniPrimitive(p)
    ensures JniReturnType(OfClass(ArrayClass(PrimitiveClass(p)))) == JniPrimitive(p) + "Array"
    ensures JniReturnType(OfClass(ArrayClass(OtherClass(n)))) == "jobjectArray"
    ensures JniReturnType(OfClass(VoidPrimitive)) == "void"
  {
    JniReturnTypePrimitive(p);
    JniReturnTypePrimitiveArray(p);
    var o := OfClass(ArrayClass(OtherClass(n)));
    assert o.isArray && !o.isPrimitive && !o.component.value.isPrimitive;
  }

  /**
   * With the kind function as written, an array class is DECLARED: `int[]`
   * comes out as "jobject", not "jintArray".
   */
  lemma JniReturnTypeAsWrittenArray(p: Primitive)
    ensures JniReturnType(OfClassAsWritten(ArrayClass(PrimitiveClass(p)))) == "jobject"
    ensures JniReturnType(OfClass(ArrayClass(PrimitiveClass(p)))) != "jobject"
  {
    AsWrittenArrayIsDeclared(p);
    JniReturnTypePrimitiveArray(p);
    ArrayTypeIsNotObject(p);
  }

  lemma ArrayTypeIsNotObject(p: Primitive)
    ensures JniPrimitive(p) + "Array" != "jobject"
  {
    assert |JniPrimitive(p)| >= 4;
  }

  lemma AsWrittenArrayIsDeclared(p: Primitive)
    ensures JniReturnType(OfClassAsWritten(ArrayClass(PrimitiveClass(p)))) == "jobject"
  {
    var t := OfClassAsWritten(ArrayClass(PrimitiveClass(p)));
    assert t.typeName == PrimitiveName(p) + "[]";
    DeclaredArrayName(t);
  }

  /** A declared type whose name ends in "[]" is none of the three named classes: it is a plain `jobject`. */
  lemma DeclaredArrayName(t: JType)
    requires t.kind == DECLARED && !t.isPrimitive && !t.isArray
    requires |t.typeName| > 0 && t.typeName[|t.typeName| - 1] == ']'
    ensures JniReturnType(t) == "jobject"
  {
    assert t.typeName != "java.lang.String" && t.typeName != "java.lang.Class" && t.typeName != "java.lang.Throwable";
  }

  lemma JniReturnTypePrimitive(p: Primitive)
    ensures JniReturnType(OfClass(PrimitiveClass(p))) == JniPrimitive(p)
  {
    LowerPrimitiveName(p);
    OfPrimitiveClass(p);
    JniPrimitivePrefix(p);
  }

  lemma JniReturnTypePrimitiveArray(p: Primitive)
    ensures JniReturnType(OfClass(ArrayClass(PrimitiveClass(p)))) == JniPrimitive(p) + "Array"
  {
    LowerPrimitiveName(p);
    OfPrimitiveClass(p);
    JniPrimitivePrefix(p);
    var a := OfClass(ArrayClass(PrimitiveClass(p)));
    assert a.isArray && !a.isPrimitive && a.component == Some(OfClass(PrimitiveClass(p)));
  }

  /** `needWrapLocalRef()`: references, not primitives or void, get a `LocalRef`. */
  predicate NeedWrapLocalRef(t: JType)
  {
    !t.isPrimitive && t.kind != VOID
  }

  const LocalRefPrefix: string := "const ::jenny::LocalRef<"
  const LocalRefSuffix: string := ">&"

  /** `toJniTypeString(useJniHelper, byPass)` */
  function JniTypeString(t: JType, useJniHelper: bool, byPass: bool): (r: string)
    ensures r != JniReturnType(t) <==> useJniHelper && NeedWrapLocalRef(t) && !byPass
    ensures r != JniReturnType(t) ==> r == LocalRefPrefix + JniReturnType(t) + LocalRefSuffix
  {
    var jniType := JniReturnType(t);
    if useJniHelper && NeedWrapLocalRef(t) && !byPass then
      assert |LocalRefPrefix + jniType + LocalRefSuffix| > |jniType|;
      LocalRefPrefix + jniType + LocalRefSuffix
    else jniType
  }

  /**
   * `toJniCall()`: the `<Type>` of `Call<Type>Method`. The source title-cases
   * the first letter in the default locale; on the ASCII names here that is
   * the ASCII upper case, which a Turkish locale would not give for 'i'.
   */
  function JniCall(t: JType): (r: string)
  {
    Capitalize(if t.isPrimitive || t.kind == VOID then Lower(t.typeName) else "object")
  }

  /** The JNI function family `Call<Type>Method` for each primitive result. */
  function JniCallName(p: Primitive): string
  {
    match p
    case PBoolean => "Boolean"
    case PByte => "Byte"
    case PShort => "Short"
    case PInt => "Int"
    case PLong => "Long"
    case PFloat => "Float"
    case PDouble => "Double"
    case PChar => "Char"
  }

  lemma CapitalizePrimitiveName(p: Primitive)
    ensures Capitalize(PrimitiveName(p)) == JniCallName(p)
  {
    match p
    case PBoolean => assert Capitalize("boolean") == "Boolean";
    case PByte => assert Capitalize("byte") == "Byte";
    case PShort => assert Capitalize("short") == "Short";
    case PInt => assert Capitalize("int") == "Int";
    case PLong => assert Capitalize("long") == "Long";
    case PFloat => assert Capitalize("float") == "Float";
    case PDouble => assert Capitalize("double") == "Double";
    case PChar => assert Capitalize("char") == "Char";
  }

  /** `toJniCall` names the JNI `Call<Type>Method` that returns the type's value. */
  lemma JniCallTable(p: Primitive, c: JavaClass)
    requires c.OtherClass? || c.ArrayClass?
    ensures JniCall(OfClass(PrimitiveClass(p))) == JniCallName(p)
    ensures JniCall(OfClass(VoidPrimitive)) == "Void"
    ensures JniCall(OfClass(c)) == "Object"
  {
    JniCallPrimitive(p);
    JniCallVoid();
    JniCallObject(c);
  }

  lemma JniCallPrimitive(p: Primitive)
    ensures JniCall(OfClass(PrimitiveClass(p))) == JniCallName(p)
  {
    LowerPrimitiveName(p);
    OfPrimitiveClass(p);
    CapitalizePrimitiveName(p);
  }

  lemma JniCallVoid()
    ensures JniCall(OfClass(VoidPrimitive)) == "Void"
  {
    var t := OfClass(VoidPrimitive);
    assert !t.isPrimitive && t.kind == VOID && t.typeName == "void";
    LowerNoUpper("void");
    assert Capitalize("void") == "Void";
  }

  lemma JniCallObject(c: JavaClass)
    requires c.OtherClass? || c.ArrayClass?
    ensures JniCall(OfClass(c)) == "Object"
  {
    var t := OfClass(c);
    assert !t.isPrimitive && t.kind != VOID;
    assert Capitalize("object") == "Object";
  }

  /**
   * `String.toCamelCase()`: upper-cases a leading lower-case letter. Only
   * ASCII letters are modelled; Unicode title-casing (where 'ß' becomes
   * "Ss") is not.
   */
  function ToCamelCase(s: string): (r: string)
    ensures |r| == |s|
    ensures |s| > 0 ==> r[1..] == s[1..] && (IsLowerAscii(s[0]) ==> IsUpperAscii(r[0])) && (!IsLowerAscii(s[0]) ==> r[0] == s[0])
  {
    Capitalize(s)
  }

  /** The first letter back in lower case: the inverse of `ToCamelCase` on names that start in lower case. */
  function Decapitalize(s: string): (r: string)
  {
    if |s| == 0 then "" else [LowerChar(s[0])] + s[1..]
  }

  /**
   * Character by character, `ToCamelCase` changes only the first character,
   * and that one only from a lower-case letter to its upper-case letter.
   */
  lemma ToCamelCaseCharwise(s: string)
    ensures var r := ToCamelCase(s);
      |r| == |s| && forall i | 0 <= i < |s| ::
        r[i] == (if i == 0 && 'a' <= s[i] <= 'z' then (s[i] as int - 'a' as int + 'A' as int) as char else s[i])
  {
  }

  /** `ToCamelCase` is undone by `Decapitalize` on names that start with a lower-case letter, and is idempotent. */
  lemma ToCamelCaseInverse(s: string)
    ensures |s| > 0 && IsLowerAscii(s[0]) ==> Decapitalize(ToCamelCase(s)) == s
    ensures ToCamelCase(ToCamelCase(s)) == ToCamelCase(s)
  {
    if |s| > 0 {
      var r := ToCamelCase(s);
      assert r == [UpperChar(s[0])] + s[1..];
      assert Decapitalize(r) == [LowerChar(UpperChar(s[0]))] + s[1..];
    }
  }

  // ------------------------------------------------------------ class names

  /** Does `toJniClassName(true)` turn the last '.' of `s` into '$'? */
  predicate MarksNested(s: string, isNested: bool)
  {
    isNested && IndexOf(s, '$') <= LastIndexOf(s, '.') && LastIndexOf(s, '.') != -1
  }

  /** `String.toJniClassName(isNested)` */
  function ToJniClassName(s: string, isNested: bool): (r: string)
    ensures |r| == |s|
    ensures '.' !in r
    ensures forall i | 0 <= i < |s| :: s[i] != '.' ==> r[i] == s[i]
    ensures forall i | 0 <= i < |s| :: s[i] == '.' ==> r[i] == (if MarksNested(s, isNested) && i == LastIndexOf(s, '.') then '$' else '/')
  {
    var replaced := ReplaceChar(s, '.', '/');
    if !isNested then replaced
    else
      var lastDot := LastIndexOf(s, '.');
      var dollar := IndexOf(s, '$');
      if dollar > lastDot then replaced
      else if lastDot != -1 then ReplaceAt(replaced, lastDot, '$')
      else replaced
  }

  /** `t` with the character at `k` replaced by `ch`. */
  function ReplaceAt(t: string, k: nat, ch: char): (r: string)
    requires k < |t|
    ensures |r| == |t| && r[k] == ch
    ensures forall i | 0 <= i < |t| && i != k :: r[i] == t[i]
  {
    t[..k] + [ch] + t[k + 1..]
  }

  /** Converting an already converted name changes nothing: it has no '.' left. */
  lemma ToJniClassNameIdempotent(s: string, a: bool, b: bool)
    ensures ToJniClassName(ToJniClassName(s, a), b) == ToJniClassName(s, a)
  {
    var r := ToJniClassName(s, a);
    assert LastIndexOf(r, '.') == -1;
    assert ReplaceChar(r, '.', '/') == r;
  }

  /** A nested class named with dots gets exactly one '$', where its last '.' was. */
  lemma NestedGetsOneDollar(s: string)
    requires '$' !in s && '.' in s
    ensures Count(ToJniClassName(s, true), '$') == 1
    ensures Count(ToJniClassName(s, false), '$') == 0
  {
    var k := LastIndexOf(s, '.');
    var r := ToJniClassName(s, true);
    var rep := ReplaceChar(s, '.', '/');
    assert '$' !in rep;
    assert r == rep[..k] + "$" + rep[k + 1..];
    assert '$' !in rep[..k] && '$' !in rep[k + 1..];
    CountAppend(rep[..k], "$", '$');
    CountAppend(rep[..k] + "$", rep[k + 1..], '$');
    assert '$' !in ToJniClassName(s, false);
  }
}
