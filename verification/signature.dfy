/**
 * JVM type descriptors (section 4.3.2 and 4.3.3 of the Java Virtual Machine
 * Specification) as `Signature` builds them, in its public form and in the
 * two private copies of the header providers, together with a descriptor
 * parser that states what a descriptor means.
 */
module Descriptors {
  import opened Wrappers
  import opened Text
  import opened Kinds
  import opened Elements

  // ------------------------------------------------------------ the JVM side

  /** A field type of the JVM grammar; `VoidT` stands for the return descriptor `V`. */
  datatype FieldType =
    | BaseT(p: Primitive)
    | VoidT
    | ObjectT(binaryName: string)
    | ArrayT(elem: FieldType)

  /** The BaseType letters of the JVM Specification, table 4.3-A. */
  function Letter(p: Primitive): char
  {
    match p
    case PBoolean => 'Z'
    case PByte => 'B'
    case PShort => 'S'
    case PInt => 'I'
    case PLong => 'J'
    case PFloat => 'F'
    case PDouble => 'D'
    case PChar => 'C'
  }

  function LetterPrimitive(c: char): (r: Option<Primitive>)
    ensures r.Some? ==> Letter(r.value) == c
  {
    if c == 'Z' then Some(PBoolean)
    else if c == 'B' then Some(PByte)
    else if c == 'S' then Some(PShort)
    else if c == 'I' then Some(PInt)
    else if c == 'J' then Some(PLong)
    else if c == 'F' then Some(PFloat)
    else if c == 'D' then Some(PDouble)
    else if c == 'C' then Some(PChar)
    else None
  }

  lemma LetterPrimitiveInverse(p: Primitive)
    ensures LetterPrimitive(Letter(p)) == Some(p)
  {
  }

  /** The descriptor grammar. */
  function Encode(ft: FieldType): (r: string)
    ensures |r| > 0 && r[0] != ')'
  {
    match ft
    case BaseT(p) => [Letter(p)]
    case VoidT => "V"
    case ObjectT(n) => "L" + n + ";"
    case ArrayT(e) => "[" + Encode(e)
  }

  /** Binary class names in descriptors carry no ';'. */
  predicate WellFormed(ft: FieldType)
  {
    match ft
    case ObjectT(n) => ';' !in n
    case ArrayT(e) => WellFormed(e)
    case _ => true
  }

  datatype Parsed = Parsed(ft: FieldType, rest: string)

  /** Reads one field descriptor off the front of `s`. */
  function ParseField(s: string): (r: Option<Parsed>)
    ensures r.Some? ==> |r.value.rest| < |s|
    decreases |s|
  {
    if |s| == 0 then None
    else if s[0] == '[' then
      (match ParseField(s[1..])
       case None => None
       case Some(p) => Some(Parsed(ArrayT(p.ft), p.rest)))
    else if s[0] == 'L' then
      var k := IndexOf(s, ';');
      if k == -1 then None else Some(Parsed(ObjectT(s[1..k]), s[k + 1..]))
    else if s[0] == 'V' then Some(Parsed(VoidT, s[1..]))
    else
      (match LetterPrimitive(s[0])
       case None => None
       case Some(p) => Some(Parsed(BaseT(p), s[1..])))
  }

  /** Parsing reads back exactly the encoded type and leaves what followed it. */
  lemma {:induction false} ParseEncode(ft: FieldType, rest: string)
    requires WellFormed(ft)
    ensures ParseField(Encode(ft) + rest) == Some(Parsed(ft, rest))
  {
    var s := Encode(ft) + rest;
    match ft
    case BaseT(p) =>
      assert s[1..] == rest;
      LetterPrimitiveInverse(p);
    case VoidT =>
      assert s[1..] == rest;
    case ObjectT(n) =>
      assert s == "L" + n + ";" + rest;
      assert s[1 + |n|] == ';';
      assert s[..1 + |n|] == "L" + n;
      assert IndexOf(s, ';') == 1 + |n|;
      assert s[1..1 + |n|] == n;
      assert s[|n| + 2..] == rest;
    case ArrayT(e) =>
      assert s[1..] == Encode(e) + rest;
      ParseEncode(e, rest);
  }

  lemma EncodeInjective(a: FieldType, b: FieldType)
    requires WellFormed(a) && WellFormed(b)
    requires Encode(a) == Encode(b)
    ensures a == b
  {
    ParseEncode(a, "");
    ParseEncode(b, "");
    assert Encode(a) + "" == Encode(b) + "";
  }

  function EncodeAll(ps: seq<FieldType>): (r: string)
  {
    if |ps| == 0 then "" else Encode(ps[0]) + EncodeAll(ps[1..])
  }

  /** A method descriptor: '(' parameter descriptors ')' return descriptor. */
  function MethodDescriptor(ps: seq<FieldType>, ret: FieldType): string
  {
    "(" + EncodeAll(ps) + ")" + Encode(ret)
  }

  datatype ParsedList = ParsedList(fts: seq<FieldType>, rest: string)

  /** Reads parameter descriptors up to and including the closing ')'. */
  function ParseParams(s: string): (r: Option<ParsedList>)
    ensures r.Some? ==> |r.value.rest| < |s|
    decreases |s|
  {
    if |s| == 0 then None
    else if s[0] == ')' then Some(ParsedList([], s[1..]))
    else
      match ParseField(s)
      case None => None
      case Some(p) =>
        (match ParseParams(p.rest)
         case None => None
         case Some(l) => Some(ParsedList([p.ft] + l.fts, l.rest)))
  }

  datatype MethodType = MethodType(params: seq<FieldType>, ret: FieldType)

  /** Reads a whole method descriptor; None unless it is exactly one. */
  function ParseMethod(s: string): Option<MethodType>
  {
    if |s| == 0 || s[0] != '(' then None
    else
      match ParseParams(s[1..])
      case None => None
      case Some(l) =>
        (match ParseField(l.rest)
         case None => None
         case Some(p) => if p.rest == "" then Some(MethodType(l.fts, p.ft)) else None)
  }

  lemma {:induction false} ParseEncodeAll(ps: seq<FieldType>, rest: string)
    requires forall i | 0 <= i < |ps| :: WellFormed(ps[i])
    ensures ParseParams(EncodeAll(ps) + ")" + rest) == Some(ParsedList(ps, rest))
  {
    if |ps| == 0 {
      assert EncodeAll(ps) + ")" + rest == ")" + rest;
      assert (")" + rest)[1..] == rest;
    } else {
      var tail := EncodeAll(ps[1..]) + ")" + rest;
      assert EncodeAll(ps) + ")" + rest == Encode(ps[0]) + tail;
      ParseEncode(ps[0], tail);
      ParseEncodeAll(ps[1..], rest);
      assert [ps[0]] + ps[1..] == ps;
    }
  }

  /** A method descriptor reads back as its parameter and return types. */
  lemma ParseMethodDescriptor(ps: seq<FieldType>, ret: FieldType)
    requires forall i | 0 <= i < |ps| :: WellFormed(ps[i])
    requires WellFormed(ret)
    ensures ParseMethod(MethodDescriptor(ps, ret)) == Some(MethodType(ps, ret))
  {
    var s := MethodDescriptor(ps, ret);
    assert s[1..] == EncodeAll(ps) + ")" + Encode(ret);
    ParseEncodeAll(ps, Encode(ret));
    ParseEncode(ret, "");
    assert Encode(ret) + "" == Encode(ret);
  }

  // ------------------------------------------------------------ Jenny's side

  /** The one-letter codes of `getSignatureClassName`; other kinds are object types. */
  function KindLetter(k: JennyKind): Option<char>
  {
    match k
    case BOOLEAN => Some('Z')
    case BYTE => Some('B')
    case CHAR => Some('C')
    case SHORT => Some('S')
    case INT => Some('I')
    case LONG => Some('J')
    case FLOAT => Some('F')
    case DOUBLE => Some('D')
    case VOID => Some('V')
    case _ => None
  }

  /** Jenny's letter table is the JVM's BaseType table, plus 'V' for void. */
  lemma KindLetterTable(p: Primitive, k: JennyKind)
    ensures KindLetter(PrimitiveKind(p)) == Some(Letter(p))
    ensures KindLetter(VOID) == Some('V')
    ensures k in {ARRAY, NULL, DECLARED, UNKNOWN} <==> KindLetter(k).None?
  {
  }

  /** Where each copy of `Signature` takes an object type's name from. */
  datatype NameRule =
    | NonGenericName   // `getNonGenericType().typeName.substringBefore("<")` (utils/Signature.kt)
    | PlainTypeName    // `typeName` (JennyHeaderDefinitionsProvider)
    | TypeText         // `toString()` (NativeHeaderDefinitions)

  /** The name of an object type in slash form. */
  function ObjectName(t: JType, rule: NameRule): (r: string)
  {
    var n := match rule
      case NonGenericName => SubstringBefore(t.nonGenericName, '<')
      case PlainTypeName => t.typeName
      case TypeText => t.text;
    ReplaceChar(n, '.', '/')
  }

  /** The array depth of a type and its innermost component type. */
  datatype Unwrapped = Unwrapped(depth: nat, inner: JType)

  /** The `while (isArray())` loop; an array without a component type is an error. */
  function Unwrap(t: JType): (r: Result<Unwrapped>)
    ensures r.Success? ==> !r.value.inner.isArray
    ensures r.Success? ==> (r.value.depth == 0 <==> !t.isArray)
    ensures !t.isArray ==> r == Success(Unwrapped(0, t))
  {
    if !t.isArray then Success(Unwrapped(0, t))
    else if t.component.None? then Failure(IllegalState("Array type missing"))
    else
      var u :- Unwrap(t.component.value);
      Success(Unwrapped(u.depth + 1, u.inner))
  }

  function Code(k: JennyKind, name: string): string
  {
    if KindLetter(k).Some? then [KindLetter(k).value] else "L" + name + ";"
  }

  /**
   * `getSignatureClassName` as written: one '[' per array level, then the
   * innermost component's letter, or 'L' + the name of the OUTER type + ';'.
   */
  function TypeDescriptor(t: JType, rule: NameRule): (r: Result<string>)
    ensures r.Success? <==> Unwrap(t).Success?
  {
    var u :- Unwrap(t);
    Success(Repeat('[', u.depth) + Code(u.inner.kind, ObjectName(t, rule)))
  }

  /** The descriptor with the object name taken from the innermost component. */
  function TypeDescriptorFixed(t: JType, rule: NameRule): (r: Result<string>)
  {
    var u :- Unwrap(t);
    Success(Repeat('[', u.depth) + Code(u.inner.kind, ObjectName(u.inner, rule)))
  }

  /** The JVM field type a Jenny type stands for. */
  function FieldTypeOf(t: JType, rule: NameRule): (r: Result<FieldType>)
    ensures r.Success? <==> Unwrap(t).Success?
  {
    if t.isArray then
      if t.component.None? then Failure(IllegalState("Array type missing"))
      else
        var e :- FieldTypeOf(t.component.value, rule);
        Success(ArrayT(e))
    else if t.kind == VOID then Success(VoidT)
    else if KindLetter(t.kind).Some? then Success(BaseT(KindPrimitive(t.kind)))
    else Success(ObjectT(ObjectName(t, rule)))
  }

  function KindPrimitive(k: JennyKind): (p: Primitive)
    requires KindLetter(k).Some? && k != VOID
    ensures PrimitiveKind(p) == k
  {
    match k
    case BOOLEAN => PBoolean
    case BYTE => PByte
    case CHAR => PChar
    case SHORT => PShort
    case INT => PInt
    case LONG => PLong
    case FLOAT => PFloat
    case DOUBLE => PDouble
  }

  /** The corrected descriptor is the JVM encoding of the type's field type. */
  lemma {:induction false} DescriptorFixedEncodes(t: JType, rule: NameRule)
    ensures FieldTypeOf(t, rule).Success? ==>
              TypeDescriptorFixed(t, rule) == Success(Encode(FieldTypeOf(t, rule).value))
  {
    if t.isArray && t.component.Some? {
      DescriptorFixedEncodes(t.component.value, rule);
      if FieldTypeOf(t.component.value, rule).Success? {
        DescriptorArrayStep(t, rule);
      }
    } else if !t.isArray {
      DescriptorLeaf(t, rule);
    }
  }

  lemma DescriptorArrayStep(t: JType, rule: NameRule)
    requires t.isArray && t.component.Some?
    requires FieldTypeOf(t.component.value, rule).Success?
    requires TypeDescriptorFixed(t.component.value, rule) == Success(Encode(FieldTypeOf(t.component.value, rule).value))
    ensures TypeDescriptorFixed(t, rule) == Success(Encode(FieldTypeOf(t, rule).value))
  {
    var c := t.component.value;
    var f := FieldTypeOf(c, rule).value;
    assert FieldTypeOf(t, rule) == Success(ArrayT(f));
    assert Encode(ArrayT(f)) == "[" + Encode(f);
    UnwrapStep(t, rule);
  }

  /** One more array level puts one more '[' in front. */
  lemma UnwrapStep(t: JType, rule: NameRule)
    requires t.isArray && t.component.Some? && Unwrap(t.component.value).Success?
    ensures TypeDescriptorFixed(t, rule).Success? && TypeDescriptorFixed(t.component.value, rule).Success?
    ensures TypeDescriptorFixed(t, rule).value == "[" + TypeDescriptorFixed(t.component.value, rule).value
  {
    var c := t.component.value;
    var u := Unwrap(c).value;
    var code := Code(u.inner.kind, ObjectName(u.inner, rule));
    assert Unwrap(t) == Success(Unwrapped(u.depth + 1, u.inner));
    assert TypeDescriptorFixed(t, rule) == Success(Repeat('[', u.depth + 1) + code);
    assert TypeDescriptorFixed(c, rule) == Success(Repeat('[', u.depth) + code);
    RepeatSucc(u.depth, code);
  }

  lemma RepeatSucc(n: nat, code: string)
    ensures Repeat('[', n + 1) + code == "[" + (Repeat('[', n) + code)
  {
    assert Repeat('[', n + 1) == "[" + Repeat('[', n);
  }

  lemma DescriptorLeaf(t: JType, rule: NameRule)
    requires !t.isArray
    ensures TypeDescriptorFixed(t, rule) == Success(Encode(FieldTypeOf(t, rule).value))
  {
    var code := Code(t.kind, ObjectName(t, rule));
    assert Repeat('[', 0) == "";
    assert TypeDescriptorFixed(t, rule) == Success("" + code);
    assert "" + code == code;
    if t.kind == VOID {
      assert code == "V";
    } else if KindLetter(t.kind).Some? {
      var p := KindPrimitive(t.kind);
      KindLetterTable(p, t.kind);
      assert code == [Letter(p)];
    }
  }

  /**
   * As written and corrected agree except on arrays of object types, where
   * the written form names the array type itself.
   */
  lemma {:induction false} DescriptorAgreesOffObjectArrays(t: JType, rule: NameRule)
    requires Unwrap(t).Success?
    requires Unwrap(t).value.depth == 0 || KindLetter(Unwrap(t).value.inner.kind).Some?
    ensures TypeDescriptor(t, rule) == TypeDescriptorFixed(t, rule)
  {
  }

  /**
   * Off arrays of objects the as-written descriptor is the JVM's: it reads
   * back as the type's field type.
   */
  lemma TypeDescriptorReadsBack(t: JType, rule: NameRule)
    requires NoObjectArray(t)
    requires WellFormed(FieldTypeOf(t, rule).value)
    ensures TypeDescriptor(t, rule).Success?
    ensures ParseField(TypeDescriptor(t, rule).value) == Some(Parsed(FieldTypeOf(t, rule).value, ""))
  {
    var ft := FieldTypeOf(t, rule).value;
    DescriptorAgreesOffObjectArrays(t, rule);
    DescriptorFixedEncodes(t, rule);
    ParseEncode(ft, "");
    assert Encode(ft) + "" == Encode(ft);
  }

  /** `S[]`: a one-dimensional array of a class `S`, as reflection describes it. */
  function SampleObjectArray(): JType
  {
    OfClass(ArrayClass(SampleClass()))
  }

  function SampleClass(): JavaClass
  {
    OtherClass("S")
  }

  function SampleComponent(): JType
  {
    OfClass(SampleClass())
  }

  /**
   * As written, the descriptor of `S[]` is "[LS[];", which reads back as an
   * array of a class named "S[]"; the JVM's descriptor is "[LS;".
   */
  lemma ObjectArrayDescriptorAsWritten()
    ensures TypeDescriptor(SampleObjectArray(), NonGenericName) == Success("[LS[];")
    ensures TypeDescriptorFixed(SampleObjectArray(), NonGenericName) == Success("[LS;")
    ensures FieldTypeOf(SampleObjectArray(), NonGenericName) == Success(ArrayT(ObjectT("S")))
  {
    SampleUnwrap();
    SampleNames();
    SampleCodes();
  }

  lemma SampleUnwrap()
    ensures Unwrap(SampleObjectArray()) == Success(Unwrapped(1, SampleComponent()))
    ensures SampleComponent().kind == DECLARED && !SampleComponent().isArray
    ensures Repeat('[', 1) == "["
  {
    var c := SampleComponent();
    assert c.kind == DECLARED && !c.isArray;
    assert Unwrap(c) == Success(Unwrapped(0, c));
  }

  lemma SampleNames()
    ensures ObjectName(SampleObjectArray(), NonGenericName) == "S[]"
    ensures ObjectName(SampleComponent(), NonGenericName) == "S"
  {
    assert SampleObjectArray().nonGenericName == "S[]";
    assert SampleComponent().nonGenericName == "S";
    assert IndexOf("S[]", '<') == -1;
    assert ReplaceChar("S[]", '.', '/') == "S[]";
    assert IndexOf("S", '<') == -1;
    assert ReplaceChar("S", '.', '/') == "S";
  }

  lemma SampleCodes()
    ensures "[" + Code(DECLARED, "S[]") == "[LS[];"
    ensures "[" + Code(DECLARED, "S") == "[LS;"
  {
  }

  // ------------------------------------------------------------ element signatures

  /** The declaring class's descriptor `Signature.toString` puts first for "<init>". */
  predicate PrependsDeclaring(e: Element)
  {
    e.name == ConstructorName && e.declaring.Some? && e.declaring.value.outer.Some?
    && e.declaring.value.outer.value.isNested
  }

  function ParamDescriptors(ps: seq<Param>, rule: NameRule, fixed: bool): (r: Result<string>)
    ensures r.Success? <==> forall i | 0 <= i < |ps| :: Unwrap(ps[i].ptype).Success?
  {
    if |ps| == 0 then Success("")
    else
      var d :- if fixed then TypeDescriptorFixed(ps[0].ptype, rule) else TypeDescriptor(ps[0].ptype, rule);
      var rest :- ParamDescriptors(ps[1..], rule, fixed);
      Success(d + rest)
  }

  /**
   * `Signature(e).toString()` (and `getBinaryJennyElementSignature`) as
   * written: a method descriptor for executables and "" for anything else.
   */
  function ElementSignature(e: Element): (r: Result<string>)
    ensures !e.IsExecutable() ==> (r.Success? <==> Unwrap(e.etype).Success?) && (r.Success? ==> r.value == "")
    ensures e.IsExecutable() && r.Success? ==> |r.value| >= 3 && r.value[0] == '('
  {
    if e.exec.None? then
      // the field's descriptor is computed, and thrown away
      var _ :- TypeDescriptor(e.etype, NonGenericName);
      Success("")
    else
      var x := e.exec.value;
      var init :- if PrependsDeclaring(e) then TypeDescriptor(e.declaring.value.ctype, NonGenericName) else Success("");
      var ps :- ParamDescriptors(x.params, NonGenericName, false);
      var ret :- TypeDescriptor(x.returnType, NonGenericName);
      Success("(" + init + ps + ")" + ret)
  }

  /** A field's signature comes out empty, though `GetFieldID` is given it. */
  lemma FieldSignatureEmpty(e: Element)
    requires !e.IsExecutable() && Unwrap(e.etype).Success?
    ensures ElementSignature(e) == Success("")
    ensures TypeDescriptorFixed(e.etype, NonGenericName).Success? ==> TypeDescriptorFixed(e.etype, NonGenericName) != Success("")
  {
    var t := e.etype;
    if Unwrap(t).Success? {
      var u := Unwrap(t).value;
      assert |Code(u.inner.kind, ObjectName(u.inner, NonGenericName))| > 0;
    }
  }

  /**
   * `getBinaryJennyElementSignature` as written (a field's comes out empty,
   * and an object array is named after its outermost type), or the
   * corrected descriptor.
   */
  function BinarySignature(e: Element, asWritten: bool): Result<string>
  {
    if asWritten then ElementSignature(e) else ElementSignatureFixed(e)
  }

  /** A type whose as-written and corrected descriptors agree: not an array of an object type. */
  predicate NoObjectArray(t: JType)
  {
    Unwrap(t).Success? && (Unwrap(t).value.depth == 0 || KindLetter(Unwrap(t).value.inner.kind).Some?)
  }

  lemma {:induction false} ParamDescriptorsAgree(ps: seq<Param>, rule: NameRule)
    requires forall i | 0 <= i < |ps| :: NoObjectArray(ps[i].ptype)
    ensures ParamDescriptors(ps, rule, false) == ParamDescriptors(ps, rule, true)
  {
    if |ps| > 0 {
      DescriptorAgreesOffObjectArrays(ps[0].ptype, rule);
      ParamDescriptorsAgree(ps[1..], rule);
    }
  }

  /**
   * An executable none of whose types is an array of objects gets the same
   * signature as written and corrected.
   */
  lemma SignatureAgreesOffObjectArrays(e: Element)
    requires e.IsExecutable()
    requires forall i | 0 <= i < |e.exec.value.params| :: NoObjectArray(e.exec.value.params[i].ptype)
    requires NoObjectArray(e.exec.value.returnType)
    requires PrependsDeclaring(e) ==> NoObjectArray(e.declaring.value.ctype)
    ensures ElementSignature(e) == ElementSignatureFixed(e)
  {
    ParamDescriptorsAgree(e.exec.value.params, NonGenericName);
    DescriptorAgreesOffObjectArrays(e.exec.value.returnType, NonGenericName);
    if PrependsDeclaring(e) {
      DescriptorAgreesOffObjectArrays(e.declaring.value.ctype, NonGenericName);
    }
  }

  /**
   * A method of one parameter whose two descriptors differ, such as `S[]`
   * in `native void f(S[] a)` ("[LS[];" as written, "[LS;" corrected, by
   * `ObjectArrayDescriptorAsWritten`), gets two different signatures.
   */
  lemma ObjectArrayParamSignature(e: Element)
    requires e.IsExecutable() && !PrependsDeclaring(e)
    requires |e.exec.value.params| == 1 && !e.exec.value.returnType.isArray
    requires TypeDescriptor(e.exec.value.params[0].ptype, NonGenericName).Success?
    requires TypeDescriptor(e.exec.value.params[0].ptype, NonGenericName) != TypeDescriptorFixed(e.exec.value.params[0].ptype, NonGenericName)
    ensures ElementSignature(e).Success? && ElementSignatureFixed(e).Success?
    ensures ElementSignature(e) != ElementSignatureFixed(e)
  {
    var ps := e.exec.value.params;
    var t := e.exec.value.returnType;
    var pa := TypeDescriptor(ps[0].ptype, NonGenericName).value;
    var pf := TypeDescriptorFixed(ps[0].ptype, NonGenericName).value;
    OneParamDescriptor(ps, NonGenericName, false, pa);
    OneParamDescriptor(ps, NonGenericName, true, pf);
    DescriptorAgreesOffObjectArrays(t, NonGenericName);
    AssembledSignatures(e, pa, pf, TypeDescriptor(t, NonGenericName).value);
  }

  lemma AssembledSignatures(e: Element, pa: string, pf: string, ret: string)
    requires e.IsExecutable() && !PrependsDeclaring(e)
    requires ParamDescriptors(e.exec.value.params, NonGenericName, false) == Success(pa)
    requires ParamDescriptors(e.exec.value.params, NonGenericName, true) == Success(pf)
    requires TypeDescriptor(e.exec.value.returnType, NonGenericName) == Success(ret)
    requires TypeDescriptorFixed(e.exec.value.returnType, NonGenericName) == Success(ret)
    requires pa != pf
    ensures ElementSignature(e) == Success("(" + pa + ")" + ret)
    ensures ElementSignatureFixed(e) == Success("(" + pf + ")" + ret)
    ensures ElementSignature(e) != ElementSignatureFixed(e)
  {
    assert ElementSignature(e) == Success("(" + "" + pa + ")" + ret);
    assert ElementSignatureFixed(e) == Success("(" + "" + pf + ")" + ret);
    DescriptorsDiffer(pa, pf, ret);
  }

  lemma OneParamDescriptor(ps: seq<Param>, rule: NameRule, fixed: bool, d: string)
    requires |ps| == 1
    requires (if fixed then TypeDescriptorFixed(ps[0].ptype, rule) else TypeDescriptor(ps[0].ptype, rule)) == Success(d)
    ensures ParamDescriptors(ps, rule, fixed) == Success(d)
  {
    assert ParamDescriptors(ps[1..], rule, fixed) == Success("");
    assert d + "" == d;
  }

  /** Different parameter descriptors make different signatures. */
  lemma DescriptorsDiffer(x: string, y: string, ret: string)
    requires x != y
    ensures "(" + "" + x + ")" + ret == "(" + x + ")" + ret
    ensures "(" + "" + y + ")" + ret == "(" + y + ")" + ret
    ensures "(" + x + ")" + ret != "(" + y + ")" + ret
  {
    var a := "(" + x + ")" + ret;
    var b := "(" + y + ")" + ret;
    if |x| == |y| {
      assert a[1..1 + |x|] == x && b[1..1 + |y|] == y;
    } else {
      assert |a| != |b|;
    }
  }

  /** The field types `Signature` lists for an executable. */
  function ParamTypes(e: Element, rule: NameRule): (r: Result<seq<FieldType>>)
    requires e.IsExecutable()
  {
    var init :- if PrependsDeclaring(e) then
                  (var d :- FieldTypeOf(e.declaring.value.ctype, rule); Success([d]))
                else Success([]);
    var ps :- FieldTypesOf(e.exec.value.params, rule);
    Success(init + ps)
  }

  function FieldTypesOf(ps: seq<Param>, rule: NameRule): (r: Result<seq<FieldType>>)
    ensures r.Success? ==> |r.value| == |ps|
  {
    if |ps| == 0 then Success([])
    else
      var d :- FieldTypeOf(ps[0].ptype, rule);
      var rest :- FieldTypesOf(ps[1..], rule);
      Success([d] + rest)
  }

  /** `Signature.toString` with a field's descriptor and innermost object names. */
  function ElementSignatureFixed(e: Element): (r: Result<string>)
  {
    if e.exec.None? then TypeDescriptorFixed(e.etype, NonGenericName)
    else
      var x := e.exec.value;
      var init :- if PrependsDeclaring(e) then TypeDescriptorFixed(e.declaring.value.ctype, NonGenericName) else Success("");
      var ps :- ParamDescriptors(x.params, NonGenericName, true);
      var ret :- TypeDescriptorFixed(x.returnType, NonGenericName);
      Success("(" + init + ps + ")" + ret)
  }

  lemma {:induction false} ParamDescriptorsEncode(ps: seq<Param>, rule: NameRule)
    requires FieldTypesOf(ps, rule).Success?
    ensures ParamDescriptors(ps, rule, true) == Success(EncodeAll(FieldTypesOf(ps, rule).value))
  {
    if |ps| > 0 {
      DescriptorFixedEncodes(ps[0].ptype, rule);
      ParamDescriptorsEncode(ps[1..], rule);
      var fts := FieldTypesOf(ps, rule).value;
      assert fts[1..] == FieldTypesOf(ps[1..], rule).value;
    }
  }

  lemma EncodeAllAppend(a: seq<FieldType>, b: seq<FieldType>)
    ensures EncodeAll(a + b) == EncodeAll(a) + EncodeAll(b)
  {
    if |a| > 0 {
      assert (a + b)[1..] == a[1..] + b;
      EncodeAllAppend(a[1..], b);
    } else {
      assert a + b == b;
    }
  }

  /** Class names without ';', as Java binary names are. */
  predicate NamesWellFormed(fts: seq<FieldType>)
  {
    forall i | 0 <= i < |fts| :: WellFormed(fts[i])
  }

  /**
   * The corrected signature of a method or constructor is the JVM method
   * descriptor of its parameter and return types: it reads back as them.
   */
  lemma ElementSignatureFixedMeaning(e: Element)
    requires e.IsExecutable()
    requires ParamTypes(e, NonGenericName).Success?
    requires FieldTypeOf(e.exec.value.returnType, NonGenericName).Success?
    requires NamesWellFormed(ParamTypes(e, NonGenericName).value)
    requires WellFormed(FieldTypeOf(e.exec.value.returnType, NonGenericName).value)
    ensures ElementSignatureFixed(e).Success?
    ensures ParseMethod(ElementSignatureFixed(e).value)
         == Some(MethodType(ParamTypes(e, NonGenericName).value, FieldTypeOf(e.exec.value.returnType, NonGenericName).value))
  {
    SignatureFixedShape(e);
    ParseMethodDescriptor(ParamTypes(e, NonGenericName).value, FieldTypeOf(e.exec.value.returnType, NonGenericName).value);
  }

  lemma SignatureFixedShape(e: Element)
    requires e.IsExecutable()
    requires ParamTypes(e, NonGenericName).Success?
    requires FieldTypeOf(e.exec.value.returnType, NonGenericName).Success?
    ensures ElementSignatureFixed(e)
         == Success(MethodDescriptor(ParamTypes(e, NonGenericName).value, FieldTypeOf(e.exec.value.returnType, NonGenericName).value))
  {
    var x := e.exec.value;
    var rule := NonGenericName;
    var ret := FieldTypeOf(x.returnType, rule).value;
    ParamDescriptorsEncode(x.params, rule);
    DescriptorFixedEncodes(x.returnType, rule);
    var ps := FieldTypesOf(x.params, rule).value;
    var init := InitTypes(e, rule);
    assert ParamTypes(e, rule) == Success(init + ps);
    if PrependsDeclaring(e) {
      DescriptorFixedEncodes(e.declaring.value.ctype, rule);
    }
    SignatureFixedParts(e, EncodeAll(init), EncodeAll(ps), Encode(ret));
    AssembleAppend(init, ps, ret);
  }

  lemma SignatureFixedParts(e: Element, i: string, p: string, r: string)
    requires e.IsExecutable()
    requires (if PrependsDeclaring(e) then TypeDescriptorFixed(e.declaring.value.ctype, NonGenericName) else Success("")) == Success(i)
    requires ParamDescriptors(e.exec.value.params, NonGenericName, true) == Success(p)
    requires TypeDescriptorFixed(e.exec.value.returnType, NonGenericName) == Success(r)
    ensures ElementSignatureFixed(e) == Success("(" + i + p + ")" + r)
  {
  }

  lemma AssembleAppend(init: seq<FieldType>, ps: seq<FieldType>, ret: FieldType)
    ensures "(" + EncodeAll(init) + EncodeAll(ps) + ")" + Encode(ret) == MethodDescriptor(init + ps, ret)
  {
    EncodeAllAppend(init, ps);
    assert "(" + EncodeAll(init) + EncodeAll(ps) == "(" + EncodeAll(init + ps);
  }

  /** The declaring class's field type, when `Signature` puts it first. */
  function InitTypes(e: Element, rule: NameRule): (r: seq<FieldType>)
    requires e.IsExecutable() && ParamTypes(e, rule).Success?
    ensures PrependsDeclaring(e) ==> FieldTypeOf(e.declaring.value.ctype, rule).Success? && r == [FieldTypeOf(e.declaring.value.ctype, rule).value]
    ensures !PrependsDeclaring(e) ==> r == []
    ensures EncodeAll(r) == (if PrependsDeclaring(e) then Encode(FieldTypeOf(e.declaring.value.ctype, rule).value) else "")
  {
    if PrependsDeclaring(e) then
      var d := FieldTypeOf(e.declaring.value.ctype, rule).value;
      assert EncodeAll([d]) == Encode(d) + EncodeAll([]);
      [d]
    else []
  }

  /** The corrected signature of a field is its type's descriptor: it reads back as it. */
  lemma FieldSignatureFixedMeaning(e: Element)
    requires !e.IsExecutable()
    requires FieldTypeOf(e.etype, NonGenericName).Success?
    requires WellFormed(FieldTypeOf(e.etype, NonGenericName).value)
    ensures ElementSignatureFixed(e).Success?
    ensures ParseField(ElementSignatureFixed(e).value) == Some(Parsed(FieldTypeOf(e.etype, NonGenericName).value, ""))
  {
    var ft := FieldTypeOf(e.etype, NonGenericName).value;
    DescriptorFixedEncodes(e.etype, NonGenericName);
    ParseEncode(ft, "");
    assert Encode(ft) + "" == Encode(ft);
  }

  // ------------------------------------------------------------ the private copies

  /**
   * The private `Signature` of the header providers: the executable's
   * descriptor, where "<init>" casts the declaring class's declaring class
   * with no null check.
   */
  function PrivateSignature(e: Element, rule: NameRule): (r: Result<string>)
    requires e.IsExecutable()
    ensures e.name == ConstructorName && (e.declaring.None? || e.declaring.value.outer.None?) ==> r == Failure(NullCast)
    ensures e.name != ConstructorName ==> r == ParamsAndReturn(e, rule, "")
  {
    var x := e.exec.value;
    if e.name == ConstructorName then
      if e.declaring.None? || e.declaring.value.outer.None? then Failure(NullCast)
      else
        var init :- if e.declaring.value.outer.value.isNested then TypeDescriptor(e.declaring.value.ctype, rule) else Success("");
        ParamsAndReturn(e, rule, init)
    else ParamsAndReturn(e, rule, "")
  }

  function ParamsAndReturn(e: Element, rule: NameRule, init: string): Result<string>
    requires e.IsExecutable()
  {
    var ps :- ParamDescriptors(e.exec.value.params, rule, false);
    var ret :- TypeDescriptor(e.exec.value.returnType, rule);
    Success("(" + init + ps + ")" + ret)
  }

  /** The public `Signature` and its private copies agree on methods whose types are named alike. */
  lemma PrivateAgreesOnMethods(e: Element)
    requires e.IsExecutable() && e.name != ConstructorName
    ensures PrivateSignature(e, NonGenericName) == ElementSignature(e)
  {
  }
}
