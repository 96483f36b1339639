/**
 * The naming and decision rules of `utils/JennyHeaderDefinitionsProvider.kt`:
 * the stub return of a generated native method, the JNI symbol of a native
 * method, the postfix that tells overloads apart, the getter/setter
 * selection for fields, the private ID-name helpers, and the table of
 * `JNINativeMethod` entries with its `registerNativeFunctions` wrapper.
 */
module HeaderDefs {
  import opened Wrappers
  import opened Text
  import opened Kinds
  import opened Elements
  import opened Ext
  import opened Jni
  import opened Names
  import opened Descriptors
  import opened ClassInfos
  import opened Lines

  // ------------------------------------------------------------ stub return

  /** The kinds whose JNI zero is the literal `0`. */
  predicate IsNumericKind(k: JennyKind)
  {
    k in {INT, LONG, SHORT, BYTE, FLOAT, DOUBLE, CHAR}
  }

  /** `getReturnStatement`: the statement a generated stub returns with. */
  function ReturnStatement(t: JType): (r: string)
    ensures r == "" <==> t.kind == VOID
    ensures t.kind == BOOLEAN ==> r == "return JNI_FALSE;"
    ensures IsNumericKind(t.kind) ==> r == "return 0;"
    ensures t.kind != VOID && t.kind != BOOLEAN && !IsNumericKind(t.kind) ==> r == "return nullptr;"
  {
    if t.kind == VOID then ""
    else "return " + (if t.kind == BOOLEAN then "JNI_FALSE" else if IsNumericKind(t.kind) then "0" else "nullptr") + ";"
  }

  /** A type whose flags agree with its kind, as every `JennyType` implementation keeps them. */
  predicate Consistent(t: JType)
  {
    (t.isPrimitive <==> IsPrimitiveKind(t.kind)) && (t.isArray <==> t.kind == ARRAY)
  }

  /**
   * The stub's value fits the JNI type the stub is declared to return: no
   * value for `void`, `nullptr` exactly for the reference types that a
   * `LocalRef` would wrap, and a zero for every primitive.
   */
  lemma ReturnStatementFitsJniType(t: JType)
    requires Consistent(t)
    ensures ReturnStatement(t) == "" <==> JniReturnType(t) == "void"
    ensures ReturnStatement(t) == "return nullptr;" <==> NeedWrapLocalRef(t)
    ensures t.isPrimitive ==> ReturnStatement(t) in {"return JNI_FALSE;", "return 0;"}
  {
    if t.kind == VOID {
      assert JniReturnType(t) == "void";
    } else {
      var r := JniReturnType(t);
      assert |r| > 0 && r[0] == 'j';
      assert "void"[0] == 'v';
    }
  }

  // ------------------------------------------------------------ native symbol

  /** `getNativeMethodName`: "Java_" + the class's JNI name + "_" + the mangled method name. */
  function NativeMethodName(jniClassName: string, m: Element): (r: string)
    ensures |r| > 5 + |jniClassName| && r[..5] == "Java_" && r[5..5 + |jniClassName|] == jniClassName
    ensures r[5 + |jniClassName|] == '_'
    ensures forall i | 6 + |jniClassName| <= i < |r| :: IsWordChar(r[i])
  {
    var tail := MangleMethodAsWritten(m.name);
    var r := "Java_" + jniClassName + "_" + tail;
    assert r[6 + |jniClassName|..] == tail;
    r
  }

  /** With the JNI name `extractClassInfo` derives, the name is the as-written JNI symbol of the class and method. */
  lemma NativeMethodNameIsSymbol(simpleName: string, fullName: string, m: Element)
    ensures NativeMethodName(ExtractClassInfo(simpleName, fullName).jniClassName, m) == NativeSymbolAsWritten(fullName, m.name)
  {
  }

  /**
   * For names of the Basic Multilingual Plane the name is the symbol JNI
   * looks up, and two native methods get the same symbol only when they
   * have the same name in the same class.
   */
  lemma NativeMethodNamesDistinct(simpleName: string, fullName: string, m1: Element, full2: string, m2: Element)
    requires BmpOnly(fullName) && BmpOnly(full2) && BmpOnly(m1.name) && BmpOnly(m2.name)
    requires WellFormedClassName(fullName) && WellFormedClassName(full2)
    requires WellFormedMethodName(m1.name) && WellFormedMethodName(m2.name)
    requires NativeMethodName(ExtractClassInfo(simpleName, fullName).jniClassName, m1)
          == NativeMethodName(ExtractClassInfo(simpleName, full2).jniClassName, m2)
    ensures m1.name == m2.name
    ensures SlashName(fullName) == SlashName(full2)
  {
    NativeSymbolAgreesOnBmp(fullName, m1.name);
    NativeSymbolAgreesOnBmp(full2, m2.name);
    NativeSymbolInjective(fullName, m1.name, full2, m2.name);
  }

  // ------------------------------------------------------------ overload postfix

  /** The rewriting of the parameter descriptors, in the order the source applies it. */
  function PostfixMangle(paramSig: string): (r: string)
    ensures forall i | 0 <= i < |r| :: IsWordChar(r[i])
  {
    StripNonAscii(ReplaceBy(ReplaceBy(ReplaceBy(paramSig, '_', "_1"), '/', "_"), ';', "_2"))
  }

  /**
   * `getMethodOverloadPostfix`: "__" + the rewritten text between the first
   * '(' and the first ')' of the method's descriptor.
   */
  function MethodOverloadPostfix(m: Element): (r: Result<string>)
    requires m.IsExecutable()
    ensures PrivateSignature(m, PlainTypeName).Failure? ==> r == Failure(PrivateSignature(m, PlainTypeName).error)
    ensures PrivateSignature(m, PlainTypeName).Success? ==> r.Success?
    ensures r.Success? ==> |r.value| >= 2 && r.value[..2] == "__"
    ensures r.Success? ==> forall i | 2 <= i < |r.value| :: IsWordChar(r.value[i])
  {
    var sig :- PrivateSignature(m, PlainTypeName);
    PrivateSignatureParens(m);
    var open := IndexOf(sig, '(') + 1;
    var close := IndexOf(sig, ')');
    if !(0 <= open <= close <= |sig|) then Failure(IndexOutOfBounds)
    else
      var r := "__" + PostfixMangle(sig[open..close]);
      assert r[2..] == PostfixMangle(sig[open..close]);
      Success(r)
  }

  /** A method descriptor opens with '(' and has a ')'. */
  lemma PrivateSignatureParens(m: Element)
    requires m.IsExecutable() && PrivateSignature(m, PlainTypeName).Success?
    ensures var sig := PrivateSignature(m, PlainTypeName).value;
      |sig| >= 2 && sig[0] == '(' && ')' in sig
  {
    var x := m.exec.value;
    var init := if m.name == ConstructorName && m.declaring.value.outer.value.isNested
                then TypeDescriptor(m.declaring.value.ctype, PlainTypeName).value else "";
    var ps := ParamDescriptors(x.params, PlainTypeName, false).value;
    var ret := TypeDescriptor(x.returnType, PlainTypeName).value;
    var sig := "(" + init + ps + ")" + ret;
    assert PrivateSignature(m, PlainTypeName).value == sig;
    assert sig[1 + |init| + |ps|] == ')';
  }

  /**
   * The postfix is "__" + the rewritten parameter descriptors: the text
   * between the parentheses, as long as no type name put a ')' into it.
   */
  lemma PostfixOfDescriptor(m: Element, ps: string)
    requires m.IsExecutable() && m.name != ConstructorName
    requires ParamDescriptors(m.Params(), PlainTypeName, false) == Success(ps) && ')' !in ps
    requires TypeDescriptor(m.exec.value.returnType, PlainTypeName).Success?
    ensures MethodOverloadPostfix(m) == Success("__" + PostfixMangle(ps))
  {
    var ret := TypeDescriptor(m.exec.value.returnType, PlainTypeName).value;
    MethodSignatureIs(m, ps, ret);
    ParenContents(ps, ret);
    PostfixFromSignature(m, "(" + ps + ")" + ret, ps);
  }

  lemma MethodSignatureIs(m: Element, ps: string, ret: string)
    requires m.IsExecutable() && m.name != ConstructorName
    requires ParamDescriptors(m.Params(), PlainTypeName, false) == Success(ps)
    requires TypeDescriptor(m.exec.value.returnType, PlainTypeName) == Success(ret)
    ensures PrivateSignature(m, PlainTypeName) == Success("(" + ps + ")" + ret)
  {
    assert "(" + "" + ps == "(" + ps;
  }

  lemma PostfixFromSignature(m: Element, sig: string, ps: string)
    requires m.IsExecutable() && PrivateSignature(m, PlainTypeName) == Success(sig)
    requires IndexOf(sig, '(') == 0 && IndexOf(sig, ')') == 1 + |ps| && sig[1..1 + |ps|] == ps
    ensures MethodOverloadPostfix(m) == Success("__" + PostfixMangle(ps))
  {
    assert sig[IndexOf(sig, '(') + 1..IndexOf(sig, ')')] == ps;
  }

  /** In "(" + ps + ")" + ret, the first ')' closes `ps` when `ps` has none. */
  lemma ParenContents(ps: string, ret: string)
    requires ')' !in ps
    ensures var sig := "(" + ps + ")" + ret;
      IndexOf(sig, '(') == 0 && IndexOf(sig, ')') == 1 + |ps| && sig[1..1 + |ps|] == ps
  {
    var sig := "(" + ps + ")" + ret;
    forall j | 0 <= j < 1 + |ps| ensures sig[j] != ')' {
      if j > 0 {
        assert sig[j] == ps[j - 1];
      }
    }
    IndexOfFirst(sig, ')', 1 + |ps|);
  }

  lemma {:induction false} IndexOfFirst(s: string, c: char, k: nat)
    requires k < |s| && s[k] == c && forall j | 0 <= j < k :: s[j] != c
    ensures IndexOf(s, c) == k
  {
    if k > 0 {
      IndexOfFirst(s[1..], c, k - 1);
    }
  }

  /** The one-letter codes of a parameter list of primitive (or void) types. */
  function ParamLetters(ps: seq<Param>): (r: string)
    requires forall i | 0 <= i < |ps| :: KindLetter(ps[i].ptype.kind).Some?
    ensures |r| == |ps|
    ensures forall i | 0 <= i < |ps| :: r[i] == KindLetter(ps[i].ptype.kind).value
  {
    if |ps| == 0 then "" else [KindLetter(ps[0].ptype.kind).value] + ParamLetters(ps[1..])
  }

  lemma {:induction false} LetterDescriptors(ps: seq<Param>)
    requires forall i | 0 <= i < |ps| :: KindLetter(ps[i].ptype.kind).Some? && !ps[i].ptype.isArray
    ensures ParamDescriptors(ps, PlainTypeName, false) == Success(ParamLetters(ps))
  {
    if |ps| > 0 {
      var t := ps[0].ptype;
      assert Unwrap(t) == Success(Unwrapped(0, t));
      assert Repeat('[', 0) == "";
      assert Code(t.kind, ObjectName(t, PlainTypeName)) == [KindLetter(t.kind).value];
      assert "" + [KindLetter(t.kind).value] == [KindLetter(t.kind).value];
      assert TypeDescriptor(t, PlainTypeName) == Success([KindLetter(t.kind).value]);
      LetterDescriptors(ps[1..]);
    }
  }

  /** Every descriptor letter is an upper-case ASCII letter. */
  lemma KindLettersUpper(k: JennyKind)
    requires KindLetter(k).Some?
    ensures IsUpperAscii(KindLetter(k).value)
  {
  }

  /**
   * For parameters of primitive types the postfix is "__" followed by their
   * descriptor letters: `f(int, long)` gets "__IJ".
   */
  lemma PostfixOfPrimitiveParams(m: Element)
    requires m.IsExecutable() && m.name != ConstructorName
    requires forall i | 0 <= i < |m.Params()| :: KindLetter(m.Params()[i].ptype.kind).Some? && !m.Params()[i].ptype.isArray
    requires TypeDescriptor(m.exec.value.returnType, PlainTypeName).Success?
    ensures MethodOverloadPostfix(m) == Success("__" + ParamLetters(m.Params()))
  {
    var ls := ParamLetters(m.Params());
    LetterDescriptors(m.Params());
    forall i | 0 <= i < |ls| ensures IsUpperAscii(ls[i]) {
      KindLettersUpper(m.Params()[i].ptype.kind);
    }
    assert ')' !in ls && '_' !in ls && '/' !in ls && ';' !in ls;
    PostfixOfDescriptor(m, ls);
    assert ReplaceBy(ReplaceBy(ReplaceBy(ls, '_', "_1"), '/', "_"), ';', "_2") == ls;
    assert StripNonAscii(ls) == ls;
  }

  /** `int[]`, as a `JennyType` gives it. */
  function IntArrayType(): JType
  {
    var i := JType(INT, "int", true, false, None, "int", "int");
    JType(ARRAY, "int[]", false, true, Some(i), "int[]", "int[]")
  }

  lemma Hex5b()
    ensures Hex5(0x5b) == ['0', '0', '0', '5', 'b']
  {
    assert Digits(0x5, 16) == ['5'];
    assert Digits(0x5b, 16) == ['5', 'b'];
    assert Repeat('0', 3) == ['0', '0', '0'];
  }

  /**
   * An array parameter's '[' passes through `stripNonASCII` and comes out
   * as "_0005b", where the JNI's overloaded native names write "_3":
   * `f(int[])` gets "___0005bI", not "___3I".
   */
  lemma PostfixEscapesArrayBracket(m: Element)
    requires m.IsExecutable() && m.name != ConstructorName
    requires m.Params() == [Param("a", IntArrayType())]
    requires TypeDescriptor(m.exec.value.returnType, PlainTypeName).Success?
    ensures MethodOverloadPostfix(m) == Success("__" + "_0005bI")
  {
    IntArrayDescriptor();
    OneParamDescriptor([Param("a", IntArrayType())], PlainTypeName, false, "[I");
    assert ')' !in "[I";
    PostfixOfDescriptor(m, "[I");
    MangleBracketI();
  }

  lemma IntArrayDescriptor()
    ensures TypeDescriptor(IntArrayType(), PlainTypeName) == Success("[I")
  {
    var t := IntArrayType();
    assert Unwrap(t.component.value) == Success(Unwrapped(0, t.component.value));
    assert Unwrap(t) == Success(Unwrapped(1, t.component.value));
    assert Repeat('[', 1) == "[";
    assert Code(INT, ObjectName(t, PlainTypeName)) == "I";
    assert Repeat('[', 1) + Code(INT, ObjectName(t, PlainTypeName)) == "[I";
  }

  lemma MangleBracketI()
    ensures PostfixMangle("[I") == "_0005bI"
  {
    assert ReplaceBy(ReplaceBy(ReplaceBy("[I", '_', "_1"), '/', "_"), ';', "_2") == "[I";
    StripBracketI();
  }

  lemma StripBracketI()
    ensures StripNonAscii("[I") == "_0005bI"
  {
    Hex5b();
    assert StripNonAscii("I") == "I";
    assert "[I"[1..] == "I";
    assert StripNonAscii("[I") == "_" + Hex5('[' as int) + StripNonAscii("I");
  }

  // ------------------------------------------------------------ accessors

  /** The members `GetterSetter` names. */
  datatype Accessor = Getter | Setter

  /** The names of all methods of the class, as `allMethods.map { it.name }.toSet()`. */
  function MethodNames(ms: seq<Element>): (r: set<string>)
    ensures forall n :: n in r <==> exists i | 0 <= i < |ms| :: ms[i].name == n
  {
    set i | 0 <= i < |ms| :: ms[i].name
  }

  /** `shouldAddGetter`: no `get<Camel>`, and no `is<Camel>` for a `jboolean`. */
  predicate ShouldAddGetter(methodNames: set<string>, camel: string, jniType: string)
  {
    "get" + camel !in methodNames && !(jniType == "jboolean" && "is" + camel in methodNames)
  }

  /** `shouldAddSetter`: no `set<Camel>`. */
  predicate ShouldAddSetter(methodNames: set<string>, camel: string)
  {
    "set" + camel !in methodNames
  }

  /** `addAutoGeneratedAccessors` */
  function AutoAccessors(methodNames: set<string>, field: Element): (r: set<Accessor>)
  {
    var camel := ToCamelCase(field.name);
    (if ShouldAddGetter(methodNames, camel, JniReturnType(field.etype)) then {Getter} else {})
    + (if ShouldAddSetter(methodNames, camel) then {Setter} else {})
  }

  /**
   * `hasGetterSetter`: a constant gets no accessor; with `allFields` the
   * accessors the class does not already declare; otherwise the requested ones.
   */
  function HasGetterSetter(field: Element, allMethods: seq<Element>, generateGetter: bool, generateSetter: bool, allFields: bool): (r: set<Accessor>)
    ensures IsConstant(field) ==> r == {}
    ensures !IsConstant(field) && !allFields ==> (Getter in r <==> generateGetter) && (Setter in r <==> generateSetter)
  {
    if IsConstant(field) then {}
    else if allFields then AutoAccessors(MethodNames(allMethods), field)
    else (if generateGetter then {Getter} else {}) + (if generateSetter then {Setter} else {})
  }

  /**
   * With `allFields`, a non-constant field gets a getter exactly when no
   * method of the class is called `get<Camel>` (nor `is<Camel>` for a
   * `jboolean` field), and a setter exactly when none is called `set<Camel>`:
   * a generated accessor never clashes with a declared method.
   */
  lemma AutoAccessorsAvoidDeclared(field: Element, allMethods: seq<Element>, g: bool, s: bool)
    requires !IsConstant(field)
    ensures var r := HasGetterSetter(field, allMethods, g, s, true);
      var camel := ToCamelCase(field.name);
      (Getter in r <==> forall i | 0 <= i < |allMethods| ::
          allMethods[i].name != "get" + camel
          && (JniReturnType(field.etype) == "jboolean" ==> allMethods[i].name != "is" + camel))
      && (Setter in r <==> forall i | 0 <= i < |allMethods| :: allMethods[i].name != "set" + camel)
  {
  }

  // ------------------------------------------------------------ ID names

  /** The private `getMethodName(method, index)`. */
  function MethodIdName(m: Element, index: nat): string
  {
    "sMethod_" + m.name + "_" + NatToString(index)
  }

  /** The private `getFieldName(e, index)`. */
  function FieldIdName(e: Element, index: nat): string
  {
    "sField_" + e.name + "_" + NatToString(index)
  }

  /** The private ID-name helpers agree with `JennyNameProvider` on methods and on fields. */
  lemma PrivateIdNamesAgree(e: Element, index: nat)
    ensures e.IsExecutable() ==> MethodIdName(e, index) == ElementName(e, index)
    ensures !e.IsExecutable() ==> FieldIdName(e, index) == ElementName(e, index)
  {
  }

  // ------------------------------------------------------------ registration

  const EntryName: string := "/* method name      */ jenny_u8cast(u8\""
  const EntrySignature: string := "/* method signature */ jenny_u8cast(u8\""
  const EntryPointer: string := "/* function pointer */ reinterpret_cast<void *>("
  const EntryEnd: string := "\"),"

  /** One `JNINativeMethod` initialiser; all but the last entry are followed by ",". */
  function NativeEntry(name: string, sig: string, last: bool): (r: seq<Piece>)
    ensures |r| == 5 && Balanced(r)
    ensures r[4] == C(7, if last then "" else ",")
  {
    var r := [
      O(7, ""),
      L(11, EntryName + name + EntryEnd),
      L(11, EntrySignature + sig + EntryEnd),
      L(11, EntryPointer + name + ")"),
      C(7, if last then "" else ",")];
    var ds: seq<nat> := [0, 1, 1, 1, 1, 0];
    forall i | 0 <= i < |r| ensures Step(r[i], ds[i]) == Some(ds[i + 1]) { }
    WalkTrace(r, ds);
    r
  }

  /** The entries of the table, one per method in order. */
  function NativeEntries(names: seq<string>, sigs: seq<string>): (r: seq<Piece>)
    requires |names| == |sigs|
    ensures |r| == 5 * |names|
  {
    if |names| == 0 then []
    else NativeEntry(names[0], sigs[0], |names| == 1) + NativeEntries(names[1..], sigs[1..])
  }

  /**
   * Entry `k` of the table is the initialiser of method `k`, and it is
   * followed by "," exactly when it is not the last.
   */
  lemma NativeEntriesInOrder(names: seq<string>, sigs: seq<string>, k: nat)
    requires |names| == |sigs| && k < |names|
    ensures NativeEntries(names, sigs)[5 * k..5 * k + 5] == NativeEntry(names[k], sigs[k], k == |names| - 1)
    ensures NativeEntries(names, sigs)[5 * k + 4] == C(7, if k < |names| - 1 then "," else "")
  {
    NativeEntryAt(names, sigs, k);
    assert NativeEntries(names, sigs)[5 * k + 4] == NativeEntries(names, sigs)[5 * k..5 * k + 5][4];
  }

  /** Entry `k` of the table sits at lines `5 * k` up to `5 * k + 5`. */
  lemma {:induction false} NativeEntryAt(names: seq<string>, sigs: seq<string>, k: nat)
    requires |names| == |sigs| && k < |names|
    ensures NativeEntries(names, sigs)[5 * k..5 * k + 5] == NativeEntry(names[k], sigs[k], k == |names| - 1)
  {
    var e := NativeEntry(names[0], sigs[0], |names| == 1);
    var rest := NativeEntries(names[1..], sigs[1..]);
    assert NativeEntries(names, sigs) == e + rest;
    if k > 0 {
      NativeEntryAt(names[1..], sigs[1..], k - 1);
      SliceAfter(e, rest, 5 * (k - 1), 5 * (k - 1) + 5);
    } else {
      assert (e + rest)[0..5] == e;
    }
  }

  /** The table closes every initialiser it opens. */
  lemma {:induction false} NativeEntriesBalanced(names: seq<string>, sigs: seq<string>)
    requires |names| == |sigs|
    ensures Balanced(NativeEntries(names, sigs))
  {
    if |names| > 0 {
      NativeEntriesBalanced(names[1..], sigs[1..]);
      BalancedAppend(NativeEntry(names[0], sigs[0], |names| == 1), NativeEntries(names[1..], sigs[1..]));
    }
  }

  /** The descriptors of the methods, in order; the first that cannot be built stops the table. */
  function PrivateSignatures(ms: seq<Element>, rule: NameRule): (r: Result<seq<string>>)
    requires forall i | 0 <= i < |ms| :: ms[i].IsExecutable()
    ensures r.Success? <==> forall i | 0 <= i < |ms| :: PrivateSignature(ms[i], rule).Success?
    ensures r.Success? ==> |r.value| == |ms| && forall i | 0 <= i < |ms| :: r.value[i] == PrivateSignature(ms[i], rule).value
  {
    if |ms| == 0 then Success([])
    else
      var s :- PrivateSignature(ms[0], rule);
      var rest :- PrivateSignatures(ms[1..], rule);
      assert forall i | 1 <= i < |ms| :: ms[1..][i - 1] == ms[i];
      Success([s] + rest)
  }

  function NamesOf(ms: seq<Element>): (r: seq<string>)
    ensures |r| == |ms| && forall i | 0 <= i < |ms| :: r[i] == ms[i].name
  {
    if |ms| == 0 then [] else [ms[0].name] + NamesOf(ms[1..])
  }

  /** `getJniNativeMethods` */
  function JniNativeMethods(ms: seq<Element>): (r: Result<seq<Piece>>)
    requires forall i | 0 <= i < |ms| :: ms[i].IsExecutable()
    ensures r.Success? <==> PrivateSignatures(ms, PlainTypeName).Success?
    ensures r.Success? ==> Balanced(r.value) && |r.value| == 5 * |ms|
    ensures r.Success? ==> forall k | 0 <= k < |ms| ::
      r.value[5 * k..5 * k + 5] == NativeEntry(ms[k].name, PrivateSignature(ms[k], PlainTypeName).value, k == |ms| - 1)
  {
    var sigs :- PrivateSignatures(ms, PlainTypeName);
    var r := NativeEntries(NamesOf(ms), sigs);
    NativeEntriesBalanced(NamesOf(ms), sigs);
    forall k | 0 <= k < |ms|
      ensures r[5 * k..5 * k + 5] == NativeEntry(ms[k].name, PrivateSignature(ms[k], PlainTypeName).value, k == |ms| - 1)
    {
      NativeEntriesInOrder(NamesOf(ms), sigs, k);
    }
    Success(r)
  }

  const RegisterDoc1: string := "* register Native functions"
  const RegisterDoc2: string := "* @returns success or not"
  const RegisterSignature: string := "inline bool registerNativeFunctions(JNIEnv* env) "
  const RegisterNote1: string := "// 1. C++20 has u8\"\" string as char8_t type, we should cast them."
  const RegisterNote2: string := "// 2. jni.h has JNINativeMethod::name as char* type not const char*. (while Android does)"
  const RegisterCastMacro: string := "#define jenny_u8cast(u8) const_cast<char *>(reinterpret_cast<const char *>(u8))"
  const RegisterTable: string := "const JNINativeMethod gsNativeMethods[] = "
  const RegisterCount: string := "const int gsMethodCount = sizeof(gsNativeMethods) / sizeof(JNINativeMethod);"
  const RegisterFind: string := "jclass clazz = env->FindClass(jenny_u8cast(FULL_CLASS_NAME));"
  const RegisterCall: string := "success = !env->RegisterNatives(clazz, gsNativeMethods, gsMethodCount);"
  const RegisterRelease: string := "env->DeleteLocalRef(clazz);"

  /** The lines of `getJniRegister` before the table: it leaves the function and the array open. */
  function RegisterHead(): (r: seq<Piece>)
    ensures Walk(r, 0) == Some(2)
  {
    var r := [
      L(0, "/**"),
      L(0, RegisterDoc1),
      L(0, RegisterDoc2),
      L(0, "*/"),
      O(0, RegisterSignature),
      L(0, RegisterNote1),
      L(0, RegisterNote2),
      L(0, RegisterCastMacro),
      O(3, RegisterTable)];
    var ds: seq<nat> := [0, 0, 0, 0, 0, 1, 1, 1, 1, 2];
    forall i | 0 <= i < |r| ensures Step(r[i], ds[i]) == Some(ds[i + 1]) { }
    WalkTrace(r, ds);
    r
  }

  /** The lines of `getJniRegister` after the table: they close the array and the function. */
  function RegisterTail(): (r: seq<Piece>)
    ensures Walk(r, 2) == Some(0)
  {
    var r := [
      C(3, ";"),
      Blank,
      L(3, RegisterCount),
      Blank,
      L(3, "bool success = false;"),
      L(3, RegisterFind),
      O(3, "if (clazz != nullptr) "),
      L(7, RegisterCall),
      L(7, RegisterRelease),
      C(3, ""),
      L(3, "return success;"),
      L(0, "#undef jenny_u8cast"),
      C(0, "")];
    var ds: seq<nat> := [2, 1, 1, 1, 1, 1, 1, 2, 2, 2, 1, 1, 1, 0];
    forall i | 0 <= i < |r| ensures Step(r[i], ds[i]) == Some(ds[i + 1]) { }
    WalkTrace(r, ds);
    r
  }

  /** `registerNativeFunctions` around a table of entries: every block it opens is closed. */
  function Register(names: seq<string>, sigs: seq<string>): (r: seq<Piece>)
    requires |names| == |sigs|
    ensures Balanced(r)
    ensures r == RegisterHead() + NativeEntries(names, sigs) + RegisterTail()
  {
    var e := NativeEntries(names, sigs);
    NativeEntriesBalanced(names, sigs);
    WalkShift(e, 0, 2);
    WalkAppend(RegisterHead(), e, 0);
    WalkAppend(RegisterHead() + e, RegisterTail(), 0);
    RegisterHead() + e + RegisterTail()
  }

  /** `getJniRegister` */
  function JniRegister(ms: seq<Element>): (r: Result<seq<Piece>>)
    requires forall i | 0 <= i < |ms| :: ms[i].IsExecutable()
    ensures r.Success? <==> PrivateSignatures(ms, PlainTypeName).Success?
    ensures r.Success? ==> Balanced(r.value) && r.value == RegisterHead() + JniNativeMethods(ms).value + RegisterTail()
  {
    var sigs :- PrivateSignatures(ms, PlainTypeName);
    Success(Register(NamesOf(ms), sigs))
  }
}
