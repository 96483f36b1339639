/**
 * `utils/NativeHeaderDefinitions.kt`: the declarations (header mode) or stub
 * definitions (source mode) of a class's native methods, their parameter
 * lists, and the end of the class namespace. Its private `Signature` is
 * `Descriptors.PrivateSignature` with the `toString()` name rule, and its
 * `getMethodName` is `HeaderDefs.NativeMethodName`.
 *
 * Two definitions exist of a source-mode stub: the one as written, which
 * qualifies the function with the dotted Java class name and returns
 * `nullptr` from a void stub, and the corrected one the rest of the model
 * uses. Header mode opens an `extern "C"` block it never closes;
 * `MethodsDefinitionsClosed` is the definition that closes it.
 */
module NativeDefs {
  import opened Wrappers
  import opened Text
  import opened Kinds
  import opened Modifiers
  import opened Elements
  import opened Ext
  import opened Descriptors
  import opened ClassInfos
  import opened Params
  import opened HeaderDefs
  import opened Lines
  import opened Namespaces

  // ------------------------------------------------------------ parameters

  /** `parameters.drop(1)` */
  function Drop1(ps: seq<Param>): (r: seq<Param>)
    ensures |r| == if |ps| == 0 then 0 else |ps| - 1
    ensures forall i | 0 <= i < |r| :: r[i] == ps[i + 1]
  {
    if |ps| == 0 then [] else ps[1..]
  }

  /**
   * `getNativeMethodParam`: the environment, the class or the receiver, and
   * every Java parameter but the first, joined by ", ".
   */
  function NativeMethodParam(m: Element): (r: string)
    ensures r == Join([EnvParam, if IsStatic(m) then ClazzParam else ThizParam] + Decls(LegacyParams(Drop1(m.Params()))), Sep)
  {
    var receiver := if IsStatic(m) then ClazzParam else ThizParam;
    var decls := Decls(LegacyParams(Drop1(m.Params())));
    JoinThenPrefixEach([EnvParam, receiver], decls);
    assert Join([EnvParam, receiver], Sep) == EnvParam + Sep + receiver by {
      assert [EnvParam, receiver][1..] == [receiver];
    }
    EnvParam + Sep + receiver + JniParametersLegacy(Drop1(m.Params()))
  }

  /** The first Java parameter of a method never reaches the C++ parameter list. */
  lemma NativeParamsSkipFirst(m: Element, p: Param, rest: seq<Param>)
    requires m.Params() == [p] + rest
    ensures NativeMethodParam(m) == Join([EnvParam, if IsStatic(m) then ClazzParam else ThizParam] + Decls(LegacyParams(rest)), Sep)
  {
    assert Drop1(m.Params()) == rest;
  }

  // ------------------------------------------------------------ the comment

  /** The `toString()` of a modifier constant. */
  function EnumName(m: JennyModifier): string
  {
    match m
    case PUBLIC => "PUBLIC"
    case PRIVATE => "PRIVATE"
    case DEFAULT => "DEFAULT"
    case STRICT => "STRICT"
    case PROTECTED => "PROTECTED"
    case STATIC => "STATIC"
    case FINAL => "FINAL"
    case VOLATILE => "VOLATILE"
    case TRANSIENT => "TRANSIENT"
    case NATIVE => "NATIVE"
    case ABSTRACT => "ABSTRACT"
    case SYNCHRONIZED => "SYNCHRONIZED"
  }

  function EnumNames(ms: seq<JennyModifier>): (r: seq<string>)
    ensures |r| == |ms| && forall i | 0 <= i < |ms| :: r[i] == EnumName(ms[i])
  {
    if |ms| == 0 then [] else [EnumName(ms[0])] + EnumNames(ms[1..])
  }

  /**
   * The `toString()` of the modifier set, listed in the declaration order of
   * `JennyModifier`. The source's set lists them in the order they were
   * added, which the model's modifier sets do not record.
   */
  function ModifierSetText(mods: set<JennyModifier>): string
  {
    "[" + Join(EnumNames(SortedModifiers(mods)), Sep) + "]"
  }

  /** `getMethodParameters`: each parameter's type text and name, joined by ", ". */
  function ParamTexts(ps: seq<Param>): (r: seq<string>)
    ensures |r| == |ps| && forall i | 0 <= i < |ps| :: r[i] == ps[i].ptype.text + " " + ps[i].name
  {
    if |ps| == 0 then [] else [ps[0].ptype.text + " " + ps[0].name] + ParamTexts(ps[1..])
  }

  /** What the `Method:` line of the comment shows. */
  function MethodLine(m: Element): string
  {
    ModifierSetText(m.modifiers) + " " + m.etype.text + " " + m.name + "(" + Join(ParamTexts(m.Params()), Sep) + ")"
  }

  // ------------------------------------------------------------ one stub

  const ClassLabel: string := " * Class:     "
  const MethodLabel: string := " * Method:    "
  const SignatureLabel: string := " * Signature: "
  const StubTodo: string := "// TODO(jenny): generated method stub."
  const Export: string := "JNIEXPORT "
  const JniCallMacro: string := " JNICALL "

  /**
   * The texts one native function is written from: the class and method of
   * its comment, the descriptor, the JNI return type, the C++ function name,
   * the parameter list and the stub's return statement.
   */
  datatype StubText = StubText(
    className: string,
    methodLine: string,
    sig: string,
    jniReturnType: string,
    name: string,
    params: string,
    ret: string)

  /** The comment above each native function. */
  function StubComment(t: StubText): (r: seq<Piece>)
    ensures |r| == 5 && Flat(r)
    ensures r[1] == L(0, ClassLabel + t.className) && r[3] == L(0, SignatureLabel + t.sig)
  {
    var r := [L(0, "/*"), L(0, ClassLabel + t.className), L(0, MethodLabel + t.methodLine), L(0, SignatureLabel + t.sig), L(0, " */")];
    assert Flat(r) by {
      forall i | 0 <= i < |r| ensures !Opens(r[i]) && !Closes(r[i]) { }
    }
    r
  }

  /** A header's declaration line. */
  function DeclarationLine(t: StubText): Piece
  {
    L(0, Export + t.jniReturnType + JniCallMacro + t.name + "(" + t.params + ");")
  }

  /** The line that opens a source's definition. */
  function DefinitionLine(t: StubText): Piece
  {
    O(0, t.jniReturnType + " " + t.name + "(" + t.params + ") ")
  }

  /**
   * One native function: the comment, then in a header a `JNIEXPORT ...
   * JNICALL` declaration and in a source a definition whose body is a to-do
   * comment and the return statement. Either way it closes what it opens.
   */
  function Stub(t: StubText, isSource: bool): (r: seq<Piece>)
    ensures Balanced(r)
    ensures |r| == if isSource then 10 else 7
    ensures r[..5] == StubComment(t)
    ensures r[5] == if isSource then DefinitionLine(t) else DeclarationLine(t)
    ensures isSource ==> r[7] == L(4, t.ret) && r[8] == C(0, "")
  {
    var c := StubComment(t);
    var d :=
      if isSource then [DefinitionLine(t), L(4, StubTodo), L(4, t.ret), C(0, ""), Blank]
      else [DeclarationLine(t), Blank];
    assert Balanced(d) by {
      if isSource {
        var ds: seq<nat> := [0, 1, 1, 1, 0, 0];
        forall i | 0 <= i < |d| ensures Step(d[i], ds[i]) == Some(ds[i + 1]) { }
        WalkTrace(d, ds);
      } else {
        var ds: seq<nat> := [0, 0, 0];
        forall i | 0 <= i < |d| ensures Step(d[i], ds[i]) == Some(ds[i + 1]) { }
        WalkTrace(d, ds);
      }
    }
    WalkFlat(c, 0);
    WalkAppend(c, d, 0);
    assert (c + d)[..5] == c;
    c + d
  }

  /** One stub per text, in order. */
  function Stubs(ts: seq<StubText>, isSource: bool): (r: seq<seq<Piece>>)
    ensures |r| == |ts| && forall i | 0 <= i < |ts| :: r[i] == Stub(ts[i], isSource)
  {
    if |ts| == 0 then [] else [Stub(ts[0], isSource)] + Stubs(ts[1..], isSource)
  }

  /** The stubs one after another: balanced, and stub `k` at lines `n * k` up to `n * k + n`. */
  lemma StubsLayout(ts: seq<StubText>, isSource: bool, n: nat, k: nat)
    requires n == if isSource then 10 else 7
    requires k < |ts|
    ensures var body := Flatten(Stubs(ts, isSource));
      && Balanced(body) && |body| == n * |ts|
      && n * k + n <= |body| && body[n * k..n * k + n] == Stub(ts[k], isSource)
  {
    var bs := Stubs(ts, isSource);
    forall i | 0 <= i < |bs| ensures Walk(bs[i], 0) == Some(0) && |bs[i]| == n { }
    FlattenWalk(bs, 0);
    FlattenUniform(bs, n, k);
  }

  lemma StubsBalanced(ts: seq<StubText>, isSource: bool)
    ensures Balanced(Flatten(Stubs(ts, isSource)))
  {
    var bs := Stubs(ts, isSource);
    forall i | 0 <= i < |bs| ensures Walk(bs[i], 0) == Some(0) { }
    FlattenWalk(bs, 0);
  }

  // ------------------------------------------------------------ return statement

  /**
   * `getReturnStatement` as written: it tests `returnType == Void.TYPE`, an
   * equality between a `JennyType` and a `Class` that neither `JennyType`
   * implementation can satisfy, so VOID falls to the `else` of the table.
   */
  function ReturnStatementAsWritten(t: JType): (r: string)
    ensures t.kind != VOID ==> r == ReturnStatement(t)
    ensures t.kind == VOID ==> r == "return nullptr;"
  {
    "return " + (if t.kind == BOOLEAN then "JNI_FALSE" else if IsNumericKind(t.kind) then "0" else "nullptr") + ";"
  }

  /**
   * The return statement of the corrected stub: the stub value of the
   * executable's return type. `getReturnStatement` reads the element's
   * `type` instead, which is the return type only for an element read by
   * reflection; for one read from a type mirror it is the method's own
   * type, whose kind is UNKNOWN.
   */
  function ReturnStatementOf(m: Element): (r: string)
    ensures m.IsExecutable() ==> r == ReturnStatement(m.exec.value.returnType)
    ensures m.IsExecutable() && m.exec.value.returnType.kind == VOID ==> r == ""
  {
    if m.exec.Some? then ReturnStatement(m.exec.value.returnType) else ""
  }

  /**
   * A void native method's stub, as written, returns a value, whether its
   * `type` is the return type (reflection) or the method type (type
   * mirror); the corrected one returns nothing.
   */
  lemma VoidStubReturnsValue(ci: ClassInfo, m: Element, sig: string, isSource: bool)
    requires m.IsExecutable() && m.exec.value.returnType.kind == VOID
    requires m.etype == m.exec.value.returnType || m.etype.kind == UNKNOWN
    ensures DefinitionText(ci, m, sig, isSource, true).ret == "return nullptr;"
    ensures DefinitionText(ci, m, sig, isSource, false).ret == ""
  {
  }

  // ------------------------------------------------------------ definitions

  /**
   * The texts of one method's function. As written, a source qualifies the
   * name with the Java class name and a void stub returns `nullptr`; the
   * corrected text qualifies it with the simple name, the namespace the
   * header declares the functions in, and takes the return statement from
   * the return type, so a void stub returns nothing.
   */
  function DefinitionText(ci: ClassInfo, m: Element, sig: string, isSource: bool, asWritten: bool): (r: StubText)
    ensures r.className == ci.className && r.sig == sig && r.params == NativeMethodParam(m)
    ensures r.name == (if isSource then (if asWritten then ci.className else ci.simpleClassName) + "::" else "")
                      + NativeMethodName(ci.jniClassName, m)
    ensures r.ret == if asWritten then ReturnStatementAsWritten(m.etype) else ReturnStatementOf(m)
  {
    var qualifier := if asWritten then ci.className else ci.simpleClassName;
    StubText(ci.className, MethodLine(m), sig, JniReturnType(m.etype),
             (if isSource then qualifier + "::" else "") + NativeMethodName(ci.jniClassName, m),
             NativeMethodParam(m), if asWritten then ReturnStatementAsWritten(m.etype) else ReturnStatementOf(m))
  }

  /** A header declares the same function either way. */
  lemma DefinitionsAgreeInHeaders(ci: ClassInfo, m: Element, sig: string)
    ensures Stub(DefinitionText(ci, m, sig, false, true), false) == Stub(DefinitionText(ci, m, sig, false, false), false)
  {
    var a := DefinitionText(ci, m, sig, false, true);
    assert a.(ret := ReturnStatementOf(m)) == DefinitionText(ci, m, sig, false, false);
  }

  /**
   * For a class in a package, the as-written definition is qualified with a
   * dotted name, which is no C++ scope; the corrected one with the simple
   * name.
   */
  lemma DefinitionAsWrittenDotted(m: Element, sig: string)
    ensures var ci := ExtractClassInfo("B", "a.B");
      && DefinitionText(ci, m, sig, true, true).name == "a.B::" + NativeMethodName(ci.jniClassName, m)
      && DefinitionText(ci, m, sig, true, false).name == "B::" + NativeMethodName(ci.jniClassName, m)
  {
    assert "a.B" + "::" == "a.B::" && "B" + "::" == "B::";
  }

  /** The texts of several methods, from their descriptors. */
  function DefinitionTexts(ci: ClassInfo, ms: seq<Element>, sigs: seq<string>, isSource: bool, asWritten: bool): (r: seq<StubText>)
    requires |sigs| == |ms|
    ensures |r| == |ms| && forall i | 0 <= i < |ms| :: r[i] == DefinitionText(ci, ms[i], sigs[i], isSource, asWritten)
  {
    if |ms| == 0 then []
    else [DefinitionText(ci, ms[0], sigs[0], isSource, asWritten)] + DefinitionTexts(ci, ms[1..], sigs[1..], isSource, asWritten)
  }

  const IfCpp: string := "#ifdef __cplusplus"
  const ExternC: string := "extern \"C\" "

  /** The `extern "C"` opening of header mode; nothing closes it in this file. */
  function ExternOpen(): (r: seq<Piece>)
    ensures |r| == 6 && Walk(r, 0) == Some(1)
  {
    var r := [Blank, L(0, IfCpp), O(0, ExternC), L(0, "#endif"), Blank, Fragment(false, "")];
    assert Walk(r, 0) == Some(1) by {
      var ds: seq<nat> := [0, 0, 0, 1, 1, 1, 1];
      forall i | 0 <= i < |r| ensures Step(r[i], ds[i]) == Some(ds[i + 1]) { }
      WalkTrace(r, ds);
    }
    r
  }

  /**
   * The closing of the `extern "C"` block in header mode, as the glue
   * provider writes it; `getMethodsDefinitions` leaves it out.
   */
  function ExternClose(): (r: seq<Piece>)
    ensures |r| == 3 && Walk(r, 1) == Some(0)
  {
    var r := [L(0, IfCpp), C(0, ""), Fragment(false, "#endif")];
    assert Walk(r, 1) == Some(0) by {
      var ds: seq<nat> := [1, 1, 0, 0];
      forall i | 0 <= i < |r| ensures Step(r[i], ds[i]) == Some(ds[i + 1]) { }
      WalkTrace(r, ds);
    }
    r
  }

  /** `getMethodsDefinitions(classInfo, methods, isSource)`, as written or corrected. */
  function MethodsDefinitionsWith(ci: ClassInfo, ms: seq<Element>, isSource: bool, asWritten: bool): (r: Result<seq<Piece>>)
    requires forall i | 0 <= i < |ms| :: ms[i].IsExecutable()
    ensures r.Success? <==> PrivateSignatures(ms, TypeText).Success?
  {
    var sigs :- PrivateSignatures(ms, TypeText);
    Success((if isSource then [] else ExternOpen()) + Flatten(Stubs(DefinitionTexts(ci, ms, sigs, isSource, asWritten), isSource)))
  }

  /** `getMethodsDefinitions(classInfo, methods, isSource)` as written. */
  function MethodsDefinitionsAsWritten(ci: ClassInfo, ms: seq<Element>, isSource: bool): (r: Result<seq<Piece>>)
    requires forall i | 0 <= i < |ms| :: ms[i].IsExecutable()
    ensures r.Success? <==> PrivateSignatures(ms, TypeText).Success?
  {
    MethodsDefinitionsWith(ci, ms, isSource, true)
  }

  /** `getMethodsDefinitions(classInfo, methods, isSource)` with the corrected stubs. */
  function MethodsDefinitions(ci: ClassInfo, ms: seq<Element>, isSource: bool): (r: Result<seq<Piece>>)
    requires forall i | 0 <= i < |ms| :: ms[i].IsExecutable()
    ensures r.Success? <==> PrivateSignatures(ms, TypeText).Success?
  {
    MethodsDefinitionsWith(ci, ms, isSource, false)
  }

  /**
   * `getMethodsDefinitions` corrected to close, in header mode, the
   * `extern "C"` block it opens; a source is unchanged.
   */
  function MethodsDefinitionsClosed(ci: ClassInfo, ms: seq<Element>, isSource: bool): (r: Result<seq<Piece>>)
    requires forall i | 0 <= i < |ms| :: ms[i].IsExecutable()
    ensures r.Success? <==> PrivateSignatures(ms, TypeText).Success?
    ensures isSource ==> r == MethodsDefinitions(ci, ms, isSource)
  {
    var d :- MethodsDefinitions(ci, ms, isSource);
    Success(if isSource then d else d + ExternClose())
  }

  /** In a source, one balanced definition per method: block `k` is method `k`'s, with its descriptor in the comment. */
  lemma SourceDefinitionsLayout(ci: ClassInfo, ms: seq<Element>, k: nat)
    requires forall i | 0 <= i < |ms| :: ms[i].IsExecutable()
    requires MethodsDefinitions(ci, ms, true).Success? && k < |ms|
    ensures var r := MethodsDefinitions(ci, ms, true).value;
      && Balanced(r) && |r| == 10 * |ms|
      && r[10 * k..10 * k + 10] == Stub(DefinitionText(ci, ms[k], PrivateSignature(ms[k], TypeText).value, true, false), true)
  {
    var sigs := PrivateSignatures(ms, TypeText).value;
    var ts := DefinitionTexts(ci, ms, sigs, true, false);
    StubsLayout(ts, true, 10, k);
    assert [] + Flatten(Stubs(ts, true)) == Flatten(Stubs(ts, true));
  }

  /** Declarations after a prefix: declaration `k` at lines `|head| + 7 * k` up to `|head| + 7 * k + 7`. */
  lemma DeclarationsAfter(head: seq<Piece>, ts: seq<StubText>, d: nat, k: nat)
    requires Walk(head, 0) == Some(d) && k < |ts|
    ensures var r := head + Flatten(Stubs(ts, false));
      && Walk(r, 0) == Some(d) && |r| == |head| + 7 * |ts| && r[..|head|] == head
      && r[|head| + 7 * k..|head| + 7 * k + 7] == Stub(ts[k], false)
  {
    var body := Flatten(Stubs(ts, false));
    StubsLayout(ts, false, 7, k);
    BalancedAfter(head, body, d);
    SliceAfter(head, body, 7 * k, 7 * k + 7);
    assert (head + body)[..|head|] == head;
  }

  /**
   * In a header, the `extern "C"` opening and then one declaration per
   * method, block `k` method `k`'s; the whole leaves the `extern "C"` block
   * open and nothing else.
   */
  lemma HeaderDefinitionsLayout(ci: ClassInfo, ms: seq<Element>, k: nat)
    requires forall i | 0 <= i < |ms| :: ms[i].IsExecutable()
    requires MethodsDefinitions(ci, ms, false).Success? && k < |ms|
    ensures var r := MethodsDefinitions(ci, ms, false).value;
      && Walk(r, 0) == Some(1) && |r| == 6 + 7 * |ms| && r[..6] == ExternOpen()
      && r[6 + 7 * k..6 + 7 * k + 7] == Stub(DefinitionText(ci, ms[k], PrivateSignature(ms[k], TypeText).value, false, false), false)
  {
    var sigs := PrivateSignatures(ms, TypeText).value;
    DeclarationsAfter(ExternOpen(), DefinitionTexts(ci, ms, sigs, false, false), 1, k);
  }

  /** After a prefix that opens one block, the declarations and the namespace end, inside the class namespace, leave that block open. */
  lemma ExternStaysOpen(head: seq<Piece>, ts: seq<StubText>, className: string)
    requires Walk(head, 0) == Some(1)
    ensures Walk(head + Flatten(Stubs(ts, false)) + EndNameSpace(className, false), 1) == Some(1)
  {
    var body := Flatten(Stubs(ts, false));
    var d := head + body;
    var e := EndNameSpace(className, false);
    StubsBalanced(ts, false);
    BalancedAfter(head, body, 1);
    WalkShift(d, 0, 1);
    WalkAppend(d, e, 1);
    WalkShift(e, 1, 1);
  }

  /**
   * Where every method's `type` is its return type (as read by reflection),
   * no method is void and the class has no package, the as-written text is
   * the corrected text.
   */
  lemma AsWrittenAgreesWithoutVoidOrPackage(ci: ClassInfo, ms: seq<Element>, isSource: bool)
    requires forall i | 0 <= i < |ms| :: ms[i].IsExecutable() && ms[i].etype == ms[i].exec.value.returnType && ms[i].etype.kind != VOID
    requires ci.className == ci.simpleClassName
    ensures MethodsDefinitionsAsWritten(ci, ms, isSource) == MethodsDefinitions(ci, ms, isSource)
  {
    var r := PrivateSignatures(ms, TypeText);
    if r.Success? {
      var a := DefinitionTexts(ci, ms, r.value, isSource, true);
      var b := DefinitionTexts(ci, ms, r.value, isSource, false);
      assert a == b;
    }
  }

  // ------------------------------------------------------------ end of namespace

  /**
   * `getEndNameSpace(className, isSource)`: a blank line, and in a header the
   * '}' that closes the class namespace.
   */
  function EndNameSpace(className: string, isSource: bool): (r: seq<Piece>)
    ensures isSource ==> Flat(r)
    ensures !isSource ==> Walk(r, 1) == Some(0) && Walk(r, 0).None?
  {
    var r := [Blank] + (if isSource then [] else [C(0, EndOfNamespaceComment + className)]);
    assert isSource ==> Flat(r) by {
      if isSource {
        forall i | 0 <= i < |r| ensures !Opens(r[i]) && !Closes(r[i]) { }
      }
    }
    assert !isSource ==> Walk(r[1..], 1) == Some(0);
    r
  }

  /**
   * Header mode leaves the `extern "C"` block open: inside the class
   * namespace, the declarations and the namespace end still leave one block
   * unclosed.
   */
  lemma HeaderModeLeavesExternOpen(ci: ClassInfo, ms: seq<Element>, className: string)
    requires forall i | 0 <= i < |ms| :: ms[i].IsExecutable()
    requires MethodsDefinitions(ci, ms, false).Success?
    ensures Walk(MethodsDefinitions(ci, ms, false).value + EndNameSpace(className, false), 1) == Some(1)
  {
    var sigs := PrivateSignatures(ms, TypeText).value;
    ExternStaysOpen(ExternOpen(), DefinitionTexts(ci, ms, sigs, false, false), className);
  }

  /**
   * Corrected, the definitions close every block they open in either mode,
   * so inside the class namespace its end closes the namespace and nothing
   * stays open.
   */
  lemma ClosedDefinitionsBalanced(ci: ClassInfo, ms: seq<Element>, isSource: bool, className: string)
    requires forall i | 0 <= i < |ms| :: ms[i].IsExecutable()
    requires MethodsDefinitionsClosed(ci, ms, isSource).Success?
    ensures Balanced(MethodsDefinitionsClosed(ci, ms, isSource).value)
    ensures Walk(MethodsDefinitionsClosed(ci, ms, isSource).value + EndNameSpace(className, isSource), 1) == Some(if isSource then 1 else 0)
  {
    var sigs := PrivateSignatures(ms, TypeText).value;
    var ts := DefinitionTexts(ci, ms, sigs, isSource, false);
    var body := Flatten(Stubs(ts, isSource));
    StubsBalanced(ts, isSource);
    if isSource {
      assert MethodsDefinitionsClosed(ci, ms, isSource).value == [] + body;
      BalancedThenFlat(body, EndNameSpace(className, true));
    } else {
      assert MethodsDefinitionsClosed(ci, ms, isSource).value == ExternOpen() + body + ExternClose();
      GuardedThenClosed(ExternOpen(), body, ExternClose(), EndNameSpace(className, false));
    }
  }

  /** A balanced list and flat lines after it, inside one open block, leave that block open. */
  lemma BalancedThenFlat(body: seq<Piece>, end: seq<Piece>)
    requires Balanced(body) && Flat(end)
    ensures Balanced([] + body) && Walk([] + body + end, 1) == Some(1)
  {
    assert [] + body == body;
    WalkShift(body, 0, 1);
    WalkFlat(end, 1);
    WalkAppend(body, end, 1);
  }

  /** A block opened by `head` and closed by `tail` around a balanced `body` is balanced, and `end` then closes one more. */
  lemma GuardedThenClosed(head: seq<Piece>, body: seq<Piece>, tail: seq<Piece>, end: seq<Piece>)
    requires Walk(head, 0) == Some(1) && Balanced(body) && Walk(tail, 1) == Some(0) && Walk(end, 1) == Some(0)
    ensures Balanced(head + body + tail) && Walk(head + body + tail + end, 1) == Some(0)
  {
    BalancedAfter(head, body, 1);
    WalkAppend(head + body, tail, 0);
    WalkShift(head + body + tail, 0, 1);
    WalkAppend(head + body + tail, end, 1);
  }
}
