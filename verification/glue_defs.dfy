/**
 * `provider/glue/DefaultJennyGlueHeaderDefinitionsProvider.kt`: the texts of
 * a glue header or source for a class with native methods. It writes the
 * preamble with the `FULL_CLASS_NAME` constant, the constants, the native
 * function declarations (header) or stub definitions (source), the
 * `registerNativeFunctions` helper and the end of the class namespace.
 *
 * The function texts share `NativeDefs.Stub`. The glue qualifies a source's
 * definitions with the simple class name and gives a void stub no return
 * value, but it differs from `NativeDefs` in its parameters, its
 * descriptors and the `Method:` line, and in header mode it also closes
 * the `extern "C"` block it opens.
 */
module GlueDefs {
  import opened Wrappers
  import opened Text
  import opened Modifiers
  import opened Elements
  import opened Ext
  import opened Descriptors
  import opened ClassInfos
  import opened Params
  import opened HeaderDefs
  import opened Lines
  import opened Namespaces
  import opened NativeDefs

  // ------------------------------------------------------------ preamble

  const HeaderFileComment: string := "/* C++ header file for class "
  const PragmaOnce: string := "#pragma once"
  const IncludeJni: string := "#include <jni.h>"
  const DoNotModify: string := "// DO NOT modify"
  const FullClassNameDecl: string := "static constexpr auto FULL_CLASS_NAME = u8\""

  /** The line defining `FULL_CLASS_NAME`, the name `registerNativeFunctions` hands to `FindClass`. */
  function FullClassNameLine(value: string): Piece
  {
    L(0, FullClassNameDecl + value + "\";")
  }

  /**
   * The preamble with `value` as the class name literal: it leaves the class
   * namespace open, after the outer namespaces of `startOfNamespace`.
   */
  function HeaderInitWith(ci: ClassInfo, startOfNamespace: string, value: string): (r: seq<Piece>)
    ensures |r| == 13 && Walk(r, 0) == Some(1)
    ensures r[6] == L(0, startOfNamespace) && r[7] == O(0, "namespace " + ci.simpleClassName + " ")
    ensures r[10] == FullClassNameLine(value)
  {
    var r := [
      Blank,
      L(0, HeaderFileComment + ci.slashClassName + " */"),
      L(0, PragmaOnce),
      Blank,
      L(0, IncludeJni),
      Blank,
      L(0, startOfNamespace),
      O(0, "namespace " + ci.simpleClassName + " "),
      Blank,
      L(0, DoNotModify),
      FullClassNameLine(value),
      Blank,
      Fragment(false, "")];
    assert Walk(r, 0) == Some(1) by {
      var ds: seq<nat> := [0, 0, 0, 0, 0, 0, 0, 0, 1, 1, 1, 1, 1, 1];
      forall i | 0 <= i < |r| ensures Step(r[i], ds[i]) == Some(ds[i + 1]) { }
      WalkTrace(r, ds);
    }
    r
  }

  /**
   * `getHeaderInitForGlue` as written: `$${...}` in the Kotlin template is a
   * literal '$' followed by the slash name.
   */
  function HeaderInitForGlueAsWritten(ci: ClassInfo, startOfNamespace: string): (r: seq<Piece>)
    ensures |r| == 13
  {
    HeaderInitWith(ci, startOfNamespace, "$" + ci.slashClassName)
  }

  /** `getHeaderInitForGlue` with the class name literal as `FindClass` needs it. */
  function HeaderInitForGlue(ci: ClassInfo, startOfNamespace: string): (r: seq<Piece>)
    ensures |r| == 13
  {
    HeaderInitWith(ci, startOfNamespace, ci.slashClassName)
  }

  /**
   * The as-written constant is never the class's slash name, so
   * `FindClass(FULL_CLASS_NAME)` looks up a class that does not exist; the
   * corrected one is exactly the slash name of the class.
   */
  lemma FullClassNameAsWrittenIsNotTheClass(ci: ClassInfo, startOfNamespace: string)
    ensures HeaderInitForGlueAsWritten(ci, startOfNamespace)[10] == FullClassNameLine("$" + ci.slashClassName)
    ensures HeaderInitForGlueAsWritten(ci, startOfNamespace)[10] != FullClassNameLine(ci.slashClassName)
    ensures HeaderInitForGlue(ci, startOfNamespace)[10] == FullClassNameLine(ci.slashClassName)
  {
    FullClassNameDiffers(ci.slashClassName);
  }

  /** A literal that starts with an extra '$' is a different line. */
  lemma FullClassNameDiffers(slashName: string)
    ensures FullClassNameLine("$" + slashName) != FullClassNameLine(slashName)
  {
    var a := FullClassNameDecl + ("$" + slashName) + "\";";
    var b := FullClassNameDecl + slashName + "\";";
    assert |a| != |b|;
  }

  /**
   * For a class info `extractClassInfo` built, the corrected preamble opens
   * the namespace of the simple name and names the class by its binary name
   * with '/' for '.'.
   */
  lemma HeaderInitForGlueNamesClass(simpleName: string, fullName: string, startOfNamespace: string)
    ensures var r := HeaderInitForGlue(ExtractClassInfo(simpleName, fullName), startOfNamespace);
      && r[7] == O(0, "namespace " + simpleName + " ")
      && r[10] == FullClassNameLine(SlashName(fullName))
      && Walk(r, 0) == Some(1)
  {
  }

  // ------------------------------------------------------------ constants

  /** The statements of the constants in order; the first one that cannot be rendered stops it. */
  function ConstexprStatements(cs: seq<Element>): (r: Result<seq<string>>)
    ensures r.Success? <==> forall i | 0 <= i < |cs| :: ConstexprStatementLegacy(cs[i]).Success?
    ensures r.Success? ==> |r.value| == |cs| && forall i | 0 <= i < |cs| :: r.value[i] == ConstexprStatementLegacy(cs[i]).value
  {
    if |cs| == 0 then Success([])
    else
      var s :- ConstexprStatementLegacy(cs[0]);
      var rest :- ConstexprStatements(cs[1..]);
      assert forall i | 1 <= i < |cs| :: cs[1..][i - 1] == cs[i];
      Success([s] + rest)
  }

  /**
   * `getConstantsIdDeclare(constants)`: every constant's `constexpr`
   * statement, one after another on a single line. A value of an
   * unsupported type or a failing read makes the whole call fail.
   */
  function ConstantsIdDeclare(cs: seq<Element>): (r: Result<Piece>)
    ensures r.Success? <==> forall i | 0 <= i < |cs| :: cs[i].value.Returned? && Renderable(cs[i].value.value)
    ensures r.Success? ==> !Opens(r.value) && !Closes(r.value)
  {
    var stmts :- ConstexprStatements(cs);
    Success(L(0, Concat(stmts)))
  }

  /** With every constant readable, each statement is the one the newer provider prints, without its newline. */
  lemma ConstantsIdDeclareStatements(cs: seq<Element>, i: nat)
    requires ConstexprStatements(cs).Success? && i < |cs|
    ensures ConstexprStatements(cs).value[i] + "\n" == ConstexprStatement(cs[i])
  {
    ConstexprCopiesAgree(cs[i]);
  }

  // ------------------------------------------------------------ end of namespace

  /**
   * `getEndNameSpace(className, endNamespace, isSource)`: a blank line, the
   * '}' of the class namespace in a header only, then the outer namespaces'
   * end and a blank line.
   */
  function GlueEndNameSpace(className: string, endNamespace: string, isSource: bool): (r: seq<Piece>)
    ensures isSource ==> Flat(r) && |r| == 3
    ensures !isSource ==> Walk(r, 1) == Some(0) && Walk(r, 0).None? && |r| == 4
    ensures r[|r| - 2] == L(0, endNamespace)
  {
    var r := [Blank] + (if isSource then [] else [C(0, EndOfNamespaceComment + className)]) + [L(0, endNamespace), Blank];
    assert isSource ==> Flat(r) by {
      if isSource {
        forall i | 0 <= i < |r| ensures !Opens(r[i]) && !Closes(r[i]) { }
      }
    }
    assert !isSource ==> Walk(r, 1) == Some(0) by {
      if !isSource {
        var ds: seq<nat> := [1, 1, 0, 0, 0];
        forall i | 0 <= i < |r| ensures Step(r[i], ds[i]) == Some(ds[i + 1]) { }
        WalkTrace(r, ds);
      }
    }
    r
  }

  // ------------------------------------------------------------ native methods

  /**
   * The descriptors of the methods, in order; the first that cannot be built
   * stops the list. As written they are `getBinaryJennyElementSignature`'s.
   */
  function Signatures(ms: seq<Element>, asWritten: bool): (r: Result<seq<string>>)
    ensures r.Success? <==> forall i | 0 <= i < |ms| :: BinarySignature(ms[i], asWritten).Success?
    ensures r.Success? ==> |r.value| == |ms| && forall i | 0 <= i < |ms| :: r.value[i] == BinarySignature(ms[i], asWritten).value
  {
    if |ms| == 0 then Success([])
    else
      var s :- BinarySignature(ms[0], asWritten);
      var rest :- Signatures(ms[1..], asWritten);
      assert forall i | 1 <= i < |ms| :: ms[1..][i - 1] == ms[i];
      Success([s] + rest)
  }

  /** What the `Method:` line of the glue's comment shows. */
  function GlueMethodLine(m: Element): string
  {
    Print(m.modifiers) + " " + m.etype.typeName + " " + m.name + "(" + JavaMethodParameters(m.Params()) + ")"
  }

  /**
   * The parameter list of the glue's functions: the older provider's
   * `getJennyElementJniParams`, as written or with its separator restored.
   */
  function GlueParams(m: Element, asWritten: bool): string
  {
    if asWritten then JennyElementJniParamsLegacy(m, false, false) else JennyElementJniParamsLegacyFixed(m, false, false)
  }

  /**
   * The texts of one method's function: qualified with the simple class
   * name in a source, returning the stub value of the executable's return
   * type, with the older provider's parameter list and the method's
   * descriptor.
   */
  function GlueText(ci: ClassInfo, m: Element, sig: string, isSource: bool, asWritten: bool): (r: StubText)
    ensures r.className == ci.className && r.sig == sig && r.jniReturnType == JniReturnType(m.etype)
    ensures r.name == (if isSource then ci.simpleClassName + "::" else "") + NativeMethodName(ci.jniClassName, m)
    ensures !asWritten ==> r.params == Join(DeclaredParamsLegacy(m, false, false), Sep)
    ensures m.IsExecutable() ==> r.ret == ReturnStatement(m.exec.value.returnType)
  {
    var ret := if m.exec.Some? then ReturnStatement(m.exec.value.returnType) else "";
    StubText(ci.className, GlueMethodLine(m), sig, JniReturnType(m.etype),
             (if isSource then ci.simpleClassName + "::" else "") + NativeMethodName(ci.jniClassName, m),
             GlueParams(m, asWritten), ret)
  }

  /**
   * The two modes write the same function text except its parameters,
   * which differ exactly for a member of a nested class: as written the
   * outer-instance declaration follows the receiver with no ", ".
   */
  lemma GlueTextModes(ci: ClassInfo, m: Element, sig: string, isSource: bool)
    ensures GlueText(ci, m, sig, isSource, true) == GlueText(ci, m, sig, isSource, false).(params := JennyElementJniParamsLegacy(m, false, false))
    ensures GlueText(ci, m, sig, isSource, true) == GlueText(ci, m, sig, isSource, false) <==> !InNestedClass(m)
  {
    if InNestedClass(m) {
      LegacyMissingSeparator(m, false);
    } else {
      LegacyFixedAgrees(m, false);
    }
  }

  /** The glue and the corrected `NativeHeaderDefinitions` give a method's function the same name. */
  lemma GlueAndNativeNamesAgree(ci: ClassInfo, m: Element, sig1: string, sig2: string, isSource: bool, asWritten: bool)
    ensures GlueText(ci, m, sig1, isSource, asWritten).name == DefinitionText(ci, m, sig2, isSource, false).name
  {
  }

  function GlueTexts(ci: ClassInfo, ms: seq<Element>, sigs: seq<string>, isSource: bool, asWritten: bool): (r: seq<StubText>)
    requires |sigs| == |ms|
    ensures |r| == |ms| && forall i | 0 <= i < |ms| :: r[i] == GlueText(ci, ms[i], sigs[i], isSource, asWritten)
  {
    if |ms| == 0 then [] else [GlueText(ci, ms[0], sigs[0], isSource, asWritten)] + GlueTexts(ci, ms[1..], sigs[1..], isSource, asWritten)
  }

  /** `getNativeMethodsDefinitions(classInfo, methods, isSource)` */
  function NativeMethodsDefinitions(ci: ClassInfo, ms: seq<Element>, isSource: bool, asWritten: bool): (r: Result<seq<Piece>>)
    ensures r.Success? <==> Signatures(ms, asWritten).Success?
  {
    var sigs :- Signatures(ms, asWritten);
    var body := Flatten(Stubs(GlueTexts(ci, ms, sigs, isSource, asWritten), isSource));
    Success(if isSource then body else ExternOpen() + body + ExternClose())
  }

  /**
   * Where no method belongs to a nested class and every method's two
   * descriptors agree (see `SignatureAgreesOffObjectArrays`), the as-written
   * definitions are the corrected ones.
   */
  lemma NativeMethodsModesAgree(ci: ClassInfo, ms: seq<Element>, isSource: bool)
    requires forall i | 0 <= i < |ms| :: !InNestedClass(ms[i]) && BinarySignature(ms[i], true) == BinarySignature(ms[i], false)
    ensures NativeMethodsDefinitions(ci, ms, isSource, true) == NativeMethodsDefinitions(ci, ms, isSource, false)
  {
    SignaturesModesAgree(ms);
    var a := Signatures(ms, true);
    var b := Signatures(ms, false);
    if a.Success? {
      var ta := GlueTexts(ci, ms, a.value, isSource, true);
      var tb := GlueTexts(ci, ms, b.value, isSource, false);
      forall i | 0 <= i < |ms| ensures ta[i] == tb[i] {
        GlueTextModes(ci, ms[i], a.value[i], isSource);
      }
      assert ta == tb;
    }
  }

  lemma {:induction false} SignaturesModesAgree(ms: seq<Element>)
    requires forall i | 0 <= i < |ms| :: BinarySignature(ms[i], true) == BinarySignature(ms[i], false)
    ensures Signatures(ms, true) == Signatures(ms, false)
  {
    if |ms| > 0 {
      SignaturesModesAgree(ms[1..]);
    }
  }

  /** In either mode, whatever the methods, the definitions close every block they open. */
  lemma NativeMethodsBalanced(ci: ClassInfo, ms: seq<Element>, isSource: bool, asWritten: bool)
    requires NativeMethodsDefinitions(ci, ms, isSource, asWritten).Success?
    ensures Balanced(NativeMethodsDefinitions(ci, ms, isSource, asWritten).value)
  {
    var bs := Stubs(GlueTexts(ci, ms, Signatures(ms, asWritten).value, isSource, asWritten), isSource);
    forall i | 0 <= i < |bs| ensures Walk(bs[i], 0) == Some(0) { }
    FlattenWalk(bs, 0);
    if !isSource {
      GuardedBalanced(ExternOpen(), Flatten(bs), ExternClose());
    }
  }

  /** A block opened after a prefix and closed by a suffix leaves the whole balanced. */
  lemma GuardedBalanced(head: seq<Piece>, body: seq<Piece>, tail: seq<Piece>)
    requires Walk(head, 0) == Some(1) && Balanced(body) && Walk(tail, 1) == Some(0)
    ensures Balanced(head + body + tail)
  {
    BalancedAfter(head, body, 1);
    WalkAppend(head + body, tail, 0);
  }

  /** A suffix that closes the one block a list leaves open balances it, and keeps every line of the list in place. */
  lemma ClosedBy(d: seq<Piece>, tail: seq<Piece>, i: nat, j: nat)
    requires Walk(d, 0) == Some(1) && Walk(tail, 1) == Some(0) && i <= j <= |d|
    ensures Balanced(d + tail) && |d + tail| == |d| + |tail| && (d + tail)[|d|..] == tail
    ensures (d + tail)[i..j] == d[i..j]
  {
    WalkAppend(d, tail, 0);
  }

  /** In a source the stubs follow one another, block `k` being method `k`'s, and close every block they open. */
  lemma NativeMethodsSourceLayout(ci: ClassInfo, ms: seq<Element>, k: nat, asWritten: bool)
    requires NativeMethodsDefinitions(ci, ms, true, asWritten).Success? && k < |ms|
    ensures var r := NativeMethodsDefinitions(ci, ms, true, asWritten).value;
      && Balanced(r) && |r| == 10 * |ms|
      && r[10 * k..10 * k + 10] == Stub(GlueText(ci, ms[k], BinarySignature(ms[k], asWritten).value, true, asWritten), true)
  {
    var sigs := Signatures(ms, asWritten).value;
    var ts := GlueTexts(ci, ms, sigs, true, asWritten);
    assert NativeMethodsDefinitions(ci, ms, true, asWritten).value == Flatten(Stubs(ts, true));
    assert sigs[k] == BinarySignature(ms[k], asWritten).value;
    StubsLayout(ts, true, 10, k);
    assert ts[k] == GlueText(ci, ms[k], sigs[k], true, asWritten);
  }

  /**
   * In a header the declarations sit inside the `extern "C"` block, which
   * is closed again at the end, and declaration `k` is method `k`'s.
   */
  lemma NativeMethodsHeaderLayout(ci: ClassInfo, ms: seq<Element>, k: nat, asWritten: bool)
    requires NativeMethodsDefinitions(ci, ms, false, asWritten).Success? && k < |ms|
    ensures var r := NativeMethodsDefinitions(ci, ms, false, asWritten).value;
      && Balanced(r) && |r| == 9 + 7 * |ms| && r[0..6] == ExternOpen() && r[|r| - 3..] == ExternClose()
      && r[6 + 7 * k..6 + 7 * k + 7] == Stub(GlueText(ci, ms[k], BinarySignature(ms[k], asWritten).value, false, asWritten), false)
  {
    var sigs := Signatures(ms, asWritten).value;
    var ts := GlueTexts(ci, ms, sigs, false, asWritten);
    assert NativeMethodsDefinitions(ci, ms, false, asWritten).value == ExternOpen() + Flatten(Stubs(ts, false)) + ExternClose();
    assert ts[k] == GlueText(ci, ms[k], BinarySignature(ms[k], asWritten).value, false, asWritten);
    ExternLayout(ts, k);
  }

  /** Declarations inside the `extern "C"` block: block `k` is text `k`'s. */
  lemma ExternLayout(ts: seq<StubText>, k: nat)
    requires k < |ts|
    ensures var r := ExternOpen() + Flatten(Stubs(ts, false)) + ExternClose();
      && Balanced(r) && |r| == 9 + 7 * |ts| && r[0..6] == ExternOpen() && r[|r| - 3..] == ExternClose()
      && r[6 + 7 * k..6 + 7 * k + 7] == Stub(ts[k], false)
  {
    var d := ExternOpen() + Flatten(Stubs(ts, false));
    DeclarationsAfter(ExternOpen(), ts, 1, k);
    ClosedBy(d, ExternClose(), 0, 6);
    ClosedBy(d, ExternClose(), 6 + 7 * k, 6 + 7 * k + 7);
  }

  // ------------------------------------------------------------ registration

  /** `getJniNativeMethods(methods)`: one initialiser per method, in order, with its name and descriptor. */
  function GlueJniNativeMethods(ms: seq<Element>, asWritten: bool): (r: Result<seq<Piece>>)
    ensures r.Success? <==> Signatures(ms, asWritten).Success?
    ensures r.Success? ==> Balanced(r.value) && |r.value| == 5 * |ms|
    ensures r.Success? ==> forall k | 0 <= k < |ms| ::
      r.value[5 * k..5 * k + 5] == NativeEntry(ms[k].name, BinarySignature(ms[k], asWritten).value, k == |ms| - 1)
  {
    var sigs :- Signatures(ms, asWritten);
    var r := NativeEntries(NamesOf(ms), sigs);
    NativeEntriesBalanced(NamesOf(ms), sigs);
    forall k | 0 <= k < |ms|
      ensures r[5 * k..5 * k + 5] == NativeEntry(ms[k].name, BinarySignature(ms[k], asWritten).value, k == |ms| - 1)
    {
      NativeEntriesInOrder(NamesOf(ms), sigs, k);
    }
    Success(r)
  }

  /** `getJniRegister(methods)`: `registerNativeFunctions` around the table of every method. */
  function GlueJniRegister(ms: seq<Element>, asWritten: bool): (r: Result<seq<Piece>>)
    ensures r.Success? <==> Signatures(ms, asWritten).Success?
    ensures r.Success? ==> Balanced(r.value) && r.value == RegisterHead() + GlueJniNativeMethods(ms, asWritten).value + RegisterTail()
  {
    var sigs :- Signatures(ms, asWritten);
    Success(Register(NamesOf(ms), sigs))
  }
}
