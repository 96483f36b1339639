/**
 * The C++ parameter lists and argument lists of the generated wrappers
 * (`ParametersProvider` in `utils/`, and the older copy in `provider/` that
 * `JennyHeaderDefinitionsProvider` repeats privately), the `static constexpr`
 * line of a constant, and the set of JNI types a call result is cast to.
 */
module Params {
  import opened Wrappers
  import opened Text
  import opened Kinds
  import opened Elements
  import opened Ext

  const EnvParam: string := "JNIEnv* env"
  const ClazzParam: string := "jclass clazz"
  const ThizParam: string := "jobject thiz"
  const Sep: string := ", "
  const EnclosingName: string := "enclosingClass"
  const GetSuffix: string := ".get()"

  /** One declared C++ parameter: its type and its name. */
  datatype CppParam = CppParam(ctype: string, name: string)
  {
    function Decl(): (r: string)
      ensures |r| > |ctype| && r[|ctype|] == ' '
    {
      ctype + " " + name
    }
  }

  function Decls(ps: seq<CppParam>): (r: seq<string>)
    ensures |r| == |ps|
    ensures forall i | 0 <= i < |ps| :: r[i] == ps[i].Decl()
  {
    if |ps| == 0 then [] else [ps[0].Decl()] + Decls(ps[1..])
  }

  // ------------------------------------------------------------ utils/ParametersProvider.kt

  /** The leading parameters `makeParameter` declares: the environment and, except for constructors, the class or receiver. */
  function BaseDecls(e: Element, useJniHelper: bool): (r: seq<string>)
    ensures |r| == (if useJniHelper then 0 else if IsConstructor(e) then 1 else 2)
  {
    if useJniHelper then []
    else [EnvParam] + (if IsConstructor(e) then [] else if IsStatic(e) then [ClazzParam] else [ThizParam])
  }

  /** `makeParameter(element, useJniHelper)` */
  function MakeParameter(e: Element, useJniHelper: bool): (r: string)
    ensures r == Join(BaseDecls(e, useJniHelper), Sep)
    ensures r == "" <==> useJniHelper
  {
    if useJniHelper then ""
    else EnvParam + (if IsConstructor(e) then "" else if IsStatic(e) then Sep + ClazzParam else Sep + ThizParam)
  }

  /** The outer-instance parameter a member of a nested class gets. */
  function EnclosingParams(e: Element): (r: seq<CppParam>)
    ensures |r| == (if InNestedClass(e) then 1 else 0)
  {
    if InNestedClass(e) then [CppParam(JniReturnType(e.declaring.value.ctype), EnclosingName)] else []
  }

  function JniParam(p: Param, useJniHelper: bool): CppParam
  {
    CppParam(JniTypeString(p.ptype, useJniHelper, false), p.name)
  }

  function JniParams(ps: seq<Param>, useJniHelper: bool): (r: seq<CppParam>)
    ensures |r| == |ps|
    ensures forall i | 0 <= i < |ps| :: r[i] == JniParam(ps[i], useJniHelper)
  {
    if |ps| == 0 then [] else [JniParam(ps[0], useJniHelper)] + JniParams(ps[1..], useJniHelper)
  }

  /** The parameters after the leading ones: the outer instance, then the Java parameters. */
  function ExtraParams(e: Element, useJniHelper: bool): seq<CppParam>
  {
    EnclosingParams(e) + (if e.IsExecutable() then JniParams(e.Params(), useJniHelper) else [])
  }

  /** Every C++ parameter the wrapper declares, in order. */
  function DeclaredParams(e: Element, useJniHelper: bool): (r: seq<string>)
    ensures forall i | 0 <= i < |r| :: r[i] != ""
  {
    BaseDecls(e, useJniHelper) + Decls(ExtraParams(e, useJniHelper))
  }

  /** The loop of `getJniParameters`: ", " goes before a declaration once something is written. */
  function JniParametersFrom(acc: string, ps: seq<Param>, useJniHelper: bool): string
    decreases |ps|
  {
    if |ps| == 0 then acc
    else JniParametersFrom((if acc != "" then acc + Sep else acc) + JniParam(ps[0], useJniHelper).Decl(), ps[1..], useJniHelper)
  }

  /** `getJniParameters(parameters, useJniHelper)` */
  function JniParameters(ps: seq<Param>, useJniHelper: bool): string
  {
    JniParametersFrom("", ps, useJniHelper)
  }

  lemma {:induction false} JniParametersFromJoin(acc: string, ps: seq<Param>, useJniHelper: bool)
    requires acc != ""
    ensures JniParametersFrom(acc, ps, useJniHelper) == Join([acc] + Decls(JniParams(ps, useJniHelper)), Sep)
    decreases |ps|
  {
    var ds := Decls(JniParams(ps, useJniHelper));
    if |ps| > 0 {
      var acc' := acc + Sep + ds[0];
      JniParametersFromJoin(acc', ps[1..], useJniHelper);
      assert JniParams(ps, useJniHelper)[1..] == JniParams(ps[1..], useJniHelper);
      assert ds[1..] == Decls(JniParams(ps[1..], useJniHelper));
      JoinCons(acc, ds);
      JoinCons(acc', ds[1..]);
      JoinCons(ds[0], ds[1..]);
      assert [ds[0]] + ds[1..] == ds;
    }
  }

  /** Putting one more part in front of a join. */
  lemma JoinCons(x: string, ds: seq<string>)
    ensures |ds| > 0 ==> Join([x] + ds, Sep) == x + Sep + Join(ds, Sep)
    ensures |ds| == 0 ==> Join([x] + ds, Sep) == x
  {
    if |ds| > 0 {
      JoinAppend([x], ds, Sep);
    } else {
      assert [x] + ds == [x];
    }
  }

  /** The loop leaves no leading, trailing or doubled separator: it is the plain join. */
  lemma JniParametersJoin(ps: seq<Param>, useJniHelper: bool)
    ensures JniParameters(ps, useJniHelper) == Join(Decls(JniParams(ps, useJniHelper)), Sep)
  {
    var ds := Decls(JniParams(ps, useJniHelper));
    if |ps| > 0 {
      assert ds[0] == JniParam(ps[0], useJniHelper).Decl() != "";
      assert "" + ds[0] == ds[0];
      JniParametersFromJoin(ds[0], ps[1..], useJniHelper);
      assert JniParams(ps, useJniHelper)[1..] == JniParams(ps[1..], useJniHelper);
      assert [ds[0]] + Decls(JniParams(ps[1..], useJniHelper)) == ds;
    }
  }

  /** The leading piece of `getJennyElementJniParams`, kept when not empty. */
  function BasePieces(e: Element, useJniHelper: bool): seq<string>
  {
    var base := MakeParameter(e, useJniHelper);
    if base != "" then [base] else []
  }

  /** The Java parameters of an executable, kept when not empty. */
  function ExecPieces(e: Element, useJniHelper: bool): seq<string>
  {
    var exec := if e.IsExecutable() then JniParameters(e.Params(), useJniHelper) else "";
    if exec != "" then [exec] else []
  }

  /** `getJennyElementJniParams(element, useJniHelper)`: the non-empty pieces joined by ", ". */
  function JennyElementJniParams(e: Element, useJniHelper: bool): string
  {
    Join(BasePieces(e, useJniHelper) + Decls(EnclosingParams(e)) + ExecPieces(e, useJniHelper), Sep)
  }

  /** The declarations of the Java parameters. */
  function ExecDecls(e: Element, useJniHelper: bool): seq<string>
  {
    if e.IsExecutable() then Decls(JniParams(e.Params(), useJniHelper)) else []
  }

  lemma BasePiecesGrouped(e: Element, useJniHelper: bool)
    ensures BasePieces(e, useJniHelper) == Grouped(BaseDecls(e, useJniHelper), Sep)
  {
  }

  lemma ExecPiecesGrouped(e: Element, useJniHelper: bool)
    ensures ExecPieces(e, useJniHelper) == Grouped(ExecDecls(e, useJniHelper), Sep)
  {
    if e.IsExecutable() {
      JniParametersJoin(e.Params(), useJniHelper);
      var ds := ExecDecls(e, useJniHelper);
      if |ds| > 0 {
        assert ds[0] == JniParam(e.Params()[0], useJniHelper).Decl() != "";
        JoinNonEmpty(ds, Sep);
      }
    }
  }

  lemma DeclaredParamsSplit(e: Element, useJniHelper: bool)
    ensures DeclaredParams(e, useJniHelper) == BaseDecls(e, useJniHelper) + Decls(EnclosingParams(e)) + ExecDecls(e, useJniHelper)
  {
    ExtraDeclsSplit(e, useJniHelper);
    SeqAssoc(BaseDecls(e, useJniHelper), Decls(EnclosingParams(e)), ExecDecls(e, useJniHelper));
  }

  lemma ExtraDeclsSplit(e: Element, useJniHelper: bool)
    ensures Decls(ExtraParams(e, useJniHelper)) == Decls(EnclosingParams(e)) + ExecDecls(e, useJniHelper)
  {
    DeclsAppend(EnclosingParams(e), if e.IsExecutable() then JniParams(e.Params(), useJniHelper) else []);
  }

  lemma SeqAssoc(a: seq<string>, b: seq<string>, c: seq<string>)
    ensures a + (b + c) == a + b + c
  {
  }

  /** Joining two pre-joined groups around a middle is joining the flat sequence. */
  lemma JoinFlattenTwo(b: seq<string>, en: seq<string>, ps: seq<string>)
    ensures Join(Grouped(b, Sep) + en + Grouped(ps, Sep), Sep) == Join(b + en + ps, Sep)
  {
    var gp := Grouped(ps, Sep);
    JoinFlattenGroup([], b, en + gp, Sep);
    assert [] + Grouped(b, Sep) + (en + gp) == Grouped(b, Sep) + en + gp;
    assert [] + b + (en + gp) == b + en + gp + [];
    JoinFlattenGroup(b + en, ps, [], Sep);
    assert b + en + ps + [] == b + en + ps;
  }

  /** The emitted list is the declared parameters, each once, in order, separated by ", ". */
  lemma JennyElementJniParamsDeclares(e: Element, useJniHelper: bool)
    ensures JennyElementJniParams(e, useJniHelper) == Join(DeclaredParams(e, useJniHelper), Sep)
  {
    BasePiecesGrouped(e, useJniHelper);
    ExecPiecesGrouped(e, useJniHelper);
    DeclaredParamsSplit(e, useJniHelper);
    JoinFlattenTwo(BaseDecls(e, useJniHelper), Decls(EnclosingParams(e)), ExecDecls(e, useJniHelper));
  }

  lemma JoinNonEmpty(parts: seq<string>, sep: string)
    requires |parts| > 0 && parts[0] != ""
    ensures Join(parts, sep) != ""
  {
  }

  lemma DeclsAppend(a: seq<CppParam>, b: seq<CppParam>)
    ensures Decls(a + b) == Decls(a) + Decls(b)
  {
  }

  /** With comma-free declarations, the list holds one comma fewer than it declares parameters. */
  lemma JniParamsArity(e: Element, useJniHelper: bool)
    requires |DeclaredParams(e, useJniHelper)| > 0
    requires forall d | d in DeclaredParams(e, useJniHelper) :: ',' !in d
    ensures Count(JennyElementJniParams(e, useJniHelper), ',') + 1 == |DeclaredParams(e, useJniHelper)|
  {
    var ds := DeclaredParams(e, useJniHelper);
    JennyElementJniParamsDeclares(e, useJniHelper);
    assert Count(Sep, ',') == 1;
    CountJoin(ds, Sep, ',');
    NoOccurrences(ds, ',');
  }

  lemma {:induction false} NoOccurrences(parts: seq<string>, c: char)
    requires forall d | d in parts :: c !in d
    ensures SumCounts(parts, c) == 0
  {
    if |parts| > 0 {
      assert parts[0] in parts;
      NoOccurrences(parts[1..], c);
    }
  }

  // ------------------------------------------------------------ argument lists

  /** One argument of `getJniMethodParamVal`: a parameter's name, unwrapped with ".get()" when wrapped. */
  function ParamArg(p: Param, useJniHelper: bool): string
  {
    p.name + (if useJniHelper && NeedWrapLocalRef(p.ptype) then GetSuffix else "")
  }

  function ParamArgs(ps: seq<Param>, useJniHelper: bool): (r: seq<string>)
    ensures |r| == |ps|
    ensures forall i | 0 <= i < |ps| :: r[i] == ParamArg(ps[i], useJniHelper)
  {
    if |ps| == 0 then [] else [ParamArg(ps[0], useJniHelper)] + ParamArgs(ps[1..], useJniHelper)
  }

  /** The arguments passed after the receiver and the method ID, in order. */
  function CallArgs(e: Element, useJniHelper: bool): seq<string>
  {
    (if InNestedClass(e) then [EnclosingName + (if useJniHelper then GetSuffix else "")] else [])
      + ParamArgs(e.Params(), useJniHelper)
  }

  function PrefixEach(args: seq<string>): (r: string)
  {
    if |args| == 0 then "" else Sep + args[0] + PrefixEach(args[1..])
  }

  /** The `forEach` loop over the parameters. */
  function ParamVals(ps: seq<Param>, useJniHelper: bool): string
  {
    if |ps| == 0 then ""
    else
      var unwrap := if useJniHelper && NeedWrapLocalRef(ps[0].ptype) then GetSuffix else "";
      Sep + ps[0].name + unwrap + ParamVals(ps[1..], useJniHelper)
  }

  /** `getJniMethodParamVal(method, useJniHelper)`, the same in both copies. */
  function MethodParamVal(e: Element, useJniHelper: bool): string
  {
    (if InNestedClass(e) then Sep + EnclosingName + (if useJniHelper then GetSuffix else "") else "")
      + ParamVals(e.Params(), useJniHelper)
  }

  lemma {:induction false} ParamValsPrefixed(ps: seq<Param>, useJniHelper: bool)
    ensures ParamVals(ps, useJniHelper) == PrefixEach(ParamArgs(ps, useJniHelper))
  {
    if |ps| > 0 {
      ParamValsPrefixed(ps[1..], useJniHelper);
      assert ParamArgs(ps, useJniHelper)[1..] == ParamArgs(ps[1..], useJniHelper);
    }
  }

  lemma PrefixEachAppend(a: seq<string>, b: seq<string>)
    ensures PrefixEach(a + b) == PrefixEach(a) + PrefixEach(b)
  {
    if |a| > 0 {
      assert (a + b)[1..] == a[1..] + b;
      PrefixEachAppend(a[1..], b);
    } else {
      assert a + b == b;
    }
  }

  /** Every argument is introduced by ", ", one per passed value. */
  lemma MethodParamValArgs(e: Element, useJniHelper: bool)
    ensures MethodParamVal(e, useJniHelper) == PrefixEach(CallArgs(e, useJniHelper))
  {
    ParamValsPrefixed(e.Params(), useJniHelper);
    var en := if InNestedClass(e) then [EnclosingName + (if useJniHelper then GetSuffix else "")] else [];
    PrefixEachAppend(en, ParamArgs(e.Params(), useJniHelper));
  }

  /**
   * The arguments line up with the declared parameters after the leading ones:
   * one argument per declaration, in order, starting with the declared name.
   */
  lemma CallArgsMatchDeclarations(e: Element, useJniHelper: bool)
    requires e.IsExecutable()
    ensures |CallArgs(e, useJniHelper)| == |ExtraParams(e, useJniHelper)|
    ensures forall i | 0 <= i < |CallArgs(e, useJniHelper)| ::
      StartsWith(CallArgs(e, useJniHelper)[i], ExtraParams(e, useJniHelper)[i].name)
  {
    var ca, ex := CallArgs(e, useJniHelper), ExtraParams(e, useJniHelper);
    var k := |EnclosingParams(e)|;
    forall i | 0 <= i < |ca|
      ensures StartsWith(ca[i], ex[i].name)
    {
      if i < k {
        StartsWithAppend(EnclosingName, if useJniHelper then GetSuffix else "");
      } else {
        var p := e.Params()[i - k];
        assert ca[i] == ParamArg(p, useJniHelper);
        assert ex[i] == JniParam(p, useJniHelper);
        StartsWithAppend(p.name, if useJniHelper && NeedWrapLocalRef(p.ptype) then GetSuffix else "");
      }
    }
  }

  lemma StartsWithAppend(p: string, x: string)
    ensures StartsWith(p + x, p)
  {
    assert (p + x)[..|p|] == p;
  }

  predicate StartsWith(s: string, p: string)
  {
    |s| >= |p| && s[..|p|] == p
  }

  /** A Java parameter is unwrapped with ".get()" exactly when it was declared as a `LocalRef`. */
  lemma ParamArgsUnwrapLocalRefs(ps: seq<Param>, useJniHelper: bool)
    ensures forall i | 0 <= i < |ps| ::
      ParamArgs(ps, useJniHelper)[i] == JniParams(ps, useJniHelper)[i].name
        + (if IsLocalRef(JniParams(ps, useJniHelper)[i].ctype) then GetSuffix else "")
  {
    forall i | 0 <= i < |ps|
      ensures IsLocalRef(JniParam(ps[i], useJniHelper).ctype) <==> useJniHelper && NeedWrapLocalRef(ps[i].ptype)
    {
      JniTypeStringLocalRef(ps[i].ptype, useJniHelper);
    }
  }

  /** Does a C++ type name the `LocalRef` wrapper? */
  predicate IsLocalRef(t: string)
  {
    |t| >= |LocalRefPrefix| && t[..|LocalRefPrefix|] == LocalRefPrefix
  }

  lemma JniTypeStringLocalRef(t: JType, useJniHelper: bool)
    ensures IsLocalRef(JniTypeString(t, useJniHelper, false)) <==> useJniHelper && NeedWrapLocalRef(t)
  {
    var r := JniReturnType(t);
    assert LocalRefPrefix[0] == 'c';
    if !(useJniHelper && NeedWrapLocalRef(t)) {
      assert |r| > 0 && r[0] != 'c';
    }
  }

  /** `getJavaMethodParameters`: "type name" pairs of the Java signature, for comments. */
  function JavaMethodParameters(ps: seq<Param>): (r: string)
    ensures |ps| == 1 ==> r == ps[0].ptype.typeName + " " + ps[0].name
  {
    Join(JavaParams(ps), Sep)
  }

  function JavaParams(ps: seq<Param>): (r: seq<string>)
    ensures |r| == |ps|
    ensures forall i | 0 <= i < |ps| :: r[i] == ps[i].ptype.typeName + " " + ps[i].name
  {
    if |ps| == 0 then [] else [ps[0].ptype.typeName + " " + ps[0].name] + JavaParams(ps[1..])
  }

  // ------------------------------------------------------------ provider/ParametersProvider.kt

  /** The leading parameters of the older `makeParameter`; `forceStatic` turns the receiver into the class. */
  function BaseDeclsLegacy(e: Element, useJniHelper: bool, forceStatic: bool): (r: seq<string>)
    ensures |r| == (if useJniHelper then 0 else 2)
  {
    if useJniHelper then []
    else [EnvParam, if IsStatic(e) || forceStatic then ClazzParam else ThizParam]
  }

  /** `makeParameter(element, useJniHelper, forceStatic)` of the older copy. */
  function MakeParameterLegacy(e: Element, useJniHelper: bool, forceStatic: bool): (r: string)
    ensures r == Join(BaseDeclsLegacy(e, useJniHelper, forceStatic), Sep)
    ensures r == "" <==> useJniHelper
  {
    if useJniHelper then ""
    else EnvParam + (if IsStatic(e) || forceStatic then Sep + ClazzParam else Sep + ThizParam)
  }

  function LegacyParam(p: Param): CppParam
  {
    CppParam(JniReturnType(p.ptype), p.name)
  }

  function LegacyParams(ps: seq<Param>): (r: seq<CppParam>)
    ensures |r| == |ps|
    ensures forall i | 0 <= i < |ps| :: r[i] == LegacyParam(ps[i])
  {
    if |ps| == 0 then [] else [LegacyParam(ps[0])] + LegacyParams(ps[1..])
  }

  /** The older `getJniParameters`: every declaration is preceded by ", ". */
  function JniParametersLegacy(ps: seq<Param>): (r: string)
    ensures r == PrefixEach(Decls(LegacyParams(ps)))
  {
    if |ps| == 0 then ""
    else
      assert Decls(LegacyParams(ps))[1..] == Decls(LegacyParams(ps[1..]));
      Sep + JniReturnType(ps[0].ptype) + " " + ps[0].name + JniParametersLegacy(ps[1..])
  }

  /**
   * The older `getJennyElementJniParams` as written: the outer-instance
   * declaration follows the leading parameters with no separator.
   */
  function JennyElementJniParamsLegacy(e: Element, useJniHelper: bool, forceStatic: bool): string
  {
    MakeParameterLegacy(e, useJniHelper, forceStatic)
      + (if InNestedClass(e) then JniReturnType(e.declaring.value.ctype) + " " + EnclosingName else "")
      + (if e.IsExecutable() then JniParametersLegacy(e.Params()) else "")
  }

  /** Every C++ parameter the older wrapper means to declare, in order. */
  function DeclaredParamsLegacy(e: Element, useJniHelper: bool, forceStatic: bool): seq<string>
  {
    BaseDeclsLegacy(e, useJniHelper, forceStatic) + Decls(EnclosingParams(e))
      + (if e.IsExecutable() then Decls(LegacyParams(e.Params())) else [])
  }

  /** The older list with the separator restored: the declared parameters joined by ", ". */
  function JennyElementJniParamsLegacyFixed(e: Element, useJniHelper: bool, forceStatic: bool): string
  {
    Join(DeclaredParamsLegacy(e, useJniHelper, forceStatic), Sep)
  }

  /** Joining a non-empty list equals its first element followed by ", " before each of the rest. */
  lemma {:induction false} JoinPrefixEach(b: seq<string>)
    requires |b| > 0
    ensures Sep + Join(b, Sep) == PrefixEach(b)
  {
    if |b| > 1 {
      JoinPrefixEach(b[1..]);
    }
  }

  /** A join of a first part and a rest: the rest each introduced by ", ". */
  lemma JoinThenPrefixEach(x: seq<string>, ps: seq<string>)
    requires |x| > 0
    ensures Join(x + ps, Sep) == Join(x, Sep) + PrefixEach(ps)
  {
    if |ps| > 0 {
      JoinAppend(x, ps, Sep);
      JoinPrefixEach(ps);
    } else {
      assert x + ps == x;
    }
  }

  /** Outside nested classes the older list, as called (without the helper), already is the join. */
  lemma LegacyFixedAgrees(e: Element, forceStatic: bool)
    requires !InNestedClass(e)
    ensures JennyElementJniParamsLegacyFixed(e, false, forceStatic) == JennyElementJniParamsLegacy(e, false, forceStatic)
  {
    var b := BaseDeclsLegacy(e, false, forceStatic);
    var ps := if e.IsExecutable() then Decls(LegacyParams(e.Params())) else [];
    assert DeclaredParamsLegacy(e, false, forceStatic) == b + ps;
    JoinThenPrefixEach(b, ps);
  }

  /** A join of leading parts, one more part, and a rest. */
  lemma JoinBaseThen(b: seq<string>, d: string, ps: seq<string>)
    requires |b| > 0
    ensures Join(b + ([d] + ps), Sep) == Join(b, Sep) + Sep + d + PrefixEach(ps)
  {
    JoinAppend(b, [d] + ps, Sep);
    JoinThenPrefixEach([d], ps);
  }

  /** The outer-instance declaration of a member of a nested class. */
  function EnclosingDecl(e: Element): string
    requires InNestedClass(e)
  {
    JniReturnType(e.declaring.value.ctype) + " " + EnclosingName
  }

  /** What the older list puts after the outer instance: the Java parameters, each after ", ". */
  function LegacyRest(e: Element): (r: string)
    ensures r == PrefixEach(if e.IsExecutable() then Decls(LegacyParams(e.Params())) else [])
  {
    if e.IsExecutable() then JniParametersLegacy(e.Params()) else ""
  }

  /** As written, in a nested class the outer-instance declaration follows the receiver directly. */
  lemma LegacyNested(e: Element, forceStatic: bool)
    requires InNestedClass(e)
    ensures JennyElementJniParamsLegacy(e, false, forceStatic)
         == MakeParameterLegacy(e, false, forceStatic) + EnclosingDecl(e) + LegacyRest(e)
  {
  }

  /** With the separator restored, ", " stands between the receiver and the outer-instance declaration. */
  lemma LegacyFixedNested(e: Element, forceStatic: bool)
    requires InNestedClass(e)
    ensures JennyElementJniParamsLegacyFixed(e, false, forceStatic)
         == MakeParameterLegacy(e, false, forceStatic) + Sep + EnclosingDecl(e) + LegacyRest(e)
  {
    var b := BaseDeclsLegacy(e, false, forceStatic);
    var ps := if e.IsExecutable() then Decls(LegacyParams(e.Params())) else [];
    assert Decls(EnclosingParams(e)) == [EnclosingDecl(e)];
    assert DeclaredParamsLegacy(e, false, forceStatic) == b + ([EnclosingDecl(e)] + ps);
    JoinBaseThen(b, EnclosingDecl(e), ps);
  }

  /**
   * In a nested class the older list glues the outer-instance declaration to
   * the receiver ("...jobject thizjobject enclosingClass"), where the list with
   * the separator restored puts ", " between them.
   */
  lemma LegacyMissingSeparator(e: Element, forceStatic: bool)
    requires InNestedClass(e)
    ensures JennyElementJniParamsLegacy(e, false, forceStatic)
         == MakeParameterLegacy(e, false, forceStatic) + EnclosingDecl(e) + LegacyRest(e)
    ensures JennyElementJniParamsLegacyFixed(e, false, forceStatic)
         == MakeParameterLegacy(e, false, forceStatic) + Sep + EnclosingDecl(e) + LegacyRest(e)
    ensures JennyElementJniParamsLegacy(e, false, forceStatic) != JennyElementJniParamsLegacyFixed(e, false, forceStatic)
  {
    LegacyNested(e, forceStatic);
    LegacyFixedNested(e, forceStatic);
  }

  // ------------------------------------------------------------ constants

  const ConstexprPrefix: string := "static constexpr "

  /** The rendering of a value the `when (constValue)` of `getConstexprStatement` gives. */
  function RenderValue(v: Option<ConstValue>): (r: string)
  {
    match v
    case None => "Unknown type: null (null)"
    case Some(BoolValue(b)) => if b then "JNI_TRUE" else "JNI_FALSE"
    case Some(NumberValue(t)) => t
    case Some(CharValue(c)) => ['\'', c, '\'']
    case Some(StringValue(s)) => "u8\"" + s + "\""
    case Some(OtherValue(t)) => "Unknown type: " + t
  }

  /** The C++ type of the constant: a Java `String` is declared `auto`. */
  function NativeConstType(e: Element): (r: string)
    ensures r == "auto" <==> JniReturnType(e.etype) == "jstring"
  {
    var jniType := JniReturnType(e.etype);
    if jniType == "jstring" then "auto" else jniType
  }

  /** The value substituted when `call()` throws: the zero of the constant's kind. */
  function FallbackValue(e: Element): (r: ConstValue)
    ensures !r.OtherValue?
    ensures IsPrimitiveKind(e.etype.kind) <==> !r.StringValue?
  {
    match e.etype.kind
    case BOOLEAN => BoolValue(false)
    case BYTE => NumberValue("0")
    case INT => NumberValue("0")
    case SHORT => NumberValue("0")
    case LONG => NumberValue("0")
    case FLOAT => NumberValue("0.0")
    case CHAR => CharValue('\0')
    case DOUBLE => NumberValue("0.0")
    case _ => StringValue("/* Unknown type for '" + e.name + "' */")
  }

  /** The value `getConstexprStatement` renders: what `call()` returned, or the fallback. */
  function ConstantValue(e: Element): Option<ConstValue>
  {
    match e.value
    case Threw => Some(FallbackValue(e))
    case Returned(v) => v
  }

  /** `getConstexprStatement(property)` of `utils/`: never fails, ends with ";" and a newline. */
  function ConstexprStatement(e: Element): string
  {
    ConstexprPrefix + NativeConstType(e) + " " + e.name + " = " + RenderValue(ConstantValue(e)) + ";\n"
  }

  /** Is the value one the older copy can render? */
  predicate Renderable(v: Option<ConstValue>)
  {
    v.Some? && !v.value.OtherValue?
  }

  /**
   * `getConstexprStatement(property)` of `provider/`: an exception from
   * `call()` propagates, and a null or unsupported value is rejected.
   */
  function ConstexprStatementLegacy(e: Element): (r: Result<string>)
    ensures r.Success? <==> e.value.Returned? && Renderable(e.value.value)
    ensures e.value.Threw? ==> r == Failure(Thrown)
  {
    match e.value
    case Threw => Failure(Thrown)
    case Returned(v) =>
      if Renderable(v) then
        Success(ConstexprPrefix + NativeConstType(e) + " " + e.name + " = " + RenderValue(v) + ";")
      else Failure(IllegalArgument(RenderValue(v)))
  }

  /** Where the older copy succeeds the newer prints the same line, followed by a newline. */
  lemma ConstexprCopiesAgree(e: Element)
    ensures ConstexprStatementLegacy(e).Success? ==> ConstexprStatement(e) == ConstexprStatementLegacy(e).value + "\n"
    ensures ConstexprStatementLegacy(e).Failure? && e.value.Returned? ==>
      ConstexprStatementLegacy(e).error == IllegalArgument(RenderValue(e.value.value))
  {
  }

  /** A primitive constant whose `call()` throws is still declared, with the JNI zero of its kind. */
  lemma FallbackRenderingPrimitive(e: Element)
    requires e.value.Threw? && IsPrimitiveKind(e.etype.kind)
    ensures RenderValue(ConstantValue(e)) ==
      match e.etype.kind
      case BOOLEAN => "JNI_FALSE"
      case FLOAT => "0.0"
      case DOUBLE => "0.0"
      case CHAR => ['\'', '\0', '\'']
      case _ => "0"
  {
  }

  /** A reference-typed constant whose `call()` throws gets a string literal holding a comment. */
  lemma FallbackRenderingReference(e: Element)
    requires e.value.Threw? && !IsPrimitiveKind(e.etype.kind)
    ensures RenderValue(ConstantValue(e)) == "u8\"" + ("/* Unknown type for '" + e.name + "' */") + "\""
  {
  }

  /** The JNI types a `Call<Type>Method` result is `reinterpret_cast` to. */
  const NeedCastTypes: set<string> := {
    "jclass", "jstring", "jarray", "jobjectArray",
    "jbooleanArray", "jbyteArray", "jcharArray",
    "jshortArray", "jintArray", "jlongArray",
    "jfloatArray", "jdoubleArray",
    "jthrowable", "jweak"}

  /** `returnTypeNeedCast(jniReturnType)`, identical in every copy. */
  predicate ReturnTypeNeedCast(jniReturnType: string)
  {
    jniReturnType in NeedCastTypes
  }

  /** A class built from primitives, arrays and plain classes, with no wrapper class such as `Integer`. */
  predicate Unboxed(c: JavaClass)
  {
    match c
    case BoxedClass(_) => false
    case ArrayClass(comp) => Unboxed(comp)
    case _ => true
  }

  /**
   * Over such classes a cast is needed exactly for arrays and for `String`,
   * `Class` and `Throwable`: the references whose JNI type is narrower than
   * `jobject`. Each of them is also wrapped in a `LocalRef`.
   */
  lemma NeedCastForClasses(c: JavaClass)
    requires Unboxed(c)
    ensures ReturnTypeNeedCast(JniReturnType(OfClass(c)))
        <==> c.ArrayClass? || (c.OtherClass? && c.name in {"java.lang.String", "java.lang.Class", "java.lang.Throwable"})
    ensures ReturnTypeNeedCast(JniReturnType(OfClass(c))) ==> NeedWrapLocalRef(OfClass(c))
  {
    match c
    case PrimitiveClass(p) =>
      JniReturnTypeTable(p, "");
      PrimitiveNoCast(p);
    case ArrayClass(comp) =>
      if comp.PrimitiveClass? {
        JniReturnTypeTable(comp.p, "");
        PrimitiveArrayNeedsCast(comp.p);
      } else {
        ObjectArrayNeedsCast(comp);
      }
    case OtherClass(n) =>
      OtherClassCast(n);
    case VoidPrimitive =>
      assert JniReturnType(OfClass(c)) == "void";
    case ReflectArrayUtility =>
      assert JniReturnType(OfClass(c)) == "jobject";
  }

  lemma PrimitiveNoCast(p: Primitive)
    ensures !ReturnTypeNeedCast(JniPrimitive(p))
  {
  }

  lemma ObjectArrayNeedsCast(comp: JavaClass)
    requires !comp.PrimitiveClass? && !comp.BoxedClass?
    ensures JniReturnType(OfClass(ArrayClass(comp))) == "jobjectArray"
    ensures ReturnTypeNeedCast("jobjectArray")
  {
    assert !OfClass(comp).isPrimitive;
  }

  lemma OtherClassCast(n: string)
    ensures ReturnTypeNeedCast(JniReturnType(OfClass(OtherClass(n))))
        <==> n in {"java.lang.String", "java.lang.Class", "java.lang.Throwable"}
  {
    var t := OfClass(OtherClass(n));
    assert t.kind == DECLARED && t.typeName == n && !t.isPrimitive && !t.isArray;
  }

  lemma PrimitiveArrayNeedsCast(p: Primitive)
    ensures ReturnTypeNeedCast(JniPrimitive(p) + "Array")
  {
    match p
    case PBoolean => assert JniPrimitive(p) + "Array" == "jbooleanArray";
    case PByte => assert JniPrimitive(p) + "Array" == "jbyteArray";
    case PShort => assert JniPrimitive(p) + "Array" == "jshortArray";
    case PInt => assert JniPrimitive(p) + "Array" == "jintArray";
    case PLong => assert JniPrimitive(p) + "Array" == "jlongArray";
    case PFloat => assert JniPrimitive(p) + "Array" == "jfloatArray";
    case PDouble => assert JniPrimitive(p) + "Array" == "jdoubleArray";
    case PChar => assert JniPrimitive(p) + "Array" == "jcharArray";
  }
}
