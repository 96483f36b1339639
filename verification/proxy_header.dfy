/**
 * `provider/proxy/impl/DefaultJennyProxyHeaderDefinitionsProvider.kt`: the
 * sections of a C++ proxy class for a Java class. These are the preamble
 * that opens the class, the constants, the `initClazz` declarations, one
 * wrapper per constructor and method, the field accessors, the JNI-helper
 * members and the `ClassInitState` struct with its ID members.
 *
 * Maps from element to count are sequences of pairs in iteration order.
 * `FieldSetterGetterFinder` is not part of this model: its choice of
 * accessors is taken to be `hasGetterSetter` of the header provider
 * (`HeaderDefs.HasGetterSetter`).
 */
module ProxyHeader {
  import opened Wrappers
  import opened Text
  import opened Kinds
  import opened Modifiers
  import opened Elements
  import opened Ext
  import opened ClassInfos
  import opened Names
  import opened Params
  import opened HeaderDefs
  import opened Lines
  import opened GlueDefs

  // ------------------------------------------------------------ preamble

  const IncludeAssert: string := "#include <assert.h>"
  const AssertPadding: string := "                        "
  const IncludeAtomic: string := "#include <atomic>"
  const IncludeMutex: string := "#include <mutex>"
  const IncludeJniHelper: string := "#include \"jnihelper.h\""
  const ClassFullName: string := "static constexpr auto FULL_CLASS_NAME = \""

  /** `JennyProxyConfiguration`: the switches the proxy emitter reads. */
  datatype ProxyFlags = ProxyFlags(threadSafe: bool, useJniHelper: bool)

  /** The `#include` lines of the preamble. */
  function Includes(flags: ProxyFlags): (r: seq<Piece>)
    ensures Flat(r)
    ensures L(0, IncludeAtomic) in r <==> flags.threadSafe
    ensures L(0, IncludeMutex) in r <==> flags.threadSafe
    ensures L(0, IncludeJniHelper) in r <==> flags.useJniHelper
  {
    [L(0, PragmaOnce), Blank, L(0, IncludeJni), Line(0, false, IncludeAssert, false, AssertPadding)]
    + (if flags.threadSafe then [L(0, IncludeAtomic), L(0, IncludeMutex)] else [])
    + (if flags.useJniHelper then [L(0, IncludeJniHelper), Blank] else [])
  }

  /** The end of the preamble: the outer namespaces, then the class opened, its public part and the class name constant. */
  function ClassOpening(startOfNamespace: string, ci: ClassInfo): (r: seq<Piece>)
    ensures |r| == 6 && Walk(r, 0) == Some(1)
    ensures r[1] == O(0, "class " + ci.cppClassName + " ")
    ensures r[4] == L(4, ClassFullName + ci.slashClassName + "\";")
  {
    var r := [
      L(0, startOfNamespace),
      O(0, "class " + ci.cppClassName + " "),
      Blank,
      L(0, "public:"),
      L(4, ClassFullName + ci.slashClassName + "\";"),
      Blank];
    assert Walk(r, 0) == Some(1) by {
      var ds: seq<nat> := [0, 0, 1, 1, 1, 1, 1];
      forall i | 0 <= i < |r| ensures Step(r[i], ds[i]) == Some(ds[i + 1]) { }
      WalkTrace(r, ds);
    }
    r
  }

  /**
   * `getProxyHeaderInit(configuration, startOfNamespace, classInfo)`: the
   * includes, with `<atomic>` and `<mutex>` for a thread-safe proxy and
   * the helper header when the JNI helper is used, then the class opened.
   */
  function ProxyHeaderInit(flags: ProxyFlags, startOfNamespace: string, ci: ClassInfo): (r: seq<Piece>)
    ensures r == Includes(flags) + ClassOpening(startOfNamespace, ci)
    ensures Walk(r, 0) == Some(1)
  {
    WalkFlat(Includes(flags), 0);
    WalkAppend(Includes(flags), ClassOpening(startOfNamespace, ci), 0);
    Includes(flags) + ClassOpening(startOfNamespace, ci)
  }

  /**
   * Unlike the glue header's, the proxy's class name constant is the
   * class's slash name itself, the name `FindClass` expects.
   */
  lemma ProxyNamesClassBySlashName(flags: ProxyFlags, startOfNamespace: string, simpleName: string, fullName: string, cppName: string)
    ensures var r := ProxyHeaderInit(flags, startOfNamespace, ExtractClassInfoCpp(simpleName, fullName, cppName));
      r[|r| - 2] == L(4, ClassFullName + SlashName(fullName) + "\";")
  {
  }

  // ------------------------------------------------------------ constants and class-state declarations

  /** The line of one constant, the text `getConstexprStatement` of `utils/` gives. */
  function ConstantLine(e: Element): (r: Piece)
    ensures PieceText(r) == ConstexprStatement(e)
  {
    var head := ConstexprPrefix + NativeConstType(e) + " " + e.name + " = " + RenderValue(ConstantValue(e));
    StatementLine(head);
    L(0, head + ";")
  }

  /** An unindented line that ends a statement. */
  lemma StatementLine(head: string)
    ensures PieceText(L(0, head + ";")) == head + ";\n"
  {
    assert Repeat(' ', 0) == "";
  }

  /** `getConstantsIdDeclare(constants)`: one statement per constant, in order, then a blank line. */
  function ConstantsIdDeclare(cs: seq<Element>): (r: seq<Piece>)
    ensures |r| == |cs| + 1 && Flat(r) && r[|cs|] == Blank
    ensures forall i | 0 <= i < |cs| :: PieceText(r[i]) == ConstexprStatement(cs[i])
  {
    var lines := seq(|cs|, i requires 0 <= i < |cs| => ConstantLine(cs[i]));
    lines + [Blank]
  }

  const InitClazzDecl: string := "static bool initClazz(JNIEnv* env);"
  const ReleaseClazzDecl: string := "static void releaseClazz(JNIEnv* env);"
  const AssertInitedHead: string := "static void assertInited(JNIEnv* env) "
  const AssertInitedCall: string := "auto initClazzSuccess = initClazz(env);"
  const AssertInitedCheck: string := "assert(initClazzSuccess);"

  /** `getProxyHeaderClazzInit()`: the public `initClazz`, `releaseClazz` and `assertInited`. */
  function ProxyHeaderClazzInit(): (r: seq<Piece>)
    ensures Balanced(r)
    ensures L(4, InitClazzDecl) in r && L(4, ReleaseClazzDecl) in r
  {
    var r := [
      Blank,
      L(0, "public:"),
      Blank,
      L(4, InitClazzDecl),
      L(4, ""),
      L(4, ReleaseClazzDecl),
      Blank,
      O(4, AssertInitedHead),
      L(8, AssertInitedCall),
      L(8, AssertInitedCheck),
      C(4, ""),
      L(4, "")];
    assert Balanced(r) by {
      var ds: seq<nat> := [0, 0, 0, 0, 0, 0, 0, 0, 1, 1, 1, 0, 0];
      forall i | 0 <= i < |r| ensures Step(r[i], ds[i]) == Some(ds[i + 1]) { }
      WalkTrace(r, ds);
    }
    assert r[3] == L(4, InitClazzDecl) && r[5] == L(4, ReleaseClazzDecl);
    r
  }

  // ------------------------------------------------------------ wrapper bodies

  const HelperEnv: string := "::jenny::Env env; "
  const HelperInited: string := "assertInited(env.get());"
  const HelperThis: string := "::jenny::LocalRef<jobject> jennyLocalRef = getThis(false); "
  const ThizFromRef: string := " = jennyLocalRef.get();"
  const PlainInited: string := "assertInited(env);"
  const Thiz: string := "thiz"

  /**
   * `getJniMethodPrologue(useJniHelper, isStatic)`: with the helper a static
   * wrapper makes its own `env`, and an instance wrapper also obtains
   * `thiz` from the proxy's reference; without it `env` is a parameter.
   */
  function Prologue(useJniHelper: bool, isStatic: bool): (r: string)
    ensures useJniHelper && !isStatic ==> OccursAt(r, ThizParam, |HelperEnv + HelperThis|)
    ensures useJniHelper ==> StartsWith(r, HelperEnv)
  {
    if useJniHelper then
      if isStatic then HelperEnv + HelperInited
      else
        assert ThizParam == "jobject thiz";
        HelperEnv + HelperThis + (ThizParam + ThizFromRef)
    else PlainInited
  }

  /** `staticMod`: every wrapper is a static member function, except an instance one with the helper. */
  function StaticMod(isStatic: bool, useJniHelper: bool): string
  {
    if isStatic || !useJniHelper then "static " else ""
  }

  /** `constMod`: an instance wrapper with the helper is a `const` member function. */
  function ConstMod(isStatic: bool, useJniHelper: bool): string
  {
    if isStatic || !useJniHelper then "" else "const "
  }

  /**
   * A wrapper is either a static member function or a `const` one, never
   * both; it is `const` exactly for an instance member with the helper.
   */
  lemma StaticOrConst(isStatic: bool, useJniHelper: bool)
    ensures (StaticMod(isStatic, useJniHelper) == "") != (ConstMod(isStatic, useJniHelper) == "")
    ensures ConstMod(isStatic, useJniHelper) != "" <==> !isStatic && useJniHelper
  {
  }

  /** `classOrObj`: static members are reached through the class, instance members through `thiz`. */
  function Receiver(e: Element): string
  {
    if IsStatic(e) then DefaultClassState() else Thiz
  }

  /** `"Static"` for a static member, which selects `CallStatic…`, `GetStatic…` and `SetStatic…`. */
  function StaticWord(e: Element): string
  {
    if IsStatic(e) then "Static" else ""
  }

  /**
   * The receiver `thiz` a non-static wrapper passes is in scope: the helper's
   * prologue defines it, and without the helper it is the second declared
   * parameter (after `JNIEnv* env`).
   */
  lemma ReceiverInScope(e: Element, useJniHelper: bool)
    requires !IsConstructor(e)
    ensures Receiver(e) == Thiz <==> !IsStatic(e)
    ensures !IsStatic(e) && useJniHelper ==> OccursAt(Prologue(useJniHelper, false), ThizParam, |HelperEnv + HelperThis|)
    ensures !IsStatic(e) && !useJniHelper ==> BaseDecls(e, useJniHelper) == [EnvParam, ThizParam]
    ensures ThizParam == "jobject " + Thiz
  {
    assert DefaultClassState() != Thiz by {
      assert DefaultClassState()[0] == 'g';
    }
  }

  const CastOpen: string := "reinterpret_cast<"

  /** The `LocalRef<…>(` and `reinterpret_cast<…>(` a result passes through, outermost first. */
  function Openers(wrapType: string, jniType: string, wrap: bool, cast: bool): string
  {
    (if wrap then wrapType + "(" else "") + (if cast then CastOpen + jniType + ">(" else "")
  }

  /** The parentheses that close `Openers`, innermost first. */
  function Closers(wrap: bool, cast: bool): string
  {
    (if cast then ")" else "") + (if wrap then ")" else "")
  }

  /** Opening minus closing parentheses. */
  function Net(s: string): int
  {
    Count(s, '(') - Count(s, ')')
  }

  lemma NetAppend(a: string, b: string)
    ensures Net(a + b) == Net(a) + Net(b)
  {
    CountAppend(a, b, '(');
    CountAppend(a, b, ')');
  }

  predicate NoParens(s: string)
  {
    '(' !in s && ')' !in s
  }

  function Flag(b: bool): nat
  {
    if b then 1 else 0
  }

  lemma NetLiterals()
    ensures Net("") == 0 && Net("(") == 1 && Net(")") == -1 && Net(">(") == 1 && Net(CastOpen) == 0
  {
    assert Count("(", '(') == 1 && Count("(", ')') == 0;
    assert Count(")", '(') == 0 && Count(")", ')') == 1;
    assert Count(">(", '(') == 1 && Count(">(", ')') == 0;
    assert '(' !in CastOpen && ')' !in CastOpen;
  }

  /** Each opener leaves one parenthesis open and each closer closes one. */
  lemma WrapperParens(wrapType: string, jniType: string, wrap: bool, cast: bool)
    requires NoParens(wrapType) && NoParens(jniType)
    ensures Net(Openers(wrapType, jniType, wrap, cast)) == Flag(wrap) + Flag(cast)
    ensures Net(Closers(wrap, cast)) == -(Flag(wrap) + Flag(cast))
  {
    NetLiterals();
    var w := if wrap then wrapType + "(" else "";
    var c := if cast then CastOpen + jniType + ">(" else "";
    assert Net(w) == Flag(wrap) by {
      if wrap { NetAppend(wrapType, "("); }
    }
    assert Net(c) == Flag(cast) by {
      if cast {
        NetAppend(CastOpen, jniType);
        NetAppend(CastOpen + jniType, ">(");
      }
    }
    NetAppend(w, c);
    NetAppend(if cast then ")" else "", if wrap then ")" else "");
  }

  // ------------------------------------------------------------ constructors

  /** The type a constructor wrapper returns: the proxy itself with the helper, a bare `jobject` without. */
  function ConstructorReturnType(cppClassName: string, useJniHelper: bool): string
  {
    if useJniHelper then cppClassName else "jobject"
  }

  /** The signature of a constructor wrapper: static, returning `ConstructorReturnType`, named after the element. */
  function ConstructorSignature(cppClassName: string, c: Element, useJniHelper: bool): string
  {
    "static " + ConstructorReturnType(cppClassName, useJniHelper) + " " + c.name + "(" + JennyElementJniParams(c, useJniHelper) + ") "
  }

  const NewObjectOpen: string := "return env->NewObject("

  /** The statement of a constructor wrapper: `NewObject` through the constructor ID numbered `count`. */
  function NewObjectStatement(c: Element, count: nat, useJniHelper: bool): string
  {
    NewObjectOpen + DefaultClassState() + ", " + ClassState(ConstructorIdName(count)) + MethodParamVal(c, useJniHelper) + ");"
  }

  /** The `NewObject` of a constructor wrapper names the class, then the constructor ID numbered `count`. */
  lemma NewObjectUsesId(c: Element, count: nat, useJniHelper: bool)
    ensures OccursAt(NewObjectStatement(c, count, useJniHelper), ClassState(ConstructorIdName(count)), |NewObjectOpen + DefaultClassState() + ", "|)
  {
    var head := NewObjectOpen + DefaultClassState() + ", ";
    var id := ClassState(ConstructorIdName(count));
    var rest := MethodParamVal(c, useJniHelper) + ");";
    assert NewObjectStatement(c, count, useJniHelper) == head + id + rest;
    assert (head + id + rest)[|head|..|head| + |id|] == id;
  }

  /**
   * The texts of one generated wrapper function: the lines before its
   * signature (comments), the signature that opens its body, the prologue
   * and the one statement of the body, the piece that closes the body, and
   * the number of blank lines after it.
   */
  datatype Wrapper = Wrapper(
    head: seq<Piece>,
    signature: string,
    prologueIndent: nat,
    prologue: string,
    statementIndent: nat,
    statement: string,
    close: Piece,
    trail: nat)
  {
    /** Comments that neither open nor close a block, and a close that closes the body without opening another. */
    predicate WellFormed()
    {
      Flat(head) && Closes(close) && !Opens(close)
    }
  }

  function Blanks(n: nat): (r: seq<Piece>)
    ensures |r| == n && Flat(r)
    ensures forall i | 0 <= i < n :: r[i] == Blank
  {
    if n == 0 then [] else [Blank] + Blanks(n - 1)
  }

  /** A wrapper whose body is closed by a `}` line. */
  function ClosedWrapper(head: seq<Piece>, signature: string, prologueIndent: nat, prologue: string,
                         statementIndent: nat, statement: string, trail: nat): (w: Wrapper)
    requires Flat(head)
    ensures w.WellFormed() && w.head == head && w.trail == trail
    ensures w.signature == signature && w.statementIndent == statementIndent && w.statement == statement
  {
    Wrapper(head, signature, prologueIndent, prologue, statementIndent, statement, C(4, ""), trail)
  }

  /** The lines of a wrapper. */
  function WrapperBlock(w: Wrapper): (r: seq<Piece>)
    ensures |r| == |w.head| + 4 + w.trail
    ensures r[|w.head|] == O(4, w.signature) && r[|w.head| + 2] == L(w.statementIndent, w.statement)
  {
    w.head + [O(4, w.signature), L(w.prologueIndent, w.prologue), L(w.statementIndent, w.statement), w.close] + Blanks(w.trail)
  }

  /** A well-formed wrapper closes the one block it opens. */
  lemma WrapperBlockBalanced(w: Wrapper)
    requires w.WellFormed()
    ensures Balanced(WrapperBlock(w))
  {
    var body := [O(4, w.signature), L(w.prologueIndent, w.prologue), L(w.statementIndent, w.statement), w.close];
    assert Balanced(body) by {
      var ds: seq<nat> := [0, 1, 1, 1, 0];
      forall i | 0 <= i < |body| ensures Step(body[i], ds[i]) == Some(ds[i + 1]) { }
      WalkTrace(body, ds);
    }
    WalkFlat(w.head, 0);
    WalkAppend(w.head, body, 0);
    WalkFlat(Blanks(w.trail), 0);
    WalkAppend(w.head + body, Blanks(w.trail), 0);
  }

  /** The lines of each wrapper, in order. */
  function WrapperBlocks(ws: seq<Wrapper>): (r: seq<seq<Piece>>)
    ensures |r| == |ws|
    ensures forall k | 0 <= k < |ws| :: r[k] == WrapperBlock(ws[k])
  {
    seq(|ws|, k requires 0 <= k < |ws| => WrapperBlock(ws[k]))
  }

  /** Wrappers that all have the same shape. */
  predicate Uniform(ws: seq<Wrapper>, headSize: nat, trail: nat)
  {
    forall k | 0 <= k < |ws| :: |ws[k].head| == headSize && ws[k].trail == trail && ws[k].WellFormed()
  }

  /** Well-formed wrappers, one after another, are balanced. */
  lemma WrappersBalanced(ws: seq<Wrapper>)
    requires forall k | 0 <= k < |ws| :: ws[k].WellFormed()
    ensures Balanced(Flatten(WrapperBlocks(ws)))
  {
    var bs := WrapperBlocks(ws);
    forall k | 0 <= k < |bs| ensures Walk(bs[k], 0) == Some(0) {
      WrapperBlockBalanced(ws[k]);
    }
    FlattenWalk(bs, 0);
  }

  /**
   * Among wrappers of one shape followed by `tail`, the signature of the
   * k-th wrapper is at line `n * k + h` and its statement two lines later,
   * where `n` is the wrapper size and `h` its number of comment lines.
   */
  lemma WrapperAt(ws: seq<Wrapper>, headSize: nat, trail: nat, n: nat, tail: seq<Piece>, r: seq<Piece>, k: nat, at: nat)
    requires Uniform(ws, headSize, trail) && n == headSize + 4 + trail && k < |ws| && at == n * k
    requires r == Flatten(WrapperBlocks(ws)) + tail
    ensures |r| == n * |ws| + |tail| && at + n <= n * |ws|
    ensures r[at + headSize] == O(4, ws[k].signature)
    ensures r[at + headSize + 2] == L(ws[k].statementIndent, ws[k].statement)
  {
    var bs := WrapperBlocks(ws);
    assert forall i | 0 <= i < |bs| :: |bs[i]| == n;
    BlockAt(bs, tail, n, k, headSize);
    BlockAt(bs, tail, n, k, headSize + 2);
  }

  /** The wrapper of one constructor: comment, signature, prologue, `NewObject`, close, one blank line. */
  function ConstructorWrapper(simpleClassName: string, cppClassName: string, c: Element, count: nat, useJniHelper: bool): (w: Wrapper)
    ensures |w.head| == 1 && w.trail == 1 && w.WellFormed()
    ensures w.signature == ConstructorSignature(cppClassName, c, useJniHelper)
    ensures w.statementIndent == 8 && w.statement == NewObjectStatement(c, count, useJniHelper)
  {
    ClosedWrapper(
      [L(4, ConstructorComment(simpleClassName, c))],
      ConstructorSignature(cppClassName, c, useJniHelper),
      11, Prologue(useJniHelper, true),
      8, NewObjectStatement(c, count, useJniHelper), 1)
  }

  function ConstructorComment(simpleClassName: string, c: Element): string
  {
    "// construct: " + Print(c.modifiers) + " " + simpleClassName + "(" + JavaMethodParameters(c.Params()) + ")"
  }

  function ConstructorWrappers(simpleClassName: string, cppClassName: string, cs: seq<(Element, nat)>, useJniHelper: bool): (r: seq<Wrapper>)
    ensures |r| == |cs| && Uniform(r, 1, 1)
    ensures forall k | 0 <= k < |cs| :: r[k] == ConstructorWrapper(simpleClassName, cppClassName, cs[k].0, cs[k].1, useJniHelper)
  {
    seq(|cs|, k requires 0 <= k < |cs| => ConstructorWrapper(simpleClassName, cppClassName, cs[k].0, cs[k].1, useJniHelper))
  }

  /** `getConstructorsDefinitions`: one wrapper per constructor in the map's order, then a blank line. */
  function ConstructorsDefinitions(simpleClassName: string, cppClassName: string, cs: seq<(Element, nat)>, useJniHelper: bool): (r: seq<Piece>)
    ensures Balanced(r)
  {
    var ws := ConstructorWrappers(simpleClassName, cppClassName, cs, useJniHelper);
    WrappersBalanced(ws);
    WalkAppend(Flatten(WrapperBlocks(ws)), [Blank], 0);
    Flatten(WrapperBlocks(ws)) + [Blank]
  }

  /** `getConstructorIdDeclare`: the ID member of each constructor, in the map's order. */
  function ConstructorIdDeclare(cs: seq<(Element, nat)>): (r: seq<Piece>)
    ensures |r| == |cs| + 1 && Flat(r) && r[|cs|] == Blank
    ensures forall k | 0 <= k < |cs| :: r[k] == L(4, "jmethodID " + ConstructorIdName(cs[k].1) + " = nullptr;")
  {
    if |cs| == 0 then [Blank] else [L(4, "jmethodID " + ConstructorIdName(cs[0].1) + " = nullptr;")] + ConstructorIdDeclare(cs[1..])
  }

  /**
   * The wrapper of the k-th constructor opens at line `6k + 1`, and its
   * `NewObject` on line `6k + 3` goes through the member that the k-th ID
   * declaration of the same map declares.
   */
  lemma ConstructorUsesDeclaredId(simpleClassName: string, cppClassName: string, cs: seq<(Element, nat)>, useJniHelper: bool, k: nat)
    requires k < |cs|
    ensures var r := ConstructorsDefinitions(simpleClassName, cppClassName, cs, useJniHelper);
      |r| == 6 * |cs| + 1
      && r[6 * k + 1] == O(4, ConstructorSignature(cppClassName, cs[k].0, useJniHelper))
      && r[6 * k + 3] == L(8, NewObjectStatement(cs[k].0, cs[k].1, useJniHelper))
    ensures var id := ConstructorIdName(cs[k].1);
      ConstructorIdDeclare(cs)[k] == L(4, "jmethodID " + id + " = nullptr;")
      && Contains(NewObjectStatement(cs[k].0, cs[k].1, useJniHelper), ClassState(id))
  {
    var ws := ConstructorWrappers(simpleClassName, cppClassName, cs, useJniHelper);
    var r := ConstructorsDefinitions(simpleClassName, cppClassName, cs, useJniHelper);
    SixLineWrappersAt(ws, r, k);
    assert ws[k] == ConstructorWrapper(simpleClassName, cppClassName, cs[k].0, cs[k].1, useJniHelper);
    NewObjectUsesId(cs[k].0, cs[k].1, useJniHelper);
  }

  /** Six-line wrappers followed by a blank line: the k-th opens at line `6k + 1`. */
  lemma SixLineWrappersAt(ws: seq<Wrapper>, r: seq<Piece>, k: nat)
    requires Uniform(ws, 1, 1) && k < |ws| && r == Flatten(WrapperBlocks(ws)) + [Blank]
    ensures |r| == 6 * |ws| + 1
    ensures r[6 * k + 1] == O(4, ws[k].signature) && r[6 * k + 3] == L(ws[k].statementIndent, ws[k].statement)
  {
    WrapperAt(ws, 1, 1, 6, [Blank], r, k, 6 * k);
  }

  /** Line `j` of block `k` of uniform blocks of `n` lines, followed by a tail, is line `n * k + j` of the whole. */
  lemma BlockAt(bs: seq<seq<Piece>>, tail: seq<Piece>, n: nat, k: nat, j: nat)
    requires forall i | 0 <= i < |bs| :: |bs[i]| == n
    requires k < |bs| && j < n
    ensures |Flatten(bs) + tail| == n * |bs| + |tail| && n * k + n <= |Flatten(bs)|
    ensures (Flatten(bs) + tail)[n * k + j] == bs[k][j]
  {
    FlattenUniform(bs, n, k);
    assert Flatten(bs)[n * k..n * k + n][j] == Flatten(bs)[n * k + j];
  }

  /**
   * The wrapper of a constructor is named after the element, and a
   * constructor's element name is `<init>`: every constructor wrapper is
   * called `<init>`, which is not a C++ identifier.
   */
  lemma ConstructorWrapperNamedInit(cppClassName: string, c: Element, useJniHelper: bool)
    requires IsConstructor(c)
    ensures var sig := ConstructorSignature(cppClassName, c, useJniHelper);
      var prefix := "static " + ConstructorReturnType(cppClassName, useJniHelper) + " ";
      StartsWith(sig, prefix) && sig[|prefix|..|prefix| + 6] == "<init>"
  {
    var prefix := "static " + ConstructorReturnType(cppClassName, useJniHelper) + " ";
    NameAfterPrefix(prefix, c.name, "(", JennyElementJniParams(c, useJniHelper), ") ");
  }

  lemma NameAfterPrefix(prefix: string, name: string, a: string, b: string, c: string)
    ensures var s := prefix + name + a + b + c;
      s[..|prefix|] == prefix && s[|prefix|..|prefix| + |name|] == name
  {
    var s := prefix + name + a + b + c;
    assert s[..|prefix|] == prefix;
    assert s[|prefix|..|prefix| + |name|] == name;
  }

  // ------------------------------------------------------------ methods

  const HelperComment: string := "// for jni helper"
  const LocalRefOpen: string := "::jenny::LocalRef<"

  /** `::jenny::LocalRef<T>`, the helper's owning wrapper of a local reference. */
  function LocalRefOf(jniType: string): (r: string)
    ensures |r| > |jniType|
  {
    LocalRefOpen + jniType + ">"
  }

  /** The Java return type of a method. */
  function ReturnType(m: Element): JType
    requires m.IsExecutable()
  {
    m.exec.value.returnType
  }

  /** With the helper a method returning a reference hands it back in a `LocalRef`. */
  predicate MethodWraps(m: Element, useJniHelper: bool)
    requires m.IsExecutable()
  {
    useJniHelper && NeedWrapLocalRef(ReturnType(m))
  }

  /** `functionReturnType`: the C++ type the method wrapper returns. */
  function MethodResultType(m: Element, useJniHelper: bool): string
    requires m.IsExecutable()
  {
    if MethodWraps(m, useJniHelper) then LocalRefOf(JniReturnType(ReturnType(m))) else JniReturnType(ReturnType(m))
  }

  /** `env->Call[Static]<Type>Method(receiver, `: the call up to the method ID. */
  function MethodCallHead(m: Element): (r: string)
    requires m.IsExecutable()
    ensures StartsWith(r, "env->Call")
  {
    "env->Call" + StaticWord(m) + JniCall(ReturnType(m)) + "Method(" + Receiver(m) + ", "
  }

  /** `env->Call[Static]<Type>Method(receiver, methodId, args…)` */
  function MethodCall(m: Element, count: nat, useJniHelper: bool): string
    requires m.IsExecutable()
  {
    MethodCallHead(m) + ClassState(ElementName(m, count)) + (MethodParamVal(m, useJniHelper) + ")")
  }

  /** `return ` for a method with a value, nothing for a `void` one. */
  function ReturnLead(t: JType): (r: string)
    ensures r == "return " <==> t.kind != VOID
    ensures r == "" <==> t.kind == VOID
  {
    if t.kind != VOID then "return " else ""
  }

  /** A statement that passes the value of `call` through the openers and closers. */
  function CallStatement(lead: string, wrapType: string, jniType: string, wrap: bool, cast: bool, call: string): string
  {
    lead + Openers(wrapType, jniType, wrap, cast) + call + Closers(wrap, cast) + ";"
  }

  /** The statement of a method wrapper: the call, wrapped and cast as the result type needs. */
  function MethodStatement(m: Element, count: nat, useJniHelper: bool): string
    requires m.IsExecutable()
  {
    CallStatement(ReturnLead(ReturnType(m)), MethodResultType(m, useJniHelper), JniReturnType(ReturnType(m)),
      MethodWraps(m, useJniHelper), ReturnTypeNeedCast(JniReturnType(ReturnType(m))), MethodCall(m, count, useJniHelper))
  }

  /** The signature of a method wrapper, named after the method. */
  function MethodSignature(m: Element, useJniHelper: bool): string
    requires m.IsExecutable()
  {
    StaticMod(IsStatic(m), useJniHelper) + MethodResultType(m, useJniHelper)
      + (" " + m.name + "(" + JennyElementJniParams(m, useJniHelper) + ") " + ConstMod(IsStatic(m), useJniHelper))
  }

  /** The comment lines of a method wrapper. */
  function MethodComments(m: Element, useJniHelper: bool): (r: seq<Piece>)
    requires m.IsExecutable()
    ensures |r| == (if useJniHelper then 2 else 1) && Flat(r)
  {
    (if useJniHelper then [L(4, HelperComment)] else [])
    + [L(4, "// method: " + Print(m.modifiers) + " " + ReturnType(m).typeName + " " + m.name + "(" + JavaMethodParameters(m.Params()) + ")")]
  }

  /** The wrapper of one method: comments, signature, prologue, call, close, two blank lines. */
  function MethodWrapper(m: Element, count: nat, useJniHelper: bool): (w: Wrapper)
    requires m.IsExecutable()
    ensures |w.head| == (if useJniHelper then 2 else 1) && w.trail == 2 && w.WellFormed()
    ensures w.signature == MethodSignature(m, useJniHelper)
    ensures w.statementIndent == 8 && w.statement == MethodStatement(m, count, useJniHelper)
  {
    ClosedWrapper(
      MethodComments(m, useJniHelper),
      MethodSignature(m, useJniHelper),
      8, Prologue(useJniHelper, IsStatic(m)),
      8, MethodStatement(m, count, useJniHelper), 2)
  }

  /** The methods of a `Map<JennyExecutableElement, Int>`. */
  predicate AllExecutable(ms: seq<(Element, nat)>)
  {
    forall k | 0 <= k < |ms| :: ms[k].0.IsExecutable()
  }

  function MethodWrappers(ms: seq<(Element, nat)>, useJniHelper: bool): (r: seq<Wrapper>)
    requires AllExecutable(ms)
    ensures |r| == |ms| && Uniform(r, if useJniHelper then 2 else 1, 2)
    ensures forall k | 0 <= k < |ms| :: r[k] == MethodWrapper(ms[k].0, ms[k].1, useJniHelper)
  {
    seq(|ms|, k requires 0 <= k < |ms| => MethodWrapper(ms[k].0, ms[k].1, useJniHelper))
  }

  /** `getMethodsDefinitions`: one wrapper per method in the map's order. */
  function MethodsDefinitions(ms: seq<(Element, nat)>, useJniHelper: bool): (r: seq<Piece>)
    requires AllExecutable(ms)
    ensures Balanced(r)
  {
    var ws := MethodWrappers(ms, useJniHelper);
    WrappersBalanced(ws);
    Flatten(WrapperBlocks(ws))
  }

  /** `getMethodIdDeclare`: the ID member of each method, in the map's order, then a blank line. */
  function MethodIdDeclare(ms: seq<(Element, nat)>): (r: seq<Piece>)
    ensures |r| == |ms| + 1 && Flat(r) && r[|ms|] == Blank
    ensures forall k | 0 <= k < |ms| :: r[k] == L(4, "jmethodID " + ElementName(ms[k].0, ms[k].1) + " = nullptr;")
  {
    if |ms| == 0 then [Blank] else [L(4, "jmethodID " + ElementName(ms[0].0, ms[0].1) + " = nullptr;")] + MethodIdDeclare(ms[1..])
  }

  /** Seven-line wrappers: the k-th opens at line `7k + 1`. */
  lemma SevenLineWrappersAt(ws: seq<Wrapper>, r: seq<Piece>, k: nat)
    requires Uniform(ws, 1, 2) && k < |ws| && r == Flatten(WrapperBlocks(ws))
    ensures |r| == 7 * |ws|
    ensures r[7 * k + 1] == O(4, ws[k].signature) && r[7 * k + 3] == L(ws[k].statementIndent, ws[k].statement)
  {
    assert r == r + [];
    WrapperAt(ws, 1, 2, 7, [], r, k, 7 * k);
  }

  /** Eight-line wrappers: the k-th opens at line `8k + 2`. */
  lemma EightLineWrappersAt(ws: seq<Wrapper>, r: seq<Piece>, k: nat)
    requires Uniform(ws, 2, 2) && k < |ws| && r == Flatten(WrapperBlocks(ws))
    ensures |r| == 8 * |ws|
    ensures r[8 * k + 2] == O(4, ws[k].signature) && r[8 * k + 4] == L(ws[k].statementIndent, ws[k].statement)
  {
    assert r == r + [];
    WrapperAt(ws, 2, 2, 8, [], r, k, 8 * k);
  }

  /** `p` between `a` and `b` occurs right after `a`. */
  lemma Between(a: string, p: string, b: string)
    ensures OccursAt(a + p + b, p, |a|) && Contains(a + p + b, p)
  {
    assert (a + p + b)[|a|..|a| + |p|] == p;
    assert OccursAt(a + p + b, p, |a|);
  }

  /** Text found in the call is found in the statement around it. */
  lemma CallStatementContains(lead: string, wrapType: string, jniType: string, wrap: bool, cast: bool, call: string, p: string)
    requires Contains(call, p)
    ensures Contains(CallStatement(lead, wrapType, jniType, wrap, cast, call), p)
  {
    var i: nat :| i <= |call| && OccursAt(call, p, i);
    var pre := lead + Openers(wrapType, jniType, wrap, cast);
    var post := Closers(wrap, cast) + ";";
    assert CallStatement(lead, wrapType, jniType, wrap, cast, call) == pre + call + post;
    assert (pre + call + post)[|pre| + i..|pre| + i + |p|] == call[i..i + |p|];
    assert OccursAt(pre + call + post, p, |pre| + i);
  }

  /**
   * A call statement leaves open exactly the parentheses the call leaves
   * open; without the closers it leaves one more open for each wrapper and
   * each cast.
   */
  lemma CallStatementParens(lead: string, wrapType: string, jniType: string, wrap: bool, cast: bool, call: string)
    requires NoParens(lead) && NoParens(wrapType) && NoParens(jniType)
    ensures Net(CallStatement(lead, wrapType, jniType, wrap, cast, call)) == Net(call)
    ensures Net(lead + Openers(wrapType, jniType, wrap, cast) + call + ";") == Net(call) + Flag(wrap) + Flag(cast)
  {
    var op := Openers(wrapType, jniType, wrap, cast);
    var cl := Closers(wrap, cast);
    WrapperParens(wrapType, jniType, wrap, cast);
    assert Net(lead) == 0 && Net(";") == 0 by {
      assert Count(lead, '(') == 0 && Count(lead, ')') == 0;
      assert Count(";", '(') == 0 && Count(";", ')') == 0;
    }
    NetAppend(lead, op);
    NetAppend(lead + op, call);
    NetAppend(lead + op + call, cl);
    NetAppend(lead + op + call + cl, ";");
    NetAppend(lead + op + call, ";");
  }

  /**
   * A statement led by `return ` starts with it; one with no lead starts
   * with its openers or its call, neither of which is `return `.
   */
  lemma CallStatementReturns(lead: string, wrapType: string, jniType: string, wrap: bool, cast: bool, call: string)
    requires lead == "return " || (lead == "" && !wrap)
    requires StartsWith(call, "env->Call")
    ensures StartsWith(CallStatement(lead, wrapType, jniType, wrap, cast, call), "return ") <==> lead == "return "
  {
    var s := CallStatement(lead, wrapType, jniType, wrap, cast, call);
    if lead == "" {
      var rest := Openers(wrapType, jniType, false, cast) + call;
      assert s == rest + (Closers(false, cast) + ";");
      if cast {
        assert rest == CastOpen + (jniType + ">(" + call);
        assert rest[2] == CastOpen[2] == 'i';
      } else {
        assert rest == call;
        assert rest[2] == "env->Call"[2] == 'v';
      }
      assert s[2] == rest[2];
    } else {
      assert s == "return " + (Openers(wrapType, jniType, wrap, cast) + call + Closers(wrap, cast) + ";");
    }
  }

  lemma LocalRefNoParens(jniType: string)
    requires NoParens(jniType)
    ensures NoParens(LocalRefOf(jniType))
  {
    assert '(' !in LocalRefOpen && ')' !in LocalRefOpen;
  }

  /**
   * The statement of a method wrapper closes every `LocalRef(` and
   * `reinterpret_cast<…>(` it opens around the call.
   */
  lemma MethodStatementParens(m: Element, count: nat, useJniHelper: bool)
    requires m.IsExecutable() && NoParens(JniReturnType(ReturnType(m)))
    ensures Net(MethodStatement(m, count, useJniHelper)) == Net(MethodCall(m, count, useJniHelper))
  {
    var jniType := JniReturnType(ReturnType(m));
    LocalRefNoParens(jniType);
    assert NoParens(ReturnLead(ReturnType(m)));
    CallStatementParens(ReturnLead(ReturnType(m)), MethodResultType(m, useJniHelper), jniType,
      MethodWraps(m, useJniHelper), ReturnTypeNeedCast(jniType), MethodCall(m, count, useJniHelper));
  }

  /** The method wrapper returns the call's value exactly when the method is not `void`. */
  lemma MethodReturnsIffValue(m: Element, count: nat, useJniHelper: bool)
    requires m.IsExecutable()
    ensures StartsWith(MethodStatement(m, count, useJniHelper), "return ") <==> ReturnType(m).kind != VOID
  {
    var jniType := JniReturnType(ReturnType(m));
    var call := MethodCall(m, count, useJniHelper);
    assert StartsWith(call, "env->Call") by {
      var h := MethodCallHead(m);
      assert call == h + (ClassState(ElementName(m, count)) + (MethodParamVal(m, useJniHelper) + ")"));
    }
    CallStatementReturns(ReturnLead(ReturnType(m)), MethodResultType(m, useJniHelper), jniType,
      MethodWraps(m, useJniHelper), ReturnTypeNeedCast(jniType), call);
  }

  /**
   * With the helper a method returning a reference declares the
   * `LocalRef<…>` type and builds its result as that type.
   */
  lemma MethodResultAsDeclared(m: Element, count: nat, useJniHelper: bool)
    requires m.IsExecutable() && MethodWraps(m, useJniHelper)
    ensures OccursAt(MethodSignature(m, useJniHelper), LocalRefOf(JniReturnType(ReturnType(m))), |StaticMod(IsStatic(m), useJniHelper)|)
    ensures OccursAt(MethodStatement(m, count, useJniHelper), LocalRefOf(JniReturnType(ReturnType(m))) + "(", |ReturnLead(ReturnType(m))|)
  {
    var jniType := JniReturnType(ReturnType(m));
    var t := LocalRefOf(jniType);
    var sm := StaticMod(IsStatic(m), useJniHelper);
    Between(sm, t, " " + m.name + "(" + JennyElementJniParams(m, useJniHelper) + ") " + ConstMod(IsStatic(m), useJniHelper));
    WrappedStatementStarts(ReturnLead(ReturnType(m)), t, jniType, ReturnTypeNeedCast(jniType), MethodCall(m, count, useJniHelper));
  }

  /** A wrapped statement builds its value as the wrapper type, right after the lead. */
  lemma WrappedStatementStarts(lead: string, wrapType: string, jniType: string, cast: bool, call: string)
    ensures OccursAt(CallStatement(lead, wrapType, jniType, true, cast, call), wrapType + "(", |lead|)
  {
    var after := (if cast then CastOpen + jniType + ">(" else "") + call + Closers(true, cast) + ";";
    assert CallStatement(lead, wrapType, jniType, true, cast, call) == lead + (wrapType + "(") + after;
    Between(lead, wrapType + "(", after);
  }

  /** The call of a method wrapper goes through the class-state member of its method ID. */
  lemma MethodCallUsesId(m: Element, count: nat, useJniHelper: bool)
    requires m.IsExecutable()
    ensures Contains(MethodStatement(m, count, useJniHelper), ClassState(ElementName(m, count)))
  {
    var jniType := JniReturnType(ReturnType(m));
    Between(MethodCallHead(m), ClassState(ElementName(m, count)), MethodParamVal(m, useJniHelper) + ")");
    CallStatementContains(ReturnLead(ReturnType(m)), MethodResultType(m, useJniHelper), jniType,
      MethodWraps(m, useJniHelper), ReturnTypeNeedCast(jniType), MethodCall(m, count, useJniHelper), ClassState(ElementName(m, count)));
  }

  /**
   * The wrapper of the k-th method opens at line `7k + 1` (`8k + 2` with
   * the helper's extra comment line), and its call on the line after the
   * prologue goes through the member that the k-th ID declaration declares.
   */
  lemma MethodUsesDeclaredId(ms: seq<(Element, nat)>, useJniHelper: bool, k: nat)
    requires AllExecutable(ms) && k < |ms|
    ensures var r := MethodsDefinitions(ms, useJniHelper);
      !useJniHelper ==> (|r| == 7 * |ms|
        && r[7 * k + 1] == O(4, MethodSignature(ms[k].0, useJniHelper))
        && r[7 * k + 3] == L(8, MethodStatement(ms[k].0, ms[k].1, useJniHelper)))
    ensures var r := MethodsDefinitions(ms, useJniHelper);
      useJniHelper ==> (|r| == 8 * |ms|
        && r[8 * k + 2] == O(4, MethodSignature(ms[k].0, useJniHelper))
        && r[8 * k + 4] == L(8, MethodStatement(ms[k].0, ms[k].1, useJniHelper)))
    ensures var id := ElementName(ms[k].0, ms[k].1);
      MethodIdDeclare(ms)[k] == L(4, "jmethodID " + id + " = nullptr;")
      && Contains(MethodStatement(ms[k].0, ms[k].1, useJniHelper), ClassState(id))
  {
    var ws := MethodWrappers(ms, useJniHelper);
    var r := MethodsDefinitions(ms, useJniHelper);
    if useJniHelper {
      EightLineWrappersAt(ws, r, k);
    } else {
      SevenLineWrappersAt(ws, r, k);
    }
    assert ws[k] == MethodWrapper(ms[k].0, ms[k].1, useJniHelper);
    MethodCallUsesId(ms[k].0, ms[k].1, useJniHelper);
  }

  // ------------------------------------------------------------ fields

  /** With the helper a reference field is read and written as a `LocalRef`. */
  predicate FieldWraps(f: Element, useJniHelper: bool)
  {
    useJniHelper && NeedWrapLocalRef(f.etype)
  }

  /** The comment lines of an accessor. */
  function FieldComments(f: Element, useJniHelper: bool): (r: seq<Piece>)
    ensures |r| == (if useJniHelper then 2 else 1) && Flat(r)
  {
    (if useJniHelper then [L(8, HelperComment)] else [])
    + [L(4, "// field: " + Print(f.modifiers) + " " + f.etype.typeName + " " + f.name)]
  }

  /** The signature of a getter: the field's JNI type, `get<Camel>`, the base parameters. */
  function GetterSignature(f: Element, useJniHelper: bool): string
  {
    StaticMod(IsStatic(f), useJniHelper) + JniReturnType(f.etype) + (" get" + GetterTail(f, useJniHelper))
  }

  function GetterTail(f: Element, useJniHelper: bool): string
  {
    ToCamelCase(f.name) + "(" + MakeParameter(f, useJniHelper) + ") " + ConstMod(IsStatic(f), useJniHelper)
  }

  /** `env->Get[Static]<Type>Field(receiver, `: the read up to the field ID. */
  function FieldGetHead(f: Element): string
  {
    "env->Get" + StaticWord(f) + JniCall(f.etype) + "Field(" + Receiver(f) + ", "
  }

  /** `env->Get[Static]<Type>Field(receiver, fieldId)` */
  function FieldGet(f: Element, index: nat): string
  {
    FieldGetHead(f) + ClassState(ElementName(f, index)) + ")"
  }

  /** The parts of a getter's statement: wrap in the JNI type with the helper, cast when the JNI type needs it. */
  function GetterOpeners(f: Element, useJniHelper: bool): string
  {
    Openers(JniReturnType(f.etype), JniReturnType(f.etype), FieldWraps(f, useJniHelper), ReturnTypeNeedCast(JniReturnType(f.etype)))
  }

  /** The statement of a getter as written: the openers are never closed. */
  function GetterStatementAsWritten(f: Element, index: nat, useJniHelper: bool): string
  {
    "return " + GetterOpeners(f, useJniHelper) + FieldGet(f, index) + ";"
  }

  /** The statement of a getter with the openers closed after the read. */
  function GetterStatement(f: Element, index: nat, useJniHelper: bool): string
  {
    CallStatement("return ", JniReturnType(f.etype), JniReturnType(f.etype),
      FieldWraps(f, useJniHelper), ReturnTypeNeedCast(JniReturnType(f.etype)), FieldGet(f, index))
  }

  /** A getter: comments, signature, prologue and read indented by seven, then a bare `}`. */
  function GetterWrapper(f: Element, index: nat, useJniHelper: bool, asWritten: bool): (w: Wrapper)
    ensures |w.head| == (if useJniHelper then 2 else 1) && w.trail == 0 && w.WellFormed()
    ensures w.signature == GetterSignature(f, useJniHelper)
    ensures w.statement == if asWritten then GetterStatementAsWritten(f, index, useJniHelper) else GetterStatement(f, index, useJniHelper)
  {
    Wrapper(
      FieldComments(f, useJniHelper),
      GetterSignature(f, useJniHelper),
      7, Prologue(useJniHelper, IsStatic(f)),
      7, if asWritten then GetterStatementAsWritten(f, index, useJniHelper) else GetterStatement(f, index, useJniHelper),
      Fragment(true, ""), 0)
  }

  /** `fieldJniType`: the type the setter takes the new value as. */
  function SetterParamType(f: Element, useJniHelper: bool): string
  {
    if FieldWraps(f, useJniHelper) then LocalRefOf(JniReturnType(f.etype)) else JniReturnType(f.etype)
  }

  /** The setter's parameter list: the base parameters, then the new value named after the field. */
  function SetterParams(f: Element, useJniHelper: bool): string
  {
    (if MakeParameter(f, useJniHelper) == "" then "" else MakeParameter(f, useJniHelper) + Sep)
      + (SetterParamType(f, useJniHelper) + " " + f.name)
  }

  /** The signature of a setter: `void set<Camel>` with the base parameters and the new value. */
  function SetterSignature(f: Element, useJniHelper: bool): string
  {
    StaticMod(IsStatic(f), useJniHelper) + ("void set" + SetterTail(f, useJniHelper))
  }

  function SetterTail(f: Element, useJniHelper: bool): string
  {
    ToCamelCase(f.name) + "(" + SetterParams(f, useJniHelper) + ") " + ConstMod(IsStatic(f), useJniHelper)
  }

  /** `passedParam`: the new value as JNI takes it, unwrapped from its `LocalRef`. */
  function PassedValue(f: Element, useJniHelper: bool): string
  {
    if FieldWraps(f, useJniHelper) then f.name + GetSuffix else f.name
  }

  function FieldSetHead(f: Element): string
  {
    "env->Set" + StaticWord(f) + JniCall(f.etype) + "Field(" + Receiver(f) + ", "
  }

  /** `env->Set[Static]<Type>Field(receiver, fieldId, value);` */
  function SetterStatement(f: Element, index: nat, useJniHelper: bool): string
  {
    FieldSetHead(f) + ClassState(ElementName(f, index)) + (", " + PassedValue(f, useJniHelper) + ");")
  }

  /** A setter: an indented empty line, comments, signature, prologue, write, close, two blank lines. */
  function SetterWrapper(f: Element, index: nat, useJniHelper: bool): (w: Wrapper)
    ensures w.WellFormed() && w.signature == SetterSignature(f, useJniHelper)
    ensures w.statement == SetterStatement(f, index, useJniHelper)
  {
    ClosedWrapper(
      [L(4, "")] + FieldComments(f, useJniHelper),
      SetterSignature(f, useJniHelper),
      8, Prologue(useJniHelper, IsStatic(f)),
      8, SetterStatement(f, index, useJniHelper), 2)
  }

  /** The accessors of one field: the getter, then the setter, each when granted. */
  function FieldWrappers(f: Element, index: nat, granted: set<Accessor>, useJniHelper: bool, asWritten: bool): (r: seq<Wrapper>)
    ensures |r| <= 2 && forall k | 0 <= k < |r| :: r[k].WellFormed()
  {
    (if Getter in granted then [GetterWrapper(f, index, useJniHelper, asWritten)] else [])
    + (if Setter in granted then [SetterWrapper(f, index, useJniHelper)] else [])
  }

  /**
   * What `getFieldsDefinitions` reads besides the fields: all methods of
   * the class, the helper switch, `getterSetterForAllFields`, and the
   * per-field switches of the annotation.
   */
  datatype FieldOptions = FieldOptions(
    allMethods: seq<Element>,
    useJniHelper: bool,
    allFields: bool,
    getterFor: Element -> bool,
    setterFor: Element -> bool)

  /** `FieldSetterGetterFinder.hasGetterSetter` for one field. */
  function Granted(f: Element, o: FieldOptions): set<Accessor>
  {
    HasGetterSetter(f, o.allMethods, o.getterFor(f), o.setterFor(f), o.allFields)
  }

  /** The wrappers of several groups, one group after another. */
  function ConcatWrappers(parts: seq<seq<Wrapper>>): (r: seq<Wrapper>)
  {
    if |parts| == 0 then [] else parts[0] + ConcatWrappers(parts[1..])
  }

  /** Every wrapper of a concatenation is a wrapper of one of its groups. */
  lemma {:induction false} ConcatOrigin(parts: seq<seq<Wrapper>>, k: nat)
    requires k < |ConcatWrappers(parts)|
    ensures exists j, m | 0 <= j < |parts| && 0 <= m < |parts[j]| :: ConcatWrappers(parts)[k] == parts[j][m]
  {
    if k < |parts[0]| {
      assert ConcatWrappers(parts)[k] == parts[0][k];
    } else {
      ConcatOrigin(parts[1..], k - |parts[0]|);
      var j, m :| 0 <= j < |parts[1..]| && 0 <= m < |parts[1..][j]| && ConcatWrappers(parts[1..])[k - |parts[0]|] == parts[1..][j][m];
      assert ConcatWrappers(parts)[k] == parts[j + 1][m];
    }
  }

  /** The accessors of each field; a field's index is its position. */
  function FieldParts(fs: seq<Element>, o: FieldOptions, asWritten: bool): (r: seq<seq<Wrapper>>)
    ensures |r| == |fs|
    ensures forall j | 0 <= j < |fs| :: r[j] == FieldWrappers(fs[j], j, Granted(fs[j], o), o.useJniHelper, asWritten)
  {
    seq(|fs|, j requires 0 <= j < |fs| => FieldWrappers(fs[j], j, Granted(fs[j], o), o.useJniHelper, asWritten))
  }

  /** The accessors of all fields, in order. */
  function FieldsWrappers(fs: seq<Element>, o: FieldOptions, asWritten: bool): (r: seq<Wrapper>)
    ensures forall k | 0 <= k < |r| :: r[k].WellFormed()
  {
    var parts := FieldParts(fs, o, asWritten);
    var r := ConcatWrappers(parts);
    assert forall k | 0 <= k < |r| :: r[k].WellFormed() by {
      forall k | 0 <= k < |r| ensures r[k].WellFormed() {
        ConcatOrigin(parts, k);
      }
    }
    r
  }

  /**
   * `getFieldsDefinitions`: the accessors of every field in order. Its
   * braces balance both as written and corrected.
   */
  function FieldsDefinitions(fs: seq<Element>, o: FieldOptions, asWritten: bool): (r: seq<Piece>)
    ensures Balanced(r)
  {
    var ws := FieldsWrappers(fs, o, asWritten);
    WrappersBalanced(ws);
    Flatten(WrapperBlocks(ws))
  }

  /** `getFieldIdDeclare`: the ID member of each field, numbered by position, then a blank line. */
  function FieldIdDeclare(fs: seq<Element>): (r: seq<Piece>)
    ensures |r| == |fs| + 1 && Flat(r) && r[|fs|] == Blank
    ensures forall i | 0 <= i < |fs| :: r[i] == L(4, "jfieldID " + ElementName(fs[i], i) + " = nullptr;")
  {
    seq(|fs|, i requires 0 <= i < |fs| => L(4, "jfieldID " + ElementName(fs[i], i) + " = nullptr;")) + [Blank]
  }

  /** Text found in `s` is found in `pre + s + post`. */
  lemma ContainsWithin(pre: string, s: string, post: string, p: string)
    requires Contains(s, p)
    ensures Contains(pre + s + post, p)
  {
    var i: nat :| i <= |s| && OccursAt(s, p, i);
    assert (pre + s + post)[|pre| + i..|pre| + i + |p|] == s[i..i + |p|];
    assert OccursAt(pre + s + post, p, |pre| + i);
  }

  /** No JNI type that needs a cast has a parenthesis in its name. */
  lemma CastTypesNoParens(jniType: string)
    requires jniType in NeedCastTypes
    ensures NoParens(jniType)
  {
  }

  /**
   * The corrected getter closes every opener around the read; the getter
   * as written leaves one parenthesis open for the wrapper and one for the
   * cast.
   */
  lemma GetterParens(f: Element, index: nat, useJniHelper: bool)
    requires NoParens(JniReturnType(f.etype))
    ensures Net(GetterStatement(f, index, useJniHelper)) == Net(FieldGet(f, index))
    ensures Net(GetterStatementAsWritten(f, index, useJniHelper))
         == Net(FieldGet(f, index)) + Flag(FieldWraps(f, useJniHelper)) + Flag(ReturnTypeNeedCast(JniReturnType(f.etype)))
  {
    assert NoParens("return ");
    CallStatementParens("return ", JniReturnType(f.etype), JniReturnType(f.etype),
      FieldWraps(f, useJniHelper), ReturnTypeNeedCast(JniReturnType(f.etype)), FieldGet(f, index));
  }

  /** The getter as written of a field whose JNI type needs a cast leaves its cast unclosed. */
  lemma GetterAsWrittenLeavesCastOpen(f: Element, index: nat, useJniHelper: bool)
    requires ReturnTypeNeedCast(JniReturnType(f.etype))
    ensures Net(GetterStatementAsWritten(f, index, useJniHelper)) > Net(GetterStatement(f, index, useJniHelper))
  {
    CastTypesNoParens(JniReturnType(f.etype));
    GetterParens(f, index, useJniHelper);
  }

  const StringType: JType := JType(DECLARED, "java.lang.String", false, false, None, "java.lang.String", "java.lang.String")

  /**
   * An instance `String` field read without the helper: its getter as
   * written is `return reinterpret_cast<jstring>(env->GetObjectField(…);`,
   * one parenthesis short.
   */
  lemma StringGetterUnclosed(name: string, index: nat)
    ensures var f := Element(name, StringType, {}, None, None, Returned(None));
      Net(GetterStatementAsWritten(f, index, false)) == Net(GetterStatement(f, index, false)) + 1
  {
    var f := Element(name, StringType, {}, None, None, Returned(None));
    assert JniReturnType(StringType) == "jstring";
    CastTypesNoParens("jstring");
    GetterParens(f, index, false);
  }

  /**
   * The setter declares the base parameters and then the new value, joined
   * by ", ", and hands JNI that value, unwrapped with `.get()` exactly when
   * it was declared as a `LocalRef`.
   */
  lemma SetterPassesParameter(f: Element, index: nat, useJniHelper: bool)
    ensures SetterParams(f, useJniHelper) == Join(BaseDecls(f, useJniHelper) + [SetterParamType(f, useJniHelper) + " " + f.name], Sep)
    ensures Contains(SetterStatement(f, index, useJniHelper), ", " + PassedValue(f, useJniHelper) + ");")
    ensures PassedValue(f, useJniHelper) == f.name + GetSuffix <==> SetterParamType(f, useJniHelper) == LocalRefOf(JniReturnType(f.etype))
    ensures PassedValue(f, useJniHelper) == f.name <==> SetterParamType(f, useJniHelper) == JniReturnType(f.etype)
  {
    var value := SetterParamType(f, useJniHelper) + " " + f.name;
    var base := BaseDecls(f, useJniHelper);
    if useJniHelper {
      assert base + [value] == [value];
    } else {
      JoinAppend(base, [value], Sep);
    }
    var pre := FieldSetHead(f) + ClassState(ElementName(f, index));
    Between(pre, ", " + PassedValue(f, useJniHelper) + ");", "");
    assert pre + (", " + PassedValue(f, useJniHelper) + ");") + "" == SetterStatement(f, index, useJniHelper);
    assert |f.name + GetSuffix| > |f.name|;
  }

  /** The read of a getter, as written or corrected, and the write of a setter go through the field's ID member. */
  lemma AccessorsUseFieldId(f: Element, index: nat, useJniHelper: bool)
    ensures var id := ClassState(ElementName(f, index));
      Contains(GetterStatement(f, index, useJniHelper), id)
      && Contains(GetterStatementAsWritten(f, index, useJniHelper), id)
      && Contains(SetterStatement(f, index, useJniHelper), id)
  {
    var id := ClassState(ElementName(f, index));
    Between(FieldGetHead(f), id, ")");
    CallStatementContains("return ", JniReturnType(f.etype), JniReturnType(f.etype),
      FieldWraps(f, useJniHelper), ReturnTypeNeedCast(JniReturnType(f.etype)), FieldGet(f, index), id);
    ContainsWithin("return " + GetterOpeners(f, useJniHelper), FieldGet(f, index), ";", id);
    Between(FieldSetHead(f), id, ", " + PassedValue(f, useJniHelper) + ");");
  }

  /** A wrapper whose statement goes through the class-state member `id`. */
  predicate UsesId(w: Wrapper, id: string)
  {
    Contains(w.statement, ClassState(id))
  }

  lemma FieldWrappersUseId(f: Element, index: nat, granted: set<Accessor>, useJniHelper: bool, asWritten: bool)
    ensures var r := FieldWrappers(f, index, granted, useJniHelper, asWritten);
      forall k | 0 <= k < |r| :: UsesId(r[k], ElementName(f, index))
  {
    AccessorsUseFieldId(f, index, useJniHelper);
    var g := GetterWrapper(f, index, useJniHelper, asWritten);
    var st := SetterWrapper(f, index, useJniHelper);
    assert UsesId(g, ElementName(f, index)) && UsesId(st, ElementName(f, index));
    PairUsesId(g, st, Getter in granted, Setter in granted, ElementName(f, index));
  }

  lemma PairUsesId(first: Wrapper, second: Wrapper, hasFirst: bool, hasSecond: bool, id: string)
    requires UsesId(first, id) && UsesId(second, id)
    ensures var r := (if hasFirst then [first] else []) + (if hasSecond then [second] else []);
      forall k | 0 <= k < |r| :: UsesId(r[k], id)
  {
  }


  /**
   * Every accessor among the fields goes through the ID member that
   * `getFieldIdDeclare` declares for one of the fields.
   */
  lemma FieldsUseDeclaredIds(fs: seq<Element>, o: FieldOptions, asWritten: bool)
    ensures var ws := FieldsWrappers(fs, o, asWritten);
      forall k | 0 <= k < |ws| :: exists j | 0 <= j < |fs| ::
        UsesId(ws[k], ElementName(fs[j], j)) && FieldIdDeclare(fs)[j] == L(4, "jfieldID " + ElementName(fs[j], j) + " = nullptr;")
  {
    var parts := FieldParts(fs, o, asWritten);
    var ws := FieldsWrappers(fs, o, asWritten);
    forall k | 0 <= k < |ws|
      ensures exists j | 0 <= j < |fs| ::
        UsesId(ws[k], ElementName(fs[j], j)) && FieldIdDeclare(fs)[j] == L(4, "jfieldID " + ElementName(fs[j], j) + " = nullptr;")
    {
      ConcatOrigin(parts, k);
      var j, m :| 0 <= j < |parts| && 0 <= m < |parts[j]| && ws[k] == parts[j][m];
      FieldWrappersUseId(fs[j], j, Granted(fs[j], o), o.useJniHelper, asWritten);
    }
  }

  /** A getter's signature never equals a setter's: the JNI type starts with `j` or is `void`, then ` get` against ` set`. */
  lemma GetSetDiffer(sm: string, jniType: string, g: string, s: string)
    requires (|jniType| > 0 && jniType[0] == 'j') || jniType == "void"
    ensures sm + jniType + (" get" + g) != sm + ("void set" + s)
  {
    var a := sm + jniType + (" get" + g);
    var b := sm + ("void set" + s);
    if jniType == "void" {
      assert a[|sm| + 5] == 'g';
      assert b[|sm| + 5] == 's';
    } else {
      assert a[|sm|] == 'j';
      assert b[|sm|] == 'v';
    }
  }

  /**
   * A field gets a getter exactly when the getter is granted and a setter
   * exactly when the setter is; a constant gets neither, and without
   * `getterSetterForAllFields` the annotation's switches decide.
   */
  lemma FieldAccessorsAsGranted(f: Element, index: nat, o: FieldOptions, asWritten: bool)
    ensures var r := FieldWrappers(f, index, Granted(f, o), o.useJniHelper, asWritten);
      && ((exists k | 0 <= k < |r| :: r[k].signature == GetterSignature(f, o.useJniHelper)) <==> Getter in Granted(f, o))
      && ((exists k | 0 <= k < |r| :: r[k].signature == SetterSignature(f, o.useJniHelper)) <==> Setter in Granted(f, o))
    ensures IsConstant(f) ==> FieldWrappers(f, index, Granted(f, o), o.useJniHelper, asWritten) == []
    ensures !IsConstant(f) && !o.allFields ==> (Getter in Granted(f, o) <==> o.getterFor(f)) && (Setter in Granted(f, o) <==> o.setterFor(f))
  {
    var h := o.useJniHelper;
    GetSetDiffer(StaticMod(IsStatic(f), h), JniReturnType(f.etype), GetterTail(f, h), SetterTail(f, h));
    PresentIff(GetterWrapper(f, index, h, asWritten), SetterWrapper(f, index, h), Getter in Granted(f, o), Setter in Granted(f, o));
  }

  /** Of an optional first and an optional second wrapper with different signatures, each signature is present exactly when its wrapper is. */
  lemma PresentIff(first: Wrapper, second: Wrapper, hasFirst: bool, hasSecond: bool)
    requires first.signature != second.signature
    ensures var r := (if hasFirst then [first] else []) + (if hasSecond then [second] else []);
      && ((exists k | 0 <= k < |r| :: r[k].signature == first.signature) <==> hasFirst)
      && ((exists k | 0 <= k < |r| :: r[k].signature == second.signature) <==> hasSecond)
  {
    var r := (if hasFirst then [first] else []) + (if hasSecond then [second] else []);
    if hasFirst { assert r[0] == first; }
    if hasSecond { assert r[|r| - 1] == second; }
  }

  // ------------------------------------------------------------ helper members and the class-state struct

  const GetThisHead: string := "::jenny::LocalRef<jobject> getThis(bool owned = true) const "
  const HelperCtorInited: string := "assertInited(::jenny::Env().get());"
  const FromJobject: string := "(jobject ref, bool owned = false): _local(ref, owned) "
  const FromLocalRef: string := "(::jenny::LocalRef<jobject> ref): _local(std::move(ref)) "
  const FromGlobalRef: string := "(::jenny::GlobalRef<jobject> ref): _global(std::move(ref)) "

  /** One helper constructor: it takes a reference and checks the class is initialised. */
  function HelperConstructor(cppClassName: string, params: string): (r: seq<Piece>)
    ensures |r| == 4 && Balanced(r) && r[0] == O(4, cppClassName + params)
  {
    var r := [O(4, cppClassName + params), L(7, HelperCtorInited), C(4, ""), L(3, "")];
    assert Balanced(r) by {
      var ds: seq<nat> := [0, 1, 1, 0, 0];
      forall i | 0 <= i < |r| ensures Step(r[i], ds[i]) == Some(ds[i + 1]) { }
      WalkTrace(r, ds);
    }
    r
  }

  /** `getThis`: the local reference when there is one, else a local one made from the global reference. */
  function GetThis(): (r: seq<Piece>)
    ensures |r| == 11 && Balanced(r) && r[0] == O(4, GetThisHead)
  {
    var r := [
      O(4, GetThisHead),
      O(8, "if (_local) "),
      O(12, "if (owned) "),
      L(16, "return _local;"),
      CO(12, " else "),
      L(16, "return ::jenny::LocalRef<jobject>(_local.get(), false);"),
      C(12, ""),
      CO(8, " else "),
      L(12, "return _global.toLocal();"),
      C(8, ""),
      C(4, "")];
    assert Balanced(r) by {
      var ds: seq<nat> := [0, 1, 2, 3, 3, 3, 3, 2, 2, 2, 1, 0];
      forall i | 0 <= i < |r| ensures Step(r[i], ds[i]) == Some(ds[i + 1]) { }
      WalkTrace(r, ds);
    }
    r
  }

  /**
   * `generateForJniHelper(cppClassName)`: the private `_local` and
   * `_global` references, `getThis`, and the three constructors from a
   * `jobject`, a `LocalRef` and a `GlobalRef`, all named after the class.
   */
  function JniHelperBlock(cppClassName: string): (r: seq<Piece>)
    ensures Balanced(r)
    ensures O(4, GetThisHead) in r
    ensures O(4, cppClassName + FromJobject) in r && O(4, cppClassName + FromLocalRef) in r && O(4, cppClassName + FromGlobalRef) in r
  {
    var members := [
      L(4, "// ====== jni helper ======"),
      L(0, "private:"),
      L(4, "::jenny::LocalRef<jobject> _local;"),
      L(4, "::jenny::GlobalRef<jobject> _global;"),
      L(1, ""),
      L(0, "public:"),
      Blank,
      L(4, "// jni helper")];
    var between := [Blank, L(4, "// jni helper constructors")];
    var c1 := HelperConstructor(cppClassName, FromJobject);
    var c2 := HelperConstructor(cppClassName, FromLocalRef);
    var c3 := HelperConstructor(cppClassName, FromGlobalRef);
    WalkFlat(members, 0);
    WalkFlat(between, 0);
    BalancedAppend(members, GetThis());
    BalancedAppend(members + GetThis(), between);
    BalancedAppend(members + GetThis() + between, c1);
    BalancedAppend(members + GetThis() + between + c1, c2);
    BalancedAppend(members + GetThis() + between + c1 + c2, c3);
    var r := members + GetThis() + between + c1 + c2 + c3;
    assert r[|members|] == GetThis()[0];
    assert r[|members| + 13] == c1[0];
    assert r[|members| + 17] == c2[0];
    assert r[|members| + 21] == c3[0];
    r
  }

  const SInitedPlain: string := "bool sInited = false;"
  const SInitedAtomic: string := "std::atomic_bool sInited {};"
  const SInitLock: string := "std::mutex sInitLock {};"
  const SClazzMember: string := "jclass sClazz = nullptr;"

  /**
   * `initPreDefinition(isThreadSafe)`: opens the private `ClassInitState`
   * struct and declares `sInited`, atomic with a lock when thread safe,
   * and `sClazz`.
   */
  function InitPre(threadSafe: bool): (r: seq<Piece>)
    ensures Walk(r, 0) == Some(1)
    ensures L(4, SInitedAtomic) in r <==> threadSafe
    ensures L(4, SInitLock) in r <==> threadSafe
    ensures L(4, SInitedPlain) in r <==> !threadSafe
    ensures L(4, SClazzMember) in r
  {
    var open := [Blank, L(0, "private:"), O(4, "struct ClassInitState ")];
    var inited := if threadSafe then [L(4, "// thread safe init"), L(4, SInitedAtomic), L(4, SInitLock)] else [L(4, SInitedPlain)];
    var clazz := [Blank, L(4, SClazzMember)];
    assert Walk(open, 0) == Some(1) by {
      var ds: seq<nat> := [0, 0, 0, 1];
      forall i | 0 <= i < |open| ensures Step(open[i], ds[i]) == Some(ds[i + 1]) { }
      WalkTrace(open, ds);
    }
    WalkFlat(inited + clazz, 1);
    WalkAppend(open, inited + clazz, 0);
    assert open + inited + clazz == open + (inited + clazz);
    assert (open + inited + clazz)[|open| + |inited| + 1] == L(4, SClazzMember);
    open + inited + clazz
  }

  /**
   * `initPostDefinition(endNamespace)`: closes the struct, adds the
   * `getClassInitState()` accessor, closes the class and then the
   * namespaces.
   */
  function InitPost(endNamespace: string): (r: seq<Piece>)
    ensures Walk(r, 2) == Some(0)
    ensures |r| == 10 && r[8] == L(0, endNamespace)
  {
    var r := [
      C(4, "; // endof struct ClassInitState"),
      Blank,
      O(4, "static inline ClassInitState& getClassInitState() "),
      L(8, "static ClassInitState classInitState;"),
      L(8, "return classInitState;"),
      C(4, ""),
      Blank,
      C(0, ";"),
      L(0, endNamespace),
      Blank];
    assert Walk(r, 2) == Some(0) by {
      var ds: seq<nat> := [2, 1, 1, 2, 2, 2, 1, 1, 0, 0, 0];
      forall i | 0 <= i < |r| ensures Step(r[i], ds[i]) == Some(ds[i + 1]) { }
      WalkTrace(r, ds);
    }
    r
  }
}
