/**
 * The proxy's source part: `initClazz`, which looks the class up and
 * caches it, the lookups of every constructor, method and field ID in
 * between, and `releaseClazz`. Two emitters produce it.
 * `provider/proxy/impl/DefaultJennyProxySourceDefinitionsProvider.kt` is
 * the current one (`Current`). It takes the header name, the namespace
 * and an optional error logger.
 * `provider/proxy/DefaultJennyProxyProxySourceDefinitionsProvider.kt` is
 * the older one (`Legacy`). It names the class `<Simple>Proxy` and
 * indents the class lookup one level deeper.
 *
 * Pre-content leaves `initClazz` open, with the lookup inside one `if`,
 * or two when thread safe. The ID lookups go there. Post-content closes
 * them and adds `releaseClazz`.
 */
module ProxySource {
  import opened Wrappers
  import opened Text
  import opened Elements
  import opened Names
  import opened Descriptors
  import opened Lines
  import ProxyHeader

  datatype Emitter = Current | Legacy

  // ------------------------------------------------------------ the null-check macro

  /** The column of the backslash that continues a line of `JENNY_CHECK_NULL`. */
  const MacroColumn: nat := 51

  /** The characters of a line before its tail. */
  function Used(indent: nat, closing: bool, body: string, opening: bool): nat
  {
    indent + ProxyHeader.Flag(closing) + |body| + ProxyHeader.Flag(opening)
  }

  /** A line that the preprocessor joins to the next one. */
  predicate Continues(p: Piece)
  {
    p.Line? && |p.tail| > 0 && p.tail[|p.tail| - 1] == '\\'
  }

  /** A macro line padded so that its backslash lands in `MacroColumn`, like the rest of the block. */
  predicate Aligned(p: Piece)
  {
    Continues(p) && Used(p.indent, p.closing, p.body, p.opening) + |p.tail| == MacroColumn + 1
  }

  /** An aligned line's text has its backslash in `MacroColumn`, followed only by the line break. */
  lemma AlignedText(p: Piece)
    requires Aligned(p)
    ensures |PieceText(p)| == MacroColumn + 2 && PieceText(p)[MacroColumn] == '\\'
  {
    BracesInText(p);
    assert PieceText(p)[MacroColumn] == p.tail[|p.tail| - 1];
  }

  const ExceptionDescribe: string := "env->ExceptionDescribe();"

  /** The logger's declaration at the top of the file. */
  function LoggerDeclaration(logger: string): string
  {
    "void " + logger + "(JNIEnv* env, const char* error);"
  }

  /**
   * What the macro does when a lookup fails: call the error logger with
   * the class and the expression that came out null, or, without a
   * logger, describe the pending exception.
   */
  function ErrorReport(logger: string, qualified: string): (r: Piece)
    ensures r.Line? && r.indent == 15 && !r.closing && !r.opening && Continues(r)
    ensures logger == "" ==> Aligned(r) && r.body == ExceptionDescribe
    ensures logger != "" ==> |r.body| >= |logger| && r.body[..|logger|] == logger
  {
    if logger == "" then Line(15, false, ExceptionDescribe, false, "           \\")
    else
      var r := Line(15, false, logger + "(env, \"can't init " + qualified + "::\" #val);", false, " \\");
      assert r.body[..|logger|] == logger;
      r
  }

  /**
   * `JENNY_CHECK_NULL(val)`: `do { if ((val) == nullptr) { report; return
   * false; } } while(false)`. Every line up to the last continues with a
   * backslash, and the macro ends at `while(false)`.
   */
  function CheckNullMacro(report: Piece): (r: seq<Piece>)
    requires report.Line? && !report.closing && !report.opening && Continues(report)
    ensures |r| == 8 && Balanced(r) && r[3] == report
    ensures forall i | 0 <= i < 6 :: Continues(r[i])
    ensures !Continues(r[6]) && r[7] == Blank
    ensures forall i | 0 <= i < 6 && i != 3 :: Aligned(r[i])
  {
    var r := [
      Line(0, false, "#define JENNY_CHECK_NULL(val)", false, "                      \\"),
      Line(7, false, "do ", true, "                                        \\"),
      Line(11, false, "if ((val) == nullptr) ", true, "                 \\"),
      report,
      Line(15, false, "return false;", false, "                       \\"),
      Line(11, true, "", false, "                                       \\"),
      C(7, " while(false)"),
      Blank];
    assert Balanced(r) by {
      var ds: seq<nat> := [0, 0, 1, 2, 2, 2, 1, 0, 0];
      forall i | 0 <= i < |r| ensures Step(r[i], ds[i]) == Some(ds[i + 1]) { }
      WalkTrace(r, ds);
    }
    r
  }

  // ------------------------------------------------------------ initClazz

  const StaticMarker: string := "/*static*/"
  const StateRef: string := "auto& state = getClassInitState();"
  const NotInited: string := "if (!state.sInited) "
  const LockGuard: string := "std::lock_guard<std::mutex> lg(state.sInitLock);"
  const FindClass: string := "auto clazz = env->FindClass(FULL_CLASS_NAME);"
  const CheckClazz: string := "JENNY_CHECK_NULL(clazz);"
  const NewGlobalRef: string := "state.sClazz = reinterpret_cast<jclass>(env->NewGlobalRef(clazz));"
  const DeleteLocalRef: string := "env->DeleteLocalRef(clazz);"
  const CheckGlobal: string := "JENNY_CHECK_NULL(state.sClazz);"

  /** `prefix`: both functions are defined `inline` exactly when the definitions go into the header. */
  function InitPrefix(headerOnly: bool): (r: string)
    ensures headerOnly <==> r == StaticMarker + " inline"
    ensures !headerOnly <==> r == StaticMarker
  {
    if headerOnly then "/*static*/ inline" else "/*static*/"
  }

  /** The indentation of the outer `if` and of the lock of a thread-safe lookup. */
  function LockIndent(e: Emitter): nat
  {
    if e == Current then 3 else 4
  }

  function GuardIndent(e: Emitter): nat
  {
    if e == Current then 7 else 8
  }

  /** The indentation of the `if` that guards the class lookup. */
  function BlockIndent(e: Emitter): nat
  {
    if e == Current then 4 else 8
  }

  /** The indentation of the statements inside that `if`, the ID lookups among them. */
  function BodyIndent(e: Emitter): (r: nat)
    ensures r == BlockIndent(e) + 4
  {
    if e == Current then 8 else 12
  }

  /** The outer check and its lock, present only for a thread-safe proxy. */
  function Locked(e: Emitter, threadSafe: bool): (r: seq<Piece>)
    ensures Walk(r, 1) == Some(1 + ProxyHeader.Flag(threadSafe))
    ensures L(GuardIndent(e), LockGuard) in r <==> threadSafe
  {
    if threadSafe then
      var r := [O(LockIndent(e), NotInited), L(GuardIndent(e), LockGuard)];
      assert r[1] == L(GuardIndent(e), LockGuard);
      assert Walk(r, 1) == Some(2) by {
        var ds: seq<nat> := [1, 2, 2];
        forall i | 0 <= i < |r| ensures Step(r[i], ds[i]) == Some(ds[i + 1]) { }
        WalkTrace(r, ds);
      }
      r
    else []
  }

  /** The check that finds the class, keeps a global reference to it and checks both for null. */
  function ClassLookup(e: Emitter): (r: seq<Piece>)
    ensures |r| == 7 && r[0] == O(BlockIndent(e), NotInited) && r[6] == Blank
    ensures forall d: nat :: Walk(r, d) == Some(d + 1)
    ensures forall i | 1 <= i < 6 :: r[i].Line? && r[i].indent == BodyIndent(e)
  {
    var n := BodyIndent(e);
    var r := [O(BlockIndent(e), NotInited), L(n, FindClass), L(n, CheckClazz), L(n, NewGlobalRef), L(n, DeleteLocalRef), L(n, CheckGlobal), Blank];
    forall d: nat ensures Walk(r, d) == Some(d + 1) {
      WalkAppend([r[0]], r[1..], d);
      assert [r[0]] + r[1..] == r;
      WalkFlat(r[1..], d + 1);
    }
    r
  }

  /**
   * `initClazz` from its header up to the open check: the definition, the
   * macro, the state reference, the outer check and lock when thread safe,
   * then the class lookup, still open for the ID lookups.
   */
  function InitClazzOpening(e: Emitter, prefix: string, qualified: string, report: Piece, threadSafe: bool): (r: seq<Piece>)
    requires report.Line? && !report.closing && !report.opening && Continues(report)
    ensures Walk(r, 0) == Some(2 + ProxyHeader.Flag(threadSafe))
    ensures |r| == 17 + 2 * ProxyHeader.Flag(threadSafe)
    ensures r[0] == O(0, prefix + " bool " + qualified + "::initClazz(JNIEnv* env) ")
    ensures r[1..9] == CheckNullMacro(report)
    ensures L(GuardIndent(e), LockGuard) in r <==> threadSafe
  {
    var open := O(0, prefix + " bool " + qualified + "::initClazz(JNIEnv* env) ");
    var macro := CheckNullMacro(report);
    var locked := Locked(e, threadSafe);
    var lookup := ClassLookup(e);
    OpeningParts(open, macro, L(4, StateRef), locked, lookup, 1 + ProxyHeader.Flag(threadSafe));
    var r := [open] + macro + [L(4, StateRef)] + locked + lookup;
    assert r[1..9] == macro;
    assert L(GuardIndent(e), LockGuard) !in [open] + macro + [L(4, StateRef)];
    assert L(GuardIndent(e), LockGuard) !in lookup;
    r
  }

  /** How the parts of `initClazz` add up, whatever their text. */
  lemma OpeningParts(open: Piece, macro: seq<Piece>, state: Piece, locked: seq<Piece>, lookup: seq<Piece>, d: nat)
    requires Opens(open) && !Closes(open) && !Opens(state) && !Closes(state)
    requires Balanced(macro)
    requires Walk(locked, 1) == Some(d)
    requires Walk(lookup, d) == Some(d + 1)
    ensures Walk([open] + macro + [state] + locked + lookup, 0) == Some(d + 1)
  {
    var a, b := [open], [state];
    assert Walk(a, 0) == Some(1) && Walk(b, 1) == Some(1) by {
      assert a[1..] == [] && b[1..] == [];
    }
    WalkShift(macro, 0, 1);
    Chain(a, macro, 0, 1, 1);
    Chain(a + macro, b, 0, 1, 1);
    Chain(a + macro + b, locked, 0, 1, d);
    Chain(a + macro + b + locked, lookup, 0, d, d + 1);
  }

  /** Walking one list and then another. */
  lemma Chain(a: seq<Piece>, b: seq<Piece>, d0: nat, d1: nat, d2: nat)
    requires Walk(a, d0) == Some(d1) && Walk(b, d1) == Some(d2)
    ensures Walk(a + b, d0) == Some(d2)
  {
    WalkAppend(a, b, d0);
  }

  /** The walk from a depth determines the depth it ends at: no list returns to zero from two different depths. */
  lemma DepthDetermined(ps: seq<Piece>, d: nat, d2: nat)
    requires Walk(ps, d) == Some(0) && d != d2
    ensures Walk(ps, d2) != Some(0)
  {
    if d2 > d {
      WalkShift(ps, d, d2 - d);
    } else {
      var k := d - d2;
      if Walk(ps, d2).Some? {
        WalkShift(ps, d2, k);
      }
    }
  }

  /** Flat lines in front of a list do not change its walk. */
  lemma FlatBefore(pre: seq<Piece>, body: seq<Piece>, d: nat)
    requires Flat(pre) && Walk(body, 0) == Some(d)
    ensures Walk(pre + body, 0) == Some(d)
  {
    WalkFlat(pre, 0);
    WalkAppend(pre, body, 0);
  }

  // ------------------------------------------------------------ pre-content

  function IncludeLine(headerFileName: string): string
  {
    "#include \"" + headerFileName + "\""
  }

  /** What comes before `initClazz` in the current emitter's pre-content. */
  function Preamble(headerFileName: string, startOfNamespace: string, logger: string, headerOnly: bool): (r: seq<Piece>)
    ensures Flat(r) && |r| == PreambleSize(logger, headerOnly)
    ensures !headerOnly ==> r[0] == L(0, IncludeLine(headerFileName))
    ensures r[2 * ProxyHeader.Flag(!headerOnly) + 1] == L(0, LoggerDeclaration(logger)) <==> logger != ""
    ensures forall i | 0 <= i < |r| :: r[i].Line? && r[i].indent == 0
  {
    var includes := if headerOnly then [] else [L(0, IncludeLine(headerFileName)), Blank];
    var declare := if logger == "" then [] else [Blank, L(0, LoggerDeclaration(logger)), Blank];
    var r := includes + declare + [L(0, startOfNamespace), Blank];
    assert r[2 * ProxyHeader.Flag(!headerOnly) + 1] == (if logger == "" then Blank else L(0, LoggerDeclaration(logger)));
    r
  }

  function PreambleSize(logger: string, headerOnly: bool): nat
  {
    2 * ProxyHeader.Flag(!headerOnly) + 3 * ProxyHeader.Flag(logger != "") + 2
  }

  /**
   * `generateSourcePreContent` of the current emitter: the header's
   * `#include` unless the definitions go into the header itself, the
   * logger's declaration when there is one, the namespace, then
   * `initClazz` opened, inline exactly when header-only, with the macro
   * reporting through the logger or, without one, by describing the
   * exception.
   */
  function CurrentPreContent(headerFileName: string, startOfNamespace: string, cppClassName: string,
                             logger: string, headerOnly: bool, threadSafe: bool): (r: seq<Piece>)
    ensures Walk(r, 0) == Some(2 + ProxyHeader.Flag(threadSafe))
    ensures var k := PreambleSize(logger, headerOnly);
      |r| == k + 17 + 2 * ProxyHeader.Flag(threadSafe)
      && r[..k] == Preamble(headerFileName, startOfNamespace, logger, headerOnly)
      && r[k] == O(0, InitPrefix(headerOnly) + " bool " + cppClassName + "::initClazz(JNIEnv* env) ")
      && r[k + 4] == ErrorReport(logger, cppClassName)
  {
    var pre := Preamble(headerFileName, startOfNamespace, logger, headerOnly);
    var opening := InitClazzOpening(Current, InitPrefix(headerOnly), cppClassName, ErrorReport(logger, cppClassName), threadSafe);
    FlatBefore(pre, opening, 2 + ProxyHeader.Flag(threadSafe));
    assert (pre + opening)[..|pre|] == pre;
    pre + opening
  }

  /** The current emitter locks the class lookup exactly when thread safe. */
  lemma CurrentPreLocksIff(headerFileName: string, startOfNamespace: string, cppClassName: string,
                           logger: string, headerOnly: bool, threadSafe: bool)
    ensures L(GuardIndent(Current), LockGuard) in CurrentPreContent(headerFileName, startOfNamespace, cppClassName, logger, headerOnly, threadSafe)
        <==> threadSafe
  {
    var pre := Preamble(headerFileName, startOfNamespace, logger, headerOnly);
    var opening := InitClazzOpening(Current, InitPrefix(headerOnly), cppClassName, ErrorReport(logger, cppClassName), threadSafe);
    assert CurrentPreContent(headerFileName, startOfNamespace, cppClassName, logger, headerOnly, threadSafe) == pre + opening;
    assert L(GuardIndent(Current), LockGuard) !in pre;
  }

  function LegacyClassName(simpleClassName: string): string
  {
    simpleClassName + "Proxy"
  }

  /**
   * `generateSourcePreContent` of the older emitter: two blank lines, then
   * `<Simple>Proxy::initClazz` opened, inline exactly when header-only,
   * with the macro always describing the exception.
   */
  function LegacyPreContent(simpleClassName: string, headerOnly: bool, threadSafe: bool): (r: seq<Piece>)
    ensures Walk(r, 0) == Some(2 + ProxyHeader.Flag(threadSafe))
    ensures |r| == 19 + 2 * ProxyHeader.Flag(threadSafe) && r[..2] == [Blank, Blank]
    ensures r[2] == O(0, InitPrefix(headerOnly) + " bool " + LegacyClassName(simpleClassName) + "::initClazz(JNIEnv* env) ")
    ensures r[6].Line? && r[6].body == ExceptionDescribe
    ensures L(GuardIndent(Legacy), LockGuard) in r <==> threadSafe
  {
    var report := ErrorReport("", LegacyClassName(simpleClassName));
    var opening := InitClazzOpening(Legacy, InitPrefix(headerOnly), LegacyClassName(simpleClassName), report, threadSafe);
    FlatBefore([Blank, Blank], opening, 2 + ProxyHeader.Flag(threadSafe));
    assert ([Blank, Blank] + opening)[6] == opening[4] == report;
    [Blank, Blank] + opening
  }

  // ------------------------------------------------------------ post-content

  const InitedSet: string := "state.sInited = true;"
  const Inited: string := "if (state.sInited) "
  const DeleteGlobalRef: string := "env->DeleteGlobalRef(state.sClazz);"
  const ClazzReset: string := "state.sClazz = nullptr;"
  const InitedReset: string := "state.sInited = false;"

  /** The line between the two checks of `releaseClazz`: the lock when thread safe, blank otherwise. */
  function ReleaseGuard(threadSafe: bool): string
  {
    if threadSafe then LockGuard else ""
  }

  /**
   * `releaseClazz`: under a double check of `sInited`, with `guard`
   * between the two checks, it deletes the global reference and resets
   * `sClazz` and `sInited`, inside both checks.
   */
  function ReleaseClazz(prefix: string, qualified: string, guard: string): (r: seq<Piece>)
    ensures |r| == 11 && Balanced(r)
    ensures r[0] == O(0, prefix + " void " + qualified + "::releaseClazz(JNIEnv* env) ") && r[3] == L(8, guard)
    ensures Walk(r[..5], 0) == Some(3) && r[5..8] == [L(12, DeleteGlobalRef), L(12, ClazzReset), L(12, InitedReset)]
  {
    var r := [
      O(0, prefix + " void " + qualified + "::releaseClazz(JNIEnv* env) "),
      L(4, StateRef),
      O(4, Inited),
      L(8, guard),
      O(8, Inited),
      L(12, DeleteGlobalRef),
      L(12, ClazzReset),
      L(12, InitedReset),
      C(8, ""),
      C(4, ""),
      C(0, "")];
    ReleaseWalk(r);
    r
  }

  lemma ReleaseWalk(r: seq<Piece>)
    requires |r| == 11 && Opens(r[0]) && !Closes(r[0])
    requires !Opens(r[1]) && !Closes(r[1]) && !Opens(r[3]) && !Closes(r[3])
    requires !Opens(r[5]) && !Closes(r[5]) && !Opens(r[6]) && !Closes(r[6]) && !Opens(r[7]) && !Closes(r[7])
    requires Opens(r[2]) && !Closes(r[2]) && Opens(r[4]) && !Closes(r[4])
    requires Closes(r[8]) && !Opens(r[8]) && Closes(r[9]) && !Opens(r[9]) && Closes(r[10]) && !Opens(r[10])
    ensures Balanced(r) && Walk(r[..5], 0) == Some(3)
  {
    var ds: seq<nat> := [0, 1, 1, 2, 2, 3, 3, 3, 3, 2, 1, 0];
    forall i | 0 <= i < |r| ensures Step(r[i], ds[i]) == Some(ds[i + 1]) { }
    WalkTrace(r, ds);
    forall i | 0 <= i < 5 ensures Step(r[..5][i], ds[..6][i]) == Some(ds[..6][i + 1]) { }
    WalkTrace(r[..5], ds[..6]);
  }

  /**
   * `generateSourcePostContent`: marks the class initialised, closes the
   * lookup check and, when thread safe, the outer check, ends `initClazz`
   * returning true, then `releaseClazz` and the namespace's end. From the
   * depth that pre-content leaves it returns to zero.
   */
  function PostContent(e: Emitter, qualified: string, endNamespace: string, headerOnly: bool, threadSafe: bool): (r: seq<Piece>)
    ensures Walk(r, 2 + ProxyHeader.Flag(threadSafe)) == Some(0)
    ensures var k := 6 + ProxyHeader.Flag(threadSafe);
      |r| == k + 14 && r[k..k + 11] == ReleaseClazz(InitPrefix(headerOnly), qualified, ReleaseGuard(threadSafe))
      && r[k - 3] == L(3, "return true;") && r[k + 13] == L(0, endNamespace)
  {
    var head := InitClazzClosing(e, threadSafe);
    var release := ReleaseClazz(InitPrefix(headerOnly), qualified, ReleaseGuard(threadSafe));
    var tail := [Blank, Blank, L(0, endNamespace)];
    WalkFlat(tail, 0);
    Chain(head, release, 2 + ProxyHeader.Flag(threadSafe), 0, 0);
    Chain(head + release, tail, 2 + ProxyHeader.Flag(threadSafe), 0, 0);
    PostLayout(head, release, tail);
    head + release + tail
  }

  /** The end of `initClazz`: the lookup check closed, the outer one when thread safe, then `return true`. */
  function InitClazzClosing(e: Emitter, threadSafe: bool): (r: seq<Piece>)
    ensures Walk(r, 2 + ProxyHeader.Flag(threadSafe)) == Some(0)
    ensures |r| == 6 + ProxyHeader.Flag(threadSafe) && r[|r| - 3] == L(3, "return true;")
    ensures L(8, LockGuard) !in r
  {
    var done := [L(BodyIndent(e), InitedSet), C(BlockIndent(e), "")];
    var unlock := if threadSafe then [C(4, "")] else [];
    var end := [L(0, "#undef JENNY_CHECK_NULL"), L(3, "return true;"), C(0, ""), Blank];
    PostParts(done, unlock, end, threadSafe);
    done + unlock + end
  }

  lemma PostLayout(a: seq<Piece>, release: seq<Piece>, tail: seq<Piece>)
    requires |release| == 11 && |tail| == 3 && |a| >= 3
    ensures (a + release + tail)[|a|..|a| + 11] == release && (a + release + tail)[|a| + 13] == tail[2]
    ensures (a + release + tail)[|a| - 3] == a[|a| - 3]
  {
  }

  lemma ReleaseLocksIff(prefix: string, qualified: string, threadSafe: bool)
    ensures L(8, LockGuard) in ReleaseClazz(prefix, qualified, ReleaseGuard(threadSafe)) <==> threadSafe
  {
    var r := ReleaseClazz(prefix, qualified, ReleaseGuard(threadSafe));
    assert r[3] == L(8, ReleaseGuard(threadSafe));
  }

  /**
   * Post-content takes the lock exactly when thread safe: nowhere else in
   * it is there a lock line.
   */
  lemma PostLocksIff(e: Emitter, qualified: string, endNamespace: string, headerOnly: bool, threadSafe: bool)
    ensures L(8, LockGuard) in PostContent(e, qualified, endNamespace, headerOnly, threadSafe) <==> threadSafe
  {
    ReleaseLocksIff(InitPrefix(headerOnly), qualified, threadSafe);
  }

  lemma PostParts(done: seq<Piece>, unlock: seq<Piece>, end: seq<Piece>, threadSafe: bool)
    requires |done| == 2 && !Opens(done[0]) && !Closes(done[0]) && !Opens(done[1]) && Closes(done[1])
    requires unlock == (if threadSafe then [C(4, "")] else [])
    requires |end| == 4 && !Opens(end[0]) && !Closes(end[0]) && !Opens(end[1]) && !Closes(end[1])
    requires !Opens(end[2]) && Closes(end[2]) && !Opens(end[3]) && !Closes(end[3])
    ensures Walk(done + unlock + end, 2 + ProxyHeader.Flag(threadSafe)) == Some(0)
  {
    var d := 2 + ProxyHeader.Flag(threadSafe);
    assert Walk(done, d) == Some(d - 1) by {
      var ds: seq<nat> := [d, d, d - 1];
      forall i | 0 <= i < |done| ensures Step(done[i], ds[i]) == Some(ds[i + 1]) { }
      WalkTrace(done, ds);
    }
    assert Walk(unlock, d - 1) == Some(1) by {
      if threadSafe {
        var ds: seq<nat> := [2, 1];
        forall i | 0 <= i < |unlock| ensures Step(unlock[i], ds[i]) == Some(ds[i + 1]) { }
        WalkTrace(unlock, ds);
      }
    }
    assert Walk(end, 1) == Some(0) by {
      var ds: seq<nat> := [1, 1, 1, 0, 0];
      forall i | 0 <= i < |end| ensures Step(end[i], ds[i]) == Some(ds[i + 1]) { }
      WalkTrace(end, ds);
    }
    Chain(done, unlock, d, d - 1, 1);
    Chain(done + unlock, end, d, 1, 0);
  }

  /**
   * Pre-content and post-content close exactly the blocks they open when
   * they are asked for the same thread safety, whatever flat lines (the ID
   * lookups) come between; asked for different ones, they do not.
   */
  lemma InitClazzBalancedIff(pre: seq<Piece>, ids: seq<Piece>, post: seq<Piece>, preSafe: bool, postSafe: bool)
    requires Walk(pre, 0) == Some(2 + ProxyHeader.Flag(preSafe))
    requires Walk(post, 2 + ProxyHeader.Flag(postSafe)) == Some(0)
    requires Flat(ids)
    ensures Balanced(pre + ids + post) <==> preSafe == postSafe
  {
    var d := 2 + ProxyHeader.Flag(preSafe);
    WalkFlat(ids, d);
    Chain(pre, ids, 0, d, d);
    WalkAppend(pre + ids, post, 0);
    if preSafe != postSafe {
      DepthDetermined(post, 2 + ProxyHeader.Flag(postSafe), d);
    }
  }

  // ------------------------------------------------------------ ID lookups

  /** One ID lookup: the state member it fills, the JNI function that finds it, the Java name and the descriptor. */
  datatype IdLookup = IdLookup(member: string, call: string, javaName: string, descriptor: string)

  /** A lookup before its descriptor is known: the element whose signature it passes. */
  datatype Pending = Pending(element: Element, member: string, call: string, javaName: string)

  /** The descriptors of a list of lookups, in order; the first that cannot be computed aborts the list. */
  function Resolve(ps: seq<Pending>, asWritten: bool): (r: Result<seq<IdLookup>>)
    ensures r.Success? <==> forall k | 0 <= k < |ps| :: BinarySignature(ps[k].element, asWritten).Success?
    ensures r.Success? ==> |r.value| == |ps| && forall k | 0 <= k < |ps| ::
      r.value[k] == IdLookup(ps[k].member, ps[k].call, ps[k].javaName, BinarySignature(ps[k].element, asWritten).value)
  {
    if |ps| == 0 then Success([])
    else
      var d :- BinarySignature(ps[0].element, asWritten);
      var rest :- Resolve(ps[1..], asWritten);
      Success([IdLookup(ps[0].member, ps[0].call, ps[0].javaName, d)] + rest)
  }

  /** The JNI function that finds a method's ID: the static variant for a static method. */
  function MethodCall(isStatic: bool): (r: string)
    ensures r == "GetStaticMethodID" <==> isStatic
    ensures r == "GetMethodID" <==> !isStatic
  {
    if isStatic then "GetStaticMethodID" else "GetMethodID"
  }

  /** The JNI function that finds a field's ID: the static variant for a static field. */
  function FieldCall(isStatic: bool): (r: string)
    ensures r == "GetStaticFieldID" <==> isStatic
    ensures r == "GetFieldID" <==> !isStatic
  {
    if isStatic then "GetStaticFieldID" else "GetFieldID"
  }

  /** Constructors are always found with `GetMethodID` under the name "<init>", by their count. */
  function ConstructorLookups(cs: seq<(Element, nat)>): (r: seq<Pending>)
    ensures |r| == |cs|
    ensures forall k | 0 <= k < |cs| :: r[k] == Pending(cs[k].0, ConstructorIdName(cs[k].1), "GetMethodID", ConstructorName)
    ensures forall k | 0 <= k < |cs| :: ProxyHeader.ConstructorIdDeclare(cs)[k] == L(4, "jmethodID " + r[k].member + " = nullptr;")
  {
    seq(|cs|, k requires 0 <= k < |cs| => Pending(cs[k].0, ConstructorIdName(cs[k].1), "GetMethodID", ConstructorName))
  }

  /** Methods are found by their Java name, statically when static, into the member named with their count. */
  function MethodLookups(ms: seq<(Element, nat)>): (r: seq<Pending>)
    ensures |r| == |ms|
    ensures forall k | 0 <= k < |ms| :: r[k] == Pending(ms[k].0, ElementName(ms[k].0, ms[k].1), MethodCall(IsStatic(ms[k].0)), ms[k].0.name)
    ensures forall k | 0 <= k < |ms| :: ProxyHeader.MethodIdDeclare(ms)[k] == L(4, "jmethodID " + r[k].member + " = nullptr;")
  {
    seq(|ms|, k requires 0 <= k < |ms| => Pending(ms[k].0, ElementName(ms[k].0, ms[k].1), MethodCall(IsStatic(ms[k].0)), ms[k].0.name))
  }

  /** Fields are found by their Java name, statically when static, into the member named with their position. */
  function FieldLookups(fs: seq<Element>): (r: seq<Pending>)
    ensures |r| == |fs|
    ensures forall i | 0 <= i < |fs| :: r[i] == Pending(fs[i], ElementName(fs[i], i), FieldCall(IsStatic(fs[i])), fs[i].name)
    ensures forall i | 0 <= i < |fs| :: ProxyHeader.FieldIdDeclare(fs)[i] == L(4, "jfieldID " + r[i].member + " = nullptr;")
  {
    seq(|fs|, i requires 0 <= i < |fs| => Pending(fs[i], ElementName(fs[i], i), FieldCall(IsStatic(fs[i])), fs[i].name))
  }

  /** The assignment of one ID, its null check, and a blank line. */
  function LookupLines(indent: nat, x: IdLookup): (r: seq<Piece>)
    ensures |r| == 3 && Flat(r) && r[0] == L(indent, Assignment(x)) && r[1] == L(indent, CheckNull(x.member)) && r[2] == Blank
  {
    [L(indent, Assignment(x)), L(indent, CheckNull(x.member)), Blank]
  }

  /** `state.<member> = env-><call>(state.sClazz, "<name>", "<descriptor>");` */
  function Assignment(x: IdLookup): string
  {
    "state." + x.member + " = env->" + x.call + "(state.sClazz, \"" + x.javaName + "\", \"" + x.descriptor + "\");"
  }

  function CheckNull(member: string): string
  {
    "JENNY_CHECK_NULL(state." + member + ");"
  }

  /**
   * The lines of a list of lookups, three per lookup in order, then a
   * blank line. They neither open nor close a block, so they fit between
   * pre-content and post-content.
   */
  function LookupsLines(indent: nat, xs: seq<IdLookup>): (r: seq<Piece>)
    ensures |r| == 3 * |xs| + 1 && Flat(r) && r[3 * |xs|] == Blank
    ensures forall k | 0 <= k < |xs| :: r[3 * k..3 * k + 3] == LookupLines(indent, xs[k])
  {
    var bs := seq(|xs|, k requires 0 <= k < |xs| => LookupLines(indent, xs[k]));
    FlattenLength(bs, 3);
    forall k | 0 <= k < |xs| ensures (Flatten(bs) + [Blank])[3 * k..3 * k + 3] == LookupLines(indent, xs[k]) {
      BlocksThenTail(bs, [Blank], 3, k);
      assert bs[k] == LookupLines(indent, xs[k]);
    }
    FlatBlocks(bs);
    FlatAppend(Flatten(bs), [Blank]);
    Flatten(bs) + [Blank]
  }

  lemma BlocksThenTail(bs: seq<seq<Piece>>, tail: seq<Piece>, n: nat, k: nat)
    requires forall i | 0 <= i < |bs| :: |bs[i]| == n
    requires k < |bs|
    ensures n * k + n <= |Flatten(bs)| && (Flatten(bs) + tail)[n * k..n * k + n] == bs[k]
  {
    FlattenUniform(bs, n, k);
  }

  lemma {:induction false} FlatBlocks(bs: seq<seq<Piece>>)
    requires forall k | 0 <= k < |bs| :: Flat(bs[k])
    ensures Flat(Flatten(bs))
  {
    if |bs| > 0 {
      FlatBlocks(bs[1..]);
      FlatAppend(bs[0], Flatten(bs[1..]));
    }
  }

  lemma FlatAppend(a: seq<Piece>, b: seq<Piece>)
    requires Flat(a) && Flat(b)
    ensures Flat(a + b)
  {
    forall i | 0 <= i < |a + b| ensures !Opens((a + b)[i]) && !Closes((a + b)[i]) {
      if i >= |a| {
        assert (a + b)[i] == b[i - |a|];
      }
    }
  }

  /** `getConstructorIdInit`, `getMethodIdInit` and `getFieldIdInit`: the lookups' lines, or the error of the first descriptor that fails. */
  function IdInit(e: Emitter, ps: seq<Pending>, asWritten: bool): (r: Result<seq<Piece>>)
    ensures r.Success? <==> Resolve(ps, asWritten).Success?
    ensures r.Success? ==> r.value == LookupsLines(BodyIndent(e), Resolve(ps, asWritten).value)
  {
    var xs :- Resolve(ps, asWritten);
    Success(LookupsLines(BodyIndent(e), xs))
  }

  /**
   * As written, the field lookups fail exactly when some field's type is an
   * array with no component type, and otherwise every field ID is looked up
   * with an empty signature, which names no field type.
   */
  lemma FieldLookupsAsWrittenUnsigned(fs: seq<Element>)
    requires forall i | 0 <= i < |fs| :: !fs[i].IsExecutable()
    ensures Resolve(FieldLookups(fs), true).Success? <==> forall i | 0 <= i < |fs| :: Unwrap(fs[i].etype).Success?
    ensures Resolve(FieldLookups(fs), true).Success? ==>
      forall i | 0 <= i < |fs| :: Resolve(FieldLookups(fs), true).value[i].descriptor == ""
  {
    var ps := FieldLookups(fs);
    forall i | 0 <= i < |ps|
      ensures (BinarySignature(ps[i].element, true).Success? <==> Unwrap(fs[i].etype).Success?)
      ensures BinarySignature(ps[i].element, true).Success? ==> BinarySignature(ps[i].element, true).value == ""
    {
    }
  }

  /**
   * With the corrected signature, every field ID is looked up with the
   * descriptor of the field's own type: it reads back as that type.
   */
  lemma FieldLookupsFixedTyped(fs: seq<Element>)
    requires forall i | 0 <= i < |fs| :: !fs[i].IsExecutable() && FieldTypeOf(fs[i].etype, NonGenericName).Success?
    requires forall i | 0 <= i < |fs| :: WellFormed(FieldTypeOf(fs[i].etype, NonGenericName).value)
    ensures Resolve(FieldLookups(fs), false).Success?
    ensures forall i | 0 <= i < |fs| ::
      ParseField(Resolve(FieldLookups(fs), false).value[i].descriptor) == Some(Parsed(FieldTypeOf(fs[i].etype, NonGenericName).value, ""))
  {
    var ps := FieldLookups(fs);
    forall i | 0 <= i < |ps| ensures BinarySignature(ps[i].element, false).Success?
      && ParseField(BinarySignature(ps[i].element, false).value) == Some(Parsed(FieldTypeOf(fs[i].etype, NonGenericName).value, ""))
    {
      FieldSignatureFixedMeaning(fs[i]);
    }
  }

  /**
   * With the corrected signature, every method ID is looked up with the
   * method descriptor of its parameter and return types.
   */
  lemma MethodLookupsFixedTyped(ms: seq<(Element, nat)>)
    requires forall k | 0 <= k < |ms| ::
      (ms[k].0.IsExecutable() && ParamTypes(ms[k].0, NonGenericName).Success?
       && FieldTypeOf(ms[k].0.exec.value.returnType, NonGenericName).Success?
       && NamesWellFormed(ParamTypes(ms[k].0, NonGenericName).value)
       && WellFormed(FieldTypeOf(ms[k].0.exec.value.returnType, NonGenericName).value))
    ensures Resolve(MethodLookups(ms), false).Success?
    ensures forall k | 0 <= k < |ms| ::
      ParseMethod(Resolve(MethodLookups(ms), false).value[k].descriptor)
      == Some(MethodType(ParamTypes(ms[k].0, NonGenericName).value, FieldTypeOf(ms[k].0.exec.value.returnType, NonGenericName).value))
  {
    var ps := MethodLookups(ms);
    forall k | 0 <= k < |ps| ensures BinarySignature(ps[k].element, false).Success?
      && ParseMethod(BinarySignature(ps[k].element, false).value)
         == Some(MethodType(ParamTypes(ms[k].0, NonGenericName).value, FieldTypeOf(ms[k].0.exec.value.returnType, NonGenericName).value))
    {
      ElementSignatureFixedMeaning(ms[k].0);
    }
  }
}
