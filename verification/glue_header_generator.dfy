/**
 * `generator/glue/NativeGlueHeaderGenerator.kt`: the glue header of one
 * class, assembled from the glue emitter's sections. `registerJniMethods`
 * decides whether the `registerNativeFunctions` helper is written and
 * whether the declarations go inside the class namespace or after it.
 */
module NativeGlueHeaderGenerator {
  import opened Wrappers
  import opened Elements
  import opened ClassInfos
  import opened Namespaces
  import opened Records
  import opened Lines
  import opened GlueDefs

  /** The preamble, with the `FULL_CLASS_NAME` as written or as `FindClass` needs it. */
  function Init(h: HeaderData, asWritten: bool): (r: seq<Piece>)
    ensures |r| == 13 && Walk(r, 0) == Some(1)
  {
    var ci := h.classInfo;
    HeaderInitWith(ci, h.namespace.startOfNamespace, if asWritten then "$" + ci.slashClassName else ci.slashClassName)
  }

  /** The notice, the preamble that opens the class namespace, and the constants. */
  function Head(notice: string, h: HeaderData, consts: Piece, asWritten: bool): (r: seq<Piece>)
    requires !Opens(consts) && !Closes(consts)
    ensures |r| == 15 && Walk(r, 0) == Some(1)
    ensures r[0] == Fragment(false, notice) && r[1..14] == Init(h, asWritten) && r[14] == consts
  {
    var init := Init(h, asWritten);
    WalkAppend([Fragment(false, notice)], init, 0);
    WalkAppend([Fragment(false, notice)] + init, [consts], 0);
    [Fragment(false, notice)] + init + [consts]
  }

  function End(h: HeaderData): (r: seq<Piece>)
    ensures |r| == 4 && Walk(r, 1) == Some(0)
  {
    GlueEndNameSpace(h.classInfo.simpleClassName, h.namespace.endOfNameSpace, false)
  }

  /**
   * The sections in the order `registerJniMethods` chooses. With
   * registration the declarations and the register function come inside
   * the class namespace, which the end closes last; without it the
   * namespace is closed first and the declarations follow outside it,
   * with no register function. Either way a head that opens one block and
   * an end that closes it leave the whole balanced.
   */
  function Sections(head: seq<Piece>, defs: seq<Piece>, reg: seq<Piece>, end: seq<Piece>, registerJniMethods: bool): (r: seq<Piece>)
    ensures |head| <= |r| && r[..|head|] == head
    ensures registerJniMethods ==> (|r| == |head| + |defs| + |reg| + |end|
      && r[|head|..|head| + |defs|] == defs && r[|head| + |defs|..|r| - |end|] == reg && r[|r| - |end|..] == end)
    ensures !registerJniMethods ==> (|r| == |head| + |end| + |defs|
      && r[|head|..|head| + |end|] == end && r[|head| + |end|..] == defs)
    ensures Walk(head, 0) == Some(1) && Balanced(defs) && Balanced(reg) && Walk(end, 1) == Some(0) ==>
      Balanced(r) && (!registerJniMethods ==> Balanced(r[..|head| + |end|]))
  {
    SectionsWalk(head, defs, reg, end);
    if registerJniMethods then head + defs + reg + end else head + end + defs
  }

  /**
   * `createHeader(input)`: fails exactly when a constant cannot be written
   * or a method has no descriptor; otherwise the notice, the preamble and
   * the constants, then the sections in the chosen order. The header
   * closes every block it opens in both modes.
   */
  function CreateHeader(notice: string, registerJniMethods: bool, h: HeaderData, asWritten: bool): (r: Result<seq<Piece>>)
    ensures r.Success? <==> ConstantsIdDeclare(h.constants).Success? && Signatures(h.methods, asWritten).Success?
    ensures r.Success? ==> (
      var consts := ConstantsIdDeclare(h.constants).value;
      var defs := NativeMethodsDefinitions(h.classInfo, h.methods, false, asWritten).value;
      var reg := GlueJniRegister(h.methods, asWritten).value;
      && !Opens(consts) && !Closes(consts)
      && r.value == Sections(Head(notice, h, consts, asWritten), defs, reg, End(h), registerJniMethods)
      && Balanced(r.value))
  {
    var consts :- ConstantsIdDeclare(h.constants);
    var defs :- NativeMethodsDefinitions(h.classInfo, h.methods, false, asWritten);
    var reg := GlueJniRegister(h.methods, asWritten).value;
    NativeMethodsBalanced(h.classInfo, h.methods, false, asWritten);
    Success(Sections(Head(notice, h, consts, asWritten), defs, reg, End(h), registerJniMethods))
  }

  /**
   * As written, the header's `FULL_CLASS_NAME` line (line 11, after the
   * notice) names "$" + the slash name, where the corrected header names
   * the class itself: the two headers are never the same text.
   */
  lemma CreateHeaderAsWrittenNamesNoClass(notice: string, registerJniMethods: bool, h: HeaderData)
    requires CreateHeader(notice, registerJniMethods, h, true).Success?
    requires CreateHeader(notice, registerJniMethods, h, false).Success?
    ensures CreateHeader(notice, registerJniMethods, h, true).value[11] == FullClassNameLine("$" + h.classInfo.slashClassName)
    ensures CreateHeader(notice, registerJniMethods, h, false).value[11] == FullClassNameLine(h.classInfo.slashClassName)
    ensures CreateHeader(notice, registerJniMethods, h, true) != CreateHeader(notice, registerJniMethods, h, false)
  {
    var consts := ConstantsIdDeclare(h.constants).value;
    var a := Head(notice, h, consts, true);
    var b := Head(notice, h, consts, false);
    assert a[11] == Init(h, true)[10];
    assert b[11] == Init(h, false)[10];
    FullClassNameDiffers(h.classInfo.slashClassName);
  }

  /**
   * The two modes write the same lines except the register function: the
   * declarations are written exactly once either way.
   */
  lemma ModesDifferByRegister(notice: string, h: HeaderData, asWritten: bool)
    requires CreateHeader(notice, true, h, asWritten).Success?
    ensures CreateHeader(notice, false, h, asWritten).Success?
    ensures multiset(CreateHeader(notice, true, h, asWritten).value)
      == multiset(CreateHeader(notice, false, h, asWritten).value) + multiset(GlueJniRegister(h.methods, asWritten).value)
  {
    var consts := ConstantsIdDeclare(h.constants).value;
    var head := Head(notice, h, consts, asWritten);
    var defs := NativeMethodsDefinitions(h.classInfo, h.methods, false, asWritten).value;
    var reg := GlueJniRegister(h.methods, asWritten).value;
    SectionsMultiset(head, defs, reg, End(h));
  }

  lemma SectionsWalk(head: seq<Piece>, defs: seq<Piece>, reg: seq<Piece>, end: seq<Piece>)
    ensures Walk(head, 0) == Some(1) && Balanced(defs) && Balanced(reg) && Walk(end, 1) == Some(0) ==>
      Balanced(head + defs + reg + end) && Balanced(head + end) && Balanced(head + end + defs)
  {
    if Walk(head, 0) == Some(1) && Balanced(defs) && Balanced(reg) && Walk(end, 1) == Some(0) {
      BalancedAfter(head, defs, 1);
      BalancedAfter(head + defs, reg, 1);
      WalkAppend(head + defs + reg, end, 0);
      WalkAppend(head, end, 0);
      BalancedAppend(head + end, defs);
    }
  }

  lemma SectionsMultiset(head: seq<Piece>, defs: seq<Piece>, reg: seq<Piece>, end: seq<Piece>)
    ensures multiset(Sections(head, defs, reg, end, true)) == multiset(Sections(head, defs, reg, end, false)) + multiset(reg)
  {
    assert Sections(head, defs, reg, end, true) == head + defs + reg + end;
    assert Sections(head, defs, reg, end, false) == head + end + defs;
  }
}
