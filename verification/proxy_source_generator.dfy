/**
 * `generator/proxy/NativeProxySourceGenerator.kt`: the proxy's `.cpp`.
 * It holds the generated-code notice, the header's `#include`, the
 * namespace, then `initClazz` with the ID lookups of the filtered
 * constructors and methods and of the fields, then `releaseClazz`.
 *
 * The generator takes its text from an implementation of
 * `provider/JennySourceDefinitionsProvider.kt`. That file is not part of
 * this model. The older proxy emitter
 * `provider/proxy/DefaultJennyProxyProxySourceDefinitionsProvider.kt` has
 * the three-argument pre-content the generator calls, and its text stands
 * in for it here (`ProxySource.Legacy`).
 */
module NativeProxySourceGenerator {
  import opened Wrappers
  import opened Elements
  import opened Records
  import opened Lines
  import opened Names
  import opened HeaderDefs
  import ProxySource
  import ProxyHeader
  import Resolver
  import H = NativeProxyHeaderGenerator

  /** The generator's own settings. */
  datatype Options = Options(threadSafe: bool, onlyPublicMethod: bool)

  /** The three lists of lookups, before their descriptors are computed. */
  datatype Lookups = Lookups(
    constructors: seq<ProxySource.Pending>,
    methods: seq<ProxySource.Pending>,
    fields: seq<ProxySource.Pending>)

  /** The `(element, index)` pairs of resolved records. */
  function Pairs(rs: seq<MethodRecord>): (r: seq<(Element, nat)>)
    ensures |r| == |rs| && forall k | 0 <= k < |rs| :: r[k] == (rs[k].element, rs[k].index)
  {
    seq(|rs|, k requires 0 <= k < |rs| => (rs[k].element, rs[k].index))
  }

  /**
   * The fields whose IDs the source looks up. As written, every field of
   * the input, numbered by its position among all of them; corrected, the
   * same filtered fields the header declares.
   */
  function LookedUpFields(options: Options, h: HeaderData, asWritten: bool): (r: seq<Element>)
    ensures asWritten ==> r == h.fields
    ensures !asWritten ==> r == Visibility(h.fields, options.onlyPublicMethod)
  {
    if asWritten then h.fields else Visibility(h.fields, options.onlyPublicMethod)
  }

  /** The lookups of resolved constructors, resolved methods and fields, each filling the member named after it. */
  function LookupsFrom(rc: seq<MethodRecord>, rm: seq<MethodRecord>, fs: seq<Element>): (l: Lookups)
    ensures |l.constructors| == |rc| && forall k | 0 <= k < |rc| ::
      l.constructors[k].element == rc[k].element && l.constructors[k].member == ConstructorIdName(rc[k].index)
    ensures |l.methods| == |rm| && forall k | 0 <= k < |rm| ::
      l.methods[k].element == rm[k].element && l.methods[k].member == ElementName(rm[k].element, rm[k].index)
    ensures |l.fields| == |fs| && forall i | 0 <= i < |fs| ::
      l.fields[i].element == fs[i] && l.fields[i].member == ElementName(fs[i], i)
  {
    Lookups(ProxySource.ConstructorLookups(Pairs(rc)), ProxySource.MethodLookups(Pairs(rm)), ProxySource.FieldLookups(fs))
  }

  /**
   * The lookups `generate` makes. Resolution fails exactly when resolving
   * the filtered constructors or the filtered methods fails. Each lookup
   * fills the member named after its element and its position.
   */
  function LookupsOf(options: Options, h: HeaderData, res: H.Resolution, asWritten: bool): (r: Result<Lookups>)
    requires Resolver.AllExecutable(h.constructors) && Resolver.AllExecutable(h.methods)
    ensures Resolver.AllExecutable(Visibility(h.constructors, options.onlyPublicMethod))
    ensures Resolver.AllExecutable(Visibility(h.methods, options.onlyPublicMethod))
    ensures r.Success? <==>
      && Resolver.Resolve(Visibility(h.constructors, options.onlyPublicMethod), res.key, res.reserved, res.defaultPostfix).Success?
      && Resolver.Resolve(Visibility(h.methods, options.onlyPublicMethod), res.key, res.reserved, res.defaultPostfix).Success?
    ensures r.Success? ==> Members(r.value, Visibility(h.constructors, options.onlyPublicMethod),
      Visibility(h.methods, options.onlyPublicMethod), LookedUpFields(options, h, asWritten))
  {
    var cs, ms := Visibility(h.constructors, options.onlyPublicMethod), Visibility(h.methods, options.onlyPublicMethod);
    H.VisibilityExecutable(h.constructors, options.onlyPublicMethod);
    H.VisibilityExecutable(h.methods, options.onlyPublicMethod);
    var rc :- Resolver.Resolve(cs, res.key, res.reserved, res.defaultPostfix);
    var rm :- Resolver.Resolve(ms, res.key, res.reserved, res.defaultPostfix);
    var l := LookupsFrom(rc, rm, LookedUpFields(options, h, asWritten));
    NumberedMembers(l, rc, rm, cs, ms, LookedUpFields(options, h, asWritten));
    Success(l)
  }

  /** One lookup per element, in order, filling the member named after the element and its position. */
  ghost predicate Members(l: Lookups, cs: seq<Element>, ms: seq<Element>, fs: seq<Element>)
  {
    && |l.constructors| == |cs| && (forall k | 0 <= k < |cs| :: l.constructors[k].element == cs[k] && l.constructors[k].member == ConstructorIdName(k))
    && |l.methods| == |ms| && (forall k | 0 <= k < |ms| :: l.methods[k].element == ms[k] && l.methods[k].member == ElementName(ms[k], k))
    && |l.fields| == |fs| && (forall i | 0 <= i < |fs| :: l.fields[i].element == fs[i] && l.fields[i].member == ElementName(fs[i], i))
  }

  lemma NumberedMembers(l: Lookups, rc: seq<MethodRecord>, rm: seq<MethodRecord>, cs: seq<Element>, ms: seq<Element>, fs: seq<Element>)
    requires l == LookupsFrom(rc, rm, fs)
    requires |rc| == |cs| && forall k | 0 <= k < |cs| :: rc[k].element == cs[k] && rc[k].index == k
    requires |rm| == |ms| && forall k | 0 <= k < |ms| :: rm[k].element == ms[k] && rm[k].index == k
    ensures Members(l, cs, ms, fs)
  {
  }

  /** The notice, the header's `#include` and the namespace, none of which opens a block. */
  function Opening(notice: string, headerFileName: string, startOfNamespace: string): (r: seq<Piece>)
    ensures Flat(r) && |r| == 5 && r[0] == Fragment(false, notice)
  {
    [Fragment(false, notice), L(0, ProxySource.IncludeLine(headerFileName)), Blank, L(0, startOfNamespace), Blank]
  }

  /** The first line of `initClazz`, `inline` exactly when `headerOnly`. */
  function InitOpening(simpleClassName: string, headerOnly: bool): Piece
  {
    O(0, ProxySource.InitPrefix(headerOnly) + " bool " + ProxySource.LegacyClassName(simpleClassName) + "::initClazz(JNIEnv* env) ")
  }

  /** The first line of `releaseClazz`, `inline` exactly when `headerOnly`. */
  function ReleaseOpening(simpleClassName: string, headerOnly: bool): Piece
  {
    O(0, ProxySource.InitPrefix(headerOnly) + " void " + ProxySource.LegacyClassName(simpleClassName) + "::releaseClazz(JNIEnv* env) ")
  }

  /** The two prefixes differ, so a line says whether its function is `inline`. */
  lemma OpeningsDiffer(simpleClassName: string)
    ensures InitOpening(simpleClassName, true) != InitOpening(simpleClassName, false)
    ensures ReleaseOpening(simpleClassName, true) != ReleaseOpening(simpleClassName, false)
  {
    var t, f := ProxySource.InitPrefix(true), ProxySource.InitPrefix(false);
    assert |t| != |f|;
    var q := ProxySource.LegacyClassName(simpleClassName);
    assert |t + " bool " + q + "::initClazz(JNIEnv* env) "| != |f + " bool " + q + "::initClazz(JNIEnv* env) "|;
    assert |t + " void " + q + "::releaseClazz(JNIEnv* env) "| != |f + " void " + q + "::releaseClazz(JNIEnv* env) "|;
  }

  /**
   * The file for a given set of lookups. It fails exactly when one of the
   * descriptors cannot be computed; `EmitShape` states what it writes
   * otherwise. As written, `releaseClazz` is `inline`, because pre-content
   * is asked for a source file and post-content for a header. Corrected,
   * both are asked for a source file.
   */
  function Emit(notice: string, threadSafe: bool, input: SourceData, l: Lookups, asWritten: bool): (r: Result<seq<Piece>>)
    ensures r.Success? <==>
      && ProxySource.Resolve(l.constructors, asWritten).Success?
      && ProxySource.Resolve(l.methods, asWritten).Success?
      && ProxySource.Resolve(l.fields, asWritten).Success?
  {
    var ids :- IdInits(l, asWritten);
    Success(File(notice, threadSafe, input, ids, asWritten))
  }

  /**
   * A file `Emit` writes is balanced, starts with the opening lines, opens
   * `initClazz` without `inline`, and opens `releaseClazz` without `inline`
   * exactly when corrected.
   */
  lemma EmitShape(notice: string, threadSafe: bool, input: SourceData, l: Lookups, asWritten: bool)
    requires Emit(notice, threadSafe, input, l, asWritten).Success?
    ensures var r := Emit(notice, threadSafe, input, l, asWritten).value;
      && Balanced(r) && 14 + 7 <= |r|
      && r[..5] == Opening(notice, input.headerFileName, input.headerData.namespace.startOfNamespace)
      && r[7] == InitOpening(input.headerData.classInfo.simpleClassName, false)
      && (r[|r| - 14] == ReleaseOpening(input.headerData.classInfo.simpleClassName, false) <==> !asWritten)
  {
  }

  /**
   * As written, one `.cpp` defines `initClazz` without `inline` and
   * `releaseClazz` with it: the two halves of the class's lifetime are
   * asked for different kinds of file.
   */
  lemma ReleaseInlineAsWritten(notice: string, threadSafe: bool, input: SourceData, l: Lookups)
    requires Emit(notice, threadSafe, input, l, true).Success?
    ensures var r := Emit(notice, threadSafe, input, l, true).value;
      && r[7] == InitOpening(input.headerData.classInfo.simpleClassName, false)
      && r[|r| - 14] == ReleaseOpening(input.headerData.classInfo.simpleClassName, true)
  {
    var h := input.headerData;
    var simple := h.classInfo.simpleClassName;
    var ids := IdInits(l, true).value;
    var opening := Opening(notice, input.headerFileName, h.namespace.startOfNamespace);
    var pre := ProxySource.LegacyPreContent(simple, false, threadSafe);
    var post := ProxySource.PostContent(ProxySource.Legacy, ProxySource.LegacyClassName(simple), h.namespace.endOfNameSpace, true, threadSafe);
    assert Emit(notice, threadSafe, input, l, true).value == opening + pre + ids + post;
    PreOpens(simple, threadSafe);
    PostReleases(simple, h.namespace.endOfNameSpace, true, threadSafe);
    Assembled(opening, pre, ids, post, threadSafe);
  }

  /** The file around flat ID lookups. */
  function File(notice: string, threadSafe: bool, input: SourceData, ids: seq<Piece>, asWritten: bool): (r: seq<Piece>)
    requires Flat(ids)
    ensures Balanced(r) && 14 + 7 <= |r|
    ensures r[..5] == Opening(notice, input.headerFileName, input.headerData.namespace.startOfNamespace)
    ensures r[7] == InitOpening(input.headerData.classInfo.simpleClassName, false)
    ensures r[|r| - 14] == ReleaseOpening(input.headerData.classInfo.simpleClassName, false) <==> !asWritten
  {
    var h := input.headerData;
    var simple := h.classInfo.simpleClassName;
    var opening := Opening(notice, input.headerFileName, h.namespace.startOfNamespace);
    var pre := ProxySource.LegacyPreContent(simple, false, threadSafe);
    var post := ProxySource.PostContent(ProxySource.Legacy, ProxySource.LegacyClassName(simple), h.namespace.endOfNameSpace, asWritten, threadSafe);
    FileFacts(opening, pre, ids, post, simple, h.namespace.endOfNameSpace, asWritten, threadSafe);
    opening + pre + ids + post
  }

  /** The facts `File` promises, for its four parts. */
  lemma FileFacts(opening: seq<Piece>, pre: seq<Piece>, ids: seq<Piece>, post: seq<Piece>, simple: string, endNamespace: string, asWritten: bool, threadSafe: bool)
    requires Flat(opening) && |opening| == 5 && Flat(ids)
    requires pre == ProxySource.LegacyPreContent(simple, false, threadSafe)
    requires post == ProxySource.PostContent(ProxySource.Legacy, ProxySource.LegacyClassName(simple), endNamespace, asWritten, threadSafe)
    ensures var r := opening + pre + ids + post;
      && Balanced(r) && 14 + 7 <= |r| && r[..5] == opening && r[7] == InitOpening(simple, false)
      && (r[|r| - 14] == ReleaseOpening(simple, false) <==> !asWritten)
  {
    OpeningsDiffer(simple);
    PreOpens(simple, threadSafe);
    PostReleases(simple, endNamespace, asWritten, threadSafe);
    Assembled(opening, pre, ids, post, threadSafe);
  }

  /** Pre-content opens `initClazz` on its third line and leaves it open. */
  lemma PreOpens(simple: string, threadSafe: bool)
    ensures var pre := ProxySource.LegacyPreContent(simple, false, threadSafe);
      |pre| >= 3 && pre[2] == InitOpening(simple, false) && Walk(pre, 0) == Some(2 + ProxyHeader.Flag(threadSafe))
  {
  }

  /** Post-content opens `releaseClazz` fourteen lines from its end, and closes everything. */
  lemma PostReleases(simple: string, endNamespace: string, headerOnly: bool, threadSafe: bool)
    ensures var post := ProxySource.PostContent(ProxySource.Legacy, ProxySource.LegacyClassName(simple), endNamespace, headerOnly, threadSafe);
      |post| >= 14 && post[|post| - 14] == ReleaseOpening(simple, headerOnly)
      && Walk(post, 2 + ProxyHeader.Flag(threadSafe)) == Some(0)
  {
    var post := ProxySource.PostContent(ProxySource.Legacy, ProxySource.LegacyClassName(simple), endNamespace, headerOnly, threadSafe);
    var k := 6 + ProxyHeader.Flag(threadSafe);
    assert post[k] == post[k..k + 11][0];
  }

  /** `getConstructorIdInit`, `getMethodIdInit` and `getFieldIdInit` in turn: flat lines, or the first descriptor's error. */
  function IdInits(l: Lookups, asWritten: bool): (r: Result<seq<Piece>>)
    ensures r.Success? <==>
      && ProxySource.Resolve(l.constructors, asWritten).Success?
      && ProxySource.Resolve(l.methods, asWritten).Success?
      && ProxySource.Resolve(l.fields, asWritten).Success?
    ensures r.Success? ==> Flat(r.value)
  {
    var ci :- ProxySource.IdInit(ProxySource.Legacy, l.constructors, asWritten);
    var mi :- ProxySource.IdInit(ProxySource.Legacy, l.methods, asWritten);
    var fi :- ProxySource.IdInit(ProxySource.Legacy, l.fields, asWritten);
    ProxySource.FlatAppend(ci, mi);
    ProxySource.FlatAppend(ci + mi, fi);
    Success(ci + mi + fi)
  }

  /** `generate(input)`: the lookups, then the file; it fails when either does. */
  function Generate(notice: string, options: Options, input: SourceData, res: H.Resolution, asWritten: bool): (r: Result<seq<Piece>>)
    requires Resolver.AllExecutable(input.headerData.constructors) && Resolver.AllExecutable(input.headerData.methods)
    ensures r.Success? <==> (LookupsOf(options, input.headerData, res, asWritten).Success?
      && Emit(notice, options.threadSafe, input, LookupsOf(options, input.headerData, res, asWritten).value, asWritten).Success?)
    ensures r.Success? ==> r.value == Emit(notice, options.threadSafe, input, LookupsOf(options, input.headerData, res, asWritten).value, asWritten).value
  {
    var l :- LookupsOf(options, input.headerData, res, asWritten);
    Emit(notice, options.threadSafe, input, l, asWritten)
  }

  /**
   * The pieces in order: flat opening lines, pre-content that leaves
   * `initClazz` open, flat ID lookups, and post-content that closes it
   * with the same thread safety make a balanced file.
   */
  lemma Assembled(opening: seq<Piece>, pre: seq<Piece>, ids: seq<Piece>, post: seq<Piece>, threadSafe: bool)
    requires Flat(opening) && |opening| == 5 && Flat(ids)
    requires Walk(pre, 0) == Some(2 + ProxyHeader.Flag(threadSafe)) && |pre| >= 3
    requires Walk(post, 2 + ProxyHeader.Flag(threadSafe)) == Some(0) && |post| >= 14
    ensures var r := opening + pre + ids + post;
      && Balanced(r) && 21 <= |r|
      && r[..5] == opening && r[7] == pre[2] && r[|r| - 14] == post[|post| - 14]
  {
    ProxySource.FlatBefore(opening, pre, 2 + ProxyHeader.Flag(threadSafe));
    ProxySource.InitClazzBalancedIff(opening + pre, ids, post, threadSafe, threadSafe);
  }

  // ------------------------------------------------------------ IDs against the header

  /** The ID members a list of lookups assigns. */
  function Assigned(ps: seq<ProxySource.Pending>): set<string>
  {
    set k | 0 <= k < |ps| :: ps[k].member
  }

  /** Every member the source assigns, of constructors, methods and fields. */
  function AllAssigned(l: Lookups): set<string>
  {
    Assigned(l.constructors) + Assigned(l.methods) + Assigned(l.fields)
  }

  /** The ID members the header's `ClassInitState` declares. */
  function HeaderDeclared(config: ProxyConfiguration, h: HeaderData): set<string>
  {
    var l := H.ListsOf(config, h, false);
    H.DeclaredIds(H.ConstructorIds(l.constructors)) + H.DeclaredIds(H.MethodIds(l.methods)) + H.DeclaredIds(H.FieldIds(l.fields))
  }

  /** The header's `ClassInitState` declares exactly the members `HeaderDeclared` collects. */
  lemma HeaderDeclaresInInitState(config: ProxyConfiguration, h: HeaderData)
    ensures forall x :: x in HeaderDeclared(config, h) <==>
      exists s | s in H.InitState(config.threadSafe, H.ListsOf(config, h, false)) :: x in H.DeclaredIds(s)
  {
    var st := H.InitState(config.threadSafe, H.ListsOf(config, h, false));
    forall x | x in HeaderDeclared(config, h) ensures exists s | s in st :: x in H.DeclaredIds(s) {
      if x in H.DeclaredIds(st[1]) {
      } else if x in H.DeclaredIds(st[2]) {
      } else {
        assert x in H.DeclaredIds(st[3]);
      }
    }
  }

  /** Constructor lookups numbered by position assign exactly the members the header declares for them. */
  lemma ConstructorMembers(ps: seq<ProxySource.Pending>, cs: seq<Element>)
    requires |ps| == |cs| && forall k | 0 <= k < |cs| :: ps[k].member == ConstructorIdName(k)
    ensures Assigned(ps) == H.DeclaredIds(H.ConstructorIds(cs))
  {
    forall x | x in H.DeclaredIds(H.ConstructorIds(cs)) ensures x in Assigned(ps) {
      var k :| 0 <= k < |cs| && x == ConstructorIdName(k);
      assert ps[k].member == x;
    }
  }

  /** Method lookups numbered by position assign exactly the members the header declares for them. */
  lemma MethodMembers(ps: seq<ProxySource.Pending>, ms: seq<Element>)
    requires |ps| == |ms| && forall k | 0 <= k < |ms| :: ms[k].IsExecutable() && ps[k].member == ElementName(ms[k], k)
    ensures Assigned(ps) == H.DeclaredIds(H.MethodIds(ms))
  {
    forall k | 0 <= k < |ms| ensures ps[k].member == MethodIdName(ms[k], k) {
      PrivateIdNamesAgree(ms[k], k);
    }
    forall x | x in H.DeclaredIds(H.MethodIds(ms)) ensures x in Assigned(ps) {
      var k :| 0 <= k < |ms| && x == MethodIdName(ms[k], k);
      assert ps[k].member == x;
    }
  }

  /** Field lookups numbered by position assign exactly the members the header declares for them. */
  lemma FieldMembers(ps: seq<ProxySource.Pending>, fs: seq<Element>)
    requires |ps| == |fs| && forall i | 0 <= i < |fs| :: !fs[i].IsExecutable() && ps[i].member == ElementName(fs[i], i)
    ensures Assigned(ps) == H.DeclaredIds(H.FieldIds(fs))
  {
    forall i | 0 <= i < |fs| ensures ps[i].member == FieldIdName(fs[i], i) {
      PrivateIdNamesAgree(fs[i], i);
    }
    forall x | x in H.DeclaredIds(H.FieldIds(fs)) ensures x in Assigned(ps) {
      var i :| 0 <= i < |fs| && x == FieldIdName(fs[i], i);
      assert ps[i].member == x;
    }
  }

  /**
   * With the fields filtered like the constructors and methods, the source
   * assigns exactly the ID members the header of the same class, with the
   * same `onlyPublicMethod`, declares.
   */
  lemma AssignsWhatHeaderDeclares(options: Options, config: ProxyConfiguration, h: HeaderData, res: H.Resolution)
    requires Resolver.AllExecutable(h.constructors) && Resolver.AllExecutable(h.methods)
    requires forall i | 0 <= i < |h.fields| :: !h.fields[i].IsExecutable()
    requires config.onlyPublicMethod == options.onlyPublicMethod
    requires LookupsOf(options, h, res, false).Success?
    ensures AllAssigned(LookupsOf(options, h, res, false).value) == HeaderDeclared(config, h)
  {
    var l := LookupsOf(options, h, res, false).value;
    var hl := H.ListsOf(config, h, false);
    assert Members(l, hl.constructors, hl.methods, hl.fields);
    forall k | 0 <= k < |hl.methods| ensures hl.methods[k].IsExecutable() {
      assert hl.methods[k] in h.methods;
    }
    forall i | 0 <= i < |hl.fields| ensures !hl.fields[i].IsExecutable() {
      assert hl.fields[i] in h.fields;
    }
    MembersDeclared(l, hl.constructors, hl.methods, hl.fields);
  }

  /** Lookups numbered by position assign exactly the members the header declares for the same lists. */
  lemma MembersDeclared(l: Lookups, cs: seq<Element>, ms: seq<Element>, fs: seq<Element>)
    requires Members(l, cs, ms, fs)
    requires forall k | 0 <= k < |ms| :: ms[k].IsExecutable()
    requires forall i | 0 <= i < |fs| :: !fs[i].IsExecutable()
    ensures AllAssigned(l) == H.DeclaredIds(H.ConstructorIds(cs)) + H.DeclaredIds(H.MethodIds(ms)) + H.DeclaredIds(H.FieldIds(fs))
  {
    ConstructorMembers(l.constructors, cs);
    MethodMembers(l.methods, ms);
    FieldMembers(l.fields, fs);
  }

  /**
   * As written, for a class whose one field is private, a proxy of only
   * public members assigns `sField_<name>_0` in its source, a member its
   * header never declares.
   */
  lemma AsWrittenAssignsUndeclaredField(options: Options, config: ProxyConfiguration, h: HeaderData, res: H.Resolution, f: Element)
    requires options.onlyPublicMethod && config.onlyPublicMethod
    requires h.constructors == [] && h.methods == [] && h.fields == [f] && !IsPublic(f) && !f.IsExecutable()
    ensures LookupsOf(options, h, res, true).Success?
    ensures FieldIdName(f, 0) in AllAssigned(LookupsOf(options, h, res, true).value)
    ensures HeaderDeclared(config, h) == {}
  {
    var l := LookupsOf(options, h, res, true).value;
    PrivateIdNamesAgree(f, 0);
    assert l.fields[0].member == FieldIdName(f, 0);
    PublicOnlyDeclaresNone(config, h, f);
  }

  /** A proxy of only public members, for a class whose one member is a private field, declares no ID. */
  lemma PublicOnlyDeclaresNone(config: ProxyConfiguration, h: HeaderData, f: Element)
    requires config.onlyPublicMethod
    requires h.constructors == [] && h.methods == [] && h.fields == [f] && !IsPublic(f) && !f.IsExecutable()
    ensures HeaderDeclared(config, h) == {}
  {
    var hl := H.ListsOf(config, h, false);
    assert hl.constructors == [] && hl.methods == [] && hl.fields == [];
  }

}
