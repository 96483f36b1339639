/**
 * `generator/proxy/NativeProxyHeaderGenerator.kt`: which sections of the
 * proxy header are written, in which order, and which list of
 * constructors, methods or fields each one is given. The sections' own
 * text comes from `utils/JennyHeaderDefinitionsProvider.kt`; here a
 * section is named by the call that writes it and carries its arguments.
 *
 * The ID members a definition uses are named by the private helpers of
 * that provider: `sConstruct_<index>`, `sMethod_<name>_<index>` and
 * `sField_<name>_<index>`, the index being the record's index or the
 * field's position in the list the definitions are given.
 */
module NativeProxyHeaderGenerator {
  import opened Wrappers
  import opened Elements
  import opened ClassInfos
  import opened Records
  import opened Names
  import opened HeaderDefs
  import Resolver
  import ProxyHeader

  /** What `JennyMethodOverloadResolver.resolve` reads besides the list: the parameter key, the reserved words and the default postfix. */
  datatype Resolution = Resolution(key: Element -> string, reserved: set<string>, defaultPostfix: string)

  /** One call of the header provider, with the arguments the generator passes. */
  datatype Section =
    | Notice
    | HeaderInit(info: ClassInfo)
    | ConstantIds(constants: seq<Element>)
    | ClazzInit
    | ConstructorDefs(simpleClassName: string, records: seq<MethodRecord>, helper: bool)
    | MethodDefs(records: seq<MethodRecord>, helper: bool)
    | FieldDefs(fields: seq<Element>, allMethods: seq<Element>, helper: bool, allFields: bool, getters: bool, setters: bool)
    | HelperMembers(simpleClassName: string)
    | InitPre(threadSafe: bool)
    | ConstructorIds(elements: seq<Element>)
    | MethodIds(elements: seq<Element>)
    | FieldIds(elements: seq<Element>)
    | InitPost
    | Gap
    | SourcePre(simpleClassName: string, threadSafe: bool)
    | ConstructorInits(elements: seq<Element>)
    | MethodInits(elements: seq<Element>)
    | FieldInits(elements: seq<Element>)
    | SourcePost(simpleClassName: string, threadSafe: bool)

  predicate IsDefinition(s: Section)
  {
    s.ConstructorDefs? || s.MethodDefs? || s.FieldDefs?
  }

  predicate IsIdDeclaration(s: Section)
  {
    s.ConstructorIds? || s.MethodIds? || s.FieldIds?
  }

  predicate IsInlineSource(s: Section)
  {
    s.Gap? || s.SourcePre? || s.ConstructorInits? || s.MethodInits? || s.FieldInits? || s.SourcePost?
  }

  /** A visibility filter keeps executables executable. */
  lemma VisibilityExecutable(es: seq<Element>, onlyPublic: bool)
    requires Resolver.AllExecutable(es)
    ensures Resolver.AllExecutable(Visibility(es, onlyPublic))
  {
    var r := Visibility(es, onlyPublic);
    forall i | 0 <= i < |r| ensures r[i].IsExecutable() {
      assert r[i] in es;
    }
  }

  /** The filtered lists: everything, or only the public elements. */
  function Constructors(config: ProxyConfiguration, input: HeaderData): seq<Element>
  {
    Visibility(input.constructors, config.onlyPublicMethod)
  }

  function Methods(config: ProxyConfiguration, input: HeaderData): seq<Element>
  {
    Visibility(input.methods, config.onlyPublicMethod)
  }

  function Fields(config: ProxyConfiguration, input: HeaderData): seq<Element>
  {
    Visibility(input.fields, config.onlyPublicMethod)
  }

  /** The lists the sections are given: the filtered members, and the fields whose accessors are written. */
  datatype Lists = Lists(constructors: seq<Element>, methods: seq<Element>, fields: seq<Element>, accessed: seq<Element>)

  /** `xs` is `all`, or its public elements, in order. */
  ghost predicate Kept(xs: seq<Element>, all: seq<Element>, onlyPublic: bool)
  {
    && IsSubsequence(xs, all)
    && (forall x :: x in xs <==> x in all && (onlyPublic ==> IsPublic(x)))
  }

  /**
   * With `onlyPublicMethod` the ID declarations and the inline lookups see
   * only the public constructors, methods and fields, otherwise all of
   * them, in the input's order. As written, the accessors are generated for
   * every field of the input while the ID members are declared for the
   * filtered fields only; corrected, both use the filtered fields.
   */
  function ListsOf(config: ProxyConfiguration, input: HeaderData, asWritten: bool): (l: Lists)
    ensures l.constructors == Constructors(config, input) && l.methods == Methods(config, input) && l.fields == Fields(config, input)
    ensures l.accessed == if asWritten then input.fields else l.fields
    ensures Kept(l.constructors, input.constructors, config.onlyPublicMethod)
    ensures Kept(l.methods, input.methods, config.onlyPublicMethod)
    ensures Kept(l.fields, input.fields, config.onlyPublicMethod)
  {
    var fields := Fields(config, input);
    Lists(Constructors(config, input), Methods(config, input), fields, if asWritten then input.fields else fields)
  }

  /** The constructors, methods and field accessors, in the plain or the helper flavour. */
  function Definitions(config: ProxyConfiguration, simple: string, l: Lists, rc: seq<MethodRecord>, rm: seq<MethodRecord>, helper: bool): (r: seq<Section>)
    ensures |r| == 3
  {
    [ConstructorDefs(simple, rc, helper),
     MethodDefs(rm, helper),
     FieldDefs(l.accessed, l.methods, helper, config.allFields, config.gettersForFields, config.settersForFields)]
  }

  /** The `ClassInitState`: the ID members of the filtered lists, between `initPreDefinition` and `initPostDefinition`. */
  function InitState(threadSafe: bool, l: Lists): (r: seq<Section>)
    ensures |r| == 5
  {
    [InitPre(threadSafe), ConstructorIds(l.constructors), MethodIds(l.methods), FieldIds(l.fields), InitPost]
  }

  /** The inline `initClazz` and `releaseClazz` of a header-only proxy. */
  function InlineSource(simple: string, threadSafe: bool, l: Lists): (r: seq<Section>)
    ensures |r| == 6
  {
    [Gap, SourcePre(simple, threadSafe),
     ConstructorInits(l.constructors), MethodInits(l.methods), FieldInits(l.fields),
     SourcePost(simple, threadSafe)]
  }

  /** Everything before the `ClassInitState`: the class preamble and the definitions, plain and then helper. */
  function Preamble(config: ProxyConfiguration, info: ClassInfo, constants: seq<Element>, l: Lists, rc: seq<MethodRecord>, rm: seq<MethodRecord>): (r: seq<Section>)
    ensures |r| == 7 + 4 * ProxyHeader.Flag(config.useJniHelper)
  {
    var simple := info.simpleClassName;
    [Notice, HeaderInit(info), ConstantIds(constants), ClazzInit]
      + Definitions(config, simple, l, rc, rm, false)
      + (if config.useJniHelper then [HelperMembers(simple)] + Definitions(config, simple, l, rc, rm, true) else [])
  }

  /** The sections once both lists are resolved. */
  function Layout(config: ProxyConfiguration, info: ClassInfo, constants: seq<Element>, l: Lists, rc: seq<MethodRecord>, rm: seq<MethodRecord>): (r: seq<Section>)
    ensures |r| == 12 + 4 * ProxyHeader.Flag(config.useJniHelper) + 6 * ProxyHeader.Flag(config.headerOnlyProxy)
  {
    Preamble(config, info, constants, l, rc, rm)
      + InitState(config.threadSafe, l)
      + (if config.headerOnlyProxy then InlineSource(info.simpleClassName, config.threadSafe, l) else [])
  }

  /** The preamble holds no ID declaration, no `initPostDefinition` and nothing of the inline source, and only definitions use ID members. */
  lemma PreambleSections(config: ProxyConfiguration, info: ClassInfo, constants: seq<Element>, l: Lists, rc: seq<MethodRecord>, rm: seq<MethodRecord>)
    ensures var p := Preamble(config, info, constants, l, rc, rm);
      forall x | x in p :: && !IsIdDeclaration(x) && !x.InitPost? && !IsInlineSource(x)
        && (IsDefinition(x) ==> x in Definitions(config, info.simpleClassName, l, rc, rm, x.helper))
  {
  }

  /**
   * `generate(input)`: fails exactly when resolving the filtered
   * constructors or the filtered methods fails.
   */
  function Generate(config: ProxyConfiguration, input: HeaderData, res: Resolution, asWritten: bool): (r: Result<seq<Section>>)
    requires Resolver.AllExecutable(input.constructors) && Resolver.AllExecutable(input.methods)
    ensures Resolver.AllExecutable(Constructors(config, input)) && Resolver.AllExecutable(Methods(config, input))
    ensures r.Success? <==>
      && Resolver.Resolve(Constructors(config, input), res.key, res.reserved, res.defaultPostfix).Success?
      && Resolver.Resolve(Methods(config, input), res.key, res.reserved, res.defaultPostfix).Success?
    ensures r.Success? ==> r.value == Layout(config, input.classInfo, input.constants, ListsOf(config, input, asWritten),
      Resolver.Resolve(Constructors(config, input), res.key, res.reserved, res.defaultPostfix).value,
      Resolver.Resolve(Methods(config, input), res.key, res.reserved, res.defaultPostfix).value)
  {
    VisibilityExecutable(input.constructors, config.onlyPublicMethod);
    VisibilityExecutable(input.methods, config.onlyPublicMethod);
    var rc :- Resolver.Resolve(Constructors(config, input), res.key, res.reserved, res.defaultPostfix);
    var rm :- Resolver.Resolve(Methods(config, input), res.key, res.reserved, res.defaultPostfix);
    Success(Layout(config, input.classInfo, input.constants, ListsOf(config, input, asWritten), rc, rm))
  }

  // ------------------------------------------------------------ which sections

  /**
   * The JNI-helper members, and the helper flavour of the constructors,
   * methods and field accessors, are written exactly when the helper is
   * used; the plain flavour always is, right after the class preamble.
   */
  lemma HelperSectionsIff(config: ProxyConfiguration, info: ClassInfo, constants: seq<Element>, l: Lists, rc: seq<MethodRecord>, rm: seq<MethodRecord>)
    ensures var r := Layout(config, info, constants, l, rc, rm);
      && ((exists i | 0 <= i < |r| :: r[i].HelperMembers?) <==> config.useJniHelper)
      && ((exists i | 0 <= i < |r| :: IsDefinition(r[i]) && r[i].helper) <==> config.useJniHelper)
      && r[..7] == [Notice, HeaderInit(info), ConstantIds(constants), ClazzInit] + Definitions(config, info.simpleClassName, l, rc, rm, false)
  {
    var r := Layout(config, info, constants, l, rc, rm);
    if config.useJniHelper {
      assert r[7].HelperMembers? && r[8].ConstructorDefs? && r[8].helper;
    } else {
      forall i | 0 <= i < |r| ensures !r[i].HelperMembers? && !(IsDefinition(r[i]) && r[i].helper) {
        if i >= 7 {
          assert r[i] in InitState(config.threadSafe, l) + (if config.headerOnlyProxy then InlineSource(info.simpleClassName, config.threadSafe, l) else []);
        }
      }
    }
  }

  /** The inline `initClazz` and `releaseClazz` are appended exactly when the proxy is header-only, after everything else. */
  lemma InlineSourceIff(config: ProxyConfiguration, info: ClassInfo, constants: seq<Element>, l: Lists, rc: seq<MethodRecord>, rm: seq<MethodRecord>)
    ensures var r := Layout(config, info, constants, l, rc, rm);
      && ((exists i | 0 <= i < |r| :: r[i].SourcePre?) <==> config.headerOnlyProxy)
      && ((exists i | 0 <= i < |r| :: r[i].SourcePost?) <==> config.headerOnlyProxy)
      && r[|r| - 1] == (if config.headerOnlyProxy then SourcePost(info.simpleClassName, config.threadSafe) else InitPost)
  {
    var r := Layout(config, info, constants, l, rc, rm);
    var front := Preamble(config, info, constants, l, rc, rm) + InitState(config.threadSafe, l);
    PreambleSections(config, info, constants, l, rc, rm);
    assert forall x | x in front :: !x.SourcePre? && !x.SourcePost?;
    var k := |front|;
    if config.headerOnlyProxy {
      assert r[k + 1].SourcePre? && r[k + 5].SourcePost?;
    } else {
      assert r == front;
    }
  }

  /** Every definition comes before every ID declaration. */
  lemma DefinitionsBeforeDeclarations(config: ProxyConfiguration, info: ClassInfo, constants: seq<Element>, l: Lists, rc: seq<MethodRecord>, rm: seq<MethodRecord>)
    ensures var r := Layout(config, info, constants, l, rc, rm);
      forall i, j | 0 <= i < |r| && 0 <= j < |r| && IsDefinition(r[i]) && IsIdDeclaration(r[j]) :: i < j
  {
    var r := Layout(config, info, constants, l, rc, rm);
    var front := Preamble(config, info, constants, l, rc, rm);
    var back := InitState(config.threadSafe, l) + (if config.headerOnlyProxy then InlineSource(info.simpleClassName, config.threadSafe, l) else []);
    PreambleSections(config, info, constants, l, rc, rm);
    assert r == front + back;
    assert forall x | x in back :: !IsDefinition(x);
    forall i | 0 <= i < |r| ensures (IsDefinition(r[i]) ==> i < |front|) && (IsIdDeclaration(r[i]) ==> |front| <= i) {
      if i < |front| { assert r[i] in front; } else { assert r[i] in back; }
    }
  }

  /** The ID declarations and the inline lookups are given exactly the filtered lists. */
  lemma DeclarationsGetFilteredLists(config: ProxyConfiguration, info: ClassInfo, constants: seq<Element>, l: Lists, rc: seq<MethodRecord>, rm: seq<MethodRecord>)
    ensures var r := Layout(config, info, constants, l, rc, rm);
      forall i | 0 <= i < |r| ::
        && (r[i].ConstructorIds? || r[i].ConstructorInits? ==> r[i].elements == l.constructors)
        && (r[i].MethodIds? || r[i].MethodInits? ==> r[i].elements == l.methods)
        && (r[i].FieldIds? || r[i].FieldInits? ==> r[i].elements == l.fields)
  {
    var r := Layout(config, info, constants, l, rc, rm);
    var front := Preamble(config, info, constants, l, rc, rm);
    var back := InitState(config.threadSafe, l) + (if config.headerOnlyProxy then InlineSource(info.simpleClassName, config.threadSafe, l) else []);
    PreambleSections(config, info, constants, l, rc, rm);
    assert r == front + back;
    forall i | 0 <= i < |r| ensures
        && (r[i].ConstructorIds? || r[i].ConstructorInits? ==> r[i].elements == l.constructors)
        && (r[i].MethodIds? || r[i].MethodInits? ==> r[i].elements == l.methods)
        && (r[i].FieldIds? || r[i].FieldInits? ==> r[i].elements == l.fields)
    {
      if i < |front| { assert r[i] in front; } else { assert r[i] in back; }
    }
  }

  // ------------------------------------------------------------ ID members

  /** The ID members a section's definitions use. */
  function UsedIds(s: Section): set<string>
  {
    match s
    case ConstructorDefs(_, rs, _) => set k | 0 <= k < |rs| :: ConstructorIdName(rs[k].index)
    case MethodDefs(rs, _) => set k | 0 <= k < |rs| :: MethodIdName(rs[k].element, rs[k].index)
    case FieldDefs(fs, ms, _, a, g, st) => set i | 0 <= i < |fs| && HasGetterSetter(fs[i], ms, g, st, a) != {} :: FieldIdName(fs[i], i)
    case _ => {}
  }

  /** The ID members a section declares. */
  function DeclaredIds(s: Section): set<string>
  {
    match s
    case ConstructorIds(cs) => set i | 0 <= i < |cs| :: ConstructorIdName(i)
    case MethodIds(ms) => set i | 0 <= i < |ms| :: MethodIdName(ms[i], i)
    case FieldIds(fs) => set i | 0 <= i < |fs| :: FieldIdName(fs[i], i)
    case _ => {}
  }

  /** Every ID member some definition uses is declared by some section. */
  ghost predicate IdsDeclared(ss: seq<Section>)
  {
    forall i, x | 0 <= i < |ss| && x in UsedIds(ss[i]) :: exists j | 0 <= j < |ss| :: x in DeclaredIds(ss[j])
  }

  /** What a successful resolution hands back: one record per element, numbered by position. */
  ghost predicate Numbered(rs: seq<MethodRecord>, es: seq<Element>)
  {
    |rs| == |es| && forall i | 0 <= i < |es| :: rs[i].element == es[i] && rs[i].index == i
  }

  /** The definitions use only ID members the `ClassInitState` of the same lists declares. */
  lemma DefinitionsIdsDeclared(config: ProxyConfiguration, simple: string, l: Lists, rc: seq<MethodRecord>, rm: seq<MethodRecord>, helper: bool)
    requires l.accessed == l.fields && Numbered(rc, l.constructors) && Numbered(rm, l.methods)
    ensures forall x | x in Definitions(config, simple, l, rc, rm, helper) ::
      UsedIds(x) <= DeclaredIds(ConstructorIds(l.constructors)) + DeclaredIds(MethodIds(l.methods)) + DeclaredIds(FieldIds(l.fields))
  {
    forall n | 0 <= n < |rc| ensures ConstructorIdName(rc[n].index) in DeclaredIds(ConstructorIds(l.constructors)) { }
    forall n | 0 <= n < |rm| ensures MethodIdName(rm[n].element, rm[n].index) in DeclaredIds(MethodIds(l.methods)) { }
  }

  /** When the accessors are written for the declared fields, every ID member used is declared. */
  lemma LayoutIdsDeclared(config: ProxyConfiguration, info: ClassInfo, constants: seq<Element>, l: Lists, rc: seq<MethodRecord>, rm: seq<MethodRecord>)
    requires l.accessed == l.fields && Numbered(rc, l.constructors) && Numbered(rm, l.methods)
    ensures IdsDeclared(Layout(config, info, constants, l, rc, rm))
  {
    var r := Layout(config, info, constants, l, rc, rm);
    var k := |Preamble(config, info, constants, l, rc, rm)| + 1;
    PreambleSections(config, info, constants, l, rc, rm);
    assert r[k] == ConstructorIds(l.constructors) && r[k + 1] == MethodIds(l.methods) && r[k + 2] == FieldIds(l.fields);
    LayoutUsesListIds(config, info, constants, l, rc, rm);
    forall i, x | 0 <= i < |r| && x in UsedIds(r[i]) ensures exists j | 0 <= j < |r| :: x in DeclaredIds(r[j]) {
      assert r[i] in r;
      if x in DeclaredIds(r[k]) {
      } else if x in DeclaredIds(r[k + 1]) {
      } else {
        assert x in DeclaredIds(r[k + 2]);
      }
    }
  }

  /** Every section of the layout uses only IDs of the lists' three declarations. */
  lemma LayoutUsesListIds(config: ProxyConfiguration, info: ClassInfo, constants: seq<Element>, l: Lists, rc: seq<MethodRecord>, rm: seq<MethodRecord>)
    requires l.accessed == l.fields && Numbered(rc, l.constructors) && Numbered(rm, l.methods)
    ensures forall x | x in Layout(config, info, constants, l, rc, rm) ::
      UsedIds(x) <= DeclaredIds(ConstructorIds(l.constructors)) + DeclaredIds(MethodIds(l.methods)) + DeclaredIds(FieldIds(l.fields))
  {
    var back := InitState(config.threadSafe, l) + (if config.headerOnlyProxy then InlineSource(info.simpleClassName, config.threadSafe, l) else []);
    assert Layout(config, info, constants, l, rc, rm) == Preamble(config, info, constants, l, rc, rm) + back;
    PreambleUsesListIds(config, info, constants, l, rc, rm);
    assert forall x | x in back :: UsedIds(x) == {};
  }

  /** The preamble's sections use only IDs of the lists' three declarations. */
  lemma PreambleUsesListIds(config: ProxyConfiguration, info: ClassInfo, constants: seq<Element>, l: Lists, rc: seq<MethodRecord>, rm: seq<MethodRecord>)
    requires l.accessed == l.fields && Numbered(rc, l.constructors) && Numbered(rm, l.methods)
    ensures forall x | x in Preamble(config, info, constants, l, rc, rm) ::
      UsedIds(x) <= DeclaredIds(ConstructorIds(l.constructors)) + DeclaredIds(MethodIds(l.methods)) + DeclaredIds(FieldIds(l.fields))
  {
    PreambleSections(config, info, constants, l, rc, rm);
    DefinitionsIdsDeclared(config, info.simpleClassName, l, rc, rm, false);
    DefinitionsIdsDeclared(config, info.simpleClassName, l, rc, rm, true);
  }

  /**
   * With the accessors generated for the filtered fields, every ID member
   * the header's definitions use is declared in its `ClassInitState`.
   */
  lemma GeneratedIdsDeclared(config: ProxyConfiguration, input: HeaderData, res: Resolution)
    requires Resolver.AllExecutable(input.constructors) && Resolver.AllExecutable(input.methods)
    requires Generate(config, input, res, false).Success?
    ensures IdsDeclared(Generate(config, input, res, false).value)
  {
    var l := ListsOf(config, input, false);
    var rc := Resolver.Resolve(l.constructors, res.key, res.reserved, res.defaultPostfix).value;
    var rm := Resolver.Resolve(l.methods, res.key, res.reserved, res.defaultPostfix).value;
    LayoutIdsDeclared(config, input.classInfo, input.constants, l, rc, rm);
  }

  /**
   * As written, a proxy of only public members for a class whose one field
   * is private, not a constant, and given a getter gets an accessor that
   * uses `sField_<name>_0`, which no section declares.
   */
  lemma AsWrittenUsesUndeclaredFieldId(config: ProxyConfiguration, input: HeaderData, res: Resolution, f: Element)
    requires config.onlyPublicMethod && config.gettersForFields && !config.allFields
    requires input.constructors == [] && input.methods == [] && input.fields == [f]
    requires !IsPublic(f) && !IsConstant(f)
    ensures Generate(config, input, res, true).Success?
    ensures FieldIdName(f, 0) in UsedIds(Generate(config, input, res, true).value[6])
    ensures !IdsDeclared(Generate(config, input, res, true).value)
  {
    var l := ListsOf(config, input, true);
    assert l.constructors == [] && l.methods == [] && l.fields == [] && l.accessed == [f];
    var r := Generate(config, input, res, true).value;
    assert r[6] == FieldDefs([f], [], false, false, true, config.settersForFields);
    assert Getter in HasGetterSetter(f, [], true, config.settersForFields, false);
    assert FieldIdName(f, 0) in UsedIds(r[6]);
    forall j | 0 <= j < |r| ensures DeclaredIds(r[j]) == {} { }
  }
}
