/**
 * The mutable `HeaderData.Builder` of `generator/model/GenerationData.kt`,
 * as a value: every setter returns the builder it leaves behind, and a
 * chain of calls is a fold over them.
 */
module GenerationData {
  import opened Elements
  import opened ClassInfos
  import opened Namespaces
  import opened Records

  /** The builder's private state: the data it will build, and the suffix of the C++ class name. */
  datatype Builder = Builder(data: HeaderData, defaultCppName: string)

  const NewBuilder: Builder := Builder(EmptyHeaderData, "")

  function WithClassInfo(b: Builder, ci: ClassInfo): (r: Builder)
    ensures Get(r.data, ClassInfoSlot) == InfoValue(ci) && ChangesOnly(b.data, r.data, ClassInfoSlot)
    ensures r.defaultCppName == b.defaultCppName
  {
    b.(data := b.data.(classInfo := ci))
  }

  function WithConstructors(b: Builder, cs: seq<Element>): (r: Builder)
    ensures Get(r.data, ConstructorsSlot) == ElementsValue(cs) && ChangesOnly(b.data, r.data, ConstructorsSlot)
    ensures r.defaultCppName == b.defaultCppName
  {
    b.(data := b.data.(constructors := cs))
  }

  function WithMethods(b: Builder, ms: seq<Element>): (r: Builder)
    ensures Get(r.data, MethodsSlot) == ElementsValue(ms) && ChangesOnly(b.data, r.data, MethodsSlot)
    ensures r.defaultCppName == b.defaultCppName
  {
    b.(data := b.data.(methods := ms))
  }

  function WithConstants(b: Builder, ks: seq<Element>): (r: Builder)
    ensures Get(r.data, ConstantsSlot) == ElementsValue(ks) && ChangesOnly(b.data, r.data, ConstantsSlot)
    ensures r.defaultCppName == b.defaultCppName
  {
    b.(data := b.data.(constants := ks))
  }

  function WithFields(b: Builder, fs: seq<Element>): (r: Builder)
    ensures Get(r.data, FieldsSlot) == ElementsValue(fs) && ChangesOnly(b.data, r.data, FieldsSlot)
    ensures r.defaultCppName == b.defaultCppName
  {
    b.(data := b.data.(fields := fs))
  }

  function WithNamespace(b: Builder, ns: Namespace): (r: Builder)
    ensures Get(r.data, NamespaceSlot) == NamespaceValue(ns) && ChangesOnly(b.data, r.data, NamespaceSlot)
    ensures r.defaultCppName == b.defaultCppName
  {
    b.(data := b.data.(namespace := ns))
  }

  /** `defaultCppName(name)` only records the suffix: no slot of the data changes, the class info included. */
  function WithDefaultCppName(b: Builder, name: string): (r: Builder)
    ensures forall s: Slot :: Get(r.data, s) == Get(b.data, s)
    ensures r.defaultCppName == name
  {
    b.(defaultCppName := name)
  }

  /**
   * `jennyClazz(clazz)`: the class info with the suffix recorded so far,
   * all constructors and methods, and the fields split into the
   * non-constants and the constants, each in the class's order.
   */
  function JennyClazz(b: Builder, c: ClassElement): (r: Builder)
    ensures r.data.classInfo == ExtractClassInfoCpp(c.ref.simpleName, c.ref.fullName, b.defaultCppName)
    ensures r.data.constructors == c.constructors && r.data.methods == c.methods
    ensures forall x :: x in r.data.fields <==> x in c.fields && !IsConstant(x)
    ensures forall x :: x in r.data.constants <==> x in c.fields && IsConstant(x)
    ensures |r.data.fields| + |r.data.constants| == |c.fields|
    ensures IsSubsequence(r.data.fields, c.fields) && IsSubsequence(r.data.constants, c.fields)
    ensures r.data.namespace == b.data.namespace && r.defaultCppName == b.defaultCppName
  {
    ConstantsPartition(c.fields);
    b.(data := b.data.(
      classInfo := ExtractClassInfoCpp(c.ref.simpleName, c.ref.fullName, b.defaultCppName),
      constructors := c.constructors,
      methods := c.methods,
      fields := NonConstants(c.fields),
      constants := Constants(c.fields)))
  }

  /** `build()` hands over the six accumulated values; the suffix is not part of the result. */
  function Build(b: Builder): (r: HeaderData)
    ensures forall s: Slot :: Get(r, s) == Get(b.data, s)
  {
    b.data
  }

  // ------------------------------------------------------------ call chains

  /** One call on the builder. */
  datatype Call =
    | ClassInfoCall(info: ClassInfo)
    | ConstructorsCall(constructors: seq<Element>)
    | MethodsCall(methods: seq<Element>)
    | ConstantsCall(constants: seq<Element>)
    | FieldsCall(fields: seq<Element>)
    | NamespaceCall(namespace: Namespace)
    | DefaultCppNameCall(name: string)
    | JennyClazzCall(clazz: ClassElement)

  function Apply(b: Builder, c: Call): Builder
  {
    match c
    case ClassInfoCall(ci) => WithClassInfo(b, ci)
    case ConstructorsCall(cs) => WithConstructors(b, cs)
    case MethodsCall(ms) => WithMethods(b, ms)
    case ConstantsCall(ks) => WithConstants(b, ks)
    case FieldsCall(fs) => WithFields(b, fs)
    case NamespaceCall(ns) => WithNamespace(b, ns)
    case DefaultCppNameCall(n) => WithDefaultCppName(b, n)
    case JennyClazzCall(clazz) => JennyClazz(b, clazz)
  }

  /** The builder after a chain of calls, first call first. */
  function Run(b: Builder, cs: seq<Call>): Builder
    decreases |cs|
  {
    if |cs| == 0 then b else Run(Apply(b, cs[0]), cs[1..])
  }

  lemma {:induction false} RunAppend(b: Builder, cs: seq<Call>, ds: seq<Call>)
    ensures Run(b, cs + ds) == Run(Run(b, cs), ds)
    decreases |cs|
  {
    if |cs| == 0 {
      assert cs + ds == ds;
    } else {
      assert (cs + ds)[1..] == cs[1..] + ds;
      RunAppend(Apply(b, cs[0]), cs[1..], ds);
    }
  }

  /** Does the call write the class info? */
  predicate SetsClassInfo(c: Call)
  {
    c.ClassInfoCall? || c.JennyClazzCall?
  }

  /** Calls that do not write the class info leave it as it was. */
  lemma {:induction false} RunKeepsClassInfo(b: Builder, cs: seq<Call>)
    requires forall j | 0 <= j < |cs| :: !SetsClassInfo(cs[j])
    ensures Run(b, cs).data.classInfo == b.data.classInfo
    decreases |cs|
  {
    if |cs| > 0 {
      assert !SetsClassInfo(cs[0]);
      RunKeepsClassInfo(Apply(b, cs[0]), cs[1..]);
    }
  }

  /**
   * The C++ class name is fixed when `jennyClazz` is called: after the last
   * call that writes the class info, a `jennyClazz`, the name is the simple
   * name with the suffix recorded before that call, whatever
   * `defaultCppName` calls follow.
   */
  lemma CppNameFixedAtJennyClazz(b: Builder, cs: seq<Call>, k: nat)
    requires k < |cs| && cs[k].JennyClazzCall?
    requires forall j | k < j < |cs| :: !SetsClassInfo(cs[j])
    ensures Run(b, cs).data.classInfo.cppClassName
      == cs[k].clazz.ref.simpleName + Run(b, cs[..k]).defaultCppName
  {
    assert cs == cs[..k] + [cs[k]] + cs[k + 1..];
    RunAppend(b, cs[..k] + [cs[k]], cs[k + 1..]);
    RunAppend(b, cs[..k], [cs[k]]);
    assert Run(Run(b, cs[..k]), [cs[k]]) == Apply(Run(b, cs[..k]), cs[k]);
    RunKeepsClassInfo(Run(b, cs[..k] + [cs[k]]), cs[k + 1..]);
  }
}
