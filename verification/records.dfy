/**
 * The plain records the generators pass around: the proxy configuration,
 * `JennyMethodRecord` (a method with the postfix that tells its overloads
 * apart and its position in the input), and the `HeaderData` and
 * `SourceData` a generator reads.
 */
module Records {
  import opened Elements
  import opened ClassInfos
  import opened Namespaces

  /** `ProxyConfiguration` of the proxy generators. */
  datatype ProxyConfiguration = ProxyConfiguration(
    threadSafe: bool,
    useJniHelper: bool,
    headerOnlyProxy: bool,
    namespace: string,
    allFields: bool,
    onlyPublicMethod: bool,
    gettersForFields: bool,
    settersForFields: bool)

  /** `JennyMethodRecord(method, resolvedPostFix, index)`; `method` is a Dafny keyword, hence `element`. */
  datatype MethodRecord = MethodRecord(element: Element, resolvedPostFix: string, index: nat)

  /**
   * `HeaderData` of `generator/model/GenerationData.kt` and of
   * `generator/HeaderData.kt`: the class, its namespace text and its members.
   */
  datatype HeaderData = HeaderData(
    classInfo: ClassInfo,
    namespace: Namespace,
    constructors: seq<Element>,
    methods: seq<Element>,
    constants: seq<Element>,
    fields: seq<Element>)

  /** The defaults of every `HeaderData` parameter. */
  const EmptyHeaderData: HeaderData := HeaderData(EmptyClassInfo, Namespace("", ""), [], [], [], [])

  /** `SourceData(headerFileName, headerData)` */
  datatype SourceData = SourceData(headerFileName: string, headerData: HeaderData)

  /** The six slots of a `HeaderData`, named so that a change can be located. */
  datatype Slot = ClassInfoSlot | NamespaceSlot | ConstructorsSlot | MethodsSlot | ConstantsSlot | FieldsSlot

  /** What a slot holds. */
  datatype SlotValue = InfoValue(info: ClassInfo) | NamespaceValue(ns: Namespace) | ElementsValue(elements: seq<Element>)

  function Get(h: HeaderData, s: Slot): SlotValue
  {
    match s
    case ClassInfoSlot => InfoValue(h.classInfo)
    case NamespaceSlot => NamespaceValue(h.namespace)
    case ConstructorsSlot => ElementsValue(h.constructors)
    case MethodsSlot => ElementsValue(h.methods)
    case ConstantsSlot => ElementsValue(h.constants)
    case FieldsSlot => ElementsValue(h.fields)
  }

  /** `b` is `a` except possibly in slot `s`. */
  predicate ChangesOnly(a: HeaderData, b: HeaderData, s: Slot)
  {
    forall t: Slot | t != s :: Get(a, t) == Get(b, t)
  }

  /** Two header data that agree on every slot are the same. */
  lemma SlotsDetermine(a: HeaderData, b: HeaderData)
    requires forall t: Slot :: Get(a, t) == Get(b, t)
    ensures a == b
  {
    assert Get(a, ClassInfoSlot) == Get(b, ClassInfoSlot);
    assert Get(a, NamespaceSlot) == Get(b, NamespaceSlot);
    assert Get(a, ConstructorsSlot) == Get(b, ConstructorsSlot);
    assert Get(a, MethodsSlot) == Get(b, MethodsSlot);
    assert Get(a, ConstantsSlot) == Get(b, ConstantsSlot);
    assert Get(a, FieldsSlot) == Get(b, FieldsSlot);
  }
}
