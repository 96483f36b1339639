/**
 * The `HeaderData.Builder` of `generator/GlueData.kt`: the class info has
 * no default, and `build` refuses a builder that was never given one.
 */
module GlueData {
  import opened Wrappers
  import opened Elements
  import opened ClassInfos

  /** `HeaderData` of this file: no namespace, and a class info that is always present. */
  datatype GlueHeaderData = GlueHeaderData(
    classInfo: ClassInfo,
    constructors: seq<Element>,
    methods: seq<Element>,
    constants: seq<Element>,
    fields: seq<Element>)

  datatype Builder = Builder(
    classInfo: Option<ClassInfo>,
    constructors: seq<Element>,
    methods: seq<Element>,
    constants: seq<Element>,
    fields: seq<Element>)

  const NewBuilder: Builder := Builder(None, [], [], [], [])

  function WithClassInfo(b: Builder, ci: ClassInfo): (r: Builder)
    ensures r.classInfo == Some(ci)
    ensures r.constructors == b.constructors && r.methods == b.methods && r.constants == b.constants && r.fields == b.fields
  {
    b.(classInfo := Some(ci))
  }

  function WithConstructors(b: Builder, cs: seq<Element>): (r: Builder)
    ensures r.constructors == cs
    ensures r.classInfo == b.classInfo && r.methods == b.methods && r.constants == b.constants && r.fields == b.fields
  {
    b.(constructors := cs)
  }

  function WithMethods(b: Builder, ms: seq<Element>): (r: Builder)
    ensures r.methods == ms
    ensures r.classInfo == b.classInfo && r.constructors == b.constructors && r.constants == b.constants && r.fields == b.fields
  {
    b.(methods := ms)
  }

  function WithConstants(b: Builder, ks: seq<Element>): (r: Builder)
    ensures r.constants == ks
    ensures r.classInfo == b.classInfo && r.constructors == b.constructors && r.methods == b.methods && r.fields == b.fields
  {
    b.(constants := ks)
  }

  function WithFields(b: Builder, fs: seq<Element>): (r: Builder)
    ensures r.fields == fs
    ensures r.classInfo == b.classInfo && r.constructors == b.constructors && r.methods == b.methods && r.constants == b.constants
  {
    b.(fields := fs)
  }

  /**
   * `jennyClazz(clazz)`: the class info, the constant fields as constants,
   * and every field, constants included, as fields.
   */
  function JennyClazz(b: Builder, c: ClassElement): (r: Builder)
    ensures r.classInfo == Some(ExtractClassInfo(c.ref.simpleName, c.ref.fullName))
    ensures forall x :: x in r.constants <==> x in c.fields && IsConstant(x)
    ensures IsSubsequence(r.constants, c.fields)
    ensures r.fields == c.fields && r.constructors == c.constructors && r.methods == c.methods
  {
    Builder(Some(ExtractClassInfo(c.ref.simpleName, c.ref.fullName)), c.constructors, c.methods, Constants(c.fields), c.fields)
  }

  /** `build()`: an `IllegalStateException` without a class info, the accumulated values otherwise. */
  function Build(b: Builder): (r: Result<GlueHeaderData>)
    ensures r.Failure? <==> b.classInfo.None?
    ensures r.Failure? ==> r.error == IllegalState("ClassInfo must be provided")
    ensures r.Success? ==> (r.value.classInfo == b.classInfo.value && r.value.constructors == b.constructors
      && r.value.methods == b.methods && r.value.constants == b.constants && r.value.fields == b.fields)
  {
    if b.classInfo.None? then Failure(IllegalState("ClassInfo must be provided"))
    else Success(GlueHeaderData(b.classInfo.value, b.constructors, b.methods, b.constants, b.fields))
  }

  // ------------------------------------------------------------ call chains

  datatype Call =
    | ClassInfoCall(info: ClassInfo)
    | ConstructorsCall(constructors: seq<Element>)
    | MethodsCall(methods: seq<Element>)
    | ConstantsCall(constants: seq<Element>)
    | FieldsCall(fields: seq<Element>)
    | JennyClazzCall(clazz: ClassElement)

  function Apply(b: Builder, c: Call): Builder
  {
    match c
    case ClassInfoCall(ci) => WithClassInfo(b, ci)
    case ConstructorsCall(cs) => WithConstructors(b, cs)
    case MethodsCall(ms) => WithMethods(b, ms)
    case ConstantsCall(ks) => WithConstants(b, ks)
    case FieldsCall(fs) => WithFields(b, fs)
    case JennyClazzCall(clazz) => JennyClazz(b, clazz)
  }

  function Run(b: Builder, cs: seq<Call>): Builder
    decreases |cs|
  {
    if |cs| == 0 then b else Run(Apply(b, cs[0]), cs[1..])
  }

  predicate SetsClassInfo(c: Call)
  {
    c.ClassInfoCall? || c.JennyClazzCall?
  }

  /** After a chain of calls the builder holds a class info exactly when it did before or some call set one. */
  lemma {:induction false} RunHasClassInfo(b: Builder, cs: seq<Call>)
    ensures Run(b, cs).classInfo.Some? <==> b.classInfo.Some? || exists j | 0 <= j < |cs| :: SetsClassInfo(cs[j])
    decreases |cs|
  {
    if |cs| > 0 {
      RunHasClassInfo(Apply(b, cs[0]), cs[1..]);
      if exists j | 0 <= j < |cs| :: SetsClassInfo(cs[j]) {
        var j :| 0 <= j < |cs| && SetsClassInfo(cs[j]);
        if j > 0 {
          assert SetsClassInfo(cs[1..][j - 1]);
        }
      }
      if exists j | 0 <= j < |cs[1..]| :: SetsClassInfo(cs[1..][j]) {
        var j :| 0 <= j < |cs[1..]| && SetsClassInfo(cs[1..][j]);
        assert SetsClassInfo(cs[j + 1]);
      }
    }
  }

  /** A fresh builder builds exactly when one of its calls was `classInfo` or `jennyClazz`. */
  lemma BuildSucceedsIffClassInfoSet(cs: seq<Call>)
    ensures Build(Run(NewBuilder, cs)).Success? <==> exists j | 0 <= j < |cs| :: SetsClassInfo(cs[j])
  {
    RunHasClassInfo(NewBuilder, cs);
  }
}
