/**
 * The copy-based `HeaderData.Builder` of `generator/HeaderData.kt`: every
 * setter replaces the accumulated `HeaderData` by a copy with one slot
 * changed.
 */
module HeaderDataCopy {
  import opened Elements
  import opened ClassInfos
  import opened Namespaces
  import opened Records

  datatype Builder = Builder(data: HeaderData)

  const NewBuilder: Builder := Builder(EmptyHeaderData)

  function WithClassInfo(b: Builder, ci: ClassInfo): (r: Builder)
    ensures Get(r.data, ClassInfoSlot) == InfoValue(ci) && ChangesOnly(b.data, r.data, ClassInfoSlot)
  {
    Builder(b.data.(classInfo := ci))
  }

  function WithConstructors(b: Builder, cs: seq<Element>): (r: Builder)
    ensures Get(r.data, ConstructorsSlot) == ElementsValue(cs) && ChangesOnly(b.data, r.data, ConstructorsSlot)
  {
    Builder(b.data.(constructors := cs))
  }

  function WithMethods(b: Builder, ms: seq<Element>): (r: Builder)
    ensures Get(r.data, MethodsSlot) == ElementsValue(ms) && ChangesOnly(b.data, r.data, MethodsSlot)
  {
    Builder(b.data.(methods := ms))
  }

  function WithConstants(b: Builder, ks: seq<Element>): (r: Builder)
    ensures Get(r.data, ConstantsSlot) == ElementsValue(ks) && ChangesOnly(b.data, r.data, ConstantsSlot)
  {
    Builder(b.data.(constants := ks))
  }

  /** `fields(fields)` as written: the copy writes the constants slot, and the fields slot keeps its value. */
  function WithFieldsAsWritten(b: Builder, fs: seq<Element>): (r: Builder)
    ensures Get(r.data, ConstantsSlot) == ElementsValue(fs) && ChangesOnly(b.data, r.data, ConstantsSlot)
  {
    Builder(b.data.(constants := fs))
  }

  /** `fields(fields)` writing the slot it is named after. */
  function WithFields(b: Builder, fs: seq<Element>): (r: Builder)
    ensures Get(r.data, FieldsSlot) == ElementsValue(fs) && ChangesOnly(b.data, r.data, FieldsSlot)
  {
    Builder(b.data.(fields := fs))
  }

  function WithNamespace(b: Builder, ns: Namespace): (r: Builder)
    ensures Get(r.data, NamespaceSlot) == NamespaceValue(ns) && ChangesOnly(b.data, r.data, NamespaceSlot)
  {
    Builder(b.data.(namespace := ns))
  }

  /**
   * `jennyClazz(clazz)` as written: class info, the constant fields,
   * constructors, methods, then `fields(clazz.fields)`, which overwrites the
   * constants with every field and leaves the fields slot as it was.
   */
  function JennyClazzAsWritten(b: Builder, c: ClassElement): (r: Builder)
    ensures r.data.classInfo == ExtractClassInfo(c.ref.simpleName, c.ref.fullName)
    ensures r.data.constructors == c.constructors && r.data.methods == c.methods
    ensures r.data.constants == c.fields && r.data.fields == b.data.fields
    ensures r.data.namespace == b.data.namespace
  {
    var b1 := WithClassInfo(b, ExtractClassInfo(c.ref.simpleName, c.ref.fullName));
    var b2 := WithConstants(b1, Constants(c.fields));
    var b3 := WithConstructors(b2, c.constructors);
    var b4 := WithMethods(b3, c.methods);
    WithFieldsAsWritten(b4, c.fields)
  }

  /** `jennyClazz(clazz)` with `fields` writing the fields: the constants are the constant fields and the fields all of them. */
  function JennyClazz(b: Builder, c: ClassElement): (r: Builder)
    ensures r.data.classInfo == ExtractClassInfo(c.ref.simpleName, c.ref.fullName)
    ensures r.data.constructors == c.constructors && r.data.methods == c.methods
    ensures forall x :: x in r.data.constants <==> x in c.fields && IsConstant(x)
    ensures IsSubsequence(r.data.constants, c.fields)
    ensures r.data.fields == c.fields
    ensures r.data.namespace == b.data.namespace
  {
    var b1 := WithClassInfo(b, ExtractClassInfo(c.ref.simpleName, c.ref.fullName));
    var b2 := WithConstants(b1, Constants(c.fields));
    var b3 := WithConstructors(b2, c.constructors);
    var b4 := WithMethods(b3, c.methods);
    WithFields(b4, c.fields)
  }

  /** `build()` returns the accumulated value. */
  function Build(b: Builder): (r: HeaderData)
    ensures forall s: Slot :: Get(r, s) == Get(b.data, s)
  {
    b.data
  }

  /** A fresh builder builds the defaults: no class names, no namespace text, no members. */
  lemma NewBuilderBuildsDefaults()
    ensures var h := Build(NewBuilder);
      h.classInfo == EmptyClassInfo && h.namespace == Namespace("", "")
      && h.constructors == [] && h.methods == [] && h.constants == [] && h.fields == []
  {
  }

  /**
   * As written, a fresh builder given a class with a field that is not a
   * constant builds data whose constants hold that field and whose fields
   * are empty; with the corrected setter the field is among the fields and
   * the constants are constants.
   */
  lemma FieldsLandInConstants(c: ClassElement, i: nat)
    requires i < |c.fields| && !IsConstant(c.fields[i])
    ensures var h := Build(JennyClazzAsWritten(NewBuilder, c));
      h.fields == [] && c.fields[i] in h.constants && !IsConstant(c.fields[i])
    ensures var h := Build(JennyClazz(NewBuilder, c));
      c.fields[i] in h.fields && c.fields[i] !in h.constants
  {
  }
}
