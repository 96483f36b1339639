/**
 * `generator/glue/NativeGlueGenerator.kt`: the `HeaderData` the glue
 * generator hands to its header and source emitters. File output is not
 * part of this model.
 */
module NativeGlueGenerator {
  import opened Modifiers
  import opened Elements
  import opened ClassInfos
  import opened Namespaces
  import opened Records

  /**
   * The data of a glue class: its class info, no constructors, the native
   * methods and the `static final` fields in the class's order, no other
   * fields, and the default (empty) namespace text.
   */
  function GlueHeaderData(c: ClassElement): (r: HeaderData)
    ensures r.classInfo == ExtractClassInfo(c.ref.simpleName, c.ref.fullName)
    ensures r.constructors == [] && r.fields == [] && r.namespace == Namespace("", "")
    ensures forall x :: x in r.methods <==> x in c.methods && NATIVE in x.modifiers
    ensures IsSubsequence(r.methods, c.methods)
    ensures forall x :: x in r.constants <==> x in c.fields && STATIC in x.modifiers && FINAL in x.modifiers
    ensures IsSubsequence(r.constants, c.fields)
  {
    HeaderData(ExtractClassInfo(c.ref.simpleName, c.ref.fullName), Namespace("", ""), [], NativeOnly(c.methods), Constants(c.fields), [])
  }
}
