/**
 * `generator/proxy/NativeProxyGenerator.kt`: the `HeaderData` the proxy
 * generator hands to its header emitter. Printing the header is not part
 * of this model.
 */
module NativeProxyGenerator {
  import opened Elements
  import opened ClassInfos
  import opened Namespaces
  import opened Records
  import NativeGlueGenerator

  /**
   * The data of a proxied class: its class info, all constructors, methods
   * and fields, and the constant fields once more, in order, as constants.
   */
  function ProxyHeaderData(c: ClassElement): (r: HeaderData)
    ensures r.classInfo == ExtractClassInfo(c.ref.simpleName, c.ref.fullName)
    ensures r.constructors == c.constructors && r.methods == c.methods && r.fields == c.fields
    ensures forall x :: x in r.constants <==> x in c.fields && IsConstant(x)
    ensures IsSubsequence(r.constants, c.fields)
    ensures r.namespace == Namespace("", "")
  {
    HeaderData(ExtractClassInfo(c.ref.simpleName, c.ref.fullName), Namespace("", ""), c.constructors, c.methods, Constants(c.fields), c.fields)
  }

  /**
   * The two generators describe a class alike: the same class info and
   * constants. The glue data keeps a part of the proxy data's methods, and
   * every constant is among the proxy data's fields.
   */
  lemma GlueDataWithinProxyData(c: ClassElement)
    ensures var g := NativeGlueGenerator.GlueHeaderData(c);
      var p := ProxyHeaderData(c);
      g.classInfo == p.classInfo && g.constants == p.constants
      && IsSubsequence(g.methods, p.methods)
      && forall x :: x in p.constants ==> x in p.fields
  {
  }
}
