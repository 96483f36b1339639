/**
 * `ClassInfo` and the `extractClassInfo` derivation every generator and
 * builder repeats: the simple name, the qualified name, its slash form for
 * `FindClass`, and its JNI-mangled form for native symbols.
 */
module ClassInfos {
  import opened Wrappers
  import opened Text
  import opened Jni

  /** The names of the class a generator works on; unset names are empty. */
  datatype ClassInfo = ClassInfo(
    simpleClassName: string,
    cppClassName: string,
    className: string,
    slashClassName: string,
    jniClassName: string)

  const EmptyClassInfo: ClassInfo := ClassInfo("", "", "", "", "")

  /** `className.replace('.', '/')` */
  function SlashName(className: string): (r: string)
    ensures |r| == |className| && '.' !in r
    ensures forall i | 0 <= i < |className| :: className[i] != '.' ==> r[i] == className[i]
  {
    ReplaceChar(className, '.', '/')
  }

  /**
   * `extractClassInfo(input)` of `HeaderData`, `GlueData`, `NativeGlueGenerator`
   * and `NativeProxyGenerator`, which leave the C++ class name unset.
   */
  function ExtractClassInfo(simpleName: string, fullName: string): (r: ClassInfo)
    ensures r.simpleClassName == simpleName && r.className == fullName && r.cppClassName == ""
    ensures |r.slashClassName| == |fullName| && '.' !in r.slashClassName
    ensures forall i | 0 <= i < |r.jniClassName| :: IsWordChar(r.jniClassName[i])
  {
    ClassInfo(simpleName, "", fullName, SlashName(fullName), MangleClassAsWritten(fullName))
  }

  /** The `extractClassInfo(input, defaultCppName)` of `GenerationData`: the C++ name is the simple name plus the suffix. */
  function ExtractClassInfoCpp(simpleName: string, fullName: string, defaultCppName: string): (r: ClassInfo)
    ensures r.(cppClassName := "") == ExtractClassInfo(simpleName, fullName)
    ensures |r.cppClassName| == |simpleName| + |defaultCppName|
    ensures r.cppClassName[..|simpleName|] == simpleName && r.cppClassName[|simpleName|..] == defaultCppName
  {
    ExtractClassInfo(simpleName, fullName).(cppClassName := simpleName + defaultCppName)
  }

  /** A name without supplementary characters (every code point fits one UTF-16 unit). */
  predicate BmpOnly(s: string)
  {
    forall i | 0 <= i < |s| :: s[i] as int < 0x10000
  }

  /**
   * For a Java class name of the Basic Multilingual Plane, the JNI name of
   * `extractClassInfo` decodes back to its slash name, so the two derived
   * names agree and different classes never share a JNI name.
   */
  lemma JniNameDecodesToSlashName(simpleName: string, fullName: string)
    requires BmpOnly(fullName) && WellFormedClassName(fullName)
    ensures Decode(ExtractClassInfo(simpleName, fullName).jniClassName) == Some(ExtractClassInfo(simpleName, fullName).slashClassName)
  {
    MangleClassAgreesOnBmp(fullName);
    DecodeMangleClass(fullName, "");
    assert MangleClass(fullName) + "" == MangleClass(fullName);
    assert Decode("") == Some("");
    assert ReplaceChar(fullName, '.', '/') + "" == ReplaceChar(fullName, '.', '/');
  }

  /** `NativeGenerator.extractClassInfo`: a class without a qualified or a simple name is rejected. */
  function NativeClassInfo(qualifiedName: Option<string>, simpleName: Option<string>): (r: Result<ClassInfo>)
    ensures r.Success? <==> qualifiedName.Some? && simpleName.Some?
    ensures qualifiedName.None? ==> r == Failure(IllegalArgument("Class must have a qualified name"))
    ensures qualifiedName.Some? && simpleName.None? ==> r == Failure(IllegalArgument("Class must have a simple name"))
    ensures r.Success? ==> r.value == ExtractClassInfo(simpleName.value, qualifiedName.value)
  {
    if qualifiedName.None? then Failure(IllegalArgument("Class must have a qualified name"))
    else if simpleName.None? then Failure(IllegalArgument("Class must have a simple name"))
    else Success(ExtractClassInfo(simpleName.value, qualifiedName.value))
  }
}
