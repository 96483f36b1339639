# Jenny compiler core in Dafny

Jenny is an annotation processor. It reads a Java class and writes C++ for
its JNI side in one of two forms. The *glue* form is a header and source
declaring the class's `native` methods, and optionally registering them.
The *proxy* form is a C++ class that calls back into the Java class through
cached method and field IDs. This project models the pure part of the
`compiler` module, which turns an abstract description of a class (its
elements, types and modifiers) into names, descriptors and C++ text.

It covers:

- the JVM type and method descriptors of `utils/Signature.kt` and the
  private copies in the two definitions providers (`Descriptors`, `Jni`);
- JNI name mangling (`Jni`, `HeaderDefs`);
- the Java-to-JNI type mapping of `utils/ext.kt` (`Ext`);
- the decision rules: overload postfixes (`Resolver`), getter and setter
  selection (`HeaderDefs`), modifier decoding (`Modifiers`), type kinds
  (`Kinds`), provider type (`ProviderTypes`) and public-only filtering
  (`Elements`);
- namespaces and file names (`Namespaces`, `Names`);
- the three kinds of `HeaderData` builder (`GenerationData`,
  `HeaderDataCopy`, `GlueData`);
- the text emitters of glue and proxy headers and sources (`NativeDefs`,
  `GlueDefs`, `ProxyHeader`, `ProxySource`) and the generators that put
  them together (`NativeGlueHeaderGenerator`, `NativeGlueGenerator`,
  `NativeProxyGenerator`, `NativeProxyHeaderGenerator`,
  `NativeProxySourceGenerator`);
- the two fusion headers that initialise all proxies (`Fusion`,
  `ProxyFusion`).

Kotlin exceptions become the `Error` cases of `Wrappers.Result`.
Reflection and `javax.lang.model` elements become the `Elements.Element`
and `Kinds.JType` datatypes. An emitter's text is a list of
`Lines.Piece`: each line records whether it closes a block first and
whether it opens one last, so brace balance is the depth walk
`Lines.Walk`. Where the code does something its authors evidently did not
intend, both the behaviour as written and the corrected behaviour are
modelled, usually behind an `asWritten` flag. The `## Findings` table names
both halves.

## Model

| member | source | states |
|---|---|---|
| ClassInfos.SlashName | compiler/src/main/java/io/github/landerlyoung/jenny/generator/HeaderData.kt:81 | the slash name keeps the length and every character but '.', and holds no '.' |
| ClassInfos.ExtractClassInfo | compiler/src/main/java/io/github/landerlyoung/jenny/generator/HeaderData.kt:78-91 | the builders' class info keeps the simple and full names, leaves the C++ name unset, and its JNI name holds only word characters |
| ClassInfos.ExtractClassInfoCpp | compiler/src/main/java/io/github/landerlyoung/jenny/generator/model/GenerationData.kt:93-109 | the same class info, except that the C++ name is the simple name followed by the suffix |
| ClassInfos.JniNameDecodesToSlashName | compiler/src/main/java/io/github/landerlyoung/jenny/generator/HeaderData.kt:81-84 | for a well-formed class name of the Basic Multilingual Plane, the JNI name decodes back to the slash name |
| ClassInfos.NativeClassInfo | compiler/src/main/java/io/github/landerlyoung/jenny/generator/NativeGenerator.kt:43-56 | fails with the "qualified name" error first and the "simple name" error second; succeeds exactly when both names exist |
| CppClasses.Utf16 | compiler/src/main/java/io/github/landerlyoung/jenny/utils/CppClass.kt:18-21 | a character is one non-surrogate code unit below U+10000, otherwise a high then a low surrogate |
| CppClasses.UnitsInjective | compiler/src/main/java/io/github/landerlyoung/jenny/utils/CppClass.kt:18-21 | different strings have different UTF-16 forms |
| CppClasses.StrCompare | compiler/src/main/java/io/github/landerlyoung/jenny/utils/CppClass.kt:18-21 | against an empty string, the result is the difference of the UTF-16 lengths |
| CppClasses.SurrogatesSortLow | compiler/src/main/java/io/github/landerlyoung/jenny/utils/CppClass.kt:18-21 | U+FFFF sorts after U+10000, as UTF-16 comparison orders them |
| CppClasses.StrCompareAntisymmetric | compiler/src/main/java/io/github/landerlyoung/jenny/utils/CppClass.kt:18-21 | swapping the strings negates the comparison |
| CppClasses.StrCompareZero | compiler/src/main/java/io/github/landerlyoung/jenny/utils/CppClass.kt:18-21 | two strings compare as 0 exactly when they are equal |
| CppClasses.StrCompareTransitive | compiler/src/main/java/io/github/landerlyoung/jenny/utils/CppClass.kt:18-21 | string order is transitive |
| CppClasses.CompareAntisymmetric | compiler/src/main/java/io/github/landerlyoung/jenny/utils/CppClass.kt:18-21 | swapping the classes negates the comparison |
| CppClasses.CompareZero | compiler/src/main/java/io/github/landerlyoung/jenny/utils/CppClass.kt:18-21 | two classes compare equal exactly when namespace and name agree |
| CppClasses.CompareTransitive | compiler/src/main/java/io/github/landerlyoung/jenny/utils/CppClass.kt:18-21 | the order on classes is transitive |
| CppClasses.NamespaceDominates | compiler/src/main/java/io/github/landerlyoung/jenny/utils/CppClass.kt:18-21 | a differing namespace decides the comparison, whatever the names |
| CppClasses.HeaderFileNameIgnored | compiler/src/main/java/io/github/landerlyoung/jenny/utils/CppClass.kt:12-21 | two different classes that differ only in the header file name compare as equal |
| Elements.PublicOnly | compiler/src/main/java/io/github/landerlyoung/jenny/utils/ext.kt:113-121 | keeps exactly the public elements, each as many times as in the input, in their order |
| Elements.Visibility | compiler/src/main/java/io/github/landerlyoung/jenny/utils/ext.kt:115-121 | without `onlyPublic` the collection itself; with it exactly the public elements, each as many times as in the input, in order |
| Elements.Constants | compiler/src/main/java/io/github/landerlyoung/jenny/utils/ext.kt:110-111 | keeps exactly the static final elements, each as many times as in the input, in order |
| Elements.NonConstants | compiler/src/main/java/io/github/landerlyoung/jenny/utils/ext.kt:110-111 | keeps exactly the elements that are not static final, each as many times as in the input, in order |
| Elements.ConstantsPartition | compiler/src/main/java/io/github/landerlyoung/jenny/utils/ext.kt:111 | constants and non-constants together are as many as the fields |
| Elements.NativeOnly | compiler/src/main/java/io/github/landerlyoung/jenny/utils/ext.kt:112 | keeps exactly the native elements, each as many times as in the input, in order |
| Ext.JniReturnType | compiler/src/main/java/io/github/landerlyoung/jenny/utils/ext.kt:29-53 | every JNI return type starts with 'j', except "void" |
| Ext.JniReturnTypeTable | compiler/src/main/java/io/github/landerlyoung/jenny/utils/ext.kt:29-53 | on the primitive, primitive-array, object-array and void classes (with array classes classified as arrays) the name is the JNI type table's |
| Ext.JniReturnTypeAsWrittenArray | compiler/src/main/java/io/github/landerlyoung/jenny/element/model/type/JennyKind.kt:40-62 | with the kind function as written an `int[]` class comes out as "jobject", where the corrected classification gives its array type |
| Ext.DeclaredArrayName | compiler/src/main/java/io/github/landerlyoung/jenny/utils/ext.kt:42-48 | a declared type whose name ends in "]" is a plain `jobject` |
| Ext.JniTypeString | compiler/src/main/java/io/github/landerlyoung/jenny/utils/ext.kt:55-62 | differs from the return type exactly when the helper is on, the type needs a local reference and it is not bypassed, and is then the `LocalRef` reference of it |
| Ext.JniCallTable | compiler/src/main/java/io/github/landerlyoung/jenny/utils/ext.kt:64-71 | the call name is the capitalised primitive name, "Void" for void, and "Object" for class and array types |
| Ext.ToCamelCase | compiler/src/main/java/io/github/landerlyoung/jenny/utils/ext.kt:86-87 | keeps the length and all but the first character; a leading lower-case letter becomes upper case, any other is kept |
| Ext.ToCamelCaseCharwise | compiler/src/main/java/io/github/landerlyoung/jenny/utils/ext.kt:86-87 | character by character: only a leading 'a'..'z' changes, to the same letter in upper case |
| Ext.ToCamelCaseInverse | compiler/src/main/java/io/github/landerlyoung/jenny/utils/ext.kt:86-87 | lower-casing the first letter undoes it on names starting with a lower-case letter; applying it twice is applying it once |
| Ext.ToJniClassName | compiler/src/main/java/io/github/landerlyoung/jenny/utils/ext.kt:89-108 | keeps the length and every non-dot character; each '.' becomes '/', except the last one, which becomes '$' for a nested class unless the name's first '$' comes after that '.' |
| Ext.ToJniClassNameIdempotent | compiler/src/main/java/io/github/landerlyoung/jenny/utils/ext.kt:89-108 | converting a converted name changes nothing |
| Ext.NestedGetsOneDollar | compiler/src/main/java/io/github/landerlyoung/jenny/utils/ext.kt:94-106 | a dotted nested class name without '$' gets exactly one '$'; a non-nested one gets none |
| Kinds.PrimitiveKind | compiler/src/main/java/io/github/landerlyoung/jenny/element/model/type/JennyKind.kt:42-49 | every primitive's kind is one of the eight primitive kinds |
| Kinds.PrimitiveKindInjective | compiler/src/main/java/io/github/landerlyoung/jenny/element/model/type/JennyKind.kt:42-49 | distinct primitives get distinct kinds |
| Kinds.BoxedSameKind | compiler/src/main/java/io/github/landerlyoung/jenny/element/model/type/JennyKind.kt:42-49 | a primitive class and its wrapper class get the same primitive kind |
| Kinds.ReflectionArrayMisclassified | compiler/src/main/java/io/github/landerlyoung/jenny/element/model/type/JennyKind.kt:50-52 | as written `int[].class` is DECLARED while the utility class `java.lang.reflect.Array` is ARRAY |
| Kinds.FromReflectionTypeFixed | compiler/src/main/java/io/github/landerlyoung/jenny/element/model/type/JennyKind.kt:40-62 | ARRAY exactly for array types; elsewhere (bar the utility class) the kind as written |
| Kinds.MirrorOfPrimitive | compiler/src/main/java/io/github/landerlyoung/jenny/element/model/type/JennyKind.kt:64-79 | a primitive's type mirror has a primitive type kind |
| Kinds.MirrorFloatUnknown | compiler/src/main/java/io/github/landerlyoung/jenny/element/model/type/JennyKind.kt:64-79 | a `float` mirror is primitive yet gets UNKNOWN, unlike the reflection route |
| Kinds.FromMirrorTypeFixed | compiler/src/main/java/io/github/landerlyoung/jenny/element/model/type/JennyKind.kt:64-79 | agrees with the source except on FLOAT, and is primitive exactly for primitive type kinds |
| Kinds.MirrorAgreesWithReflection | compiler/src/main/java/io/github/landerlyoung/jenny/element/model/type/JennyKind.kt:40-79 | with FLOAT and arrays fixed, the mirror and reflection routes give every primitive its own kind |
| Kinds.OfClassAsWritten | compiler/src/main/java/io/github/landerlyoung/jenny/element/model/type/JennyReflectType.kt:30-41 | with the kind function as written, an array class is a DECLARED type that is neither array nor primitive |
| Kinds.OfClass | compiler/src/main/java/io/github/landerlyoung/jenny/element/model/type/JennyReflectType.kt:25-48 | with the corrected kind function: array exactly for array classes, with the class's component; primitive exactly for primitive and wrapper classes |
| Modifiers.AllModifiersOrdered | compiler/src/main/java/io/github/landerlyoung/jenny/model/JennyModifier.kt:19-31 | the twelve modifiers, each at its declaration position |
| Modifiers.FromReflectionModifiers | compiler/src/main/java/io/github/landerlyoung/jenny/model/JennyModifier.kt:34-48 | a modifier is decoded exactly when its reflection bit is set; DEFAULT never is |
| Modifiers.FromReflectionMonotone | compiler/src/main/java/io/github/landerlyoung/jenny/model/JennyModifier.kt:34-48 | a mask with more bits set never decodes to fewer modifiers |
| Modifiers.FromElementModifiers | compiler/src/main/java/io/github/landerlyoung/jenny/model/JennyModifier.kt:50-68 | a Jenny modifier is present exactly when some element modifier maps to it; without the sealed modifiers the count is kept |
| Modifiers.InjectiveImage | compiler/src/main/java/io/github/landerlyoung/jenny/model/JennyModifier.kt:50-68 | the mapped element modifiers are mapped one to one |
| Modifiers.JennyToElement | compiler/src/main/java/io/github/landerlyoung/jenny/model/JennyModifier.kt:50-68 | every Jenny modifier is the image of some element modifier |
| Modifiers.DecodersAgree | compiler/src/main/java/io/github/landerlyoung/jenny/model/JennyModifier.kt:34-68 | decoding a reflection mask, or the element modifiers that stand for the same modifiers, gives the same set |
| Modifiers.SortedModifiers | compiler/src/main/java/io/github/landerlyoung/jenny/utils/ext.kt:73-76 | the set's modifiers, each once, in strictly increasing declaration order |
| Names.TypeTag | compiler/src/main/java/io/github/landerlyoung/jenny/utils/JennyNameProvider.kt:30-32 | "Method" for executables and "Field" otherwise, told apart by the first letter |
| Names.ClassState | compiler/src/main/java/io/github/landerlyoung/jenny/utils/JennyNameProvider.kt:34 | the class-state accessor prefix followed by the member asked for |
| Names.DefaultClassState | compiler/src/main/java/io/github/landerlyoung/jenny/utils/JennyNameProvider.kt:34-35 | the default member asked for is `sClazz` |
| Names.ElementNameShape | compiler/src/main/java/io/github/landerlyoung/jenny/utils/JennyNameProvider.kt:25-28 | the ID name is "s" + type + "_" + name + "_" + index, with the type's first letter second |
| Names.ElementNameInjective | compiler/src/main/java/io/github/landerlyoung/jenny/utils/JennyNameProvider.kt:25-32 | an ID name determines whether the element is executable, its name and its index |
| Names.ElementNamesDistinct | compiler/src/main/java/io/github/landerlyoung/jenny/utils/JennyNameProvider.kt:25-28 | one element at two positions gets two different ID names |
| Names.ConstructorIdNames | compiler/src/main/java/io/github/landerlyoung/jenny/utils/JennyNameProvider.kt:25-36 | constructor ID names are injective in the index and never an element's ID name |
| Namespaces.Components | compiler/src/main/java/io/github/landerlyoung/jenny/utils/NamespaceHelper.kt:29-31 | every component is non-empty and trimmed |
| Namespaces.FileNamePrefix | compiler/src/main/java/io/github/landerlyoung/jenny/utils/NamespaceHelper.kt:33-40 | empty exactly when there are no components, and otherwise ends in '_' |
| Namespaces.NotationRoundTrip | compiler/src/main/java/io/github/landerlyoung/jenny/utils/NamespaceHelper.kt:29-44 | read back as a namespace, the "a::b" notation has the same components, when no component holds a ':' |
| Namespaces.NotationIdempotent | compiler/src/main/java/io/github/landerlyoung/jenny/utils/NamespaceHelper.kt:42-44 | normalising the notation a second time changes nothing |
| Namespaces.BeginEndTogether | compiler/src/main/java/io/github/landerlyoung/jenny/utils/NamespaceHelper.kt:46-50 | the opening and closing texts are empty together, exactly when there are no components |
| Namespaces.NamespaceBracesBalance | compiler/src/main/java/io/github/landerlyoung/jenny/utils/NamespaceHelper.kt:46-50 | the opening text has one '{' and the closing text one '}' per component, when names hold no braces |
| Namespaces.AssignNamespace | compiler/src/main/java/io/github/landerlyoung/jenny/utils/NamespaceHelper.kt:52-56 | `getNamespace` returns the string last assigned |
| Namespaces.HeaderSourceStem | compiler/src/main/java/io/github/landerlyoung/jenny/utils/CppFileHelper.kt:29-30 | header and source names share one stem and differ only in ".h" against ".cpp" |
| Namespaces.NoNamespaceFileNames | compiler/src/main/java/io/github/landerlyoung/jenny/utils/CppFileHelper.kt:21-30 | a fresh helper names the files after the class alone |
| Namespaces.ProvideNamespace | compiler/src/main/java/io/github/landerlyoung/jenny/utils/CppFileHelper.kt:31-36 | the start and the end of the namespace are empty together |
| Namespaces.SetNamespace | compiler/src/main/java/io/github/landerlyoung/jenny/utils/CppFileHelper.kt:38-40 | after setting, file prefix, notation and namespace blocks are the new namespace's |
| Text.SplitJoinColons | compiler/src/main/java/io/github/landerlyoung/jenny/utils/NamespaceHelper.kt:30 | `split("::")` of colon-free parts joined by "::" gives the parts back |
| Text.Hex5Value | compiler/src/main/java/io/github/landerlyoung/jenny/utils/ext.kt:78-80 | the `%05x` digits read back as the number printed |
| Text.NatToStringInjective | compiler/src/main/java/io/github/landerlyoung/jenny/utils/JennyNameProvider.kt:25-28 | distinct indices print differently |
| Text.ReplaceOnlyAtEnd | compiler/src/main/java/io/github/landerlyoung/jenny/generator/proxy/FusionProxyGenerator.kt:54 | replacing a tail that occurs nowhere earlier replaces only the final copy |
| Jni.StripNonAscii | compiler/src/main/java/io/github/landerlyoung/jenny/utils/ext.kt:78-80 | the result holds only word characters; word characters of the input survive, and an all-word input is returned unchanged |
| Jni.StripNonAsciiIdempotent | compiler/src/main/java/io/github/landerlyoung/jenny/utils/ext.kt:78-80 | stripping twice is stripping once |
| Jni.StripAppend | compiler/src/main/java/io/github/landerlyoung/jenny/utils/ext.kt:78-80 | stripping works piece by piece over a concatenation |
| Jni.MangleMethodAsWrittenChars | compiler/src/main/java/io/github/landerlyoung/jenny/utils/JennyHeaderDefinitionsProvider.kt:238-240 | the as-written mangling of a method name escapes it one character at a time |
| Jni.MangleAsWrittenPlain | compiler/src/main/java/io/github/landerlyoung/jenny/utils/JennyHeaderDefinitionsProvider.kt:238-240 | letters and digits come through the as-written mangling unchanged |
| Jni.MangleAsWrittenCollision | compiler/src/main/java/io/github/landerlyoung/jenny/utils/ext.kt:78-80 | a supplementary character whose `%05x` starts with '1' is mangled like '_' followed by the other four digits |
| Jni.MangleAsWrittenCollides | compiler/src/main/java/io/github/landerlyoung/jenny/utils/JennyHeaderDefinitionsProvider.kt:238-240 | as written, the method names "\U{1F600}" and "_f600" get the same JNI name |
| Jni.Hex5Bmp | compiler/src/main/java/io/github/landerlyoung/jenny/utils/ext.kt:79 | below U+10000 the `%05x` escape is "0" and the four hex digits of the UTF-16 code unit |
| Jni.EncodeChar | compiler/src/main/java/io/github/landerlyoung/jenny/utils/JennyHeaderDefinitionsProvider.kt:238-240 | a letter or digit stands for itself; '_' and every other character start with an '_' escape |
| Jni.EncodeAgreesOnBmp | compiler/src/main/java/io/github/landerlyoung/jenny/utils/ext.kt:78-80 | below U+10000 the as-written escape is the JNI one |
| Jni.NativeSymbolAgreesOnBmp | compiler/src/main/java/io/github/landerlyoung/jenny/utils/JennyHeaderDefinitionsProvider.kt:238-240 | names without supplementary characters get the same symbol as written and corrected |
| Jni.DecodeChar | compiler/src/main/java/io/github/landerlyoung/jenny/utils/JennyHeaderDefinitionsProvider.kt:239 | decoding undoes one character's escape, whatever follows it |
| Jni.MangleMethodRoundTrip | compiler/src/main/java/io/github/landerlyoung/jenny/utils/JennyHeaderDefinitionsProvider.kt:239 | every method name decodes back from its corrected mangling |
| Jni.MangleMethodInjective | compiler/src/main/java/io/github/landerlyoung/jenny/utils/JennyHeaderDefinitionsProvider.kt:239 | two method names with the same mangling are the same name |
| Jni.DecodeMangleClass | compiler/src/main/java/io/github/landerlyoung/jenny/generator/HeaderData.kt:82-84 | a mangled class name decodes back to the name with '/' for '.' |
| Jni.NativeSymbolDecodes | compiler/src/main/java/io/github/landerlyoung/jenny/utils/JennyHeaderDefinitionsProvider.kt:238-240 | after "Java_" the symbol decodes to the slash class name, '/', and the method name |
| Jni.NativeSymbolInjective | compiler/src/main/java/io/github/landerlyoung/jenny/utils/JennyHeaderDefinitionsProvider.kt:238-240 | two well-formed native methods with one symbol share the method name and the class's slash name |
| Descriptors.LetterPrimitiveInverse | compiler/src/main/java/io/github/landerlyoung/jenny/utils/Signature.kt:36-44 | reading a primitive's descriptor letter gives the primitive back |
| Descriptors.ParseEncode | compiler/src/main/java/io/github/landerlyoung/jenny/utils/Signature.kt:27-53 | the descriptor parser reads back exactly the encoded field type and leaves what followed it |
| Descriptors.EncodeInjective | compiler/src/main/java/io/github/landerlyoung/jenny/utils/Signature.kt:27-53 | different well-formed field types have different descriptors |
| Descriptors.ParseEncodeAll | compiler/src/main/java/io/github/landerlyoung/jenny/utils/Signature.kt:66-69 | a run of parameter descriptors up to ')' reads back as the parameter types |
| Descriptors.ParseMethodDescriptor | compiler/src/main/java/io/github/landerlyoung/jenny/utils/Signature.kt:55-72 | a method descriptor reads back as its parameter and return types |
| Descriptors.KindLetterTable | compiler/src/main/java/io/github/landerlyoung/jenny/utils/Signature.kt:36-51 | the eight primitives get the JVM's base-type letters, void 'V', and ARRAY, NULL, DECLARED and UNKNOWN no letter |
| Descriptors.Unwrap | compiler/src/main/java/io/github/landerlyoung/jenny/utils/Signature.kt:31-34 | the loop ends on a non-array type and counts array levels; a non-array type is left as it is; a missing component fails |
| Descriptors.TypeDescriptor | compiler/src/main/java/io/github/landerlyoung/jenny/utils/Signature.kt:27-53 | a descriptor exists exactly when no array level lacks its component |
| Descriptors.FieldTypeOf | compiler/src/main/java/io/github/landerlyoung/jenny/utils/Signature.kt:27-53 | a Jenny type stands for a JVM field type exactly when no array level lacks its component |
| Descriptors.DescriptorFixedEncodes | compiler/src/main/java/io/github/landerlyoung/jenny/utils/Signature.kt:27-53 | the corrected descriptor is the JVM encoding of the type's field type |
| Descriptors.DescriptorAgreesOffObjectArrays | compiler/src/main/java/io/github/landerlyoung/jenny/utils/Signature.kt:46-50 | as written and corrected agree on every type but arrays of object types |
| Descriptors.TypeDescriptorReadsBack | compiler/src/main/java/io/github/landerlyoung/jenny/utils/Signature.kt:27-53 | off arrays of objects the as-written descriptor reads back as the type's field type |
| Descriptors.ObjectArrayDescriptorAsWritten | compiler/src/main/java/io/github/landerlyoung/jenny/utils/Signature.kt:46-50 | as written `S[]` gets "[LS[];", the JVM's descriptor is "[LS;" |
| Descriptors.ParamDescriptors | compiler/src/main/java/io/github/landerlyoung/jenny/utils/Signature.kt:66-68 | the parameter descriptors exist exactly when every parameter type has one |
| Descriptors.ElementSignature | compiler/src/main/java/io/github/landerlyoung/jenny/utils/Signature.kt:55-77 | an executable gets "(" ... of at least three characters; a non-executable gets "" and still fails where its type's descriptor does |
| Descriptors.FieldSignatureEmpty | compiler/src/main/java/io/github/landerlyoung/jenny/utils/Signature.kt:73-74 | a field's signature is "" although its corrected descriptor is not |
| Descriptors.SignatureAgreesOffObjectArrays | compiler/src/main/java/io/github/landerlyoung/jenny/utils/Signature.kt:55-77 | an executable without arrays of objects in its types gets the same signature as written and corrected |
| Descriptors.ObjectArrayParamSignature | compiler/src/main/java/io/github/landerlyoung/jenny/utils/Signature.kt:66-68 | a one-parameter method whose parameter's two descriptors differ gets two different signatures |
| Descriptors.ParamDescriptorsEncode | compiler/src/main/java/io/github/landerlyoung/jenny/utils/Signature.kt:66-68 | the corrected parameter descriptors are the JVM encoding of the parameter types |
| Descriptors.ElementSignatureFixedMeaning | compiler/src/main/java/io/github/landerlyoung/jenny/utils/Signature.kt:55-72 | the corrected signature of an executable reads back as its parameter and return types |
| Descriptors.InitTypes | compiler/src/main/java/io/github/landerlyoung/jenny/utils/Signature.kt:59-65 | the declaring class's field type comes first exactly for a constructor of a class nested in a nested class |
| Descriptors.FieldSignatureFixedMeaning | compiler/src/main/java/io/github/landerlyoung/jenny/utils/Signature.kt:73-74 | the corrected signature of a field reads back as its field type |
| Descriptors.PrivateSignature | compiler/src/main/java/io/github/landerlyoung/jenny/utils/JennyHeaderDefinitionsProvider.kt:246-288 | "<init>" without an outer declaring class fails with a null cast; any other method gets its parameter and return descriptors |
| Descriptors.PrivateAgreesOnMethods | compiler/src/main/java/io/github/landerlyoung/jenny/utils/JennyHeaderDefinitionsProvider.kt:274-288 | the private copy and the public `Signature` agree on every method that is not a constructor |
| Params.BaseDecls | compiler/src/main/java/io/github/landerlyoung/jenny/utils/ParametersProvider.kt:28-43 | no leading parameter with the helper; otherwise the environment, plus the class or receiver except for constructors |
| Params.MakeParameter | compiler/src/main/java/io/github/landerlyoung/jenny/utils/ParametersProvider.kt:28-43 | the leading declarations joined by ", ", empty exactly with the helper |
| Params.EnclosingParams | compiler/src/main/java/io/github/landerlyoung/jenny/utils/ParametersProvider.kt:56-61 | one outer-instance parameter exactly for a member of a nested class |
| Params.JniParametersJoin | compiler/src/main/java/io/github/landerlyoung/jenny/utils/ParametersProvider.kt:73-81 | the loop that writes ", " before every parameter but the first gives the plain join |
| Params.JennyElementJniParamsDeclares | compiler/src/main/java/io/github/landerlyoung/jenny/utils/ParametersProvider.kt:45-71 | the parameter list is the declared parameters, each once, in order, joined by ", " |
| Params.JniParamsArity | compiler/src/main/java/io/github/landerlyoung/jenny/utils/ParametersProvider.kt:45-71 | with comma-free declarations the list holds one comma fewer than it declares parameters |
| Params.MethodParamValArgs | compiler/src/main/java/io/github/landerlyoung/jenny/utils/ParametersProvider.kt:91-111 | every passed value is introduced by ", " |
| Params.CallArgsMatchDeclarations | compiler/src/main/java/io/github/landerlyoung/jenny/utils/ParametersProvider.kt:91-111 | one argument per declared parameter after the leading ones, in order, each starting with the declared name |
| Params.ParamArgsUnwrapLocalRefs | compiler/src/main/java/io/github/landerlyoung/jenny/utils/ParametersProvider.kt:104-110 | a parameter is passed with ".get()" exactly when it was declared as a `LocalRef` |
| Params.JniTypeStringLocalRef | compiler/src/main/java/io/github/landerlyoung/jenny/utils/ext.kt:55-62 | a parameter type is a `LocalRef` exactly when the helper is on and the type needs wrapping |
| Params.JavaParams | compiler/src/main/java/io/github/landerlyoung/jenny/utils/ParametersProvider.kt:84-89 | one "type name" text per Java parameter, in order |
| Params.BaseDeclsLegacy | compiler/src/main/java/io/github/landerlyoung/jenny/provider/ParametersProvider.kt:14-24 | the older copy declares two leading parameters without the helper, none with it, constructors included |
| Params.MakeParameterLegacy | compiler/src/main/java/io/github/landerlyoung/jenny/provider/ParametersProvider.kt:14-24 | the two leading declarations joined by ", ", empty exactly with the helper |
| Params.JniParametersLegacy | compiler/src/main/java/io/github/landerlyoung/jenny/provider/ParametersProvider.kt:45-52 | every declaration is preceded by ", " |
| Params.LegacyFixedAgrees | compiler/src/main/java/io/github/landerlyoung/jenny/provider/ParametersProvider.kt:26-43 | outside nested classes the older list, with the separator restored or not, is the same |
| Params.LegacyMissingSeparator | compiler/src/main/java/io/github/landerlyoung/jenny/provider/ParametersProvider.kt:30-38 | in a nested class the older list glues the outer-instance declaration to the receiver; restoring ", " changes the list |
| Params.NativeConstType | compiler/src/main/java/io/github/landerlyoung/jenny/utils/ParametersProvider.kt:130-131 | a constant is declared `auto` exactly when its JNI type is `jstring` |
| Params.FallbackValue | compiler/src/main/java/io/github/landerlyoung/jenny/utils/ParametersProvider.kt:114-127 | the fallback value is never of an unknown type, and is a string exactly for non-primitive kinds |
| Params.ConstexprStatementLegacy | compiler/src/main/java/io/github/landerlyoung/jenny/provider/ParametersProvider.kt:83-96 | succeeds exactly when `call()` returns a value of a supported type; a throwing `call()` propagates |
| Params.ConstexprCopiesAgree | compiler/src/main/java/io/github/landerlyoung/jenny/utils/ParametersProvider.kt:113-140 | where the older copy succeeds the newer prints the same statement plus a newline; where it rejects a value, it reports it |
| Params.FallbackRenderingPrimitive | compiler/src/main/java/io/github/landerlyoung/jenny/utils/ParametersProvider.kt:117-126 | a primitive constant whose `call()` throws is declared with its kind's zero: JNI_FALSE, 0.0, '\0' or 0 |
| Params.FallbackRenderingReference | compiler/src/main/java/io/github/landerlyoung/jenny/utils/ParametersProvider.kt:126-137 | a reference constant whose `call()` throws is declared as a string literal holding an "Unknown type" comment |
| Params.NeedCastForClasses | compiler/src/main/java/io/github/landerlyoung/jenny/utils/ParametersProvider.kt:142-152 | a call result is cast exactly for arrays, `String`, `Class` and `Throwable`, each of which is also wrapped in a `LocalRef` |
| Params.LegacyNested | compiler/src/main/java/io/github/landerlyoung/jenny/provider/ParametersProvider.kt:30-38 | as written, in a nested class the outer-instance declaration follows the receiver with nothing between them |
| Params.LegacyFixedNested | compiler/src/main/java/io/github/landerlyoung/jenny/provider/ParametersProvider.kt:26-43 | with the separator restored, ", " stands between the receiver and the outer-instance declaration, and each Java parameter follows after ", " |
| HeaderDefs.ReturnStatement | compiler/src/main/java/io/github/landerlyoung/jenny/utils/JennyHeaderDefinitionsProvider.kt:150-170 | empty exactly for void; "return JNI_FALSE;" for boolean, "return 0;" for the numeric kinds and "return nullptr;" for the rest |
| HeaderDefs.ReturnStatementFitsJniType | compiler/src/main/java/io/github/landerlyoung/jenny/utils/JennyHeaderDefinitionsProvider.kt:150-170 | the stub's value fits its declared JNI type: none for `void`, `nullptr` exactly for the types a `LocalRef` would wrap, a zero for primitives |
| HeaderDefs.NativeMethodName | compiler/src/main/java/io/github/landerlyoung/jenny/utils/JennyHeaderDefinitionsProvider.kt:238-240 | "Java_", the class's JNI name, '_', then only word characters |
| HeaderDefs.NativeMethodNameIsSymbol | compiler/src/main/java/io/github/landerlyoung/jenny/utils/JennyHeaderDefinitionsProvider.kt:238-240 | with the class info's JNI name, the function name is the as-written JNI symbol of class and method |
| HeaderDefs.NativeMethodNamesDistinct | compiler/src/main/java/io/github/landerlyoung/jenny/utils/JennyHeaderDefinitionsProvider.kt:238-240 | on the Basic Multilingual Plane, two native functions share a name only when method name and class agree |
| HeaderDefs.MethodOverloadPostfix | compiler/src/main/java/io/github/landerlyoung/jenny/utils/JennyHeaderDefinitionsProvider.kt:407-414 | fails exactly when the private descriptor does; otherwise "__" followed by word characters only |
| HeaderDefs.PostfixOfDescriptor | compiler/src/main/java/io/github/landerlyoung/jenny/utils/JennyHeaderDefinitionsProvider.kt:407-414 | the postfix is "__" and the rewritten parameter descriptors, when no type name holds a ')' |
| HeaderDefs.PostfixOfPrimitiveParams | compiler/src/main/java/io/github/landerlyoung/jenny/utils/JennyHeaderDefinitionsProvider.kt:407-414 | for primitive parameters the postfix is "__" and their descriptor letters, as "__IJ" for `f(int, long)` |
| HeaderDefs.PostfixEscapesArrayBracket | compiler/src/main/java/io/github/landerlyoung/jenny/utils/JennyHeaderDefinitionsProvider.kt:407-414 | `f(int[])` gets "___0005bI": the '[' is escaped by `stripNonASCII`, not written "_3" |
| HeaderDefs.MethodNames | compiler/src/main/java/io/github/landerlyoung/jenny/utils/JennyHeaderDefinitionsProvider.kt:641 | exactly the names of the class's methods |
| HeaderDefs.HasGetterSetter | compiler/src/main/java/io/github/landerlyoung/jenny/utils/JennyHeaderDefinitionsProvider.kt:630-649 | a constant gets no accessor; without `allFields` a getter and a setter exactly as requested |
| HeaderDefs.AutoAccessorsAvoidDeclared | compiler/src/main/java/io/github/landerlyoung/jenny/utils/JennyHeaderDefinitionsProvider.kt:651-676 | with `allFields` a getter exactly when no method is `get<Camel>` (nor `is<Camel>` for a `jboolean`), a setter exactly when none is `set<Camel>` |
| HeaderDefs.PrivateIdNamesAgree | compiler/src/main/java/io/github/landerlyoung/jenny/utils/JennyHeaderDefinitionsProvider.kt:608-611 | the private method and field ID names are `JennyNameProvider`'s |
| HeaderDefs.NativeEntry | compiler/src/main/java/io/github/landerlyoung/jenny/utils/JennyHeaderDefinitionsProvider.kt:332-349 | five balanced lines, the last followed by "," unless it is the last entry |
| HeaderDefs.NativeEntriesInOrder | compiler/src/main/java/io/github/landerlyoung/jenny/utils/JennyHeaderDefinitionsProvider.kt:332-349 | entry `k` is method `k`'s initialiser, followed by "," exactly when it is not the last |
| HeaderDefs.NativeEntriesBalanced | compiler/src/main/java/io/github/landerlyoung/jenny/utils/JennyHeaderDefinitionsProvider.kt:332-349 | the table closes every initialiser it opens |
| HeaderDefs.PrivateSignatures | compiler/src/main/java/io/github/landerlyoung/jenny/utils/JennyHeaderDefinitionsProvider.kt:335 | succeed exactly when every method's descriptor does, and are then those descriptors in order |
| HeaderDefs.JniNativeMethods | compiler/src/main/java/io/github/landerlyoung/jenny/utils/JennyHeaderDefinitionsProvider.kt:332-349 | succeeds exactly when the descriptors do; then balanced, five lines per method, block `k` method `k`'s entry |
| HeaderDefs.RegisterHead | compiler/src/main/java/io/github/landerlyoung/jenny/utils/JennyHeaderDefinitionsProvider.kt:298-310 | leaves the function and the array open: depth 2 |
| HeaderDefs.RegisterTail | compiler/src/main/java/io/github/landerlyoung/jenny/utils/JennyHeaderDefinitionsProvider.kt:312-329 | closes the array and the function: from depth 2 back to 0 |
| HeaderDefs.Register | compiler/src/main/java/io/github/landerlyoung/jenny/utils/JennyHeaderDefinitionsProvider.kt:298-330 | the head, the table and the tail, balanced |
| HeaderDefs.JniRegister | compiler/src/main/java/io/github/landerlyoung/jenny/utils/JennyHeaderDefinitionsProvider.kt:298-330 | succeeds exactly when the descriptors do, and is then the balanced head, table and tail |
| Resolver.Keys | compiler/src/main/java/io/github/landerlyoung/jenny/resolver/JennyMethodOverloadResolver.kt:34 | one parameter key per method, in order |
| Resolver.OverloadMap | compiler/src/main/java/io/github/landerlyoung/jenny/resolver/JennyMethodOverloadResolver.kt:31-36 | holds exactly the keys seen |
| Resolver.OverloadMapCounts | compiler/src/main/java/io/github/landerlyoung/jenny/resolver/JennyMethodOverloadResolver.kt:33-36 | after the first pass a key maps to true exactly when it occurs at least twice |
| Resolver.DuplicatedCount | compiler/src/main/java/io/github/landerlyoung/jenny/resolver/JennyMethodOverloadResolver.kt:40 | a method's key is shared exactly when it occurs at least twice |
| Resolver.Record | compiler/src/main/java/io/github/landerlyoung/jenny/resolver/JennyMethodOverloadResolver.kt:43-48 | a record keeps method and index; it fails only when a needed postfix fails, and carries the postfix or the default |
| Resolver.RecordsFromFails | compiler/src/main/java/io/github/landerlyoung/jenny/resolver/JennyMethodOverloadResolver.kt:38-49 | the records fail exactly when some method needs a postfix that cannot be computed |
| Resolver.Resolve | compiler/src/main/java/io/github/landerlyoung/jenny/resolver/JennyMethodOverloadResolver.kt:28-50 | one record per method, in order, each with its own index |
| Resolver.ResolvePostfixes | compiler/src/main/java/io/github/landerlyoung/jenny/resolver/JennyMethodOverloadResolver.kt:28-50 | a record has the overload postfix exactly when its key is shared or its name reserved, otherwise the default; it fails exactly when a needed postfix fails |
| Resolver.PostfixedIffShared | compiler/src/main/java/io/github/landerlyoung/jenny/resolver/JennyMethodOverloadResolver.kt:38-42 | the second pass postfixes exactly the methods with a shared key or a reserved name |
| Resolver.SharedKeysBothPostfixed | compiler/src/main/java/io/github/landerlyoung/jenny/resolver/JennyMethodOverloadResolver.kt:31-48 | both methods sharing a key are postfixed, the first occurrence included |
| NativeDefs.Drop1 | compiler/src/main/java/io/github/landerlyoung/jenny/utils/NativeHeaderDefinitions.kt:180 | every parameter but the first, in order; nothing from an empty list |
| NativeDefs.NativeMethodParam | compiler/src/main/java/io/github/landerlyoung/jenny/utils/NativeHeaderDefinitions.kt:168-187 | the environment, then `jclass clazz` exactly for a static method and `jobject thiz` otherwise, then the JNI declarations of the parameters after the first |
| NativeDefs.NativeParamsSkipFirst | compiler/src/main/java/io/github/landerlyoung/jenny/utils/NativeHeaderDefinitions.kt:180 | the first Java parameter never reaches the C++ parameter list, whatever it is |
| NativeDefs.EnumNames | compiler/src/main/java/io/github/landerlyoung/jenny/utils/NativeHeaderDefinitions.kt:117 | one enum constant name per modifier, in order |
| NativeDefs.ParamTexts | compiler/src/main/java/io/github/landerlyoung/jenny/utils/NativeHeaderDefinitions.kt:242-247 | one "type name" text per parameter, in order |
| NativeDefs.StubComment | compiler/src/main/java/io/github/landerlyoung/jenny/utils/NativeHeaderDefinitions.kt:114-119 | a five-line comment that opens no block, naming the class and the descriptor |
| NativeDefs.Stub | compiler/src/main/java/io/github/landerlyoung/jenny/utils/NativeHeaderDefinitions.kt:114-128 | one native function closes what it opens; ten lines with a body ending in the return statement in a source, seven with a declaration in a header |
| NativeDefs.Stubs | compiler/src/main/java/io/github/landerlyoung/jenny/utils/NativeHeaderDefinitions.kt:97-129 | one function per method, in order |
| NativeDefs.StubsLayout | compiler/src/main/java/io/github/landerlyoung/jenny/utils/NativeHeaderDefinitions.kt:97-129 | the functions together are balanced and function `k` sits at lines `n*k` to `n*k+n` |
| NativeDefs.StubsBalanced | compiler/src/main/java/io/github/landerlyoung/jenny/utils/NativeHeaderDefinitions.kt:97-129 | any number of functions together close every block they open |
| NativeDefs.ReturnStatementAsWritten | compiler/src/main/java/io/github/landerlyoung/jenny/utils/NativeHeaderDefinitions.kt:147-166 | agrees with the corrected statement off `void`, and gives "return nullptr;" for `void` because the `Void.TYPE` comparison never holds |
| NativeDefs.ReturnStatementOf | compiler/src/main/java/io/github/landerlyoung/jenny/utils/NativeHeaderDefinitions.kt:147-166 | corrected: an executable's stub returns the stub value of its return type on both element routes, so nothing for a void method |
| NativeDefs.VoidStubReturnsValue | compiler/src/main/java/io/github/landerlyoung/jenny/utils/NativeHeaderDefinitions.kt:147-152 | a void method's stub returns `nullptr` as written, whether the element's `type` is its return type (reflection) or its method type (type mirror), and nothing once corrected |
| NativeDefs.DefinitionText | compiler/src/main/java/io/github/landerlyoung/jenny/utils/NativeHeaderDefinitions.kt:98-119 | comment, descriptor and parameters from the class and method; the name is qualified only in a source, by the Java class name as written and the simple name corrected |
| NativeDefs.DefinitionsAgreeInHeaders | compiler/src/main/java/io/github/landerlyoung/jenny/utils/NativeHeaderDefinitions.kt:106-110 | a header's declaration does not depend on the correction |
| NativeDefs.DefinitionAsWrittenDotted | compiler/src/main/java/io/github/landerlyoung/jenny/utils/NativeHeaderDefinitions.kt:108 | for `a.B` the as-written definition is named "a.B::…", which is no C++ scope; the corrected one "B::…" |
| NativeDefs.DefinitionTexts | compiler/src/main/java/io/github/landerlyoung/jenny/utils/NativeHeaderDefinitions.kt:97-111 | one text per method, in order, with its own descriptor |
| NativeDefs.ExternOpen | compiler/src/main/java/io/github/landerlyoung/jenny/utils/NativeHeaderDefinitions.kt:85-95 | the header opening leaves exactly one block open |
| NativeDefs.MethodsDefinitionsWith | compiler/src/main/java/io/github/landerlyoung/jenny/utils/NativeHeaderDefinitions.kt:79-131 | succeeds exactly when every method's descriptor can be computed |
| NativeDefs.MethodsDefinitionsAsWritten | compiler/src/main/java/io/github/landerlyoung/jenny/utils/NativeHeaderDefinitions.kt:79-131 | as written, succeeds exactly when every descriptor can be computed |
| NativeDefs.MethodsDefinitions | compiler/src/main/java/io/github/landerlyoung/jenny/utils/NativeHeaderDefinitions.kt:79-131 | corrected, succeeds exactly when every descriptor can be computed |
| NativeDefs.SourceDefinitionsLayout | compiler/src/main/java/io/github/landerlyoung/jenny/utils/NativeHeaderDefinitions.kt:97-129 | in a source, balanced, ten lines per method, block `k` the definition of method `k` with its descriptor |
| NativeDefs.DeclarationsAfter | compiler/src/main/java/io/github/landerlyoung/jenny/utils/NativeHeaderDefinitions.kt:84-129 | declarations after any prefix keep its depth, the prefix unchanged and declaration `k` at its place |
| NativeDefs.HeaderDefinitionsLayout | compiler/src/main/java/io/github/landerlyoung/jenny/utils/NativeHeaderDefinitions.kt:84-129 | in a header, the `extern "C"` opening, then seven lines per method, block `k` method `k`'s declaration; one block is left open |
| NativeDefs.ExternStaysOpen | compiler/src/main/java/io/github/landerlyoung/jenny/utils/NativeHeaderDefinitions.kt:70-95 | inside the class namespace, declarations and the namespace end leave an opened block open |
| NativeDefs.AsWrittenAgreesWithoutVoidOrPackage | compiler/src/main/java/io/github/landerlyoung/jenny/utils/NativeHeaderDefinitions.kt:106-166 | for methods read by reflection, with no void method and no package, the as-written output is the corrected output |
| NativeDefs.EndNameSpace | compiler/src/main/java/io/github/landerlyoung/jenny/utils/NativeHeaderDefinitions.kt:70-75 | a source's end opens and closes nothing; a header's closes exactly the class namespace |
| NativeDefs.HeaderModeLeavesExternOpen | compiler/src/main/java/io/github/landerlyoung/jenny/utils/NativeHeaderDefinitions.kt:84-95 | header mode never closes its `extern "C"` block: inside the namespace one block stays open after the namespace end |
| NativeDefs.MethodsDefinitionsClosed | compiler/src/main/java/io/github/landerlyoung/jenny/utils/NativeHeaderDefinitions.kt:79-131 | corrected to close its `extern "C"` block in header mode: succeeds exactly when every descriptor can be computed, and a source is unchanged |
| NativeDefs.ClosedDefinitionsBalanced | compiler/src/main/java/io/github/landerlyoung/jenny/utils/NativeHeaderDefinitions.kt:70-95 | corrected, the definitions are balanced in both modes, and in a header the namespace end then closes the namespace with nothing left open |
| GlueDefs.HeaderInitWith | compiler/src/main/java/io/github/landerlyoung/jenny/provider/glue/DefaultJennyGlueHeaderDefinitionsProvider.kt:33-48 | thirteen lines leaving exactly the class namespace open, after the outer namespaces, with the given class-name literal |
| GlueDefs.HeaderInitForGlueAsWritten | compiler/src/main/java/io/github/landerlyoung/jenny/provider/glue/DefaultJennyGlueHeaderDefinitionsProvider.kt:33-48 | the as-written preamble has the thirteen lines of `HeaderInitWith` |
| GlueDefs.HeaderInitForGlue | compiler/src/main/java/io/github/landerlyoung/jenny/provider/glue/DefaultJennyGlueHeaderDefinitionsProvider.kt:33-48 | the corrected preamble has the thirteen lines of `HeaderInitWith` |
| GlueDefs.FullClassNameAsWrittenIsNotTheClass | compiler/src/main/java/io/github/landerlyoung/jenny/provider/glue/DefaultJennyGlueHeaderDefinitionsProvider.kt:45 | as written `FULL_CLASS_NAME` is "$" and the slash name, never the slash name itself; corrected it is exactly the slash name |
| GlueDefs.HeaderInitForGlueNamesClass | compiler/src/main/java/io/github/landerlyoung/jenny/provider/glue/DefaultJennyGlueHeaderDefinitionsProvider.kt:33-48 | for an extracted class info the corrected preamble opens the simple name's namespace, names the binary name with '/' for '.', and leaves one block open |
| GlueDefs.ConstexprStatements | compiler/src/main/java/io/github/landerlyoung/jenny/provider/glue/DefaultJennyGlueHeaderDefinitionsProvider.kt:50-55 | succeed exactly when every constant renders, and are then the statements of the constants in order |
| GlueDefs.ConstantsIdDeclare | compiler/src/main/java/io/github/landerlyoung/jenny/provider/glue/DefaultJennyGlueHeaderDefinitionsProvider.kt:50-71 | succeeds exactly when every constant's value is read and of a supported type; one line that opens and closes nothing |
| GlueDefs.ConstantsIdDeclareStatements | compiler/src/main/java/io/github/landerlyoung/jenny/provider/glue/DefaultJennyGlueHeaderDefinitionsProvider.kt:57-71 | each statement is the one the newer parameters provider writes, without its line break |
| GlueDefs.GlueEndNameSpace | compiler/src/main/java/io/github/landerlyoung/jenny/provider/glue/DefaultJennyGlueHeaderDefinitionsProvider.kt:73-78 | a source's end opens and closes nothing; a header's closes exactly the class namespace; the outer namespaces' end comes last but one |
| GlueDefs.Signatures | compiler/src/main/java/io/github/landerlyoung/jenny/provider/glue/DefaultJennyGlueHeaderDefinitionsProvider.kt:102 | succeed exactly when every method's descriptor can be built, and are then those descriptors in order |
| GlueDefs.GlueText | compiler/src/main/java/io/github/landerlyoung/jenny/provider/glue/DefaultJennyGlueHeaderDefinitionsProvider.kt:97-123 | the class and descriptor of the comment, the JNI return type, the name qualified by the simple name only in a source, the corrected parameter list, and the stub value of the return type |
| GlueDefs.GlueTextModes | compiler/src/main/java/io/github/landerlyoung/jenny/provider/glue/DefaultJennyGlueHeaderDefinitionsProvider.kt:114 | the as-written and corrected functions differ only in the parameter list, and differ exactly for a member of a nested class |
| GlueDefs.GlueAndNativeNamesAgree | compiler/src/main/java/io/github/landerlyoung/jenny/provider/glue/DefaultJennyGlueHeaderDefinitionsProvider.kt:106-113 | the glue and the corrected native header give a method's function the same name |
| GlueDefs.GlueTexts | compiler/src/main/java/io/github/landerlyoung/jenny/provider/glue/DefaultJennyGlueHeaderDefinitionsProvider.kt:97-132 | one text per method, in order, with its own descriptor |
| NativeDefs.ExternClose | compiler/src/main/java/io/github/landerlyoung/jenny/provider/glue/DefaultJennyGlueHeaderDefinitionsProvider.kt:133-140 | the header ending closes exactly one block |
| GlueDefs.NativeMethodsDefinitions | compiler/src/main/java/io/github/landerlyoung/jenny/provider/glue/DefaultJennyGlueHeaderDefinitionsProvider.kt:80-141 | succeeds exactly when every method's descriptor can be built |
| GlueDefs.NativeMethodsModesAgree | compiler/src/main/java/io/github/landerlyoung/jenny/provider/glue/DefaultJennyGlueHeaderDefinitionsProvider.kt:80-141 | with no method of a nested class and no object-array parameter in play, as-written and corrected output agree |
| GlueDefs.SignaturesModesAgree | compiler/src/main/java/io/github/landerlyoung/jenny/provider/glue/DefaultJennyGlueHeaderDefinitionsProvider.kt:102 | where each method's two descriptors agree, so do the descriptor lists |
| GlueDefs.NativeMethodsBalanced | compiler/src/main/java/io/github/landerlyoung/jenny/provider/glue/DefaultJennyGlueHeaderDefinitionsProvider.kt:80-141 | in either file kind and either mode the definitions close every block they open |
| GlueDefs.GuardedBalanced | compiler/src/main/java/io/github/landerlyoung/jenny/provider/glue/DefaultJennyGlueHeaderDefinitionsProvider.kt:85-140 | a block opened by a prefix and closed by a suffix leaves the whole balanced |
| GlueDefs.NativeMethodsSourceLayout | compiler/src/main/java/io/github/landerlyoung/jenny/provider/glue/DefaultJennyGlueHeaderDefinitionsProvider.kt:97-132 | in a source, balanced, ten lines per method, block `k` method `k`'s definition |
| GlueDefs.NativeMethodsHeaderLayout | compiler/src/main/java/io/github/landerlyoung/jenny/provider/glue/DefaultJennyGlueHeaderDefinitionsProvider.kt:85-140 | in a header the `extern "C"` opening, seven lines per method with block `k` method `k`'s declaration, then the closing; balanced |
| GlueDefs.ExternLayout | compiler/src/main/java/io/github/landerlyoung/jenny/provider/glue/DefaultJennyGlueHeaderDefinitionsProvider.kt:85-140 | declarations inside the `extern "C"` block: balanced, block `k` text `k`'s |
| GlueDefs.GlueJniNativeMethods | compiler/src/main/java/io/github/landerlyoung/jenny/provider/glue/DefaultJennyGlueHeaderDefinitionsProvider.kt:214-231 | succeeds exactly when the descriptors do; then balanced, five lines per method, entry `k` method `k`'s name and descriptor, "," after all but the last |
| GlueDefs.GlueJniRegister | compiler/src/main/java/io/github/landerlyoung/jenny/provider/glue/DefaultJennyGlueHeaderDefinitionsProvider.kt:144-176 | succeeds exactly when the descriptors do; then the balanced function head, the table and the tail |
| NativeGlueHeaderGenerator.Init | compiler/src/main/java/io/github/landerlyoung/jenny/generator/glue/NativeGlueHeaderGenerator.kt:35 | the preamble, in either mode, is thirteen lines that leave exactly the class namespace open |
| NativeGlueHeaderGenerator.Head | compiler/src/main/java/io/github/landerlyoung/jenny/generator/glue/NativeGlueHeaderGenerator.kt:34-37 | the notice, then the preamble, then the constants line: fifteen lines with one block open |
| NativeGlueHeaderGenerator.End | compiler/src/main/java/io/github/landerlyoung/jenny/generator/glue/NativeGlueHeaderGenerator.kt:41-52 | four lines that close exactly the class namespace |
| NativeGlueHeaderGenerator.Sections | compiler/src/main/java/io/github/landerlyoung/jenny/generator/glue/NativeGlueHeaderGenerator.kt:36-55 | with registration: declarations, register function, then the end; without: the end, then the declarations and no register function; balanced whenever the parts are |
| NativeGlueHeaderGenerator.CreateHeader | compiler/src/main/java/io/github/landerlyoung/jenny/generator/glue/NativeGlueHeaderGenerator.kt:31-57 | fails exactly when a constant cannot be written or a method has no descriptor; otherwise the head and the sections in the chosen order, balanced in both orders |
| NativeGlueHeaderGenerator.CreateHeaderAsWrittenNamesNoClass | compiler/src/main/java/io/github/landerlyoung/jenny/generator/glue/NativeGlueHeaderGenerator.kt:35 | as written, line 11 of the header names "$" and the slash name; corrected, the slash name; the two headers never agree |
| NativeGlueHeaderGenerator.ModesDifferByRegister | compiler/src/main/java/io/github/landerlyoung/jenny/generator/glue/NativeGlueHeaderGenerator.kt:36-55 | turning registration off drops exactly the register function's lines and keeps every other line |
| NativeGlueHeaderGenerator.SectionsWalk | compiler/src/main/java/io/github/landerlyoung/jenny/generator/glue/NativeGlueHeaderGenerator.kt:36-55 | both orders of the parts are balanced when the head opens one block and the end closes it |
| NativeGlueHeaderGenerator.SectionsMultiset | compiler/src/main/java/io/github/landerlyoung/jenny/generator/glue/NativeGlueHeaderGenerator.kt:36-55 | the two orders hold the same lines but for the register function |
| HeaderDataCopy.WithClassInfo | compiler/src/main/java/io/github/landerlyoung/jenny/generator/HeaderData.kt:42-44 | sets the class info and no other slot |
| HeaderDataCopy.WithConstructors | compiler/src/main/java/io/github/landerlyoung/jenny/generator/HeaderData.kt:46-48 | sets the constructors and no other slot |
| HeaderDataCopy.WithMethods | compiler/src/main/java/io/github/landerlyoung/jenny/generator/HeaderData.kt:50-52 | sets the methods and no other slot |
| HeaderDataCopy.WithConstants | compiler/src/main/java/io/github/landerlyoung/jenny/generator/HeaderData.kt:54-56 | sets the constants and no other slot |
| HeaderDataCopy.WithFieldsAsWritten | compiler/src/main/java/io/github/landerlyoung/jenny/generator/HeaderData.kt:58-60 | as written, writes the constants slot and leaves the fields slot unchanged |
| HeaderDataCopy.WithFields | compiler/src/main/java/io/github/landerlyoung/jenny/generator/HeaderData.kt:58-60 | corrected, sets the fields and no other slot |
| HeaderDataCopy.WithNamespace | compiler/src/main/java/io/github/landerlyoung/jenny/generator/HeaderData.kt:62-64 | sets the namespace and no other slot |
| HeaderDataCopy.JennyClazzAsWritten | compiler/src/main/java/io/github/landerlyoung/jenny/generator/HeaderData.kt:66-72 | as written, the constants end up as every field and the fields slot keeps its old value; class info, constructors and methods come from the class |
| HeaderDataCopy.JennyClazz | compiler/src/main/java/io/github/landerlyoung/jenny/generator/HeaderData.kt:66-72 | corrected, the constants are exactly the constant fields in class order and the fields are all the fields |
| HeaderDataCopy.Build | compiler/src/main/java/io/github/landerlyoung/jenny/generator/HeaderData.kt:74-76 | the built data agrees with the builder on every slot |
| HeaderDataCopy.NewBuilderBuildsDefaults | compiler/src/main/java/io/github/landerlyoung/jenny/generator/HeaderData.kt:31-40 | a fresh builder builds empty class names, empty namespace texts and no members |
| HeaderDataCopy.FieldsLandInConstants | compiler/src/main/java/io/github/landerlyoung/jenny/generator/HeaderData.kt:58-72 | as written a non-constant field lands among the constants and the fields are empty; corrected it is a field and not a constant |
| GenerationData.WithClassInfo | compiler/src/main/java/io/github/landerlyoung/jenny/generator/model/GenerationData.kt:48-50 | sets the class info, changes no other slot and keeps the suffix |
| GenerationData.WithConstructors | compiler/src/main/java/io/github/landerlyoung/jenny/generator/model/GenerationData.kt:52-54 | sets the constructors, changes no other slot and keeps the suffix |
| GenerationData.WithMethods | compiler/src/main/java/io/github/landerlyoung/jenny/generator/model/GenerationData.kt:56-58 | sets the methods, changes no other slot and keeps the suffix |
| GenerationData.WithConstants | compiler/src/main/java/io/github/landerlyoung/jenny/generator/model/GenerationData.kt:60-62 | sets the constants, changes no other slot and keeps the suffix |
| GenerationData.WithFields | compiler/src/main/java/io/github/landerlyoung/jenny/generator/model/GenerationData.kt:64-66 | sets the fields, changes no other slot and keeps the suffix |
| GenerationData.WithNamespace | compiler/src/main/java/io/github/landerlyoung/jenny/generator/model/GenerationData.kt:68-70 | sets the namespace, changes no other slot and keeps the suffix |
| GenerationData.WithDefaultCppName | compiler/src/main/java/io/github/landerlyoung/jenny/generator/model/GenerationData.kt:72-74 | records the suffix and changes no slot of the data |
| GenerationData.JennyClazz | compiler/src/main/java/io/github/landerlyoung/jenny/generator/model/GenerationData.kt:76-82 | the class info with the suffix recorded so far; constructors and methods of the class; the fields split, in class order, into non-constants and constants |
| GenerationData.Build | compiler/src/main/java/io/github/landerlyoung/jenny/generator/model/GenerationData.kt:84-91 | the built data agrees with the builder on all six slots |
| GenerationData.RunAppend | compiler/src/main/java/io/github/landerlyoung/jenny/generator/model/GenerationData.kt:39-82 | running two chains of calls is running one after the other |
| GenerationData.RunKeepsClassInfo | compiler/src/main/java/io/github/landerlyoung/jenny/generator/model/GenerationData.kt:48-82 | calls that do not write the class info leave it unchanged |
| GenerationData.CppNameFixedAtJennyClazz | compiler/src/main/java/io/github/landerlyoung/jenny/generator/model/GenerationData.kt:72-82 | the C++ class name is the simple name plus the suffix recorded before the last `jennyClazz`, whatever suffix is set afterwards |
| GlueData.WithClassInfo | compiler/src/main/java/io/github/landerlyoung/jenny/generator/GlueData.kt:39-41 | sets the class info and keeps the rest |
| GlueData.WithConstructors | compiler/src/main/java/io/github/landerlyoung/jenny/generator/GlueData.kt:43-45 | sets the constructors and keeps the rest |
| GlueData.WithMethods | compiler/src/main/java/io/github/landerlyoung/jenny/generator/GlueData.kt:47-49 | sets the methods and keeps the rest |
| GlueData.WithConstants | compiler/src/main/java/io/github/landerlyoung/jenny/generator/GlueData.kt:51-53 | sets the constants and keeps the rest |
| GlueData.WithFields | compiler/src/main/java/io/github/landerlyoung/jenny/generator/GlueData.kt:55-57 | sets the fields and keeps the rest |
| GlueData.JennyClazz | compiler/src/main/java/io/github/landerlyoung/jenny/generator/GlueData.kt:59-65 | the class info; the constants are the constant fields in class order; the fields are all of them, constants included |
| GlueData.Build | compiler/src/main/java/io/github/landerlyoung/jenny/generator/GlueData.kt:67-77 | fails with "ClassInfo must be provided" exactly when no class info was set; otherwise the accumulated values |
| GlueData.RunHasClassInfo | compiler/src/main/java/io/github/landerlyoung/jenny/generator/GlueData.kt:39-65 | after a chain of calls the builder has a class info exactly when it had one or some call set one |
| GlueData.BuildSucceedsIffClassInfoSet | compiler/src/main/java/io/github/landerlyoung/jenny/generator/GlueData.kt:67-77 | a fresh builder builds exactly when some call was `classInfo` or `jennyClazz` |
| NativeGlueGenerator.GlueHeaderData | compiler/src/main/java/io/github/landerlyoung/jenny/generator/glue/NativeGlueGenerator.kt:37-81 | the class info, no constructors or fields, exactly the native methods and exactly the `static final` fields, each in class order |
| NativeProxyGenerator.ProxyHeaderData | compiler/src/main/java/io/github/landerlyoung/jenny/generator/proxy/NativeProxyGenerator.kt:31-64 | the class info, every constructor, method and field, and exactly the constant fields as constants in class order |
| NativeProxyGenerator.GlueDataWithinProxyData | compiler/src/main/java/io/github/landerlyoung/jenny/generator/proxy/NativeProxyGenerator.kt:31-64 | glue and proxy data agree on the class info and constants; the glue methods are a subsequence of the proxy methods; every constant is a field |
| ProviderTypes.CreateProviderType | compiler/src/main/java/io/github/landerlyoung/jenny/provider/proxy/factory/ProxyProviderType.kt:33-50 | the Qt template kind exactly when asked for, else the plain template kind exactly when asked for, else the default; the directory falls back to the user directory's `jte` folder |
| ProviderTypes.QjniOverridesTemplates | compiler/src/main/java/io/github/landerlyoung/jenny/provider/proxy/factory/ProxyProviderType.kt:35-40 | with the Qt flag set, the plain template flag makes no difference |
| ProxyHeader.Includes | compiler/src/main/java/io/github/landerlyoung/jenny/provider/proxy/impl/DefaultJennyProxyHeaderDefinitionsProvider.kt:50-73 | `<atomic>` and `<mutex>` are included exactly when thread safe, the helper header exactly when the JNI helper is used; no line opens a block |
| ProxyHeader.ClassOpening | compiler/src/main/java/io/github/landerlyoung/jenny/provider/proxy/impl/DefaultJennyProxyHeaderDefinitionsProvider.kt:74-83 | opens exactly one block, the class named by its C++ name, whose `FULL_CLASS_NAME` is the slash name |
| ProxyHeader.ProxyHeaderInit | compiler/src/main/java/io/github/landerlyoung/jenny/provider/proxy/impl/DefaultJennyProxyHeaderDefinitionsProvider.kt:44-84 | the includes then the class opening, leaving the class open |
| ProxyHeader.ProxyNamesClassBySlashName | compiler/src/main/java/io/github/landerlyoung/jenny/provider/proxy/impl/DefaultJennyProxyHeaderDefinitionsProvider.kt:80 | for an extracted class info the constant is the binary name with '/' for '.', the name `FindClass` expects |
| ProxyHeader.ConstantLine | compiler/src/main/java/io/github/landerlyoung/jenny/provider/proxy/impl/DefaultJennyProxyHeaderDefinitionsProvider.kt:88 | a constant's line is the statement the newer parameters provider writes |
| ProxyHeader.ConstantsIdDeclare | compiler/src/main/java/io/github/landerlyoung/jenny/provider/proxy/impl/DefaultJennyProxyHeaderDefinitionsProvider.kt:86-91 | one statement per constant in order, then a blank line; nothing opens |
| ProxyHeader.ProxyHeaderClazzInit | compiler/src/main/java/io/github/landerlyoung/jenny/provider/proxy/impl/DefaultJennyProxyHeaderDefinitionsProvider.kt:93-110 | declares `initClazz` and `releaseClazz` and closes what it opens |
| ProxyHeader.Prologue | compiler/src/main/java/io/github/landerlyoung/jenny/provider/proxy/impl/DefaultJennyProxyHeaderDefinitionsProvider.kt:140-153 | with the helper it starts by making `env`, and for an instance member then defines `thiz` |
| ProxyHeader.StaticOrConst | compiler/src/main/java/io/github/landerlyoung/jenny/provider/proxy/impl/DefaultJennyProxyHeaderDefinitionsProvider.kt:168-169 | a wrapper is `static` or `const`, never both, and `const` exactly for an instance member with the helper |
| ProxyHeader.ReceiverInScope | compiler/src/main/java/io/github/landerlyoung/jenny/provider/proxy/impl/DefaultJennyProxyHeaderDefinitionsProvider.kt:140-153 | the receiver is `thiz` exactly for an instance member, and `thiz` is then in scope: defined by the helper prologue or declared as the second parameter |
| ProxyHeader.WrapperParens | compiler/src/main/java/io/github/landerlyoung/jenny/provider/proxy/impl/DefaultJennyProxyHeaderDefinitionsProvider.kt:192-210 | each opener around a call leaves one parenthesis open and each closer closes one |
| ProxyHeader.NewObjectUsesId | compiler/src/main/java/io/github/landerlyoung/jenny/provider/proxy/impl/DefaultJennyProxyHeaderDefinitionsProvider.kt:129-131 | a constructor's `NewObject` goes through the class-state member of constructor ID `count` |
| ProxyHeader.ClosedWrapper | compiler/src/main/java/io/github/landerlyoung/jenny/provider/proxy/impl/DefaultJennyProxyHeaderDefinitionsProvider.kt:124-135 | a wrapper whose body a `}` line closes is well formed |
| ProxyHeader.WrapperBlock | compiler/src/main/java/io/github/landerlyoung/jenny/provider/proxy/impl/DefaultJennyProxyHeaderDefinitionsProvider.kt:124-135 | the comment lines, then the opening signature line, the prologue and the statement |
| ProxyHeader.WrapperBlockBalanced | compiler/src/main/java/io/github/landerlyoung/jenny/provider/proxy/impl/DefaultJennyProxyHeaderDefinitionsProvider.kt:124-135 | a well-formed wrapper closes the one block it opens |
| ProxyHeader.WrapperBlocks | compiler/src/main/java/io/github/landerlyoung/jenny/provider/proxy/impl/DefaultJennyProxyHeaderDefinitionsProvider.kt:120-136 | one block per wrapper, in order |
| ProxyHeader.WrappersBalanced | compiler/src/main/java/io/github/landerlyoung/jenny/provider/proxy/impl/DefaultJennyProxyHeaderDefinitionsProvider.kt:120-136 | well-formed wrappers one after another are balanced |
| ProxyHeader.WrapperAt | compiler/src/main/java/io/github/landerlyoung/jenny/provider/proxy/impl/DefaultJennyProxyHeaderDefinitionsProvider.kt:120-136 | among uniform wrappers, wrapper `k`'s signature and statement sit at fixed lines of block `k` |
| ProxyHeader.ConstructorWrapper | compiler/src/main/java/io/github/landerlyoung/jenny/provider/proxy/impl/DefaultJennyProxyHeaderDefinitionsProvider.kt:124-135 | one comment line, the signature, the prologue, the `NewObject` statement indented by eight, one blank line |
| ProxyHeader.ConstructorWrappers | compiler/src/main/java/io/github/landerlyoung/jenny/provider/proxy/impl/DefaultJennyProxyHeaderDefinitionsProvider.kt:120-136 | one wrapper per constructor, in the map's order |
| ProxyHeader.ConstructorsDefinitions | compiler/src/main/java/io/github/landerlyoung/jenny/provider/proxy/impl/DefaultJennyProxyHeaderDefinitionsProvider.kt:112-138 | closes every block it opens |
| ProxyHeader.ConstructorIdDeclare | compiler/src/main/java/io/github/landerlyoung/jenny/provider/proxy/impl/DefaultJennyProxyHeaderDefinitionsProvider.kt:380-385 | one `jmethodID` member per constructor, named by its number, then a blank line |
| ProxyHeader.ConstructorUsesDeclaredId | compiler/src/main/java/io/github/landerlyoung/jenny/provider/proxy/impl/DefaultJennyProxyHeaderDefinitionsProvider.kt:112-138 | wrapper `k` opens at line `6k+1` and its `NewObject` uses the member `getConstructorIdDeclare` declares for constructor `k` |
| ProxyHeader.SixLineWrappersAt | compiler/src/main/java/io/github/landerlyoung/jenny/provider/proxy/impl/DefaultJennyProxyHeaderDefinitionsProvider.kt:120-137 | six-line wrappers then a blank line: wrapper `k` opens at line `6k+1` |
| ProxyHeader.ConstructorWrapperNamedInit | compiler/src/main/java/io/github/landerlyoung/jenny/provider/proxy/impl/DefaultJennyProxyHeaderDefinitionsProvider.kt:127 | a constructor wrapper is named `<init>`, the element name of every constructor |
| ProxyHeader.LocalRefOf | compiler/src/main/java/io/github/landerlyoung/jenny/provider/proxy/impl/DefaultJennyProxyHeaderDefinitionsProvider.kt:165 | the owning wrapper type is longer than the JNI type it wraps |
| ProxyHeader.MethodCallHead | compiler/src/main/java/io/github/landerlyoung/jenny/provider/proxy/impl/DefaultJennyProxyHeaderDefinitionsProvider.kt:199 | the call starts with `env->Call` |
| ProxyHeader.ReturnLead | compiler/src/main/java/io/github/landerlyoung/jenny/provider/proxy/impl/DefaultJennyProxyHeaderDefinitionsProvider.kt:187-191 | "return " exactly for a non-void method, nothing exactly for a void one |
| ProxyHeader.MethodComments | compiler/src/main/java/io/github/landerlyoung/jenny/provider/proxy/impl/DefaultJennyProxyHeaderDefinitionsProvider.kt:174-181 | one comment line, two with the helper |
| ProxyHeader.MethodWrapper | compiler/src/main/java/io/github/landerlyoung/jenny/provider/proxy/impl/DefaultJennyProxyHeaderDefinitionsProvider.kt:160-216 | the comments, the signature, the prologue, the call statement indented by eight, two blank lines |
| ProxyHeader.MethodWrappers | compiler/src/main/java/io/github/landerlyoung/jenny/provider/proxy/impl/DefaultJennyProxyHeaderDefinitionsProvider.kt:160-216 | one wrapper per method, in the map's order |
| ProxyHeader.MethodsDefinitions | compiler/src/main/java/io/github/landerlyoung/jenny/provider/proxy/impl/DefaultJennyProxyHeaderDefinitionsProvider.kt:156-217 | closes every block it opens |
| ProxyHeader.MethodIdDeclare | compiler/src/main/java/io/github/landerlyoung/jenny/provider/proxy/impl/DefaultJennyProxyHeaderDefinitionsProvider.kt:387-392 | one `jmethodID` member per method, named by the element name and its number, then a blank line |
| ProxyHeader.SevenLineWrappersAt | compiler/src/main/java/io/github/landerlyoung/jenny/provider/proxy/impl/DefaultJennyProxyHeaderDefinitionsProvider.kt:160-216 | seven-line wrappers: wrapper `k` opens at line `7k+1` |
| ProxyHeader.EightLineWrappersAt | compiler/src/main/java/io/github/landerlyoung/jenny/provider/proxy/impl/DefaultJennyProxyHeaderDefinitionsProvider.kt:160-216 | eight-line wrappers: wrapper `k` opens at line `8k+2` |
| ProxyHeader.CallStatementContains | compiler/src/main/java/io/github/landerlyoung/jenny/provider/proxy/impl/DefaultJennyProxyHeaderDefinitionsProvider.kt:187-212 | text found in the call is found in the statement around it |
| ProxyHeader.CallStatementParens | compiler/src/main/java/io/github/landerlyoung/jenny/provider/proxy/impl/DefaultJennyProxyHeaderDefinitionsProvider.kt:192-210 | the statement leaves open exactly what the call leaves open; without the closers one more per wrapper and cast |
| ProxyHeader.CallStatementReturns | compiler/src/main/java/io/github/landerlyoung/jenny/provider/proxy/impl/DefaultJennyProxyHeaderDefinitionsProvider.kt:187-199 | the statement starts with "return " exactly when it is led by it |
| ProxyHeader.MethodStatementParens | compiler/src/main/java/io/github/landerlyoung/jenny/provider/proxy/impl/DefaultJennyProxyHeaderDefinitionsProvider.kt:192-210 | a method statement closes every `LocalRef(` and `reinterpret_cast<…>(` it opens |
| ProxyHeader.MethodReturnsIffValue | compiler/src/main/java/io/github/landerlyoung/jenny/provider/proxy/impl/DefaultJennyProxyHeaderDefinitionsProvider.kt:187-191 | the statement returns the call's value exactly when the method is not void |
| ProxyHeader.MethodResultAsDeclared | compiler/src/main/java/io/github/landerlyoung/jenny/provider/proxy/impl/DefaultJennyProxyHeaderDefinitionsProvider.kt:163-166 | with the helper, a method returning a reference declares the `LocalRef` type and builds its result as that type |
| ProxyHeader.WrappedStatementStarts | compiler/src/main/java/io/github/landerlyoung/jenny/provider/proxy/impl/DefaultJennyProxyHeaderDefinitionsProvider.kt:192-194 | a wrapped statement builds its value as the wrapper type right after the lead |
| ProxyHeader.MethodCallUsesId | compiler/src/main/java/io/github/landerlyoung/jenny/provider/proxy/impl/DefaultJennyProxyHeaderDefinitionsProvider.kt:199-203 | the call goes through the class-state member of the method's ID |
| ProxyHeader.MethodUsesDeclaredId | compiler/src/main/java/io/github/landerlyoung/jenny/provider/proxy/impl/DefaultJennyProxyHeaderDefinitionsProvider.kt:156-217 | wrapper `k` opens at line `7k+1` (`8k+2` with the helper), and its call uses the member `getMethodIdDeclare` declares for method `k` |
| ProxyHeader.FieldComments | compiler/src/main/java/io/github/landerlyoung/jenny/provider/proxy/impl/DefaultJennyProxyHeaderDefinitionsProvider.kt:247-250 | one comment line, two with the helper |
| ProxyHeader.GetterWrapper | compiler/src/main/java/io/github/landerlyoung/jenny/provider/proxy/impl/DefaultJennyProxyHeaderDefinitionsProvider.kt:251-276 | a well-formed getter with the getter signature and, as written or corrected, the read statement |
| ProxyHeader.SetterWrapper | compiler/src/main/java/io/github/landerlyoung/jenny/provider/proxy/impl/DefaultJennyProxyHeaderDefinitionsProvider.kt:278-304 | a well-formed setter with the setter signature and the write statement |
| ProxyHeader.FieldWrappers | compiler/src/main/java/io/github/landerlyoung/jenny/provider/proxy/impl/DefaultJennyProxyHeaderDefinitionsProvider.kt:228-305 | at most a getter and a setter per field, both well formed |
| ProxyHeader.FieldParts | compiler/src/main/java/io/github/landerlyoung/jenny/provider/proxy/impl/DefaultJennyProxyHeaderDefinitionsProvider.kt:228-305 | the accessors of each field in order, a field's index being its position |
| ProxyHeader.FieldsWrappers | compiler/src/main/java/io/github/landerlyoung/jenny/provider/proxy/impl/DefaultJennyProxyHeaderDefinitionsProvider.kt:228-305 | every accessor of every field is well formed |
| ProxyHeader.FieldsDefinitions | compiler/src/main/java/io/github/landerlyoung/jenny/provider/proxy/impl/DefaultJennyProxyHeaderDefinitionsProvider.kt:219-306 | closes every block it opens, as written and corrected |
| ProxyHeader.FieldIdDeclare | compiler/src/main/java/io/github/landerlyoung/jenny/provider/proxy/impl/DefaultJennyProxyHeaderDefinitionsProvider.kt:394-399 | one `jfieldID` member per field, named by the element name and its position, then a blank line |
| ProxyHeader.GetterParens | compiler/src/main/java/io/github/landerlyoung/jenny/provider/proxy/impl/DefaultJennyProxyHeaderDefinitionsProvider.kt:258-275 | the corrected getter closes every opener around the read; as written one parenthesis stays open per wrapper and per cast |
| ProxyHeader.GetterAsWrittenLeavesCastOpen | compiler/src/main/java/io/github/landerlyoung/jenny/provider/proxy/impl/DefaultJennyProxyHeaderDefinitionsProvider.kt:264-266 | as written, a getter whose JNI type needs a cast leaves more parentheses open than the corrected one |
| ProxyHeader.StringGetterUnclosed | compiler/src/main/java/io/github/landerlyoung/jenny/provider/proxy/impl/DefaultJennyProxyHeaderDefinitionsProvider.kt:264-275 | an instance `String` field read without the helper leaves one parenthesis unclosed as written |
| ProxyHeader.SetterPassesParameter | compiler/src/main/java/io/github/landerlyoung/jenny/provider/proxy/impl/DefaultJennyProxyHeaderDefinitionsProvider.kt:284-298 | the setter declares the base parameters then the new value, joined by ", ", and passes the value with `.get()` exactly when it declared a `LocalRef` |
| ProxyHeader.AccessorsUseFieldId | compiler/src/main/java/io/github/landerlyoung/jenny/provider/proxy/impl/DefaultJennyProxyHeaderDefinitionsProvider.kt:269-298 | getter, as written and corrected, and setter go through the field's ID member |
| ProxyHeader.FieldWrappersUseId | compiler/src/main/java/io/github/landerlyoung/jenny/provider/proxy/impl/DefaultJennyProxyHeaderDefinitionsProvider.kt:228-305 | every accessor of a field uses that field's ID member |
| ProxyHeader.FieldsUseDeclaredIds | compiler/src/main/java/io/github/landerlyoung/jenny/provider/proxy/impl/DefaultJennyProxyHeaderDefinitionsProvider.kt:228-305 | every accessor uses the member `getFieldIdDeclare` declares for one of the fields |
| ProxyHeader.FieldAccessorsAsGranted | compiler/src/main/java/io/github/landerlyoung/jenny/provider/proxy/impl/DefaultJennyProxyHeaderDefinitionsProvider.kt:231-237 | a field gets a getter exactly when granted and a setter exactly when granted; a constant gets neither; without `allFields` the grants are the callbacks' answers |
| ProxyHeader.HelperConstructor | compiler/src/main/java/io/github/landerlyoung/jenny/provider/proxy/impl/DefaultJennyProxyHeaderDefinitionsProvider.kt:333-345 | a helper constructor opens with the class name and closes what it opens |
| ProxyHeader.GetThis | compiler/src/main/java/io/github/landerlyoung/jenny/provider/proxy/impl/DefaultJennyProxyHeaderDefinitionsProvider.kt:320-330 | `getThis` is eleven balanced lines |
| ProxyHeader.JniHelperBlock | compiler/src/main/java/io/github/landerlyoung/jenny/provider/proxy/impl/DefaultJennyProxyHeaderDefinitionsProvider.kt:309-347 | contains `getThis` and the three constructors, from a `jobject`, a `LocalRef` and a `GlobalRef`, and closes what it opens |
| ProxyHeader.InitPre | compiler/src/main/java/io/github/landerlyoung/jenny/provider/proxy/impl/DefaultJennyProxyHeaderDefinitionsProvider.kt:349-378 | opens the state struct and leaves it open; `sInited` is atomic with a lock exactly when thread safe, plain otherwise; `sClazz` is declared |
| ProxyHeader.InitPost | compiler/src/main/java/io/github/landerlyoung/jenny/provider/proxy/impl/DefaultJennyProxyHeaderDefinitionsProvider.kt:401-418 | closes the struct and the class, ending with the outer namespaces' end |
| NativeProxyHeaderGenerator.VisibilityExecutable | compiler/src/main/java/io/github/landerlyoung/jenny/generator/proxy/NativeProxyHeaderGenerator.kt:35-41 | filtering by visibility keeps constructors and methods executable |
| NativeProxyHeaderGenerator.ListsOf | compiler/src/main/java/io/github/landerlyoung/jenny/generator/proxy/NativeProxyHeaderGenerator.kt:35-45 | the ID declarations and inline lookups get exactly the public members with `onlyPublicMethod` and all of them otherwise, in input order; the accessors get every input field as written and the filtered fields corrected |
| NativeProxyHeaderGenerator.Definitions | compiler/src/main/java/io/github/landerlyoung/jenny/generator/proxy/NativeProxyHeaderGenerator.kt:52-69 | constructors, methods and field accessors: three sections |
| NativeProxyHeaderGenerator.InitState | compiler/src/main/java/io/github/landerlyoung/jenny/generator/proxy/NativeProxyHeaderGenerator.kt:92-97 | `initPreDefinition`, the three ID declarations and `initPostDefinition`: five sections |
| NativeProxyHeaderGenerator.InlineSource | compiler/src/main/java/io/github/landerlyoung/jenny/generator/proxy/NativeProxyHeaderGenerator.kt:99-118 | a gap, the pre-content, three lookups and the post-content: six sections |
| NativeProxyHeaderGenerator.Preamble | compiler/src/main/java/io/github/landerlyoung/jenny/generator/proxy/NativeProxyHeaderGenerator.kt:48-90 | seven sections, eleven with the JNI helper |
| NativeProxyHeaderGenerator.Layout | compiler/src/main/java/io/github/landerlyoung/jenny/generator/proxy/NativeProxyHeaderGenerator.kt:47-119 | twelve sections, plus four with the JNI helper and six for a header-only proxy |
| NativeProxyHeaderGenerator.PreambleSections | compiler/src/main/java/io/github/landerlyoung/jenny/generator/proxy/NativeProxyHeaderGenerator.kt:48-90 | the preamble holds no ID declaration, no struct end and no inline source, and its definitions are the plain or helper ones |
| NativeProxyHeaderGenerator.Generate | compiler/src/main/java/io/github/landerlyoung/jenny/generator/proxy/NativeProxyHeaderGenerator.kt:33-120 | fails exactly when resolving the filtered constructors or the filtered methods fails; otherwise the layout of the resolved lists |
| NativeProxyHeaderGenerator.HelperSectionsIff | compiler/src/main/java/io/github/landerlyoung/jenny/generator/proxy/NativeProxyHeaderGenerator.kt:70-90 | the helper members and the helper flavour of the definitions are written exactly when the helper is used; the plain flavour always, right after the class preamble |
| NativeProxyHeaderGenerator.InlineSourceIff | compiler/src/main/java/io/github/landerlyoung/jenny/generator/proxy/NativeProxyHeaderGenerator.kt:99-118 | the inline pre- and post-content are written exactly for a header-only proxy, and the post-content is then last |
| NativeProxyHeaderGenerator.DefinitionsBeforeDeclarations | compiler/src/main/java/io/github/landerlyoung/jenny/generator/proxy/NativeProxyHeaderGenerator.kt:52-96 | every definition comes before every ID declaration |
| NativeProxyHeaderGenerator.DeclarationsGetFilteredLists | compiler/src/main/java/io/github/landerlyoung/jenny/generator/proxy/NativeProxyHeaderGenerator.kt:94-110 | the ID declarations and the inline lookups are given exactly the filtered lists |
| NativeProxyHeaderGenerator.DefinitionsIdsDeclared | compiler/src/main/java/io/github/landerlyoung/jenny/generator/proxy/NativeProxyHeaderGenerator.kt:52-96 | when the accessors get the filtered fields, every ID the definitions use is among those the three declarations declare |
| NativeProxyHeaderGenerator.LayoutIdsDeclared | compiler/src/main/java/io/github/landerlyoung/jenny/generator/proxy/NativeProxyHeaderGenerator.kt:47-119 | when the accessors get the filtered fields, every ID member used anywhere is declared by some section |
| NativeProxyHeaderGenerator.LayoutUsesListIds | compiler/src/main/java/io/github/landerlyoung/jenny/generator/proxy/NativeProxyHeaderGenerator.kt:47-119 | every section uses only IDs of the three declarations of the lists |
| NativeProxyHeaderGenerator.PreambleUsesListIds | compiler/src/main/java/io/github/landerlyoung/jenny/generator/proxy/NativeProxyHeaderGenerator.kt:48-90 | the preamble uses only IDs of the three declarations of the lists |
| NativeProxyHeaderGenerator.GeneratedIdsDeclared | compiler/src/main/java/io/github/landerlyoung/jenny/generator/proxy/NativeProxyHeaderGenerator.kt:33-120 | with the corrected accessors every ID member the header uses is declared in its `ClassInitState` |
| NativeProxyHeaderGenerator.AsWrittenUsesUndeclaredFieldId | compiler/src/main/java/io/github/landerlyoung/jenny/generator/proxy/NativeProxyHeaderGenerator.kt:42-96 | as written, a public-only proxy of a class whose one field is private gets a getter using `sField_<name>_0`, which no section declares |
| ProxySource.AlignedText | compiler/src/main/java/io/github/landerlyoung/jenny/provider/proxy/impl/DefaultJennyProxySourceDefinitionsProvider.kt:64-67 | every continued macro line has its backslash in one fixed column followed only by the line break |
| ProxySource.ErrorReport | compiler/src/main/java/io/github/landerlyoung/jenny/provider/proxy/impl/DefaultJennyProxySourceDefinitionsProvider.kt:70-82 | with no error logger the macro describes the pending exception; with one, the failing line starts by calling that logger |
| ProxySource.CheckNullMacro | compiler/src/main/java/io/github/landerlyoung/jenny/provider/proxy/impl/DefaultJennyProxySourceDefinitionsProvider.kt:63-91 | `JENNY_CHECK_NULL` is eight lines that open and close the same blocks, every line before `while(false)` continues the macro, and the report sits on its fourth line |
| ProxySource.InitPrefix | compiler/src/main/java/io/github/landerlyoung/jenny/provider/proxy/impl/DefaultJennyProxySourceDefinitionsProvider.kt:60 | the definitions are `inline` exactly when they go into the header |
| ProxySource.Locked | compiler/src/main/java/io/github/landerlyoung/jenny/provider/proxy/impl/DefaultJennyProxySourceDefinitionsProvider.kt:98-105 | the outer check and its lock open one more block, and the lock line is present exactly when thread safe |
| ProxySource.ClassLookup | compiler/src/main/java/io/github/landerlyoung/jenny/provider/proxy/impl/DefaultJennyProxySourceDefinitionsProvider.kt:106-116 | the class lookup opens one block that stays open for the ID lookups, with its statements one level inside |
| ProxySource.InitClazzOpening | compiler/src/main/java/io/github/landerlyoung/jenny/provider/proxy/impl/DefaultJennyProxySourceDefinitionsProvider.kt:61-116 | `initClazz` up to the open check leaves two blocks open, three when thread safe, holds the macro as its lines two to nine, and takes the lock exactly when thread safe |
| ProxySource.Preamble | compiler/src/main/java/io/github/landerlyoung/jenny/provider/proxy/impl/DefaultJennyProxySourceDefinitionsProvider.kt:41-59 | before `initClazz`: the header's include unless header-only, the logger's declaration at its place exactly when a logger is given, all at column zero and opening no block |
| ProxySource.CurrentPreContent | compiler/src/main/java/io/github/landerlyoung/jenny/provider/proxy/impl/DefaultJennyProxySourceDefinitionsProvider.kt:33-117 | the pre-content is the preamble followed by `initClazz` of the C++ class, inline exactly when header-only, reporting through the logger, and leaves two blocks open, three when thread safe |
| ProxySource.CurrentPreLocksIff | compiler/src/main/java/io/github/landerlyoung/jenny/provider/proxy/impl/DefaultJennyProxySourceDefinitionsProvider.kt:98-105 | the current pre-content takes the lock exactly when thread safe |
| ProxySource.LegacyPreContent | compiler/src/main/java/io/github/landerlyoung/jenny/provider/proxy/DefaultJennyProxyProxySourceDefinitionsProvider.kt:28-69 | the older pre-content starts with two blank lines, defines `<Simple>Proxy::initClazz`, always describes the exception, leaves two or three blocks open and locks exactly when thread safe |
| ProxySource.ReleaseClazz | compiler/src/main/java/io/github/landerlyoung/jenny/provider/proxy/impl/DefaultJennyProxySourceDefinitionsProvider.kt:147-157 | `releaseClazz` is balanced, has the guard between its two checks of `sInited`, and deletes the global reference and resets both fields inside both checks |
| ProxySource.PostContent | compiler/src/main/java/io/github/landerlyoung/jenny/provider/proxy/impl/DefaultJennyProxySourceDefinitionsProvider.kt:119-164 | the post-content closes from the depth the pre-content leaves back to zero, contains `releaseClazz` with the header-only prefix and the thread-safety guard, returns true before it and ends with the namespace's end |
| ProxySource.InitClazzClosing | compiler/src/main/java/io/github/landerlyoung/jenny/provider/proxy/impl/DefaultJennyProxySourceDefinitionsProvider.kt:131-145 | the end of `initClazz` closes the lookup check, the outer check when thread safe, and the function, with `return true` before the last brace and no lock |
| ProxySource.ReleaseLocksIff | compiler/src/main/java/io/github/landerlyoung/jenny/provider/proxy/impl/DefaultJennyProxySourceDefinitionsProvider.kt:126-130 | `releaseClazz` holds the lock line exactly when thread safe |
| ProxySource.PostLocksIff | compiler/src/main/java/io/github/landerlyoung/jenny/provider/proxy/impl/DefaultJennyProxySourceDefinitionsProvider.kt:119-164 | post-content takes the lock exactly when thread safe |
| ProxySource.InitClazzBalancedIff | compiler/src/main/java/io/github/landerlyoung/jenny/provider/proxy/impl/DefaultJennyProxySourceDefinitionsProvider.kt:98-105 | pre- and post-content with any flat ID lookups between them balance exactly when they were asked for the same thread safety |
| ProxySource.Resolve | compiler/src/main/java/io/github/landerlyoung/jenny/provider/proxy/impl/DefaultJennyProxySourceDefinitionsProvider.kt:169 | the descriptors resolve exactly when each element's binary signature can be computed, and then give one lookup per element in order, each with its element's signature |
| ProxySource.MethodCall | compiler/src/main/java/io/github/landerlyoung/jenny/provider/proxy/impl/DefaultJennyProxySourceDefinitionsProvider.kt:185 | a method ID is looked up with `GetStaticMethodID` exactly when the method is static |
| ProxySource.FieldCall | compiler/src/main/java/io/github/landerlyoung/jenny/provider/proxy/impl/DefaultJennyProxySourceDefinitionsProvider.kt:202 | a field ID is looked up with `GetStaticFieldID` exactly when the field is static |
| ProxySource.ConstructorLookups | compiler/src/main/java/io/github/landerlyoung/jenny/provider/proxy/impl/DefaultJennyProxySourceDefinitionsProvider.kt:166-180 | each constructor is looked up with `GetMethodID` under `<init>` into the member the header declares for it |
| ProxySource.MethodLookups | compiler/src/main/java/io/github/landerlyoung/jenny/provider/proxy/impl/DefaultJennyProxySourceDefinitionsProvider.kt:182-197 | each method is looked up by its Java name, statically when static, into the member the header declares for it |
| ProxySource.FieldLookups | compiler/src/main/java/io/github/landerlyoung/jenny/provider/proxy/impl/DefaultJennyProxySourceDefinitionsProvider.kt:199-214 | each field is looked up by its Java name, statically when static, into the member named by its position that the header declares |
| ProxySource.LookupLines | compiler/src/main/java/io/github/landerlyoung/jenny/provider/proxy/impl/DefaultJennyProxySourceDefinitionsProvider.kt:171-177 | one lookup is its assignment, its null check and a blank line, none opening a block |
| ProxySource.LookupsLines | compiler/src/main/java/io/github/landerlyoung/jenny/provider/proxy/impl/DefaultJennyProxySourceDefinitionsProvider.kt:166-180 | the lookups give three lines each, in order, then a blank line, and open no block |
| ProxySource.IdInit | compiler/src/main/java/io/github/landerlyoung/jenny/provider/proxy/impl/DefaultJennyProxySourceDefinitionsProvider.kt:166-214 | the ID lookups succeed exactly when all descriptors resolve, and then are the lookup lines at the body's indentation |
| ProxySource.FieldLookupsAsWrittenUnsigned | compiler/src/main/java/io/github/landerlyoung/jenny/utils/Signature.kt:55-77 | as written, field lookups fail exactly when a field's array type has no component type, and otherwise every field ID gets an empty signature |
| ProxySource.FieldLookupsFixedTyped | compiler/src/main/java/io/github/landerlyoung/jenny/provider/proxy/impl/DefaultJennyProxySourceDefinitionsProvider.kt:199-214 | with the corrected signature every field ID is looked up with a descriptor that reads back as the field's own type |
| ProxySource.MethodLookupsFixedTyped | compiler/src/main/java/io/github/landerlyoung/jenny/provider/proxy/impl/DefaultJennyProxySourceDefinitionsProvider.kt:182-197 | with the corrected signature every method ID is looked up with a descriptor that reads back as its parameter and return types |
| NativeProxySourceGenerator.Pairs | compiler/src/main/java/io/github/landerlyoung/jenny/generator/proxy/NativeProxySourceGenerator.kt:37-38 | one `(element, count)` pair per resolved record, in order |
| NativeProxySourceGenerator.LookedUpFields | compiler/src/main/java/io/github/landerlyoung/jenny/generator/proxy/NativeProxySourceGenerator.kt:60 | as written the source looks up every input field; corrected, the fields filtered like the constructors and methods |
| NativeProxySourceGenerator.LookupsFrom | compiler/src/main/java/io/github/landerlyoung/jenny/generator/proxy/NativeProxySourceGenerator.kt:58-60 | each constructor, method and field lookup fills the member named after its element and its count or position |
| NativeProxySourceGenerator.LookupsOf | compiler/src/main/java/io/github/landerlyoung/jenny/generator/proxy/NativeProxySourceGenerator.kt:34-38 | the lookups exist exactly when overload resolution of the filtered constructors and of the filtered methods succeeds, and then number their members by position in the filtered lists |
| NativeProxySourceGenerator.NumberedMembers | compiler/src/main/java/io/github/landerlyoung/jenny/generator/proxy/NativeProxySourceGenerator.kt:37-60 | records numbered in list order give lookups whose members are numbered by position |
| NativeProxySourceGenerator.Opening | compiler/src/main/java/io/github/landerlyoung/jenny/generator/proxy/NativeProxySourceGenerator.kt:41-50 | the notice, the header's include and the namespace open no block, and the notice comes first |
| NativeProxySourceGenerator.OpeningsDiffer | compiler/src/main/java/io/github/landerlyoung/jenny/generator/proxy/NativeProxySourceGenerator.kt:54-65 | whether `initClazz` or `releaseClazz` is `inline` can be read off its opening line |
| NativeProxySourceGenerator.Emit | compiler/src/main/java/io/github/landerlyoung/jenny/generator/proxy/NativeProxySourceGenerator.kt:40-69 | the file exists exactly when every constructor, method and field descriptor can be computed |
| NativeProxySourceGenerator.EmitShape | compiler/src/main/java/io/github/landerlyoung/jenny/generator/proxy/NativeProxySourceGenerator.kt:40-69 | a written file is balanced, starts with the opening lines, defines `initClazz` without `inline`, and defines `releaseClazz` without `inline` exactly when corrected |
| NativeProxySourceGenerator.File | compiler/src/main/java/io/github/landerlyoung/jenny/generator/proxy/NativeProxySourceGenerator.kt:51-68 | around any flat ID lookups the file is balanced, starts with the opening lines, has `initClazz` non-inline, and has `releaseClazz` non-inline exactly when corrected |
| NativeProxySourceGenerator.FileFacts | compiler/src/main/java/io/github/landerlyoung/jenny/generator/proxy/NativeProxySourceGenerator.kt:51-68 | the older emitter's pre-content for a source file and its post-content for a header or a source file, around flat lookups, give a balanced file whose `releaseClazz` is inline exactly as written |
| NativeProxySourceGenerator.PreOpens | compiler/src/main/java/io/github/landerlyoung/jenny/generator/proxy/NativeProxySourceGenerator.kt:52-56 | pre-content asked for a source file opens a non-inline `initClazz` on its third line and leaves it open |
| NativeProxySourceGenerator.PostReleases | compiler/src/main/java/io/github/landerlyoung/jenny/generator/proxy/NativeProxySourceGenerator.kt:61-67 | post-content opens `releaseClazz`, inline exactly when asked for a header, fourteen lines from its end, and closes everything |
| NativeProxySourceGenerator.IdInits | compiler/src/main/java/io/github/landerlyoung/jenny/generator/proxy/NativeProxySourceGenerator.kt:58-60 | the three lookup parts exist exactly when all their descriptors resolve, and open no block |
| NativeProxySourceGenerator.Generate | compiler/src/main/java/io/github/landerlyoung/jenny/generator/proxy/NativeProxySourceGenerator.kt:33-70 | `generate` succeeds exactly when its lookups resolve and the file can be written, and then is that file |
| NativeProxySourceGenerator.Assembled | compiler/src/main/java/io/github/landerlyoung/jenny/generator/proxy/NativeProxySourceGenerator.kt:40-69 | flat opening lines, pre-content, flat lookups and post-content of the same thread safety form a balanced file, with the pre-content's third line and the post-content's `releaseClazz` line at fixed offsets |
| NativeProxySourceGenerator.HeaderDeclaresInInitState | compiler/src/main/java/io/github/landerlyoung/jenny/generator/proxy/NativeProxyHeaderGenerator.kt:92-97 | the IDs counted as declared are exactly those some section of the header's `ClassInitState` declares |
| NativeProxySourceGenerator.ConstructorMembers | compiler/src/main/java/io/github/landerlyoung/jenny/generator/proxy/NativeProxySourceGenerator.kt:58 | constructor lookups numbered by position assign exactly the constructor IDs the header declares |
| NativeProxySourceGenerator.MethodMembers | compiler/src/main/java/io/github/landerlyoung/jenny/generator/proxy/NativeProxySourceGenerator.kt:59 | method lookups numbered by position assign exactly the method IDs the header declares |
| NativeProxySourceGenerator.FieldMembers | compiler/src/main/java/io/github/landerlyoung/jenny/generator/proxy/NativeProxySourceGenerator.kt:60 | field lookups numbered by position assign exactly the field IDs the header declares |
| NativeProxySourceGenerator.MembersDeclared | compiler/src/main/java/io/github/landerlyoung/jenny/generator/proxy/NativeProxySourceGenerator.kt:58-60 | lookups numbered by position assign exactly the IDs the header declares for the same three lists |
| NativeProxySourceGenerator.AssignsWhatHeaderDeclares | compiler/src/main/java/io/github/landerlyoung/jenny/generator/proxy/NativeProxySourceGenerator.kt:35-60 | with fields filtered like the constructors and methods, the source assigns exactly the ID members the header, with the same `onlyPublicMethod`, declares |
| NativeProxySourceGenerator.AsWrittenAssignsUndeclaredField | compiler/src/main/java/io/github/landerlyoung/jenny/generator/proxy/NativeProxySourceGenerator.kt:60 | as written, for a class whose one member is a private field, a proxy of public members assigns `sField_<name>_0`, which its header never declares |
| NativeProxySourceGenerator.PublicOnlyDeclaresNone | compiler/src/main/java/io/github/landerlyoung/jenny/generator/proxy/NativeProxyHeaderGenerator.kt:35-45 | a proxy of public members, for a class whose one member is a private field, declares no ID |
| NativeProxySourceGenerator.ReleaseInlineAsWritten | compiler/src/main/java/io/github/landerlyoung/jenny/generator/proxy/NativeProxySourceGenerator.kt:52-67 | as written, one `.cpp` defines `initClazz` without `inline` and `releaseClazz` with it |
| Fusion.Calls | compiler/src/main/java/io/github/landerlyoung/jenny/FusionProxyGenerator.kt:77-79 | one indented `initClazz` call per class, in order |
| Fusion.Content | compiler/src/main/java/io/github/landerlyoung/jenny/FusionProxyGenerator.kt:45-92 | the text starts with the notice and the `#pragma once`/`jni.h` preamble, and ends with the `;` closing the expression followed by the function's and namespace's end |
| Fusion.IncludesReadBack | compiler/src/main/java/io/github/landerlyoung/jenny/FusionProxyGenerator.kt:56-63 | what lies between the preamble and the namespace reads back as one include per class, in order |
| Fusion.ExpressionReadBack | compiler/src/main/java/io/github/landerlyoung/jenny/FusionProxyGenerator.kt:65-80 | what lies between the function's opening and the first `;` reads back as the classes' calls joined by `&&` lines, and is empty for no classes |
| Fusion.IncludeCount | compiler/src/main/java/io/github/landerlyoung/jenny/FusionProxyGenerator.kt:45-63 | every `#` of the text is the notice's, one of the preamble's two, or one per class |
| Fusion.ConjunctionCount | compiler/src/main/java/io/github/landerlyoung/jenny/FusionProxyGenerator.kt:77-79 | n classes give n - 1 `&&` joins beyond what the notice holds |
| Fusion.ExpressionAmpersands | compiler/src/main/java/io/github/landerlyoung/jenny/FusionProxyGenerator.kt:77-79 | the expression of n classes holds exactly 2(n - 1) ampersands |
| Fusion.CallsSnoc | compiler/src/main/java/io/github/landerlyoung/jenny/FusionProxyGenerator.kt:77-79 | a class added last adds one `&&` line and its call at the end of the expression |
| Fusion.AppendsLast | compiler/src/main/java/io/github/landerlyoung/jenny/FusionProxyGenerator.kt:56-80 | a class added last puts its include last among the includes and its call last in the expression; nothing else changes |
| ProxyFusion.ExistingBlock | compiler/src/main/java/io/github/landerlyoung/jenny/generator/proxy/FusionProxyGenerator.kt:68 | the expression read back from an earlier file is trimmed |
| ProxyFusion.Modified | compiler/src/main/java/io/github/landerlyoung/jenny/generator/proxy/FusionProxyGenerator.kt:54 | the part of an earlier file that is kept (corrected): exactly the text up to and including its last `.h"`, then a line break; only a line break when there is none |
| ProxyFusion.Content | compiler/src/main/java/io/github/landerlyoung/jenny/generator/proxy/FusionProxyGenerator.kt:42-80 | the text written always carries both markers, ends with the end marker, and has the new class's call right before it |
| ProxyFusion.Generate | compiler/src/main/java/io/github/landerlyoung/jenny/generator/proxy/FusionProxyGenerator.kt:35-40 | nothing is written exactly when the name is empty; otherwise the text carries both markers |
| ProxyFusion.Includes | compiler/src/main/java/io/github/landerlyoung/jenny/generator/proxy/FusionProxyGenerator.kt:47-61 | one include line per class, in order |
| ProxyFusion.Calls | compiler/src/main/java/io/github/landerlyoung/jenny/generator/proxy/FusionProxyGenerator.kt:73-75 | one `initClazz` call per class, in order |
| ProxyFusion.CallShape | compiler/src/main/java/io/github/landerlyoung/jenny/generator/proxy/FusionProxyGenerator.kt:73 | a class's call is non-empty, trimmed, and holds no `{`, `;` or `"` |
| ProxyFusion.InitBodyTrims | compiler/src/main/java/io/github/landerlyoung/jenny/generator/proxy/FusionProxyGenerator.kt:68 | reading the expression back from a file for some classes gives their calls joined by the separator |
| ProxyFusion.FusedBlockReadsBack | compiler/src/main/java/io/github/landerlyoung/jenny/generator/proxy/FusionProxyGenerator.kt:66-69 | a file made for some classes carries both markers and its expression reads back as their calls in order |
| ProxyFusion.HeadOfFused | compiler/src/main/java/io/github/landerlyoung/jenny/generator/proxy/FusionProxyGenerator.kt:53-61 | as written and corrected, an earlier file made by the generator keeps all its includes and gains the new one last |
| ProxyFusion.BodyMerges | compiler/src/main/java/io/github/landerlyoung/jenny/generator/proxy/FusionProxyGenerator.kt:66-73 | with both markers and a non-empty earlier expression, the new call follows it after the `&&` separator |
| ProxyFusion.BodyOfFused | compiler/src/main/java/io/github/landerlyoung/jenny/generator/proxy/FusionProxyGenerator.kt:66-73 | the expression of an earlier file for some classes gains the new call at its end |
| ProxyFusion.Accumulates | compiler/src/main/java/io/github/landerlyoung/jenny/generator/proxy/FusionProxyGenerator.kt:42-80 | running once more on a file made for some classes gives the file for them and the new class, as written and corrected alike |
| ProxyFusion.FirstRun | compiler/src/main/java/io/github/landerlyoung/jenny/generator/proxy/FusionProxyGenerator.kt:44-52 | without an earlier file, one class makes the file for that class alone |
| ProxyFusion.StepExtends | compiler/src/main/java/io/github/landerlyoung/jenny/generator/proxy/FusionProxyGenerator.kt:35-40 | generating one more class into a file made for earlier classes gives the file for all of them |
| ProxyFusion.RunBuildsFused | compiler/src/main/java/io/github/landerlyoung/jenny/generator/proxy/FusionProxyGenerator.kt:35-40 | starting without a file, generating classes one after the other leaves one include per class in order and one call per class in the expression |
| ProxyFusion.JennyRunBuildsFused | compiler/src/main/java/io/github/landerlyoung/jenny/generator/proxy/FusionProxyGenerator.kt:35-80 | the same with the generator's own markers, header and separator |
| ProxyFusion.ModifiedAgrees | compiler/src/main/java/io/github/landerlyoung/jenny/generator/proxy/FusionProxyGenerator.kt:54 | when an earlier file's tail after its last `.h"` is non-empty and occurs nowhere before it, the replacement as written keeps what the corrected one keeps |
| ProxyFusion.EmptyTailInterleaves | compiler/src/main/java/io/github/landerlyoung/jenny/generator/proxy/FusionProxyGenerator.kt:54 | as written, an earlier file ending in `.h"` has an empty tail, and replacing the empty string puts a line break before every character and after the last, doubling the file instead of keeping it |
| ProxyFusion.EmptyTailExample | compiler/src/main/java/io/github/landerlyoung/jenny/generator/proxy/FusionProxyGenerator.kt:54 | the file `.h"` alone turns into five lines as written, and into itself and a line break corrected |

## Left out

- Writing files: `FileHandler`, the `use`/`writeText` wrappers, and reading an earlier fusion file. The fusion models take the earlier file's content as a parameter, and the empty string stands for a missing file.
- Annotation processing: the processors, their configuration and dispatch, and the reflection and `javax.lang.model` adapters under `element/`. `Elements` gives the few facts the core reads from an element as a datatype.
- The JTE template providers and `ProxyProviderFactory.kt`. Of the provider types only the selection in `ProxyProviderType.kt` is modelled.
- `utils/JennySourceDefinitionsProvider.kt` is not part of this model. `NativeProxySourceGenerator` calls its three-argument `generateSourcePreContent`. The text of `provider/proxy/DefaultJennyProxyProxySourceDefinitionsProvider.kt`, which has the same signature, stands in for it (`ProxySource.Legacy`). `NativeProxyHeaderGenerator` likewise calls `utils/JennyHeaderDefinitionsProvider`, whose proxy sections are modelled as the `Section` datatype.
- The constants and helpers whose text is not shown are parameters: `Constants.AUTO_GENERATE_NOTICE` (the `notice` parameter), `Constants.CPP_RESERVED_WORS`, the record's default postfix and the overload key (`NativeProxyHeaderGenerator.Resolution`).
- The value an element's `call()` reads and `Number.toString()` are oracles. `Params.RenderValue` takes the rendered text as given.
- Brace balance is counted over the lines' opening and closing marks (`Lines.Walk`), not over the characters emitted. A `{` or `}` inside a line's code, or inside text handed in from outside such as a namespace's start text or the notice, is not counted.
- Ext.ToCamelCase: only ASCII letters are title-cased. Unicode title-casing, which can change the length (`ß` becomes `Ss`), is not modelled.
- Ext.JniCall: the default locale is taken to upper-case ASCII like `Locale.US`. A Turkish default locale would turn `i` into `İ`.
- NativeDefs.ModifierSetText: lists a method's modifiers in the declaration order of `JennyModifier`. The source's set lists them in the order the element reports them, which `Elements.Element` does not record.
- `utils/ext.kt:55` declares `toJniTypeString(useJniHelper, byPass)` without default values, yet `utils/NativeHeaderDefinitions.kt:56,105,182` call it with no argument and `utils/ParametersProvider.kt:77` with one. The model reads the missing arguments as `false`: without the helper the text is the JNI return type (`Ext.JniReturnType`), and `byPass` is `false` in the one-argument call.
- `generator/glue/NativeGlueHeaderGenerator.kt:24-27` takes a `provider.JennyHeaderDefinitionsProvider`, which is not part of this model, and `generator/glue/NativeGlueGenerator.kt:33` constructs the generator without one. The glue header is modelled with the glue provider `DefaultJennyGlueHeaderDefinitionsProvider` (`GlueDefs`) in its place.
- An executable read from a type mirror has its method type as `type`, and that type's JNI type is `jobject`. `utils/NativeHeaderDefinitions.kt:98,104` and `provider/glue/DefaultJennyGlueHeaderDefinitionsProvider.kt:99,105` read it for the comment and the declared JNI return type. The model writes what they write from `Element.etype` as given and does not claim this as a finding. The corrected return statement (`NativeDefs.ReturnStatementOf`) reads the return type.
- ProxyFusion.EmptyTailInterleaves: the line breaks go between characters. Kotlin's `replace("", "\n")` puts them between UTF-16 code units, so it also splits a character from U+10000 up into its two surrogates. For a file of such characters the source's text is longer than the model's `2 * |existing| + 1`. `ProxyFusion.ModifiedAsWritten` has the same gap.
- `NativeHeaderDefinitions.getHeaderInit` and `getConstantsDefinitions` have no caller among the generators and are not modelled. `getMethodsDefinitions` is.
- `JennyNameProvider.getNativeMethodName`, which the glue provider calls, is absent from `utils/JennyNameProvider.kt`. It is modelled by `HeaderDefs.NativeMethodName`, the same rule as `JennyHeaderDefinitionsProvider.getNativeMethodName`.
- `FieldSetterGetterFinder.hasGetterSetter` is not part of this model. The proxy header uses `HeaderDefs.HasGetterSetter`, the same selection in `utils/JennyHeaderDefinitionsProvider.kt`.
- `generator/NativeHeaderGenerator.kt` does not compile (a missing return), and `NativeGlueSourceGenerator.kt` only concatenates `NativeDefs` text. Neither is modelled.
- Fusion.Content: with no proxy classes the batch fusion header writes `bool success = ` followed directly by `;`, which is not valid C++. `Fusion.ExpressionReadBack` states the empty expression. This is not claimed as a finding, because the caller of this generator is commented out.
- What the generated C++ does at run time (locking, JNI calls, reference management) is not modelled. The model is about its text.

## Findings

| source | as written | input that shows it | evidently intended | confidence | as-written member | corrected member |
|---|---|---|---|---|---|---|
| compiler/src/main/java/io/github/landerlyoung/jenny/utils/Signature.kt:46-50 | an object type's name is read from the original type, so an array of objects keeps its `[]` inside the descriptor | `String[]` gives `[Ljava/lang/String[];` | `[Ljava/lang/String;`, the JVM field descriptor | not executed | Descriptors.ObjectArrayDescriptorAsWritten | Descriptors.DescriptorFixedEncodes |
| compiler/src/main/java/io/github/landerlyoung/jenny/utils/Signature.kt:73-74 | a field's descriptor is computed and then dropped, so its signature is empty | an `int` field gives `""` | `I`, the field's descriptor | not executed | Descriptors.FieldSignatureEmpty | Descriptors.FieldSignatureFixedMeaning |
| compiler/src/main/java/io/github/landerlyoung/jenny/provider/proxy/impl/DefaultJennyProxySourceDefinitionsProvider.kt:199-214 | through the empty field signature, every field ID is looked up with an empty signature | any field: `GetFieldID(state.sClazz, "f", "")` | the field's descriptor as the last argument | not executed | ProxySource.FieldLookupsAsWrittenUnsigned | ProxySource.FieldLookupsFixedTyped |
| compiler/src/main/java/io/github/landerlyoung/jenny/generator/HeaderData.kt:58-60 | `fields(x)` writes the `constants` slot | a class with one non-constant field: after `jennyClazz` it is a constant and `fields` is empty | `fields(x)` sets `fields` | not executed | HeaderDataCopy.FieldsLandInConstants | HeaderDataCopy.WithFields |
| compiler/src/main/java/io/github/landerlyoung/jenny/utils/ext.kt:78-80 | `stripNonASCII` writes `_` and five hex digits of the code point, so a character from U+10000 up produces text that an ASCII name can also produce | the method names `\U{1F600}` and `_f600` both mangle to `_1f600` | distinct names mangle distinctly (UTF-16 units as `_0xxxx`, as section "Resolving Native Method Names" of the JNI Specification prescribes) | not executed | Jni.MangleAsWrittenCollides | Jni.MangleMethodInjective |
| compiler/src/main/java/io/github/landerlyoung/jenny/provider/glue/DefaultJennyGlueHeaderDefinitionsProvider.kt:45 | `$$` in the raw string puts a literal `$` before the slash name | class `a.B` gives `FULL_CLASS_NAME = u8"$a/B"` | `u8"a/B"`, a name `FindClass` accepts | not executed | GlueDefs.FullClassNameAsWrittenIsNotTheClass | GlueDefs.HeaderInitForGlueNamesClass |
| compiler/src/main/java/io/github/landerlyoung/jenny/utils/NativeHeaderDefinitions.kt:147-166 | the `void` check compares a `JennyType` with `Void.TYPE`, which never holds | a `void` native method's stub gets `return nullptr;` | no return statement | not executed | NativeDefs.VoidStubReturnsValue | HeaderDefs.ReturnStatement |
| compiler/src/main/java/io/github/landerlyoung/jenny/utils/NativeHeaderDefinitions.kt:108 | source mode qualifies the function with the dotted Java class name | class `a.B` gives `a.B::Java_a_B_f(...)` | `B::...`, the C++ class the glue declares | not executed | NativeDefs.DefinitionAsWrittenDotted | NativeDefs.DefinitionText |
| compiler/src/main/java/io/github/landerlyoung/jenny/utils/NativeHeaderDefinitions.kt:84-95 | header mode opens `extern "C" {` and never closes it | any class in header mode: the namespace end leaves one block open | the closing `#ifdef __cplusplus` / `}` / `#endif` the glue provider writes | not executed | NativeDefs.HeaderModeLeavesExternOpen | NativeDefs.ClosedDefinitionsBalanced |
| compiler/src/main/java/io/github/landerlyoung/jenny/provider/ParametersProvider.kt:33-39 | the outer-instance parameter follows the receiver with no separator | a method of a nested class: `JNIEnv* env, jobject thizjobject enclosingClass` | `..., jobject thiz, jobject enclosingClass` | not executed | Params.LegacyMissingSeparator | Params.LegacyFixedNested |
| compiler/src/main/java/io/github/landerlyoung/jenny/provider/proxy/impl/DefaultJennyProxyHeaderDefinitionsProvider.kt:260-275 | the getter opens `reinterpret_cast<T>(` and, with the JNI helper, the `T(` wrap of a reference type, and closes neither | an instance `String` field without the JNI helper: `return reinterpret_cast<jstring>(env->GetObjectField(thiz, …);`, one `)` short | one `)` per opener | not executed | ProxyHeader.StringGetterUnclosed | ProxyHeader.GetterParens |
| compiler/src/main/java/io/github/landerlyoung/jenny/generator/proxy/NativeProxyHeaderGenerator.kt:61-62 | field accessors are built from all input fields, while field IDs are declared for the filtered ones | `onlyPublicMethod` and one private field: the getter uses `sField_<name>_0`, which is never declared | accessors over the filtered fields | not executed | NativeProxyHeaderGenerator.AsWrittenUsesUndeclaredFieldId | NativeProxyHeaderGenerator.GeneratedIdsDeclared |
| compiler/src/main/java/io/github/landerlyoung/jenny/generator/proxy/NativeProxySourceGenerator.kt:60 | field IDs are looked up for all input fields, while the header declares them for the filtered ones | `onlyPublicMethod` and one private field: the source assigns `sField_<name>_0`, which the header never declares | lookups over the filtered fields | not executed | NativeProxySourceGenerator.AsWrittenAssignsUndeclaredField | NativeProxySourceGenerator.AssignsWhatHeaderDeclares |
| compiler/src/main/java/io/github/landerlyoung/jenny/generator/proxy/NativeProxySourceGenerator.kt:54-65 | pre-content is asked for a source file and post-content for a header | any class: the `.cpp` defines `initClazz` plainly and `releaseClazz` as `inline` | both asked for a source file, neither `inline` | not executed | NativeProxySourceGenerator.ReleaseInlineAsWritten | NativeProxySourceGenerator.EmitShape |
| compiler/src/main/java/io/github/landerlyoung/jenny/generator/proxy/FusionProxyGenerator.kt:54 | the text after the last `.h"` is replaced everywhere by a line break; when that text is empty, Kotlin's `replace("")` inserts a line break between every two characters | an earlier file `.h"` becomes `\n.\nh\n"\n` | keep the file up to its last `.h"` and add one line break | not executed | ProxyFusion.EmptyTailInterleaves | ProxyFusion.Modified |
| compiler/src/main/java/io/github/landerlyoung/jenny/element/model/type/JennyKind.kt:52 | `Array::class.java` is `java.lang.reflect.Array`, so array classes fall through to DECLARED | `int[].class` is DECLARED | ARRAY for array classes | not executed | Kinds.ReflectionArrayMisclassified | Kinds.FromReflectionTypeFixed |
| compiler/src/main/java/io/github/landerlyoung/jenny/element/model/type/JennyKind.kt:64-79 | the mirror mapping has no FLOAT case | a `float` type mirror is UNKNOWN | FLOAT, as the reflection route gives | not executed | Kinds.MirrorFloatUnknown | Kinds.FromMirrorTypeFixed |
