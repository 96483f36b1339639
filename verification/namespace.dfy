/**
 * `NamespaceHelper` and `CppFileHelper`: a C++ namespace written as
 * "a::b::c", the namespace blocks opened and closed around generated code,
 * and the file names derived from it.
 */
module Namespaces {
  import opened Text

  /** A `NamespaceHelper`: the raw namespace string it was given. */
  datatype NamespaceHelper = NamespaceHelper(namespace: string)

  function TrimAll(parts: seq<string>): (r: seq<string>)
    ensures |r| == |parts|
    ensures forall i | 0 <= i < |r| :: r[i] == Trim(parts[i])
    ensures forall x | x in r :: IsTrimmed(x)
  {
    if |parts| == 0 then [] else [Trim(parts[0])] + TrimAll(parts[1..])
  }

  function NonEmpty(parts: seq<string>): (r: seq<string>)
    ensures forall x | x in r :: x in parts && x != ""
    ensures forall x | x in parts && x != "" :: x in r
    ensures (forall i | 0 <= i < |parts| :: parts[i] != "") ==> r == parts
  {
    if |parts| == 0 then []
    else if parts[0] == "" then NonEmpty(parts[1..])
    else [parts[0]] + NonEmpty(parts[1..])
  }

  /** The `namespaces` property: split on "::", trimmed, empty pieces dropped. */
  function Components(raw: string): (r: seq<string>)
    ensures forall c | c in r :: c != "" && IsTrimmed(c)
  {
    NonEmpty(TrimAll(SplitColons(raw)))
  }

  /** `fileNamePrefix`: the components joined by '_', plus a trailing '_' unless there are none. */
  function FileNamePrefix(h: NamespaceHelper): (r: string)
    ensures r == "" <==> Components(h.namespace) == []
    ensures r != "" ==> r[|r| - 1] == '_'
  {
    Prefix(Components(h.namespace))
  }

  /** Non-empty components joined by '_', with a trailing '_' when there are any. */
  function Prefix(comps: seq<string>): (r: string)
    requires forall c | c in comps :: c != ""
    ensures r == "" <==> comps == []
    ensures r != "" ==> r[|r| - 1] == '_'
  {
    if |comps| > 0 then
      assert comps[0] in comps;
      JoinNonEmpty(comps, "_");
      Join(comps, "_") + "_"
    else ""
  }

  lemma JoinNonEmpty(parts: seq<string>, sep: string)
    requires |parts| > 0 && parts[0] != ""
    ensures Join(parts, sep) != ""
  {
  }

  /** `namespaceNotation`, like "std::chrono". */
  function Notation(h: NamespaceHelper): string
  {
    Join(Components(h.namespace), "::")
  }

  /**
   * The notation is already normal: read back as a namespace it has the same
   * components, provided no component holds a ':' of its own.
   */
  lemma NotationRoundTrip(h: NamespaceHelper)
    requires forall c | c in Components(h.namespace) :: ':' !in c
    ensures Components(Notation(h)) == Components(h.namespace)
  {
    var comps := Components(h.namespace);
    assert forall i | 0 <= i < |comps| :: comps[i] in comps;
    ComponentsOfJoin(comps);
  }

  lemma ComponentsOfJoin(comps: seq<string>)
    requires forall i | 0 <= i < |comps| :: comps[i] != "" && IsTrimmed(comps[i]) && ':' !in comps[i]
    ensures Components(Join(comps, "::")) == comps
  {
    if |comps| == 0 {
      EmptyHasNoComponents();
    } else {
      SplitJoinColons(comps);
      NormalFixed(comps);
    }
  }

  lemma EmptyHasNoComponents()
    ensures Components("") == []
  {
    assert SplitColons("") == [""];
    assert TrimAll([""]) == [Trim("")];
  }

  /** Trimmed, non-empty pieces pass through trimming and filtering unchanged. */
  lemma NormalFixed(comps: seq<string>)
    requires forall i | 0 <= i < |comps| :: comps[i] != "" && IsTrimmed(comps[i])
    ensures NonEmpty(TrimAll(comps)) == comps
  {
    var t := TrimAll(comps);
    forall i | 0 <= i < |comps| ensures t[i] == comps[i] {
      TrimIdempotent(comps[i]);
    }
    assert t == comps;
  }

  /** Normalising twice is normalising once. */
  lemma NotationIdempotent(h: NamespaceHelper)
    requires forall c | c in Components(h.namespace) :: ':' !in c
    ensures Notation(NamespaceHelper(Notation(h))) == Notation(h)
  {
    NotationRoundTrip(h);
  }

  function NamespaceOpeners(comps: seq<string>): (r: seq<string>)
    ensures |r| == |comps|
    ensures forall i | 0 <= i < |comps| :: r[i] == "namespace " + comps[i] + " {"
  {
    if |comps| == 0 then [] else ["namespace " + comps[0] + " {"] + NamespaceOpeners(comps[1..])
  }

  /** `beginNamespace()`: one "namespace X {" per component, separated by spaces. */
  function BeginNamespace(h: NamespaceHelper): string
  {
    Join(NamespaceOpeners(Components(h.namespace)), " ")
  }

  function Closers(n: nat): (r: seq<string>)
    ensures |r| == n
    ensures forall i | 0 <= i < n :: r[i] == "}"
  {
    if n == 0 then [] else ["}"] + Closers(n - 1)
  }

  const EndOfNamespaceComment: string := " // endof namespace "

  /** `endNamespace()`: one "}" per component, then a comment naming the namespace. */
  function EndNamespace(h: NamespaceHelper): string
  {
    var comps := Components(h.namespace);
    if |comps| > 0 then Join(Closers(|comps|), " ") + EndOfNamespaceComment + Join(comps, "::")
    else ""
  }

  /** The opening and the closing text are present together. */
  lemma BeginEndTogether(h: NamespaceHelper)
    ensures BeginNamespace(h) == "" <==> EndNamespace(h) == ""
    ensures BeginNamespace(h) == "" <==> Components(h.namespace) == []
  {
    var comps := Components(h.namespace);
    if |comps| > 0 {
      var o := NamespaceOpeners(comps);
      assert o[0] != "";
      JoinNonEmpty(o, " ");
      assert |EndNamespace(h)| >= |EndOfNamespaceComment| > 0;
    }
  }

  // ------------------------------------------------------------ brace balance

  lemma OpenerBraces(x: string)
    requires '{' !in x
    ensures Count("namespace " + x + " {", '{') == 1
  {
    OpenerPieces();
    CountAppend("namespace ", x, '{');
    CountAppend("namespace " + x, " {", '{');
  }

  lemma OpenerPieces()
    ensures Count("namespace ", '{') == 0 && Count(" {", '{') == 1
  {
    assert '{' !in "namespace ";
    assert " {"[1..] == "{";
  }

  lemma {:induction false} OpenersBraces(comps: seq<string>)
    requires forall i | 0 <= i < |comps| :: '{' !in comps[i]
    ensures SumCounts(NamespaceOpeners(comps), '{') == |comps|
  {
    if |comps| > 0 {
      OpenerBraces(comps[0]);
      OpenersBraces(comps[1..]);
      assert NamespaceOpeners(comps)[1..] == NamespaceOpeners(comps[1..]);
    }
  }

  lemma {:induction false} ClosersBraces(n: nat)
    ensures SumCounts(Closers(n), '}') == n
  {
    if n > 0 {
      ClosersBraces(n - 1);
      assert Closers(n)[1..] == Closers(n - 1);
    }
  }

  /**
   * `endNamespace` closes exactly the blocks `beginNamespace` opens, when the
   * namespace names themselves hold no braces.
   */
  lemma NamespaceBracesBalance(h: NamespaceHelper)
    requires forall c | c in Components(h.namespace) :: '{' !in c && '}' !in c
    ensures Count(BeginNamespace(h), '{') == |Components(h.namespace)|
    ensures Count(EndNamespace(h), '}') == |Components(h.namespace)|
  {
    var comps := Components(h.namespace);
    assert forall i | 0 <= i < |comps| :: comps[i] in comps;
    BeginBraces(comps);
    if |comps| > 0 {
      EndBraces(comps);
    }
  }

  lemma BeginBraces(comps: seq<string>)
    requires forall i | 0 <= i < |comps| :: '{' !in comps[i]
    ensures Count(Join(NamespaceOpeners(comps), " "), '{') == |comps|
  {
    CountJoin(NamespaceOpeners(comps), " ", '{');
    assert Count(" ", '{') == 0;
    OpenersBraces(comps);
  }

  lemma EndBraces(comps: seq<string>)
    requires |comps| > 0
    requires forall i | 0 <= i < |comps| :: '}' !in comps[i]
    ensures Count(Join(Closers(|comps|), " ") + EndOfNamespaceComment + Join(comps, "::"), '}') == |comps|
  {
    ClosersJoined(|comps|);
    NamesJoined(comps);
    CommentHasNoBrace();
    CountThree(Join(Closers(|comps|), " "), EndOfNamespaceComment, Join(comps, "::"), '}');
  }

  lemma ClosersJoined(n: nat)
    ensures Count(Join(Closers(n), " "), '}') == n
  {
    SeparatorsHaveNoBrace();
    CountJoin(Closers(n), " ", '}');
    ClosersBraces(n);
  }

  lemma NamesJoined(comps: seq<string>)
    requires forall i | 0 <= i < |comps| :: '}' !in comps[i]
    ensures Count(Join(comps, "::"), '}') == 0
  {
    SeparatorsHaveNoBrace();
    CountJoin(comps, "::", '}');
    SumCountsZero(comps, '}');
  }

  lemma SeparatorsHaveNoBrace()
    ensures Count(" ", '}') == 0 && Count("::", '}') == 0
  {
    assert '}' !in " " && '}' !in "::";
  }

  lemma CommentHasNoBrace()
    ensures Count(EndOfNamespaceComment, '}') == 0
  {
    assert '}' !in EndOfNamespaceComment;
  }

  lemma CountThree(a: string, b: string, c: string, ch: char)
    ensures Count(a + b + c, ch) == Count(a, ch) + Count(b, ch) + Count(c, ch)
  {
    CountAppend(a, b, ch);
    CountAppend(a + b, c, ch);
  }

  lemma {:induction false} SumCountsZero(parts: seq<string>, c: char)
    requires forall i | 0 <= i < |parts| :: c !in parts[i]
    ensures SumCounts(parts, c) == 0
  {
    if |parts| > 0 {
      SumCountsZero(parts[1..], c);
    }
  }

  /** `assignNamespace` replaces the raw string, which `getNamespace` returns. */
  function AssignNamespace(h: NamespaceHelper, namespace: string): (r: NamespaceHelper)
    ensures r.namespace == namespace
  {
    NamespaceHelper(namespace)
  }

  // ------------------------------------------------------------ CppFileHelper

  /** `generator.model.Namespace`: the text opening and closing the namespace blocks. */
  datatype Namespace = Namespace(startOfNamespace: string, endOfNameSpace: string)

  /** A `CppFileHelper`, which owns one `NamespaceHelper` starting from "". */
  datatype CppFileHelper = CppFileHelper(helper: NamespaceHelper)

  const InitialCppFileHelper: CppFileHelper := CppFileHelper(NamespaceHelper(""))

  const JniHelperDefaultName: string := "jnihelper.h"

  function HeaderFile(f: CppFileHelper, className: string): string
  {
    FileNamePrefix(f.helper) + className + ".h"
  }

  function SourceFile(f: CppFileHelper, className: string): string
  {
    FileNamePrefix(f.helper) + className + ".cpp"
  }

  /** Header and source share the stem and differ in their extension only. */
  lemma HeaderSourceStem(f: CppFileHelper, className: string)
    ensures exists stem :: HeaderFile(f, className) == stem + ".h" && SourceFile(f, className) == stem + ".cpp"
    ensures HeaderFile(f, className) != SourceFile(f, className)
  {
    var stem := FileNamePrefix(f.helper) + className;
    assert HeaderFile(f, className) == stem + ".h" && SourceFile(f, className) == stem + ".cpp";
    assert HeaderFile(f, className)[|stem| + 1] == 'h';
    assert SourceFile(f, className)[|stem| + 1] == 'c';
  }

  /** With no namespace the file names are the class name plus the extension. */
  lemma NoNamespaceFileNames(className: string)
    ensures HeaderFile(InitialCppFileHelper, className) == className + ".h"
    ensures SourceFile(InitialCppFileHelper, className) == className + ".cpp"
  {
    EmptyHasNoComponents();
    var p := FileNamePrefix(InitialCppFileHelper.helper);
    assert p == "";
    EmptyPrefix(p, className);
  }

  lemma EmptyPrefix(p: string, className: string)
    requires p == ""
    ensures p + className + ".h" == className + ".h" && p + className + ".cpp" == className + ".cpp"
  {
  }

  function ProvideNamespace(f: CppFileHelper): (r: Namespace)
    ensures r.startOfNamespace == "" <==> r.endOfNameSpace == ""
  {
    BeginEndTogether(f.helper);
    Namespace(BeginNamespace(f.helper), EndNamespace(f.helper))
  }

  /** `setNamespace` changes what every later file name and namespace block is derived from. */
  function SetNamespace(f: CppFileHelper, namespace: string): (r: CppFileHelper)
    ensures FileNamePrefix(r.helper) == FileNamePrefix(NamespaceHelper(namespace))
    ensures Notation(r.helper) == Notation(NamespaceHelper(namespace))
    ensures ProvideNamespace(r) == Namespace(BeginNamespace(NamespaceHelper(namespace)), EndNamespace(NamespaceHelper(namespace)))
  {
    CppFileHelper(AssignNamespace(f.helper, namespace))
  }
}
