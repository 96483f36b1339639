/**
 * The incremental fusion header of `generator/proxy/FusionProxyGenerator.kt`:
 * every proxy class that is generated adds its `#include` and its
 * `initClazz` call to one header whose `jenny::initAllProxies` initialises
 * every proxy, merging with whatever an earlier run left in that file.
 * The file system is a parameter: `existing` is the file's text, or `""`
 * when there is no file, and the result is the text written back.
 */
module ProxyFusion {
  import opened Wrappers
  import opened Text
  import opened CppClasses

  /** The texts of the companion object, once their margins are trimmed. */
  datatype Texts = Texts(jniHeader: string, start: string, end: string, indent: string, separator: string)

  // `start` and `end` are written as several literals joined by `+` so that
  // the facts about them are proved one short literal at a time.

  /** `jniHeader`. */
  const JniHeader: string := "#pragma once\n\n" + "#include <jni.h>\n"
  /** `start`: opens the namespace and the function up to `bool success =`. */
  const Start: string := "\nnamespace " + "jenny {\n\n" + "inline bool " + "initAllProxies(" + "JNIEnv* env) {\n" + "\n   bool " + "success =\n"
  /** `end`: closes the expression, the function and the namespace. */
  const End: string := ";\n\n   return " + "success;\n}\n\n" + "} // end of " + "namespace jenny\n"

  const Jenny: Texts := Texts(JniHeader, Start, End, "        ", "\n        && ")

  /** The end of an `#include "X.h"` line, up to which an earlier file is kept. */
  const HeaderSuffix: string := ".h\""

  function IncludeLine(headerFileName: string): string
  {
    "#include \"" + headerFileName + "\"\n"
  }

  function InitCall(c: CppClass): string
  {
    c.namespace + "::" + c.name + "::initClazz(env)"
  }

  /** Both markers are present, so a new call is merged into the block between them. */
  predicate HasMarkers(x: Texts, existing: string)
  {
    Contains(existing, x.start) && Contains(existing, x.end)
  }

  /** `substringAfter(start).substringBefore(end).trim()`: the expression an earlier run wrote. */
  function ExistingBlock(x: Texts, existing: string): (r: string)
    ensures IsTrimmed(r)
  {
    Trim(SubstringBeforeFirst(SubstringAfterFirst(existing, x.start), x.end))
  }

  /**
   * The part of an earlier file that is kept: everything up to and
   * including the last `.h"`, then a line break; only the line break when
   * the file has no `.h"`.
   */
  function Modified(existing: string): (r: string)
    ensures |r| > 0 && r[|r| - 1] == '\n'
    ensures !Contains(existing, HeaderSuffix) ==> r == "\n"
    ensures Contains(existing, HeaderSuffix) ==>
      var k := |r| - 1;
      |HeaderSuffix| <= k <= |existing| && r[..k] == existing[..k] && r[k - |HeaderSuffix|..k] == HeaderSuffix
      && existing[k..] == SubstringAfterLast(existing, HeaderSuffix)
  {
    if Contains(existing, HeaderSuffix) then
      var t := SubstringAfterLast(existing, HeaderSuffix);
      var k := |existing| - |t|;
      assert k >= |HeaderSuffix| && existing[k - |HeaderSuffix|..k] == HeaderSuffix && existing[k..] == t by {
        var i: nat :| i + |HeaderSuffix| <= |existing| && existing == existing[..i] + HeaderSuffix + t;
        assert existing[i..i + |HeaderSuffix|] == HeaderSuffix;
      }
      existing[..k] + "\n"
    else "\n"
  }

  /**
   * `existingContent.replace(existingContent.substringAfterLast(".h\""), "\n")`
   * as written: every occurrence of the tail is replaced, and an empty tail
   * (a file ending in `.h"`) puts a line break around every character.
   */
  function ModifiedAsWritten(existing: string): string
  {
    ReplaceAll(existing, SubstringAfterLast(existing, HeaderSuffix), "\n")
  }

  /** Everything before `start`: a fresh header, or the kept part of the earlier file, then the class's include. */
  function Head(x: Texts, notice: string, c: CppClass, existing: string, asWritten: bool): string
  {
    (if existing == "" then notice + x.jniHeader
     else if asWritten then ModifiedAsWritten(existing)
     else Modified(existing))
    + IncludeLine(c.headerFileName)
  }

  /** Between `start` and `end`: the earlier block, if any, and the new call. */
  function Body(x: Texts, c: CppClass, existing: string): string
  {
    if HasMarkers(x, existing) then
      var block := ExistingBlock(x, existing);
      (if block == "" then "" else block + x.separator) + InitCall(c)
    else x.indent + InitCall(c)
  }

  /**
   * `generateSourceContent(proxyClass, existingContent)`: the text written
   * back always carries both markers, ends with `end`, and has the new call
   * right before it.
   */
  function Content(x: Texts, notice: string, c: CppClass, existing: string, asWritten: bool): (r: string)
    ensures HasMarkers(x, r)
    ensures |r| >= |InitCall(c)| + |x.end|
    ensures r[|r| - |x.end|..] == x.end
    ensures r[|r| - |x.end| - |InitCall(c)|..|r| - |x.end|] == InitCall(c)
  {
    var h := Head(x, notice, c, existing, asWritten);
    var b := Body(x, c, existing);
    BodyEndsWithCall(x, c, existing);
    Marked(h, x.start, b, x.end, InitCall(c));
    h + x.start + b + x.end
  }

  /** A text built around both markers, whose body ends with the call. */
  lemma Marked(h: string, start: string, b: string, end: string, call: string)
    requires |b| >= |call| && b[|b| - |call|..] == call
    ensures var r := h + start + b + end;
      && Contains(r, start) && Contains(r, end)
      && |r| >= |call| + |end| && r[|r| - |end|..] == end
      && r[|r| - |end| - |call|..|r| - |end|] == call
  {
    var r := h + start + b + end;
    assert OccursAt(r, start, |h|) by { assert r[|h|..|h| + |start|] == start; }
    assert OccursAt(r, end, |r| - |end|) by { assert r[|r| - |end|..] == end; }
    assert r[|r| - |end| - |call|..|r| - |end|] == b[|b| - |call|..];
  }

  lemma BodyEndsWithCall(x: Texts, c: CppClass, existing: string)
    ensures var b := Body(x, c, existing); |b| >= |InitCall(c)| && b[|b| - |InitCall(c)|..] == InitCall(c)
  {
  }

  /** `generate(input)`: nothing is written when the file name is empty. */
  function Generate(x: Texts, name: string, notice: string, c: CppClass, existing: string, asWritten: bool): (r: Option<string>)
    ensures r.None? <==> name == ""
    ensures r.Some? ==> HasMarkers(x, r.value)
  {
    if name == "" then None else Some(Content(x, notice, c, existing, asWritten))
  }

  /** The file after one class: unchanged when nothing is written. */
  function Step(x: Texts, name: string, notice: string, existing: string, c: CppClass, asWritten: bool): string
  {
    match Generate(x, name, notice, c, existing, asWritten)
    case None => existing
    case Some(v) => v
  }

  /** The file after the classes `cs`, one `generate` after the other. */
  function Run(x: Texts, name: string, notice: string, existing: string, cs: seq<CppClass>, asWritten: bool): string
    decreases |cs|
  {
    if |cs| == 0 then existing
    else Step(x, name, notice, Run(x, name, notice, existing, cs[..|cs| - 1], asWritten), cs[|cs| - 1], asWritten)
  }

  // ------------------------------------------------------------ the reference file

  function Includes(cs: seq<CppClass>): (r: seq<string>)
    ensures |r| == |cs| && forall i | 0 <= i < |cs| :: r[i] == IncludeLine(cs[i].headerFileName)
  {
    seq(|cs|, i requires 0 <= i < |cs| => IncludeLine(cs[i].headerFileName))
  }

  function Calls(cs: seq<CppClass>): (r: seq<string>)
    ensures |r| == |cs| && forall i | 0 <= i < |cs| :: r[i] == InitCall(cs[i])
  {
    seq(|cs|, i requires 0 <= i < |cs| => InitCall(cs[i]))
  }

  /** The expression of a file made for `cs`: the one call indented, or the calls joined by `&&` lines. */
  function InitBody(x: Texts, cs: seq<CppClass>): string
  {
    if |cs| == 1 then x.indent + InitCall(cs[0]) else Join(Calls(cs), x.separator)
  }

  /** The file a sequence of runs is meant to build: one include and one call per class, in order. */
  function Fused(x: Texts, notice: string, cs: seq<CppClass>): string
  {
    notice + x.jniHeader + Concat(Includes(cs)) + x.start + InitBody(x, cs) + x.end
  }

  /**
   * What the lemmas below need of a class: its namespace and name hold no
   * `{`, `;` or `"`, the namespace does not start with white space, and its
   * header file is an `.h` file whose name holds no `{`.
   */
  predicate Plain(c: CppClass)
  {
    && '{' !in c.namespace && ';' !in c.namespace && '"' !in c.namespace
    && '{' !in c.name && ';' !in c.name && '"' !in c.name
    && (|c.namespace| > 0 ==> !IsWhitespace(c.namespace[0]))
    && '{' !in c.headerFileName
    && |c.headerFileName| >= 2 && c.headerFileName[|c.headerFileName| - 2..] == ".h"
  }

  predicate AllPlain(cs: seq<CppClass>)
  {
    forall i | 0 <= i < |cs| :: Plain(cs[i])
  }


  /** What the lemmas below need of the texts; `Jenny` has it. */
  predicate Shaped(x: Texts)
  {
    && '{' in x.start && '{' !in x.jniHeader
    && '"' !in x.start && '"' !in x.end && '"' !in x.separator && '"' !in x.indent
    && ';' !in x.separator && ';' !in x.indent
    && |x.end| > 0 && x.end[0] == ';'
    && x.indent == Repeat(' ', |x.indent|)
  }

  /** The texts are shaped, the notice holds no `{`, and the classes are plain and not none. */
  predicate Fits(x: Texts, notice: string, cs: seq<CppClass>)
  {
    Shaped(x) && '{' !in notice && |cs| > 0 && AllPlain(cs)
  }

  lemma StartShaped()
    ensures Start[17] == '{' && '"' !in Start
  {
  }

  lemma EndShaped()
    ensures End[0] == ';' && '"' !in End
  {
  }

  lemma IndentShaped()
    ensures Jenny.indent == Repeat(' ', |Jenny.indent|) && ';' !in Jenny.indent && '"' !in Jenny.indent
  {
    assert Jenny.indent == Repeat(' ', 8);
  }

  lemma HeaderShaped()
    ensures '{' !in JniHeader
  {
  }

  lemma SeparatorShaped()
    ensures ';' !in Jenny.separator && '"' !in Jenny.separator
  {
  }

  lemma JennyShaped()
    ensures Shaped(Jenny)
  {
    StartShaped();
    EndShaped();
    IndentShaped();
    HeaderShaped();
    SeparatorShaped();
  }

  // ------------------------------------------------------------ lemmas

  lemma {:induction false} NotInConcat(parts: seq<string>, x: char)
    requires forall i | 0 <= i < |parts| :: x !in parts[i]
    ensures x !in Concat(parts)
  {
    if |parts| > 0 {
      NotInConcat(parts[1..], x);
    }
  }

  lemma {:induction false} NotInJoin(parts: seq<string>, sep: string, x: char)
    requires x !in sep && forall i | 0 <= i < |parts| :: x !in parts[i]
    ensures x !in Join(parts, sep)
  {
    if |parts| > 1 {
      NotInJoin(parts[1..], sep, x);
    }
  }

  /** A call is trimmed and holds no `{`, `;` or `"`. */
  lemma CallShape(c: CppClass)
    requires Plain(c)
    ensures |InitCall(c)| > 0 && IsTrimmed(InitCall(c))
    ensures '{' !in InitCall(c) && ';' !in InitCall(c) && '"' !in InitCall(c)
  {
    var s := InitCall(c);
    assert s[|s| - 1] == ')';
    if |c.namespace| == 0 {
      assert s[0] == ':';
    } else {
      assert s[0] == c.namespace[0];
    }
  }

  /** The calls of plain classes joined are trimmed and hold no `;` or `"`. */
  lemma {:induction false} JoinedCallsShape(cs: seq<CppClass>, sep: string)
    requires |cs| > 0 && AllPlain(cs) && ';' !in sep && '"' !in sep
    ensures var s := Join(Calls(cs), sep);
      |s| > 0 && s[0] == InitCall(cs[0])[0] && s[|s| - 1] == ')' && IsTrimmed(s)
    ensures ';' !in Join(Calls(cs), sep) && '"' !in Join(Calls(cs), sep)
  {
    CallShape(cs[0]);
    forall i | 0 <= i < |cs| ensures ';' !in Calls(cs)[i] && '"' !in Calls(cs)[i] {
      CallShape(cs[i]);
    }
    NotInJoin(Calls(cs), sep, ';');
    NotInJoin(Calls(cs), sep, '"');
    if |cs| > 1 {
      assert Calls(cs)[1..] == Calls(cs[1..]);
      JoinedCallsShape(cs[1..], sep);
    }
  }

  /** Reading the block back from a file for `cs` gives the calls joined, whatever its indentation. */
  lemma InitBodyTrims(x: Texts, cs: seq<CppClass>)
    requires Shaped(x) && |cs| > 0 && AllPlain(cs)
    ensures Trim(InitBody(x, cs)) == Join(Calls(cs), x.separator)
    ensures ';' !in InitBody(x, cs) && '"' !in InitBody(x, cs)
  {
    JoinedCallsShape(cs, x.separator);
    TrimIdempotent(Join(Calls(cs), x.separator));
    if |cs| == 1 {
      var s := InitCall(cs[0]);
      TrimStartSpaces(|x.indent|, s);
      assert TrimStart(s) == s;
    }
  }

  /** No include line of plain classes holds a `{`. */
  lemma IncludesPlain(cs: seq<CppClass>)
    requires AllPlain(cs)
    ensures '{' !in Concat(Includes(cs))
  {
    forall i | 0 <= i < |cs| ensures '{' !in Includes(cs)[i] {
      assert Plain(cs[i]);
    }
    NotInConcat(Includes(cs), '{');
  }

  /** The includes of `cs` end with the line of its last class. */
  lemma IncludesSnoc(cs: seq<CppClass>, c: CppClass)
    ensures Concat(Includes(cs + [c])) == Concat(Includes(cs)) + IncludeLine(c.headerFileName)
  {
    assert Includes(cs + [c]) == Includes(cs) + [IncludeLine(c.headerFileName)];
    ConcatAppend(Includes(cs), [IncludeLine(c.headerFileName)]);
  }

  /** The text written from its part before `start` and its expression. */
  lemma ContentOf(x: Texts, notice: string, c: CppClass, e: string, asWritten: bool, head: string, body: string)
    requires Head(x, notice, c, e, asWritten) == head && Body(x, c, e) == body
    ensures Content(x, notice, c, e, asWritten) == head + x.start + body + x.end
  {
  }

  /** A file for `cs` from its includes and its expression. */
  lemma FusedOf(x: Texts, notice: string, cs: seq<CppClass>, inc: string, body: string)
    requires Concat(Includes(cs)) == inc && InitBody(x, cs) == body
    ensures Fused(x, notice, cs) == notice + x.jniHeader + inc + x.start + body + x.end
  {
  }

  /** The calls of `cs` and one more class, joined, are those of `cs` and the new call. */
  lemma CallsSnoc(cs: seq<CppClass>, c: CppClass, sep: string)
    requires |cs| > 0
    ensures Join(Calls(cs + [c]), sep) == Join(Calls(cs), sep) + sep + InitCall(c)
  {
    var a := Calls(cs);
    var b := Calls(cs + [c]);
    assert |b| == |a| + 1;
    assert forall i | 0 <= i < |a| :: b[i] == a[i];
    assert b[|a|] == InitCall(c);
    assert b == a + [InitCall(c)];
    JoinAppend(a, [InitCall(c)], sep);
  }

  /** A file for `cs` up to the `.h"` of its last include. */
  function Kept(x: Texts, notice: string, cs: seq<CppClass>): string
    requires |cs| > 0
  {
    notice + x.jniHeader + Concat(Includes(cs[..|cs| - 1])) + "#include \"" + cs[|cs| - 1].headerFileName + "\""
  }

  /** A file for `cs` after the `.h"` of its last include. */
  function Tail(x: Texts, cs: seq<CppClass>): string
  {
    "\n" + x.start + InitBody(x, cs) + x.end
  }

  /** The includes of `cs` are the kept header's and a line break. */
  lemma IncludesSplit(x: Texts, notice: string, cs: seq<CppClass>)
    requires |cs| > 0
    ensures notice + x.jniHeader + Concat(Includes(cs)) == Kept(x, notice, cs) + "\n"
  {
    var n := |cs|;
    assert cs == cs[..n - 1] + [cs[n - 1]];
    IncludesSnoc(cs[..n - 1], cs[n - 1]);
  }

  /** A file for `cs` splits at the `.h"` of its last include. */
  lemma FusedSplits(x: Texts, notice: string, cs: seq<CppClass>)
    requires |cs| > 0
    ensures Fused(x, notice, cs) == Kept(x, notice, cs) + Tail(x, cs)
  {
    IncludesSplit(x, notice, cs);
  }

  /** The kept header ends in `.h"` and holds no `{`. */
  lemma KeptShape(x: Texts, notice: string, cs: seq<CppClass>)
    requires Fits(x, notice, cs)
    ensures var h := Kept(x, notice, cs);
      |h| >= |HeaderSuffix| && h[|h| - |HeaderSuffix|..] == HeaderSuffix && '{' !in h
  {
    var n := |cs|;
    var c := cs[n - 1];
    assert Plain(c);
    IncludesPlain(cs[..n - 1]);
    var line := "#include \"" + c.headerFileName + "\"";
    var h := Kept(x, notice, cs);
    assert h == notice + x.jniHeader + Concat(Includes(cs[..n - 1])) + line;
    assert h[|h| - 3..] == line[|line| - 3..];
  }

  /** The tail holds a `{` and no `"`. */
  lemma TailShape(x: Texts, cs: seq<CppClass>)
    requires Shaped(x) && |cs| > 0 && AllPlain(cs)
    ensures '"' !in Tail(x, cs) && '{' in Tail(x, cs)
  {
    var body := InitBody(x, cs);
    InitBodyTrims(x, cs);
    CharIn4("\n", x.start, body, x.end, '"');
    CharIn4("\n", x.start, body, x.end, '{');
  }

  /** A character occurs in four texts put together exactly when it occurs in one of them. */
  lemma CharIn4(a: string, b: string, c: string, d: string, ch: char)
    ensures ch in a + b + c + d <==> ch in a || ch in b || ch in c || ch in d
  {
    if ch in b {
      var k :| 0 <= k < |b| && b[k] == ch;
      assert (a + b + c + d)[|a| + k] == ch;
    }
  }

  /** When the earlier file's tail is non-empty and occurs nowhere else, the replacement as written keeps what `Modified` keeps. */
  lemma ModifiedAgrees(h: string, t: string)
    requires |h| >= |HeaderSuffix| && h[|h| - |HeaderSuffix|..] == HeaderSuffix
    requires |t| > 0 && '"' !in t
    requires forall j: nat | j < |h| :: !OccursAt(h + t, t, j)
    ensures ModifiedAsWritten(h + t) == Modified(h + t) == h + "\n"
  {
    AfterLastFrame(h, HeaderSuffix, t);
    ReplaceOnlyAtEnd(h, t, "\n");
    assert (h + t)[..|h|] == h;
  }

  /**
   * Text between a start marker holding a character that the part before it
   * lacks and an end marker whose first character the text lacks reads back
   * as itself.
   */
  lemma Framed(pre: string, start: string, b: string, end: string, x: char)
    requires x in start && x !in pre
    requires |end| > 0 && end[0] !in b
    ensures Contains(pre + start + b + end, start) && Contains(pre + start + b + end, end)
    ensures SubstringBeforeFirst(SubstringAfterFirst(pre + start + b + end, start), end) == b
  {
    var e := pre + start + (b + end);
    assert e == pre + start + b + end;
    assert OccursAt(e, end, |e| - |end|) by { assert e[|e| - |end|..] == end; }
    assert b + end + "" == b + end;
    NoOccurrenceBefore(pre, start, b + end, x);
    AfterFirstFrame(pre, start, b + end);
    NoOccurrenceBefore(b, end, "", end[0]);
    BeforeFirstFrame(b, end, "");
  }

  /** The block read back from a file for `cs` lists its calls in order. */
  lemma FusedBlockReadsBack(x: Texts, notice: string, cs: seq<CppClass>)
    requires Fits(x, notice, cs)
    ensures HasMarkers(x, Fused(x, notice, cs))
    ensures ExistingBlock(x, Fused(x, notice, cs)) == Join(Calls(cs), x.separator)
  {
    var pre := notice + x.jniHeader + Concat(Includes(cs));
    var b := InitBody(x, cs);
    assert Fused(x, notice, cs) == pre + x.start + b + x.end;
    IncludesPlain(cs);
    InitBodyTrims(x, cs);
    Framed(pre, x.start, b, x.end, '{');
  }

  /** Both readings of an earlier file for `cs` keep its includes. */
  lemma HeadOfFused(x: Texts, notice: string, cs: seq<CppClass>, c: CppClass, asWritten: bool)
    requires Fits(x, notice, cs)
    ensures Head(x, notice, c, Fused(x, notice, cs), asWritten)
      == notice + x.jniHeader + Concat(Includes(cs)) + IncludeLine(c.headerFileName)
  {
    var h := Kept(x, notice, cs);
    var t := Tail(x, cs);
    IncludesSplit(x, notice, cs);
    FusedSplits(x, notice, cs);
    assert h + t + "" == h + t;
    KeptShape(x, notice, cs);
    TailShape(x, cs);
    NoOccurrenceBefore(h, t, "", '{');
    ModifiedAgrees(h, t);
  }

  /** With markers and a non-empty earlier block, the new call follows the block after a separator. */
  lemma BodyMerges(x: Texts, c: CppClass, e: string, block: string)
    requires HasMarkers(x, e) && ExistingBlock(x, e) == block && block != ""
    ensures Body(x, c, e) == block + x.separator + InitCall(c)
  {
  }

  /** The block of an earlier file for `cs` gains the new call at its end. */
  lemma BodyOfFused(x: Texts, notice: string, cs: seq<CppClass>, c: CppClass)
    requires Fits(x, notice, cs)
    ensures Body(x, c, Fused(x, notice, cs)) == Join(Calls(cs + [c]), x.separator)
  {
    var block := Join(Calls(cs), x.separator);
    FusedBlockReadsBack(x, notice, cs);
    JoinedCallsShape(cs, x.separator);
    BodyMerges(x, c, Fused(x, notice, cs), block);
    CallsSnoc(cs, c, x.separator);
  }

  /** Running once more on a file for `cs` writes its includes, the new include, and the calls with the new one. */
  lemma ContentOfFused(x: Texts, notice: string, cs: seq<CppClass>, c: CppClass, asWritten: bool)
    requires Fits(x, notice, cs)
    ensures Content(x, notice, c, Fused(x, notice, cs), asWritten)
      == notice + x.jniHeader + Concat(Includes(cs)) + IncludeLine(c.headerFileName)
        + x.start + Join(Calls(cs + [c]), x.separator) + x.end
  {
    HeadOfFused(x, notice, cs, c, asWritten);
    BodyOfFused(x, notice, cs, c);
    ContentOf(x, notice, c, Fused(x, notice, cs), asWritten,
      notice + x.jniHeader + Concat(Includes(cs)) + IncludeLine(c.headerFileName), Join(Calls(cs + [c]), x.separator));
  }

  /** The file for `cs` and one more class. */
  lemma FusedSnoc(x: Texts, notice: string, cs: seq<CppClass>, c: CppClass)
    requires |cs| > 0
    ensures Fused(x, notice, cs + [c])
      == notice + x.jniHeader + Concat(Includes(cs)) + IncludeLine(c.headerFileName)
        + x.start + Join(Calls(cs + [c]), x.separator) + x.end
  {
    var inc := Concat(Includes(cs));
    var line := IncludeLine(c.headerFileName);
    IncludesSnoc(cs, c);
    FusedOf(x, notice, cs + [c], inc + line, Join(Calls(cs + [c]), x.separator));
    assert notice + x.jniHeader + (inc + line) == notice + x.jniHeader + inc + line;
  }

  /** Running once more on a file for `cs` gives the file for `cs` and the new class, as written and corrected alike. */
  lemma Accumulates(x: Texts, notice: string, cs: seq<CppClass>, c: CppClass, asWritten: bool)
    requires Fits(x, notice, cs)
    ensures Content(x, notice, c, Fused(x, notice, cs), asWritten) == Fused(x, notice, cs + [c])
  {
    ContentOfFused(x, notice, cs, c, asWritten);
    FusedSnoc(x, notice, cs, c);
  }

  lemma ButLast(cs: seq<CppClass>)
    requires |cs| > 0
    ensures cs[..|cs| - 1] + [cs[|cs| - 1]] == cs
  {
  }

  /** Without a file, one class makes the file for that class alone. */
  lemma FirstRun(x: Texts, name: string, notice: string, c: CppClass, asWritten: bool)
    requires name != "" && |x.start| > 0
    ensures Step(x, name, notice, "", c, asWritten) == Fused(x, notice, [c])
  {
    assert !HasMarkers(x, "");
    var inc := IncludeLine(c.headerFileName);
    var body := x.indent + InitCall(c);
    assert Content(x, notice, c, "", asWritten) == notice + x.jniHeader + inc + x.start + body + x.end;
    assert Concat(Includes([c])) == inc + Concat([]);
    FusedOf(x, notice, [c], inc, body);
  }

  /** One more plain class into a file made for `done` makes the file for both. */
  lemma StepExtends(x: Texts, name: string, notice: string, done: seq<CppClass>, c: CppClass, asWritten: bool)
    requires name != "" && Fits(x, notice, done) && Plain(c)
    ensures Step(x, name, notice, Fused(x, notice, done), c, asWritten) == Fused(x, notice, done + [c])
    ensures Fits(x, notice, done + [c])
  {
    Accumulates(x, notice, done, c, asWritten);
  }

  /**
   * Starting without a file, generating plain classes one after the other
   * leaves the file for all of them: every include in order, and one
   * `initClazz` call per class in the expression.
   */
  lemma {:induction false} RunBuildsFused(x: Texts, name: string, notice: string, cs: seq<CppClass>, asWritten: bool)
    requires name != "" && Fits(x, notice, cs)
    ensures Run(x, name, notice, "", cs, asWritten) == Fused(x, notice, cs)
    decreases |cs|
  {
    var n := |cs|;
    if n == 1 {
      assert cs[..0] == [];
      FirstRun(x, name, notice, cs[0], asWritten);
      assert [cs[0]] == cs;
    } else {
      var init := cs[..n - 1];
      ButLast(cs);
      assert Fits(x, notice, init);
      RunBuildsFused(x, name, notice, init, asWritten);
      StepExtends(x, name, notice, init, cs[n - 1], asWritten);
    }
  }

  /** The same for the texts of the source. */
  lemma JennyRunBuildsFused(name: string, notice: string, cs: seq<CppClass>, asWritten: bool)
    requires name != "" && '{' !in notice && |cs| > 0 && AllPlain(cs)
    ensures Run(Jenny, name, notice, "", cs, asWritten) == Fused(Jenny, notice, cs)
  {
    JennyShaped();
    RunBuildsFused(Jenny, name, notice, cs, asWritten);
  }

  /**
   * An earlier file that ends in `.h"` leaves an empty tail, and replacing
   * the empty string puts a line break before every character and after
   * the last: the kept part grows to twice the file and one more character
   * instead of being the file and a line break.
   */
  lemma EmptyTailInterleaves(existing: string)
    requires |existing| >= |HeaderSuffix| && existing[|existing| - |HeaderSuffix|..] == HeaderSuffix
    ensures ModifiedAsWritten(existing) == "\n" + Interleave(existing, "\n")
    ensures |ModifiedAsWritten(existing)| == 2 * |existing| + 1
    ensures Modified(existing) == existing + "\n"
  {
    assert existing + "" == existing;
    AfterLastFrame(existing, HeaderSuffix, "");
  }

  /** The shortest such file: `.h"` alone. */
  lemma EmptyTailExample()
    ensures ModifiedAsWritten(".h\"") == "\n.\nh\n\"\n"
    ensures Modified(".h\"") == ".h\"\n"
  {
    var s := ".h\"";
    EmptyTailInterleaves(s);
    assert Interleave(s[2..], "\n") == "\"\n";
    assert Interleave(s[1..], "\n") == "h\n\"\n";
    assert Interleave(s, "\n") == ".\nh\n\"\n";
  }
}
