/**
 * The batch fusion header of `FusionProxyGenerator.kt` in the `jenny`
 * package: one header, written in one go, that includes the header of every
 * proxy class and initialises them all in `jenny::initAllProxies`. Writing
 * the file is left out; the text written is `Content`.
 */
module Fusion {
  import opened Text
  import opened CppClasses
  import ProxyFusion

  // The texts below are written as several literals joined by `+` so that
  // the facts about them (which characters each holds, and how often) are
  // proved one short literal at a time; each joins to the one template text.

  /** The preamble: its last margin line is kept, so it ends in a blank line. */
  const Header: string := "#" + "pragma once\n\n" + "#" + "include <jni.h>\n\n"
  /** Opens the namespace and the function up to `bool success = `, trailing blank included. */
  const Start: string := "\nnamespace " + "jenny {\n\n" + "inline bool " + "initAllProxies(" + "JNIEnv* env) {\n" + "\n   bool " + "success = \n"
  /** Follows the `;` that closes the expression: returns and closes the namespace. */
  const End: string := "\n   return " + "success;\n}\n\n" + "} // end of " + "namespace jenny\n"
  const Indent: string := "        "
  const Conjunction: string := " &&\n"

  /** One operand of the expression: the class's `initClazz` call, indented. */
  function IndentedCall(c: CppClass): string
  {
    Indent + ProxyFusion.InitCall(c)
  }

  function Calls(cs: seq<CppClass>): (r: seq<string>)
    ensures |r| == |cs| && forall i | 0 <= i < |cs| :: r[i] == IndentedCall(cs[i])
  {
    seq(|cs|, i requires 0 <= i < |cs| => IndentedCall(cs[i]))
  }

  /** `joinToString(" &&\n")` of the calls: empty when there are no classes. */
  function Expression(cs: seq<CppClass>): string
  {
    Join(Calls(cs), Conjunction)
  }

  /** `generateSourceContent`: notice, preamble, one include per class, the init function. */
  function Content(notice: string, cs: seq<CppClass>): (r: string)
    ensures |r| >= |notice| + |Header| && r[..|notice| + |Header|] == notice + Header
    ensures |r| >= |End| + 1 && r[|r| - |End| - 1..] == ";" + End
  {
    var r := notice + Header + Concat(ProxyFusion.Includes(cs)) + Start + Expression(cs) + (";" + End);
    PrefixOf(notice + Header, Concat(ProxyFusion.Includes(cs)) + Start + Expression(cs), ";" + End);
    r
  }

  lemma PrefixOf(a: string, b: string, c: string)
    ensures (a + b + c)[..|a|] == a && (a + b + c)[|a + b|..] == c
    ensures a + b + c == a + (b + c)
  {
  }

  // ------------------------------------------------------------ the constants

  lemma HeaderShape()
    ensures Header[0] == '#' && '{' !in Header
    ensures Count(Header, '#') == 2 && Count(Header, '&') == 0
  {
    assert '&' !in Header;
    HeaderHashes();
  }

  lemma HeaderHashes()
    ensures Count(Header, '#') == 2
  {
    CountOfFour("#", "pragma once\n\n", "#", "include <jni.h>\n\n", '#');
    HeaderPieces();
  }

  lemma HeaderPieces()
    ensures Count("#", '#') == 1 && Count("pragma once\n\n", '#') == 0 && Count("include <jni.h>\n\n", '#') == 0
  {
    OneHash();
    assert '#' !in "pragma once\n\n";
    assert '#' !in "include <jni.h>\n\n";
  }

  lemma OneHash()
    ensures Count("#", '#') == 1
  {
    assert "#"[1..] == "";
  }

  lemma CountOfFour(a: string, b: string, c: string, d: string, x: char)
    ensures Count(a + b + c + d, x) == Count(a, x) + Count(b, x) + Count(c, x) + Count(d, x)
  {
    CountAppend(a, b, x);
    CountAppend(a + b, c, x);
    CountAppend(a + b + c, d, x);
  }

  lemma StartShape()
    ensures Start[17] == '{'
    ensures '#' !in Start && '&' !in Start && ';' !in Start
  {
    StartLacks();
  }

  lemma StartLacks()
    ensures '#' !in Start && '&' !in Start && ';' !in Start
  {
    forall x | x in "#&;" ensures x !in Start {
      NotInSeven("\nnamespace ", "jenny {\n\n", "inline bool ", "initAllProxies(", "JNIEnv* env) {\n", "\n   bool ", "success = \n", x);
    }
  }

  lemma NotInSeven(a: string, b: string, c: string, d: string, e: string, f: string, g: string, x: char)
    requires x !in a && x !in b && x !in c && x !in d && x !in e && x !in f && x !in g
    ensures x !in a + b + c + d + e + f + g
  {
  }

  lemma EndShape()
    ensures '#' !in ";" + End && '&' !in ";" + End
  {
  }

  lemma ConjunctionShape()
    ensures Count(Conjunction, '&') == 2 && Count(Conjunction, '#') == 0 && ';' !in Conjunction
  {
    assert Conjunction[1..] == "&&\n" && Conjunction[2..] == "&\n" && Conjunction[3..] == "\n";
  }

  // ------------------------------------------------------------ read-backs

  /**
   * In `a + p + b + q + t1 + t2`, where `a` lacks a character of `p` and `b`
   * lacks a character of `q`, the text between the first `p` and the first
   * `q` after it is `b`.
   */
  lemma Between(a: string, p: string, b: string, q: string, t1: string, t2: string, x: char, y: char)
    requires x in p && x !in a && y in q && y !in b
    ensures SubstringBeforeFirst(SubstringAfterFirst(a + p + b + q + t1 + t2, p), q) == b
  {
    var t := t1 + t2;
    assert a + p + b + q + t1 + t2 == a + p + (b + q + t);
    NoOccurrenceBefore(a, p, b + q + t, x);
    AfterFirstFrame(a, p, b + q + t);
    NoOccurrenceBefore(b, q, t, y);
    BeforeFirstFrame(b, q, t);
  }

  /** `Between` for a text whose end is the closing marker `q` glued to what follows it. */
  lemma BetweenClosed(a: string, p: string, b: string, q: string, t: string, x: char, y: char)
    requires x in p && x !in a && y in q && y !in b
    ensures SubstringBeforeFirst(SubstringAfterFirst(a + p + b + (q + t), p), q) == b
  {
    assert a + p + b + (q + t) == a + p + (b + q + t);
    NoOccurrenceBefore(a, p, b + q + t, x);
    AfterFirstFrame(a, p, b + q + t);
    NoOccurrenceBefore(b, q, t, y);
    BeforeFirstFrame(b, q, t);
  }

  lemma IncludesLack(cs: seq<CppClass>, x: char)
    requires x != '#' && x != 'i' && x != 'n' && x != 'c' && x != 'l' && x != 'u' && x != 'd' && x != 'e'
    requires x != ' ' && x != '"' && x != '\n'
    requires forall i | 0 <= i < |cs| :: x !in cs[i].headerFileName
    ensures x !in Concat(ProxyFusion.Includes(cs))
  {
    forall i | 0 <= i < |cs| ensures x !in ProxyFusion.Includes(cs)[i] {
    }
    ProxyFusion.NotInConcat(ProxyFusion.Includes(cs), x);
  }

  /** What lies between the preamble and the namespace is the includes, one per class in order. */
  lemma IncludesReadBack(notice: string, cs: seq<CppClass>)
    requires '#' !in notice
    requires forall i | 0 <= i < |cs| :: '{' !in cs[i].headerFileName
    ensures SubstringBeforeFirst(SubstringAfterFirst(Content(notice, cs), Header), Start) == Concat(ProxyFusion.Includes(cs))
  {
    HeaderShape();
    StartShape();
    IncludesLack(cs, '{');
    Between(notice, Header, Concat(ProxyFusion.Includes(cs)), Start, Expression(cs), ";" + End, '#', '{');
  }

  /**
   * What lies between the opening of the function and the first `;` is the
   * expression: the calls in order, joined by `&&` lines, and nothing at all
   * when there are no classes.
   */
  lemma ExpressionReadBack(notice: string, cs: seq<CppClass>)
    requires '{' !in notice
    requires forall i | 0 <= i < |cs| :: '{' !in cs[i].headerFileName && ';' !in cs[i].namespace && ';' !in cs[i].name
    ensures SubstringBeforeFirst(SubstringAfterFirst(Content(notice, cs), Start), ";") == Expression(cs)
    ensures |cs| == 0 ==> Expression(cs) == ""
  {
    HeaderShape();
    StartShape();
    ConjunctionShape();
    IncludesLack(cs, '{');
    forall i | 0 <= i < |cs| ensures ';' !in Calls(cs)[i] {
    }
    ProxyFusion.NotInJoin(Calls(cs), Conjunction, ';');
    BetweenClosed(notice + Header + Concat(ProxyFusion.Includes(cs)), Start, Expression(cs), ";", End, '{', ';');
  }

  // ------------------------------------------------------------ counts

  /** Every `#` of the text is the notice's, the preamble's two, or one per include. */
  lemma IncludeCount(notice: string, cs: seq<CppClass>)
    requires forall i | 0 <= i < |cs| :: '#' !in cs[i].headerFileName && '#' !in cs[i].namespace && '#' !in cs[i].name
    ensures Count(Content(notice, cs), '#') == Count(notice, '#') + 2 + |cs|
  {
    HeaderShape();
    StartLacks();
    EndShape();
    IncludesHashes(cs);
    ExpressionLacks(cs, '#');
    CountParts(notice, Concat(ProxyFusion.Includes(cs)), Expression(cs), '#');
  }

  lemma IncludesHashes(cs: seq<CppClass>)
    requires forall i | 0 <= i < |cs| :: '#' !in cs[i].headerFileName
    ensures Count(Concat(ProxyFusion.Includes(cs)), '#') == |cs|
  {
    forall i | 0 <= i < |cs| ensures Count(ProxyFusion.Includes(cs)[i], '#') == 1 {
      IncludeLineCount(cs[i].headerFileName);
    }
    SumCountsUniform(ProxyFusion.Includes(cs), '#', 1);
    CountConcat(ProxyFusion.Includes(cs), '#');
  }

  lemma ExpressionLacks(cs: seq<CppClass>, x: char)
    requires x != ' ' && x != '&' && x != '\n' && x != ':' && x !in "initClazz(env)"
    requires forall i | 0 <= i < |cs| :: x !in cs[i].namespace && x !in cs[i].name
    ensures x !in Expression(cs)
  {
    forall i | 0 <= i < |cs| ensures x !in Calls(cs)[i] {
    }
    ProxyFusion.NotInJoin(Calls(cs), Conjunction, x);
  }

  lemma IncludeLineCount(h: string)
    requires '#' !in h
    ensures Count(ProxyFusion.IncludeLine(h), '#') == 1
  {
    IncludeHash();
    CountAppend("#include \"", h, '#');
    CountAppend("#include \"" + h, "\"\n", '#');
  }

  lemma IncludeHash()
    ensures Count("#include \"", '#') == 1 && '#' !in "\"\n"
  {
    assert "#include \""[1..] == "include \"";
  }

  /** The count of a character over the pieces of `Content`, `Header` to `End` included. */
  lemma CountParts(notice: string, inc: string, e: string, c: char)
    ensures Count(notice + Header + inc + Start + e + (";" + End), c)
      == Count(notice, c) + Count(Header, c) + Count(inc, c) + Count(Start, c) + Count(e, c) + Count(";" + End, c)
  {
    CountAppend(notice, Header, c);
    CountAppend(notice + Header, inc, c);
    CountAppend(notice + Header + inc, Start, c);
    CountAppend(notice + Header + inc + Start, e, c);
    CountAppend(notice + Header + inc + Start + e, ";" + End, c);
  }

  /** `n` classes give `n - 1` `&&`s, that is `2(n - 1)` ampersands beyond the notice's. */
  lemma ConjunctionCount(notice: string, cs: seq<CppClass>)
    requires |cs| > 0
    requires forall i | 0 <= i < |cs| :: '&' !in cs[i].headerFileName && '&' !in cs[i].namespace && '&' !in cs[i].name
    ensures Count(Content(notice, cs), '&') == Count(notice, '&') + 2 * (|cs| - 1)
  {
    HeaderShape();
    StartLacks();
    EndShape();
    IncludesLack(cs, '&');
    ExpressionAmpersands(cs);
    CountParts(notice, Concat(ProxyFusion.Includes(cs)), Expression(cs), '&');
  }

  lemma ExpressionAmpersands(cs: seq<CppClass>)
    requires |cs| > 0
    requires forall i | 0 <= i < |cs| :: '&' !in cs[i].namespace && '&' !in cs[i].name
    ensures Count(Expression(cs), '&') == 2 * (|cs| - 1)
  {
    ConjunctionShape();
    forall i | 0 <= i < |cs| ensures Count(Calls(cs)[i], '&') == 0 {
    }
    SumCountsUniform(Calls(cs), '&', 0);
    CountJoinTimes(Calls(cs), Conjunction, '&');
  }

  // ------------------------------------------------------------ order

  lemma CallsSnoc(cs: seq<CppClass>, c: CppClass)
    requires |cs| > 0
    ensures Expression(cs + [c]) == Expression(cs) + Conjunction + IndentedCall(c)
  {
    assert Calls(cs + [c]) == Calls(cs) + [IndentedCall(c)];
    JoinAppend(Calls(cs), [IndentedCall(c)], Conjunction);
  }

  /**
   * A class added last puts its include last among the includes and its
   * call last in the expression; nothing else changes.
   */
  lemma AppendsLast(notice: string, cs: seq<CppClass>, c: CppClass)
    requires |cs| > 0
    ensures Content(notice, cs + [c])
      == notice + Header + Concat(ProxyFusion.Includes(cs)) + ProxyFusion.IncludeLine(c.headerFileName)
         + Start + (Expression(cs) + Conjunction + IndentedCall(c)) + ";" + End
  {
    ProxyFusion.IncludesSnoc(cs, c);
    CallsSnoc(cs, c);
  }
}
