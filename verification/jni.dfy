/**
 * JNI symbol names. Jenny names a native function
 * "Java_" + mangled class name + "_" + mangled method name, escaping with
 * `replace("_", "_1")` followed by `stripNonASCII`. The decoder here reads
 * the escapes of the JNI Specification, chapter 2 ("Resolving Native Method
 * Names"): `_1` is '_', `_2` is ';', `_3` is '[', `_0xxxx` is the UTF-16 code
 * unit xxxx in lower-case hex, and a lone '_' is the package separator '/'.
 */
module Jni {
  import opened Wrappers
  import opened Text

  /** The characters `stripNonASCII` keeps: `[a-zA-Z0-9_]`. */
  predicate IsWordChar(c: char)
  {
    IsLowerAscii(c) || IsUpperAscii(c) || IsDigit(c) || c == '_'
  }

  // ------------------------------------------------------------ as written

  /** `String.stripNonASCII()`: each other code point becomes "_" + `%05x`. */
  function StripNonAscii(s: string): (r: string)
    ensures forall i | 0 <= i < |s| :: IsWordChar(s[i]) ==> s[i] in r
    ensures (forall i | 0 <= i < |s| :: IsWordChar(s[i])) ==> r == s
    ensures forall i | 0 <= i < |r| :: IsWordChar(r[i])
  {
    if |s| == 0 then ""
    else
      var head := if IsWordChar(s[0]) then [s[0]] else "_" + Hex5(s[0] as int);
      assert forall i | 0 <= i < |head| :: IsWordChar(head[i]);
      head + StripNonAscii(s[1..])
  }

  /** Stripping twice is stripping once: the first pass leaves only word characters. */
  lemma StripNonAsciiIdempotent(s: string)
    ensures StripNonAscii(StripNonAscii(s)) == StripNonAscii(s)
  {
  }

  lemma StripAppend(a: string, b: string)
    ensures StripNonAscii(a + b) == StripNonAscii(a) + StripNonAscii(b)
  {
    if |a| > 0 {
      assert (a + b)[0] == a[0];
      assert (a + b)[1..] == a[1..] + b;
      StripAppend(a[1..], b);
    } else {
      assert a + b == b;
    }
  }

  /** The method-name part of `getNativeMethodName`: `name.replace("_", "_1").stripNonASCII()`. */
  function MangleMethodAsWritten(name: string): string
  {
    StripNonAscii(ReplaceBy(name, '_', "_1"))
  }

  /** The escape `stripNonASCII` gives one character after the `_` doubling. */
  function EncodeCharAsWritten(c: char): string
  {
    if c == '_' then "_1" else if IsWordChar(c) then [c] else "_" + Hex5(c as int)
  }

  /** The as-written mangling works character by character. */
  lemma {:induction false} MangleMethodAsWrittenChars(name: string)
    ensures |name| > 0 ==> MangleMethodAsWritten(name) == EncodeCharAsWritten(name[0]) + MangleMethodAsWritten(name[1..])
  {
    if |name| > 0 {
      assert name == [name[0]] + name[1..];
      ReplaceByAppend([name[0]], name[1..], '_', "_1");
      var head := ReplaceBy([name[0]], '_', "_1");
      StripAppend(head, ReplaceBy(name[1..], '_', "_1"));
      if name[0] == '_' {
        assert head == "_1";
        assert StripNonAscii("_1") == "_1";
      } else {
        assert head == [name[0]];
      }
    }
  }

  /**
   * `jniClassName` as `extractClassInfo` builds it:
   * `replace("_", "_1").replace(".", "_").stripNonASCII()`.
   */
  function MangleClassAsWritten(className: string): string
  {
    StripNonAscii(ReplaceBy(ReplaceBy(className, '_', "_1"), '.', "_"))
  }

  /** The native function name `getNativeMethodName` builds, as written. */
  function NativeSymbolAsWritten(className: string, methodName: string): string
  {
    "Java_" + MangleClassAsWritten(className) + "_" + MangleMethodAsWritten(methodName)
  }

  lemma {:induction false} MangleClassAsWrittenChars(name: string)
    ensures |name| > 0 ==>
              MangleClassAsWritten(name) == (if name[0] == '.' then "_" else EncodeCharAsWritten(name[0])) + MangleClassAsWritten(name[1..])
  {
    if |name| > 0 {
      assert name == [name[0]] + name[1..];
      ReplaceByAppend([name[0]], name[1..], '_', "_1");
      var head := ReplaceBy([name[0]], '_', "_1");
      var tail := ReplaceBy(name[1..], '_', "_1");
      ReplaceByAppend(head, tail, '.', "_");
      var head2 := ReplaceBy(head, '.', "_");
      StripAppend(head2, ReplaceBy(tail, '.', "_"));
      if name[0] == '_' {
        assert head == "_1";
        assert head2 == "_1";
        assert StripNonAscii("_1") == "_1";
      } else if name[0] == '.' {
        assert head == ".";
        assert head2 == "_";
        assert StripNonAscii("_") == "_";
      } else {
        assert head == [name[0]];
        assert head2 == [name[0]];
      }
    }
  }

  lemma Hex1F600()
    ensures Hex5(0x1F600) == ['1', 'f', '6', '0', '0']
  {
    assert Digits(0x1, 16) == ['1'];
    assert Digits(0x1F, 16) == ['1', 'f'];
    assert Digits(0x1F6, 16) == ['1', 'f', '6'];
    assert Digits(0x1F60, 16) == ['1', 'f', '6', '0'];
    assert Digits(0x1F600, 16) == ['1', 'f', '6', '0', '0'];
  }

  /** Letters and digits pass through the as-written mangling unchanged. */
  lemma {:induction false} MangleAsWrittenPlain(s: string)
    requires forall i | 0 <= i < |s| :: IsWordChar(s[i]) && s[i] != '_'
    ensures MangleMethodAsWritten(s) == s
  {
    if |s| > 0 {
      MangleMethodAsWrittenChars(s);
      MangleAsWrittenPlain(s[1..]);
      assert s == [s[0]] + s[1..];
    } else {
      assert MangleMethodAsWritten(s) == StripNonAscii("");
    }
  }

  /**
   * As written, a supplementary character whose `%05x` starts with '1' (U+10000
   * to U+1FFFF) is escaped "_1" followed by four hex digits, which is also how
   * '_' followed by those digits is escaped.
   */
  lemma {:induction false} MangleAsWrittenCollision(c: char, t: string)
    requires c as int >= 0x10000
    requires Hex5(c as int) == ['1'] + t
    requires forall i | 0 <= i < |t| :: IsWordChar(t[i]) && t[i] != '_'
    ensures MangleMethodAsWritten([c]) == MangleMethodAsWritten(['_'] + t)
    ensures [c] != ['_'] + t
  {
    MangleAsWrittenSingle(c);
    MangleAsWrittenUnderscore(t);
    Assoc(['_'], ['1'], t);
    assert [c][0] != (['_'] + t)[0];
  }

  lemma MangleAsWrittenSingle(c: char)
    ensures MangleMethodAsWritten([c]) == EncodeCharAsWritten(c)
  {
    MangleMethodAsWrittenChars([c]);
    assert [c][1..] == [];
    MangleAsWrittenPlain([]);
  }

  lemma MangleAsWrittenUnderscore(t: string)
    requires forall i | 0 <= i < |t| :: IsWordChar(t[i]) && t[i] != '_'
    ensures MangleMethodAsWritten(['_'] + t) == ['_', '1'] + t
  {
    var u := ['_'] + t;
    MangleMethodAsWrittenChars(u);
    assert u[1..] == t;
    MangleAsWrittenPlain(t);
  }

  /** The method names "_f600" and "\U{1F600}" get the same JNI name. */
  lemma MangleAsWrittenCollides()
    ensures MangleMethodAsWritten(['\U{1F600}']) == MangleMethodAsWritten(['_', 'f', '6', '0', '0'])
  {
    var t: string := ['f', '6', '0', '0'];
    Hex1F600();
    assert Hex5(0x1F600) == ['1'] + t;
    MangleAsWrittenCollision('\U{1F600}', t);
    assert ['_'] + t == ['_', 'f', '6', '0', '0'];
  }

  // ------------------------------------------------------------ corrected encoding

  /** Four lower-case hex digits. */
  function Hex4(n: nat): (r: string)
    requires n < 0x10000
    ensures |r| == 4
    ensures forall i | 0 <= i < 4 :: 0 <= DigitValue(r[i]) < 16
    ensures Value(r, 16) == n
  {
    DigitsAtMostFour(n);
    var d := Digits(n, 16);
    var r := Repeat('0', 4 - |d|) + d;
    ValueLeadingZeros(4 - |d|, d, 16);
    ValueDigits(n, 16);
    r
  }

  lemma DigitsAtMostFour(n: nat)
    requires n < 0x10000
    ensures |Digits(n, 16)| <= 4
  {
    if n >= 16 {
      DivBound(n);
      if n / 16 >= 16 {
        DivBound(n / 16);
        if n / 16 / 16 >= 16 {
          DivBound(n / 16 / 16);
        }
      }
    }
  }

  lemma DivBound(n: nat)
    requires n >= 16
    ensures Digits(n, 16) == Digits(n / 16, 16) + [DigitChar(n % 16)]
  {
  }

  /** For a code unit `%05x` is "0" and four hex digits: the two encodings agree on the BMP. */
  lemma Hex5Bmp(n: nat)
    requires n < 0x10000
    ensures Hex5(n) == "0" + Hex4(n)
  {
    DigitsAtMostFour(n);
    var d := Digits(n, 16);
    assert Repeat('0', 5 - |d|) == "0" + Repeat('0', 4 - |d|);
  }

  /** `_0xxxx`: one UTF-16 code unit. */
  function EscapeUnit(u: nat): (r: string)
    requires u < 0x10000
    ensures |r| == 6
  {
    "_0" + Hex4(u)
  }

  predicate IsHighSurrogate(v: int) { 0xD800 <= v <= 0xDBFF }
  predicate IsLowSurrogate(v: int) { 0xDC00 <= v <= 0xDFFF }

  /** The escape of one character of a method name: supplementary characters as a surrogate pair. */
  function EncodeChar(c: char): (r: string)
    ensures |r| > 0
    ensures IsWordChar(c) && c != '_' ==> r == [c]
    ensures c == '_' || !IsWordChar(c) ==> r[0] == '_'
  {
    if c == '_' then "_1"
    else if IsWordChar(c) then [c]
    else if c as int < 0x10000 then EscapeUnit(c as int)
    else
      var x := c as int - 0x10000;
      EscapeUnit(0xD800 + x / 0x400) + EscapeUnit(0xDC00 + x % 0x400)
  }

  /** The corrected method-name mangling. */
  function MangleMethod(name: string): (r: string)
  {
    if |name| == 0 then "" else EncodeChar(name[0]) + MangleMethod(name[1..])
  }

  /** The corrected mangling of a qualified class name: '.' becomes a lone '_'. */
  function MangleClass(name: string): (r: string)
  {
    if |name| == 0 then ""
    else (if name[0] == '.' then "_" else EncodeChar(name[0])) + MangleClass(name[1..])
  }

  /** On characters of the Basic Multilingual Plane the as-written escape is the JNI one. */
  lemma EncodeAgreesOnBmp(c: char)
    requires c as int < 0x10000
    ensures EncodeCharAsWritten(c) == EncodeChar(c)
  {
    if !IsWordChar(c) {
      Hex5Bmp(c as int);
    }
  }

  lemma {:induction false} MangleAgreesOnBmp(name: string)
    requires forall i | 0 <= i < |name| :: name[i] as int < 0x10000
    ensures MangleMethodAsWritten(name) == MangleMethod(name)
  {
    if |name| > 0 {
      MangleMethodAsWrittenChars(name);
      EncodeAgreesOnBmp(name[0]);
      MangleAgreesOnBmp(name[1..]);
    }
  }

  lemma {:induction false} MangleClassAgreesOnBmp(name: string)
    requires forall i | 0 <= i < |name| :: name[i] as int < 0x10000
    ensures MangleClassAsWritten(name) == MangleClass(name)
  {
    if |name| > 0 {
      MangleClassAsWrittenChars(name);
      EncodeAgreesOnBmp(name[0]);
      MangleClassAgreesOnBmp(name[1..]);
    } else {
      assert MangleClassAsWritten(name) == StripNonAscii("");
    }
  }

  /** Names without supplementary characters get the same symbol either way. */
  lemma NativeSymbolAgreesOnBmp(className: string, methodName: string)
    requires forall i | 0 <= i < |className| :: className[i] as int < 0x10000
    requires forall i | 0 <= i < |methodName| :: methodName[i] as int < 0x10000
    ensures NativeSymbolAsWritten(className, methodName) == NativeSymbol(className, methodName)
  {
    MangleClassAgreesOnBmp(className);
    MangleAgreesOnBmp(methodName);
  }

  // ------------------------------------------------------------ decoding

  predicate AllHex(s: string)
  {
    forall i | 0 <= i < |s| :: 0 <= DigitValue(s[i]) < 16
  }

  lemma {:induction false} HexValueBound(s: string)
    requires AllHex(s) && |s| <= 4
    ensures 0 <= Value(s, 16) < Pow16(|s|)
  {
    if |s| > 0 {
      HexValueBound(s[..|s| - 1]);
    }
  }

  function Pow16(k: nat): nat
  {
    if k == 0 then 1 else 16 * Pow16(k - 1)
  }

  function Prepend(c: char, o: Option<string>): Option<string>
  {
    if o.Some? then Some([c] + o.value) else None
  }

  function Combine(hi: int, lo: int): int
  {
    0x10000 + (hi - 0xD800) * 0x400 + (lo - 0xDC00)
  }

  /** The value of the four hex digits at `s[i..i+4]`, when they are hex digits. */
  function UnitAt(s: string, i: nat): (r: Option<int>)
    ensures r.Some? ==> 0 <= r.value < 0x10000
  {
    if i + 4 <= |s| && AllHex(s[i..i + 4]) then
      HexValueBound(s[i..i + 4]);
      Some(Value(s[i..i + 4], 16))
    else None
  }

  /** Reads a JNI-mangled name back; None when an escape is malformed. */
  function Decode(s: string): (r: Option<string>)
    decreases |s|
  {
    if |s| == 0 then Some("")
    else if s[0] != '_' then Prepend(s[0], Decode(s[1..]))
    else if |s| >= 2 && s[1] == '1' then Prepend('_', Decode(s[2..]))
    else if |s| >= 2 && s[1] == '2' then Prepend(';', Decode(s[2..]))
    else if |s| >= 2 && s[1] == '3' then Prepend('[', Decode(s[2..]))
    else if |s| >= 2 && s[1] == '0' then
      var u := UnitAt(s, 2);
      if u.None? then None
      else if IsHighSurrogate(u.value) then
        var l := UnitAt(s, 8);
        if |s| >= 12 && s[6] == '_' && s[7] == '0' && l.Some? && IsLowSurrogate(l.value) then
          Prepend(Combine(u.value, l.value) as char, Decode(s[12..]))
        else None
      else if IsLowSurrogate(u.value) then None
      else Prepend(u.value as char, Decode(s[6..]))
    else Prepend('/', Decode(s[1..]))
  }

  lemma DecodeUnit(u: nat, rest: string)
    requires u < 0x10000 && !IsHighSurrogate(u) && !IsLowSurrogate(u)
    ensures Decode(EscapeUnit(u) + rest) == Prepend(u as char, Decode(rest))
  {
    var s := EscapeUnit(u) + rest;
    assert s[2..6] == Hex4(u);
    assert UnitAt(s, 2) == Some(u);
    assert s[6..] == rest;
  }

  lemma DecodePair(c: char, rest: string)
    requires c as int >= 0x10000
    ensures Decode(EncodeChar(c) + rest) == Prepend(c, Decode(rest))
  {
    var x := c as int - 0x10000;
    var hi, lo := 0xD800 + x / 0x400, 0xDC00 + x % 0x400;
    assert EncodeChar(c) + rest == EscapeUnit(hi) + EscapeUnit(lo) + rest;
    assert Combine(hi, lo) == c as int;
    DecodeSurrogates(hi, lo, rest);
  }

  /** A surrogate pair's two escapes read back as the character they combine to. */
  lemma DecodeSurrogates(hi: int, lo: int, rest: string)
    requires IsHighSurrogate(hi) && IsLowSurrogate(lo)
    requires Combine(hi, lo) < 0x11_0000
    ensures Decode(EscapeUnit(hi) + EscapeUnit(lo) + rest) == Prepend(Combine(hi, lo) as char, Decode(rest))
  {
    var s := EscapeUnit(hi) + EscapeUnit(lo) + rest;
    assert s[2..6] == Hex4(hi);
    assert UnitAt(s, 2) == Some(hi);
    assert s[6] == '_' && s[7] == '0';
    assert s[8..12] == Hex4(lo);
    assert UnitAt(s, 8) == Some(lo);
    assert s[12..] == rest;
  }

  /** Decoding undoes one character's escape. */
  lemma DecodeChar(c: char, rest: string)
    ensures Decode(EncodeChar(c) + rest) == Prepend(c, Decode(rest))
  {
    var s := EncodeChar(c) + rest;
    if c == '_' {
      assert s[2..] == rest;
    } else if IsWordChar(c) {
      assert s[1..] == rest;
    } else if c as int < 0x10000 {
      DecodeUnit(c as int, rest);
    } else {
      DecodePair(c, rest);
    }
  }

  /** Decoding a mangled method name followed by more text gives the name back first. */
  lemma {:induction false} DecodeMangleMethod(name: string, rest: string)
    ensures Decode(MangleMethod(name) + rest) == PrependAll(name, Decode(rest))
  {
    if |name| > 0 {
      var tail := MangleMethod(name[1..]) + rest;
      assert MangleMethod(name) + rest == EncodeChar(name[0]) + tail;
      DecodeChar(name[0], tail);
      DecodeMangleMethod(name[1..], rest);
      assert PrependAll(name, Decode(rest)) == Prepend(name[0], PrependAll(name[1..], Decode(rest)));
    } else {
      assert MangleMethod(name) + rest == rest;
    }
  }

  function PrependAll(p: string, o: Option<string>): (r: Option<string>)
    ensures o.Some? ==> r == Some(p + o.value)
    ensures o.None? ==> r.None?
  {
    if |p| == 0 then (assert o.Some? ==> "" + o.value == o.value; o)
    else
      var t := PrependAll(p[1..], o);
      assert o.Some? ==> [p[0]] + (p[1..] + o.value) == p + o.value;
      Prepend(p[0], t)
  }

  /** Every method name decodes back from its mangling: the mangling is injective. */
  lemma MangleMethodRoundTrip(name: string)
    ensures Decode(MangleMethod(name)) == Some(name)
  {
    DecodeMangleMethod(name, "");
    assert MangleMethod(name) + "" == MangleMethod(name);
    assert name + "" == name;
  }

  lemma MangleMethodInjective(a: string, b: string)
    requires MangleMethod(a) == MangleMethod(b)
    ensures a == b
  {
    MangleMethodRoundTrip(a);
    MangleMethodRoundTrip(b);
  }

  /** No '.' of the name is followed by a digit 0-3, which a lone '_' before it would turn into an escape. */
  predicate SeparatorsDecodable(name: string)
  {
    forall i | 0 <= i < |name| - 1 :: name[i] == '.' ==> !('0' <= name[i + 1] <= '3')
  }

  predicate StartsSafely(s: string)
  {
    |s| == 0 || !('0' <= s[0] <= '3')
  }

  lemma EncodeStartsSafely(c: char, rest: string)
    requires !('0' <= c <= '3')
    ensures StartsSafely(EncodeChar(c) + rest)
  {
  }

  /** A lone '_' before text that does not start with 0-3 is the separator '/'. */
  lemma DecodeSeparator(tail: string)
    requires StartsSafely(tail)
    ensures Decode("_" + tail) == Prepend('/', Decode(tail))
  {
    assert ("_" + tail)[1..] == tail;
  }

  /** A mangled name whose first character is not 0-3 does not start with 0-3 either. */
  lemma MangleClassStartsSafely(name: string, rest: string)
    requires |name| > 0 ==> !('0' <= name[0] <= '3')
    requires |name| == 0 ==> StartsSafely(rest)
    ensures StartsSafely(MangleClass(name) + rest)
  {
    if |name| > 0 {
      var head := if name[0] == '.' then "_" else EncodeChar(name[0]);
      var m := MangleClass(name[1..]);
      assert MangleClass(name) == head + m;
      assert StartsSafely(head) && |head| > 0;
      Assoc(head, m, rest);
      HeadStartsSafely(head, m + rest);
    } else {
      assert MangleClass(name) + rest == rest;
    }
  }

  lemma Assoc(a: string, b: string, c: string)
    ensures (a + b) + c == a + (b + c)
  {
  }

  lemma HeadStartsSafely(head: string, tail: string)
    requires |head| > 0 && StartsSafely(head)
    ensures StartsSafely(head + tail)
  {
    assert (head + tail)[0] == head[0];
  }

  lemma ReplaceCharCons(name: string)
    requires |name| > 0
    ensures ReplaceChar(name, '.', '/') == [if name[0] == '.' then '/' else name[0]] + ReplaceChar(name[1..], '.', '/')
  {
  }

  /** Decoding a mangled class name gives it back with '/' for '.'. */
  lemma {:induction false} DecodeMangleClass(name: string, rest: string)
    requires SeparatorsDecodable(name)
    requires |name| > 0 && name[|name| - 1] == '.' ==> StartsSafely(rest)
    ensures Decode(MangleClass(name) + rest) == PrependAll(ReplaceChar(name, '.', '/'), Decode(rest))
  {
    if |name| > 0 {
      var m := MangleClass(name[1..]);
      var tail := m + rest;
      var c := if name[0] == '.' then '/' else name[0];
      assert SeparatorsDecodable(name[1..]);
      if name[0] == '.' {
        assert MangleClass(name) == "_" + m;
        Assoc("_", m, rest);
        assert |name| > 1 ==> !('0' <= name[1] <= '3');
        MangleClassStartsSafely(name[1..], rest);
        DecodeSeparator(tail);
      } else {
        assert MangleClass(name) == EncodeChar(name[0]) + m;
        Assoc(EncodeChar(name[0]), m, rest);
        DecodeChar(name[0], tail);
      }
      assert Decode(MangleClass(name) + rest) == Prepend(c, Decode(tail));
      DecodeMangleClass(name[1..], rest);
      ReplaceCharCons(name);
    } else {
      assert MangleClass(name) + rest == rest;
    }
  }

  /** The JNI symbol of a native method, with the corrected mangling. */
  function NativeSymbol(className: string, methodName: string): string
  {
    "Java_" + MangleClass(className) + "_" + MangleMethod(methodName)
  }

  /** A Java-like class name: no '/', and no separator followed by a digit 0-3. */
  predicate WellFormedClassName(name: string)
  {
    '/' !in name && SeparatorsDecodable(name) && (|name| > 0 ==> name[|name| - 1] != '.')
  }

  /** A Java-like method name: no '/', and it does not start with a digit 0-3. */
  predicate WellFormedMethodName(name: string)
  {
    '/' !in name && StartsSafely(name)
  }

  /** The symbol decodes to the class name in slash form, a '/', and the method name. */
  lemma NativeSymbolDecodes(className: string, methodName: string)
    requires WellFormedClassName(className) && WellFormedMethodName(methodName)
    ensures Decode(NativeSymbol(className, methodName)[5..]) == Some(ReplaceChar(className, '.', '/') + "/" + methodName)
  {
    var c := MangleClass(className);
    var m := MangleMethod(methodName);
    var sep := "_" + m;
    DropPrefix("Java_", c, "_", m);
    MangleMethodStartsSafely(methodName);
    DecodeSeparator(m);
    MangleMethodRoundTrip(methodName);
    assert Decode(sep) == Some("/" + methodName);
    DecodeMangleClass(className, sep);
    Assoc(ReplaceChar(className, '.', '/'), "/", methodName);
  }

  lemma DropPrefix(p: string, a: string, b: string, c: string)
    ensures (p + a + b + c)[|p|..] == a + (b + c)
  {
  }

  lemma MangleMethodStartsSafely(name: string)
    requires StartsSafely(name)
    ensures StartsSafely(MangleMethod(name))
  {
    if |name| > 0 {
      assert MangleMethod(name) == EncodeChar(name[0]) + MangleMethod(name[1..]);
      EncodeStartsSafely(name[0], MangleMethod(name[1..]));
    }
  }

  /** Distinct native methods get distinct symbols. */
  lemma NativeSymbolInjective(c1: string, m1: string, c2: string, m2: string)
    requires WellFormedClassName(c1) && WellFormedMethodName(m1)
    requires WellFormedClassName(c2) && WellFormedMethodName(m2)
    requires NativeSymbol(c1, m1) == NativeSymbol(c2, m2)
    ensures m1 == m2
    ensures ReplaceChar(c1, '.', '/') == ReplaceChar(c2, '.', '/')
  {
    NativeSymbolDecodes(c1, m1);
    NativeSymbolDecodes(c2, m2);
    var a1, a2 := ReplaceChar(c1, '.', '/'), ReplaceChar(c2, '.', '/');
    SplitAtLast(a1, m1, a2, m2, '/');
  }
}
