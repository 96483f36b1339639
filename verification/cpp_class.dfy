/**
 * `CppClass` and its ordering: by namespace first and then by name, each
 * compared the way Kotlin's `String.compareTo` does.
 */
module CppClasses {

  datatype CppClass = CppClass(name: string, namespace: string, headerFileName: string)

  /**
   * The UTF-16 code units of a character, as a Kotlin `String` stores it:
   * one unit below U+10000, otherwise a high and a low surrogate.
   */
  function Utf16(c: char): (r: seq<int>)
    ensures 1 <= |r| <= 2
    ensures |r| == 1 <==> (c as int) < 0x10000
    ensures |r| == 1 ==> r[0] == c as int && !IsSurrogate(r[0])
    ensures |r| == 2 ==> 0xD800 <= r[0] <= 0xDBFF && 0xDC00 <= r[1] <= 0xDFFF
  {
    var v := c as int;
    if v < 0x10000 then [v]
    else
      SurrogateBounds(v);
      [0xD800 + (v - 0x10000) / 0x400, 0xDC00 + (v - 0x10000) % 0x400]
  }

  predicate IsSurrogate(u: int) { 0xD800 <= u <= 0xDFFF }

  lemma SurrogateBounds(v: int)
    requires 0x10000 <= v <= 0x10FFFF
    ensures 0 <= (v - 0x10000) / 0x400 < 0x400 && 0 <= (v - 0x10000) % 0x400 < 0x400
  {
  }

  /** The UTF-16 form of a string. */
  function Units(s: string): (r: seq<int>)
    ensures |s| == 0 <==> |r| == 0
  {
    if |s| == 0 then [] else Utf16(s[0]) + Units(s[1..])
  }

  /** A surrogate pair determines its character. */
  lemma PairDetermines(v: int, w: int)
    requires 0x10000 <= v <= 0x10FFFF && 0x10000 <= w <= 0x10FFFF
    requires (v - 0x10000) / 0x400 == (w - 0x10000) / 0x400 && (v - 0x10000) % 0x400 == (w - 0x10000) % 0x400
    ensures v == w
  {
  }

  /** Two texts whose UTF-16 forms start alike start with the same character. */
  lemma Utf16Prefix(c: char, d: char, ra: seq<int>, rb: seq<int>)
    requires Utf16(c) + ra == Utf16(d) + rb
    ensures c == d && ra == rb
  {
    var x, y := Utf16(c), Utf16(d);
    assert (x + ra)[0] == x[0] && (y + rb)[0] == y[0];
    if |x| == 2 && |y| == 2 {
      assert (x + ra)[1] == x[1] && (y + rb)[1] == y[1];
      PairDetermines(c as int, d as int);
    }
    assert |x| == |y|;
    assert ra == (x + ra)[|x|..] && rb == (y + rb)[|y|..];
  }

  /** Different strings have different UTF-16 forms. */
  lemma {:induction false} UnitsInjective(a: string, b: string)
    requires Units(a) == Units(b)
    ensures a == b
  {
    if |a| > 0 {
      Utf16Prefix(a[0], b[0], Units(a[1..]), Units(b[1..]));
      UnitsInjective(a[1..], b[1..]);
      assert a == [a[0]] + a[1..] && b == [b[0]] + b[1..];
    }
  }

  /** Lexicographic comparison of code units: the first difference, or the difference of the lengths. */
  function CompareUnits(a: seq<int>, b: seq<int>): (r: int)
    ensures |a| == 0 || |b| == 0 ==> r == |a| - |b|
  {
    if |a| == 0 || |b| == 0 then |a| - |b|
    else if a[0] != b[0] then a[0] - b[0]
    else CompareUnits(a[1..], b[1..])
  }

  /**
   * `String.compareTo`: compares the UTF-16 code units, not the characters,
   * so a character from U+10000 up (a surrogate pair, from 0xD800) sorts
   * before U+E000..U+FFFF.
   */
  function StrCompare(a: string, b: string): (r: int)
    ensures |a| == 0 || |b| == 0 ==> r == |Units(a)| - |Units(b)|
  {
    CompareUnits(Units(a), Units(b))
  }

  /** U+FFFF sorts after U+10000, unlike their code points. */
  lemma SurrogatesSortLow()
    ensures StrCompare("\U{FFFF}", "\U{10000}") > 0
  {
    assert Units("\U{FFFF}") == [0xFFFF];
    assert Units("\U{10000}") == [0xD800, 0xDC00];
  }

  lemma {:induction false} CompareUnitsAntisymmetric(a: seq<int>, b: seq<int>)
    ensures CompareUnits(a, b) == -CompareUnits(b, a)
  {
    if |a| > 0 && |b| > 0 && a[0] == b[0] {
      CompareUnitsAntisymmetric(a[1..], b[1..]);
    }
  }

  lemma {:induction false} CompareUnitsZero(a: seq<int>, b: seq<int>)
    ensures CompareUnits(a, b) == 0 <==> a == b
  {
    if |a| > 0 && |b| > 0 {
      if a[0] == b[0] {
        CompareUnitsZero(a[1..], b[1..]);
        assert a == [a[0]] + a[1..] && b == [b[0]] + b[1..];
      } else {
        assert a[0] != b[0];
      }
    }
  }

  lemma {:induction false} CompareUnitsTransitive(a: seq<int>, b: seq<int>, c: seq<int>)
    requires CompareUnits(a, b) < 0 && CompareUnits(b, c) < 0
    ensures CompareUnits(a, c) < 0
  {
    if |a| > 0 && |b| > 0 && |c| > 0 && a[0] == b[0] && b[0] == c[0] {
      CompareUnitsTransitive(a[1..], b[1..], c[1..]);
    }
  }

  lemma StrCompareAntisymmetric(a: string, b: string)
    ensures StrCompare(a, b) == -StrCompare(b, a)
  {
    CompareUnitsAntisymmetric(Units(a), Units(b));
  }

  lemma StrCompareZero(a: string, b: string)
    ensures StrCompare(a, b) == 0 <==> a == b
  {
    CompareUnitsZero(Units(a), Units(b));
    if Units(a) == Units(b) {
      UnitsInjective(a, b);
    }
  }

  lemma StrCompareTransitive(a: string, b: string, c: string)
    requires StrCompare(a, b) < 0 && StrCompare(b, c) < 0
    ensures StrCompare(a, c) < 0
  {
    CompareUnitsTransitive(Units(a), Units(b), Units(c));
  }

  /** `compareTo`: `compareValuesBy(this, other, { it.namespace }, { it.name })`. */
  function Compare(x: CppClass, y: CppClass): int
  {
    var c := StrCompare(x.namespace, y.namespace);
    if c != 0 then c else StrCompare(x.name, y.name)
  }

  /** Swapping the operands negates the result. */
  lemma CompareAntisymmetric(x: CppClass, y: CppClass)
    ensures Compare(x, y) == -Compare(y, x)
  {
    StrCompareAntisymmetric(x.namespace, y.namespace);
    StrCompareAntisymmetric(x.name, y.name);
  }

  /** Two classes compare equal exactly when namespace and name agree. */
  lemma CompareZero(x: CppClass, y: CppClass)
    ensures Compare(x, y) == 0 <==> x.namespace == y.namespace && x.name == y.name
  {
    StrCompareZero(x.namespace, y.namespace);
    StrCompareZero(x.name, y.name);
  }

  /** "Comes before" is transitive. */
  lemma CompareTransitive(x: CppClass, y: CppClass, z: CppClass)
    requires Compare(x, y) < 0 && Compare(y, z) < 0
    ensures Compare(x, z) < 0
  {
    var ab, bc := StrCompare(x.namespace, y.namespace), StrCompare(y.namespace, z.namespace);
    StrCompareZero(x.namespace, y.namespace);
    StrCompareZero(y.namespace, z.namespace);
    StrCompareZero(x.namespace, z.namespace);
    if ab < 0 && bc < 0 {
      StrCompareTransitive(x.namespace, y.namespace, z.namespace);
    } else if ab == 0 && bc == 0 {
      StrCompareTransitive(x.name, y.name, z.name);
    }
  }

  /** The namespace decides whenever it differs, whatever the names are. */
  lemma NamespaceDominates(x: CppClass, y: CppClass)
    requires x.namespace != y.namespace
    ensures Compare(x, y) == StrCompare(x.namespace, y.namespace) != 0
  {
    StrCompareZero(x.namespace, y.namespace);
  }

  /**
   * The header file name takes no part: two classes that differ only in it
   * compare as equal although they are different values.
   */
  lemma HeaderFileNameIgnored(x: CppClass, h: string)
    requires h != x.headerFileName
    ensures Compare(x, x.(headerFileName := h)) == 0
    ensures x != x.(headerFileName := h)
  {
    CompareZero(x, x.(headerFileName := h));
  }
}
