/**
 * `JennyModifier`: the Java modifiers Jenny tracks, decoded either from a
 * reflection modifier bit mask or from annotation-processing element
 * modifiers, and printed in declaration order.
 */
module Modifiers {
  import Text
  import opened Wrappers

  /** Declared in this order; `sorted()` uses it. */
  datatype JennyModifier =
    | PUBLIC | PRIVATE | DEFAULT | STRICT | PROTECTED | STATIC | FINAL
    | VOLATILE | TRANSIENT | NATIVE | ABSTRACT | SYNCHRONIZED

  function Ordinal(m: JennyModifier): (n: nat)
    ensures n < 12
  {
    match m
    case PUBLIC => 0
    case PRIVATE => 1
    case DEFAULT => 2
    case STRICT => 3
    case PROTECTED => 4
    case STATIC => 5
    case FINAL => 6
    case VOLATILE => 7
    case TRANSIENT => 8
    case NATIVE => 9
    case ABSTRACT => 10
    case SYNCHRONIZED => 11
  }

  /** Every modifier, in declaration order. */
  const AllModifiers: seq<JennyModifier> :=
    [PUBLIC, PRIVATE, DEFAULT, STRICT, PROTECTED, STATIC, FINAL,
     VOLATILE, TRANSIENT, NATIVE, ABSTRACT, SYNCHRONIZED]

  lemma AllModifiersOrdered()
    ensures |AllModifiers| == 12
    ensures forall i | 0 <= i < 12 :: Ordinal(AllModifiers[i]) == i
    ensures forall m: JennyModifier :: m in AllModifiers
  {
    forall m: JennyModifier ensures m in AllModifiers {
      assert AllModifiers[Ordinal(m)] == m;
    }
  }

  // ------------------------------------------------------------ reflection bits

  /**
   * The `java.lang.reflect.Modifier` bit `fromReflectionModifiers` tests for
   * `m` (PUBLIC 0x1, PRIVATE 0x2, ... STRICT 0x800); DEFAULT has none.
   */
  function BitIndex(m: JennyModifier): int
  {
    match m
    case PUBLIC => 0
    case PRIVATE => 1
    case PROTECTED => 2
    case STATIC => 3
    case FINAL => 4
    case SYNCHRONIZED => 5
    case VOLATILE => 6
    case TRANSIENT => 7
    case NATIVE => 8
    case ABSTRACT => 10
    case STRICT => 11
    case DEFAULT => -1
  }

  function Pow2(k: nat): (r: nat)
    ensures r >= 1
  {
    if k == 0 then 1 else 2 * Pow2(k - 1)
  }

  /** Bit `k` of the 32-bit two's-complement `int` `x`, as `x & (1 << k) != 0` reads it. */
  predicate Bit(x: int, k: nat)
    requires k < 32
  {
    ((x % 0x1_0000_0000) / Pow2(k)) % 2 == 1
  }

  predicate HasFlag(mask: int, m: JennyModifier)
  {
    m != DEFAULT && Bit(mask, BitIndex(m))
  }

  /**
   * The eleven `Modifier.isX` tests of `fromReflectionModifiers`: each
   * modifier with a bit is added when its bit is set.
   */
  function DecodeBits(mask: int): set<JennyModifier>
  {
    set m <- AllModifiers | m != DEFAULT && Bit(mask, BitIndex(m))
  }

  lemma DecodeBitsOne(mask: int, m: JennyModifier)
    ensures m in DecodeBits(mask) <==> HasFlag(mask, m)
  {
    AllModifiersOrdered();
  }

  /** `JennyModifier.fromReflectionModifiers`: a modifier is present iff its bit is set. */
  function FromReflectionModifiers(mask: int): (r: set<JennyModifier>)
    ensures forall m: JennyModifier :: m in r <==> HasFlag(mask, m)
    ensures DEFAULT !in r
  {
    forall m: JennyModifier ensures m in DecodeBits(mask) <==> HasFlag(mask, m) {
      DecodeBitsOne(mask, m);
    }
    DecodeBits(mask)
  }

  predicate BitsWithin(a: int, b: int)
  {
    forall k: nat | k < 32 :: Bit(a, k) ==> Bit(b, k)
  }

  /** Setting more bits never removes a modifier. */
  lemma FromReflectionMonotone(a: int, b: int)
    requires BitsWithin(a, b)
    ensures FromReflectionModifiers(a) <= FromReflectionModifiers(b)
  {
  }

  // ------------------------------------------------------------ element modifiers

  /** `javax.lang.model.element.Modifier`. */
  datatype ElementModifier =
    | E_PUBLIC | E_PROTECTED | E_PRIVATE | E_ABSTRACT | E_DEFAULT | E_STATIC | E_SEALED
    | E_NON_SEALED | E_FINAL | E_TRANSIENT | E_VOLATILE | E_SYNCHRONIZED | E_NATIVE | E_STRICTFP

  /** The `when` in `fromElementModifiers`; SEALED and NON_SEALED map to null. */
  function ElementToJenny(e: ElementModifier): (r: Option<JennyModifier>)
  {
    match e
    case E_PUBLIC => Some(PUBLIC)
    case E_PRIVATE => Some(PRIVATE)
    case E_PROTECTED => Some(PROTECTED)
    case E_STATIC => Some(STATIC)
    case E_FINAL => Some(FINAL)
    case E_ABSTRACT => Some(ABSTRACT)
    case E_VOLATILE => Some(VOLATILE)
    case E_TRANSIENT => Some(TRANSIENT)
    case E_NATIVE => Some(NATIVE)
    case E_SYNCHRONIZED => Some(SYNCHRONIZED)
    case E_DEFAULT => Some(DEFAULT)
    case E_STRICTFP => Some(STRICT)
    case _ => None
  }

  /** `JennyModifier.fromElementModifiers`: `mapNotNull` then `toSet`. */
  function FromElementModifiers(mods: set<ElementModifier>): (r: set<JennyModifier>)
    ensures forall m: JennyModifier :: m in r <==> exists e :: e in mods && ElementToJenny(e) == Some(m)
    ensures E_SEALED !in mods && E_NON_SEALED !in mods ==> |r| == |mods|
  {
    var r := set e | e in mods && ElementToJenny(e).Some? :: ElementToJenny(e).value;
    if E_SEALED !in mods && E_NON_SEALED !in mods then
      InjectiveImage(mods);
      assert r == set e | e in mods :: ElementToJenny(e).value;
      r
    else r
  }

  /** Distinct mapped element modifiers give distinct Jenny modifiers. */
  lemma {:induction false} InjectiveImage(dom: set<ElementModifier>)
    requires forall e | e in dom :: ElementToJenny(e).Some?
    ensures |set e | e in dom :: ElementToJenny(e).value| == |dom|
    decreases |dom|
  {
    if dom != {} {
      var x :| x in dom;
      var rest := dom - {x};
      InjectiveImage(rest);
      var img := set e | e in dom :: ElementToJenny(e).value;
      var imgRest := set e | e in rest :: ElementToJenny(e).value;
      assert img == imgRest + {ElementToJenny(x).value};
      assert ElementToJenny(x).value !in imgRest;
    }
  }

  /** The element modifier that `fromElementModifiers` maps to `m`. */
  function JennyToElement(m: JennyModifier): (e: ElementModifier)
    ensures ElementToJenny(e) == Some(m)
  {
    match m
    case PUBLIC => E_PUBLIC
    case PRIVATE => E_PRIVATE
    case DEFAULT => E_DEFAULT
    case STRICT => E_STRICTFP
    case PROTECTED => E_PROTECTED
    case STATIC => E_STATIC
    case FINAL => E_FINAL
    case VOLATILE => E_VOLATILE
    case TRANSIENT => E_TRANSIENT
    case NATIVE => E_NATIVE
    case ABSTRACT => E_ABSTRACT
    case SYNCHRONIZED => E_SYNCHRONIZED
  }

  /**
   * Both decoders describe a member alike: the modifiers decoded from a
   * reflection mask, written as element modifiers and decoded again, are the
   * same set.
   */
  lemma DecodersAgree(mask: int)
    ensures FromElementModifiers(set m | m in FromReflectionModifiers(mask) :: JennyToElement(m)) == FromReflectionModifiers(mask)
  {
    var s := FromReflectionModifiers(mask);
    var es := set m | m in s :: JennyToElement(m);
    forall n: JennyModifier ensures n in FromElementModifiers(es) <==> n in s {
      if n in s {
        assert JennyToElement(n) in es;
      }
    }
  }

  // ------------------------------------------------------------ print

  /** The modifiers of `mods` in declaration order, each once. */
  function SortedModifiers(mods: set<JennyModifier>): (r: seq<JennyModifier>)
    ensures forall m :: m in r <==> m in mods
    ensures forall i, j | 0 <= i < j < |r| :: Ordinal(r[i]) < Ordinal(r[j])
    ensures |r| == |mods|
  {
    AllModifiersOrdered();
    var r := FilterFrom(AllModifiers, mods, 0);
    DistinctCard(r, mods);
    r
  }

  function FilterFrom(all: seq<JennyModifier>, mods: set<JennyModifier>, k: nat): (r: seq<JennyModifier>)
    requires forall i | 0 <= i < |all| :: Ordinal(all[i]) == k + i
    ensures forall m :: m in r <==> m in mods && m in all
    ensures forall i, j | 0 <= i < j < |r| :: Ordinal(r[i]) < Ordinal(r[j])
    ensures forall i | 0 <= i < |r| :: Ordinal(r[i]) >= k
  {
    if |all| == 0 then []
    else
      var rest := FilterFrom(all[1..], mods, k + 1);
      if all[0] in mods then [all[0]] + rest else rest
  }

  lemma {:induction false} DistinctCard(r: seq<JennyModifier>, mods: set<JennyModifier>)
    requires forall i, j | 0 <= i < j < |r| :: Ordinal(r[i]) < Ordinal(r[j])
    requires forall m :: m in r <==> m in mods
    ensures |r| == |mods|
    decreases |r|
  {
    if |r| == 0 {
      assert mods == {};
    } else {
      var x := r[0];
      assert forall i | 1 <= i < |r| :: r[i] != x by {
        forall i | 1 <= i < |r| ensures r[i] != x {
          assert Ordinal(r[0]) < Ordinal(r[i]);
        }
      }
      DistinctCard(r[1..], mods - {x});
    }
  }

  function Name(m: JennyModifier): string
  {
    match m
    case PUBLIC => "public"
    case PRIVATE => "private"
    case DEFAULT => "default"
    case STRICT => "strict"
    case PROTECTED => "protected"
    case STATIC => "static"
    case FINAL => "final"
    case VOLATILE => "volatile"
    case TRANSIENT => "transient"
    case NATIVE => "native"
    case ABSTRACT => "abstract"
    case SYNCHRONIZED => "synchronized"
  }

  function Names(ms: seq<JennyModifier>): (r: seq<string>)
    ensures |r| == |ms|
    ensures forall i | 0 <= i < |ms| :: r[i] == Name(ms[i])
  {
    if |ms| == 0 then [] else [Name(ms[0])] + Names(ms[1..])
  }

  /** `Collection<JennyModifier>.print()`: sorted, lower-cased, space separated. */
  function Print(mods: set<JennyModifier>): string
  {
    Text.Join(Names(SortedModifiers(mods)), " ")
  }
}
