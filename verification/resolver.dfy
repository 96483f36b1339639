/**
 * `JennyMethodOverloadResolver.resolve`: every method becomes a
 * `JennyMethodRecord` at its own position; a method whose parameter key is
 * shared with another method, or whose name is a C++ reserved word, gets the
 * overload postfix of `getMethodOverloadPostfix`, and any other method keeps
 * the record's default postfix.
 *
 * The key function (`MethodParameterResolver`), the reserved-word list and
 * the record's default postfix are parameters.
 */
module Resolver {
  import opened Wrappers
  import opened Elements
  import opened Records
  import opened HeaderDefs

  /** The parameter keys of the methods, in order. */
  function Keys(input: seq<Element>, key: Element -> string): (r: seq<string>)
    ensures |r| == |input|
    ensures forall i | 0 <= i < |input| :: r[i] == key(input[i])
  {
    if |input| == 0 then [] else [key(input[0])] + Keys(input[1..], key)
  }

  /**
   * The first pass: `overloadMap[k] = overloadMap.containsKey(k)` for each key
   * in turn.
   */
  function OverloadMap(keys: seq<string>): (m: map<string, bool>)
    ensures forall k :: k in m <==> k in keys
  {
    if |keys| == 0 then map[]
    else
      var m := OverloadMap(keys[..|keys| - 1]);
      var k := keys[|keys| - 1];
      assert keys == keys[..|keys| - 1] + [k];
      m[k := k in m]
  }

  /** After the first pass a key maps to true exactly when it occurs at least twice. */
  lemma {:induction false} OverloadMapCounts(keys: seq<string>)
    ensures forall k | k in OverloadMap(keys) :: OverloadMap(keys)[k] <==> multiset(keys)[k] >= 2
  {
    if |keys| > 0 {
      var init := keys[..|keys| - 1];
      var last := keys[|keys| - 1];
      assert keys == init + [last];
      OverloadMapCounts(init);
      assert multiset(keys) == multiset(init) + multiset{last};
      forall k | k in OverloadMap(keys)
        ensures OverloadMap(keys)[k] <==> multiset(keys)[k] >= 2
      {
        if k == last {
          assert k in OverloadMap(init) <==> multiset(init)[k] >= 1;
        }
      }
    }
  }

  /** Some other position holds the same key. */
  predicate Duplicated(keys: seq<string>, i: int)
    requires 0 <= i < |keys|
  {
    exists j | 0 <= j < |keys| :: j != i && keys[j] == keys[i]
  }

  /** A key occurs twice exactly when another position repeats it. */
  lemma DuplicatedCount(keys: seq<string>, i: int)
    requires 0 <= i < |keys|
    ensures Duplicated(keys, i) <==> multiset(keys)[keys[i]] >= 2
  {
    var k := keys[i];
    var a, b := keys[..i], keys[i + 1..];
    assert keys == a + [k] + b;
    assert multiset(keys)[k] == multiset(a)[k] + 1 + multiset(b)[k];
    if Duplicated(keys, i) {
      var j :| 0 <= j < |keys| && j != i && keys[j] == k;
      if j < i {
        assert a[j] == k;
      } else {
        assert b[j - i - 1] == k;
      }
    }
    if multiset(keys)[k] >= 2 {
      if multiset(a)[k] >= 1 {
        assert k in a;
        var j :| 0 <= j < |a| && a[j] == k;
        assert keys[j] == k;
      } else {
        assert k in b;
        var j :| 0 <= j < |b| && b[j] == k;
        assert keys[i + 1 + j] == k;
      }
    }
  }

  /** The second pass's test: the key is overloaded or the name is reserved. */
  predicate Postfixed(m: Element, overloads: map<string, bool>, key: Element -> string, reserved: set<string>)
  {
    (key(m) in overloads && overloads[key(m)]) || m.name in reserved
  }

  /** The record for the method at `index`. */
  function Record(m: Element, index: nat, postfixed: bool, defaultPostfix: string): (r: Result<MethodRecord>)
    requires m.IsExecutable()
    ensures r.Failure? <==> postfixed && MethodOverloadPostfix(m).Failure?
    ensures r.Success? ==> r.value.element == m && r.value.index == index
    ensures r.Success? ==> r.value.resolvedPostFix == (if postfixed then MethodOverloadPostfix(m).value else defaultPostfix)
  {
    if postfixed then
      var postfix :- MethodOverloadPostfix(m);
      Success(MethodRecord(m, postfix, index))
    else Success(MethodRecord(m, defaultPostfix, index))
  }

  predicate AllExecutable(ms: seq<Element>)
  {
    forall i | 0 <= i < |ms| :: ms[i].IsExecutable()
  }

  /** `mapIndexed` from position `offset` on; the first method whose postfix throws ends it. */
  function RecordsFrom(ms: seq<Element>, offset: nat, overloads: map<string, bool>, key: Element -> string,
                       reserved: set<string>, defaultPostfix: string): (r: Result<seq<MethodRecord>>)
    requires AllExecutable(ms)
  {
    if |ms| == 0 then Success([])
    else
      var head :- Record(ms[0], offset, Postfixed(ms[0], overloads, key, reserved), defaultPostfix);
      assert forall i | 1 <= i < |ms| :: ms[1..][i - 1] == ms[i];
      var tail :- RecordsFrom(ms[1..], offset + 1, overloads, key, reserved, defaultPostfix);
      Success([head] + tail)
  }

  /** The method is postfixed and its postfix cannot be computed. */
  predicate Unresolvable(m: Element, overloads: map<string, bool>, key: Element -> string, reserved: set<string>)
  {
    m.IsExecutable() && Postfixed(m, overloads, key, reserved) && MethodOverloadPostfix(m).Failure?
  }

  /** The records fail exactly when some method needs a postfix that cannot be computed. */
  lemma {:induction false} RecordsFromFails(ms: seq<Element>, offset: nat, overloads: map<string, bool>, key: Element -> string,
                                            reserved: set<string>, defaultPostfix: string)
    requires AllExecutable(ms)
    ensures RecordsFrom(ms, offset, overloads, key, reserved, defaultPostfix).Failure?
      <==> exists i | 0 <= i < |ms| :: Unresolvable(ms[i], overloads, key, reserved)
  {
    if |ms| > 0 {
      var rest := ms[1..];
      assert AllExecutable(rest);
      RecordsFromFails(rest, offset + 1, overloads, key, reserved, defaultPostfix);
      if exists i | 0 <= i < |rest| :: Unresolvable(rest[i], overloads, key, reserved) {
        var i :| 0 <= i < |rest| && Unresolvable(rest[i], overloads, key, reserved);
        assert Unresolvable(ms[i + 1], overloads, key, reserved);
      }
      if exists i | 0 <= i < |ms| :: Unresolvable(ms[i], overloads, key, reserved) {
        var i :| 0 <= i < |ms| && Unresolvable(ms[i], overloads, key, reserved);
        if i > 0 {
          assert Unresolvable(rest[i - 1], overloads, key, reserved);
        }
      }
    }
  }

  /** Without a failure, record `i` is the record of method `i`, numbered from `offset`. */
  lemma {:induction false} RecordsFromValues(ms: seq<Element>, offset: nat, overloads: map<string, bool>, key: Element -> string,
                                             reserved: set<string>, defaultPostfix: string)
    requires AllExecutable(ms)
    ensures var r := RecordsFrom(ms, offset, overloads, key, reserved, defaultPostfix);
      r.Success? ==> |r.value| == |ms| && forall i | 0 <= i < |ms| ::
        Record(ms[i], offset + i, Postfixed(ms[i], overloads, key, reserved), defaultPostfix) == Success(r.value[i])
  {
    if |ms| > 0 {
      var rest := ms[1..];
      assert AllExecutable(rest);
      RecordsFromValues(rest, offset + 1, overloads, key, reserved, defaultPostfix);
      var r := RecordsFrom(ms, offset, overloads, key, reserved, defaultPostfix);
      if r.Success? {
        var tail := RecordsFrom(rest, offset + 1, overloads, key, reserved, defaultPostfix);
        assert r.value[1..] == tail.value;
        forall i | 1 <= i < |ms|
          ensures Record(ms[i], offset + i, Postfixed(ms[i], overloads, key, reserved), defaultPostfix) == Success(r.value[i])
        {
          assert rest[i - 1] == ms[i] && tail.value[i - 1] == r.value[i];
        }
      }
    }
  }

  /** `resolve(input)` */
  function Resolve(input: seq<Element>, key: Element -> string, reserved: set<string>, defaultPostfix: string): (r: Result<seq<MethodRecord>>)
    requires AllExecutable(input)
    ensures r.Success? ==> |r.value| == |input|
    ensures r.Success? ==> forall i | 0 <= i < |input| :: r.value[i].element == input[i] && r.value[i].index == i
  {
    RecordsFromValues(input, 0, OverloadMap(Keys(input, key)), key, reserved, defaultPostfix);
    RecordsFrom(input, 0, OverloadMap(Keys(input, key)), key, reserved, defaultPostfix)
  }

  /**
   * A record carries the overload postfix exactly when another method shares
   * its key or its name is reserved, and the default postfix otherwise; the
   * resolution fails exactly when one of the postfixes it needs cannot be
   * computed.
   */
  lemma ResolvePostfixes(input: seq<Element>, key: Element -> string, reserved: set<string>, defaultPostfix: string)
    requires AllExecutable(input)
    ensures var r := Resolve(input, key, reserved, defaultPostfix);
      var keys := Keys(input, key);
      && (r.Failure? <==> exists i | 0 <= i < |input| ::
            (Duplicated(keys, i) || input[i].name in reserved) && MethodOverloadPostfix(input[i]).Failure?)
      && (r.Success? ==> forall i | 0 <= i < |input| ::
            r.value[i].resolvedPostFix
            == (if Duplicated(keys, i) || input[i].name in reserved then MethodOverloadPostfix(input[i]).value else defaultPostfix))
  {
    var keys := Keys(input, key);
    var overloads := OverloadMap(keys);
    PostfixedIffShared(input, key, reserved);
    RecordsFromFails(input, 0, overloads, key, reserved, defaultPostfix);
    RecordsFromValues(input, 0, overloads, key, reserved, defaultPostfix);
    var r := Resolve(input, key, reserved, defaultPostfix);
    if r.Failure? {
      var i :| 0 <= i < |input| && Unresolvable(input[i], overloads, key, reserved);
      assert (Duplicated(keys, i) || input[i].name in reserved) && MethodOverloadPostfix(input[i]).Failure?;
    } else {
      forall i | 0 <= i < |input|
        ensures !((Duplicated(keys, i) || input[i].name in reserved) && MethodOverloadPostfix(input[i]).Failure?)
      {
        assert !Unresolvable(input[i], overloads, key, reserved);
      }
    }
  }

  /** The second pass postfixes a method exactly when its key is shared or its name is reserved. */
  lemma PostfixedIffShared(input: seq<Element>, key: Element -> string, reserved: set<string>)
    ensures forall i | 0 <= i < |input| ::
      Postfixed(input[i], OverloadMap(Keys(input, key)), key, reserved) <==> Duplicated(Keys(input, key), i) || input[i].name in reserved
  {
    var keys := Keys(input, key);
    OverloadMapCounts(keys);
    forall i | 0 <= i < |input|
      ensures Postfixed(input[i], OverloadMap(keys), key, reserved) <==> Duplicated(keys, i) || input[i].name in reserved
    {
      DuplicatedCount(keys, i);
      assert keys[i] in keys;
    }
  }

  /** Every method that shares its key with another is postfixed, the first occurrence included. */
  lemma SharedKeysBothPostfixed(input: seq<Element>, key: Element -> string, reserved: set<string>, defaultPostfix: string, i: int, j: int)
    requires AllExecutable(input)
    requires 0 <= i < |input| && 0 <= j < |input| && i != j && key(input[i]) == key(input[j])
    requires Resolve(input, key, reserved, defaultPostfix).Success?
    ensures MethodOverloadPostfix(input[i]) == Success(Resolve(input, key, reserved, defaultPostfix).value[i].resolvedPostFix)
    ensures MethodOverloadPostfix(input[j]) == Success(Resolve(input, key, reserved, defaultPostfix).value[j].resolvedPostFix)
  {
    var keys := Keys(input, key);
    ResolvePostfixes(input, key, reserved, defaultPostfix);
    assert Duplicated(keys, i) && Duplicated(keys, j);
  }
}
