/**
 * `cacheCalc(calcFunc, isAbandon)` of `src/utils/index.ts`: a wrapper that
 * remembers the results of `calcFunc` per sign in a private dictionary.
 * The dictionary is keyed by the property key of the sign, and a stored value
 * is only reused when it is truthy.
 */
module Memo {
  import opened Js

  /** What one call of the wrapper does: the value returned, the new cache, and the arguments `calcFunc` was invoked with, if it was. */
  datatype Outcome = Outcome(result: Val, caches: map<string, Val>, invoked: Option<seq<Val>>)

  /** The arguments handed to `calcFunc`: the sign is dropped when `isAbandon` is set. */
  function CalcArgs(isAbandon: bool, sign: Val, args: seq<Val>): (xs: seq<Val>)
    ensures isAbandon ==> xs == args
    ensures !isAbandon ==> |xs| == |args| + 1 && xs[0] == sign && xs[1..] == args
  {
    if isAbandon then args else [sign] + args
  }

  /** One call `cacheFunc(sign, ...args)` against the cache `caches`. */
  function CallSpec(calcFunc: seq<Val> -> Val, isAbandon: bool, caches: map<string, Val>, sign: Val, args: seq<Val>): (r: Outcome)
    // a hit returns a truthy stored value and leaves the cache alone
    ensures r.invoked.None? ==> Truthy(r.result) && r.caches == caches && PropertyKey(sign) in caches && r.result == caches[PropertyKey(sign)]
    // a miss returns what `calcFunc` gives for the arguments it was handed
    ensures r.invoked.Some? ==> r.invoked.value == CalcArgs(isAbandon, sign, args) && r.result == calcFunc(r.invoked.value)
    ensures r.caches.Keys <= caches.Keys + {PropertyKey(sign)}
    // after a miss, a defined result is stored under the sign's key and `undefined` leaves the cache as it was
    ensures r.invoked.Some? && r.result != Undef ==> r.caches == caches[PropertyKey(sign) := r.result]
    ensures r.result == Undef ==> r.caches == caches
  {
    var k := PropertyKey(sign);
    if k in caches && Truthy(caches[k]) then Outcome(caches[k], caches, None)
    else
      var xs := CalcArgs(isAbandon, sign, args);
      var result := calcFunc(xs);
      Outcome(result, if result != Undef then caches[k := result] else caches, Some(xs))
  }

  /** No cached value is `undefined`: `result !== undefined && (caches[sign] = result)`. */
  predicate NoUndefined(caches: map<string, Val>) {
    forall k :: k in caches ==> caches[k] != Undef
  }

  /** The cache never stores `undefined`, and only the called sign's entry can change. */
  lemma CallKeepsCache(calcFunc: seq<Val> -> Val, isAbandon: bool, caches: map<string, Val>, sign: Val, args: seq<Val>)
    requires NoUndefined(caches)
    ensures var o := CallSpec(calcFunc, isAbandon, caches, sign, args);
            && NoUndefined(o.caches)
            && caches.Keys <= o.caches.Keys
            && (forall k :: k in caches && k != PropertyKey(sign) ==> o.caches[k] == caches[k])
            && (o.invoked.None? <==> PropertyKey(sign) in caches && Truthy(caches[PropertyKey(sign)]))
  {
    var o := CallSpec(calcFunc, isAbandon, caches, sign, args);
    var k := PropertyKey(sign);
    if !(k in caches && Truthy(caches[k])) {
      assert o.result == calcFunc(CalcArgs(isAbandon, sign, args));
      forall j | j in o.caches
        ensures o.caches[j] != Undef
      {
        if j == k && o.result != Undef {
          assert o.caches[j] == o.result;
        } else {
          assert o.caches[j] == caches[j];
        }
      }
    }
  }

  /**
   * Once a call returns a truthy value, the next call with the same sign
   * returns it again without invoking `calcFunc`, whatever its arguments.
   */
  lemma TruthyResultIsReused(calcFunc: seq<Val> -> Val, isAbandon: bool, caches: map<string, Val>, sign: Val, args: seq<Val>, args2: seq<Val>)
    requires Truthy(CallSpec(calcFunc, isAbandon, caches, sign, args).result)
    ensures var o1 := CallSpec(calcFunc, isAbandon, caches, sign, args);
            var o2 := CallSpec(calcFunc, isAbandon, o1.caches, sign, args2);
            o2.result == o1.result && o2.invoked == None && o2.caches == o1.caches
  {
    var o1 := CallSpec(calcFunc, isAbandon, caches, sign, args);
    var k := PropertyKey(sign);
    assert o1.result != Undef;
    assert k in o1.caches && o1.caches[k] == o1.result;
  }

  /**
   * A falsy result other than `undefined` (0, '', false, null) is stored,
   * yet the next call with that sign invokes `calcFunc` again.
   */
  lemma FalsyResultIsRecomputed(calcFunc: seq<Val> -> Val, isAbandon: bool, caches: map<string, Val>, sign: Val, args: seq<Val>, args2: seq<Val>)
    requires var r := CallSpec(calcFunc, isAbandon, caches, sign, args).result; !Truthy(r) && r != Undef
    ensures var o1 := CallSpec(calcFunc, isAbandon, caches, sign, args);
            var o2 := CallSpec(calcFunc, isAbandon, o1.caches, sign, args2);
            && o1.caches[PropertyKey(sign)] == o1.result
            && o2.invoked == Some(CalcArgs(isAbandon, sign, args2))
            && o2.result == calcFunc(CalcArgs(isAbandon, sign, args2))
  {
    var o1 := CallSpec(calcFunc, isAbandon, caches, sign, args);
    var k := PropertyKey(sign);
    assert o1.caches == caches[k := o1.result];
  }

  /**
   * An `undefined` result is not stored: the cache is left as it was, and the
   * next call with that sign invokes `calcFunc` again.
   */
  lemma UndefinedResultIsRecomputed(calcFunc: seq<Val> -> Val, isAbandon: bool, caches: map<string, Val>, sign: Val, args: seq<Val>, args2: seq<Val>)
    requires CallSpec(calcFunc, isAbandon, caches, sign, args).result == Undef
    ensures var o1 := CallSpec(calcFunc, isAbandon, caches, sign, args);
            var o2 := CallSpec(calcFunc, isAbandon, o1.caches, sign, args2);
            && o1.caches == caches
            && o2.invoked == Some(CalcArgs(isAbandon, sign, args2))
            && o2.result == calcFunc(CalcArgs(isAbandon, sign, args2))
  {
  }

  /** The number 1 and the string "1" are the same sign: both index the cache as "1". */
  lemma NumberAndStringSignsShareAnEntry(calcFunc: seq<Val> -> Val, isAbandon: bool, args: seq<Val>)
    requires calcFunc(CalcArgs(isAbandon, Num(1), args)) == Str("one")
    ensures var o1 := CallSpec(calcFunc, isAbandon, map[], Num(1), args);
            var o2 := CallSpec(calcFunc, isAbandon, o1.caches, Str("1"), []);
            o2.result == Str("one") && o2.invoked == None
  {
    assert PropertyKey(Num(1)) == "1" by {
      assert Digits(1) == ['1'];
    }
    assert PropertyKey(Str("1")) == "1";
  }

  /** The closure returned by `cacheCalc`: its captured function, flag and dictionary. */
  class CacheCalc {
    const calcFunc: seq<Val> -> Val
    const isAbandon: bool
    var caches: map<string, Val>
    /** The argument lists `calcFunc` has been invoked with, in order. */
    ghost var invocations: seq<seq<Val>>

    ghost predicate Valid()
      reads this
    {
      NoUndefined(caches)
    }

    /** `cacheCalc(calcFunc, isAbandon)`: an empty dictionary. */
    constructor (f: seq<Val> -> Val, abandon: bool)
      ensures Valid()
      ensures calcFunc == f && isAbandon == abandon
      ensures caches == map[] && invocations == []
    {
      calcFunc := f;
      isAbandon := abandon;
      caches := map[];
      invocations := [];
    }

    /** `cacheFunc(sign, ...args)`. */
    method Call(sign: Val, args: seq<Val>) returns (r: Val)
      requires Valid()
      modifies this
      ensures Valid()
      ensures var o := CallSpec(calcFunc, isAbandon, old(caches), sign, args);
              && r == o.result && caches == o.caches
              && invocations == old(invocations) + (if o.invoked.Some? then [o.invoked.value] else [])
    {
      CallKeepsCache(calcFunc, isAbandon, caches, sign, args);
      var k := PropertyKey(sign);
      if k in caches && Truthy(caches[k]) {
        return caches[k];
      }
      var xs := if isAbandon then args else [sign] + args;
      r := calcFunc(xs);
      invocations := invocations + [xs];
      if r != Undef {
        caches := caches[k := r];
      }
    }
  }
}
