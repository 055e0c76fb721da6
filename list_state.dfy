/**
 * The framework-free logic of `src/mixins/list.ts`: the parameter
 * comparator `isEqual`, selection merging across pages in the popup list,
 * the pagination state of a list, and the computed column, permission and
 * tab values.
 */
module ListState {
  import opened Js

  // ---------------------------------------------------------------------------
  // Loose equality (`==`)
  // ---------------------------------------------------------------------------

  /** `Number(s)` for the integer forms: '' is 0, digits with an optional leading '-'; anything else is NaN. */
  function StrToNum(s: string): (r: Option<int>)
    ensures s == "" ==> r == Some(0)
  {
    if s == "" then Some(0)
    else if forall i :: 0 <= i < |s| ==> IsDigit(s[i]) then Some(ParseDigits(s))
    else if |s| > 1 && s[0] == '-' && forall i :: 1 <= i < |s| ==> IsDigit(s[i]) then
      var m: int := ParseDigits(s[1..]);
      Some(-m)
    else None
  }

  /** How many conversions `==` may still apply to a value: a boolean becomes a number, an object a string. */
  function Weight(v: Val): nat {
    match v
    case Bool(_) => 2
    case Obj(_) => 1
    case _ => 0
  }

  function BoolToNum(b: bool): Val {
    Num(if b then 1 else 0)
  }

  /**
   * The abstract equality `a == b`: `null` and `undefined` equal each other
   * only, a boolean is compared as 0 or 1, an object as the text
   * "[object Object]", and a string against a number as the number it reads as.
   */
  function LooseEq(a: Val, b: Val): (r: bool)
    ensures (a.Undef? || a.Null?) ==> (r <==> b.Undef? || b.Null?)
    ensures a.Num? && b.Num? ==> (r <==> a.n == b.n)
    ensures a.Str? && b.Str? ==> (r <==> a.s == b.s)
    decreases Weight(a) + Weight(b)
  {
    if a.Undef? || a.Null? || b.Undef? || b.Null? then (a.Undef? || a.Null?) && (b.Undef? || b.Null?)
    else if a.Bool? then LooseEq(BoolToNum(a.b), b)
    else if b.Bool? then LooseEq(a, BoolToNum(b.b))
    else if a.Obj? && b.Obj? then a == b
    else if a.Obj? then LooseEq(Str("[object Object]"), b)
    else if b.Obj? then LooseEq(a, Str("[object Object]"))
    else if a.Num? && b.Num? then a.n == b.n
    else if a.Str? && b.Str? then a.s == b.s
    else if a.Num? then StrToNum(b.s) == Some(a.n)
    else StrToNum(a.s) == Some(b.n)
  }

  /** `==` does not depend on the order of its operands. */
  lemma LooseEqSymmetric(a: Val, b: Val)
    ensures LooseEq(a, b) == LooseEq(b, a)
    decreases Weight(a) + Weight(b)
  {
    if a.Undef? || a.Null? || b.Undef? || b.Null? {
    } else if a.Bool? {
      LooseEqSymmetric(BoolToNum(a.b), b);
      if b.Bool? {
        LooseEqSymmetric(BoolToNum(a.b), BoolToNum(b.b));
        LooseEqSymmetric(a, BoolToNum(b.b));
      }
    } else if b.Bool? {
      LooseEqSymmetric(a, BoolToNum(b.b));
    } else if a.Obj? && !b.Obj? {
      LooseEqSymmetric(Str("[object Object]"), b);
    } else if b.Obj? && !a.Obj? {
      LooseEqSymmetric(a, Str("[object Object]"));
    }
  }

  /** Every value is loosely equal to itself (NaN is not modelled). */
  lemma LooseEqReflexive(a: Val)
    ensures LooseEq(a, a)
  {
    if a.Bool? {
      assert LooseEq(a, a) == LooseEq(BoolToNum(a.b), a);
    }
  }

  /** A number equals its decimal text: `1 == '1'`. */
  lemma LooseEqNumberText(n: int)
    ensures LooseEq(Num(n), Str(NumToString(n)))
    ensures LooseEq(Str(NumToString(n)), Num(n))
  {
    if n >= 0 {
      DigitsRoundTrip(n);
    } else {
      DigitsRoundTrip(-n);
      var s := NumToString(n);
      assert s[1..] == Digits(-n);
      assert !(forall i :: 0 <= i < |s| ==> IsDigit(s[i])) by {
        assert !IsDigit(s[0]);
      }
    }
  }

  // ---------------------------------------------------------------------------
  // isEqual
  // ---------------------------------------------------------------------------

  /** `typeof v === 'object'`: plain objects and `null`. */
  predicate IsObjectType(v: Val) {
    v.Obj? || v.Null?
  }

  /** `q[k]`: reading a property of `null` or `undefined` throws a TypeError (`None`). */
  function Prop(q: Val, k: string): (r: Option<Val>)
    ensures r.None? <==> q.Undef? || q.Null?
  {
    match q
    case Undef => None
    case Null => None
    case Obj(ps) => Some(Lookup(ps, k))
    case _ => Some(Undef)
  }

  function ValSize(v: Val): nat {
    match v
    case Obj(ps) => 1 + EntriesSize(ps)
    case _ => 1
  }

  function EntriesSize(ps: seq<Entry>): nat {
    if ps == [] then 0 else ValSize(ps[0].val) + EntriesSize(ps[1..])
  }

  /**
   * The `every` callback of `isEqual` for one entry `[k, v]` of `query1`:
   * `None` is a TypeError thrown on the way.
   */
  function EntryCheck(e: Entry, q2: Val): (r: Option<bool>)
    // a failed property read throws; a primitive value otherwise never does
    ensures Prop(q2, e.key).None? ==> r.None?
    ensures !IsObjectType(e.val) ==> (r.Some? <==> Prop(q2, e.key).Some?)
    // otherwise a primitive side is compared with `==`, and two non-null objects recursively
    ensures Prop(q2, e.key).Some? && !(IsObjectType(e.val) && IsObjectType(Prop(q2, e.key).value)) ==>
              r == Some(LooseEq(e.val, Prop(q2, e.key).value))
    ensures Prop(q2, e.key).Some? && e.val.Obj? && IsObjectType(Prop(q2, e.key).value) ==>
              r == IsEqual(e.val.props, Prop(q2, e.key).value)
    decreases ValSize(e.val), 0
  {
    match Prop(q2, e.key)
    case None => None
    case Some(w) =>
      if IsObjectType(e.val) && IsObjectType(w) then
        if e.val.Null? then None else IsEqual(e.val.props, w)
      else Some(LooseEq(e.val, w))
  }

  /**
   * `isEqual(query1, query2)` on the entries of `query1`: `Some(b)` is the
   * boolean returned, `None` a TypeError (`Object.entries(null)`, or a
   * property read on `null`).
   */
  function IsEqual(q1: seq<Entry>, q2: Val): (r: Option<bool>)
    ensures q1 == [] ==> r == Some(true)
    decreases EntriesSize(q1), 1
  {
    if q1 == [] then Some(true)
    else
      assert EntriesSize(q1) == ValSize(q1[0].val) + EntriesSize(q1[1..]);
      match EntryCheck(q1[0], q2)
      case Some(true) => IsEqual(q1[1..], q2)
      case other => other
  }

  /**
   * Against an object, a `query1` of primitive values is equal exactly when
   * every one of its values is `==` to the property of that name.
   */
  lemma {:induction false} IsEqualFlat(q1: seq<Entry>, ps: seq<Entry>)
    requires forall i :: 0 <= i < |q1| ==> !IsObjectType(q1[i].val)
    ensures IsEqual(q1, Obj(ps)) == Some(forall i :: 0 <= i < |q1| ==> LooseEq(q1[i].val, Lookup(ps, q1[i].key)))
  {
    if q1 != [] {
      IsEqualFlat(q1[1..], ps);
      assert forall i :: 1 <= i < |q1| ==> q1[i] == q1[1..][i - 1];
    }
  }

  /** An object value against an object property is compared by recursing into both. */
  lemma IsEqualNested(k: string, p: seq<Entry>, ps: seq<Entry>)
    requires Lookup(ps, k).Obj?
    ensures IsEqual([Entry(k, Obj(p))], Obj(ps)) == IsEqual(p, Lookup(ps, k))
  {
    assert [Entry(k, Obj(p))][1..] == [];
  }

  /** The first entry whose check does not come back `true`, or `|q1|`. */
  function FirstFailing(q1: seq<Entry>, q2: Val): (k: nat)
    ensures k <= |q1|
    ensures forall j :: 0 <= j < k ==> EntryCheck(q1[j], q2) == Some(true)
    ensures k < |q1| ==> EntryCheck(q1[k], q2) != Some(true)
  {
    if q1 == [] then 0
    else if EntryCheck(q1[0], q2) != Some(true) then 0
    else 1 + FirstFailing(q1[1..], q2)
  }

  /**
   * `every` stops at the first entry that fails or throws: the comparison is
   * true exactly when every entry of `query1` checks out, and otherwise it is
   * the outcome of the first entry that does not.
   */
  lemma {:induction false} IsEqualIsFirstFailure(q1: seq<Entry>, q2: Val)
    ensures var k := FirstFailing(q1, q2);
            IsEqual(q1, q2) == if k == |q1| then Some(true) else EntryCheck(q1[k], q2)
    ensures IsEqual(q1, q2) == Some(true) <==> forall j :: 0 <= j < |q1| ==> EntryCheck(q1[j], q2) == Some(true)
  {
    if q1 != [] && EntryCheck(q1[0], q2) == Some(true) {
      IsEqualIsFirstFailure(q1[1..], q2);
      var k := FirstFailing(q1[1..], q2);
      assert forall j :: 1 <= j < |q1| ==> q1[j] == q1[1..][j - 1];
    }
  }

  /** Only the properties of `query2` named by `query1` are read: `query2` may have anything else. */
  lemma {:induction false} IsEqualReadsOnlyItsKeys(q1: seq<Entry>, q2: Val, q2': Val)
    requires forall i :: 0 <= i < |q1| ==> Prop(q2, q1[i].key) == Prop(q2', q1[i].key)
    ensures IsEqual(q1, q2) == IsEqual(q1, q2')
  {
    if q1 != [] {
      assert EntryCheck(q1[0], q2) == EntryCheck(q1[0], q2');
      IsEqualReadsOnlyItsKeys(q1[1..], q2, q2');
    }
  }

  lemma {:induction false} LookupAppend(ps: seq<Entry>, extra: seq<Entry>, k: string)
    requires k in Keys(ps)
    ensures Lookup(ps + extra, k) == Lookup(ps, k)
  {
    if ps[0].key != k {
      assert (ps + extra)[1..] == ps[1..] + extra;
      LookupAppend(ps[1..], extra, k);
    }
  }

  /** Keys that `query2` has beyond those of `query1` do not change the answer. */
  lemma IsEqualIgnoresExtraKeys(q1: seq<Entry>, ps: seq<Entry>, extra: seq<Entry>)
    requires forall i :: 0 <= i < |q1| ==> q1[i].key in Keys(ps)
    ensures IsEqual(q1, Obj(ps + extra)) == IsEqual(q1, Obj(ps))
  {
    forall i | 0 <= i < |q1|
      ensures Prop(Obj(ps + extra), q1[i].key) == Prop(Obj(ps), q1[i].key)
    {
      LookupAppend(ps, extra, q1[i].key);
    }
    IsEqualReadsOnlyItsKeys(q1, Obj(ps + extra), Obj(ps));
  }

  /** A value without `null` anywhere inside, whose objects have distinct keys. */
  predicate Plain(v: Val) {
    match v
    case Null => false
    case Obj(ps) => DistinctKeys(ps) && forall i :: 0 <= i < |ps| ==> Plain(ps[i].val)
    case _ => true
  }

  lemma {:induction false} SelfEqual(q: seq<Entry>, p: seq<Entry>)
    requires forall i :: 0 <= i < |q| ==> Lookup(p, q[i].key) == q[i].val && Plain(q[i].val)
    ensures IsEqual(q, Obj(p)) == Some(true)
    decreases EntriesSize(q)
  {
    if q != [] {
      var v := q[0].val;
      assert EntriesSize(q) == ValSize(v) + EntriesSize(q[1..]);
      if v.Obj? {
        forall i | 0 <= i < |v.props|
          ensures Lookup(v.props, v.props[i].key) == v.props[i].val
        {
          LookupFound(v.props, i);
        }
        SelfEqual(v.props, v.props);
      } else {
        LooseEqReflexive(v);
      }
      SelfEqual(q[1..], p);
    }
  }

  /** `null` inside both sides is a TypeError, not a match: `isEqual({a: null}, {a: null})` throws. */
  lemma NullValueThrows(k: string)
    ensures IsEqual([Entry(k, Null)], Obj([Entry(k, Null)])) == None
  {
    assert EntryCheck(Entry(k, Null), Obj([Entry(k, Null)])) == None;
  }

  /** An empty object in `query1` matches `null` in `query2`: `isEqual({a: {}}, {a: null})` is true. */
  lemma EmptyObjectMatchesNull(k: string)
    ensures IsEqual([Entry(k, Obj([]))], Obj([Entry(k, Null)])) == Some(true)
  {
    assert EntryCheck(Entry(k, Obj([])), Obj([Entry(k, Null)])) == Some(true);
  }

  /** Objects with distinct keys all the way down; `null` is allowed. */
  predicate Distinct(v: Val) {
    match v
    case Obj(ps) => DistinctKeys(ps) && forall i :: 0 <= i < |ps| ==> Distinct(ps[i].val)
    case _ => true
  }

  /**
   * The entry check with `null` excluded from the recursive case
   * (`v !== null && typeof v === 'object' && ...`): only two objects recurse.
   */
  function EntryCheckCorrected(e: Entry, q2: Val): (r: Option<bool>)
    ensures q2.Obj? ==> r.Some?
    decreases ValSize(e.val), 0
  {
    match Prop(q2, e.key)
    case None => None
    case Some(w) =>
      if e.val.Obj? && w.Obj? then IsEqualCorrected(e.val.props, w)
      else Some(LooseEq(e.val, w))
  }

  /** `isEqual` with the corrected entry check: against an object it never throws. */
  function IsEqualCorrected(q1: seq<Entry>, q2: Val): (r: Option<bool>)
    ensures q1 == [] ==> r == Some(true)
    ensures q2.Obj? ==> r.Some?
    decreases EntriesSize(q1), 1
  {
    if q1 == [] then Some(true)
    else
      assert EntriesSize(q1) == ValSize(q1[0].val) + EntriesSize(q1[1..]);
      match EntryCheckCorrected(q1[0], q2)
      case Some(true) => IsEqualCorrected(q1[1..], q2)
      case other => other
  }

  lemma {:induction false} SelfEqualCorrected(q: seq<Entry>, p: seq<Entry>)
    requires forall i :: 0 <= i < |q| ==> Lookup(p, q[i].key) == q[i].val && Distinct(q[i].val)
    ensures IsEqualCorrected(q, Obj(p)) == Some(true)
    decreases EntriesSize(q)
  {
    if q != [] {
      var v := q[0].val;
      assert EntriesSize(q) == ValSize(v) + EntriesSize(q[1..]);
      if v.Obj? {
        forall i | 0 <= i < |v.props|
          ensures Lookup(v.props, v.props[i].key) == v.props[i].val
        {
          LookupFound(v.props, i);
        }
        SelfEqualCorrected(v.props, v.props);
      } else {
        LooseEqReflexive(v);
      }
      SelfEqualCorrected(q[1..], p);
    }
  }

  /**
   * With `null` excluded from the recursion, every parameter object is equal
   * to itself, `null` values included.
   */
  lemma IsEqualCorrectedReflexive(p: seq<Entry>)
    requires Distinct(Obj(p))
    ensures IsEqualCorrected(p, Obj(p)) == Some(true)
  {
    forall i | 0 <= i < |p|
      ensures Lookup(p, p[i].key) == p[i].val
    {
      LookupFound(p, i);
    }
    SelfEqualCorrected(p, p);
  }

  /** The `isEqual` method of the mixins: `false` unless both parameters are given. */
  function IsEqualParams(p1: Option<seq<Entry>>, p2: Option<seq<Entry>>): (r: Option<bool>)
    ensures p1.None? || p2.None? ==> r == Some(false)
    ensures p1.Some? && p2.Some? ==> r == IsEqual(p1.value, Obj(p2.value))
  {
    if p1.None? || p2.None? then Some(false) else IsEqual(p1.value, Obj(p2.value))
  }

  /** A parameter object without `null` inside is equal to itself. */
  lemma IsEqualReflexive(p: seq<Entry>)
    requires Plain(Obj(p))
    ensures IsEqualParams(Some(p), Some(p)) == Some(true)
  {
    forall i | 0 <= i < |p|
      ensures Lookup(p, p[i].key) == p[i].val
    {
      LookupFound(p, i);
    }
    SelfEqual(p, p);
  }

  /** The comparison is one-directional: `{}` equals `{a: 1}`, but not the other way round. */
  lemma IsEqualIsOneDirectional()
    ensures IsEqualParams(Some([]), Some([Entry("a", Num(1))])) == Some(true)
    ensures IsEqualParams(Some([Entry("a", Num(1))]), Some([])) == Some(false)
  {
    assert EntryCheck(Entry("a", Num(1)), Obj([])) == Some(false);
  }

  // ---------------------------------------------------------------------------
  // Filtering
  // ---------------------------------------------------------------------------

  /** The elements of `s` that satisfy `p`, in order: `filter`, or a loop that pushes them. */
  function Keep<T>(s: seq<T>, p: T -> bool): (r: seq<T>)
    ensures |r| <= |s|
    ensures forall i :: 0 <= i < |r| ==> r[i] in s && p(r[i])
  {
    if s == [] then [] else Keep(s[..|s| - 1], p) + (if p(s[|s| - 1]) then [s[|s| - 1]] else [])
  }

  /** Each element is kept as often as it occurs when it passes, and dropped entirely otherwise. */
  lemma {:induction false} KeepCount<T>(s: seq<T>, p: T -> bool, x: T)
    ensures multiset(Keep(s, p))[x] == if p(x) then multiset(s)[x] else 0
  {
    if s != [] {
      var last := s[|s| - 1];
      KeepCount(s[..|s| - 1], p, x);
      assert s == s[..|s| - 1] + [last];
    }
  }

  lemma KeepMembers<T>(s: seq<T>, p: T -> bool, x: T)
    ensures x in Keep(s, p) <==> x in s && p(x)
  {
    KeepCount(s, p, x);
    assert x in Keep(s, p) <==> multiset(Keep(s, p))[x] > 0;
  }

  /** Filtering a concatenation filters each part: the order of `s` is kept. */
  lemma {:induction false} KeepAppend<T>(a: seq<T>, b: seq<T>, p: T -> bool)
    ensures Keep(a + b, p) == Keep(a, p) + Keep(b, p)
    decreases |b|
  {
    if b == [] {
      assert a + b == a;
    } else {
      var b' := b[..|b| - 1];
      assert (a + b)[..|a + b| - 1] == a + b';
      KeepAppend(a, b', p);
    }
  }

  lemma KeepNone<T>(s: seq<T>, p: T -> bool)
    requires forall i :: 0 <= i < |s| ==> !p(s[i])
    ensures Keep(s, p) == []
  {
    if Keep(s, p) != [] {
      var x := Keep(s, p)[0];
      KeepMembers(s, p, x);
    }
  }

  // ---------------------------------------------------------------------------
  // Merging the selection of the popup list
  // ---------------------------------------------------------------------------

  /** `obj1.some((v) => item[uniqueKey] === v[uniqueKey])` */
  predicate Known(obj1: seq<Rec>, item: Rec, key: string) {
    exists j :: 0 <= j < |obj1| && Get(item, key) == Get(obj1[j], key)
  }

  /** The items of `obj2`, in order, whose unique key matches no item of `obj1`. */
  function NewItems(obj1: seq<Rec>, obj2: seq<Rec>, key: string): (r: seq<Rec>)
    ensures |r| <= |obj2|
    ensures forall i :: 0 <= i < |r| ==> r[i] in obj2 && !Known(obj1, r[i], key)
  {
    Keep(obj2, item => !Known(obj1, item, key))
  }

  /**
   * Every item of `obj2` with an unknown key is kept, each duplicate
   * included, and no item with a known key is.
   */
  lemma NewItemsCount(obj1: seq<Rec>, obj2: seq<Rec>, key: string, x: Rec)
    ensures multiset(NewItems(obj1, obj2, key))[x] == if Known(obj1, x, key) then 0 else multiset(obj2)[x]
    ensures x in NewItems(obj1, obj2, key) <==> x in obj2 && !Known(obj1, x, key)
  {
    KeepCount(obj2, item => !Known(obj1, item, key), x);
    KeepMembers(obj2, item => !Known(obj1, item, key), x);
  }

  /** New items of a concatenation are the new items of each part, in order. */
  lemma NewItemsAppend(obj1: seq<Rec>, a: seq<Rec>, b: seq<Rec>, key: string)
    ensures NewItems(obj1, a + b, key) == NewItems(obj1, a, key) + NewItems(obj1, b, key)
  {
    KeepAppend(a, b, item => !Known(obj1, item, key));
  }

  /** No two items share a unique key value. */
  predicate DistinctKeyVals(s: seq<Rec>, key: string) {
    forall i, j :: 0 <= i < j < |s| ==> Get(s[i], key) != Get(s[j], key)
  }

  /** Merging the same page selection a second time adds nothing. */
  lemma MergeIsIdempotent(checked: seq<Rec>, sel: seq<Rec>, key: string)
    ensures NewItems(checked + NewItems(checked, sel, key), sel, key) == []
  {
    var added := NewItems(checked, sel, key);
    var merged := checked + added;
    forall i | 0 <= i < |sel|
      ensures Known(merged, sel[i], key)
    {
      var x := sel[i];
      if Known(checked, x, key) {
        var j :| 0 <= j < |checked| && Get(x, key) == Get(checked[j], key);
        assert merged[j] == checked[j];
      } else {
        NewItemsCount(checked, sel, key, x);
        var j :| 0 <= j < |added| && added[j] == x;
        assert merged[|checked| + j] == x;
      }
    }
    KeepNone(sel, item => !Known(merged, item, key));
  }

  /** Selections without duplicate keys merge into a selection without duplicate keys. */
  lemma {:induction false} MergeKeepsKeysDistinct(checked: seq<Rec>, sel: seq<Rec>, key: string)
    requires DistinctKeyVals(checked, key) && DistinctKeyVals(sel, key)
    ensures DistinctKeyVals(checked + NewItems(checked, sel, key), key)
  {
    if sel != [] {
      var prev, x := sel[..|sel| - 1], sel[|sel| - 1];
      MergeKeepsKeysDistinct(checked, prev, key);
      var before := NewItems(checked, prev, key);
      assert NewItems(checked, sel, key) == before + (if !Known(checked, x, key) then [x] else []);
      if !Known(checked, x, key) {
        var m := checked + before;
        forall i | 0 <= i < |m|
          ensures Get(m[i], key) != Get(x, key)
        {
          if i >= |checked| {
            var y := before[i - |checked|];
            NewItemsCount(checked, prev, key, y);
            var t :| 0 <= t < |prev| && prev[t] == y;
            assert sel[t] == y;
          }
        }
        assert checked + NewItems(checked, sel, key) == m + [x];
        forall i, j | 0 <= i < j < |m| + 1
          ensures Get((m + [x])[i], key) != Get((m + [x])[j], key)
        {
          if j == |m| {
            assert (m + [x])[j] == x && (m + [x])[i] == m[i];
            assert Get(m[i], key) != Get(x, key);
          } else {
            assert (m + [x])[j] == m[j] && (m + [x])[i] == m[i];
            assert Get(m[i], key) != Get(m[j], key);
          }
        }
      } else {
        assert NewItems(checked, sel, key) == before;
      }
    }
  }

  /** The element table `getTableInstance` reaches, when it does: its checked rows and its current row (`null` is `None`). */
  datatype Table = Table(selection: seq<Rec>, currentRow: Option<Rec>)

  /** `getSelectionData()`: the table's checked rows, or `[]` without a table. */
  function SelectionData(table: Option<Table>): (r: seq<Rec>)
    ensures table.None? ==> r == []
    ensures table.Some? ==> r == table.value.selection
  {
    if table.None? then [] else table.value.selection
  }

  /** `list.some((v) => v[uniqueKey] === item[uniqueKey])`: the index where it stops, or `|page|`. */
  function FirstMatch(page: seq<Rec>, item: Rec, key: string): (j: nat)
    ensures j <= |page|
    ensures j < |page| ==> Get(page[j], key) == Get(item, key)
    ensures forall i :: 0 <= i < j ==> Get(page[i], key) != Get(item, key)
  {
    if page == [] then 0
    else if Get(page[0], key) == Get(item, key) then 0
    else 1 + FirstMatch(page[1..], item, key)
  }

  /** The rows handed to `toggleRowSelection` by the `every`/`some` loops of `updateTableChecked`, in call order. */
  function Toggles(checked: seq<Rec>, page: seq<Rec>, key: string): (r: seq<Rec>)
    ensures |r| <= |checked|
  {
    if checked == [] then []
    else
      var item := checked[|checked| - 1];
      var j := FirstMatch(page, item, key);
      Toggles(checked[..|checked| - 1], page, key) + (if j < |page| then [page[j]] else [])
  }

  /** Only rows of the page are toggled, each sharing its key with a checked item. */
  lemma {:induction false} TogglesFromPage(checked: seq<Rec>, page: seq<Rec>, key: string)
    ensures forall t :: t in Toggles(checked, page, key) ==> t in page && Known(checked, t, key)
  {
    if checked != [] {
      var n := |checked| - 1;
      var prev := checked[..n];
      TogglesFromPage(prev, page, key);
      var j := FirstMatch(page, checked[n], key);
      var r := Toggles(checked, page, key);
      assert r == Toggles(prev, page, key) + (if j < |page| then [page[j]] else []);
      forall t | t in r
        ensures t in page && Known(checked, t, key)
      {
        if t in Toggles(prev, page, key) {
          var k :| 0 <= k < |prev| && Get(t, key) == Get(prev[k], key);
          assert checked[k] == prev[k];
        } else {
          assert t == page[j] && Get(t, key) == Get(checked[n], key);
        }
      }
    }
  }

  /** Every checked item whose key is on the page gets a row with that key toggled. */
  lemma {:induction false} TogglesCoverChecked(checked: seq<Rec>, page: seq<Rec>, key: string)
    ensures forall i :: 0 <= i < |checked| && Known(page, checked[i], key) ==>
              exists t :: t in Toggles(checked, page, key) && Get(t, key) == Get(checked[i], key)
  {
    if checked != [] {
      var n := |checked| - 1;
      var prev := checked[..n];
      TogglesCoverChecked(prev, page, key);
      var j := FirstMatch(page, checked[n], key);
      var r := Toggles(checked, page, key);
      assert r == Toggles(prev, page, key) + (if j < |page| then [page[j]] else []);
      forall i | 0 <= i < |checked| && Known(page, checked[i], key)
        ensures exists t :: t in r && Get(t, key) == Get(checked[i], key)
      {
        if i < n {
          assert checked[i] == prev[i];
          var t :| t in Toggles(prev, page, key) && Get(t, key) == Get(prev[i], key);
          assert t in r;
        } else {
          var k :| 0 <= k < |page| && Get(checked[i], key) == Get(page[k], key);
          assert j <= k;
          assert page[j] in r;
        }
      }
    }
  }

  /**
   * The popup list's selection state: the items checked so far and the
   * selection of the page being left.
   */
  class PopupList {
    /** The `multiple`, `isRouteComp` and `uniqueKey` props. */
    const multiple: bool
    const isRouteComp: bool
    const uniqueKey: string
    var checkedArr: seq<Rec>
    var temporarySelection: seq<Rec>

    /** `created()`: the checked items start as a copy of the `checked` prop. */
    constructor (multiple: bool, isRouteComp: bool, key: string, checked: seq<Rec>)
      ensures this.multiple == multiple && this.isRouteComp == isRouteComp && uniqueKey == key
      ensures checkedArr == checked && temporarySelection == []
    {
      this.multiple := multiple;
      this.isRouteComp := isRouteComp;
      uniqueKey := key;
      checkedArr := checked;
      temporarySelection := [];
    }

    /** `getUniqueData(obj1, obj2, uniqueKey)`: the `every` loop pushing the items `obj1` does not know. */
    static method GetUniqueData(obj1: seq<Rec>, obj2: seq<Rec>, key: string) returns (result: seq<Rec>)
      ensures result == NewItems(obj1, obj2, key)
    {
      result := [];
      for i := 0 to |obj2|
        invariant result == NewItems(obj1, obj2[..i], key)
      {
        var item := obj2[i];
        var status := exists j :: 0 <= j < |obj1| && Get(item, key) == Get(obj1[j], key);
        assert obj2[..i + 1][..i] == obj2[..i];
        if !status {
          result := result + [item];
        }
      }
      assert obj2[..|obj2|] == obj2;
    }

    /**
     * `getCheckedData()`: in a multiple list, the checked items followed by
     * the new items of the table's selection; otherwise the table's current
     * row, if there is one.
     */
    method GetCheckedData(table: Option<Table>) returns (r: seq<Rec>)
      ensures multiple ==> r == checkedArr + NewItems(checkedArr, SelectionData(table), uniqueKey)
      ensures !multiple ==> r == if table.Some? && table.value.currentRow.Some? then [table.value.currentRow.value] else []
    {
      if multiple {
        var a := GetUniqueData(checkedArr, SelectionData(table), uniqueKey);
        r := checkedArr + a;
      } else if table.Some? {
        var currentRow := table.value.currentRow;
        r := if currentRow.Some? then [currentRow.value] else [];
      } else {
        r := [];
      }
    }

    /**
     * `updateTableChecked()`: outside a route component, for every checked
     * item in order, the first row of the page `page` with the same key is
     * toggled in the table; the result is the rows toggled.
     */
    method UpdateTableChecked(page: seq<Rec>, table: Option<Table>) returns (toggled: seq<Rec>)
      ensures toggled == if isRouteComp || checkedArr == [] || table.None? then [] else Toggles(checkedArr, page, uniqueKey)
    {
      toggled := [];
      if isRouteComp || |checkedArr| == 0 || table.None? {
        return;
      }
      for i := 0 to |checkedArr|
        invariant toggled == Toggles(checkedArr[..i], page, uniqueKey)
      {
        var item := checkedArr[i];
        var j := 0;
        while j < |page| && Get(page[j], uniqueKey) != Get(item, uniqueKey)
          invariant j <= |page|
          invariant forall k :: 0 <= k < j ==> Get(page[k], uniqueKey) != Get(item, uniqueKey)
        {
          j := j + 1;
        }
        assert j == FirstMatch(page, item, uniqueKey) by {
          FirstMatchIsFirst(page, item, uniqueKey, j);
        }
        assert checkedArr[..i + 1][..i] == checkedArr[..i];
        if j < |page| {
          toggled := toggled + [page[j]];
        }
      }
      assert checkedArr[..|checkedArr|] == checkedArr;
    }

    /** `mergeCheckData()`: the new items of the page selection join `checkedArr`, and the page selection is cleared. */
    method MergeCheckData()
      modifies this
      ensures checkedArr == old(checkedArr) + NewItems(old(checkedArr), old(temporarySelection), uniqueKey)
      ensures temporarySelection == []
    {
      var added := GetUniqueData(checkedArr, temporarySelection, uniqueKey);
      checkedArr := checkedArr + added;
      temporarySelection := [];
    }

    /**
     * `popupListController(type)`: before a page change the table's selection
     * is kept aside; after it the checked rows are toggled on the new page and
     * the kept selection is merged in. Any other type does nothing.
     */
    method PopupListController(kind: string, page: seq<Rec>, table: Option<Table>) returns (toggled: seq<Rec>)
      modifies this
      ensures kind == "beforePage" ==>
                temporarySelection == SelectionData(table) && checkedArr == old(checkedArr) && toggled == []
      ensures kind == "afterPage" ==>
                && toggled == (if isRouteComp || old(checkedArr) == [] || table.None? then [] else Toggles(old(checkedArr), page, uniqueKey))
                && checkedArr == old(checkedArr) + NewItems(old(checkedArr), old(temporarySelection), uniqueKey)
                && temporarySelection == []
      ensures kind != "beforePage" && kind != "afterPage" ==>
                checkedArr == old(checkedArr) && temporarySelection == old(temporarySelection) && toggled == []
    {
      toggled := [];
      if kind == "beforePage" {
        temporarySelection := SelectionData(table);
      } else if kind == "afterPage" {
        toggled := UpdateTableChecked(page, table);
        MergeCheckData();
      }
    }
  }

  /** A scan that passes only non-matching rows and stops at a match or the end stops where `FirstMatch` does. */
  lemma {:induction false} FirstMatchIsFirst(page: seq<Rec>, item: Rec, key: string, j: nat)
    requires j <= |page|
    requires j < |page| ==> Get(page[j], key) == Get(item, key)
    requires forall k :: 0 <= k < j ==> Get(page[k], key) != Get(item, key)
    ensures FirstMatch(page, item, key) == j
  {
    if page != [] && j > 0 {
      FirstMatchIsFirst(page[1..], item, key, j - 1);
    }
  }

  /**
   * The checked data of a multiple list keeps the checked items in front,
   * covers every row selected in the table, and repeats no key when neither
   * part does.
   */
  lemma CheckedDataCoversSelection(checked: seq<Rec>, table: Option<Table>, key: string)
    requires DistinctKeyVals(checked, key) && DistinctKeyVals(SelectionData(table), key)
    ensures var r := checked + NewItems(checked, SelectionData(table), key);
            && DistinctKeyVals(r, key)
            && (forall i :: 0 <= i < |SelectionData(table)| ==> Known(r, SelectionData(table)[i], key))
            && r[..|checked|] == checked
  {
    var sel := SelectionData(table);
    var r := checked + NewItems(checked, sel, key);
    MergeKeepsKeysDistinct(checked, sel, key);
    MergeIsIdempotent(checked, sel, key);
    forall i | 0 <= i < |sel|
      ensures Known(r, sel[i], key)
    {
      if !Known(r, sel[i], key) {
        KeepMembers(sel, item => !Known(r, item, key), sel[i]);
      }
    }
  }

  // ---------------------------------------------------------------------------
  // Pagination and query
  // ---------------------------------------------------------------------------

  /** The page number after a deletion, for a table now showing `rows` rows. */
  function NextPageNum(rows: nat, pageNum: int): (r: int)
    ensures r == pageNum - 1 <==> rows <= 1 && pageNum > 1
    ensures r == pageNum <==> !(rows <= 1 && pageNum > 1)
    ensures pageNum >= 1 ==> r >= 1
  {
    if rows <= 1 && pageNum > 1 then pageNum - 1 else pageNum
  }

  lemma KeysCons(e: Entry, t: seq<Entry>)
    ensures Keys([e] + t) == {e.key} + Keys(t)
  {
    var s := [e] + t;
    assert s[0].key == e.key;
    forall x | x in Keys(s)
      ensures x in {e.key} + Keys(t)
    {
      var i :| 0 <= i < |s| && s[i].key == x;
      if i > 0 {
        assert t[i - 1].key == x;
      }
    }
    forall x | x in Keys(t)
      ensures x in Keys(s)
    {
      var i :| 0 <= i < |t| && t[i].key == x;
      assert s[i + 1].key == x;
    }
  }

  /**
   * `props[k] = v` on a plain object: an existing key keeps its place, a new
   * one goes last (the enumeration order of keys that are not integer-like).
   */
  function Assign(props: seq<Entry>, k: string, v: Val): (r: seq<Entry>)
    ensures Keys(r) == Keys(props) + {k}
    ensures |r| == if k in Keys(props) then |props| else |props| + 1
  {
    if props == [] then
      KeysCons(Entry(k, v), []);
      assert [Entry(k, v)] + [] == [Entry(k, v)];
      [Entry(k, v)]
    else if props[0].key == k then
      KeysCons(Entry(k, v), props[1..]);
      KeysCons(props[0], props[1..]);
      [Entry(k, v)] + props[1..]
    else
      var r := Assign(props[1..], k, v);
      KeysCons(props[0], r);
      KeysCons(props[0], props[1..]);
      [props[0]] + r
  }

  /** After `props[k] = v`, `k` reads `v` and every other key reads as before. */
  lemma {:induction false} AssignLookup(props: seq<Entry>, k: string, v: Val, j: string)
    ensures Lookup(Assign(props, k, v), j) == if j == k then v else Lookup(props, j)
  {
    if props != [] && props[0].key != k {
      AssignLookup(props[1..], k, v, j);
    }
  }

  /** `{ ...query, ...pageInfo }` */
  function ParameterOf(query: seq<Entry>, pageNum: int, pageSize: int): (r: seq<Entry>)
    ensures Keys(r) == Keys(query) + {"pageNum", "pageSize"}
  {
    Assign(Assign(query, "pageNum", Num(pageNum)), "pageSize", Num(pageSize))
  }

  /**
   * The request parameters are the query with `pageNum` and `pageSize`
   * taken from the page information, overriding query keys of those names.
   */
  lemma ParameterOverrides(query: seq<Entry>, pageNum: int, pageSize: int, j: string)
    ensures var r := ParameterOf(query, pageNum, pageSize);
            && Keys(r) == Keys(query) + {"pageNum", "pageSize"}
            && Lookup(r, j) == if j == "pageNum" then Num(pageNum) else if j == "pageSize" then Num(pageSize) else Lookup(query, j)
  {
    AssignLookup(query, "pageNum", Num(pageNum), j);
    AssignLookup(Assign(query, "pageNum", Num(pageNum)), "pageSize", Num(pageSize), j);
  }

  // ---------------------------------------------------------------------------
  // Columns
  // ---------------------------------------------------------------------------

  /** `{ type: 'selection' }` */
  function SelectionColumn(): Rec {
    map["type" := Str("selection")]
  }

  /** The label of the operation column. */
  const OperationLabel: string := "\U{64CD}\U{4F5C}"

  /** The `selection` getter: the check-box column a multiple list adds in front. */
  function SelectionOf(multiple: bool, columns: seq<Rec>): (r: seq<Rec>)
    ensures |r| <= 1 && (r != [] ==> r[0] == SelectionColumn())
    ensures r == [] <==> !multiple || (columns != [] && Get(columns[|columns| - 1], "type") == Str("selection"))
  {
    if !multiple then []
    else if |columns| > 0 && Get(columns[|columns| - 1], "type") == Str("selection") then []
    else [SelectionColumn()]
  }

  /**
   * The `finalColumns` getter: the selection column (if any) followed by the
   * columns; outside a route component a trailing operation column is dropped,
   * and the slice never removes the selection column.
   */
  function FinalColumnsOf(isRouteComp: bool, multiple: bool, columns: seq<Rec>): (r: seq<Rec>)
    ensures var drop := !isRouteComp && columns != [] && Get(columns[|columns| - 1], "label") == Str(OperationLabel);
            r == SelectionOf(multiple, columns) + (if drop then columns[..|columns| - 1] else columns)
  {
    var sel := SelectionOf(multiple, columns);
    var cols := sel + columns;
    if !isRouteComp && |columns| > 0 && Get(columns[|columns| - 1], "label") == Str(OperationLabel) then
      assert cols[..|cols| - 1] == sel + columns[..|columns| - 1];
      cols[..|cols| - 1]
    else cols
  }

  /**
   * A multiple list whose columns do not end in a selection column gets one
   * in front; a list that is not multiple never does.
   */
  lemma SelectionColumnInFront(isRouteComp: bool, multiple: bool, columns: seq<Rec>)
    ensures var r := FinalColumnsOf(isRouteComp, multiple, columns);
            && (multiple && (columns == [] || Get(columns[|columns| - 1], "type") != Str("selection")) ==>
                 r != [] && r[0] == SelectionColumn())
            && (!multiple ==> r == (if !isRouteComp && columns != [] && Get(columns[|columns| - 1], "label") == Str(OperationLabel) then columns[..|columns| - 1] else columns))
  {
  }

  /**
   * The key `sortChange` sorts by: the text `column.index()` returns, when
   * `index` is a function returning a non-empty string, else `${prop}Sort`.
   * `index` is the value `column.index()` returns, `None` when it is no function.
   */
  function SortField(prop: string, index: Option<Val>): (r: string)
    ensures r != ""
    ensures r == prop + "Sort" || index == Some(Str(r))
  {
    if index.Some? && index.value.Str? && index.value.s != "" then index.value.s else prop + "Sort"
  }

  /** Storing a value under `k`, then the page information, adds `k`, `pageNum` and `pageSize` to the keys. */
  lemma AssignThenPageKeys(query: seq<Entry>, k: string, v: Val, pageSize: int)
    ensures Keys(ParameterOf(Assign(query, k, v), 1, pageSize)) == Keys(query) + {k, "pageNum", "pageSize"}
  {
    var q := Assign(query, k, v);
    ParameterOverrides(q, 1, pageSize, k);
    assert Keys(q) == Keys(query) + {k};
  }

  /** After storing `v` under `k` and then the page information, every key reads as the last write to it. */
  lemma AssignThenPageLookup(query: seq<Entry>, k: string, v: Val, pageSize: int, j: string)
    ensures Lookup(ParameterOf(Assign(query, k, v), 1, pageSize), j)
         == if j == "pageNum" then Num(1) else if j == "pageSize" then Num(pageSize)
            else if j == k then v else Lookup(query, j)
  {
    ParameterOverrides(Assign(query, k, v), 1, pageSize, j);
    AssignLookup(query, k, v, j);
  }

  /**
   * The request of a sort: page 1, the page size kept, the order (or
   * `undefined`) under the sort field, every other query key as before.
   */
  lemma SortRequest(query: seq<Entry>, prop: string, index: Option<Val>, order: Val, pageSize: int, j: string)
    ensures var k := SortField(prop, index);
            var r := ParameterOf(Assign(query, k, Or(order, Undef)), 1, pageSize);
            && Keys(r) == Keys(query) + {k, "pageNum", "pageSize"}
            && Lookup(r, j) == if j == "pageNum" then Num(1) else if j == "pageSize" then Num(pageSize)
                               else if j == k then Or(order, Undef) else Lookup(query, j)
  {
    AssignThenPageKeys(query, SortField(prop, index), Or(order, Undef), pageSize);
    AssignThenPageLookup(query, SortField(prop, index), Or(order, Undef), pageSize, j);
  }

  /**
   * The list's own state: the rows of the table, the page information, the
   * query and the column definitions.
   */
  class ListMixin {
    /** The `multiple` and `isRouteComp` props. */
    const multiple: bool
    const isRouteComp: bool
    /** `tableData.list`, filled by `getList`. */
    var rows: seq<Rec>
    /** `pageInfo` */
    var pageNum: int
    var pageSize: int
    var query: seq<Entry>
    var columns: seq<Rec>

    /** The initial data: page 1 of 20, no query, no columns, no rows. */
    constructor (multiple: bool, isRouteComp: bool)
      ensures this.multiple == multiple && this.isRouteComp == isRouteComp
      ensures rows == [] && pageNum == 1 && pageSize == 20 && query == [] && columns == []
    {
      this.multiple := multiple;
      this.isRouteComp := isRouteComp;
      rows := [];
      pageNum := 1;
      pageSize := 20;
      query := [];
      columns := [];
    }

    /** The `parameter` getter. */
    function Parameter(): seq<Entry>
      reads this
    {
      ParameterOf(query, pageNum, pageSize)
    }

    /** The `finalColumns` getter. */
    function FinalColumns(): seq<Rec>
      reads this
    {
      FinalColumnsOf(isRouteComp, multiple, columns)
    }

    /**
     * `updatePageNum()`: after a deletion leaves at most one row, step back
     * one page unless already on the first.
     */
    method UpdatePageNum()
      modifies this
      ensures pageNum == NextPageNum(|old(rows)|, old(pageNum))
      ensures rows == old(rows) && pageSize == old(pageSize) && query == old(query) && columns == old(columns)
    {
      var length := |rows|;
      if length <= 1 && pageNum > 1 {
        pageNum := pageNum - 1;
      }
    }

    /** `querySearch(query)`: back to page 1 with the new query; returns the parameters `getList` is called with. */
    method QuerySearch(q: seq<Entry>) returns (request: seq<Entry>)
      modifies this
      ensures pageNum == 1 && query == q
      ensures rows == old(rows) && pageSize == old(pageSize) && columns == old(columns)
      ensures request == ParameterOf(q, 1, old(pageSize))
    {
      pageNum := 1;
      query := q;
      request := Parameter();
    }

    /**
     * `sortChange({ prop, order, column })`: for a column sorted by the server
     * (`sortable === 'custom'`), search again with the order stored under the
     * sort field; `None` is the early return.
     */
    method SortChange(prop: string, order: Val, sortable: Val, index: Option<Val>) returns (request: Option<seq<Entry>>)
      modifies this
      ensures sortable != Str("custom") ==> request == None && pageNum == old(pageNum) && query == old(query)
      ensures sortable == Str("custom") ==>
                var q := Assign(old(query), SortField(prop, index), Or(order, Undef));
                pageNum == 1 && query == q && request == Some(ParameterOf(q, 1, old(pageSize)))
      ensures rows == old(rows) && pageSize == old(pageSize) && columns == old(columns)
    {
      if sortable != Str("custom") {
        return None;
      }
      var r := QuerySearch(Assign(query, SortField(prop, index), Or(order, Undef)));
      request := Some(r);
    }

    /** `pageChange(pageInfo)`: the new page information; returns the parameters `getList` is called with. */
    method PageChange(num: int, size: int) returns (request: seq<Entry>)
      modifies this
      ensures pageNum == num && pageSize == size
      ensures rows == old(rows) && query == old(query) && columns == old(columns)
      ensures request == ParameterOf(old(query), num, size)
    {
      pageNum, pageSize := num, size;
      request := Parameter();
    }
  }

  // ---------------------------------------------------------------------------
  // Permissions and tabs
  // ---------------------------------------------------------------------------

  predicate IsButton(v: Rec) {
    Get(v, "menuType") == Str("F")
  }

  /** `(auth || []).filter((v) => v.menuType === 'F')` */
  function FinalAuth(auth: Option<seq<Rec>>): (r: seq<Rec>)
    ensures auth.None? ==> r == []
  {
    if auth.None? then [] else Keep(auth.value, IsButton)
  }

  /** The permissions kept are exactly the button entries, each as often as it occurs. */
  lemma FinalAuthKeepsButtons(auth: seq<Rec>, x: Rec)
    ensures multiset(FinalAuth(Some(auth)))[x] == if IsButton(x) then multiset(auth)[x] else 0
    ensures x in FinalAuth(Some(auth)) <==> x in auth && IsButton(x)
  {
    KeepCount(auth, IsButton, x);
    KeepMembers(auth, IsButton, x);
  }

  /** The key `p[v[field]]` stores a permission under. */
  function AuthKey(v: Rec, field: string): string {
    PropertyKey(Get(v, field))
  }

  /** `finalAuth.reduce((p, v) => { p[v[field]] = v; return p; }, {})` */
  function AuthObj(finalAuth: seq<Rec>, field: string): (r: map<string, Rec>)
    ensures forall k :: k in r ==> AuthKey(r[k], field) == k
  {
    if finalAuth == [] then map[]
    else
      var v := finalAuth[|finalAuth| - 1];
      AuthObj(finalAuth[..|finalAuth| - 1], field)[AuthKey(v, field) := v]
  }

  /** The permission map has a key for each value of the field, and for no other. */
  lemma {:induction false} AuthObjKeys(finalAuth: seq<Rec>, field: string, k: string)
    ensures k in AuthObj(finalAuth, field) <==> exists i :: 0 <= i < |finalAuth| && AuthKey(finalAuth[i], field) == k
  {
    if finalAuth != [] {
      var n := |finalAuth| - 1;
      var prev := finalAuth[..n];
      AuthObjKeys(prev, field, k);
      assert AuthObj(finalAuth, field) == AuthObj(prev, field)[AuthKey(finalAuth[n], field) := finalAuth[n]];
      if AuthKey(finalAuth[n], field) != k {
        if exists i :: 0 <= i < |finalAuth| && AuthKey(finalAuth[i], field) == k {
          var i :| 0 <= i < |finalAuth| && AuthKey(finalAuth[i], field) == k;
          assert prev[i] == finalAuth[i];
        }
        if exists i :: 0 <= i < |prev| && AuthKey(prev[i], field) == k {
          var i :| 0 <= i < |prev| && AuthKey(prev[i], field) == k;
          assert prev[i] == finalAuth[i];
        }
      }
    }
  }

  /** Each key maps to the last permission carrying that value: later entries overwrite earlier ones. */
  lemma {:induction false} AuthObjLastWins(finalAuth: seq<Rec>, field: string, k: string)
    requires k in AuthObj(finalAuth, field)
    ensures exists i :: 0 <= i < |finalAuth| && AuthKey(finalAuth[i], field) == k && AuthObj(finalAuth, field)[k] == finalAuth[i]
                        && forall j :: i < j < |finalAuth| ==> AuthKey(finalAuth[j], field) != k
  {
    var n := |finalAuth| - 1;
    var prev := finalAuth[..n];
    assert AuthObj(finalAuth, field) == AuthObj(prev, field)[AuthKey(finalAuth[n], field) := finalAuth[n]];
    if AuthKey(finalAuth[n], field) != k {
      AuthObjLastWins(prev, field, k);
      var i :| 0 <= i < |prev| && AuthKey(prev[i], field) == k && AuthObj(prev, field)[k] == prev[i]
               && forall j :: i < j < |prev| ==> AuthKey(prev[j], field) != k;
      assert AuthObj(finalAuth, field)[k] == finalAuth[i] && AuthKey(finalAuth[i], field) == k by {
        assert finalAuth[i] == prev[i];
      }
      forall j | i < j < |finalAuth|
        ensures AuthKey(finalAuth[j], field) != k
      {
        if j < n {
          assert finalAuth[j] == prev[j];
        }
      }
    } else {
      assert AuthObj(finalAuth, field)[k] == finalAuth[n];
    }
  }

  /** `data.find((v) => v.alias === value || v.path === value)`: the index found, or `|data|`. */
  function FindMenu(data: seq<Rec>, value: Val): (j: nat)
    ensures j <= |data|
    ensures j < |data| ==> Get(data[j], "alias") == value || Get(data[j], "path") == value
    ensures forall i :: 0 <= i < j ==> Get(data[i], "alias") != value && Get(data[i], "path") != value
  {
    if data == [] then 0
    else if Get(data[0], "alias") == value || Get(data[0], "path") == value then 0
    else 1 + FindMenu(data[1..], value)
  }

  /** `r?.alias || r?.path` */
  function MenuValue(r: Rec): Val {
    Or(Get(r, "alias"), Get(r, "path"))
  }

  /**
   * `getActiveValue(value, data)`. `data` is the menu list after the default
   * `data = this.auth` has been applied; `None` is a missing list.
   */
  function GetActiveValue(value: Val, data: Option<seq<Rec>>): (r: Val)
    ensures data.None? || data.value == [] ==> r == Or(value, Str(""))
    ensures data.Some? && data.value != [] ==>
              exists i :: 0 <= i < |data.value| && (r == Get(data.value[i], "alias") || r == Get(data.value[i], "path"))
    // the first entry naming `value` decides, unless both its alias and path are falsy
    ensures data.Some? && data.value != [] ==>
              var d := data.value; var j := FindMenu(d, value);
              if j < |d| && Truthy(MenuValue(d[j])) then r == MenuValue(d[j]) else r == MenuValue(d[0])
  {
    if data.None? || |data.value| == 0 then Or(value, Str(""))
    else
      var d := data.value;
      var j := FindMenu(d, value);
      var found := if j < |d| then MenuValue(d[j]) else Undef;
      Or(found, MenuValue(d[0]))
  }

  /** A value that names no menu entry falls back to the first entry's value. */
  lemma ActiveValueUnknown(value: Val, data: seq<Rec>)
    requires data != []
    requires forall i :: 0 <= i < |data| ==> Get(data[i], "alias") != value && Get(data[i], "path") != value
    ensures GetActiveValue(value, Some(data)) == MenuValue(data[0])
  {
    assert FindMenu(data, value) == |data|;
  }

  /**
   * A truthy value naming a menu entry is kept when the first entry it names
   * reports it: by its alias, or by its path when it has no alias.
   */
  lemma ActiveValueKnown(value: Val, data: seq<Rec>)
    requires Truthy(value)
    requires var j := FindMenu(data, value);
             j < |data| && (Get(data[j], "alias") == value || (!Truthy(Get(data[j], "alias")) && Get(data[j], "path") == value))
    ensures GetActiveValue(value, Some(data)) == value
  {
  }

  /** A path picks out its entry, which reports its alias. */
  lemma ActiveValueByPath()
    ensures GetActiveValue(Str("/y"), Some([map["alias" := Str("a"), "path" := Str("/x")],
                                            map["alias" := Str("b"), "path" := Str("/y")]])) == Str("b")
  {
  }
}
