/**
 * The JavaScript values the utilities and mixins work on, reduced to what
 * their logic observes: primitives, plain objects as ordered entry lists,
 * records as field maps, and the tree node shape with one fixed children field.
 */
module Js {

  datatype Option<+T> = None | Some(value: T)

  /** A plain object's own property, as `Object.entries` lists it. */
  datatype Entry = Entry(key: string, val: Val)

  /**
   * A JavaScript value. `Obj` is a plain object with its entries in the order
   * `Object.entries` lists them; for string keys that are not integer-like this
   * is insertion order.
   */
  datatype Val =
    | Undef
    | Null
    | Bool(b: bool)
    | Num(n: int)
    | Str(s: string)
    | Obj(props: seq<Entry>)

  /** A record: property name to value; a missing property reads as `undefined`. */
  type Rec = map<string, Val>

  function Get(r: Rec, k: string): (v: Val)
    ensures k !in r ==> v == Undef
  {
    if k in r then r[k] else Undef
  }

  /** ToBoolean: the falsy values are undefined, null, false, 0 and the empty string. */
  predicate Truthy(v: Val) {
    match v
    case Undef => false
    case Null => false
    case Bool(b) => b
    case Num(n) => n != 0
    case Str(s) => s != ""
    case Obj(_) => true
  }

  /** `a || b` */
  function Or(a: Val, b: Val): (r: Val)
    ensures Truthy(a) ==> r == a
    ensures !Truthy(a) ==> r == b
  {
    if Truthy(a) then a else b
  }

  /** Property read on a plain object: the value of the first entry with key `k`. */
  function Lookup(props: seq<Entry>, k: string): (v: Val)
    ensures (forall i :: 0 <= i < |props| ==> props[i].key != k) ==> v == Undef
    ensures v != Undef ==> exists i :: 0 <= i < |props| && props[i].key == k && props[i].val == v
  {
    if props == [] then Undef
    else if props[0].key == k then props[0].val
    else Lookup(props[1..], k)
  }

  function Keys(props: seq<Entry>): (ks: set<string>)
    ensures forall i :: 0 <= i < |props| ==> props[i].key in ks
    ensures forall k :: k in ks ==> exists i :: 0 <= i < |props| && props[i].key == k
  {
    set i | 0 <= i < |props| :: props[i].key
  }

  /** Property names of an object are distinct. */
  predicate DistinctKeys(props: seq<Entry>) {
    forall i, j :: 0 <= i < j < |props| ==> props[i].key != props[j].key
  }

  lemma {:induction false} LookupFound(props: seq<Entry>, i: nat)
    requires DistinctKeys(props) && i < |props|
    ensures Lookup(props, props[i].key) == props[i].val
  {
    if i > 0 {
      assert props[0].key != props[i].key;
      LookupFound(props[1..], i - 1);
    }
  }

  // ---------------------------------------------------------------------------
  // Numbers as text
  // ---------------------------------------------------------------------------

  function DigitChar(d: nat): (c: char)
    requires d < 10
    ensures '0' <= c <= '9'
  {
    (48 + d) as char
  }

  predicate IsDigit(c: char) { '0' <= c <= '9' }

  function DigitValue(c: char): (d: nat)
    requires IsDigit(c)
    ensures d < 10 && DigitChar(d) == c
  {
    c as int - 48
  }

  /** Decimal digits of a non-negative integer, most significant first, no leading zeros. */
  function Digits(n: nat): (s: string)
    ensures |s| >= 1
    ensures forall i :: 0 <= i < |s| ==> IsDigit(s[i])
    ensures s[|s| - 1] == DigitChar(n % 10)
    ensures (|s| == 1) == (n < 10)
  {
    if n < 10 then [DigitChar(n)] else Digits(n / 10) + [DigitChar(n % 10)]
  }

  /** Inverse of `Digits`: reads a digit string as a number. */
  function ParseDigits(s: string): nat
    requires forall i :: 0 <= i < |s| ==> IsDigit(s[i])
  {
    if s == [] then 0 else ParseDigits(s[..|s| - 1]) * 10 + DigitValue(s[|s| - 1])
  }

  lemma {:induction false} DigitsRoundTrip(n: nat)
    ensures ParseDigits(Digits(n)) == n
  {
    var s := Digits(n);
    if n >= 10 {
      DigitsRoundTrip(n / 10);
      assert s[..|s| - 1] == Digits(n / 10);
    } else {
      assert s[..|s| - 1] == [];
    }
  }

  /** `String(n)` for an integer with `|n| < 10^21`; larger magnitudes print in exponent form. */
  function NumToString(n: int): (s: string)
    ensures n >= 0 ==> s == Digits(n)
    ensures n < 0 ==> s == "-" + Digits(-n)
  {
    if n < 0 then "-" + Digits(-n) else Digits(n)
  }

  /** The property key a value becomes when used as `obj[value]` (ToPropertyKey). */
  function PropertyKey(v: Val): string {
    match v
    case Undef => "undefined"
    case Null => "null"
    case Bool(b) => if b then "true" else "false"
    case Num(n) => NumToString(n)
    case Str(s) => s
    case Obj(_) => "[object Object]"
  }

  // ---------------------------------------------------------------------------
  // Trees of records
  // ---------------------------------------------------------------------------

  /**
   * A record of a hierarchy. `children` stands for the configurable children
   * field; an absent field and an empty array are both `[]`, which is all the
   * tree utilities distinguish (`v[childrenKey] && v[childrenKey].length`).
   */
  datatype Node = Node(fields: Rec, children: seq<Node>)

  /** Number of nodes in a tree. */
  function Size(n: Node): nat {
    1 + ForestSize(n.children)
  }

  /** Number of nodes in a forest. */
  function ForestSize(s: seq<Node>): nat {
    if s == [] then 0 else Size(s[0]) + ForestSize(s[1..])
  }

  lemma {:induction false} ForestSizeAppend(a: seq<Node>, b: seq<Node>)
    ensures ForestSize(a + b) == ForestSize(a) + ForestSize(b)
  {
    if a == [] {
      assert a + b == b;
    } else {
      assert (a + b)[1..] == a[1..] + b;
      ForestSizeAppend(a[1..], b);
    }
  }
}
