/** PHP scalars and PHP's ordered arrays, as far as the column-family accessor relies on them. */
module Php {

  datatype Option<T> = None | Some(value: T)

  datatype Result<T, E> = Ok(value: T) | Err(error: E)

  type Byte = x: int | 0 <= x < 256

  /** A PHP string is a sequence of bytes. */
  type Bytes = seq<Byte>

  /** PHP's integer on a 64-bit build: two's complement, 64 bits. */
  type Int64 = x: int | -0x8000_0000_0000_0000 <= x < 0x8000_0000_0000_0000

  const INT64_MIN: Int64 := -0x8000_0000_0000_0000
  const INT64_MAX: Int64 := 0x7fff_ffff_ffff_ffff

  /** The scalars that column names and column values take: null, a string or an integer. */
  datatype Value = Null | Str(s: Bytes) | Int(n: Int64)

  const ZERO_DIGIT: Byte := 48
  const MINUS_SIGN: Byte := 45
  const PLUS_SIGN: Byte := 43

  /** PHP's conversion to boolean: null, "", "0" and 0 are false, every other scalar is true. */
  predicate Truthy(v: Value)
    ensures Truthy(v) ==> IsKey(v)
  {
    match v
    case Null => false
    case Str(s) => s != [] && s != [ZERO_DIGIT]
    case Int(n) => n != 0
  }

  // ---------------------------------------------------------------------------
  // Conversions PHP applies implicitly

  /** The decimal digits of a natural number, without leading zeros. */
  function DecimalDigits(n: nat): (r: Bytes)
    ensures |r| > 0
    decreases n
  {
    if n < 10 then [ZERO_DIGIT + n] else DecimalDigits(n / 10) + [ZERO_DIGIT + n % 10]
  }

  /** A scalar used where a string is expected: null is "", an integer is its decimal form. */
  function ToPhpString(v: Value): Bytes {
    match v
    case Null => []
    case Str(s) => s
    case Int(n) => if n < 0 then [MINUS_SIGN] + DecimalDigits(0 - n as int) else DecimalDigits(n)
  }

  predicate IsDigit(b: Byte) { ZERO_DIGIT <= b < ZERO_DIGIT + 10 }

  /** The number of leading decimal digits of s. */
  function DigitRun(s: Bytes): (k: nat)
    ensures k <= |s|
    ensures forall i :: 0 <= i < k ==> IsDigit(s[i])
    ensures k < |s| ==> !IsDigit(s[k])
  {
    if s == [] || !IsDigit(s[0]) then 0 else 1 + DigitRun(s[1..])
  }

  /** The value of a string of decimal digits. */
  function DigitsValue(d: Bytes): nat
    requires forall i :: 0 <= i < |d| ==> IsDigit(d[i])
  {
    if d == [] then 0
    else
      assert IsDigit(d[|d| - 1]);
      DigitsValue(d[..|d| - 1]) * 10 + (d[|d| - 1] as int - ZERO_DIGIT as int)
  }

  function Clamp64(x: int): Int64 {
    if x < INT64_MIN then INT64_MIN else if x > INT64_MAX then INT64_MAX else x
  }

  /** The integer PHP reads from the front of a string: an optional sign and the leading decimal
      digits, saturating at the 64-bit bounds; a string without leading digits reads as 0. */
  function LeadingInt(s: Bytes): Int64 {
    if s != [] && (s[0] == MINUS_SIGN || s[0] == PLUS_SIGN) then
      var mag: int := DigitsValue(s[1..][..DigitRun(s[1..])]);
      Clamp64(if s[0] == MINUS_SIGN then -mag else mag)
    else
      Clamp64(DigitsValue(s[..DigitRun(s)]))
  }

  /** A scalar used where an integer is expected (an operand of `>>`). */
  function ToPhpInt(v: Value): Int64 {
    match v
    case Null => 0
    case Str(s) => LeadingInt(s)
    case Int(n) => n
  }

  /** The digits of n are decimal digits, and read back as n. */
  lemma {:induction false} DecimalDigitsValue(n: nat)
    ensures forall i :: 0 <= i < |DecimalDigits(n)| ==> IsDigit(DecimalDigits(n)[i])
    ensures DigitsValue(DecimalDigits(n)) == n
    decreases n
  {
    if n >= 10 {
      DecimalDigitsValue(n / 10);
      var d := DecimalDigits(n);
      assert d[..|d| - 1] == DecimalDigits(n / 10);
    }
  }

  /** An integer used as a string and then as an integer is the same integer: PHP reads the
      decimal form of every 64-bit integer, its minimum included, back exactly. */
  lemma IntStringRoundTrip(n: Int64)
    ensures ToPhpInt(Str(ToPhpString(Int(n)))) == n
  {
    var m: nat := if n < 0 then 0 - n as int else n;
    DecimalDigitsValue(m);
    var d := DecimalDigits(m);
    assert DigitRun(d) == |d|;
    assert d[..|d|] == d;
    assert IsDigit(d[0]);
    if n < 0 {
      assert ([MINUS_SIGN] + d)[1..] == d;
    }
  }

  // ---------------------------------------------------------------------------
  // Ordered arrays

  /** An array key is a string or an integer, never null. */
  predicate IsKey(k: Value) { !k.Null? }

  /** The key PHP stores under when `$a[$k]` is assigned: null becomes "". */
  function KeyOf(v: Value): (k: Value)
    ensures IsKey(k)
    ensures IsKey(v) ==> k == v
  {
    if v.Null? then Str([]) else v
  }

  /** A PHP array: (key, value) pairs in insertion order. */
  type PArray<V> = seq<(Value, V)>

  function KeysOf<V>(a: PArray<V>): seq<Value> {
    seq(|a|, i requires 0 <= i < |a| => a[i].0)
  }

  predicate HasKey<V>(a: PArray<V>, k: Value) {
    exists i :: 0 <= i < |a| && a[i].0 == k
  }

  /** What a genuine PHP array satisfies: its keys are keys, each at most once. */
  ghost predicate WellFormed<V>(a: PArray<V>) {
    && (forall i :: 0 <= i < |a| ==> IsKey(a[i].0))
    && (forall i, j :: 0 <= i < j < |a| ==> a[i].0 != a[j].0)
  }

  /** The position of the first entry stored under k, or |a| when there is none. */
  function IndexOf<V>(a: PArray<V>, k: Value): (i: nat)
    ensures i <= |a|
    ensures i < |a| ==> a[i].0 == k
    ensures forall j :: 0 <= j < i ==> a[j].0 != k
  {
    if a == [] then 0
    else if a[0].0 == k then 0
    else 1 + IndexOf(a[1..], k)
  }

  /** `$a[$k]`: the value stored under k, if any. */
  function Lookup<V>(a: PArray<V>, k: Value): (r: Option<V>)
    ensures r.Some? <==> HasKey(a, k)
    ensures r.Some? ==> (k, r.value) in a
  {
    var i := IndexOf(a, k);
    if i < |a| then Some(a[i].1) else None
  }

  /** `$a[$k] = $v`: a present key keeps its position and gets the new value; a new key is
      appended at the end. */
  function Put<V>(a: PArray<V>, k: Value, v: V): (r: PArray<V>)
    ensures Lookup(r, k) == Some(v)
    ensures HasKey(a, k) ==> |r| == |a|
    ensures !HasKey(a, k) ==> r == a + [(k, v)]
  {
    var i := IndexOf(a, k);
    if i < |a| then
      var r := a[i := (k, v)];
      assert KeysOf(r) == KeysOf(a);
      SameKeysSameIndex(r, a, k);
      r
    else
      var r := a + [(k, v)];
      assert IndexOf(r, k) == |a| by {
        assert r[|a|].0 == k;
      }
      r
  }

  /** Storing under a present key changes no key and no position. */
  lemma PutKeepsKeys<V>(a: PArray<V>, k: Value, v: V)
    requires HasKey(a, k)
    ensures KeysOf(Put(a, k, v)) == KeysOf(a)
    ensures forall m :: 0 <= m < |a| && m != IndexOf(a, k) ==> Put(a, k, v)[m] == a[m]
  {
  }

  /** Storing under a key keeps an array genuine. */
  lemma PutWellFormed<V>(a: PArray<V>, k: Value, v: V)
    requires WellFormed(a) && IsKey(k)
    ensures WellFormed(Put(a, k, v))
  {
    if HasKey(a, k) {
      PutKeepsKeys(a, k, v);
      var r := Put(a, k, v);
      assert forall m :: 0 <= m < |a| ==> r[m].0 == KeysOf(r)[m] == a[m].0;
    }
  }

  /** Storing under k leaves what every other key finds unchanged. */
  lemma PutOther<V>(a: PArray<V>, k: Value, v: V, k': Value)
    requires k' != k
    ensures Lookup(Put(a, k, v), k') == Lookup(a, k')
    ensures HasKey(Put(a, k, v), k') <==> HasKey(a, k')
  {
    var r := Put(a, k, v);
    if HasKey(a, k) {
      PutKeepsKeys(a, k, v);
      SameKeysSameIndex(r, a, k');
      var j := IndexOf(a, k');
      assert j < |a| ==> r[j] == a[j];
    } else {
      assert forall m :: 0 <= m < |a| ==> r[m] == a[m];
    }
  }

  lemma {:induction false} SameKeysSameIndex<V>(a: PArray<V>, b: PArray<V>, k: Value)
    requires KeysOf(a) == KeysOf(b)
    ensures IndexOf(a, k) == IndexOf(b, k)
  {
    assert |a| == |KeysOf(a)| == |b|;
    assert forall m :: 0 <= m < |a| ==> a[m].0 == KeysOf(a)[m] == b[m].0;
  }
}
