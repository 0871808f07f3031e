/** Shared value types and character classes used by the backend services
    and the frontend helpers. */
module Common {

  /** A value that may be absent: a database row that `findOne` did not
      find, a `parseInt` that produced NaN, a nullable field. */
  datatype Option<+T> = None | Some(value: T)

  /** The outcome of an operation that throws `new Error(message)` on failure. */
  datatype Result<+T> = Ok(value: T) | Err(message: string)

  /** JavaScript's whitespace class, shared by the regular-expression escape
      `\s` and by `String.prototype.trim`: the Unicode space separators plus
      TAB, LF, VT, FF, CR, the line and paragraph separators and the byte
      order mark. */
  predicate IsWhitespace(c: char)
  {
    var u := c as int;
    || (0x09 <= u <= 0x0D)          // TAB, LF, VT, FF, CR
    || u == 0x20 || u == 0xA0 || u == 0x1680
    || (0x2000 <= u <= 0x200A)
    || u == 0x2028 || u == 0x2029   // line and paragraph separators
    || u == 0x202F || u == 0x205F || u == 0x3000
    || u == 0xFEFF                  // byte order mark
  }

  /** The class `[0-9]`, which is also what `\d` matches without the `u` flag. */
  predicate IsDigit(c: char)
  {
    '0' <= c <= '9'
  }

  predicate AllDigits(s: string)
  {
    forall i | 0 <= i < |s| :: IsDigit(s[i])
  }

  function DigitValue(c: char): (d: nat)
    requires IsDigit(c)
    ensures d <= 9
  {
    (c as int) - ('0' as int)
  }

  function DigitChar(d: nat): (c: char)
    requires d <= 9
    ensures IsDigit(c) && DigitValue(c) == d
  {
    (('0' as int) + d) as char
  }

  /** The number a non-empty string of decimal digits denotes. */
  function DecimalValue(s: string): nat
    requires AllDigits(s)
    decreases |s|
  {
    if s == [] then 0 else DecimalValue(s[..|s| - 1]) * 10 + DigitValue(s[|s| - 1])
  }

  /** The decimal rendering of a natural number, as JavaScript prints an
      integral Number below 2^53 (no sign, no leading zeros). */
  function DecimalString(n: nat): (s: string)
    ensures |s| > 0 && AllDigits(s)
    decreases n
  {
    if n < 10 then [DigitChar(n)] else DecimalString(n / 10) + [DigitChar(n % 10)]
  }

  /** Rendering then reading back gives the number: the rendering loses nothing. */
  lemma {:induction false} DecimalRoundTrip(n: nat)
    ensures DecimalValue(DecimalString(n)) == n
    decreases n
  {
    var s := DecimalString(n);
    if n >= 10 {
      DecimalRoundTrip(n / 10);
      assert s[..|s| - 1] == DecimalString(n / 10);
    }
  }

  /** A non-empty set has a member to pick. */
  lemma NonEmptyHasMember(s: set<int>)
    requires s != {}
    ensures exists x :: x in s
  {
    if forall x :: x !in s {
      assert false;
    }
  }

  /** Lists the values of a table keyed by integers, one entry per key, in the
      order the keys happen to be visited; `keys` records that order. This is
      how a `find()` over a whole table reads its rows. */
  method TableValues<V>(m: map<int, V>) returns (r: seq<V>, ghost keys: seq<int>)
    ensures |r| == |keys| == |m|
    ensures forall i | 0 <= i < |keys| :: keys[i] in m && r[i] == m[keys[i]]
    ensures forall k | k in m :: k in keys
    ensures forall i, j | 0 <= i < j < |keys| :: keys[i] != keys[j]
  {
    r, keys := [], [];
    var rest := m.Keys;
    while rest != {}
      invariant rest <= m.Keys
      invariant |r| == |keys| && |keys| + |rest| == |m|
      invariant forall i | 0 <= i < |keys| :: keys[i] in m && keys[i] !in rest && r[i] == m[keys[i]]
      invariant forall k | k in m :: k in keys || k in rest
      invariant forall i, j | 0 <= i < j < |keys| :: keys[i] != keys[j]
      decreases |rest|
    {
      NonEmptyHasMember(rest);
      var key :| key in rest;
      r, keys := r + [m[key]], keys + [key];
      rest := rest - {key};
    }
  }
}
