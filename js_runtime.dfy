/** The small part of the JavaScript run time that the thermostat accessory
    relies on: the values a `number` field can hold at run time, subtraction
    and comparison on them, and `String.prototype.split` with a one-character
    separator together with its inverse `Array.prototype.join`. */
module JsRuntime {

  /** A value stored in a field declared `number`: a finite number (an exact
      real here; floating-point rounding is not modelled), one of the two
      infinities (what `Number` gives for "Infinity" or for a decimal too
      large for a double), NaN (what `Number` gives for text that is not
      numeric), or `undefined` (what array destructuring gives for a missing
      element). */
  datatype JsValue = Num(value: real) | PosInf | NegInf | NaN | Undefined

  /** `a - b` where `a` is a finite number: the exact difference for a finite
      `b`, the opposite infinity for an infinite `b`, and NaN otherwise. */
  function Sub(a: real, b: JsValue): (r: JsValue)
    ensures r.Num? <==> b.Num?
    ensures b.Num? ==> r.value + b.value == a
    ensures r.PosInf? <==> b.NegInf?
    ensures r.NegInf? <==> b.PosInf?
    ensures r.NaN? <==> (b.NaN? || b.Undefined?)
  {
    match b
    case Num(x) => Num(a - x)
    case PosInf => NegInf
    case NegInf => PosInf
    case _ => NaN
  }

  /** `v >= c` for a finite `c`: true for +Infinity, false for -Infinity,
      NaN and undefined. */
  predicate AtLeast(v: JsValue, c: real) {
    v.PosInf? || (v.Num? && v.value >= c)
  }

  /** `v <= c` for a finite `c`: true for -Infinity, false for +Infinity,
      NaN and undefined. */
  predicate AtMost(v: JsValue, c: real) {
    v.NegInf? || (v.Num? && v.value <= c)
  }

  /** `v === 0` */
  predicate IsZero(v: JsValue) {
    v == Num(0.0)
  }

  /** `parts.join(sep)` for a non-empty array of strings. */
  function Join(parts: seq<string>, sep: char): string
    requires |parts| >= 1
    decreases |parts|
  {
    if |parts| == 1 then parts[0] else parts[0] + [sep] + Join(parts[1..], sep)
  }

  /** `s.split(sep)`: the maximal separator-free pieces of `s`, in order; the
      empty string splits into one empty piece. */
  function Split(s: string, sep: char): (parts: seq<string>)
    ensures |parts| >= 1
    ensures forall i :: 0 <= i < |parts| ==> sep !in parts[i]
    ensures Join(parts, sep) == s
    decreases |s|
  {
    if s == [] then [[]]
    else
      var rest := Split(s[1..], sep);
      if s[0] == sep then
        [[]] + rest
      else
        var parts := [[s[0]] + rest[0]] + rest[1..];
        assert parts[1..] == rest[1..];
        assert s == [s[0]] + s[1..];
        parts
  }

  /** A string without the separator splits into itself alone. */
  lemma SplitWithoutSeparator(s: string, sep: char)
    requires sep !in s
    ensures Split(s, sep) == [s]
  {
  }

  /** Splitting at the first separator: a separator-free prefix becomes the
      first piece and the rest is split on its own. */
  lemma {:induction false} SplitAfterField(a: string, sep: char, t: string)
    requires sep !in a
    ensures Split(a + [sep] + t, sep) == [a] + Split(t, sep)
  {
    var s := a + [sep] + t;
    if a == [] {
      assert s[0] == sep && s[1..] == t;
    } else {
      assert s[0] == a[0] && s[1..] == a[1..] + [sep] + t;
      SplitAfterField(a[1..], sep, t);
      assert [a[0]] + a[1..] == a;
    }
  }

  /** Round trip: splitting a join of separator-free pieces gives the pieces back. */
  lemma {:induction false} SplitJoin(parts: seq<string>, sep: char)
    requires |parts| >= 1
    requires forall i :: 0 <= i < |parts| ==> sep !in parts[i]
    ensures Split(Join(parts, sep), sep) == parts
    decreases |parts|
  {
    if |parts| == 1 {
      SplitWithoutSeparator(parts[0], sep);
    } else {
      SplitJoin(parts[1..], sep);
      SplitAfterField(parts[0], sep, Join(parts[1..], sep));
      assert [parts[0]] + parts[1..] == parts;
    }
  }

  /** A string has a second piece exactly when it contains the separator. */
  lemma SplitHasSecondPiece(s: string, sep: char)
    ensures |Split(s, sep)| >= 2 <==> sep in s
  {
  }
}
