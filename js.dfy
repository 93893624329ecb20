/**
 * The handful of JavaScript value notions the components rely on:
 * `null`, truthiness, `a || b`, `String(n)` for an integer, and
 * `String.prototype.split` with a one-character separator.
 */
module Js {

  /** A value that may be `null`; `undefined` is not modelled. */
  datatype Option<+T> = None | Some(value: T)

  /** A form value as JavaScript holds it: a number (an id from the server) or a string (from an input). */
  datatype Value = Num(n: int) | Str(s: string)

  /** Truthiness of a possibly-null string: `null` and `""` are falsy. */
  predicate Truthy(o: Option<string>)
  {
    o.Some? && o.value != ""
  }

  /** `o || fallback` for a possibly-null string. */
  function OrElse(o: Option<string>, fallback: string): (r: string)
    ensures Truthy(o) ==> r == o.value
    ensures !Truthy(o) ==> r == fallback
  {
    if Truthy(o) then o.value else fallback
  }

  /** Truthiness of a number or string: `0` and `""` are falsy. */
  predicate ValueTruthy(v: Value)
  {
    match v
    case Num(n) => n != 0
    case Str(s) => s != ""
  }

  /** `o || ""` for a possibly-absent number or string. */
  function ValueOrEmpty(o: Option<Value>): (r: Value)
    ensures o.Some? && ValueTruthy(o.value) ==> r == o.value
    ensures !(o.Some? && ValueTruthy(o.value)) ==> r == Str("")
  {
    if o.Some? && ValueTruthy(o.value) then o.value else Str("")
  }

  // ---------------------------------------------------------------------------
  // String(n) for integers, with its inverse on digit strings

  predicate IsDigit(c: char)
  {
    '0' <= c <= '9'
  }

  function DigitChar(d: int): (c: char)
    requires 0 <= d < 10
    ensures IsDigit(c) && c as int - '0' as int == d
  {
    (d + '0' as int) as char
  }

  /** Decimal notation of a natural number, without leading zeros. */
  function NatToString(n: nat): (s: string)
    ensures |s| >= 1
    ensures forall i :: 0 <= i < |s| ==> IsDigit(s[i])
    decreases n
  {
    if n < 10 then [DigitChar(n)] else NatToString(n / 10) + [DigitChar(n % 10)]
  }

  /** `String(n)` for an integer `n`. */
  function NumberToString(n: int): (s: string)
    ensures |s| >= 1
    ensures (s[0] == '-') <==> n < 0
  {
    if n < 0 then "-" + NatToString(-n) else NatToString(n)
  }

  /** The number a string of digits denotes (the inverse of NatToString). */
  function DigitsValue(s: string): nat
  {
    if |s| == 0 then 0
    else
      var d := s[|s| - 1] as int - '0' as int;
      DigitsValue(s[..|s| - 1]) * 10 + (if 0 <= d < 10 then d else 0)
  }

  lemma {:induction false} DigitsValueOfNatToString(n: nat)
    ensures DigitsValue(NatToString(n)) == n
    decreases n
  {
    var s := NatToString(n);
    if n >= 10 {
      DigitsValueOfNatToString(n / 10);
      assert s[..|s| - 1] == NatToString(n / 10);
    }
  }

  /** `String(a) == String(b)` only when `a == b`. */
  lemma NumberToStringInjective(a: int, b: int)
    requires NumberToString(a) == NumberToString(b)
    ensures a == b
  {
    if a < 0 && b < 0 {
      assert NatToString(-a) == NumberToString(a)[1..] == NumberToString(b)[1..] == NatToString(-b);
      DigitsValueOfNatToString(-a);
      DigitsValueOfNatToString(-b);
    } else if a >= 0 && b >= 0 {
      DigitsValueOfNatToString(a);
      DigitsValueOfNatToString(b);
    }
  }

  /** The message of an error thrown for a non-ok HTTP answer: a fixed prefix, then `String(status)`. */
  function StatusError(prefix: string, status: int): (text: string)
    ensures prefix <= text
    ensures text[|prefix|..] == NumberToString(status)
  {
    prefix + NumberToString(status)
  }

  /** Under one prefix, the message names the status it came from. */
  lemma StatusErrorDeterminesStatus(prefix: string, a: int, b: int)
    requires StatusError(prefix, a) == StatusError(prefix, b)
    ensures a == b
  {
    assert StatusError(prefix, a)[|prefix|..] == NumberToString(a);
    assert StatusError(prefix, b)[|prefix|..] == NumberToString(b);
    NumberToStringInjective(a, b);
  }

  /** `String(v)`: the text a number or string shows as. */
  function ToText(v: Value): string
  {
    match v
    case Num(n) => NumberToString(n)
    case Str(s) => s
  }

  // ---------------------------------------------------------------------------
  // s.split(c) and its inverse, parts.join(c)

  /**
   * `s.split(c)`: the maximal pieces between occurrences of `c`; empty pieces
   * are kept, and the empty string splits into one empty piece.
   */
  function Split(s: string, c: char): (parts: seq<string>)
    ensures |parts| >= 1
    ensures forall i :: 0 <= i < |parts| ==> c !in parts[i]
    decreases |s|
  {
    if |s| == 0 then [""]
    else if s[0] == c then [""] + Split(s[1..], c)
    else
      var rest := Split(s[1..], c);
      [[s[0]] + rest[0]] + rest[1..]
  }

  /** `parts.join(c)`. */
  function Join(parts: seq<string>, c: char): string
    requires |parts| >= 1
    decreases |parts|
  {
    if |parts| == 1 then parts[0] else parts[0] + [c] + Join(parts[1..], c)
  }

  /** Joining a first piece onto at least one more puts one separator between them. */
  lemma JoinCons(first: string, rest: seq<string>, c: char)
    requires |rest| >= 1
    ensures Join([first] + rest, c) == first + [c] + Join(rest, c)
  {
    assert ([first] + rest)[1..] == rest;
  }

  /** The join of a suffix: its first piece, a separator, and the join of the rest. */
  lemma JoinFrom(parts: seq<string>, i: nat, c: char)
    requires i + 1 < |parts|
    ensures Join(parts[i..], c) == parts[i] + [c] + Join(parts[i + 1..], c)
  {
    assert parts[i..][1..] == parts[i + 1..];
  }

  /** Splitting loses nothing: joining the pieces gives back the string. */
  lemma {:induction false} JoinSplit(s: string, c: char)
    ensures Join(Split(s, c), c) == s
    decreases |s|
  {
    if |s| > 0 {
      JoinSplit(s[1..], c);
      var rest := Split(s[1..], c);
      if s[0] != c && |rest| > 1 {
        assert Join(rest, c) == rest[0] + [c] + Join(rest[1..], c);
        assert ([s[0]] + rest[0]) + [c] + Join(rest[1..], c) == [s[0]] + Join(rest, c);
      }
    }
  }

  lemma {:induction false} SplitWithout(a: string, c: char)
    requires c !in a
    ensures Split(a, c) == [a]
    decreases |a|
  {
    if |a| > 0 {
      SplitWithout(a[1..], c);
      assert [a[0]] + a[1..] == a;
    }
  }

  lemma {:induction false} SplitAtFirst(a: string, c: char, b: string)
    requires c !in a
    ensures Split(a + [c] + b, c) == [a] + Split(b, c)
    decreases |a|
  {
    var s := a + [c] + b;
    if |a| == 0 {
      assert s[1..] == b;
    } else {
      assert s[1..] == a[1..] + [c] + b;
      SplitAtFirst(a[1..], c, b);
      assert [a[0]] + a[1..] == a;
    }
  }

  /** Joining pieces free of the separator and splitting again gives back the pieces. */
  lemma {:induction false} SplitJoin(parts: seq<string>, c: char)
    requires |parts| >= 1
    requires forall i :: 0 <= i < |parts| ==> c !in parts[i]
    ensures Split(Join(parts, c), c) == parts
    decreases |parts|
  {
    if |parts| == 1 {
      SplitWithout(parts[0], c);
    } else {
      SplitJoin(parts[1..], c);
      SplitAtFirst(parts[0], c, Join(parts[1..], c));
      assert [parts[0]] + parts[1..] == parts;
    }
  }

  /** The first piece of a split is the longest prefix free of the separator. */
  lemma FirstPiece(s: string, c: char)
    ensures var p := Split(s, c)[0];
      && p <= s
      && c !in p
      && (|p| < |s| ==> s[|p|] == c)
  {
    var parts := Split(s, c);
    JoinSplit(s, c);
    if |parts| > 1 {
      assert Join(parts, c) == parts[0] + [c] + Join(parts[1..], c);
    }
  }
}
