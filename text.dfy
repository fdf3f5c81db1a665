/** The string primitives the parser and formatter rely on: `str.isdigit`, `int(s)`,
    `int(s, 2)`, `str(n)`, `str.count`, `str.split` and `str.join`, on ASCII text. */
module Text {
  import opened Outcome
  import opened Bits

  predicate IsDigit(c: char)
  {
    '0' <= c <= '9'
  }

  predicate AllDigits(s: string)
  {
    forall i :: 0 <= i < |s| ==> IsDigit(s[i])
  }

  /** `s.isdigit()`: at least one character, and every character a digit. */
  predicate IsDigits(s: string)
  {
    |s| > 0 && AllDigits(s)
  }

  function DigitValue(c: char): nat
    requires IsDigit(c)
  {
    c as int - '0' as int
  }

  function DigitChar(d: nat): (c: char)
    requires d < 10
    ensures IsDigit(c) && DigitValue(c) == d
  {
    ('0' as int + d) as char
  }

  /** `int(s)` for a string of decimal digits, most significant first. */
  function DecimalValue(s: string): nat
    requires AllDigits(s)
  {
    if s == [] then 0 else DecimalValue(s[..|s| - 1]) * 10 + DigitValue(s[|s| - 1])
  }

  /** `int(s, 2)` for a string of decimal digits: rejected when a digit is not 0 or 1. */
  function BinaryValue(s: string): Option<nat>
  {
    if s == [] then Some(0)
    else
      match BinaryValue(s[..|s| - 1])
      case None => None
      case Some(v) =>
        if s[|s| - 1] == '0' then Some(2 * v)
        else if s[|s| - 1] == '1' then Some(2 * v + 1)
        else None
  }

  /** `int(s, 2)` succeeds exactly when every character is 0 or 1. */
  lemma {:induction false} BinaryDigits(s: string)
    ensures BinaryValue(s).Some? <==> forall i :: 0 <= i < |s| ==> s[i] == '0' || s[i] == '1'
  {
    if s != [] {
      var init := s[..|s| - 1];
      BinaryLast(s);
      BinaryDigits(init);
      assert forall i :: 0 <= i < |init| ==> init[i] == s[i];
    }
  }

  /** A binary string of n digits reads as a value below 2^n. */
  lemma {:induction false} BinaryBelow(s: string)
    requires BinaryValue(s).Some?
    ensures BinaryValue(s).value < Pow2(|s|)
  {
    if s != [] {
      BinaryLast(s);
      BinaryBelow(s[..|s| - 1]);
    }
  }

  /** A nonempty string is binary exactly when its initial part is and its last character
      is a binary digit, which is then the lowest bit. */
  lemma BinaryLast(s: string)
    requires s != []
    ensures BinaryValue(s).Some? <==>
      BinaryValue(s[..|s| - 1]).Some? && (s[|s| - 1] == '0' || s[|s| - 1] == '1')
    ensures BinaryValue(s).Some? ==>
      BinaryValue(s).value == 2 * BinaryValue(s[..|s| - 1]).value + if s[|s| - 1] == '1' then 1 else 0
  {
  }

  /** The last binary digit of a concatenation doubles the value of what precedes it and
      adds itself. */
  lemma BinaryLastDigit(a: string, b: string, x: nat)
    requires b != [] && BinaryValue(a + b[..|b| - 1]) == Some(x)
    requires b[|b| - 1] == '0' || b[|b| - 1] == '1'
    ensures BinaryValue(a + b) == Some(2 * x + if b[|b| - 1] == '1' then 1 else 0)
  {
    var s := a + b;
    assert BinaryValue(s[..|s| - 1]) == Some(x) by {
      assert s[..|s| - 1] == a + b[..|b| - 1];
    }
    assert s[|s| - 1] == b[|b| - 1];
    BinaryLast(s);
  }

  /** Reading a concatenation in binary shifts the first part left by the length of the
      second. */
  lemma {:induction false} BinaryConcat(a: string, b: string)
    requires BinaryValue(a).Some? && BinaryValue(b).Some?
    ensures BinaryValue(a + b) == Some(Shl(BinaryValue(a).value, |b|) + BinaryValue(b).value)
  {
    if b == [] {
      assert a + b == a;
    } else {
      var init := b[..|b| - 1];
      BinaryLast(b);
      var va, vi := BinaryValue(a).value, BinaryValue(init).value;
      BinaryConcat(a, init);
      BinaryLastDigit(a, b, Shl(va, |init|) + vi);
    }
  }

  /** `str(n)`: the shortest decimal spelling of n. */
  function DecimalString(n: nat): (s: string)
    ensures IsDigits(s) && DecimalValue(s) == n
    ensures n < 10 ==> |s| == 1
    ensures n < 100 ==> |s| <= 2
    ensures n < 1000 ==> |s| <= 3
  {
    if n < 10 then [DigitChar(n)]
    else
      var s := DecimalString(n / 10) + [DigitChar(n % 10)];
      assert s[..|s| - 1] == DecimalString(n / 10);
      s
  }

  /** `s.count(c)` for a single character. */
  function Count(s: string, c: char): (n: nat)
    ensures n <= |s|
  {
    if s == [] then 0 else (if s[0] == c then 1 else 0) + Count(s[1..], c)
  }

  lemma {:induction false} CountConcat(a: string, b: string, c: char)
    ensures Count(a + b, c) == Count(a, c) + Count(b, c)
  {
    if a == [] {
      assert a + b == b;
    } else {
      assert (a + b)[1..] == a[1..] + b;
      CountConcat(a[1..], b, c);
    }
  }

  lemma {:induction false} CountAbsent(s: string, c: char)
    ensures Count(s, c) == 0 <==> c !in s
  {
    if s != [] {
      CountAbsent(s[1..], c);
      assert s == [s[0]] + s[1..];
    }
  }

  /** `s.split(c)`: the pieces between occurrences of c, empty pieces included. */
  function Split(s: string, c: char): (parts: seq<string>)
    ensures |parts| == Count(s, c) + 1
    ensures forall i :: 0 <= i < |parts| ==> c !in parts[i]
  {
    if s == [] then [[]]
    else
      var rest := Split(s[1..], c);
      if s[0] == c then [[]] + rest
      else [[s[0]] + rest[0]] + rest[1..]
  }

  /** `c.join(parts)`. */
  function Join(parts: seq<string>, c: char): string
    requires |parts| >= 1
  {
    if |parts| == 1 then parts[0] else parts[0] + [c] + Join(parts[1..], c)
  }

  /** Joining the pieces of a split gives back the string. */
  lemma {:induction false} JoinSplit(s: string, c: char)
    ensures Join(Split(s, c), c) == s
  {
    if s != [] {
      var rest := Split(s[1..], c);
      JoinSplit(s[1..], c);
      if s[0] != c && |rest| > 1 {
        assert Join(rest, c) == rest[0] + [c] + Join(rest[1..], c);
      }
    }
  }

  lemma {:induction false} SplitWithout(p: string, c: char)
    requires c !in p
    ensures Split(p, c) == [p]
  {
    if p != [] {
      SplitWithout(p[1..], c);
      assert [p[0]] + p[1..] == p;
    }
  }

  lemma {:induction false} SplitFirst(p: string, t: string, c: char)
    requires c !in p
    ensures Split(p + [c] + t, c) == [p] + Split(t, c)
  {
    if p == [] {
      assert (p + [c] + t)[1..] == t;
    } else {
      assert (p + [c] + t)[1..] == p[1..] + [c] + t;
      SplitFirst(p[1..], t, c);
      assert [p[0]] + p[1..] == p;
    }
  }

  /** Splitting a join of separator-free pieces gives back the pieces. */
  lemma {:induction false} SplitJoin(parts: seq<string>, c: char)
    requires |parts| >= 1
    requires forall i :: 0 <= i < |parts| ==> c !in parts[i]
    ensures Split(Join(parts, c), c) == parts
    ensures Count(Join(parts, c), c) == |parts| - 1
  {
    if |parts| == 1 {
      SplitWithout(parts[0], c);
    } else {
      SplitJoin(parts[1..], c);
      SplitFirst(parts[0], Join(parts[1..], c), c);
      assert [parts[0]] + parts[1..] == parts;
    }
  }

}
