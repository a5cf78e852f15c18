/** The two pieces of Rust's standard string handling that name parsing relies on:
    `str::split` with a one-character pattern, and `str::parse::<i32>`. A decimal
    rendering of `i32` is given as their partner, so that parsing can be stated
    as the inverse of rendering. */
module Text {
  import opened Wrappers

  /** Rust's 32-bit signed integer. */
  newtype i32 = x: int | -0x8000_0000 <= x < 0x8000_0000

  /** `s.split(sep)`: the pieces of `s` between occurrences of `sep`, keeping the
      empty pieces before a leading, after a trailing and between two adjacent
      separators. There is always one more piece than there are separators. */
  function SplitOn(s: string, sep: char): (parts: seq<string>)
    ensures |parts| == Occurrences(s, sep) + 1
    ensures forall p :: p in parts ==> sep !in p
    decreases |s|
  {
    if s == [] then [""]
    else
      var rest := SplitOn(s[1..], sep);
      if s[0] == sep then [""] + rest
      else [[s[0]] + rest[0]] + rest[1..]
  }

  /** How many times `c` occurs in `s`. */
  function Occurrences(s: string, c: char): nat
    decreases |s|
  {
    if s == [] then 0 else (if s[0] == c then 1 else 0) + Occurrences(s[1..], c)
  }

  /** The pieces glued back together with `sep` between neighbours. */
  function Join(parts: seq<string>, sep: char): string
    requires |parts| >= 1
    decreases |parts|
  {
    if |parts| == 1 then parts[0] else parts[0] + [sep] + Join(parts[1..], sep)
  }

  /** Splitting loses nothing: the pieces re-joined give back the string. */
  lemma {:induction false} JoinOfSplit(s: string, sep: char)
    ensures Join(SplitOn(s, sep), sep) == s
    decreases |s|
  {
    if s != [] {
      var rest := SplitOn(s[1..], sep);
      JoinOfSplit(s[1..], sep);
      if s[0] == sep {
        assert SplitOn(s, sep) == [""] + rest;
        assert ([""] + rest)[1..] == rest;
      } else if |rest| > 1 {
        assert Join(rest, sep) == rest[0] + [sep] + Join(rest[1..], sep);
        assert ([[s[0]] + rest[0]] + rest[1..])[1..] == rest[1..];
      }
    }
  }

  /** A string without the separator is a single piece. */
  lemma {:induction false} SplitWithoutSeparator(s: string, sep: char)
    requires sep !in s
    ensures SplitOn(s, sep) == [s]
    decreases |s|
  {
    if s != [] {
      SplitWithoutSeparator(s[1..], sep);
      assert [s[0]] + s[1..] == s;
    }
  }

  /** A separator-free prefix followed by the separator becomes the first piece. */
  lemma {:induction false} SplitAfterPiece(p: string, t: string, sep: char)
    requires sep !in p
    ensures SplitOn(p + [sep] + t, sep) == [p] + SplitOn(t, sep)
    decreases |p|
  {
    var s := p + [sep] + t;
    if p == [] {
      assert s[0] == sep && s[1..] == t;
    } else {
      SplitAfterPiece(p[1..], t, sep);
      assert s[0] == p[0] && s[1..] == p[1..] + [sep] + t;
      assert [p[0]] + p[1..] == p;
    }
  }

  /** Joining separator-free pieces and splitting again gives back the pieces. */
  lemma {:induction false} SplitOfJoin(parts: seq<string>, sep: char)
    requires |parts| >= 1
    requires forall p :: p in parts ==> sep !in p
    ensures SplitOn(Join(parts, sep), sep) == parts
    decreases |parts|
  {
    if |parts| == 1 {
      SplitWithoutSeparator(parts[0], sep);
    } else {
      SplitOfJoin(parts[1..], sep);
      SplitAfterPiece(parts[0], Join(parts[1..], sep), sep);
      assert [parts[0]] + parts[1..] == parts;
    }
  }

  /** A character that is in no piece and is not the separator is not in the joined string. */
  lemma {:induction false} JoinAvoids(parts: seq<string>, sep: char, c: char)
    requires |parts| >= 1
    requires c != sep
    requires forall p :: p in parts ==> c !in p
    ensures c !in Join(parts, sep)
    decreases |parts|
  {
    if |parts| > 1 {
      JoinAvoids(parts[1..], sep, c);
    }
  }

  predicate IsDigit(c: char) {
    '0' <= c <= '9'
  }

  predicate AllDigits(s: string) {
    forall i :: 0 <= i < |s| ==> IsDigit(s[i])
  }

  function DigitValue(c: char): nat
    requires IsDigit(c)
  {
    (c as int - '0' as int) as nat
  }

  /** The value of a string of decimal digits, most significant first. */
  function DigitsValue(s: string): nat
    requires AllDigits(s)
    decreases |s|
  {
    if s == [] then 0 else DigitsValue(s[..|s| - 1]) * 10 + DigitValue(s[|s| - 1])
  }

  /** `s.parse::<i32>()`: an optional `+` or `-` sign followed by at least one
      decimal digit (leading zeros allowed, nothing else, no whitespace), whose
      value lies in the `i32` range. */
  function ParseI32(s: string): (r: Option<i32>)
    ensures r.Some? ==> s != [] && IsDigit(s[|s| - 1])
    ensures r.Some? ==> forall i :: 0 < i < |s| ==> IsDigit(s[i])
    ensures r.Some? ==> IsDigit(s[0]) || s[0] == '-' || s[0] == '+'
  {
    if s != [] && (s[0] == '-' || s[0] == '+') then ParseMagnitude(s[1..], s[0] == '-')
    else ParseMagnitude(s, false)
  }

  /** The unsigned part of a numeral, negated when a minus sign preceded it. */
  function ParseMagnitude(digits: string, negative: bool): (r: Option<i32>)
    ensures r.Some? ==> digits != [] && AllDigits(digits)
    ensures r.Some? ==> r.value as int == (if negative then -(DigitsValue(digits) as int) else DigitsValue(digits) as int)
    ensures r.Some? <==> (digits != [] && AllDigits(digits) &&
      -0x8000_0000 <= (if negative then -(DigitsValue(digits) as int) else DigitsValue(digits) as int) < 0x8000_0000)
  {
    if digits == [] || !AllDigits(digits) then None
    else
      var v := if negative then -(DigitsValue(digits) as int) else DigitsValue(digits) as int;
      if -0x8000_0000 <= v < 0x8000_0000 then Some(v as i32) else None
  }

  /** Every numeral in the `i32` range parses to its value, whether it is
      unsigned or carries a '+' or '-' sign, and whatever its leading zeros. */
  lemma ParseSigned(sign: string, digits: string)
    requires sign == "" || sign == "+" || sign == "-"
    requires digits != [] && AllDigits(digits)
    requires -0x8000_0000 <= (if sign == "-" then -(DigitsValue(digits) as int) else DigitsValue(digits) as int) < 0x8000_0000
    ensures ParseI32(sign + digits) ==
      Some((if sign == "-" then -(DigitsValue(digits) as int) else DigitsValue(digits) as int) as i32)
  {
    if sign == "" {
      assert sign + digits == digits && IsDigit(digits[0]);
    } else {
      assert (sign + digits)[1..] == digits;
    }
  }

  /** A numeral whose value does not fit an `i32` is rejected, with or without
      a sign, except that the minus sign admits one more value. */
  lemma ParseRejectsOverflow(digits: string)
    requires digits != [] && AllDigits(digits)
    ensures DigitsValue(digits) >= 0x8000_0000 ==> ParseI32(digits) == None && ParseI32("+" + digits) == None
    ensures DigitsValue(digits) > 0x8000_0000 ==> ParseI32("-" + digits) == None
    ensures DigitsValue(digits) == 0x8000_0000 ==> ParseI32("-" + digits) == Some(-0x8000_0000 as i32)
  {
    assert ("+" + digits)[1..] == digits;
    assert ("-" + digits)[1..] == digits;
  }

  function DigitChar(d: nat): (c: char)
    requires d < 10
    ensures IsDigit(c) && DigitValue(c) == d
  {
    ('0' as int + d) as char
  }

  /** The shortest decimal numeral of `n`. */
  function ShowNat(n: nat): (s: string)
    ensures s != [] && AllDigits(s)
    ensures DigitsValue(s) == n
    decreases n
  {
    if n < 10 then [DigitChar(n)]
    else
      var front := ShowNat(n / 10);
      var s := front + [DigitChar(n % 10)];
      assert s[..|s| - 1] == front;
      s
  }

  /** The decimal numeral of `n`, with a minus sign when it is negative. */
  function ShowI32(n: i32): (s: string)
    ensures s != []
    ensures forall c :: c in s ==> IsDigit(c) || c == '-'
  {
    if n < 0 then "-" + ShowNat(-(n as int)) else ShowNat(n as int)
  }

  /** Parsing is the inverse of rendering, for every `i32`. */
  lemma ParseOfShow(n: i32)
    ensures ParseI32(ShowI32(n)) == Some(n)
  {
    var s := ShowI32(n);
    if n < 0 {
      assert s[0] == '-' && s[1..] == ShowNat(-(n as int));
    } else {
      assert IsDigit(s[0]);
    }
  }
}
