/**
  The parts of Rust's string library that the solvers use, stated over `seq<char>`:
  `strip_prefix`, `ends_with`, `split`, `split_once` and `parse` for `u64`, `usize` and `i32`.
  Every input here is ASCII, so a character is a byte.
 */
module Text {
  import opened Wrappers

  /** `u64::MAX + 1`; `usize` is taken to be 64 bits wide. */
  const U64_BOUND: nat := 0x1_0000_0000_0000_0000
  const USIZE_BOUND: nat := U64_BOUND
  /** `i32::MIN` and `i32::MAX + 1`. */
  const I32_MIN: int := -0x8000_0000
  const I32_BOUND: int := 0x8000_0000

  predicate IsDigit(c: char) {
    '0' <= c <= '9'
  }

  function DigitValue(c: char): (d: nat)
    requires IsDigit(c)
    ensures d < 10
  {
    c as int - '0' as int
  }

  function DigitChar(d: nat): (c: char)
    requires d < 10
    ensures IsDigit(c) && DigitValue(c) == d
  {
    ('0' as int + d) as char
  }

  /** The value of a string of decimal digits, most significant digit first, or `None` when some
      character is not a digit. The empty string has the value 0. */
  function Digits(s: string): Option<nat>
    decreases |s|
  {
    if s == [] then Some(0)
    else
      match Digits(s[..|s| - 1])
      case None => None
      case Some(v) => if IsDigit(s[|s| - 1]) then Some(v * 10 + DigitValue(s[|s| - 1])) else None
  }

  /** `Digits` accepts exactly the strings made of digits. */
  lemma {:induction false} DigitsAccepts(s: string)
    ensures Digits(s).Some? <==> forall i :: 0 <= i < |s| ==> IsDigit(s[i])
    decreases |s|
  {
    if s != [] {
      var n := |s| - 1;
      DigitsAccepts(s[..n]);
      assert forall i :: 0 <= i < n ==> s[..n][i] == s[i];
    }
  }

  /** The shortest decimal spelling of `n`: the inverse of `Digits`. */
  function Decimal(n: nat): (s: string)
    ensures |s| > 0 && Digits(s) == Some(n)
  {
    if n < 10 then
      var s := [DigitChar(n)];
      assert s[..0] == [];
      s
    else
      var s := Decimal(n / 10) + [DigitChar(n % 10)];
      assert s[..|s| - 1] == Decimal(n / 10);
      s
  }

  /** `Decimal` writes only digits. */
  lemma {:induction false} DecimalOnlyDigits(n: nat)
    ensures forall i :: 0 <= i < |Decimal(n)| ==> IsDigit(Decimal(n)[i])
  {
    DigitsAccepts(Decimal(n));
  }

  /** `str::parse::<u64>()` (or `usize`): an optional `+`, then one or more digits and nothing
      else, with a value below `bound`; anything else is an error. */
  function ParseUnsigned(s: string, bound: nat): (r: Option<nat>)
    ensures r.Some? ==> r.value < bound
  {
    var ds := if |s| > 0 && s[0] == '+' then s[1..] else s;
    if |ds| > 0 && Digits(ds).Some? && Digits(ds).value < bound then Digits(ds) else None
  }

  /** `str::parse::<i32>()`: an optional `+` or `-`, then one or more digits, within `i32`'s range. */
  function ParseI32(s: string): (r: Option<int>)
    ensures r.Some? ==> I32_MIN <= r.value < I32_BOUND
  {
    if |s| > 0 && s[0] == '-' then
      var ds := s[1..];
      if |ds| > 0 && Digits(ds).Some? && Digits(ds).value <= -I32_MIN then
        var v := -(Digits(ds).value as int);
        Some(v)
      else None
    else
      match ParseUnsigned(s, I32_BOUND)
      case Some(v) => Some(v)
      case None => None
  }

  /** The decimal spelling of an integer, with a `-` for negative values. */
  function SignedDecimal(v: int): string {
    if v < 0 then "-" + Decimal(-v) else Decimal(v)
  }

  /** Parsing reads back what `Decimal` writes. */
  lemma {:induction false} ParseUnsignedDecimal(n: nat, bound: nat)
    requires n < bound
    ensures ParseUnsigned(Decimal(n), bound) == Some(n)
  {
    assert Decimal(n)[0] != '+' by {
      DigitsAccepts(Decimal(n));
    }
  }

  /** Parsing reads back what `SignedDecimal` writes, for every `i32`. */
  lemma {:induction false} ParseI32SignedDecimal(v: int)
    requires I32_MIN <= v < I32_BOUND
    ensures ParseI32(SignedDecimal(v)) == Some(v)
  {
    if v < 0 {
      assert SignedDecimal(v)[1..] == Decimal(-v);
    } else {
      DigitsAccepts(Decimal(v));
      assert Decimal(v)[0] != '-' && Decimal(v)[0] != '+';
    }
  }

  /** `str::strip_prefix`. */
  function StripPrefix(s: string, prefix: string): (r: Option<string>)
    ensures r.Some? <==> |prefix| <= |s| && s[..|prefix|] == prefix
    ensures r.Some? ==> prefix + r.value == s
  {
    if |prefix| <= |s| && s[..|prefix|] == prefix then Some(s[|prefix|..]) else None
  }

  /** Stripping a prefix from a text that starts with it leaves the rest. */
  lemma {:induction false} StripPrefixConcat(prefix: string, rest: string)
    ensures StripPrefix(prefix + rest, prefix) == Some(rest)
  {
    assert (prefix + rest)[..|prefix|] == prefix;
    assert (prefix + rest)[|prefix|..] == rest;
  }

  /** `str::ends_with`. */
  predicate EndsWith(s: string, suffix: string) {
    |suffix| <= |s| && s[|s| - |suffix|..] == suffix
  }

  /** `str::split` with a non-empty string pattern: the pieces between the non-overlapping
      occurrences of `sep`, found from left to right. There is always at least one piece. */
  function SplitOn(s: string, sep: string): (parts: seq<string>)
    requires |sep| > 0
    ensures |parts| > 0
    decreases |s|
  {
    if |sep| <= |s| && s[..|sep|] == sep then [""] + SplitOn(s[|sep|..], sep)
    else if s == [] then [""]
    else
      var rest := SplitOn(s[1..], sep);
      [[s[0]] + rest[0]] + rest[1..]
  }

  /** The pieces put back together with `sep` between them: the inverse of `SplitOn`. */
  function Join(parts: seq<string>, sep: string): string
    requires |parts| > 0
  {
    if |parts| == 1 then parts[0] else parts[0] + sep + Join(parts[1..], sep)
  }

  lemma {:induction false} JoinTwo(a: string, b: string, sep: string)
    ensures Join([a, b], sep) == a + sep + b
  {
    assert [a, b][1..] == [b];
  }

  /** A character in neither the pieces nor the separator is not in the joined text. */
  lemma {:induction false} JoinFree(parts: seq<string>, sep: string, c: char)
    requires |parts| > 0 && c !in sep
    requires forall k :: 0 <= k < |parts| ==> c !in parts[k]
    ensures c !in Join(parts, sep)
    decreases |parts|
  {
    if |parts| > 1 {
      assert forall k :: 0 <= k < |parts| - 1 ==> parts[1..][k] == parts[k + 1];
      JoinFree(parts[1..], sep, c);
    }
  }

  /** An empty first piece contributes only the separator after it. */
  lemma {:induction false} JoinEmptyFirst(rest: seq<string>, sep: string)
    requires |rest| > 0
    ensures Join([""] + rest, sep) == sep + Join(rest, sep)
  {
    assert ([""] + rest)[1..] == rest;
  }

  /** A character at the front of the first piece is at the front of the joined text. */
  lemma {:induction false} JoinCharFirst(c: char, rest: seq<string>, sep: string)
    requires |rest| > 0
    ensures Join([[c] + rest[0]] + rest[1..], sep) == [c] + Join(rest, sep)
  {
    var parts := [[c] + rest[0]] + rest[1..];
    if |rest| > 1 {
      assert parts[1..] == rest[1..];
      assert [c] + rest[0] + sep + Join(rest[1..], sep) == [c] + (rest[0] + sep + Join(rest[1..], sep));
    }
  }

  lemma {:induction false} JoinSplitOn(s: string, sep: string)
    requires |sep| > 0
    ensures Join(SplitOn(s, sep), sep) == s
    decreases |s|
  {
    if |sep| <= |s| && s[..|sep|] == sep {
      var rest := s[|sep|..];
      assert SplitOn(s, sep) == [""] + SplitOn(rest, sep);
      JoinSplitOn(rest, sep);
      JoinEmptyFirst(SplitOn(rest, sep), sep);
      assert sep + rest == s;
    } else if s != [] {
      var rest := SplitOn(s[1..], sep);
      assert SplitOn(s, sep) == [[s[0]] + rest[0]] + rest[1..];
      JoinSplitOn(s[1..], sep);
      JoinCharFirst(s[0], rest, sep);
      assert [s[0]] + s[1..] == s;
    }
  }

  /** A word free of the separator's first character is kept whole at the front of the first piece. */
  lemma {:induction false} SplitOnWordPrefix(w: string, rest: string, sep: string)
    requires |sep| > 0
    requires sep[0] !in w
    ensures SplitOn(w + rest, sep) == [w + SplitOn(rest, sep)[0]] + SplitOn(rest, sep)[1..]
    decreases |w|
  {
    var r := SplitOn(rest, sep);
    if w == [] {
      assert w + rest == rest;
      assert w + r[0] == r[0];
      assert r == [r[0]] + r[1..];
    } else {
      var s := w + rest;
      assert s[0] == w[0];
      assert s[1..] == w[1..] + rest;
      SplitOnWordPrefix(w[1..], rest, sep);
      SplitOnOther(s, sep);
      assert [w[0]] + (w[1..] + r[0]) == w + r[0];
    }
  }

  /** A first character that cannot start the separator begins the first piece. */
  lemma {:induction false} SplitOnOther(s: string, sep: string)
    requires |sep| > 0 && s != [] && s[0] != sep[0]
    ensures SplitOn(s, sep) == [[s[0]] + SplitOn(s[1..], sep)[0]] + SplitOn(s[1..], sep)[1..]
  {
    if |sep| <= |s| {
      assert s[..|sep|][0] == s[0];
    }
  }

  /** Splitting a joined list of pieces recovers the pieces, provided no piece holds the
      separator's first character. */
  lemma {:induction false} SplitOnJoin(parts: seq<string>, sep: string)
    requires |sep| > 0 && |parts| > 0
    requires forall k :: 0 <= k < |parts| ==> sep[0] !in parts[k]
    ensures SplitOn(Join(parts, sep), sep) == parts
  {
    if |parts| == 1 {
      SplitOnWordPrefix(parts[0], [], sep);
      assert parts[0] + [] == parts[0];
    } else {
      var tail := Join(parts[1..], sep);
      SplitOnJoin(parts[1..], sep);
      assert (sep + tail)[..|sep|] == sep;
      assert (sep + tail)[|sep|..] == tail;
      SplitOnWordPrefix(parts[0], sep + tail, sep);
      assert parts[0] + sep + tail == parts[0] + (sep + tail);
      assert parts[0] + "" == parts[0];
      assert parts == [parts[0]] + parts[1..];
    }
  }

  /** The position of the first `c` in `s` at or after `from`, or `|s|` when there is none. */
  function Find(s: string, c: char, from: nat): (k: nat)
    requires from <= |s|
    ensures from <= k <= |s| && (k < |s| ==> s[k] == c)
    ensures forall j :: from <= j < k ==> s[j] != c
    decreases |s| - from
  {
    if from == |s| || s[from] == c then from else Find(s, c, from + 1)
  }

  /** `str::split_once` with a single-character pattern: the text before and after the first
      occurrence of `sep`. */
  function SplitOnce(s: string, sep: char): Option<(string, string)> {
    var k := Find(s, sep, 0);
    if k == |s| then None else Some((s[..k], s[k + 1..]))
  }

  /** `split_once` fails exactly when the separator is missing, and otherwise cuts the text at the
      first separator. */
  lemma {:induction false} SplitOnceSpec(s: string, sep: char)
    ensures SplitOnce(s, sep).None? <==> sep !in s
    ensures SplitOnce(s, sep).Some? ==> var (before, after) := SplitOnce(s, sep).value;
      before + [sep] + after == s && sep !in before
  {
    var k := Find(s, sep, 0);
    if k < |s| {
      assert s == s[..k] + [sep] + s[k + 1..];
    }
  }

  /** The first occurrence is the one `split_once` splits at. */
  lemma {:induction false} SplitOnceAt(a: string, b: string, sep: char)
    requires sep !in a
    ensures SplitOnce(a + [sep] + b, sep) == Some((a, b))
  {
    var s := a + [sep] + b;
    assert s[|a|] == sep;
    assert forall j :: 0 <= j < |a| ==> s[j] == a[j];
    assert Find(s, sep, 0) == |a|;
    assert s[..|a|] == a && s[|a| + 1..] == b;
  }
}
