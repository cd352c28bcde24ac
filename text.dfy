/**
 Strings as the Python scripts handle them: decimal conversion (`str` and
 `int` on non-negative numbers), `str.split` on a separator, `str.join`,
 slicing with clamped bounds, `str.strip` and prefix tests.
 */
module Text {
  import opened Wrappers

  predicate IsDigit(c: char) {
    '0' <= c <= '9'
  }

  predicate AllDigits(s: string) {
    forall i :: 0 <= i < |s| ==> IsDigit(s[i])
  }

  function DigitValue(c: char): (d: nat)
    requires IsDigit(c)
    ensures d < 10
  {
    (c as int) - ('0' as int)
  }

  function DigitChar(d: nat): (c: char)
    requires d < 10
    ensures IsDigit(c) && DigitValue(c) == d
  {
    (('0' as int) + d) as char
  }

  /** The decimal numeral of `n`, as Python's `str` writes a non-negative int. */
  function NatToString(n: nat): (s: string)
    ensures |s| > 0 && IsDigit(s[0])
    ensures s[0] == '0' ==> n == 0
    decreases n
  {
    if n < 10 then [DigitChar(n)] else NatToString(n / 10) + [DigitChar(n % 10)]
  }

  /** A numeral is made of digits only. */
  lemma {:induction false} NatToStringDigits(n: nat)
    ensures AllDigits(NatToString(n))
    decreases n
  {
    if n >= 10 {
      NatToStringDigits(n / 10);
    }
  }

  /** Python's `str` on an int: a minus sign in front of a negative number. */
  function IntToString(i: int): (s: string)
    ensures |s| > 0
    ensures s[0] == '-' <==> i < 0
    decreases if i < 0 then 1 else 0
  {
    if i < 0 then "-" + IntToString(-i) else NatToString(i)
  }

  /** Only the numeral of a negative number carries a sign. */
  lemma IntToStringDigits(i: int)
    ensures i >= 0 <==> AllDigits(IntToString(i))
  {
    if i >= 0 {
      NatToStringDigits(i);
    } else {
      assert !IsDigit(IntToString(i)[0]);
    }
  }

  /** The value of a string of decimal digits, read most significant first. */
  function DigitsValue(s: string): nat
    requires AllDigits(s)
  {
    if |s| == 0 then 0 else DigitsValue(s[..|s| - 1]) * 10 + DigitValue(s[|s| - 1])
  }

  /** Python's `int` on a string, restricted to plain decimal digits. */
  function ParseNat(s: string): (r: Option<nat>)
    ensures r.Some? <==> |s| > 0 && AllDigits(s)
  {
    if |s| > 0 && AllDigits(s) then Some(DigitsValue(s)) else None
  }

  /** `int(str(n)) == n`. */
  lemma {:induction false} ParseNatToString(n: nat)
    ensures ParseNat(NatToString(n)) == Some(n)
  {
    var s := NatToString(n);
    NatToStringDigits(n);
    if n < 10 {
      assert s[..0] == [];
    } else {
      ParseNatToString(n / 10);
      assert s[..|s| - 1] == NatToString(n / 10);
      assert DigitsValue(s) == (n / 10) * 10 + n % 10;
    }
  }

  /** Python's `int` on a string: an optional sign, then plain decimal digits. */
  function ParseInt(s: string): (r: Option<int>)
    ensures r.Some? <==> |s| > 0 && (if s[0] == '-' || s[0] == '+' then |s| > 1 && AllDigits(s[1..]) else AllDigits(s))
    ensures r.Some? && r.value < 0 ==> |s| > 0 && s[0] == '-'
  {
    if |s| > 0 && (s[0] == '-' || s[0] == '+') then
      var m := ParseNat(s[1..]);
      if m.None? then None else if s[0] == '-' then Some(0 - m.value as int) else Some(m.value as int)
    else
      var m := ParseNat(s);
      if m.None? then None else Some(m.value as int)
  }

  /** `int(str(i)) == i`. */
  lemma ParseIntToString(i: int)
    ensures ParseInt(IntToString(i)) == Some(i)
  {
    if i < 0 {
      ParseNatToString(-i);
      assert IntToString(i)[1..] == NatToString(-i);
    } else {
      ParseNatToString(i);
      NatToStringDigits(i);
      assert IsDigit(IntToString(i)[0]);
    }
  }

  /** A numeral holds no character other than digits. */
  lemma NatToStringLacks(n: nat, c: char)
    requires !IsDigit(c)
    ensures Lacks(NatToString(n), c)
  {
    NatToStringDigits(n);
  }

  /** The numeral of an int holds no character other than digits and the minus sign. */
  lemma IntToStringLacks(i: int, c: char)
    requires !IsDigit(c) && c != '-'
    ensures Lacks(IntToString(i), c)
  {
    if i >= 0 {
      IntToStringDigits(i);
    } else {
      NatToStringLacks(-i, c);
      assert IntToString(i) == "-" + NatToString(-i);
    }
  }

  /** `s` holds no decimal digit. */
  predicate NoDigit(s: string) {
    forall i :: 0 <= i < |s| ==> !IsDigit(s[i])
  }

  /** The length of the longest prefix of `s` without a digit. */
  function NonDigitPrefix(s: string): (k: nat)
    ensures k <= |s|
  {
    if |s| == 0 || IsDigit(s[0]) then 0 else 1 + NonDigitPrefix(s[1..])
  }

  lemma {:induction false} NonDigitPrefixOf(a: string, s: string)
    requires NoDigit(a) && |s| > 0 && IsDigit(s[0])
    ensures NonDigitPrefix(a + s) == |a|
  {
    if |a| > 0 {
      assert (a + s)[1..] == a[1..] + s;
      NonDigitPrefixOf(a[1..], s);
    } else {
      assert a + s == s;
    }
  }

  /** Distinct numbers have distinct numerals. */
  lemma NatToStringInjective(m: nat, n: nat)
    requires NatToString(m) == NatToString(n)
    ensures m == n
  {
    ParseNatToString(m);
    ParseNatToString(n);
  }

  /**
   Python's `s.split(sep)`: the pieces between the non-overlapping occurrences
   of `sep`, found from left to right; `""` splits into `[""]`.
   */
  function Split(s: string, sep: string): (parts: seq<string>)
    requires |sep| > 0
    ensures |parts| > 0
    decreases |s|
  {
    if |s| == 0 then [""]
    else if sep <= s then [""] + Split(s[|sep|..], sep)
    else
      var rest := Split(s[1..], sep);
      [[s[0]] + rest[0]] + rest[1..]
  }

  /** Python's `sep.join(parts)`. */
  function Join(parts: seq<string>, sep: string): (s: string)
    ensures |parts| > 0 ==> parts[0] <= s
    ensures |parts| > 1 ==> parts[0] + sep <= s
  {
    if |parts| == 0 then ""
    else if |parts| == 1 then parts[0]
    else parts[0] + sep + Join(parts[1..], sep)
  }

  /** A piece joined in front of a non-empty list is followed by the separator. */
  lemma JoinCons(p: string, rest: seq<string>, sep: string)
    requires |rest| > 0
    ensures Join([p] + rest, sep) == p + sep + Join(rest, sep)
  {
    assert ([p] + rest)[1..] == rest;
  }

  /** A character glued to the first piece comes first in the join. */
  lemma JoinPrepend(c: char, parts: seq<string>, sep: string)
    requires |parts| > 0
    ensures Join([[c] + parts[0]] + parts[1..], sep) == [c] + Join(parts, sep)
  {
    if |parts| > 1 {
      JoinCons([c] + parts[0], parts[1..], sep);
      JoinCons(parts[0], parts[1..], sep);
      assert [parts[0]] + parts[1..] == parts;
    }
  }

  /** Joining the pieces of a split with the same separator restores the string. */
  lemma {:induction false} JoinSplit(s: string, sep: string)
    requires |sep| > 0
    ensures Join(Split(s, sep), sep) == s
    decreases |s|
  {
    if |s| > 0 && sep <= s {
      JoinSplit(s[|sep|..], sep);
      JoinCons("", Split(s[|sep|..], sep), sep);
      assert sep + s[|sep|..] == s;
    } else if |s| > 0 {
      JoinSplit(s[1..], sep);
      JoinPrepend(s[0], Split(s[1..], sep), sep);
      assert [s[0]] + s[1..] == s;
    }
  }

  /** `c` occurs nowhere in `s`. */
  predicate Lacks(s: string, c: char) {
    forall i :: 0 <= i < |s| ==> s[i] != c
  }

  /** A piece free of the separator's first character splits off whole. */
  lemma {:induction false} SplitLeading(p: string, sep: string, rest: string)
    requires |sep| > 0 && Lacks(p, sep[0])
    ensures Split(p + sep + rest, sep) == [p] + Split(rest, sep)
    decreases |p|
  {
    var s := p + sep + rest;
    if |p| == 0 {
      assert s == sep + rest;
      assert s[|sep|..] == rest;
    } else {
      assert s[0] == p[0] != sep[0];
      assert !(sep <= s);
      assert s[1..] == p[1..] + sep + rest;
      SplitLeading(p[1..], sep, rest);
      assert [p[0]] + p[1..] == p;
    }
  }

  /** A string free of the separator's first character does not split. */
  lemma {:induction false} SplitWhole(p: string, sep: string)
    requires |sep| > 0 && Lacks(p, sep[0])
    ensures Split(p, sep) == [p]
    decreases |p|
  {
    if |p| > 0 {
      assert !(sep <= p);
      SplitWhole(p[1..], sep);
      assert [p[0]] + p[1..] == p;
    }
  }

  /** Splitting undoes joining when no piece holds the separator's first character. */
  lemma {:induction false} SplitJoin(parts: seq<string>, sep: string)
    requires |sep| > 0 && |parts| > 0
    requires forall k :: 0 <= k < |parts| ==> Lacks(parts[k], sep[0])
    ensures Split(Join(parts, sep), sep) == parts
    decreases |parts|
  {
    if |parts| == 1 {
      SplitWhole(parts[0], sep);
    } else {
      SplitJoin(parts[1..], sep);
      SplitLeading(parts[0], sep, Join(parts[1..], sep));
      assert [parts[0]] + parts[1..] == parts;
    }
  }

  /** Python's `s[i:j]` for non-negative bounds: out-of-range bounds are clamped. */
  function Slice(s: string, i: nat, j: nat): (r: string)
    ensures |r| <= j - i || (j < i && |r| == 0)
    ensures |s| >= j >= i ==> r == s[i..j]
  {
    var hi := if j < |s| then j else |s|;
    var lo := if i < hi then i else hi;
    s[lo..hi]
  }

  /** The ASCII characters Python's `str.isspace` accepts. */
  predicate IsSpace(c: char) {
    (9 <= c as int <= 13) || (28 <= c as int <= 32)
  }

  function TrimLeft(s: string): (r: string)
    ensures |r| <= |s| && r == s[|s| - |r|..]
    ensures |r| > 0 ==> !IsSpace(r[0])
    ensures forall i :: 0 <= i < |s| - |r| ==> IsSpace(s[i])
  {
    if |s| > 0 && IsSpace(s[0]) then TrimLeft(s[1..]) else s
  }

  function TrimRight(s: string): (r: string)
    ensures |r| <= |s| && r == s[..|r|]
    ensures |r| > 0 ==> !IsSpace(r[|r| - 1])
    ensures forall i :: |r| <= i < |s| ==> IsSpace(s[i])
  {
    if |s| > 0 && IsSpace(s[|s| - 1]) then TrimRight(s[..|s| - 1]) else s
  }

  /** Python's `s.strip()` for ASCII whitespace. */
  function Strip(s: string): (r: string)
    ensures |r| > 0 ==> !IsSpace(r[0]) && !IsSpace(r[|r| - 1])
    ensures |r| <= |s|
  {
    TrimRight(TrimLeft(s))
  }

  /** `s` holds no whitespace character. */
  predicate NoSpace(s: string) {
    forall i :: 0 <= i < |s| ==> !IsSpace(s[i])
  }

  /** The longest prefix of `s` without whitespace. */
  function Word(s: string): (w: string)
    ensures w <= s && NoSpace(w)
    ensures |w| < |s| ==> IsSpace(s[|w|])
  {
    if |s| == 0 || IsSpace(s[0]) then "" else [s[0]] + Word(s[1..])
  }

  /** Python's `s.split()`: the maximal runs of non-whitespace characters. */
  function Tokens(s: string): (ts: seq<string>)
    ensures forall k :: 0 <= k < |ts| ==> |ts[k]| > 0 && NoSpace(ts[k])
    decreases |s|
  {
    if |s| == 0 then []
    else if IsSpace(s[0]) then Tokens(s[1..])
    else
      var w := Word(s);
      [w] + Tokens(s[|w|..])
  }

  lemma {:induction false} WordOfPrefix(w: string, rest: string)
    requires NoSpace(w) && (|rest| == 0 || IsSpace(rest[0]))
    ensures Word(w + rest) == w
    decreases |w|
  {
    if |w| > 0 {
      assert (w + rest)[1..] == w[1..] + rest;
      WordOfPrefix(w[1..], rest);
    } else {
      assert w + rest == rest;
    }
  }

  /** Tokenising undoes joining with single spaces, for non-empty whitespace-free words. */
  lemma {:induction false} TokensJoin(words: seq<string>)
    requires forall k :: 0 <= k < |words| ==> |words[k]| > 0 && NoSpace(words[k])
    ensures Tokens(Join(words, " ")) == words
    decreases |words|
  {
    if |words| == 1 {
      var w := words[0];
      WordOfPrefix(w, "");
      assert w + "" == w;
      assert w[|w|..] == "";
    } else if |words| > 1 {
      var w := words[0];
      var rest := Join(words[1..], " ");
      var s := w + " " + rest;
      assert s == w + (" " + rest);
      WordOfPrefix(w, " " + rest);
      assert s[|w|..] == " " + rest;
      assert (" " + rest)[1..] == rest;
      TokensJoin(words[1..]);
      assert [w] + words[1..] == words;
    }
  }

  /**
   A digit-free name followed by a numeral determines both: the name is
   everything before the first digit and the numeral the rest.
   */
  lemma NameNumeralInjective(a: string, b: string, m: nat, n: nat)
    requires NoDigit(a) && NoDigit(b)
    ensures a + NatToString(m) == b + NatToString(n) ==> a == b && m == n
  {
    var s, t := NatToString(m), NatToString(n);
    NatToStringDigits(m);
    NatToStringDigits(n);
    NonDigitPrefixOf(a, s);
    NonDigitPrefixOf(b, t);
    if a + s == b + t {
      var x := a + s;
      assert a == x[..|a|] && s == x[|a|..];
      assert b == x[..|b|] && t == x[|b|..];
      NatToStringInjective(m, n);
    }
  }
}
