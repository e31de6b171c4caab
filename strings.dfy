/**
  Byte strings as the C++ code sees them (`std::string`, `const char *`) and the few
  standard-library string operations the browser relies on: prefix tests, `find`,
  `rfind`, `substr(0, n)` and `atoi`.
 */
module Strings {

  import opened Wrappers

  type String = seq<char>

  predicate IsPrefix(p: String, s: String)
  {
    |p| <= |s| && s[..|p|] == p
  }

  /** `s.substr(0, n)`: the first `n` characters, or all of `s` when it is shorter. */
  function Substr0(s: String, n: nat): (r: String)
    ensures |r| == if n <= |s| then n else |s|
    ensures IsPrefix(r, s)
  {
    if n <= |s| then s[..n] else s
  }

  /** `p == s.substr(0, p.size())` holds exactly when `p` is a prefix of `s`. */
  lemma SubstrPrefix(p: String, s: String)
    ensures (p == Substr0(s, |p|)) <==> IsPrefix(p, s)
  {
  }

  /** `s.find(t) != std::string::npos`: `t` occurs somewhere in `s`. */
  predicate Contains(s: String, t: String)
    decreases |s|
  {
    IsPrefix(t, s) || (s != [] && Contains(s[1..], t))
  }

  /** A string always contains itself, so a token equal to `t` also contains it. */
  lemma ContainsSelf(t: String)
    ensures Contains(t, t)
  {
  }

  /** A string ending in `t` contains `t`. */
  lemma {:induction false} ContainsSuffix(p: String, t: String)
    ensures Contains(p + t, t)
    decreases |p|
  {
    if p == [] {
      assert p + t == t;
      ContainsSelf(t);
    } else {
      assert (p + t)[1..] == p[1..] + t;
      ContainsSuffix(p[1..], t);
    }
  }

  /** `s.rfind(c)`: the index of the last occurrence of `c`, or `None` for `npos`. */
  function LastIndexOf(s: String, c: char): (r: Option<nat>)
    ensures r.Some? ==> r.value < |s| && s[r.value] == c
    ensures r.Some? ==> forall j :: r.value < j < |s| ==> s[j] != c
    ensures r.None? <==> forall j :: 0 <= j < |s| ==> s[j] != c
  {
    if s == [] then None
    else if s[|s| - 1] == c then Some(|s| - 1)
    else LastIndexOf(s[..|s| - 1], c)
  }

  predicate IsSpace(c: char)
  {
    c == ' ' || c == '\t' || c == '\n' || c == '\r' || c == '\U{0C}' || c == '\U{0B}'
  }

  predicate IsDigit(c: char)
  {
    '0' <= c <= '9'
  }

  /** The number of leading decimal digits of `s`. */
  function DigitRun(s: String): (n: nat)
    ensures n <= |s|
    ensures forall k :: 0 <= k < n ==> IsDigit(s[k])
    ensures n < |s| ==> !IsDigit(s[n])
  {
    if s != [] && IsDigit(s[0]) then 1 + DigitRun(s[1..]) else 0
  }

  /** The value of a string of decimal digits, most significant first. */
  function DecimalValue(d: String): nat
    requires forall k :: 0 <= k < |d| ==> IsDigit(d[k])
  {
    if d == [] then 0
    else
      var last := d[|d| - 1];
      assert IsDigit(last);
      10 * DecimalValue(d[..|d| - 1]) + (last as int - '0' as int)
  }

  function SkipSpace(s: String): (r: String)
    ensures |r| <= |s|
    ensures r == s[|s| - |r|..]
    ensures r != [] ==> !IsSpace(r[0])
  {
    if s != [] && IsSpace(s[0]) then SkipSpace(s[1..]) else s
  }

  /**
    C `atoi`: leading white space, an optional sign, then the longest run of decimal
    digits; 0 when there are none. Values outside `int`'s range (undefined behaviour
    in C) are not truncated here.
   */
  function Atoi(s: String): (r: int)
    ensures r < 0 ==> SkipSpace(s) != [] && SkipSpace(s)[0] == '-'
  {
    var t := SkipSpace(s);
    if t != [] && (t[0] == '-' || t[0] == '+') then
      var v: int := DecimalValue(t[1..][..DigitRun(t[1..])]);
      if t[0] == '-' then -v else v
    else
      DecimalValue(t[..DigitRun(t)])
  }

  /** A string of decimal digits reads as its value. */
  lemma AtoiDigits(s: String)
    requires forall k :: 0 <= k < |s| ==> IsDigit(s[k])
    ensures Atoi(s) == DecimalValue(s)
  {
    if s != [] {
      assert IsDigit(s[0]);
      assert !IsSpace(s[0]);
    }
    assert SkipSpace(s) == s;
    var n := DigitRun(s);
    assert n == |s|;
    assert s[..n] == s;
    if s != [] {
      assert s[0] != '-' && s[0] != '+';
    }
  }

  /** An empty string reads as 0. */
  lemma AtoiEmpty()
    ensures Atoi("") == 0
  {
    assert SkipSpace("") == "";
  }

}
