/**
 * String helpers shared by every script: Python's `str.strip()`, `" ".join(...)`,
 * decimal formatting of indices (`f"{i}"`, `f"{i:02d}"`), substring tests and slicing.
 * Strings are sequences of Unicode scalar values, as Python's `str` is.
 */
module Text {

  /** Python's `str.isspace()` for a single character (the Unicode whitespace table). */
  predicate IsSpace(c: char) {
    c == ' ' || ('\t' <= c <= '\r') || ('\U{001c}' <= c <= '\U{001f}')
    || c == '\U{0085}' || c == '\U{00a0}' || c == '\U{1680}'
    || ('\U{2000}' <= c <= '\U{200a}') || c == '\U{2028}' || c == '\U{2029}'
    || c == '\U{202f}' || c == '\U{205f}' || c == '\U{3000}'
  }

  /** All characters of `s` are whitespace (the empty string included). */
  predicate AllSpace(s: string) {
    forall i | 0 <= i < |s| :: IsSpace(s[i])
  }

  /** A string that `strip()` leaves as it is: empty, or neither end is whitespace. */
  predicate IsStripped(s: string) {
    s == [] || (!IsSpace(s[0]) && !IsSpace(s[|s| - 1]))
  }

  /** `s.lstrip()`: `s` without its leading whitespace. */
  function StripStart(s: string): (r: string)
    ensures |r| <= |s| && (r != [] ==> !IsSpace(r[0]))
    decreases |s|
  {
    if |s| > 0 && IsSpace(s[0]) then StripStart(s[1..]) else s
  }

  /** `s.rstrip()`: `s` without its trailing whitespace; its first character stays in place. */
  function StripEnd(s: string): (r: string)
    ensures |r| <= |s| && (r != [] ==> !IsSpace(r[|r| - 1]) && r[0] == s[0])
    decreases |s|
  {
    if |s| > 0 && IsSpace(s[|s| - 1]) then StripEnd(s[..|s| - 1]) else s
  }

  /** `lstrip()` drops a whitespace prefix. */
  lemma {:induction false} StripStartFrames(s: string)
    ensures var r := StripStart(s); r == s[|s| - |r|..] && AllSpace(s[..|s| - |r|])
    decreases |s|
  {
    if |s| > 0 && IsSpace(s[0]) {
      StripStartFrames(s[1..]);
      var r := StripStart(s);
      var k := |s| - |r|;
      assert r == s[1..][|s| - 1 - |r|..];
      assert forall j | 1 <= j < k :: s[j] == s[1..][..k - 1][j - 1];
    }
  }

  /** `rstrip()` drops a whitespace suffix. */
  lemma {:induction false} StripEndFrames(s: string)
    ensures var r := StripEnd(s); r == s[..|r|] && AllSpace(s[|r|..])
    decreases |s|
  {
    if |s| > 0 && IsSpace(s[|s| - 1]) {
      var t := s[..|s| - 1];
      StripEndFrames(t);
      var r := StripEnd(s);
      assert r == t[..|r|];
      assert forall j | |r| <= j < |s| - 1 :: s[j] == t[|r|..][j - |r|];
    }
  }

  /** `r` occurs in `s` at position `i`, with only whitespace before and after it. */
  predicate Framed(s: string, r: string, i: int) {
    0 <= i <= |s| - |r| && r == s[i..i + |r|] && AllSpace(s[..i]) && AllSpace(s[i + |r|..])
  }

  /** `s.strip()`: `s` without its leading and trailing whitespace. */
  function Strip(s: string): (r: string)
    ensures IsStripped(r) && |r| <= |s|
  {
    StripEnd(StripStart(s))
  }

  /** What `strip()` removes is whitespace, from the two ends only. */
  lemma StripFrames(s: string)
    ensures exists i :: Framed(s, Strip(s), i)
  {
    var l := StripStart(s);
    var r := StripEnd(l);
    StripStartFrames(s);
    StripEndFrames(l);
    var i := |s| - |l|;
    assert r == Strip(s);
    assert l == s[i..] && AllSpace(s[..i]);
    assert r == l[..|r|] && AllSpace(l[|r|..]);
    assert r == s[i..i + |r|];
    assert s[i + |r|..] == l[|r|..];
    assert Framed(s, r, i);
  }

  /** `lstrip()` of a string made of whitespace only is empty. */
  lemma {:induction false} StripStartAllSpace(s: string)
    requires AllSpace(s)
    ensures StripStart(s) == ""
    decreases |s|
  {
    if s != "" {
      assert AllSpace(s[1..]) by {
        assert forall j | 0 <= j < |s| - 1 :: s[1..][j] == s[j + 1];
      }
      StripStartAllSpace(s[1..]);
    }
  }

  /** `strip()` of a string made of whitespace only is empty. */
  lemma StripAllSpace(s: string)
    requires AllSpace(s)
    ensures Strip(s) == ""
  {
    StripStartAllSpace(s);
  }

  /** `strip()` removes the single space appended to a stripped, non-empty string. */
  lemma StripTrailingSpace(s: string)
    requires s != "" && IsStripped(s)
    ensures Strip(s + " ") == s
  {
    var t := s + " ";
    assert StripStart(t) == t;
    assert t[..|t| - 1] == s;
    assert StripEnd(t) == StripEnd(s);
    assert StripEnd(s) == s;
  }

  /** Python's truthiness test `not s.strip()`. */
  predicate IsBlank(s: string) {
    Strip(s) == ""
  }

  /** `strip()` changes nothing on a string whose ends are not whitespace. */
  lemma StripOfStripped(s: string)
    requires IsStripped(s)
    ensures Strip(s) == s
  {
    assert StripStart(s) == s;
    assert StripEnd(s) == s;
  }

  /** `strip()` is idempotent. */
  lemma StripIdempotent(s: string)
    ensures Strip(Strip(s)) == Strip(s)
  {
    StripOfStripped(Strip(s));
  }

  /** `sep.join(xs)`, defined from the right so that it matches loops that append. */
  function Join(sep: string, xs: seq<string>): string
  {
    if |xs| == 0 then ""
    else if |xs| == 1 then xs[0]
    else Join(sep, xs[..|xs| - 1]) + sep + xs[|xs| - 1]
  }

  /** Appending one more part to a non-empty list of parts. */
  lemma JoinSnoc(sep: string, xs: seq<string>, x: string)
    requires xs != []
    ensures Join(sep, xs + [x]) == Join(sep, xs) + sep + x
  {
    assert (xs + [x])[..|xs|] == xs;
  }

  /** Joining two non-empty lists of parts joins the two joins. */
  lemma {:induction false} JoinAppend(sep: string, a: seq<string>, b: seq<string>)
    requires a != [] && b != []
    ensures Join(sep, a + b) == Join(sep, a) + sep + Join(sep, b)
  {
    var b', x := b[..|b| - 1], b[|b| - 1];
    assert b == b' + [x];
    assert a + b == (a + b') + [x];
    JoinSnoc(sep, a + b', x);
    if b' != [] {
      JoinAppend(sep, a, b');
      JoinSnoc(sep, b', x);
    } else {
      assert a + b' == a;
    }
  }

  /** Every part is a non-empty string. */
  predicate AllNonEmpty(xs: seq<string>) {
    forall i | 0 <= i < |xs| :: xs[i] != ""
  }

  /** Every part is a non-empty string that `strip()` leaves unchanged. */
  predicate AllStrippedNonEmpty(xs: seq<string>) {
    forall i | 0 <= i < |xs| :: xs[i] != "" && IsStripped(xs[i])
  }

  /** A join of non-empty parts is empty exactly when there are no parts. */
  lemma {:induction false} JoinEmptyIff(sep: string, xs: seq<string>)
    requires AllNonEmpty(xs)
    ensures Join(sep, xs) == "" <==> xs == []
  {
    if |xs| >= 2 {
      assert xs[|xs| - 1] != "";
    } else if |xs| == 1 {
      assert xs[0] != "";
    }
  }

  /** A join of non-empty parts starts with the first part and ends with the last one. */
  lemma {:induction false} JoinEnds(sep: string, xs: seq<string>)
    requires xs != [] && AllNonEmpty(xs)
    ensures |Join(sep, xs)| >= |xs[0]|
    ensures Join(sep, xs)[..|xs[0]|] == xs[0]
    ensures |Join(sep, xs)| >= |xs[|xs| - 1]|
    ensures Join(sep, xs)[|Join(sep, xs)| - |xs[|xs| - 1]|..] == xs[|xs| - 1]
  {
    if |xs| > 1 {
      var init := xs[..|xs| - 1];
      assert AllNonEmpty(init) by {
        forall i | 0 <= i < |init| ensures init[i] != "" { assert init[i] == xs[i]; }
      }
      JoinEnds(sep, init);
      var j := Join(sep, init);
      assert init[0] == xs[0];
      assert (j + sep + xs[|xs| - 1])[..|xs[0]|] == j[..|xs[0]|];
    }
  }

  /** Joining stripped, non-empty parts with one space yields a stripped, non-empty string. */
  lemma JoinStripped(xs: seq<string>)
    requires xs != [] && AllStrippedNonEmpty(xs)
    ensures Join(" ", xs) != "" && IsStripped(Join(" ", xs))
  {
    assert AllNonEmpty(xs) by {
      forall i | 0 <= i < |xs| ensures xs[i] != "" { }
    }
    JoinEnds(" ", xs);
    var j := Join(" ", xs);
    var first, last := xs[0], xs[|xs| - 1];
    assert j[0] == j[..|first|][0] == first[0];
    assert j[|j| - 1] == j[|j| - |last|..][|last| - 1] == last[|last| - 1];
  }

  /** Every part is made of whitespace only (the empty string included). */
  predicate AllBlankParts(xs: seq<string>) {
    forall i | 0 <= i < |xs| :: AllSpace(xs[i])
  }

  /** Joining whitespace-only parts with whitespace gives whitespace only. */
  lemma {:induction false} JoinAllSpace(sep: string, xs: seq<string>)
    requires AllSpace(sep) && AllBlankParts(xs)
    ensures AllSpace(Join(sep, xs))
  {
    if |xs| == 1 {
      assert AllSpace(xs[0]);
    } else if |xs| > 1 {
      var init, last := xs[..|xs| - 1], xs[|xs| - 1];
      assert AllBlankParts(init) by {
        forall i | 0 <= i < |init| ensures AllSpace(init[i]) { assert init[i] == xs[i]; }
      }
      JoinAllSpace(sep, init);
      assert AllSpace(last);
      var j := Join(sep, init);
      forall k | 0 <= k < |j + sep + last| ensures IsSpace((j + sep + last)[k]) {
        if k < |j| {
          assert (j + sep + last)[k] == j[k];
        } else if k < |j| + |sep| {
          assert (j + sep + last)[k] == sep[k - |j|];
        } else {
          assert (j + sep + last)[k] == last[k - |j| - |sep|];
        }
      }
    }
  }

  /** `"".join(xs)`: plain concatenation. */
  function Concat(xs: seq<string>): string
  {
    if xs == [] then "" else xs[0] + Concat(xs[1..])
  }

  /** `s[:n]`: at most the first `n` characters of `s`. */
  function Truncate(s: string, n: nat): (r: string)
    ensures |r| <= n && r <= s
    ensures |s| <= n ==> r == s
    ensures |s| > n ==> |r| == n
  {
    if |s| <= n then s else s[..n]
  }

  /** Python's `needle in hay` for strings: `needle` occurs as a contiguous part of `hay`. */
  predicate Contains(hay: string, needle: string) {
    exists i | 0 <= i <= |hay| - |needle| :: OccursAt(hay, needle, i)
  }

  /** `needle` occurs in `hay` starting at position `i`. */
  predicate OccursAt(hay: string, needle: string, i: nat)
    requires i + |needle| <= |hay|
  {
    hay[i..i + |needle|] == needle
  }

  /** `s.split(",")[0]`: the text before the first comma, or all of `s` when it has none. */
  function FirstField(s: string): (r: string)
    ensures r <= s && ',' !in r
    ensures |r| < |s| ==> s[|r|] == ','
  {
    if s == [] || s[0] == ',' then "" else [s[0]] + FirstField(s[1..])
  }

  // ---- decimal formatting of indices ----

  /** The decimal digit character of `d`. */
  function Digit(d: nat): (c: char)
    requires d < 10
    ensures '0' <= c <= '9'
  {
    ('0' as int + d) as char
  }

  /** The value of a decimal digit character (0 for any other character). */
  function DigitValue(c: char): nat
  {
    if '0' <= c <= '9' then c as int - '0' as int else 0
  }

  predicate AllDigits(s: string) {
    forall i | 0 <= i < |s| :: '0' <= s[i] <= '9'
  }

  /** `f"{n}"` for a non-negative integer: its canonical decimal numeral. */
  function NatToString(n: nat): (s: string)
    ensures s != [] && AllDigits(s)
    ensures s[0] == '0' ==> n == 0
    ensures n < 10 <==> |s| == 1
    ensures n < 100 <==> |s| <= 2
  {
    if n < 10 then [Digit(n)] else NatToString(n / 10) + [Digit(n % 10)]
  }

  /** The inverse reading: the value of a numeral, most significant digit first. */
  function ParseDecimal(s: string): nat
  {
    if s == [] then 0 else ParseDecimal(s[..|s| - 1]) * 10 + DigitValue(s[|s| - 1])
  }

  /** Reading back a formatted index gives the index. */
  lemma {:induction false} ParseNatToString(n: nat)
    ensures ParseDecimal(NatToString(n)) == n
  {
    if n >= 10 {
      ParseNatToString(n / 10);
      var s := NatToString(n / 10) + [Digit(n % 10)];
      assert s[..|s| - 1] == NatToString(n / 10);
    }
  }

  /** Distinct indices are formatted as distinct numerals. */
  lemma NatToStringInjective(a: nat, b: nat)
    requires NatToString(a) == NatToString(b)
    ensures a == b
  {
    ParseNatToString(a);
    ParseNatToString(b);
  }

  /** `f"{n:02d}"`: the decimal numeral of `n`, left-padded with zeros to at least two digits. */
  function Pad2(n: nat): (s: string)
    ensures |s| >= 2 && AllDigits(s)
    ensures n < 100 <==> |s| == 2
  {
    if n < 10 then "0" + NatToString(n) else NatToString(n)
  }

  /** Reading back a padded index gives the index: padding loses nothing. */
  lemma Pad2RoundTrip(n: nat)
    ensures ParseDecimal(Pad2(n)) == n
  {
    ParseNatToString(n);
    if n < 10 {
      var s := Pad2(n);
      assert s == ['0', Digit(n)];
      assert s[..1] == ['0'] && s[..1][..0] == [];
    }
  }

  lemma Pad2Injective(a: nat, b: nat)
    requires Pad2(a) == Pad2(b)
    ensures a == b
  {
    Pad2RoundTrip(a);
    Pad2RoundTrip(b);
  }

  /** Two strings with the same prefix are equal exactly when the rests are. */
  lemma PrefixCancel(p: string, a: string, b: string)
    requires p + a == p + b
    ensures a == b
  {
    assert a == (p + a)[|p|..];
    assert b == (p + b)[|p|..];
  }

  /** Two strings with the same suffix are equal exactly when the fronts are. */
  lemma SuffixCancel(a: string, b: string, q: string)
    requires a + q == b + q
    ensures a == b
  {
    assert a == (a + q)[..|a|];
    assert b == (b + q)[..|b|];
  }
}
