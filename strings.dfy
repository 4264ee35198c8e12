/** The Python string operations the deployer relies on, with Python's own
    semantics: `str.replace` (every non-overlapping occurrence, scanning left
    to right), `str.join`, `str.rstrip()` and `str(int)`. */
module PyStrings {

  /** `pat` is found in `s` starting at index `i`. */
  predicate OccursAt(s: string, pat: string, i: int) {
    0 <= i && i + |pat| <= |s| && s[i..i + |pat|] == pat
  }

  /** Python's `s.replace(pat, rep)`: the scan takes the leftmost occurrence,
      replaces it and goes on after it. An empty `pat` matches before every
      character and at the end, so `rep` is inserted at each of those places. */
  function Replace(s: string, pat: string, rep: string): (r: string)
    ensures pat != "" && |rep| <= |pat| ==> |r| <= |s|
    ensures pat != "" && |rep| == |pat| ==> |r| == |s|
    decreases |s|
  {
    if pat == "" then
      if s == "" then rep else rep + [s[0]] + Replace(s[1..], pat, rep)
    else if OccursAt(s, pat, 0) then rep + Replace(s[|pat|..], pat, rep)
    else if s == "" then ""
    else [s[0]] + Replace(s[1..], pat, rep)
  }

  /** `[x.replace(pat, rep) for x in xs]` */
  function ReplaceEach(xs: seq<string>, pat: string, rep: string): (r: seq<string>)
    ensures |r| == |xs|
  {
    seq(|xs|, i requires 0 <= i < |xs| => Replace(xs[i], pat, rep))
  }

  /** Python's `sep.join(xs)`. */
  function Join(xs: seq<string>, sep: string): (r: string)
    ensures |xs| >= 1 ==> xs[0] <= r
    ensures |xs| >= 1 ==> |xs[|xs| - 1]| <= |r| && r[|r| - |xs[|xs| - 1]|..] == xs[|xs| - 1]
    decreases |xs|
  {
    if |xs| == 0 then ""
    else if |xs| == 1 then xs[0]
    else xs[0] + sep + Join(xs[1..], sep)
  }

  /** The characters for which Python's `str.isspace()` holds. */
  predicate IsSpace(c: char) {
    c in {'\t', '\n', '\U{000B}', '\U{000C}', '\r', '\U{001C}', '\U{001D}', '\U{001E}', '\U{001F}', ' ',
          '\U{0085}', '\U{00A0}', '\U{1680}', '\U{2028}', '\U{2029}', '\U{202F}', '\U{205F}', '\U{3000}'}
    || '\U{2000}' <= c <= '\U{200A}'
  }

  /** Python's `s.rstrip()`: the longest prefix of `s` that does not end in
      whitespace, everything cut off being whitespace. */
  function RStrip(s: string): (r: string)
    ensures |r| <= |s| && r == s[..|r|]
    ensures r == "" || !IsSpace(r[|r| - 1])
    ensures forall i :: |r| <= i < |s| ==> IsSpace(s[i])
    decreases |s|
  {
    if s == "" || !IsSpace(s[|s| - 1]) then s else RStrip(s[..|s| - 1])
  }

  // ---------------------------------------------------------------------------
  // Decimal rendering of integers (`str(n)`, `f'{n}'`)
  // ---------------------------------------------------------------------------

  function DigitChar(d: nat): (c: char)
    requires d < 10
  {
    (48 + d) as char
  }

  function DigitValue(c: char): (d: nat) {
    if '0' <= c <= '9' then c as int - 48 else 0
  }

  /** The decimal digits of `n`, without leading zeros. */
  function NatDigits(n: nat): (s: string)
    ensures |s| >= 1
    ensures forall i :: 0 <= i < |s| ==> '0' <= s[i] <= '9'
    ensures s[0] == '0' ==> s == "0"
    decreases n
  {
    if n < 10 then [DigitChar(n)] else NatDigits(n / 10) + [DigitChar(n % 10)]
  }

  /** Python's `str(n)` for an `int`. */
  function Decimal(n: int): (r: string)
    ensures |r| >= 1
    ensures r[0] == '-' <==> n < 0
    ensures forall i :: (if n < 0 then 1 else 0) <= i < |r| ==> '0' <= r[i] <= '9'
  {
    if n < 0 then "-" + NatDigits(-n) else NatDigits(n)
  }

  function ParseNat(s: string): (n: nat)
    decreases |s|
  {
    if s == "" then 0 else 10 * ParseNat(s[..|s| - 1]) + DigitValue(s[|s| - 1])
  }

  function ParseInt(s: string): (n: int) {
    if s != "" && s[0] == '-' then -(ParseNat(s[1..]) as int) else ParseNat(s)
  }

  lemma {:induction false} ParseNatDigits(n: nat)
    ensures ParseNat(NatDigits(n)) == n
    decreases n
  {
    if n >= 10 {
      var s := NatDigits(n);
      assert s[..|s| - 1] == NatDigits(n / 10);
      ParseNatDigits(n / 10);
    }
  }

  /** `str` on integers is undone by parsing: the port number in a URL
      determines the port. */
  lemma DecimalRoundTrip(n: int)
    ensures ParseInt(Decimal(n)) == n
  {
    if n < 0 {
      ParseNatDigits(-n);
      ParseSigned(NatDigits(-n));
    } else {
      ParseNatDigits(n);
      ParseSigned(NatDigits(n));
    }
  }

  /** A digit string parses as its value, and with a leading `-` as the
      negated value. */
  lemma ParseSigned(d: string)
    requires d != [] && '0' <= d[0] <= '9'
    ensures ParseInt(d) == ParseNat(d)
    ensures ParseInt("-" + d) == -(ParseNat(d) as int)
  {
    assert ("-" + d)[0] == '-' && ("-" + d)[1..] == d;
  }

  // ---------------------------------------------------------------------------
  // Facts about Replace
  // ---------------------------------------------------------------------------

  /** Replacing the empty string by the empty string changes nothing. */
  lemma {:induction false} ReplaceEmptyByEmpty(s: string)
    ensures Replace(s, "", "") == s
    decreases |s|
  {
    if s != "" {
      ReplaceEmptyByEmpty(s[1..]);
      assert [s[0]] + s[1..] == s;
    }
  }

  /** Replacing one character by another is a character-wise map. */
  lemma {:induction false} ReplaceCharAt(s: string, c: char, d: char)
    ensures |Replace(s, [c], [d])| == |s|
    ensures forall i :: 0 <= i < |s| ==> Replace(s, [c], [d])[i] == (if s[i] == c then d else s[i])
    decreases |s|
  {
    if s != "" {
      ReplaceCharAt(s[1..], c, d);
      assert OccursAt(s, [c], 0) <==> s[0] == c by {
        assert s[0..1] == [s[0]];
      }
    }
  }

  /** After replacing `c` by a different character, no `c` is left. */
  lemma NoCharAfterReplace(s: string, c: char, d: char)
    requires c != d
    ensures c !in Replace(s, [c], [d])
  {
    ReplaceCharAt(s, c, d);
  }

  lemma OccursInDrop(s: string, k: int, pat: string, i: int)
    requires 0 <= k <= |s| && 0 <= i
    ensures OccursAt(s[k..], pat, i) <==> OccursAt(s, pat, i + k)
  {
    if i + |pat| <= |s| - k {
      assert s[k..][i..i + |pat|] == s[i + k..i + k + |pat|];
    }
  }

  lemma OccursInLeft(a: string, c: string, pat: string, i: int)
    requires 0 <= i && i + |pat| <= |a|
    ensures OccursAt(a + c, pat, i) <==> OccursAt(a, pat, i)
  {
    assert (a + c)[i..i + |pat|] == a[i..i + |pat|];
  }

  /** A character that is not in `s` is not found in it as a string. */
  lemma AbsentChar(s: string, c: char)
    requires c !in s
    ensures forall i :: !OccursAt(s, [c], i)
  {
    forall i | 0 <= i < |s| ensures !OccursAt(s, [c], i) {
      assert s[i..i + 1] == [s[i]];
    }
  }

  /** A string with no occurrence of a non-empty `pat` is left unchanged. */
  lemma {:induction false} ReplaceAbsent(s: string, pat: string, rep: string)
    requires pat != ""
    requires forall i :: !OccursAt(s, pat, i)
    ensures Replace(s, pat, rep) == s
    decreases |s|
  {
    if s != "" {
      assert !OccursAt(s, pat, 0);
      forall i | 0 <= i ensures !OccursAt(s[1..], pat, i) {
        OccursInDrop(s, 1, pat, i);
      }
      ReplaceAbsent(s[1..], pat, rep);
      assert [s[0]] + s[1..] == s;
    }
  }

  /** No occurrence of `pat` in `a + c` begins inside `a` and ends inside `c`. */
  predicate NoStraddle(a: string, c: string, pat: string) {
    forall i :: 0 <= i < |a| < i + |pat| ==> !OccursAt(a + c, pat, i)
  }

  /** An occurrence across the seam covers the last character of `a` and the
      first of `c`; if `pat` lacks either, nothing straddles. */
  lemma NoStraddleAtGuard(a: string, c: string, pat: string)
    requires (a != "" && a[|a| - 1] !in pat) || (c != "" && c[0] !in pat)
    ensures NoStraddle(a, c, pat)
  {
    forall i | 0 <= i < |a| < i + |pat| ensures !OccursAt(a + c, pat, i) {
      if i + |pat| <= |a + c| {
        assert (a + c)[i..i + |pat|][|a| - 1 - i] == a[|a| - 1];
        assert (a + c)[i..i + |pat|][|a| - i] == c[0];
      }
    }
  }

  lemma NoStraddleInDrop(a: string, c: string, pat: string, k: int)
    requires 0 <= k <= |a|
    requires NoStraddle(a, c, pat)
    ensures NoStraddle(a[k..], c, pat)
  {
    assert a[k..] + c == (a + c)[k..];
    forall i | 0 <= i < |a[k..]| < i + |pat| ensures !OccursAt(a[k..] + c, pat, i) {
      OccursInDrop(a + c, k, pat, i);
    }
  }

  /** Replace distributes over a concatenation whose seam no occurrence
      crosses. */
  lemma {:induction false} ReplaceConcat(a: string, c: string, pat: string, rep: string)
    requires pat != ""
    requires NoStraddle(a, c, pat)
    ensures Replace(a + c, pat, rep) == Replace(a, pat, rep) + Replace(c, pat, rep)
    decreases |a|
  {
    if a == "" {
      assert a + c == c;
    } else if OccursAt(a + c, pat, 0) {
      assert |pat| <= |a|;
      OccursInLeft(a, c, pat, 0);
      assert (a + c)[|pat|..] == a[|pat|..] + c;
      NoStraddleInDrop(a, c, pat, |pat|);
      ReplaceConcat(a[|pat|..], c, pat, rep);
    } else {
      if |pat| <= |a| {
        OccursInLeft(a, c, pat, 0);
      }
      assert (a + c)[1..] == a[1..] + c;
      NoStraddleInDrop(a, c, pat, 1);
      ReplaceConcat(a[1..], c, pat, rep);
    }
  }

  /** A leading occurrence of `pat` is removed by `replace(pat, '')`. */
  lemma ReplaceDropsLeading(pat: string, r: string)
    requires pat != ""
    ensures Replace(pat + r, pat, "") == Replace(r, pat, "")
  {
    assert (pat + r)[..|pat|] == pat;
    assert (pat + r)[|pat|..] == r;
  }

  /** Replacing in a joined string agrees with replacing in every element,
      provided `pat` cannot be found inside the separator or across a seam
      (the separator's first and last characters do not occur in `pat`). */
  lemma {:induction false} ReplaceJoin(xs: seq<string>, sep: string, pat: string, rep: string)
    requires pat != "" && sep != ""
    requires sep[0] !in pat && sep[|sep| - 1] !in pat
    requires forall i :: !OccursAt(sep, pat, i)
    ensures Replace(Join(xs, sep), pat, rep) == Join(ReplaceEach(xs, pat, rep), sep)
    decreases |xs|
  {
    if |xs| >= 2 {
      var rest := Join(xs[1..], sep);
      ReplaceJoin(xs[1..], sep, pat, rep);
      ReplaceAcrossSeparator(xs[0], sep, rest, pat, rep);
      JoinReplaceEachCons(xs, sep, pat, rep);
    } else if |xs| == 1 {
      assert ReplaceEach(xs, pat, rep) == [Replace(xs[0], pat, rep)];
    }
  }

  /** Peeling the first element off a join of at least two, before and
      after the element-wise replacement. */
  lemma JoinReplaceEachCons(xs: seq<string>, sep: string, pat: string, rep: string)
    requires |xs| >= 2
    ensures Join(xs, sep) == xs[0] + sep + Join(xs[1..], sep)
    ensures Join(ReplaceEach(xs, pat, rep), sep)
            == Replace(xs[0], pat, rep) + sep + Join(ReplaceEach(xs[1..], pat, rep), sep)
  {
    var ys := ReplaceEach(xs, pat, rep);
    assert ys[1..] == ReplaceEach(xs[1..], pat, rep);
  }

  /** One seam of a join: `x + sep + rest` is replaced piecewise, the
      separator staying as it is. */
  lemma ReplaceAcrossSeparator(x: string, sep: string, rest: string, pat: string, rep: string)
    requires pat != "" && sep != ""
    requires sep[0] !in pat && sep[|sep| - 1] !in pat
    requires forall i :: !OccursAt(sep, pat, i)
    ensures Replace(x + sep + rest, pat, rep) == Replace(x, pat, rep) + sep + Replace(rest, pat, rep)
  {
    var tail := sep + rest;
    assert x + sep + rest == x + tail;
    assert tail[0] == sep[0];
    NoStraddleAtGuard(x, tail, pat);
    ReplaceConcat(x, tail, pat, rep);
    ReplaceSeparatorFirst(sep, rest, pat, rep);
  }

  /** A separator that `pat` cannot meet passes through a replacement
      unchanged and splits it. */
  lemma ReplaceSeparatorFirst(sep: string, rest: string, pat: string, rep: string)
    requires pat != "" && sep != ""
    requires sep[|sep| - 1] !in pat
    requires forall i :: !OccursAt(sep, pat, i)
    ensures Replace(sep + rest, pat, rep) == sep + Replace(rest, pat, rep)
  {
    NoStraddleAtGuard(sep, rest, pat);
    ReplaceConcat(sep, rest, pat, rep);
    ReplaceAbsent(sep, pat, rep);
  }
}
