/**
 * The parts of java.lang.String and java.lang.Integer the feed parser relies
 * on: trim(), split() with its trailing-empty rule, String.join and
 * Integer.valueOf over 32-bit ints.
 */
module JavaStrings {
  import opened Wrappers

  /** Characters String.trim() removes: every code point up to U+0020. */
  predicate IsTrimmable(c: char)
  {
    c <= ' '
  }

  /** Characters of the regular-expression class \s: space, \t, \n, U+000B, \f, \r. */
  predicate IsRegexSpace(c: char)
  {
    c == ' ' || c == '\t' || c == '\n' || c == '\r' || c as int == 0x0B || c as int == 0x0C
  }

  lemma RegexSpaceIsTrimmable(c: char)
    ensures IsRegexSpace(c) ==> IsTrimmable(c)
  {
  }

  /** The two character classes stripped from string ends. */
  datatype CharClass = Trimmable | RegexSpace

  predicate InClass(cls: CharClass, c: char)
  {
    match cls
    case Trimmable => IsTrimmable(c)
    case RegexSpace => IsRegexSpace(c)
  }

  /** `s` without its longest prefix of characters in `cls`. */
  function DropLeading(s: string, cls: CharClass): (r: string)
    ensures |r| <= |s| && r == s[|s| - |r|..]
    ensures forall j :: 0 <= j < |s| - |r| ==> InClass(cls, s[j])
    ensures |r| > 0 ==> !InClass(cls, r[0])
    decreases |s|
  {
    if |s| > 0 && InClass(cls, s[0]) then DropLeading(s[1..], cls) else s
  }

  /** `s` without its longest suffix of characters in `cls`. */
  function DropTrailing(s: string, cls: CharClass): (r: string)
    ensures |r| <= |s| && r == s[..|r|]
    ensures forall j :: |r| <= j < |s| ==> InClass(cls, s[j])
    ensures |r| > 0 ==> !InClass(cls, r[|r| - 1])
    decreases |s|
  {
    if |s| > 0 && InClass(cls, s[|s| - 1]) then DropTrailing(s[..|s| - 1], cls) else s
  }

  /** The number of characters of `cls` that `s` starts with. */
  function LeadLength(s: string, cls: CharClass): (k: nat)
    ensures k <= |s|
    ensures forall j :: 0 <= j < k ==> InClass(cls, s[j])
    ensures k < |s| ==> !InClass(cls, s[k])
  {
    var rest := DropLeading(s, cls);
    assert |rest| > 0 ==> rest[0] == s[|s| - |rest|];
    |s| - |rest|
  }

  /** A prefix of a suffix of `s` is a slice of `s`; what follows it in the suffix follows it in `s`. */
  lemma PrefixOfSuffix(s: string, a: nat, x: string, r: string, cls: CharClass)
    requires a <= |s| && x == s[a..]
    requires |r| <= |x| && r == x[..|r|]
    requires forall j :: |r| <= j < |x| ==> InClass(cls, x[j])
    ensures a + |r| <= |s| && r == s[a..a + |r|]
    ensures forall j :: a + |r| <= j < |s| ==> InClass(cls, s[j])
  {
    forall j | a + |r| <= j < |s| ensures InClass(cls, s[j]) {
      assert s[j] == x[j - a];
    }
  }

  /**
   * `r` is the slice of `s` that starts at `a`, and every character of `s`
   * after that slice is in `cls`.
   */
  predicate SliceFollowedBy(s: string, a: nat, r: string, cls: CharClass)
  {
    && a + |r| <= |s|
    && r == s[a..a + |r|]
    && (forall j :: a + |r| <= j < |s| ==> InClass(cls, s[j]))
  }

  /**
   * `s` without the characters of `cls` at either end. StripEndsIsSlice and
   * StripEndsOfPadded show it is exactly the stretch between the leading and
   * the trailing run of `cls`.
   */
  function StripEnds(s: string, cls: CharClass): (r: string)
    ensures |r| <= |s|
    ensures |r| > 0 ==> !InClass(cls, r[0]) && !InClass(cls, r[|r| - 1])
    ensures (|s| == 0 || (!InClass(cls, s[0]) && !InClass(cls, s[|s| - 1]))) ==> r == s
  {
    DropTrailing(DropLeading(s, cls), cls)
  }

  /** What stripping leaves is the slice of `s` after its leading run of `cls`, followed only by `cls`. */
  lemma StripEndsIsSlice(s: string, cls: CharClass)
    ensures SliceFollowedBy(s, LeadLength(s, cls), StripEnds(s, cls), cls)
  {
    var a, x := LeadLength(s, cls), DropLeading(s, cls);
    var r := DropTrailing(x, cls);
    assert SliceFollowedBy(s, a, r, cls) by {
      PrefixOfSuffix(s, a, x, r, cls);
    }
  }

  /** `s` starts with exactly `a` characters of `cls`. */
  predicate LeadRun(s: string, a: nat, cls: CharClass)
  {
    a <= |s| && (forall j :: 0 <= j < a ==> InClass(cls, s[j])) && (a < |s| ==> !InClass(cls, s[a]))
  }

  /** `m` sits at `k` in `s`, its ends are not in `cls`, and only `cls` surrounds it. */
  predicate CleanStretch(s: string, k: nat, m: string, cls: CharClass)
  {
    && k + |m| <= |s|
    && (forall j :: 0 <= j < |m| ==> s[k + j] == m[j])
    && (forall j :: 0 <= j < k ==> InClass(cls, s[j]))
    && (forall j :: k + |m| <= j < |s| ==> InClass(cls, s[j]))
    && |m| > 0 && !InClass(cls, m[0]) && !InClass(cls, m[|m| - 1])
  }

  /**
   * A slice that starts after the leading run of `cls`, is followed only by
   * `cls` and has clean ends is the one clean stretch of `s`.
   */
  lemma CleanSliceIsUnique(s: string, a: nat, r: string, k: nat, m: string, cls: CharClass)
    requires LeadRun(s, a, cls) && SliceFollowedBy(s, a, r, cls)
    requires |r| > 0 ==> !InClass(cls, r[0]) && !InClass(cls, r[|r| - 1])
    requires CleanStretch(s, k, m, cls)
    ensures r == m
  {
    assert s[k] == m[0];
    assert a == k;
    assert |r| == |m| by {
      assert s[k + |m| - 1] == m[|m| - 1];
      assert |r| > 0 ==> r[|r| - 1] == s[a + |r| - 1];
    }
    forall j | 0 <= j < |m| ensures r[j] == m[j] {
      assert r[j] == s[a + j];
    }
  }

  /** The clean stretch of `s` is what stripping `s` leaves. */
  lemma StripEndsOfStretch(s: string, k: nat, m: string, cls: CharClass)
    requires CleanStretch(s, k, m, cls)
    ensures StripEnds(s, cls) == m
  {
    StripEndsIsStrip(s, cls);
    CleanSliceIsUnique(s, LeadLength(s, cls), StripEnds(s, cls), k, m, cls);
  }

  /** The facts about StripEnds that pin it down, gathered for CleanSliceIsUnique. */
  lemma StripEndsIsStrip(s: string, cls: CharClass)
    ensures var r := StripEnds(s, cls);
      && LeadRun(s, LeadLength(s, cls), cls)
      && SliceFollowedBy(s, LeadLength(s, cls), r, cls)
      && (|r| > 0 ==> !InClass(cls, r[0]) && !InClass(cls, r[|r| - 1]))
  {
    StripEndsIsSlice(s, cls);
  }

  /**
   * Stripping undoes padding: `m`, whose own ends are not in `cls`, comes
   * back whole from between any runs of `cls` characters.
   */
  lemma StripEndsOfPadded(p: string, m: string, q: string, cls: CharClass)
    requires forall j :: 0 <= j < |p| ==> InClass(cls, p[j])
    requires forall j :: 0 <= j < |q| ==> InClass(cls, q[j])
    requires |m| > 0 && !InClass(cls, m[0]) && !InClass(cls, m[|m| - 1])
    ensures StripEnds(p + m + q, cls) == m
  {
    var s := p + m + q;
    forall j | 0 <= j < |p| ensures InClass(cls, s[j]) {
      assert s[j] == p[j];
    }
    forall j | |p| + |m| <= j < |s| ensures InClass(cls, s[j]) {
      assert s[j] == q[j - |p| - |m|];
    }
    forall j | 0 <= j < |m| ensures s[|p| + j] == m[j] {
    }
    assert CleanStretch(s, |p|, m, cls);
    StripEndsOfStretch(s, |p|, m, cls);
  }

  /** Stripping only removes characters: one absent before is absent after. */
  lemma StripEndsRemovesOnly(s: string, cls: CharClass, c: char)
    requires c !in s
    ensures c !in StripEnds(s, cls)
  {
    var x := DropLeading(s, cls);
    assert forall j :: 0 <= j < |x| ==> x[j] == s[|s| - |x| + j];
  }

  /** String.trim(). */
  function Trim(s: string): (r: string)
    ensures |r| <= |s|
    ensures |r| > 0 ==> !IsTrimmable(r[0]) && !IsTrimmable(r[|r| - 1])
    ensures (|s| == 0 || (!IsTrimmable(s[0]) && !IsTrimmable(s[|s| - 1]))) ==> r == s
  {
    StripEnds(s, Trimmable)
  }

  /** trim() returns exactly what lies between runs of characters up to U+0020. */
  lemma TrimOfPadded(p: string, m: string, q: string)
    requires forall j :: 0 <= j < |p| ==> IsTrimmable(p[j])
    requires forall j :: 0 <= j < |q| ==> IsTrimmable(q[j])
    requires |m| > 0 && !IsTrimmable(m[0]) && !IsTrimmable(m[|m| - 1])
    ensures Trim(p + m + q) == m
  {
    StripEndsOfPadded(p, m, q, Trimmable);
  }

  /** A line of nothing but blanks and control characters trims to the empty string. */
  lemma TrimBlank(s: string)
    requires forall j :: 0 <= j < |s| ==> IsTrimmable(s[j])
    ensures Trim(s) == ""
  {
  }

  /** `s` without the \s characters at either end. */
  function Strip(s: string): (r: string)
    ensures |r| <= |s|
    ensures |r| > 0 ==> !IsRegexSpace(r[0]) && !IsRegexSpace(r[|r| - 1])
    ensures (|s| == 0 || (!IsRegexSpace(s[0]) && !IsRegexSpace(s[|s| - 1]))) ==> r == s
  {
    StripEnds(s, RegexSpace)
  }

  /** A single leading space is the whole leading run when the next character is not \s. */
  lemma DropLeadingSpace(f: string)
    requires |f| > 0 && !IsRegexSpace(f[0])
    ensures DropLeading(" " + f, RegexSpace) == f
  {
    assert (" " + f)[1..] == f;
  }

  /** Removing \s around a piece returns exactly what lies between runs of \s. */
  lemma StripOfPadded(p: string, m: string, q: string)
    requires forall j :: 0 <= j < |p| ==> IsRegexSpace(p[j])
    requires forall j :: 0 <= j < |q| ==> IsRegexSpace(q[j])
    requires |m| > 0 && !IsRegexSpace(m[0]) && !IsRegexSpace(m[|m| - 1])
    ensures Strip(p + m + q) == m
  {
    StripEndsOfPadded(p, m, q, RegexSpace);
  }

  /** The blank the pattern consumes after a comma: one leading space is stripped away. */
  lemma StripLeadingSpace(f: string)
    requires |f| > 0 && !IsRegexSpace(f[0]) && !IsRegexSpace(f[|f| - 1])
    ensures Strip(" " + f) == f
  {
    DropLeadingSpace(f);
  }

  /** Position of the first `c` in `s`. */
  function IndexOf(s: string, c: char): (k: nat)
    requires c in s
    ensures k < |s| && s[k] == c && c !in s[..k]
  {
    if s[0] == c then 0
    else
      var k := 1 + IndexOf(s[1..], c);
      assert s[..k] == [s[0]] + s[1..][..k - 1];
      k
  }

  /** String.join: the pieces with one `c` between neighbours. */
  function Join(ps: seq<string>, c: char): string
  {
    if |ps| == 0 then ""
    else if |ps| == 1 then ps[0]
    else ps[0] + [c] + Join(ps[1..], c)
  }

  /**
   * Every `c`-separated piece of `s`, empty ones included; the partner of
   * Join. String.split starts from these pieces.
   */
  function Pieces(s: string, c: char): (r: seq<string>)
    ensures |r| >= 1
    ensures |r| == 1 <==> c !in s
    ensures forall i :: 0 <= i < |r| ==> c !in r[i]
    decreases |s|
  {
    if c in s then
      var k := IndexOf(s, c);
      [s[..k]] + Pieces(s[k + 1..], c)
    else
      [s]
  }

  /** A string is its prefix, the character at the cut, and its suffix. */
  lemma CutAt(s: string, k: nat)
    requires k < |s|
    ensures s == s[..k] + [s[k]] + s[k + 1..]
  {
    assert s[..k] + [s[k]] == s[..k + 1];
    assert s == s[..k + 1] + s[k + 1..];
  }

  /** Joining the pieces back with `c` gives the string that was cut. */
  lemma {:induction false} JoinPieces(s: string, c: char)
    ensures Join(Pieces(s, c), c) == s
    decreases |s|
  {
    if c in s {
      var k := IndexOf(s, c);
      var rest := Pieces(s[k + 1..], c);
      JoinPieces(s[k + 1..], c);
      var ps := [s[..k]] + rest;
      assert Pieces(s, c) == ps;
      assert ps[0] == s[..k] && ps[1..] == rest;
      assert Join(ps, c) == s[..k] + [c] + Join(rest, c);
      CutAt(s, k);
    }
  }

  /** The pieces without the empty ones at the end. */
  function DropTrailingEmpty(ps: seq<string>): (r: seq<string>)
    ensures |r| <= |ps| && r == ps[..|r|]
    ensures forall j :: |r| <= j < |ps| ==> ps[j] == ""
    ensures |r| > 0 ==> r[|r| - 1] != ""
  {
    if |ps| > 0 && ps[|ps| - 1] == "" then DropTrailingEmpty(ps[..|ps| - 1]) else ps
  }

  /**
   * String.split with a one-character separator and limit 0: when the
   * separator does not occur the whole string is the only piece (even if it
   * is empty); otherwise the pieces with trailing empty ones removed.
   */
  function Split(s: string, c: char): (r: seq<string>)
    ensures c !in s ==> r == [s]
    ensures c in s ==> |r| == 0 || r[|r| - 1] != ""
    ensures c in s ==> |r| <= |Pieces(s, c)| && r == Pieces(s, c)[..|r|] && forall j :: |r| <= j < |Pieces(s, c)| ==> Pieces(s, c)[j] == ""
    ensures forall i :: 0 <= i < |r| ==> c !in r[i]
  {
    var ps := Pieces(s, c);
    if |ps| == 1 then ps else DropTrailingEmpty(ps)
  }

  /** IndexOf finds the first occurrence, so any position with nothing before it is that one. */
  lemma IndexOfIsFirst(s: string, c: char, n: nat)
    requires n < |s| && s[n] == c && c !in s[..n]
    ensures IndexOf(s, c) == n
  {
  }

  /** Splitting a join recovers the pieces. */
  lemma {:induction false} PiecesOfJoin(ps: seq<string>, c: char)
    requires |ps| >= 1
    requires forall i :: 0 <= i < |ps| ==> c !in ps[i]
    ensures Pieces(Join(ps, c), c) == ps
    decreases |ps|
  {
    if |ps| > 1 {
      var a, tail := ps[0], ps[1..];
      var rest := Join(tail, c);
      var s := a + [c] + rest;
      assert Join(ps, c) == s;
      assert s[|a|] == c && s[..|a|] == a;
      IndexOfIsFirst(s, c, |a|);
      assert s[|a| + 1..] == rest;
      assert Pieces(s, c) == [a] + Pieces(rest, c);
      PiecesOfJoin(tail, c);
      assert ps == [a] + tail;
    }
  }

  /**
   * Split undoes String.join when no piece contains the separator and the
   * last piece is not empty (or there is only one piece).
   */
  lemma SplitOfJoin(ps: seq<string>, c: char)
    requires |ps| >= 1
    requires forall i :: 0 <= i < |ps| ==> c !in ps[i]
    requires |ps| == 1 || ps[|ps| - 1] != ""
    ensures Split(Join(ps, c), c) == ps
  {
    PiecesOfJoin(ps, c);
  }

  /**
   * A trailing separator is lost: split of a join that ends in an empty
   * piece yields the pieces before it.
   */
  lemma SplitDropsTrailingSeparator(ps: seq<string>, c: char)
    requires |ps| >= 1
    requires forall i :: 0 <= i < |ps| ==> c !in ps[i]
    requires ps[|ps| - 1] != ""
    ensures Split(Join(ps + [""], c), c) == ps
  {
    var qs := ps + [""];
    PiecesOfJoin(qs, c);
    assert qs[..|qs| - 1] == ps;
  }

  /** Joining adds only separators: a character in no piece, and not the separator, is not in the join. */
  lemma {:induction false} JoinAvoids(ps: seq<string>, sep: char, c: char)
    requires c != sep
    requires forall i :: 0 <= i < |ps| ==> c !in ps[i]
    ensures c !in Join(ps, sep)
    decreases |ps|
  {
    if |ps| > 1 {
      JoinAvoids(ps[1..], sep, c);
      assert c !in ps[0] + [sep];
    }
  }

  // ---------------------------------------------------------------------------
  // Integer.valueOf / Integer.toString

  const IntMin: int := -0x8000_0000
  const IntMax: int := 0x7fff_ffff

  predicate IsDigit(c: char)
  {
    '0' <= c <= '9'
  }

  predicate AllDigits(s: string)
  {
    forall i :: 0 <= i < |s| ==> IsDigit(s[i])
  }

  function DigitValue(c: char): nat
    requires IsDigit(c)
  {
    c as int - '0' as int
  }

  /** The value of a run of decimal digits, most significant first. */
  function DigitsValue(s: string): nat
    requires AllDigits(s)
  {
    if |s| == 0 then 0 else DigitsValue(s[..|s| - 1]) * 10 + DigitValue(s[|s| - 1])
  }

  /**
   * Integer.valueOf(String) in radix 10: an optional '+' or '-' followed by
   * one or more digits, whose value must fit in a 32-bit int. Anything else
   * is a NumberFormatException, here None.
   */
  function ParseInt(s: string): (r: Option<int>)
    ensures r.Some? ==> IntMin <= r.value <= IntMax
    ensures r.Some? ==> |s| > 0 && (IsDigit(s[0]) || (|s| > 1 && (s[0] == '+' || s[0] == '-')))
    ensures |s| > 0 && IsDigit(s[0]) ==>
      && (r.Some? <==> AllDigits(s) && DigitsValue(s) <= IntMax)
      && (r.Some? ==> r.value == DigitsValue(s))
    ensures |s| > 1 && s[0] == '+' ==>
      && (r.Some? <==> AllDigits(s[1..]) && DigitsValue(s[1..]) <= IntMax)
      && (r.Some? ==> r.value == DigitsValue(s[1..]))
    ensures |s| > 1 && s[0] == '-' ==>
      && (r.Some? <==> AllDigits(s[1..]) && DigitsValue(s[1..]) <= -IntMin)
      && (r.Some? ==> r.value == -(DigitsValue(s[1..]) as int))
  {
    if |s| == 0 then None
    else
      var negative := s[0] == '-';
      var digits := if s[0] == '-' || s[0] == '+' then s[1..] else s;
      if |digits| == 0 || !AllDigits(digits) then None
      else
        var magnitude: int := DigitsValue(digits);
        var v := if negative then -magnitude else magnitude;
        if IntMin <= v <= IntMax then Some(v) else None
  }

  function DigitChar(d: nat): (c: char)
    requires d < 10
    ensures IsDigit(c) && DigitValue(c) == d
  {
    ('0' as int + d) as char
  }

  /** The decimal digits of n, most significant first, without leading zeros. */
  function NatDigits(n: nat): (s: string)
    ensures |s| >= 1 && AllDigits(s)
  {
    if n < 10 then [DigitChar(n)] else NatDigits(n / 10) + [DigitChar(n % 10)]
  }

  /** Integer.toString: the partner of ParseInt. */
  function FormatInt(n: int): string
  {
    if n < 0 then "-" + NatDigits(-n) else NatDigits(n)
  }

  lemma {:induction false} NatDigitsValue(n: nat)
    ensures DigitsValue(NatDigits(n)) == n
  {
    if n >= 10 {
      var s := NatDigits(n);
      NatDigitsValue(n / 10);
      assert s[..|s| - 1] == NatDigits(n / 10);
    }
  }

  /** Round trip: every 32-bit int parses back from its decimal text. */
  lemma ParseFormatInt(n: int)
    requires IntMin <= n <= IntMax
    ensures ParseInt(FormatInt(n)) == Some(n)
  {
    if n < 0 {
      var d := NatDigits(-n);
      NatDigitsValue(-n);
      var s := "-" + d;
      assert s[0] == '-' && s[1..] == d;
    } else {
      NatDigitsValue(n);
    }
  }

  /** Integer.valueOf rejects values outside the 32-bit range instead of wrapping. */
  lemma ParseIntRejectsOverflow(s: string)
    requires |s| > 0 && AllDigits(s) && DigitsValue(s) > IntMax
    ensures ParseInt(s).None?
  {
  }
}
