/** Character classes and string helpers shared by the serialisers and the
    provisioning tools: Python's `str.isspace`, `upper`, `strip`, `split`,
    `join`, and C's `%d` / `%lld` decimal rendering. */
module Text {

  /** The characters Python's `str.isspace` (and the `\s` class of a `str`
      regular expression) accept. */
  predicate IsSpace(c: char)
  {
    c == ' ' || ('\t' <= c <= '\r') || ('\U{1c}' <= c <= '\U{1f}')
    || c == '\U{85}' || c == '\U{a0}' || c == '\U{1680}'
    || ('\U{2000}' <= c <= '\U{200a}') || c == '\U{2028}' || c == '\U{2029}'
    || c == '\U{202f}' || c == '\U{205f}' || c == '\U{3000}'
  }

  predicate IsDigit(c: char) { '0' <= c <= '9' }

  predicate IsUpperLetter(c: char) { 'A' <= c <= 'Z' }

  /** The class `[A-Z0-9]`. */
  predicate IsUpperAlnum(c: char) { IsUpperLetter(c) || IsDigit(c) }

  predicate IsHexDigit(c: char)
  {
    IsDigit(c) || ('a' <= c <= 'f') || ('A' <= c <= 'F')
  }

  predicate NotSpace(c: char) { !IsSpace(c) }

  predicate AllDigits(s: string)
  {
    forall i | 0 <= i < |s| :: IsDigit(s[i])
  }

  predicate AllUpperAlnum(s: string)
  {
    forall i | 0 <= i < |s| :: IsUpperAlnum(s[i])
  }

  predicate NoSpace(s: string)
  {
    forall i | 0 <= i < |s| :: !IsSpace(s[i])
  }

  // ---------------------------------------------------------------------
  // upper()

  /** ASCII case mapping; every other character is left as it is. */
  function ToUpper(c: char): (u: char)
    ensures IsUpperLetter(u) <==> IsUpperLetter(c) || ('a' <= c <= 'z')
    ensures IsDigit(u) <==> IsDigit(c)
    ensures IsSpace(u) <==> IsSpace(c)
  {
    if 'a' <= c <= 'z' then (c as int - 32) as char else c
  }

  function Upper(s: string): (u: string)
    ensures |u| == |s|
    ensures forall i | 0 <= i < |s| :: u[i] == ToUpper(s[i])
  {
    seq(|s|, i requires 0 <= i < |s| => ToUpper(s[i]))
  }

  /** The strings `upper()` leaves unchanged. */
  predicate IsUpperCased(s: string)
  {
    forall i | 0 <= i < |s| :: ToUpper(s[i]) == s[i]
  }

  lemma UpperIsUpperCased(s: string)
    ensures IsUpperCased(Upper(s))
    ensures Upper(Upper(s)) == Upper(s)
  {
  }

  lemma UpperCasedFixed(s: string)
    requires IsUpperCased(s)
    ensures Upper(s) == s
  {
  }

  lemma {:induction false} JoinUpperCased(parts: seq<string>, sep: string)
    requires IsUpperCased(sep)
    requires forall i | 0 <= i < |parts| :: IsUpperCased(parts[i])
    ensures IsUpperCased(JoinWith(parts, sep))
    decreases |parts|
  {
    if |parts| > 1 {
      JoinUpperCased(parts[1..], sep);
      var a, b := parts[0] + sep, JoinWith(parts[1..], sep);
      assert forall i | |a| <= i < |a + b| :: (a + b)[i] == b[i - |a|];
    }
  }

  // ---------------------------------------------------------------------
  // strip()

  function LStrip(s: string): (r: string)
    ensures |r| <= |s| && r == s[|s| - |r|..]
    ensures r == [] || !IsSpace(r[0])
    ensures forall i | 0 <= i < |s| - |r| :: IsSpace(s[i])
    decreases |s|
  {
    if s != [] && IsSpace(s[0]) then LStrip(s[1..]) else s
  }

  function RStrip(s: string): (r: string)
    ensures |r| <= |s| && r == s[..|r|]
    ensures r == [] || !IsSpace(r[|r| - 1])
    ensures forall i | |r| <= i < |s| :: IsSpace(s[i])
    decreases |s|
  {
    if s != [] && IsSpace(s[|s| - 1]) then RStrip(s[..|s| - 1]) else s
  }

  /** Python's `str.strip()` with no argument. */
  function Strip(s: string): (r: string)
    ensures IsStripped(r)
    ensures exists i {:trigger s[i..]} :: 0 <= i <= |s| - |r| && r == s[i..i + |r|]
  {
    var l := LStrip(s);
    var r := RStrip(l);
    assert r == s[|s| - |l|..][..|r|];
    assert r == s[|s| - |l|..|s| - |l| + |r|];
    r
  }

  /** No surrounding white space. */
  predicate IsStripped(s: string)
  {
    s == [] || (!IsSpace(s[0]) && !IsSpace(s[|s| - 1]))
  }

  lemma StripFixed(s: string)
    requires IsStripped(s)
    ensures Strip(s) == s
  {
  }

  lemma StripEmptyIffAllSpace(s: string)
    ensures Strip(s) == [] <==> forall i | 0 <= i < |s| :: IsSpace(s[i])
  {
  }

  lemma StripLeadingSpace(c: char, s: string)
    requires IsSpace(c)
    ensures Strip([c] + s) == Strip(s)
  {
    assert ([c] + s)[1..] == s;
  }

  // ---------------------------------------------------------------------
  // split(sep) and join

  /** Python's `s.split(sep)` for a one-character separator: every
      occurrence splits, so the result always has one more piece than `s`
      has separators. */
  function SplitOn(s: string, sep: char): (parts: seq<string>)
    ensures |parts| >= 1
    decreases |s|
  {
    if s == [] then [[]]
    else
      var rest := SplitOn(s[1..], sep);
      if s[0] == sep then [[]] + rest else [[s[0]] + rest[0]] + rest[1..]
  }

  lemma {:induction false} SplitOnNoSep(s: string, sep: char)
    requires sep !in s
    ensures SplitOn(s, sep) == [s]
    decreases |s|
  {
    if s != [] {
      SplitOnNoSep(s[1..], sep);
      assert [s[0]] + s[1..] == s;
    }
  }

  lemma {:induction false} SplitOnAppend(a: string, sep: char, b: string)
    ensures SplitOn(a + [sep] + b, sep) == SplitOn(a, sep) + SplitOn(b, sep)
    decreases |a|
  {
    if a == [] {
      assert a + [sep] + b == [sep] + b;
      assert ([sep] + b)[1..] == b;
    } else {
      assert (a + [sep] + b)[1..] == a[1..] + [sep] + b;
      SplitOnAppend(a[1..], sep, b);
    }
  }

  /** Every piece of a split is separator-free and made of characters of the
      input. */
  lemma {:induction false} SplitOnPieces(s: string, sep: char)
    ensures forall p, c | p in SplitOn(s, sep) && c in p :: c in s && c != sep
    decreases |s|
  {
    if s != [] {
      SplitOnPieces(s[1..], sep);
      var rest := SplitOn(s[1..], sep);
      forall p, c | p in SplitOn(s, sep) && c in p
        ensures c in s && c != sep
      {
        if s[0] != sep && p == [s[0]] + rest[0] && c != s[0] {
          assert c in rest[0];
        }
      }
    }
  }

  /** Python's `sep.join(parts)`. */
  function JoinWith(parts: seq<string>, sep: string): string
    decreases |parts|
  {
    if parts == [] then []
    else if |parts| == 1 then parts[0]
    else parts[0] + sep + JoinWith(parts[1..], sep)
  }

  /** Joining the pieces of a split with the separator gives back the
      input: `sep.join(s.split(sep)) == s`. */
  lemma {:induction false} JoinSplitOn(s: string, sep: char)
    ensures JoinWith(SplitOn(s, sep), [sep]) == s
    decreases |s|
  {
    if s != [] {
      var rest := SplitOn(s[1..], sep);
      JoinSplitOn(s[1..], sep);
      if s[0] == sep {
        assert ([[]] + rest)[1..] == rest;
      } else if |rest| == 1 {
        assert [s[0]] + s[1..] == s;
      } else {
        var parts := [[s[0]] + rest[0]] + rest[1..];
        assert parts[1..] == rest[1..];
        assert JoinWith(rest, [sep]) == rest[0] + [sep] + JoinWith(rest[1..], [sep]);
        assert [s[0]] + s[1..] == s;
      }
    }
  }

  // ---------------------------------------------------------------------
  // maximal runs: `split()` with no argument, and regex tokenisation

  predicate AllKeep(s: string, keep: char -> bool)
  {
    forall i | 0 <= i < |s| :: keep(s[i])
  }

  /** Length of the run of `keep` characters that starts `s`. */
  function RunLen(s: string, keep: char -> bool): (n: nat)
    requires s != [] && keep(s[0])
    ensures 1 <= n <= |s|
    ensures forall i | 0 <= i < n :: keep(s[i])
    ensures n == |s| || !keep(s[n])
    decreases |s|
  {
    if |s| == 1 || !keep(s[1]) then 1 else 1 + RunLen(s[1..], keep)
  }

  /** The maximal runs of `keep` characters of `s`, left to right. With
      `keep := NotSpace` this is Python's `s.split()`. */
  function Runs(s: string, keep: char -> bool): (rs: seq<string>)
    ensures forall i | 0 <= i < |rs| :: rs[i] != [] && AllKeep(rs[i], keep)
    decreases |s|
  {
    if s == [] then []
    else if !keep(s[0]) then Runs(s[1..], keep)
    else
      var n := RunLen(s, keep);
      [s[..n]] + Runs(s[n..], keep)
  }

  lemma RunLenOfPrefix(t: string, rest: string, keep: char -> bool)
    requires t != [] && AllKeep(t, keep)
    requires rest == [] || !keep(rest[0])
    ensures RunLen(t + rest, keep) == |t|
  {
    assert forall i | 0 <= i < |t| :: (t + rest)[i] == t[i];
    if rest != [] {
      assert (t + rest)[|t|] == rest[0];
    }
  }

  /** Runs never straddle a non-kept character. */
  lemma {:induction false} RunsAppend(a: string, b: string, keep: char -> bool)
    requires a == [] || !keep(a[|a| - 1])
    ensures Runs(a + b, keep) == Runs(a, keep) + Runs(b, keep)
    decreases |a|
  {
    if a == [] {
      assert a + b == b;
    } else if !keep(a[0]) {
      assert (a + b)[1..] == a[1..] + b;
      RunsAppend(a[1..], b, keep);
    } else {
      var n := RunLen(a, keep);
      assert n < |a|;
      assert a == a[..n] + a[n..];
      RunLenOfPrefix(a[..n], a[n..] + b, keep);
      assert a + b == a[..n] + (a[n..] + b);
      RunsAppend(a[n..], b, keep);
    }
  }

  lemma RunsOfOne(t: string, keep: char -> bool)
    requires t != [] && AllKeep(t, keep)
    ensures Runs(t, keep) == [t]
  {
    RunLenOfPrefix(t, [], keep);
    assert t + [] == t;
  }

  /** Joining non-empty runs with a non-kept separator and re-splitting gives
      the runs back. */
  lemma {:induction false} RunsOfJoin(toks: seq<string>, sep: char, keep: char -> bool)
    requires !keep(sep)
    requires forall i | 0 <= i < |toks| :: toks[i] != [] && AllKeep(toks[i], keep)
    ensures Runs(JoinWith(toks, [sep]), keep) == toks
    decreases |toks|
  {
    if |toks| == 1 {
      RunsOfOne(toks[0], keep);
    } else if |toks| > 1 {
      var t := toks[0];
      var j := JoinWith(toks[1..], [sep]);
      RunsOfJoin(toks[1..], sep, keep);
      RunsOfOne(t, keep);
      RunLenOfPrefix(t, [sep] + j, keep);
      assert t + [sep] + j == t + ([sep] + j);
      assert (t + ([sep] + j))[..|t|] == t;
      assert (t + ([sep] + j))[|t|..] == [sep] + j;
      assert ([sep] + j)[1..] == j;
    }
  }

  /** A string with no kept character has no runs. */
  lemma {:induction false} RunsOfNoneKept(s: string, keep: char -> bool)
    requires forall i | 0 <= i < |s| :: !keep(s[i])
    ensures Runs(s, keep) == []
    decreases |s|
  {
    if s != [] {
      RunsOfNoneKept(s[1..], keep);
    }
  }

  /** Runs never straddle a non-kept character, on either side of the cut. */
  lemma {:induction false} RunsAppendAt(a: string, b: string, keep: char -> bool)
    requires a == [] || !keep(a[|a| - 1]) || b == [] || !keep(b[0])
    ensures Runs(a + b, keep) == Runs(a, keep) + Runs(b, keep)
    decreases |a|
  {
    if a == [] || !keep(a[|a| - 1]) {
      RunsAppend(a, b, keep);
    } else if b == [] {
      assert a + b == a;
    } else if !keep(a[0]) {
      assert (a + b)[1..] == a[1..] + b;
      RunsAppendAt(a[1..], b, keep);
    } else {
      var n := RunLen(a, keep);
      if n == |a| {
        RunLenOfPrefix(a, b, keep);
        assert (a + b)[..n] == a && (a + b)[n..] == b;
        RunsOfOne(a, keep);
      } else {
        assert a == a[..n] + a[n..];
        RunLenOfPrefix(a[..n], a[n..] + b, keep);
        assert a + b == a[..n] + (a[n..] + b);
        RunsAppendAt(a[n..], b, keep);
      }
    }
  }

  /** Runs depend only on which characters of `s` are kept. */
  lemma {:induction false} RunsKeepAgree(s: string, k1: char -> bool, k2: char -> bool)
    requires forall i | 0 <= i < |s| :: k1(s[i]) == k2(s[i])
    ensures Runs(s, k1) == Runs(s, k2)
    decreases |s|
  {
    if s != [] {
      if !k1(s[0]) {
        RunsKeepAgree(s[1..], k1, k2);
      } else {
        var n := RunLen(s, k1);
        assert n == RunLen(s, k2);
        RunsKeepAgree(s[n..], k1, k2);
      }
    }
  }

  /** Runs are unaffected by surrounding characters that are not kept. */
  lemma RunsOfTrimmed(lead: string, mid: string, trail: string, keep: char -> bool)
    requires forall i | 0 <= i < |lead| :: !keep(lead[i])
    requires forall i | 0 <= i < |trail| :: !keep(trail[i])
    ensures Runs(lead + mid + trail, keep) == Runs(mid, keep)
  {
    RunsOfNoneKept(lead, keep);
    RunsOfNoneKept(trail, keep);
    RunsAppendAt(mid, trail, keep);
    assert mid + trail + [] == mid + trail;
    RunsAppendAt(lead, mid + trail, keep);
    assert lead + mid + trail == lead + (mid + trail);
  }

  lemma CutInThree(s: string, a: nat, b: nat)
    requires a <= b <= |s|
    ensures s == s[..a] + s[a..b] + s[b..]
  {
  }

  /** Where `strip()` cuts: white space before `a` and from `b` on. */
  lemma StripBounds(s: string) returns (a: nat, b: nat)
    ensures a <= b <= |s| && Strip(s) == s[a..b]
    ensures forall i | 0 <= i < a :: IsSpace(s[i])
    ensures forall i | b <= i < |s| :: IsSpace(s[i])
  {
    var l := LStrip(s);
    var r := RStrip(l);
    a := |s| - |l|;
    b := a + |r|;
    forall i | b <= i < |s| ensures IsSpace(s[i]) {
      assert s[i] == l[i - a];
    }
  }

  /** `strip()` removes white space only, so with a kept class that excludes
      white space the runs are unchanged. */
  lemma RunsOfStrip(s: string, keep: char -> bool)
    requires forall i | 0 <= i < |s| :: IsSpace(s[i]) ==> !keep(s[i])
    ensures Runs(Strip(s), keep) == Runs(s, keep)
  {
    var a, b := StripBounds(s);
    var lead, trail := s[..a], s[b..];
    forall i | 0 <= i < |lead| ensures !keep(lead[i]) {
      assert lead[i] == s[i];
    }
    forall i | 0 <= i < |trail| ensures !keep(trail[i]) {
      assert trail[i] == s[b + i];
    }
    CutInThree(s, a, b);
    RunsOfTrimmed(lead, s[a..b], trail, keep);
  }

  lemma {:induction false} JoinWithAppend(a: seq<string>, b: seq<string>, sep: string)
    requires a != [] && b != []
    ensures JoinWith(a + b, sep) == JoinWith(a, sep) + sep + JoinWith(b, sep)
    decreases |a|
  {
    if |a| == 1 {
      assert (a + b)[1..] == b;
    } else {
      assert (a + b)[1..] == a[1..] + b;
      JoinWithAppend(a[1..], b, sep);
    }
  }

  // ---------------------------------------------------------------------
  // decimal rendering (printf `%d`, `%lld`)

  function DigitChar(d: int): (c: char)
    requires 0 <= d < 10
    ensures IsDigit(c)
  {
    ('0' as int + d) as char
  }

  function DigitValue(c: char): int
    requires IsDigit(c)
  {
    c as int - '0' as int
  }

  function NatToDec(n: nat): (s: string)
    ensures s != [] && AllDigits(s)
    ensures n > 0 ==> s[0] != '0'
    decreases n
  {
    if n < 10 then [DigitChar(n)] else NatToDec(n / 10) + [DigitChar(n % 10)]
  }

  /** Value of a string of decimal digits. */
  function DecToNat(s: string): nat
    requires AllDigits(s)
    decreases |s|
  {
    if s == [] then 0 else 10 * DecToNat(s[..|s| - 1]) + DigitValue(s[|s| - 1])
  }

  lemma {:induction false} NatToDecRoundTrip(n: nat)
    ensures DecToNat(NatToDec(n)) == n
    decreases n
  {
    if n >= 10 {
      var s := NatToDec(n);
      NatToDecRoundTrip(n / 10);
      assert s[..|s| - 1] == NatToDec(n / 10);
    }
  }

  /** `%d` / `%lld` rendering of a signed value. */
  function IntToDec(n: int): (s: string)
    ensures s != [] && NoSpace(s)
    ensures (s[0] == '-') <==> n < 0
  {
    if n < 0 then "-" + NatToDec(-n) else NatToDec(n)
  }

  /** Inverse of `IntToDec`: an optional minus sign then digits. */
  function DecToInt(s: string): int
    requires s != [] && (s[0] == '-' ==> AllDigits(s[1..])) && (s[0] != '-' ==> AllDigits(s))
  {
    if s[0] == '-' then 0 - DecToNat(s[1..]) else DecToNat(s)
  }

  lemma IntToDecRoundTrip(n: int)
    ensures var s := IntToDec(n);
            (s[0] == '-' ==> AllDigits(s[1..])) && (s[0] != '-' ==> AllDigits(s))
            && DecToInt(s) == n
  {
    var s := IntToDec(n);
    if n < 0 {
      assert s[1..] == NatToDec(-n);
      NatToDecRoundTrip(-n);
    } else {
      NatToDecRoundTrip(n);
    }
  }

  // ---------------------------------------------------------------------
  // substring search (C `strstr`)

  predicate Contains(s: string, t: string)
  {
    exists i | 0 <= i <= |s| - |t| :: t <= s[i..]
  }

  /** A suffix of `s`. */
  predicate EndsWith(s: string, r: string)
  {
    |r| <= |s| && s[|s| - |r|..] == r
  }

  lemma EndsWithSelf(s: string)
    ensures EndsWith(s, s)
  {
    assert s[0..] == s;
  }

  lemma EndsWithTrans(s: string, r: string, q: string)
    requires EndsWith(s, r) && EndsWith(r, q)
    ensures EndsWith(s, q)
  {
    assert s[|s| - |q|..] == s[|s| - |r|..][|r| - |q|..];
  }

  lemma EndsWithAppend(x: string, s: string, r: string)
    requires EndsWith(s, r)
    ensures EndsWith(x + s, r)
  {
    assert (x + s)[|x| + |s| - |r|..] == s[|s| - |r|..];
  }

  lemma PrefixOfPair(x: string, y: string, w: string)
    ensures x + y <= x + (y + w)
  {
    assert x + (y + w) == x + y + w;
  }

  lemma PrefixOfNested(x: string, y: string, z: string, w: string)
    ensures x + y + z <= x + (y + (z + w))
  {
    assert x + (y + (z + w)) == x + y + z + w;
  }

  /** A text occurs in `s` when it starts a suffix of `s`. */
  lemma ContainsInSuffix(s: string, r: string, t: string)
    requires EndsWith(s, r) && t <= r
    ensures Contains(s, t)
  {
    assert t <= s[|s| - |r|..];
  }
}
