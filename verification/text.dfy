/** Text helpers the plugin relies on from the platform: invariant lower-casing
    (ASCII letters), substring search, decimal formatting with `D2` padding,
    white-space trimming, and their inverses used to state round trips. */
module Text {

  function LowerChar(c: char): char
  {
    if 'A' <= c <= 'Z' then (c as int + 32) as char else c
  }

  predicate IsUpper(c: char)
  {
    'A' <= c <= 'Z'
  }

  /** `ToLowerInvariant` restricted to ASCII letters: no capital letter is
      left, every capital moves down to its small letter, and every other
      character stays where it was. */
  function Lower(s: string): (r: string)
    ensures |r| == |s|
    ensures forall i :: 0 <= i < |r| ==> !IsUpper(r[i])
    ensures forall i :: 0 <= i < |s| && IsUpper(s[i]) ==> r[i] as int == s[i] as int + 32
    ensures forall i :: 0 <= i < |s| && !IsUpper(s[i]) ==> r[i] == s[i]
  {
    seq(|s|, i requires 0 <= i < |s| => LowerChar(s[i]))
  }

  /** Lower-casing twice is lower-casing once. */
  lemma LowerIdempotent(s: string)
    ensures Lower(Lower(s)) == Lower(s)
  {
    assert forall i :: 0 <= i < |s| ==> LowerChar(LowerChar(s[i])) == LowerChar(s[i]);
  }

  /** `s.Contains(t)`: `t` occurs in `s` as a contiguous block. */
  predicate HasInfix(s: string, t: string)
    decreases |s|
  {
    |t| <= |s| && (s[..|t|] == t || (0 < |s| && HasInfix(s[1..], t)))
  }

  /** `t` occurs in `s` starting at offset `k`. */
  predicate InfixAt(s: string, t: string, k: int)
  {
    0 <= k && k + |t| <= |s| && s[k..k + |t|] == t
  }

  /** The reference meaning of `HasInfix`: some offset at which `t` starts. */
  lemma {:induction false} HasInfixIff(s: string, t: string)
    ensures HasInfix(s, t) <==> exists k :: InfixAt(s, t, k)
    decreases |s|
  {
    if HasInfix(s, t) {
      if s[..|t|] == t {
        assert InfixAt(s, t, 0);
      } else {
        HasInfixIff(s[1..], t);
        var k :| InfixAt(s[1..], t, k);
        assert s[1..][k..k + |t|] == s[k + 1..k + 1 + |t|];
        assert InfixAt(s, t, k + 1);
      }
    } else if exists k :: InfixAt(s, t, k) {
      var k :| InfixAt(s, t, k);
      if k > 0 {
        assert s[1..][k - 1..k - 1 + |t|] == s[k..k + |t|];
        assert InfixAt(s[1..], t, k - 1);
        HasInfixIff(s[1..], t);
      }
    }
  }

  predicate IsDigit(c: char)
  {
    '0' <= c <= '9'
  }

  function DigitChar(d: nat): (c: char)
    requires d < 10
    ensures IsDigit(c)
  {
    ('0' as int + d) as char
  }

  function DigitValue(c: char): nat
  {
    if IsDigit(c) then c as int - '0' as int else 0
  }

  /** Invariant-culture decimal rendering of a natural number. */
  function Decimal(n: nat): (s: string)
    ensures 1 <= |s|
    ensures forall i :: 0 <= i < |s| ==> IsDigit(s[i])
    ensures n < 10 ==> |s| == 1
    ensures n < 100 ==> |s| <= 2
    decreases n
  {
    if n < 10 then [DigitChar(n)] else Decimal(n / 10) + [DigitChar(n % 10)]
  }

  /** Reads a string of decimal digits back as a number. */
  function ParseDecimal(s: string): nat
    decreases |s|
  {
    if |s| == 0 then 0 else 10 * ParseDecimal(s[..|s| - 1]) + DigitValue(s[|s| - 1])
  }

  lemma {:induction false} ParseDecimalRoundTrip(n: nat)
    ensures ParseDecimal(Decimal(n)) == n
    decreases n
  {
    var s := Decimal(n);
    if n < 10 {
      assert s[..|s| - 1] == [];
    } else {
      ParseDecimalRoundTrip(n / 10);
      assert s[..|s| - 1] == Decimal(n / 10);
    }
  }

  /** The `D2` format: decimal, left-padded with zeros to at least two digits. */
  function Pad2(n: nat): (s: string)
    ensures 2 <= |s|
    ensures forall i :: 0 <= i < |s| ==> IsDigit(s[i])
    ensures n < 100 ==> |s| == 2
  {
    if n < 10 then "0" + Decimal(n) else Decimal(n)
  }

  lemma Pad2RoundTrip(n: nat)
    ensures ParseDecimal(Pad2(n)) == n
  {
    ParseDecimalRoundTrip(n);
    if n < 10 {
      var s := Pad2(n);
      assert s[..|s| - 1] == "0";
      assert ParseDecimal("0") == 0 by {
        assert "0"[..0] == [];
      }
    }
  }

  /** Splits at every occurrence of `sep` (like `string.Split(sep)`). */
  function Split(s: string, sep: char): (r: seq<string>)
    ensures 1 <= |r|
    decreases |s|
  {
    if |s| == 0 then [""]
    else
      var rest := Split(s[1..], sep);
      if s[0] == sep then [""] + rest else [[s[0]] + rest[0]] + rest[1..]
  }

  lemma {:induction false} SplitNoSeparator(a: string, sep: char)
    requires sep !in a
    ensures Split(a, sep) == [a]
    decreases |a|
  {
    if |a| > 0 {
      assert a[0] != sep;
      SplitNoSeparator(a[1..], sep);
      assert [a[0]] + a[1..] == a;
    }
  }

  lemma {:induction false} SplitAtSeparator(a: string, sep: char, b: string)
    requires sep !in a
    ensures Split(a + [sep] + b, sep) == [a] + Split(b, sep)
    decreases |a|
  {
    var s := a + [sep] + b;
    if |a| == 0 {
      assert s[0] == sep && s[1..] == b;
    } else {
      assert s[0] == a[0] && a[0] != sep;
      assert s[1..] == a[1..] + [sep] + b;
      SplitAtSeparator(a[1..], sep, b);
      assert [a[0]] + a[1..] == a;
    }
  }

  /** White space and NUL as trimmed by the platform's boolean parser
      (the ASCII and Latin-1 white-space characters). */
  predicate IsWhite(c: char)
  {
    c == ' ' || c == '\t' || c == '\n' || c == '\r' || c == '\U{B}' || c == '\U{C}'
    || c == '\0' || c == '\U{85}' || c == '\U{A0}'
  }

  predicate AllWhite(s: string)
  {
    forall k :: 0 <= k < |s| ==> IsWhite(s[k])
  }

  /** Drops the longest all-white prefix. */
  function TrimStart(s: string): (r: string)
    ensures |r| <= |s|
    ensures |r| > 0 ==> !IsWhite(r[0])
    decreases |s|
  {
    if |s| > 0 && IsWhite(s[0]) then TrimStart(s[1..]) else s
  }

  /** Drops the longest all-white suffix. */
  function TrimEnd(s: string): (r: string)
    ensures |r| <= |s|
    ensures |r| > 0 ==> !IsWhite(r[|r| - 1])
    decreases |s|
  {
    if |s| > 0 && IsWhite(s[|s| - 1]) then TrimEnd(s[..|s| - 1]) else s
  }

  /** What `TrimStart` leaves is a suffix of `s`, and what it drops is white. */
  lemma {:induction false} TrimStartDrops(s: string)
    ensures var r := TrimStart(s); r == s[|s| - |r|..] && AllWhite(s[..|s| - |r|])
    decreases |s|
  {
    if |s| > 0 && IsWhite(s[0]) {
      var r := TrimStart(s[1..]);
      TrimStartDrops(s[1..]);
      assert s[1..][|s| - 1 - |r|..] == s[|s| - |r|..];
      assert s[..|s| - |r|] == [s[0]] + s[1..][..|s| - 1 - |r|];
    }
  }

  /** What `TrimEnd` leaves is a prefix of `s`, and what it drops is white. */
  lemma {:induction false} TrimEndDrops(s: string)
    ensures var r := TrimEnd(s); r == s[..|r|] && AllWhite(s[|r|..])
    decreases |s|
  {
    if |s| > 0 && IsWhite(s[|s| - 1]) {
      var r := TrimEnd(s[..|s| - 1]);
      TrimEndDrops(s[..|s| - 1]);
      assert s[..|s| - 1][..|r|] == s[..|r|];
      assert s[|r|..] == s[..|s| - 1][|r|..] + [s[|s| - 1]];
    }
  }

  function Trim(s: string): string
  {
    TrimEnd(TrimStart(s))
  }

  /** A string whose ends are not white space is its own trim. */
  lemma TrimUnchanged(s: string)
    requires |s| > 0 ==> !IsWhite(s[0]) && !IsWhite(s[|s| - 1])
    ensures Trim(s) == s
  {
  }

  /** Skipping a white prefix that ends before a non-white character is
      exactly what `TrimStart` does. */
  lemma {:induction false} TrimStartAt(s: string, i: nat)
    requires i <= |s| && AllWhite(s[..i])
    requires i < |s| ==> !IsWhite(s[i])
    ensures TrimStart(s) == s[i..]
    decreases i
  {
    if i > 0 {
      assert IsWhite(s[..i][0]);
      assert s[1..][..i - 1] == s[..i][1..];
      TrimStartAt(s[1..], i - 1);
      assert s[1..][i - 1..] == s[i..];
    }
  }

  /** Dropping a white suffix that starts after a non-white character is
      exactly what `TrimEnd` does. */
  lemma {:induction false} TrimEndAt(s: string, j: nat)
    requires j <= |s| && AllWhite(s[j..])
    requires j > 0 ==> !IsWhite(s[j - 1])
    ensures TrimEnd(s) == s[..j]
    decreases |s| - j
  {
    if j < |s| {
      assert IsWhite(s[j..][|s| - 1 - j]);
      var t := s[..|s| - 1];
      assert t[j..] == s[j..][..|s| - 1 - j];
      TrimEndAt(t, j);
      assert t[..j] == s[..j];
    }
  }

  /** `s[i..j]` is the word `w` (after lower-casing) and everything around it
      is white space. */
  predicate PaddedAt(s: string, w: string, i: int, j: int)
  {
    0 <= i <= j <= |s| && AllWhite(s[..i]) && AllWhite(s[j..]) && Lower(s[i..j]) == w
  }

  /** `s` is the word `w` (after lower-casing) with white space on either side. */
  ghost predicate PaddedWord(s: string, w: string)
  {
    exists i, j :: PaddedAt(s, w, i, j)
  }

  /** The trim of `s` is `s` with a white prefix and a white suffix cut off. */
  lemma TrimCuts(s: string) returns (i: nat, j: nat)
    ensures i <= j <= |s| && AllWhite(s[..i]) && AllWhite(s[j..]) && Trim(s) == s[i..j]
  {
    var t := TrimStart(s);
    TrimStartDrops(s);
    i := |s| - |t|;
    var u := TrimEnd(t);
    TrimEndDrops(t);
    j := i + |u|;
    assert Trim(s) == u;
    assert u == t[..|u|] && t == s[i..];
    assert s[i..][..|u|] == s[i..j];
    assert s[j..] == t[|u|..];
  }

  /** A padded word whose own ends are not white trims to itself. */
  lemma TrimPadded(s: string, i: nat, j: nat)
    requires i < j <= |s| && AllWhite(s[..i]) && AllWhite(s[j..])
    requires !IsWhite(s[i]) && !IsWhite(s[j - 1])
    ensures Trim(s) == s[i..j]
  {
    TrimStartAt(s, i);
    assert s[i..][j - i..] == s[j..];
    TrimEndAt(s[i..], j - i);
    assert s[i..][..j - i] == s[i..j];
  }

  /** Lower-casing never turns a non-white character white. */
  lemma LowerKeepsWhite(s: string, k: nat)
    requires k < |s| && !IsWhite(Lower(s)[k])
    ensures !IsWhite(s[k])
  {
  }

  /** A lower-cased trim equal to `w` makes `s` the padded word `w`. */
  lemma TrimmedIsPadded(s: string, w: string)
    requires Lower(Trim(s)) == w
    ensures PaddedWord(s, w)
  {
    var a, b := TrimCuts(s);
    assert PaddedAt(s, w, a, b);
  }

  /** A padded word `w` whose ends are not white is the lower-cased trim. */
  lemma PaddedIsTrimmed(s: string, w: string, i: int, j: int)
    requires |w| > 0 && !IsWhite(w[0]) && !IsWhite(w[|w| - 1])
    requires PaddedAt(s, w, i, j)
    ensures Lower(Trim(s)) == w
  {
    LowerKeepsWhite(s[i..j], 0);
    LowerKeepsWhite(s[i..j], j - i - 1);
    TrimPadded(s, i, j);
  }

  /** For a word that neither starts nor ends white, comparing the lower-cased
      trim with it is the same as asking for the padded word. */
  lemma TrimmedWord(s: string, w: string)
    requires |w| > 0 && !IsWhite(w[0]) && !IsWhite(w[|w| - 1])
    ensures Lower(Trim(s)) == w <==> PaddedWord(s, w)
  {
    if Lower(Trim(s)) == w {
      TrimmedIsPadded(s, w);
    }
    if PaddedWord(s, w) {
      var i, j :| PaddedAt(s, w, i, j);
      PaddedIsTrimmed(s, w, i, j);
    }
  }
}
