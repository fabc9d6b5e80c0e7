/** Strings as sequences of characters: code-point order, trimming, decimal numerals, substring search. */
module Text {
  import opened Sorting

  // ----- order

  predicate StrLess(a: string, b: string) {
    b != "" && (a == "" || a[0] < b[0] || (a[0] == b[0] && StrLess(a[1..], b[1..])))
  }

  /** The texts agree up to position k, where a ends or has the smaller character. */
  predicate SmallerAt(a: string, b: string, k: nat) {
    k <= |a| && k < |b| && a[..k] == b[..k] && (k == |a| || a[k] < b[k])
  }

  lemma SmallerLater(a: string, b: string, k: nat)
    requires SmallerAt(a, b, k)
    ensures k == 0 || (a != "" && b != "" && a[0] == b[0])
  {
    if k > 0 {
      assert a[..k][0] == b[..k][0];
    }
  }

  /** One text is less than another if it is a proper beginning of it or smaller where they first differ. */
  lemma {:induction false} StrLessExactly(a: string, b: string)
    ensures StrLess(a, b) <==> exists k: nat :: SmallerAt(a, b, k)
  {
    if a == "" || b == "" || a[0] != b[0] {
      assert b != "" && (a == "" || a[0] < b[0]) ==> SmallerAt(a, b, 0);
      if k: nat :| SmallerAt(a, b, k) {
        SmallerLater(a, b, k);
      }
    } else {
      StrLessExactly(a[1..], b[1..]);
      if k: nat :| SmallerAt(a[1..], b[1..], k) {
        assert a[..k + 1] == [a[0]] + a[1..][..k] && b[..k + 1] == [b[0]] + b[1..][..k];
        assert SmallerAt(a, b, k + 1);
      }
      if k: nat :| SmallerAt(a, b, k) {
        assert a[1..][..k - 1] == a[..k][1..] && b[1..][..k - 1] == b[..k][1..];
        assert SmallerAt(a[1..], b[1..], k - 1);
      }
    }
  }

  lemma {:induction false} StrLessIrreflexive(a: string)
    ensures !StrLess(a, a)
  {
    if a != "" {
      StrLessIrreflexive(a[1..]);
    }
  }

  lemma {:induction false} StrLessTransitive(a: string, b: string, c: string)
    requires StrLess(a, b) && StrLess(b, c)
    ensures StrLess(a, c)
  {
    if a != "" && a[0] == b[0] && b[0] == c[0] {
      StrLessTransitive(a[1..], b[1..], c[1..]);
    }
  }

  lemma {:induction false} StrLessTotal(a: string, b: string)
    ensures StrLess(a, b) || StrLess(b, a) || a == b
  {
    if a != "" && b != "" && a[0] == b[0] {
      StrLessTotal(a[1..], b[1..]);
      assert a == [a[0]] + a[1..] && b == [b[0]] + b[1..];
    }
  }

  lemma StrLessWeak()
    ensures StrictWeak(StrLess)
    ensures forall a, b :: StrLess(a, b) || StrLess(b, a) || a == b
    ensures forall a, b :: StrLess(a, b) ==> !StrLess(b, a)
  {
    forall a, b
      ensures !StrLess(a, a)
      ensures StrLess(a, b) || StrLess(b, a) || a == b
    {
      StrLessIrreflexive(a);
      StrLessTotal(a, b);
    }
    forall a, b, c | StrLess(a, b) && StrLess(b, c)
      ensures StrLess(a, c)
    {
      StrLessTransitive(a, b, c);
    }
  }

  // ----- trimming

  /** The ASCII whitespace characters that str.strip removes. */
  predicate IsSpace(c: char) {
    c == ' ' || '\t' <= c <= '\r' || ('\U{1C}' <= c <= '\U{1F}')
  }

  function TrimLeft(s: string): (r: string) {
    if s != "" && IsSpace(s[0]) then TrimLeft(s[1..]) else s
  }

  function TrimRight(s: string): (r: string) {
    if s != "" && IsSpace(s[|s| - 1]) then TrimRight(s[..|s| - 1]) else s
  }

  function Trim(s: string): (r: string) {
    TrimRight(TrimLeft(s))
  }

  /** Non-empty and without whitespace at either end. */
  predicate Trimmed(s: string) {
    s != "" && !IsSpace(s[0]) && !IsSpace(s[|s| - 1])
  }

  lemma {:induction false} TrimRightKeepsHead(s: string)
    requires s != "" && !IsSpace(s[0])
    ensures Trimmed(TrimRight(s)) && TrimRight(s)[0] == s[0]
  {
    if IsSpace(s[|s| - 1]) {
      TrimRightKeepsHead(s[..|s| - 1]);
    }
  }

  lemma {:induction false} TrimLeftShape(s: string)
    ensures TrimLeft(s) == "" || !IsSpace(TrimLeft(s)[0])
  {
    if s != "" && IsSpace(s[0]) {
      TrimLeftShape(s[1..]);
    }
  }

  /** Trimming yields nothing or a trimmed string, and leaves trimmed strings alone. */
  lemma TrimShape(s: string)
    ensures Trim(s) == "" || Trimmed(Trim(s))
    ensures Trimmed(s) ==> Trim(s) == s
  {
    TrimLeftShape(s);
    if TrimLeft(s) != "" {
      TrimRightKeepsHead(TrimLeft(s));
    }
  }

  /** Only whitespace lies outside s[i..j], and s[i..j] is trimmed or empty. */
  predicate IsCore(s: string, i: nat, j: nat) {
    && i <= j <= |s| && (s[i..j] == "" || Trimmed(s[i..j]))
    && forall k :: 0 <= k < |s| && !(i <= k < j) ==> IsSpace(s[k])
  }

  lemma {:induction false} TrimLeftCore(s: string) returns (i: nat)
    ensures i <= |s| && TrimLeft(s) == s[i..] && forall k :: 0 <= k < i ==> IsSpace(s[k])
  {
    i := 0;
    if s != "" && IsSpace(s[0]) {
      i := TrimLeftCore(s[1..]);
      assert forall k :: 0 < k < i + 1 ==> s[k] == s[1..][k - 1];
      i := i + 1;
    }
  }

  lemma {:induction false} TrimRightCore(s: string) returns (j: nat)
    ensures j <= |s| && TrimRight(s) == s[..j] && forall k :: j <= k < |s| ==> IsSpace(s[k])
  {
    j := |s|;
    if s != "" && IsSpace(s[|s| - 1]) {
      j := TrimRightCore(s[..|s| - 1]);
    }
  }

  lemma SpaceAround(s: string, i: nat, n: nat)
    requires i <= i + n <= |s|
    requires forall k :: 0 <= k < i ==> IsSpace(s[k])
    requires forall k :: n <= k < |s| - i ==> IsSpace(s[i..][k])
    ensures forall k :: 0 <= k < |s| && !(i <= k < i + n) ==> IsSpace(s[k])
    ensures s[i..][..n] == s[i..i + n]
  {
    forall k | 0 <= k < |s| && !(i <= k < i + n)
      ensures IsSpace(s[k])
    {
      assert k >= i ==> s[k] == s[i..][k - i];
    }
  }

  /** Trimming cuts off whitespace at both ends, all of it and nothing else. */
  lemma TrimExactly(s: string) returns (i: nat, j: nat)
    ensures IsCore(s, i, j) && Trim(s) == s[i..j]
  {
    i := TrimLeftCore(s);
    var left := TrimLeft(s);
    var n := TrimRightCore(left);
    j := i + n;
    SpaceAround(s, i, n);
    TrimShape(s);
  }

  /** A core that is not empty is what trimming leaves. */
  lemma CoreIsTrim(s: string, i: nat, j: nat)
    requires IsCore(s, i, j) && i < j
    ensures Trim(s) == s[i..j]
  {
    var m, n := TrimExactly(s);
    assert !IsSpace(s[i..j][0]) && !IsSpace(s[i..j][j - i - 1]);
    assert m <= i && j <= n;
    assert !IsSpace(s[m..n][0]) && !IsSpace(s[m..n][n - m - 1]);
  }

  /** The same letter, perhaps in another case, or the same character. */
  predicate SameLetter(a: char, b: char) {
    a == b || ('a' <= a <= 'z' && b as int == a as int - 32) || ('A' <= a <= 'Z' && b as int == a as int + 32)
  }

  function LowerChar(c: char): (r: char) {
    if 'A' <= c <= 'Z' then c - 'A' + 'a' else c
  }

  /** ASCII lower case. */
  function Lower(s: string): (r: string) {
    seq(|s|, i requires 0 <= i < |s| => LowerChar(s[i]))
  }

  lemma LowerShape(s: string)
    ensures |Lower(s)| == |s|
    ensures forall i :: 0 <= i < |s| ==> SameLetter(s[i], Lower(s)[i]) && !('A' <= Lower(s)[i] <= 'Z')
  {}

  /** Texts have the same lower case exactly if they agree letter by letter up to case. */
  lemma LowerExactly(a: string, b: string)
    ensures Lower(a) == Lower(b) <==> |a| == |b| && forall i :: 0 <= i < |a| ==> SameLetter(a[i], b[i])
  {
    if Lower(a) == Lower(b) {
      assert |a| == |Lower(a)| == |Lower(b)| == |b|;
      forall i | 0 <= i < |a|
        ensures SameLetter(a[i], b[i])
      {
        assert Lower(a)[i] == Lower(b)[i];
      }
    }
  }

  // ----- decimal numerals

  predicate IsDigit(c: char) {
    '0' <= c <= '9'
  }

  predicate AllDigits(s: string) {
    forall i :: 0 <= i < |s| ==> IsDigit(s[i])
  }

  function DigitChar(d: nat): (c: char)
    requires d < 10
  {
    '0' + d as char
  }

  function Numeral(n: nat): (s: string)
    ensures s != "" && AllDigits(s)
  {
    if n < 10 then [DigitChar(n)] else Numeral(n / 10) + [DigitChar(n % 10)]
  }

  function ParseNumeral(s: string): (n: nat)
    requires AllDigits(s)
  {
    if s == "" then 0 else 10 * ParseNumeral(s[..|s| - 1]) + (s[|s| - 1] - '0') as nat
  }

  lemma {:induction false} ParseNumeralInverts(n: nat)
    ensures ParseNumeral(Numeral(n)) == n
  {
    if n >= 10 {
      ParseNumeralInverts(n / 10);
      assert Numeral(n)[..|Numeral(n)| - 1] == Numeral(n / 10);
    } else {
      assert Numeral(n)[..0] == "";
    }
  }

  /** Left-pads with zeros to the given width, as the format 04d does for width 4. */
  function ZeroPadded(n: nat, width: nat): (s: string) {
    PadLeft(Numeral(n), width)
  }

  function PadLeft(s: string, width: nat): (r: string)
    ensures AllDigits(s) ==> AllDigits(r)
    decreases width - |s|
  {
    if |s| >= width then s else PadLeft(['0'] + s, width)
  }

  lemma {:induction false} ParseLeadingZero(s: string)
    requires AllDigits(s)
    ensures ParseNumeral(['0'] + s) == ParseNumeral(s)
  {
    if s == "" {
      assert (['0'] + s)[..0] == "";
    } else {
      assert (['0'] + s)[..|s|] == ['0'] + s[..|s| - 1];
      ParseLeadingZero(s[..|s| - 1]);
    }
  }

  lemma {:induction false} ParsePadded(s: string, width: nat)
    requires AllDigits(s)
    ensures ParseNumeral(PadLeft(s, width)) == ParseNumeral(s)
    decreases width - |s|
  {
    if |s| < width {
      ParsePadded(['0'] + s, width);
      ParseLeadingZero(s);
    }
  }

  lemma {:induction false} PadLeftShape(s: string, width: nat)
    ensures |PadLeft(s, width)| == if |s| >= width then |s| else width
    decreases width - |s|
  {
    if |s| < width {
      PadLeftShape(['0'] + s, width);
    }
  }

  lemma {:induction false} NumeralShape(n: nat)
    ensures n > 0 ==> Numeral(n)[0] != '0'
  {
    if n >= 10 {
      NumeralShape(n / 10);
    }
  }

  /** A padded numeral: digits that denote the number, at least as many as asked, and no more than needed. */
  predicate Renders(s: string, n: nat, width: nat) {
    AllDigits(s) && |s| >= width && ParseNumeral(s) == n && (|s| > width ==> s == "0" || (s != "" && s[0] != '0'))
  }

  lemma ZeroPaddedRenders(n: nat, width: nat)
    ensures Renders(ZeroPadded(n, width), n, width)
  {
    ParsePadded(Numeral(n), width);
    ParseNumeralInverts(n);
    PadLeftShape(Numeral(n), width);
    NumeralShape(n);
  }

  /** Different numbers are rendered differently, whatever the width. */
  lemma ZeroPaddedInjective(a: nat, b: nat, width: nat)
    requires ZeroPadded(a, width) == ZeroPadded(b, width)
    ensures a == b
  {
    ParsePadded(Numeral(a), width);
    ParsePadded(Numeral(b), width);
    ParseNumeralInverts(a);
    ParseNumeralInverts(b);
  }

  // ----- substrings

  predicate OccursAt(p: string, s: string, i: nat) {
    i + |p| <= |s| && s[i..i + |p|] == p
  }

  ghost predicate Occurs(p: string, s: string) {
    exists i: nat :: OccursAt(p, s, i)
  }

  /** Start of the leftmost occurrence of p in s at or after i, or |s| + 1 if there is none. */
  function FindFrom(p: string, s: string, i: nat): (r: nat)
    requires i <= |s| + 1
    ensures i <= r <= |s| + 1
    ensures r <= |s| ==> OccursAt(p, s, r)
    ensures forall k: nat :: i <= k < r ==> !OccursAt(p, s, k)
    decreases |s| + 1 - i
  {
    if i == |s| + 1 || OccursAt(p, s, i) then i else FindFrom(p, s, i + 1)
  }
}
