/** Masking secrets in text and in nested data. */
module Redaction {
  import opened Text

  // ----- replacing one value

  /** Replaces the occurrences of v in t, leftmost first and without overlap, as str.replace does. */
  function Replace(t: string, v: string, mask: string): (r: string)
    requires v != ""
    decreases |t|
  {
    if t == "" then ""
    else if OccursAt(v, t, 0) then mask + Replace(t[|v|..], v, mask)
    else [t[0]] + Replace(t[1..], v, mask)
  }

  /** Laid over m with its start at offset d, v differs from m somewhere. */
  ghost predicate ClashesAt(v: string, m: string, d: int) {
    exists k :: 0 <= k < |v| && 0 <= d + k < |m| && v[k] != m[d + k]
  }

  /** Wherever v overlaps m, they differ: no text can share a part of m with an occurrence of v. */
  ghost predicate NeverMeets(v: string, m: string) {
    forall d :: -|v| < d < |m| ==> ClashesAt(v, m, d)
  }

  /** The same for the offsets at which v begins before m or with it. */
  ghost predicate HeadClashes(v: string, m: string) {
    forall d :: -|v| < d <= 0 ==> ClashesAt(v, m, d)
  }

  /** Strings that occur in one text do not clash where they overlap. */
  lemma Agrees(s: string, i: nat, m: string, p: nat, t: string)
    requires OccursAt(s, t, i) && OccursAt(m, t, p)
    ensures !ClashesAt(s, m, i - p)
  {
    forall k | 0 <= k < |s| && 0 <= i - p + k < |m|
      ensures s[k] == m[i - p + k]
    {
      assert t[i..i + |s|][k] == t[i + k] == t[p..p + |m|][i - p + k];
    }
  }

  /** An occurrence in a part of a text is one in the text. */
  lemma OccursInPart(s: string, t: string, lo: nat, hi: nat, i: nat)
    requires lo <= hi <= |t| && i + |s| <= hi - lo
    ensures OccursAt(s, t[lo..hi], i) <==> OccursAt(s, t, lo + i)
  {
    var part, whole := t[lo..hi][i..i + |s|], t[lo + i..lo + i + |s|];
    assert forall k :: 0 <= k < |s| ==> part[k] == whole[k];
    assert part == whole;
  }

  lemma OccursInRest(s: string, x: string, y: string, i: nat)
    requires OccursAt(s, x + y, i) && i >= |x|
    ensures OccursAt(s, y, i - |x|)
  {
    assert (x + y)[|x|..|x + y|] == y;
    OccursInPart(s, x + y, |x|, |x + y|, i - |x|);
  }

  /** An occurrence in x + y that never meets x lies in y. */
  lemma OccursAfter(s: string, x: string, y: string, i: nat)
    requires s != "" && NeverMeets(s, x) && OccursAt(s, x + y, i)
    ensures i >= |x| && OccursAt(s, y, i - |x|)
  {
    assert OccursAt(x, x + y, 0);
    Agrees(s, i, x, 0, x + y);
    OccursInRest(s, x, y, i);
  }

  lemma TailClashes(s: string, m: string)
    requires s != "" && forall d :: -|s| < d < 0 ==> ClashesAt(s, m, d)
    ensures HeadClashes(s[1..], m)
  {
    forall d | -|s[1..]| < d <= 0
      ensures ClashesAt(s[1..], m, d)
    {
      assert ClashesAt(s, m, d - 1);
      var k :| 0 <= k < |s| && 0 <= d - 1 + k < |m| && s[k] != m[d - 1 + k];
      assert s[1..][k - 1] != m[d + (k - 1)];
    }
  }

  /** Where text and replacement agree from the start, what clashes with the mask is a prefix of the text, too. */
  lemma {:induction false} PrefixKept(t: string, v: string, mask: string, s: string)
    requires v != "" && HeadClashes(s, mask) && OccursAt(s, Replace(t, v, mask), 0)
    ensures OccursAt(s, t, 0)
    decreases |t|
  {
    var r := Replace(t, v, mask);
    if s != "" {
      if OccursAt(v, t, 0) {
        assert OccursAt(mask, r, 0);
        Agrees(s, 0, mask, 0, r);
        assert false;
      } else {
        HeadStep(t, v, mask, s);
        TailClashes(s, mask);
        PrefixKept(t[1..], v, mask, s[1..]);
        assert t[0..|s|] == [t[0]] + t[1..][0..|s| - 1];
      }
    }
  }

  /** An occurrence at the start of the replacement begins with the text's first character if v does not occur there. */
  lemma HeadStep(t: string, v: string, mask: string, s: string)
    requires v != "" && s != "" && OccursAt(s, Replace(t, v, mask), 0) && !OccursAt(v, t, 0)
    ensures t != "" && s == [t[0]] + s[1..] && OccursAt(s[1..], Replace(t[1..], v, mask), 0)
  {
    var r := Replace(t, v, mask);
    assert r[0..|s|] == s;
    assert s[0] == r[0];
    assert Replace(t[1..], v, mask)[0..|s| - 1] == r[1..|s|] == s[1..];
  }

  /** Replacing creates no occurrence of a string that never meets the mask. */
  lemma {:induction false} NothingNew(t: string, v: string, mask: string, s: string, i: nat)
    requires v != "" && s != "" && NeverMeets(s, mask) && OccursAt(s, Replace(t, v, mask), i)
    ensures Occurs(s, t)
    ensures s != v
    decreases |t|
  {
    var r := Replace(t, v, mask);
    if OccursAt(v, t, 0) {
      OccursAfter(s, mask, Replace(t[|v|..], v, mask), i);
      NothingNew(t[|v|..], v, mask, s, i - |mask|);
      OccursInTail(s, t, |v|);
    } else if i == 0 {
      HeadStep(t, v, mask, s);
      TailClashes(s, mask);
      PrefixKept(t[1..], v, mask, s[1..]);
      assert t[0..|s|] == [t[0]] + t[1..][0..|s| - 1];
      assert OccursAt(s, t, 0);
    } else {
      assert r[i..i + |s|] == Replace(t[1..], v, mask)[i - 1..i - 1 + |s|];
      NothingNew(t[1..], v, mask, s, i - 1);
      OccursInTail(s, t, 1);
    }
  }

  lemma OccursInTail(s: string, t: string, k: nat)
    requires k <= |t| && Occurs(s, t[k..])
    ensures Occurs(s, t)
  {
    var j: nat :| OccursAt(s, t[k..], j);
    assert t[k..][j..j + |s|] == t[k + j..k + j + |s|];
    assert OccursAt(s, t, k + j);
  }

  /** Replacing what does not occur changes nothing. */
  lemma {:induction false} AbsentUnchanged(t: string, v: string, mask: string)
    requires v != "" && !Occurs(v, t)
    ensures Replace(t, v, mask) == t
    decreases |t|
  {
    if t != "" {
      assert !OccursAt(v, t, 0);
      if Occurs(v, t[1..]) {
        OccursInTail(v, t, 1);
      }
      AbsentUnchanged(t[1..], v, mask);
      assert t == [t[0]] + t[1..];
    }
  }

  // ----- replacing all values

  /** The values in some order of non-increasing length, each once and none empty. */
  ghost predicate InRedactionOrder(order: seq<string>, values: seq<string>) {
    && (forall v :: v in order <==> v in values && v != "")
    && (forall i, j :: 0 <= i < j < |order| ==> order[i] != order[j] && |order[i]| >= |order[j]|)
  }

  function RedactText(t: string, order: seq<string>, mask: string): (r: string)
    requires "" !in order
  {
    if order == [] then t
    else
      var n := |order| - 1;
      Replace(RedactText(t, order[..n], mask), order[n], mask)
  }

  /** Longest values first; which of two equally long ones comes first is left open. */
  method NormalizedValues(values: seq<string>) returns (order: seq<string>)
    ensures InRedactionOrder(order, values)
  {
    order := [];
    for k := 0 to |values|
      invariant forall v :: v in order <==> v in values[..k] && v != ""
      invariant forall i, j :: 0 <= i < j < |order| ==> order[i] != order[j] && |order[i]| >= |order[j]|
    {
      assert values[..k + 1] == values[..k] + [values[k]];
      if values[k] != "" && values[k] !in order {
        var p := 0;
        while p < |order| && |order[p]| >= |values[k]|
          invariant p <= |order|
          invariant forall i :: 0 <= i < p ==> |order[i]| >= |values[k]|
        {
          p := p + 1;
        }
        order := order[..p] + [values[k]] + order[p..];
      }
    }
    assert values[..|values|] == values;
  }

  /** Replaces the values one after the other. */
  method RedactTextLoop(t: string, values: seq<string>, mask: string) returns (out: string)
    ensures exists order :: InRedactionOrder(order, values) && out == RedactText(t, order, mask)
  {
    var ordered := NormalizedValues(values);
    assert "" !in ordered;
    out := t;
    for k := 0 to |ordered|
      invariant out == RedactText(t, ordered[..k], mask)
    {
      assert ordered[..k + 1][..k] == ordered[..k];
      out := Replace(out, ordered[k], mask);
    }
    assert ordered[..|ordered|] == ordered;
  }

  /** No listed value occurs in the text. */
  ghost predicate Clean(t: string, order: seq<string>) {
    forall v :: v in order ==> !Occurs(v, t)
  }

  /** v contains a listed secret, perhaps itself, that never meets the mask. */
  ghost predicate Shielded(v: string, order: seq<string>, mask: string) {
    exists w :: w in order && Occurs(w, v) && NeverMeets(w, mask)
  }

  ghost predicate MaskFits(order: seq<string>, mask: string) {
    && "" !in order
    && forall v {:trigger Shielded(v, order, mask)} :: v in order ==> Shielded(v, order, mask)
  }

  /** A listed value that never meets the mask is gone in the end, whatever is replaced before and after it. */
  lemma {:induction false} ApartGone(t: string, order: seq<string>, mask: string, w: string)
    requires "" !in order && w in order && NeverMeets(w, mask)
    ensures !Occurs(w, RedactText(t, order, mask))
  {
    var n := |order| - 1;
    var before := RedactText(t, order[..n], mask);
    assert order[n] in order;
    if i: nat :| OccursAt(w, Replace(before, order[n], mask), i) {
      NothingNew(before, order[n], mask, w, i);
      assert w in order[..n];
      ApartGone(t, order[..n], mask, w);
    }
  }

  lemma OccursWithin(w: string, v: string, t: string)
    requires Occurs(w, v) && Occurs(v, t)
    ensures Occurs(w, t)
  {
    var a: nat :| OccursAt(w, v, a);
    var i: nat :| OccursAt(v, t, i);
    OccursInPart(w, t, i, i + |v|, a);
  }

  lemma ContainersGone(out: string, order: seq<string>, mask: string)
    requires MaskFits(order, mask) && forall w :: w in order && NeverMeets(w, mask) ==> !Occurs(w, out)
    ensures Clean(out, order)
  {
    forall v | v in order
      ensures !Occurs(v, out)
    {
      assert Shielded(v, order, mask);
      var w :| w in order && Occurs(w, v) && NeverMeets(w, mask);
      if Occurs(v, out) {
        OccursWithin(w, v, out);
      }
    }
  }

  /** Completeness: after redaction no secret occurs anywhere in the text, in whatever order they were replaced. */
  lemma RedactedClean(t: string, order: seq<string>, mask: string)
    requires MaskFits(order, mask)
    ensures Clean(RedactText(t, order, mask), order)
  {
    forall w | w in order && NeverMeets(w, mask)
      ensures !Occurs(w, RedactText(t, order, mask))
    {
      ApartGone(t, order, mask, w);
    }
    ContainersGone(RedactText(t, order, mask), order, mask);
  }

  lemma {:induction false} CleanUnchanged(t: string, order: seq<string>, mask: string)
    requires "" !in order && Clean(t, order)
    ensures RedactText(t, order, mask) == t
  {
    if order != [] {
      var n := |order| - 1;
      assert order[n] in order;
      CleanUnchanged(t, order[..n], mask);
      AbsentUnchanged(t, order[n], mask);
    }
  }

  /** Redacting twice is redacting once, even if equally long values are taken in another order. */
  lemma RedactIdempotent(t: string, order: seq<string>, again: seq<string>, mask: string)
    requires MaskFits(order, mask) && forall v :: v in again <==> v in order
    ensures RedactText(RedactText(t, order, mask), again, mask) == RedactText(t, order, mask)
  {
    RedactedClean(t, order, mask);
    CleanUnchanged(RedactText(t, order, mask), again, mask);
  }

  // ----- exactly which masks hide a lone secret

  lemma LoneSecret(t: string, v: string, mask: string)
    requires v != ""
    ensures RedactText(t, [v], mask) == Replace(t, v, mask)
  {}

  /** Written right after its own first j characters, v occurs no earlier than there. */
  ghost predicate Fresh(v: string, j: nat)
    requires j <= |v|
  {
    forall i: nat :: i < j ==> !OccursAt(v, v[..j] + v, i)
  }

  /** Laid over the mask at offset d, v agrees with it, and the part before the mask does not give v away earlier. */
  ghost predicate Leaks(v: string, mask: string, d: int) {
    -|v| < d < |mask| && !ClashesAt(v, mask, d) && (d < 0 ==> Fresh(v, -d))
  }

  /** What lies before the mask and after it if v is laid over it at offset d. */
  function Before(v: string, d: int): (a: string)
    requires -|v| < d
  {
    if d < 0 then v[..-d] else ""
  }

  function After(v: string, mask: string, d: int): (b: string)
    requires -|v| < d < |mask|
  {
    if d + |v| > |mask| then v[|mask| - d..] else ""
  }

  /** v occurs in t at p and nowhere before. */
  ghost predicate FirstAt(t: string, v: string, p: nat) {
    OccursAt(v, t, p) && forall i: nat :: i < p ==> !OccursAt(v, t, i)
  }

  lemma FirstInTail(t: string, v: string, p: nat)
    requires 0 < p && FirstAt(t, v, p)
    ensures FirstAt(t[1..], v, p - 1)
  {
    OccursInPart(v, t, 1, |t|, p - 1);
    forall i: nat | i < p - 1
      ensures !OccursAt(v, t[1..], i)
    {
      assert !OccursAt(v, t, i + 1);
      OccursInPart(v, t, 1, |t|, i);
    }
  }

  /** Up to its first occurrence of v the text stays; then comes the mask. */
  lemma {:induction false} ReplaceFirst(a: string, v: string, b: string, mask: string)
    requires v != "" && FirstAt(a + v + b, v, |a|)
    ensures Replace(a + v + b, v, mask) == a + mask + Replace(b, v, mask)
    decreases |a|
  {
    var t := a + v + b;
    if a == "" {
      assert t[|v|..] == b;
    } else {
      assert t[1..] == a[1..] + v + b;
      FirstInTail(t, v, |a|);
      ReplaceFirst(a[1..], v, b, mask);
      assert !OccursAt(v, t, 0);
    }
  }

  /** The parts of a text before and after the first occurrence of v. */
  lemma FirstOccurrence(t: string, v: string) returns (a: string, b: string)
    requires v != "" && Occurs(v, t)
    ensures t == a + v + b && |b| < |t| && FirstAt(t, v, |a|)
  {
    var i: nat :| OccursAt(v, t, i);
    var p := FindFrom(v, t, 0);
    a, b := t[..p], t[p + |v|..];
  }

  /** If v occurs after it has been replaced, it leaks around some mask. */
  lemma {:induction false} LeakFound(t: string, v: string, mask: string, i: nat) returns (d: int)
    requires v != "" && OccursAt(v, Replace(t, v, mask), i)
    ensures Leaks(v, mask, d)
    decreases |t|
  {
    if !Occurs(v, t) {
      AbsentUnchanged(t, v, mask);
      assert false;
    }
    var a, b := FirstOccurrence(t, v);
    ReplaceFirst(a, v, b, mask);
    d := LeakAround(a, v, b, mask, Replace(b, v, mask), i);
    if d >= |mask| {
      d := LeakFound(b, v, mask, d - |mask|);
    }
  }

  /** An occurrence of v in a + mask + rest leaks around the mask unless it lies in the rest. */
  lemma LeakAround(a: string, v: string, b: string, mask: string, rest: string, i: nat) returns (d: int)
    requires v != "" && FirstAt(a + v + b, v, |a|) && OccursAt(v, a + mask + rest, i)
    ensures d == i - |a| && if d >= |mask| then OccursAt(v, rest, d - |mask|) else Leaks(v, mask, d)
  {
    d := i - |a|;
    var t := a + v + b;
    if d >= |mask| {
      OccursInRest(v, a + mask, rest, i);
    } else {
      assert t[..|a|] == a;
      OverlapLeaks(t, v, mask, |a|, i, rest);
    }
  }

  lemma OverlapLeaks(t: string, v: string, mask: string, p: nat, i: nat, rest: string)
    requires v != "" && FirstAt(t, v, p)
    requires OccursAt(v, t[..p] + mask + rest, i) && i < p + |mask|
    ensures Leaks(v, mask, i - p)
  {
    var r := t[..p] + mask + rest;
    assert r[0..p] == t[0..p] && r[p..p + |mask|] == mask;
    if i + |v| <= p {
      OccursInPart(v, r, 0, p, i);
      OccursInPart(v, t, 0, p, i);
    }
    Agrees(v, i, mask, p, r);
    if i < p {
      FirstIsFresh(t, v, p, p - i) by {
        assert r[i..i + |v|][..p - i] == r[i..p] == t[i..p];
      }
    }
  }

  /** Before its first occurrence a text may end with a beginning of v, but not so that v occurs earlier. */
  lemma FirstIsFresh(t: string, v: string, p: nat, j: nat)
    requires FirstAt(t, v, p)
    requires j <= p && j <= |v| && t[p - j..p] == v[..j]
    ensures Fresh(v, j)
  {
    assert t[p - j..p + |v|] == t[p - j..p] + t[p..p + |v|] == v[..j] + v;
    forall n: nat | n < j
      ensures !OccursAt(v, v[..j] + v, n)
    {
      OccursInPart(v, t, p - j, p + |v|, n);
    }
  }

  /** Cutting v out of a + v + b where it comes up first and b is too short for another one. */
  lemma CutOut(a: string, v: string, b: string, mask: string)
    requires v != "" && |b| < |v| && forall i: nat :: i < |a| ==> !OccursAt(v, a + v + b, i)
    ensures Replace(a + v + b, v, mask) == a + mask + b
  {
    assert (a + v + b)[|a|..|a| + |v|] == v;
    ReplaceFirst(a, v, b, mask);
    AbsentUnchanged(b, v, mask);
  }

  /** A leak seen in a text: what is cut out leaves parts that the mask joins to the secret again. */
  lemma LeakShown(v: string, mask: string, d: int)
    requires v != "" && Leaks(v, mask, d)
    ensures var a, b := Before(v, d), After(v, mask, d);
      Replace(a + v + b, v, mask) == a + mask + b && Occurs(v, a + mask + b)
  {
    var a, b := Before(v, d), After(v, mask, d);
    forall i: nat | i < |a|
      ensures !OccursAt(v, a + v + b, i)
    {
      assert !OccursAt(v, a + v, i);
      assert (a + v + b)[0..|a + v|] == a + v;
      OccursInPart(v, a + v + b, 0, |a + v|, i);
    }
    CutOut(a, v, b, mask);
    Reassembled(v, mask, d);
  }

  lemma Reassembled(v: string, mask: string, d: int)
    requires -|v| < d < |mask| && !ClashesAt(v, mask, d)
    ensures Occurs(v, Before(v, d) + mask + After(v, mask, d))
  {
    var a, b := Before(v, d), After(v, mask, d);
    var r := a + mask + b;
    var i := if d < 0 then 0 else d;
    assert |r| >= i + |v|;
    forall k | 0 <= k < |v|
      ensures r[i + k] == v[k]
    {
      if 0 <= d + k < |mask| {
        assert r[i + k] == mask[d + k];
      } else if d + k >= |mask| {
        assert r[i + k] == b[d + k - |mask|] == v[k];
      }
    }
    assert r[i..i + |v|] == v;
    assert OccursAt(v, r, i);
  }

  /**
   For every secret and every mask: the secret on its own is removed from all texts exactly when at no offset it
   agrees with the mask it overlaps without having given itself away before.
   */
  lemma LoneSecretExact(v: string, mask: string)
    requires v != ""
    ensures (forall t :: Clean(RedactText(t, [v], mask), [v])) <==> forall d :: !Leaks(v, mask, d)
  {
    assert v in [v];
    if d :| Leaks(v, mask, d) {
      var t := Before(v, d) + v + After(v, mask, d);
      LeakShown(v, mask, d);
      LoneSecret(t, v, mask);
      assert !Clean(RedactText(t, [v], mask), [v]);
    } else {
      forall t
        ensures Clean(RedactText(t, [v], mask), [v])
      {
        LoneSecret(t, v, mask);
        if i: nat :| OccursAt(v, Replace(t, v, mask), i) {
          var d := LeakFound(t, v, mask, i);
        }
      }
    }
  }

  /** No proper prefix of v is a suffix of it. */
  ghost predicate Unbordered(v: string) {
    forall d :: 0 < d < |v| ==> ClashesAt(v, v, d)
  }

  lemma UnborderedFresh(v: string, j: nat)
    requires Unbordered(v) && j < |v|
    ensures Fresh(v, j)
  {
    forall i: nat | i < j
      ensures !OccursAt(v, v[..j] + v, i)
    {
      var t := v[..j] + v;
      if OccursAt(v, t, i) {
        assert OccursAt(v, t, j);
        Agrees(v, j, v, i, t);
        assert false;
      }
    }
  }

  lemma UnborderedLeaks(v: string, mask: string) returns (d: int)
    requires Unbordered(v) && !NeverMeets(v, mask)
    ensures Leaks(v, mask, d)
  {
    d :| -|v| < d < |mask| && !ClashesAt(v, mask, d);
    if d < 0 {
      UnborderedFresh(v, -d);
    }
  }

  /** A lone secret without a border is removed from all texts exactly when it never meets the mask. */
  lemma UnborderedExact(v: string, mask: string)
    requires v != "" && Unbordered(v)
    ensures (forall t :: Clean(RedactText(t, [v], mask), [v])) <==> NeverMeets(v, mask)
  {
    LoneSecretExact(v, mask);
    if !NeverMeets(v, mask) {
      var d := UnborderedLeaks(v, mask);
    }
  }

  predicate OneLetter(v: string) {
    forall i :: 0 <= i < |v| ==> v[i] == v[0]
  }

  lemma {:induction false} ShiftedItself(v: string, i: nat)
    requires i < |v| && OccursAt(v, v[..1] + v, 0)
    ensures v[i] == v[0]
  {
    if i > 0 {
      ShiftedItself(v, i - 1);
      assert (v[..1] + v)[0..|v|][i] == v[i - 1];
    }
  }

  /** With an empty mask, a secret on its own is removed from every text exactly when it repeats a single letter. */
  lemma EmptyMaskExact(v: string)
    requires v != ""
    ensures (forall t :: Clean(RedactText(t, [v], ""), [v])) <==> OneLetter(v)
  {
    LoneSecretExact(v, "");
    if OneLetter(v) {
      forall d | -|v| < d < 0
        ensures !Leaks(v, "", d)
      {
        assert (v[..-d] + v)[0..|v|] == v;
        assert OccursAt(v, v[..-d] + v, 0);
      }
    } else if OccursAt(v, v[..1] + v, 0) {
      forall i | 0 <= i < |v|
        ensures v[i] == v[0]
      {
        ShiftedItself(v, i);
      }
    } else {
      assert Leaks(v, "", -1);
    }
  }

  /** A secret that is part of the mask is uncovered by its own redaction. */
  lemma SecretInMaskUncovered(v: string, mask: string)
    requires v != "" && Occurs(v, mask)
    ensures !Clean(RedactText(v, [v], mask), [v])
  {
    LoneSecret(v, v, mask);
    CutOut("", v, "", mask);
    assert "" + v + "" == v && "" + mask + "" == mask;
    assert v in [v];
  }

  /** Under the default mask, a secret that ends in a star can come back. */
  lemma DefaultMaskLeak()
    ensures RedactText("abab*", ["ab*"], "***") == "ab***"
    ensures !Clean("ab***", ["ab*"])
  {
    var v, t := "ab*", "abab*";
    LoneSecret(t, v, "***");
    assert t == "ab" + v + "";
    assert !OccursAt(v, t, 0) && !OccursAt(v, t, 1) by {
      assert t[0..3][2] == 'a' && t[1..4][0] == 'b';
    }
    CutOut("ab", v, "", "***");
    assert OccursAt(v, "ab***", 0) && v in ["ab*"];
  }

  // ----- exactly which masks hide several secrets

  /** A listed secret in which no other one occurs. */
  ghost predicate Core(v: string, order: seq<string>) {
    v in order && forall w :: w in order && w != v ==> !Occurs(w, v)
  }

  /** A secret comes before those that occur in it. */
  ghost predicate ContainersFirst(order: seq<string>) {
    "" !in order && forall i, j :: 0 <= i < j < |order| ==> !Occurs(order[i], order[j])
  }

  /** No core is bordered or ever overlaps another core. */
  ghost predicate CoresUnrelated(order: seq<string>) {
    && (forall v :: Core(v, order) ==> Unbordered(v))
    && (forall v, w :: Core(v, order) && Core(w, order) && v != w ==> NeverMeets(v, w))
  }

  /** v does not come up where x is written between a beginning and an end of itself. */
  ghost predicate AwayFrom(v: string, x: string) {
    forall j, n :: 0 <= j <= |x| && 0 <= n <= |x| ==> !Occurs(v, x[..j] + x + x[n..])
  }

  /** No secret comes up around a core, except the core itself. */
  ghost predicate SetApart(order: seq<string>) {
    forall v, x :: v in order && Core(x, order) && v != x ==> AwayFrom(v, x)
  }

  /** The order in which values are replaced takes a secret before those that occur in it. */
  lemma LongestFirst(order: seq<string>, values: seq<string>)
    requires InRedactionOrder(order, values)
    ensures ContainersFirst(order)
  {
    forall i, j | 0 <= i < j < |order|
      ensures !Occurs(order[i], order[j])
    {
      if Occurs(order[i], order[j]) {
        ShorterInside(order[i], order[j]);
        assert false;
      }
    }
  }

  lemma ShorterInside(w: string, v: string)
    requires Occurs(w, v)
    ensures w == v || |w| < |v|
  {
    var i: nat :| OccursAt(w, v, i);
    assert |w| == |v| ==> v[i..i + |w|] == v;
  }

  /** Every secret contains a core. */
  lemma {:induction false} CoreInside(v: string, order: seq<string>) returns (c: string)
    requires v in order
    ensures Core(c, order) && Occurs(c, v)
    decreases |v|
  {
    if Core(v, order) {
      assert OccursAt(v, v, 0);
      c := v;
    } else {
      var w :| w in order && w != v && Occurs(w, v);
      ShorterInside(w, v);
      c := CoreInside(w, order);
      OccursWithin(c, w, v);
    }
  }

  lemma {:induction false} RedactSplit(t: string, a: seq<string>, b: seq<string>, mask: string)
    requires "" !in a && "" !in b
    ensures RedactText(t, a + b, mask) == RedactText(RedactText(t, a, mask), b, mask)
  {
    if b == [] {
      assert a + b == a;
    } else {
      var n := |b| - 1;
      assert b[n] in b && (a + b)[..|a + b| - 1] == a + b[..n];
      RedactSplit(t, a, b[..n], mask);
    }
  }

  /** An occurrence in a + middle + b lies in a, or in b, or meets the middle. */
  lemma OccursAround(w: string, a: string, middle: string, b: string, i: nat)
    requires OccursAt(w, a + middle + b, i)
    ensures Occurs(w, a) || Occurs(w, b) || !NeverMeets(w, middle)
  {
    var t := a + middle + b;
    var end := |a| + |middle|;
    if i + |w| <= |a| {
      assert t[0..|a|] == a;
      OccursInPart(w, t, 0, |a|, i);
    } else if i < end {
      assert t[|a|..end] == middle;
      Agrees(w, i, middle, |a|, t);
    } else {
      OccursInRest(w, a + middle, b, i);
    }
  }

  lemma AbsentFromPart(w: string, x: string, lo: nat, hi: nat)
    requires w != "" && NeverMeets(w, x) && lo <= hi <= |x|
    ensures !Occurs(w, x[lo..hi])
  {
    if i: nat :| OccursAt(w, x[lo..hi], i) {
      OccursInPart(w, x, lo, hi, i);
      assert OccursAt(x, x, 0);
      Agrees(w, lo + i, x, 0, x);
      assert false;
    }
  }

  /** Between a beginning and an end of x, what meets neither x nor the middle does not occur. */
  lemma NotAround(w: string, x: string, j: nat, n: nat, middle: string)
    requires w != "" && j <= |x| && n <= |x| && NeverMeets(w, x) && NeverMeets(w, middle)
    ensures !Occurs(w, x[..j] + middle + x[n..])
  {
    AbsentFromPart(w, x, 0, j);
    AbsentFromPart(w, x, n, |x|);
    assert x[0..j] == x[..j] && x[n..|x|] == x[n..];
    if i: nat :| OccursAt(w, x[..j] + middle + x[n..], i) {
      OccursAround(w, x[..j], middle, x[n..], i);
    }
  }

  lemma {:induction false} LastMeeting(order: seq<string>, mask: string, m: nat) returns (n: nat)
    requires m < |order| && Core(order[m], order) && !NeverMeets(order[m], mask)
    ensures n < |order| && Core(order[n], order) && !NeverMeets(order[n], mask)
    ensures forall k :: n < k < |order| && Core(order[k], order) ==> NeverMeets(order[k], mask)
    decreases |order| - m
  {
    if k :| m < k < |order| && Core(order[k], order) && !NeverMeets(order[k], mask) {
      n := LastMeeting(order, mask, k);
    } else {
      n := m;
    }
  }

  /** If no core after order[n] meets the mask, no secret after it comes up around the mask. */
  lemma LaterAbsent(order: seq<string>, n: nat, mask: string, j: nat, k: nat, q: nat)
    requires ContainersFirst(order) && CoresUnrelated(order)
    requires n < q < |order| && Core(order[n], order) && j <= |order[n]| && k <= |order[n]|
    requires forall i :: n < i < |order| && Core(order[i], order) ==> NeverMeets(order[i], mask)
    ensures !Occurs(order[q], order[n][..j] + mask + order[n][k..])
  {
    var c := CoreInside(order[q], order);
    var i :| 0 <= i < |order| && order[i] == c;
    assert i >= q;
    EarlierDiffers(order, n, i);
    NotAround(c, order[n], j, k, mask);
    if Occurs(order[q], order[n][..j] + mask + order[n][k..]) {
      OccursWithin(c, order[q], order[n][..j] + mask + order[n][k..]);
    }
  }

  lemma EarlierDiffers(order: seq<string>, i: nat, n: nat)
    requires ContainersFirst(order) && i < n < |order|
    ensures order[i] != order[n]
  {
    assert OccursAt(order[i], order[i], 0);
  }

  /** A text around order[n] in which the other secrets do not occur, neither before nor after it is replaced. */
  lemma OthersAbsent(order: seq<string>, n: nat, mask: string, d: int)
    requires ContainersFirst(order) && CoresUnrelated(order) && SetApart(order)
    requires n < |order| && Core(order[n], order) && -|order[n]| < d < |mask|
    requires forall i :: n < i < |order| && Core(order[i], order) ==> NeverMeets(order[i], mask)
    ensures var v := order[n]; var a, b := Before(v, d), After(v, mask, d);
      Clean(a + v + b, order[..n]) && Clean(a + mask + b, order[n + 1..])
  {
    var v := order[n];
    var a, b := Before(v, d), After(v, mask, d);
    var j, k := |a|, |v| - |b|;
    assert a == v[..j] && b == v[k..];
    forall w | w in order[..n]
      ensures !Occurs(w, a + v + b)
    {
      var i :| 0 <= i < n && order[i] == w;
      EarlierDiffers(order, i, n);
      assert AwayFrom(w, v);
    }
    forall w | w in order[n + 1..]
      ensures !Occurs(w, a + mask + b)
    {
      var q :| n < q < |order| && order[q] == w;
      LaterAbsent(order, n, mask, j, k, q);
    }
  }

  /** If the secrets before and after v do not come up, redaction replaces v alone. */
  lemma OnlyOneReplaced(t: string, before: seq<string>, v: string, after: seq<string>, mask: string)
    requires "" !in before && "" !in after && v != ""
    requires Clean(t, before) && Clean(Replace(t, v, mask), after)
    ensures RedactText(t, before + [v] + after, mask) == Replace(t, v, mask)
  {
    CleanUnchanged(t, before, mask);
    LoneSecret(t, v, mask);
    RedactSplit(t, before, [v], mask);
    CleanUnchanged(Replace(t, v, mask), after, mask);
    RedactSplit(t, before + [v], after, mask);
  }

  /** Around order[n], a text that only the replacement of order[n] changes, and so that order[n] comes back. */
  lemma CoreLeaks(order: seq<string>, n: nat, mask: string, d: int)
    requires ContainersFirst(order) && CoresUnrelated(order) && SetApart(order)
    requires n < |order| && Core(order[n], order) && Leaks(order[n], mask, d)
    requires forall i :: n < i < |order| && Core(order[i], order) ==> NeverMeets(order[i], mask)
    ensures Occurs(order[n], RedactText(Before(order[n], d) + order[n] + After(order[n], mask, d), order, mask))
  {
    var v := order[n];
    assert order[..n] + [v] + order[n + 1..] == order;
    OthersAbsent(order, n, mask, d);
    LeakShown(v, mask, d);
    OnlyOneReplaced(Before(v, d) + v + After(v, mask, d), order[..n], v, order[n + 1..], mask);
  }

  /** The last core that meets the mask comes back in some text. */
  lemma MeetingLeaks(order: seq<string>, mask: string, v: string) returns (t: string, w: string)
    requires ContainersFirst(order) && CoresUnrelated(order) && SetApart(order)
    requires Core(v, order) && !NeverMeets(v, mask)
    ensures w in order && Occurs(w, RedactText(t, order, mask))
  {
    var m :| 0 <= m < |order| && order[m] == v;
    var n := LastMeeting(order, mask, m);
    w := order[n];
    var d := UnborderedLeaks(w, mask);
    t := Before(w, d) + w + After(w, mask, d);
    CoreLeaks(order, n, mask, d);
  }

  /**
   Secrets that may contain each other, with cores that have nothing to do with each other: they are removed from
   all texts exactly when no core meets the mask.
   */
  lemma CoresExact(order: seq<string>, mask: string)
    requires ContainersFirst(order) && CoresUnrelated(order) && SetApart(order)
    ensures (forall t :: Clean(RedactText(t, order, mask), order)) <==>
            forall v :: Core(v, order) ==> NeverMeets(v, mask)
  {
    if v :| Core(v, order) && !NeverMeets(v, mask) {
      var t, w := MeetingLeaks(order, mask, v);
      assert !Clean(RedactText(t, order, mask), order);
    } else {
      forall v | v in order
        ensures Shielded(v, order, mask)
      {
        var c := CoreInside(v, order);
      }
      forall t
        ensures Clean(RedactText(t, order, mask), order)
      {
        RedactedClean(t, order, mask);
      }
    }
  }

  /** Different secrets, none bordered, none ever overlapping another. */
  ghost predicate Unrelated(order: seq<string>) {
    && "" !in order
    && (forall i, j :: 0 <= i < j < |order| ==> order[i] != order[j])
    && (forall v :: v in order ==> Unbordered(v))
    && (forall v, w :: v in order && w in order && v != w ==> NeverMeets(v, w))
  }

  lemma AllCores(order: seq<string>)
    requires Unrelated(order)
    ensures ContainersFirst(order) && SetApart(order) && forall v :: Core(v, order) <==> v in order
  {
    forall v, w | v in order && w in order && w != v
      ensures !Occurs(w, v)
    {
      AbsentFromPart(w, v, 0, |v|);
      assert v[0..|v|] == v;
    }
    forall v, x | v in order && x in order && v != x
      ensures AwayFrom(v, x)
    {
      Away(v, x);
    }
  }

  lemma Away(v: string, x: string)
    requires v != "" && NeverMeets(v, x)
    ensures AwayFrom(v, x)
  {
    forall j, n | 0 <= j <= |x| && 0 <= n <= |x|
      ensures !Occurs(v, x[..j] + x + x[n..])
    {
      NotAround(v, x, j, n, x);
    }
  }

  /** Secrets that have nothing to do with each other are removed from all texts exactly when none meets the mask. */
  lemma UnrelatedExact(order: seq<string>, mask: string)
    requires Unrelated(order)
    ensures (forall t :: Clean(RedactText(t, order, mask), order)) <==> forall v :: v in order ==> NeverMeets(v, mask)
  {
    AllCores(order);
    CoresExact(order, mask);
  }

  // ----- nested data

  datatype Data =
    | Text(text: string)
    | Dict(entries: seq<Entry>)
    | List(items: seq<Data>)
    | Tuple(parts: seq<Data>)
    | Set(members: set<Data>)
    | Other(n: int)

  datatype Entry = Entry(key: string, value: Data)

  /** The secrets in the order in which they are replaced, the names of secret fields as given, and the mask. */
  datatype Redactor = Redactor(order: seq<string>, names: seq<string>, mask: string)

  function NormalizeField(name: string): (n: string) {
    var lower := Lower(Trim(name));
    seq(|lower|, i requires 0 <= i < |lower| => if lower[i] == '-' then '_' else lower[i])
  }

  /** The given names in their normal form, without blank ones. */
  function FieldNames(names: seq<string>): (fields: set<string>) {
    set name | name in names && Trim(name) != "" :: NormalizeField(name)
  }

  predicate IsSecretField(r: Redactor, key: string) {
    NormalizeField(key) != "" && NormalizeField(key) in FieldNames(r.names)
  }

  /** The same letter up to case, the same character, or a dash for an underscore. */
  predicate SameFieldChar(a: char, b: char) {
    SameLetter(a, b) || (a == '-' && b == '_') || (a == '_' && b == '-')
  }

  predicate SameFieldChars(a: string, b: string) {
    |a| == |b| && forall i :: 0 <= i < |a| ==> SameFieldChar(a[i], b[i])
  }

  /** Without their outer whitespace, key and name are not empty and agree character by character. */
  ghost predicate SameField(key: string, name: string) {
    exists i: nat, j: nat, m: nat, n: nat ::
      IsCore(key, i, j) && IsCore(name, m, n) && i < j && SameFieldChars(key[i..j], name[m..n])
  }

  /** The key is, up to case, dashes and outer whitespace, one of the given names. */
  ghost predicate NamesSecret(r: Redactor, key: string) {
    exists name :: name in r.names && SameField(key, name)
  }

  lemma SameNormal(a: string, b: string)
    ensures NormalizeField(a) == NormalizeField(b) <==> SameFieldChars(Trim(a), Trim(b))
  {
    var x, y := NormalizeField(a), NormalizeField(b);
    assert |x| == |Trim(a)| && |y| == |Trim(b)|;
    if |x| == |y| {
      forall i | 0 <= i < |x|
        ensures x[i] == y[i] <==> SameFieldChar(Trim(a)[i], Trim(b)[i])
      {
        assert Lower(Trim(a))[i] == LowerChar(Trim(a)[i]) && Lower(Trim(b))[i] == LowerChar(Trim(b)[i]);
      }
    }
  }

  lemma SameFieldIs(key: string, name: string)
    ensures SameField(key, name) <==> Trim(key) != "" && SameFieldChars(Trim(key), Trim(name))
  {
    if SameField(key, name) {
      var i: nat, j: nat, m: nat, n: nat :|
        IsCore(key, i, j) && IsCore(name, m, n) && i < j && SameFieldChars(key[i..j], name[m..n]);
      CoreIsTrim(key, i, j);
      CoreIsTrim(name, m, n);
    }
    var i, j := TrimExactly(key);
    var m, n := TrimExactly(name);
  }

  /** A field is secret exactly if its key is one of the given names, however it is spelled. */
  lemma SecretFieldExactly(r: Redactor, key: string)
    ensures IsSecretField(r, key) <==> NamesSecret(r, key)
  {
    assert NormalizeField(key) == "" <==> Trim(key) == "";
    forall name | name in r.names
      ensures SameField(key, name) <==> Trim(key) != "" && NormalizeField(key) == NormalizeField(name)
    {
      SameFieldIs(key, name);
      SameNormal(key, name);
    }
    if IsSecretField(r, key) {
      var name :| name in r.names && Trim(name) != "" && NormalizeField(name) == NormalizeField(key);
      assert SameField(key, name);
    }
    if name :| name in r.names && SameField(key, name) {
      assert Trim(name) != "" by {
        SameFieldIs(key, name);
      }
    }
  }

  /** Keys that differ only in case, in dashes against underscores or in outer whitespace are treated alike. */
  lemma SpellingIrrelevant(r: Redactor, a: string, b: string)
    requires SameField(a, b)
    ensures IsSecretField(r, a) <==> IsSecretField(r, b)
  {
    SameFieldIs(a, b);
    SameNormal(a, b);
  }

  function RedactData(r: Redactor, d: Data): (out: Data)
    requires "" !in r.order
  {
    match d
    case Text(t) => Text(RedactText(t, r.order, r.mask))
    case Dict(entries) =>
      Dict(seq(|entries|, i requires 0 <= i < |entries| => RedactEntry(r, entries[i])))
    case List(items) => List(seq(|items|, i requires 0 <= i < |items| => RedactData(r, items[i])))
    case Tuple(parts) => Tuple(seq(|parts|, i requires 0 <= i < |parts| => RedactData(r, parts[i])))
    case Set(members) => Set(set m | m in members :: RedactData(r, m))
    case Other(n) => d
  }

  function RedactEntry(r: Redactor, e: Entry): (out: Entry)
    requires "" !in r.order
  {
    Entry(e.key, if IsSecretField(r, e.key) then Text(r.mask) else RedactData(r, e.value))
  }

  /** No secret occurs in any string in value position; values of secret fields are masked. */
  ghost predicate DataClean(r: Redactor, d: Data) {
    match d
    case Text(t) => Clean(t, r.order)
    case Dict(entries) => forall i :: 0 <= i < |entries| ==> EntryClean(r, entries[i])
    case List(items) => forall i :: 0 <= i < |items| ==> DataClean(r, items[i])
    case Tuple(parts) => forall i :: 0 <= i < |parts| ==> DataClean(r, parts[i])
    case Set(members) => forall m :: m in members ==> DataClean(r, m)
    case Other(n) => true
  }

  ghost predicate EntryClean(r: Redactor, e: Entry) {
    if NamesSecret(r, e.key) then e.value == Text(r.mask) else DataClean(r, e.value)
  }

  /**
   The same structure: same keys in the same places, at any depth the mask for the values of secret fields, other
   texts redacted, and everything else as it was.
   */
  ghost predicate SameShape(r: Redactor, d: Data, e: Data)
    requires "" !in r.order
  {
    match d
    case Text(t) => e == Text(RedactText(t, r.order, r.mask))
    case Dict(entries) =>
      e.Dict? && |e.entries| == |entries|
      && forall i :: 0 <= i < |entries| ==>
           e.entries[i].key == entries[i].key
           && if NamesSecret(r, entries[i].key) then e.entries[i].value == Text(r.mask)
              else SameShape(r, entries[i].value, e.entries[i].value)
    case List(items) =>
      e.List? && |e.items| == |items| && forall i :: 0 <= i < |items| ==> SameShape(r, items[i], e.items[i])
    case Tuple(parts) =>
      e.Tuple? && |e.parts| == |parts| && forall i :: 0 <= i < |parts| ==> SameShape(r, parts[i], e.parts[i])
    case Set(members) =>
      e.Set? && (forall m :: m in members ==> exists n :: n in e.members && SameShape(r, m, n))
      && (forall n :: n in e.members ==> exists m :: m in members && SameShape(r, m, n))
    case Other(n) => e == d
  }

  /** Redaction masks secret fields, redacts other texts, and keeps the structure of the data. */
  lemma {:induction false} RedactKeepsShape(r: Redactor, d: Data)
    requires "" !in r.order
    ensures SameShape(r, d, RedactData(r, d))
  {
    match d
    case Text(t) =>
    case Dict(entries) =>
      forall i | 0 <= i < |entries|
        ensures var value := RedactEntry(r, entries[i]).value;
          if NamesSecret(r, entries[i].key) then value == Text(r.mask) else SameShape(r, entries[i].value, value)
      {
        SecretFieldExactly(r, entries[i].key);
        RedactKeepsShape(r, entries[i].value);
      }
    case List(items) =>
      forall i | 0 <= i < |items|
        ensures SameShape(r, items[i], RedactData(r, items[i]))
      {
        RedactKeepsShape(r, items[i]);
      }
    case Tuple(parts) =>
      forall i | 0 <= i < |parts|
        ensures SameShape(r, parts[i], RedactData(r, parts[i]))
      {
        RedactKeepsShape(r, parts[i]);
      }
    case Set(members) =>
      forall m | m in members
        ensures SameShape(r, m, RedactData(r, m))
      {
        RedactKeepsShape(r, m);
      }
    case Other(n) =>
  }

  /** Completeness for nested data. */
  lemma {:induction false} RedactedDataClean(r: Redactor, d: Data)
    requires MaskFits(r.order, r.mask)
    ensures DataClean(r, RedactData(r, d))
  {
    match d
    case Text(t) => RedactedClean(t, r.order, r.mask);
    case Dict(entries) =>
      forall i | 0 <= i < |entries|
        ensures EntryClean(r, RedactEntry(r, entries[i]))
      {
        SecretFieldExactly(r, entries[i].key);
        RedactedDataClean(r, entries[i].value);
      }
    case List(items) =>
      forall i | 0 <= i < |items|
        ensures DataClean(r, RedactData(r, items[i]))
      {
        RedactedDataClean(r, items[i]);
      }
    case Tuple(parts) =>
      forall i | 0 <= i < |parts|
        ensures DataClean(r, RedactData(r, parts[i]))
      {
        RedactedDataClean(r, parts[i]);
      }
    case Set(members) =>
      forall m | m in members
        ensures DataClean(r, RedactData(r, m))
      {
        RedactedDataClean(r, m);
      }
    case Other(n) =>
  }

  /** Clean data is left as it is, so redacting data twice is redacting it once. */
  lemma {:induction false} CleanDataUnchanged(r: Redactor, d: Data)
    requires "" !in r.order && DataClean(r, d)
    ensures RedactData(r, d) == d
  {
    match d
    case Text(t) => CleanUnchanged(t, r.order, r.mask);
    case Dict(entries) =>
      forall i | 0 <= i < |entries|
        ensures RedactEntry(r, entries[i]) == entries[i]
      {
        SecretFieldExactly(r, entries[i].key);
        if !IsSecretField(r, entries[i].key) {
          CleanDataUnchanged(r, entries[i].value);
        }
      }
      assert RedactData(r, d).entries == entries;
    case List(items) =>
      forall i | 0 <= i < |items|
        ensures RedactData(r, items[i]) == items[i]
      {
        CleanDataUnchanged(r, items[i]);
      }
      assert RedactData(r, d).items == items;
    case Tuple(parts) =>
      forall i | 0 <= i < |parts|
        ensures RedactData(r, parts[i]) == parts[i]
      {
        CleanDataUnchanged(r, parts[i]);
      }
      assert RedactData(r, d).parts == parts;
    case Set(members) =>
      forall m | m in members
        ensures RedactData(r, m) == m
      {
        CleanDataUnchanged(r, m);
      }
      assert RedactData(r, d).members == members;
    case Other(n) =>
  }

  lemma RedactDataIdempotent(r: Redactor, d: Data)
    requires MaskFits(r.order, r.mask)
    ensures RedactData(r, RedactData(r, d)) == RedactData(r, d)
  {
    RedactedDataClean(r, d);
    CleanDataUnchanged(r, RedactData(r, d));
  }
}
