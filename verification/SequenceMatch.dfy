/**
 Incremental matching of a sequence of literal patterns against text that arrives in chunks, with a buffer
 that is trimmed, compared with one scan of the whole text.
 */
module SequenceMatch {
  import opened Wrappers
  import opened Text
  import opened Sequences

  // ----- one scan of a whole text

  /** From pattern i and position pos on: how many patterns are found one after the other, and where the last ends. */
  function Scan(patterns: seq<string>, text: string, i: nat, pos: nat): (r: (nat, nat))
    requires i <= |patterns| && pos <= |text|
    ensures i <= r.0 <= |patterns| && pos <= r.1 <= |text|
    decreases |patterns| - i
  {
    if i == |patterns| then (i, pos)
    else
      var at := FindFrom(patterns[i], text, pos);
      if at > |text| then (i, pos) else Scan(patterns, text, i + 1, at + |patterns[i]|)
  }

  /** Positions at which all patterns occur in the text, in order and without overlap. */
  ghost predicate Embeds(patterns: seq<string>, text: string, at: seq<nat>, from: nat) {
    && |at| == |patterns|
    && (forall k :: 0 <= k < |at| ==> OccursAt(patterns[k], text, at[k]))
    && (forall k :: 0 <= k < |at| - 1 ==> at[k] + |patterns[k]| <= at[k + 1])
    && (at != [] ==> from <= at[0])
  }

  lemma {:induction false} ScanEmbeds(patterns: seq<string>, text: string, i: nat, pos: nat) returns (at: seq<nat>)
    requires i <= |patterns| && pos <= |text|
    ensures Embeds(patterns[i..Scan(patterns, text, i, pos).0], text, at, pos)
    decreases |patterns| - i
  {
    at := [];
    if i < |patterns| {
      var first := FindFrom(patterns[i], text, pos);
      if first <= |text| {
        var rest := ScanEmbeds(patterns, text, i + 1, first + |patterns[i]|);
        at := [first] + rest;
        var end := Scan(patterns, text, i, pos).0;
        assert patterns[i..end] == [patterns[i]] + patterns[i + 1..end];
      }
    }
  }

  /** The leftmost choice is never worse: if the next n patterns can be placed at all, the scan gets past them. */
  lemma {:induction false} ScanStaysAhead(patterns: seq<string>, text: string, i: nat, pos: nat, n: nat, at: seq<nat>)
    requires i + n <= |patterns| && pos <= |text| && Embeds(patterns[i..i + n], text, at, pos)
    ensures Scan(patterns, text, i, pos).0 >= i + n
    decreases n
  {
    if n > 0 {
      assert patterns[i..i + n][0] == patterns[i];
      var first := FindFrom(patterns[i], text, pos);
      assert first <= at[0];
      assert patterns[i + 1..i + 1 + (n - 1)] == patterns[i..i + n][1..];
      ScanStaysAhead(patterns, text, i + 1, first + |patterns[i]|, n - 1, at[1..]);
    }
  }

  /** The scan gets past the first n patterns if and only if these occur in order without overlap. */
  lemma ScanComplete(patterns: seq<string>, text: string, n: nat)
    requires n <= |patterns|
    ensures Scan(patterns, text, 0, 0).0 >= n <==> exists at :: Embeds(patterns[..n], text, at, 0)
  {
    var found := Scan(patterns, text, 0, 0).0;
    var at := ScanEmbeds(patterns, text, 0, 0);
    assert patterns[0..found] == patterns[..found];
    if found >= n {
      assert patterns[..found][..n] == patterns[..n];
      assert Embeds(patterns[..n], text, at[..n], 0);
    }
    if other :| Embeds(patterns[..n], text, other, 0) {
      assert patterns[0..0 + n] == patterns[..n];
      ScanStaysAhead(patterns, text, 0, 0, n, other);
    }
  }

  // ----- text that grows

  lemma FindUnique(p: string, s: string, i: nat, r: nat)
    requires i <= r <= |s| + 1
    requires r <= |s| ==> OccursAt(p, s, r)
    requires forall k: nat :: i <= k < r ==> !OccursAt(p, s, k)
    ensures FindFrom(p, s, i) == r
  {}

  /** A leftmost occurrence in a prefix is the leftmost one in the whole text. */
  lemma FindExtends(p: string, s: string, t: string, i: nat)
    requires s <= t && i <= |s| && FindFrom(p, s, i) <= |s|
    ensures FindFrom(p, t, i) == FindFrom(p, s, i)
  {
    var r := FindFrom(p, s, i);
    assert t[r..r + |p|] == s[r..r + |p|];
    forall k: nat | i <= k < r
      ensures !OccursAt(p, t, k)
    {
      assert !OccursAt(p, s, k);
      assert t[k..k + |p|] == s[k..k + |p|];
    }
    FindUnique(p, t, i, r);
  }

  lemma FindShift(p: string, s: string, k: nat)
    requires k <= |s|
    ensures FindFrom(p, s[k..], 0) + k == FindFrom(p, s, k)
  {
    var r := FindFrom(p, s[k..], 0);
    forall j: nat | k <= j <= |s|
      ensures OccursAt(p, s, j) <==> OccursAt(p, s[k..], j - k)
    {
      if j + |p| <= |s| {
        assert s[j..j + |p|] == s[k..][j - k..j - k + |p|];
      }
    }
    FindUnique(p, s, k, r + k);
  }

  /** What a scan of a prefix finds next, a scan of the whole text finds next too. */
  lemma ScanTakeBoth(patterns: seq<string>, s: string, t: string, i: nat, pos: nat) returns (end: nat)
    requires s <= t && i < |patterns| && pos <= |s| && FindFrom(patterns[i], s, pos) <= |s|
    ensures end <= |s|
    ensures Scan(patterns, s, i, pos) == Scan(patterns, s, i + 1, end)
    ensures Scan(patterns, t, i, pos) == Scan(patterns, t, i + 1, end)
  {
    FindExtends(patterns[i], s, t, pos);
    ScanTake(patterns, s, i, pos);
    ScanTake(patterns, t, i, pos);
    end := FindFrom(patterns[i], s, pos) + |patterns[i]|;
  }

  /** A scan of a longer text can be resumed where the scan of a prefix stopped. */
  lemma {:induction false} ScanResumes(patterns: seq<string>, s: string, t: string, i: nat, pos: nat)
    requires s <= t && i <= |patterns| && pos <= |s|
    ensures Scan(patterns, t, i, pos) == Scan(patterns, t, Scan(patterns, s, i, pos).0, Scan(patterns, s, i, pos).1)
    decreases |patterns| - i
  {
    if i < |patterns| && FindFrom(patterns[i], s, pos) <= |s| {
      var end := ScanTakeBoth(patterns, s, t, i, pos);
      ScanResumes(patterns, s, t, i + 1, end);
    } else {
      assert Scan(patterns, s, i, pos) == (i, pos);
    }
  }

  // ----- the incremental matcher

  const TRIM_LIMIT := 8192

  datatype MatchState = MatchState(index: nat, buffer: string, cursor: nat, matched: seq<string>, complete: bool)

  const START := MatchState(0, "", 0, [], false)

  predicate Wellformed(patterns: seq<string>, st: MatchState) {
    st.index <= |patterns| && st.cursor <= |st.buffer|
  }

  /** The state after one pattern has been found to end at `end` of the buffer. */
  function Matched(patterns: seq<string>, st: MatchState, end: nat): (r: MatchState)
    requires st.index < |patterns| && end <= |st.buffer|
  {
    var trimmed := end > TRIM_LIMIT;
    MatchState(st.index + 1,
               if trimmed then st.buffer[end..] else st.buffer,
               if trimmed then 0 else end,
               st.matched + [patterns[st.index]],
               st.index + 1 >= |patterns|)
  }

  /** Nothing more to find: all patterns are matched, or the next one is not in the rest of the buffer. */
  predicate Stuck(patterns: seq<string>, st: MatchState)
    requires Wellformed(patterns, st)
  {
    st.index == |patterns|
    || FindFrom(patterns[st.index], st.buffer[st.cursor..], 0) > |st.buffer[st.cursor..]|
  }

  /** Where the next match ends in the buffer. */
  function NextEnd(patterns: seq<string>, st: MatchState): (end: nat)
    requires Wellformed(patterns, st) && !Stuck(patterns, st)
    ensures end <= |st.buffer|
  {
    st.cursor + FindFrom(patterns[st.index], st.buffer[st.cursor..], 0) + |patterns[st.index]|
  }

  /** Matches as many further patterns as the buffer holds. */
  function Advance(patterns: seq<string>, st: MatchState): (r: MatchState)
    requires Wellformed(patterns, st)
    ensures Wellformed(patterns, r)
    decreases |patterns| - st.index
  {
    if Stuck(patterns, st) then st else Advance(patterns, Matched(patterns, st, NextEnd(patterns, st)))
  }

  function Join(parts: seq<string>, sep: string): (s: string) {
    if parts == [] then ""
    else if |parts| == 1 then parts[0]
    else parts[0] + sep + Join(parts[1..], sep)
  }

  /** The parts with the separator before each but the first. */
  function Separated(parts: seq<string>, sep: string): (r: seq<string>) {
    seq(|parts|, i requires 0 <= i < |parts| => if i == 0 then parts[i] else sep + parts[i])
  }

  lemma {:induction false} JoinFlat(parts: seq<string>, sep: string)
    ensures Join(parts, sep) == Flatten(Separated(parts, sep))
  {
    if parts == [] {
      assert Separated(parts, sep) == [];
    } else if |parts| == 1 {
      assert Separated(parts, sep) == [] + [parts[0]];
      FlattenSnoc([], parts[0]);
    } else {
      var rest := parts[1..];
      JoinFlat(rest, sep);
      JoinHead(parts, sep);
    }
  }

  /** Adding a part in front: the part that was first now comes after a separator. */
  lemma JoinHead(parts: seq<string>, sep: string)
    requires |parts| > 1
    ensures Flatten(Separated(parts, sep)) == parts[0] + sep + Flatten(Separated(parts[1..], sep))
  {
    var rest := Separated(parts[1..], sep);
    var tail := rest[1..];
    assert rest == [parts[1]] + tail;
    assert Separated(parts, sep) == [parts[0]] + ([sep + parts[1]] + tail);
    FlattenCons(parts[0], [sep + parts[1]] + tail);
    FlattenCons(sep + parts[1], tail);
    FlattenCons(parts[1], tail);
    assert parts[0] + ((sep + parts[1]) + Flatten(tail)) == parts[0] + sep + (parts[1] + Flatten(tail));
  }

  function Token(matched: seq<string>): (s: string) {
    var joined := Join(matched, " -> ");
    if joined == "" then "sequence" else joined
  }

  /** The token of non-empty patterns puts an arrow between them. */
  lemma TokenSpelled(patterns: seq<string>)
    requires patterns != [] && forall p :: p in patterns ==> p != ""
    ensures Token(patterns) == Flatten(Separated(patterns, " -> "))
  {
    JoinFlat(patterns, " -> ");
    assert Join(patterns, " -> ")[..|patterns[0]|] == patterns[0];
    assert patterns[0] in patterns;
  }

  /** One call with more text: the new state, and the token if this call completes the sequence. */
  function Feed(patterns: seq<string>, st: MatchState, text: string): (r: (MatchState, Option<string>))
    requires Wellformed(patterns, st)
    ensures Wellformed(patterns, r.0)
  {
    if patterns == [] || st.complete then (st, None)
    else
      var next := Advance(patterns, st.(buffer := st.buffer + text));
      (next, if next.complete then Some(Token(next.matched)) else None)
  }

  /** Feeding chunks one after the other: the final state and what every call returned. */
  function FeedAll(patterns: seq<string>, chunks: seq<string>): (r: (MatchState, seq<Option<string>>))
    ensures Wellformed(patterns, r.0) && |r.1| == |chunks|
  {
    if chunks == [] then (START, [])
    else
      var n := |chunks| - 1;
      var (st, tokens) := FeedAll(patterns, chunks[..n]);
      var (next, token) := Feed(patterns, st, chunks[n]);
      (next, tokens + [token])
  }

  // ----- the incremental matcher agrees with the scan

  /** The state has matched the first patterns and has the same text ahead as position pos of the text fed so far. */
  ghost predicate StandsAt(patterns: seq<string>, st: MatchState, text: string, pos: nat) {
    && Wellformed(patterns, st)
    && st.matched == patterns[..st.index]
    && (st.complete <==> patterns != [] && st.index == |patterns|)
    && pos <= |text| && text[pos..] == st.buffer[st.cursor..]
  }

  /** The state is where a scan of the text fed so far stands. */
  ghost predicate AgreesAt(patterns: seq<string>, st: MatchState, text: string, pos: nat) {
    StandsAt(patterns, st, text, pos) && Scan(patterns, text, 0, 0) == Scan(patterns, text, st.index, pos)
  }

  lemma DropBoth(a: string, i: nat, b: string, j: nat, n: nat)
    requires i <= |a| && j <= |b| && a[i..] == b[j..] && i + n <= |a|
    ensures |a| - i == |b| - j && a[i + n..] == b[j + n..]
  {}

  lemma ScanTake(patterns: seq<string>, text: string, i: nat, pos: nat)
    requires i < |patterns| && pos <= |text| && FindFrom(patterns[i], text, pos) <= |text|
    ensures var end := FindFrom(patterns[i], text, pos) + |patterns[i]|;
      end <= |text| && Scan(patterns, text, i, pos) == Scan(patterns, text, i + 1, end)
  {}

  /** With nothing more to find, the scan ends where the state stands. */
  lemma StuckAgrees(patterns: seq<string>, st: MatchState, text: string, pos: nat)
    requires AgreesAt(patterns, st, text, pos) && Stuck(patterns, st)
    ensures st.index == Scan(patterns, text, 0, 0).0
  {
    if st.index < |patterns| {
      FindShift(patterns[st.index], text, pos);
    }
  }

  lemma FoundAt(patterns: seq<string>, st: MatchState, text: string, pos: nat)
    requires Wellformed(patterns, st) && !Stuck(patterns, st) && pos <= |text| && text[pos..] == st.buffer[st.cursor..]
    ensures FindFrom(patterns[st.index], text, pos) <= |text|
    ensures FindFrom(patterns[st.index], text, pos) + |patterns[st.index]| == pos + NextEnd(patterns, st) - st.cursor
  {
    FindShift(patterns[st.index], text, pos);
    DropBoth(text, pos, st.buffer, st.cursor, 0);
  }

  /** Wherever the buffer is cut, the same text lies ahead. */
  lemma MatchedAhead(patterns: seq<string>, st: MatchState, end: nat)
    requires st.index < |patterns| && end <= |st.buffer|
    ensures var m := Matched(patterns, st, end);
      Wellformed(patterns, m) && m.buffer[m.cursor..] == st.buffer[end..]
  {}

  lemma MatchedStands(patterns: seq<string>, st: MatchState, text: string, pos: nat, end: nat, next: nat)
    requires StandsAt(patterns, st, text, pos) && st.index < |patterns|
    requires end <= |st.buffer| && next <= |text| && text[next..] == st.buffer[end..]
    ensures StandsAt(patterns, Matched(patterns, st, end), text, next)
  {
    MatchedAhead(patterns, st, end);
    assert patterns[..st.index + 1] == patterns[..st.index] + [patterns[st.index]];
  }

  lemma TakeAgrees(patterns: seq<string>, st: MatchState, text: string, pos: nat) returns (next: nat)
    requires AgreesAt(patterns, st, text, pos) && !Stuck(patterns, st)
    ensures AgreesAt(patterns, Matched(patterns, st, NextEnd(patterns, st)), text, next)
  {
    var end := NextEnd(patterns, st);
    next := pos + end - st.cursor;
    TakeStands(patterns, st, text, pos, next);
    TakeScans(patterns, st, text, pos, next);
  }

  lemma TakeStands(patterns: seq<string>, st: MatchState, text: string, pos: nat, next: int)
    requires StandsAt(patterns, st, text, pos) && !Stuck(patterns, st)
    requires next == pos + NextEnd(patterns, st) - st.cursor
    ensures 0 <= next && StandsAt(patterns, Matched(patterns, st, NextEnd(patterns, st)), text, next)
  {
    var end := NextEnd(patterns, st);
    DropBoth(text, pos, st.buffer, st.cursor, end - st.cursor);
    MatchedStands(patterns, st, text, pos, end, next);
  }

  lemma TakeScans(patterns: seq<string>, st: MatchState, text: string, pos: nat, next: int)
    requires StandsAt(patterns, st, text, pos) && !Stuck(patterns, st)
    requires next == pos + NextEnd(patterns, st) - st.cursor
    ensures 0 <= next <= |text| && Scan(patterns, text, st.index, pos) == Scan(patterns, text, st.index + 1, next)
  {
    FoundAt(patterns, st, text, pos);
    ScanTake(patterns, text, st.index, pos);
  }

  lemma {:induction false} AdvanceAgrees(patterns: seq<string>, st: MatchState, text: string, pos: nat)
    returns (pos': nat)
    requires AgreesAt(patterns, st, text, pos)
    ensures AgreesAt(patterns, Advance(patterns, st), text, pos')
    ensures Advance(patterns, st).index == Scan(patterns, text, 0, 0).0
    decreases |patterns| - st.index
  {
    if Stuck(patterns, st) {
      StuckAgrees(patterns, st, text, pos);
      pos' := pos;
    } else {
      var next := TakeAgrees(patterns, st, text, pos);
      pos' := AdvanceAgrees(patterns, Matched(patterns, st, NextEnd(patterns, st)), text, next);
    }
  }

  lemma ResumeBoth(patterns: seq<string>, s: string, more: string, i: nat, pos: nat)
    requires i <= |patterns| && pos <= |s| && Scan(patterns, s, 0, 0) == Scan(patterns, s, i, pos)
    ensures Scan(patterns, s + more, 0, 0) == Scan(patterns, s + more, i, pos)
  {
    ScanResumes(patterns, s, s + more, 0, 0);
    ScanResumes(patterns, s, s + more, i, pos);
  }

  lemma GrowAgrees(patterns: seq<string>, st: MatchState, text: string, pos: nat, more: string)
    requires AgreesAt(patterns, st, text, pos)
    ensures AgreesAt(patterns, st.(buffer := st.buffer + more), text + more, pos)
  {
    ResumeBoth(patterns, text, more, st.index, pos);
    DropAppend(text, more, pos);
    DropAppend(st.buffer, more, st.cursor);
  }

  lemma DropAppend(s: string, more: string, n: nat)
    requires n <= |s|
    ensures (s + more)[n..] == s[n..] + more
  {}

  /** One call on an incomplete sequence keeps the agreement, for the longer text. */
  lemma FeedAgrees(patterns: seq<string>, st: MatchState, text: string, pos: nat, more: string) returns (pos': nat)
    requires AgreesAt(patterns, st, text, pos) && !st.complete && patterns != []
    ensures var next := Feed(patterns, st, more).0;
      AgreesAt(patterns, next, text + more, pos') && next.index == Scan(patterns, text + more, 0, 0).0
  {
    GrowAgrees(patterns, st, text, pos, more);
    pos' := AdvanceAgrees(patterns, st.(buffer := st.buffer + more), text + more, pos);
  }

  /** A scan that has found every pattern finds every pattern in any longer text. */
  lemma CompleteStays(patterns: seq<string>, text: string, more: string)
    requires Scan(patterns, text, 0, 0).0 == |patterns|
    ensures Scan(patterns, text + more, 0, 0).0 == |patterns|
  {
    ScanResumes(patterns, text, text + more, 0, 0);
  }

  lemma NothingInNothing(patterns: seq<string>)
    requires forall p :: p in patterns ==> p != ""
    ensures Scan(patterns, "", 0, 0) == (0, 0)
  {
    if patterns != [] {
      assert patterns[0] in patterns;
      FindUnique(patterns[0], "", 0, 1);
    }
  }

  /**
   Incremental matching refines the scan: whatever the chunks and despite trimming, the index reached is
   that of one scan of the concatenated text, and the sequence is complete exactly when the scan is.
   */
  lemma {:induction false} FeedAllScans(patterns: seq<string>, chunks: seq<string>) returns (pos: nat)
    requires forall p :: p in patterns ==> p != ""
    ensures var st := FeedAll(patterns, chunks).0;
      && st.index == Scan(patterns, Flatten(chunks), 0, 0).0
      && (st.complete <==> patterns != [] && st.index == |patterns|)
      && (!st.complete && patterns != [] ==> AgreesAt(patterns, st, Flatten(chunks), pos))
  {
    pos := 0;
    if chunks == [] {
      NothingInNothing(patterns);
    } else {
      var n := |chunks| - 1;
      pos := FeedAllScans(patterns, chunks[..n]);
      FlattenSnoc(chunks[..n], chunks[n]);
      assert chunks == chunks[..n] + [chunks[n]];
      var st := FeedAll(patterns, chunks[..n]).0;
      if st.complete {
        CompleteStays(patterns, Flatten(chunks[..n]), chunks[n]);
      } else if patterns != [] {
        pos := FeedAgrees(patterns, st, Flatten(chunks[..n]), pos, chunks[n]);
      }
    }
  }

  /** Any two ways of cutting the same text into chunks lead to the same index and the same completion. */
  lemma ChunkingIrrelevant(patterns: seq<string>, a: seq<string>, b: seq<string>)
    requires (forall p :: p in patterns ==> p != "") && Flatten(a) == Flatten(b)
    ensures FeedAll(patterns, a).0.index == FeedAll(patterns, b).0.index
    ensures FeedAll(patterns, a).0.complete == FeedAll(patterns, b).0.complete
  {
    var _ := FeedAllScans(patterns, a);
    var _ := FeedAllScans(patterns, b);
  }

  /** The sequence completes if and only if all patterns occur in the text in order without overlap. */
  lemma CompleteExactlyWhenEmbedded(patterns: seq<string>, chunks: seq<string>)
    requires patterns != [] && forall p :: p in patterns ==> p != ""
    ensures FeedAll(patterns, chunks).0.complete <==> exists at :: Embeds(patterns, Flatten(chunks), at, 0)
  {
    var _ := FeedAllScans(patterns, chunks);
    ScanComplete(patterns, Flatten(chunks), |patterns|);
    assert patterns[..|patterns|] == patterns;
  }

  function TokenCount(tokens: seq<Option<string>>): (n: nat) {
    if tokens == [] then 0
    else TokenCount(tokens[..|tokens| - 1]) + if tokens[|tokens| - 1].Some? then 1 else 0
  }

  lemma {:induction false} TokensCounted(patterns: seq<string>, chunks: seq<string>)
    requires forall p :: p in patterns ==> p != ""
    ensures var (st, tokens) := FeedAll(patterns, chunks);
      && TokenCount(tokens) == (if st.complete then 1 else 0)
      && forall k :: 0 <= k < |tokens| && tokens[k].Some? ==> patterns != [] && tokens[k].value == Token(patterns)
  {
    if chunks != [] {
      var n := |chunks| - 1;
      TokensCounted(patterns, chunks[..n]);
      var pos := FeedAllScans(patterns, chunks[..n]);
      var (st, tokens) := FeedAll(patterns, chunks[..n]);
      var (next, token) := Feed(patterns, st, chunks[n]);
      assert (tokens + [token])[..n] == tokens;
      if !st.complete && patterns != [] {
        var _ := FeedAgrees(patterns, st, Flatten(chunks[..n]), pos, chunks[n]);
        assert next.complete ==> next.matched == patterns[..|patterns|] == patterns;
      }
    }
  }

  lemma FeedLast(patterns: seq<string>, chunks: seq<string>)
    requires chunks != []
    ensures var n := |chunks| - 1;
      var (st, tokens) := FeedAll(patterns, chunks[..n]);
      var (next, token) := Feed(patterns, st, chunks[n]);
      && FeedAll(patterns, chunks) == (next, tokens + [token])
      && (token.Some? <==> next.complete && !st.complete)
  {}

  /** Call k returns a token exactly if the sequence is complete after it but not before it. */
  lemma {:induction false} TokenWhenComplete(patterns: seq<string>, chunks: seq<string>, k: nat)
    requires k < |chunks|
    ensures FeedAll(patterns, chunks).1[k].Some? <==>
            FeedAll(patterns, chunks[..k + 1]).0.complete && !FeedAll(patterns, chunks[..k]).0.complete
  {
    var n := |chunks| - 1;
    FeedLast(patterns, chunks);
    if k < n {
      var init := chunks[..n];
      assert init[..k + 1] == chunks[..k + 1] && init[..k] == chunks[..k];
      TokenWhenComplete(patterns, init, k);
    } else {
      assert chunks[..k + 1] == chunks;
    }
  }

  /**
   If the sequence completes, exactly one call returns a token, the one that completes it, and none does otherwise;
   the token puts all patterns one after the other with arrows between them.
   */
  lemma OneToken(patterns: seq<string>, chunks: seq<string>, k: nat)
    requires (forall p :: p in patterns ==> p != "") && k < |chunks|
    ensures var (st, tokens) := FeedAll(patterns, chunks);
      && TokenCount(tokens) == (if st.complete then 1 else 0)
      && (tokens[k].Some? <==>
          FeedAll(patterns, chunks[..k + 1]).0.complete && !FeedAll(patterns, chunks[..k]).0.complete)
      && (tokens[k].Some? ==> tokens[k].value == Flatten(Separated(patterns, " -> ")))
  {
    TokensCounted(patterns, chunks);
    TokenWhenComplete(patterns, chunks, k);
    if FeedAll(patterns, chunks).1[k].Some? {
      TokenSpelled(patterns);
    }
  }

  // ----- the matcher as an object

  class SequenceState {
    const sequence: seq<string>
    var index: nat
    var buffer: string
    var cursor: nat
    var matched: seq<string>
    var complete: bool

    constructor (sequence: seq<string>)
      ensures this.sequence == sequence && State() == START
    {
      this.sequence := sequence;
      index, buffer, cursor, matched, complete := 0, "", 0, [], false;
    }

    function State(): (st: MatchState)
      reads this
    {
      MatchState(index, buffer, cursor, matched, complete)
    }

    /** Moves past a match that ends at `end` of the buffer, cutting the buffer when the cursor has gone far. */
    method TakeMatch(end: nat)
      requires index < |sequence| && end <= |buffer| && !complete
      modifies this
      ensures State() == Matched(sequence, old(State()), end)
      ensures if end > 8192 then buffer == old(buffer)[end..] && cursor == 0 else buffer == old(buffer) && cursor == end
    {
      cursor := end;
      matched := matched + [sequence[index]];
      index := index + 1;
      if cursor > TRIM_LIMIT {
        buffer := buffer[cursor..];
        cursor := 0;
      }
      if index >= |sequence| {
        complete := true;
      }
    }

    /** Matches further patterns until the next one is not found or all are. */
    method MatchOn()
      requires Wellformed(sequence, State()) && index < |sequence| && !complete
      modifies this
      ensures State() == Advance(sequence, old(State()))
    {
      while index < |sequence|
        invariant Wellformed(sequence, State()) && Advance(sequence, State()) == Advance(sequence, old(State()))
        invariant index < |sequence| ==> !complete
        decreases |sequence| - index
      {
        if Stuck(sequence, State()) {
          break;
        }
        TakeMatch(NextEnd(sequence, State()));
      }
    }

    /** Appends text to the buffer and matches on; returns the token if the sequence is now complete. */
    method MatchSequence(text: string) returns (token: Option<string>)
      requires Wellformed(sequence, State()) && (complete <==> sequence != [] && index == |sequence|)
      modifies this
      ensures (State(), token) == Feed(sequence, old(State()), text)
    {
      if sequence == [] || complete {
        return None;
      }
      buffer := buffer + text;
      MatchOn();
      if !complete {
        return None;
      }
      var joined := Join(matched, " -> ");
      token := Some(if joined != "" then joined else "sequence");
    }
  }
}
