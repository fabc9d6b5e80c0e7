/** Report file names that carry a job id and an attempt number, printed for a job and parsed by the collector. */
module ScopedNames {
  import opened Wrappers
  import opened Text

  /** Position of the last dot, or the length if there is none. */
  function LastDot(s: string): (p: nat)
    ensures p <= |s|
    ensures p < |s| ==> s[p] == '.'
    ensures forall k :: p < k < |s| ==> s[k] != '.'
    ensures p == |s| ==> forall k :: 0 <= k < |s| ==> s[k] != '.'
  {
    if s == "" then 0
    else
      var n := |s| - 1;
      if s[n] == '.' then n
      else
        var q := LastDot(s[..n]);
        if q == n then |s| else q
  }

  /** What stands before the job id and after the attempt number. */
  function Prefix(raw: string): (p: string) {
    raw[..LastDot(raw)] + "-"
  }

  function Suffix(raw: string): (s: string) {
    raw[LastDot(raw)..]
  }

  function ScopedName(name: string, jobId: string, attempt: nat): (file: string) {
    var raw := Trim(name);
    if raw == "" then "" else Prefix(raw) + jobId + "-a" + Numeral(attempt) + Suffix(raw)
  }

  /** The name without outer blanks, cut before its last dot if it has one. */
  predicate StemAndExtension(name: string, stem: string, ext: string) {
    && Trim(name) == stem + ext && (ext == "" ==> '.' !in stem)
    && (ext != "" ==> ext[0] == '.' && '.' !in ext[1..])
  }

  lemma CutAtStem(name: string, stem: string, ext: string)
    requires StemAndExtension(name, stem, ext)
    ensures Prefix(Trim(name)) == stem + "-" && Suffix(Trim(name)) == ext
  {
    var raw := Trim(name);
    var p := LastDot(raw);
    if ext == "" {
      assert raw == stem;
    } else {
      assert raw[|stem|] == '.';
      forall k | |stem| < k < |raw|
        ensures raw[k] != '.'
      {
        assert raw[k] == ext[1..][k - |stem| - 1];
      }
    }
    assert p == |stem|;
    assert raw[..|stem|] == stem && raw[|stem|..] == ext;
  }

  /** A printed name is stem, job id, attempt and extension; there is one way to cut the stem from the extension. */
  lemma ScopedNameShape(name: string, stem: string, ext: string, jobId: string, attempt: nat)
    requires StemAndExtension(name, stem, ext)
    ensures Trim(name) != "" ==> ScopedName(name, jobId, attempt) == stem + "-" + jobId + "-a" + Numeral(attempt) + ext
    ensures Trim(name) == "" ==> ScopedName(name, jobId, attempt) == ""
  {
    CutAtStem(name, stem, ext);
  }

  // ----- the pattern

  predicate NewlineFree(s: string) {
    '\n' !in s
  }

  /** The collector's pattern as a relation: the named parts in order, then the end or a final newline. */
  ghost predicate Fits(file: string, name: string, jobId: string, digits: string) {
    var raw := Trim(name);
    var body := Prefix(raw) + jobId + "-a" + digits + Suffix(raw);
    && raw != "" && jobId != "" && NewlineFree(jobId)
    && digits != "" && AllDigits(digits)
    && (file == body || file == body + "\n")
  }

  /** What the collector reads is a printed name: its stem and extension around a job id and an attempt number. */
  lemma FitsShape(file: string, name: string, stem: string, ext: string, jobId: string, digits: string)
    requires StemAndExtension(name, stem, ext) && Fits(file, name, jobId, digits)
    ensures var body := stem + "-" + jobId + "-a" + digits + ext; file == body || file == body + "\n"
  {
    CutAtStem(name, stem, ext);
  }

  /** Length of the longest tail of digits. */
  function DigitTail(s: string): (n: nat)
    ensures n <= |s|
    ensures forall i :: |s| - n <= i < |s| ==> IsDigit(s[i])
    ensures n < |s| ==> !IsDigit(s[|s| - n - 1])
  {
    if s == "" || !IsDigit(s[|s| - 1]) then 0 else DigitTail(s[..|s| - 1]) + 1
  }

  /** Takes the middle part of a file name apart: a job id, "-a", digits. */
  function ParseMiddle(mid: string): (r: Option<(string, string)>) {
    var n := DigitTail(mid);
    var cut := |mid| - n;
    if n >= 1 && cut >= 3 && mid[cut - 2..cut] == "-a" && NewlineFree(mid[..cut - 2])
    then Some((mid[..cut - 2], mid[cut..]))
    else None
  }

  function ParseBody(body: string, raw: string): (r: Option<(string, string)>) {
    var p, s := Prefix(raw), Suffix(raw);
    if |p| + |s| <= |body| && p <= body && body[|body| - |s|..] == s
    then ParseMiddle(body[|p|..|body| - |s|])
    else None
  }

  /** The job id and attempt that a file name carries for a configured name, if it carries any. */
  function MatchScopedOutput(file: string, name: string): (r: Option<(string, nat)>) {
    var raw := Trim(name);
    if raw == "" then None
    else
      var whole := ParseBody(file, raw);
      var parts := if whole.None? && file != "" && file[|file| - 1] == '\n' then ParseBody(file[..|file| - 1], raw)
                   else whole;
      if parts.Some? && AllDigits(parts.value.1) then Some((parts.value.0, ParseNumeral(parts.value.1))) else None
  }

  // ----- the parser meets the pattern

  lemma {:induction false} DigitTailIs(s: string, n: nat)
    requires n <= |s| && (forall i :: |s| - n <= i < |s| ==> IsDigit(s[i])) && (n < |s| ==> !IsDigit(s[|s| - n - 1]))
    ensures DigitTail(s) == n
  {}

  lemma DigitTailOf(head: string, digits: string)
    requires AllDigits(digits) && (head != "" ==> !IsDigit(head[|head| - 1]))
    ensures DigitTail(head + digits) == |digits|
  {
    DigitTailIs(head + digits, |digits|);
  }

  lemma ParseMiddleBuilt(jobId: string, digits: string)
    requires jobId != "" && NewlineFree(jobId) && digits != "" && AllDigits(digits)
    ensures ParseMiddle(jobId + "-a" + digits) == Some((jobId, digits))
  {
    var mid := jobId + "-a" + digits;
    DigitTailOf(jobId + "-a", digits);
    var cut := |mid| - |digits|;
    assert mid[cut - 2..cut] == "-a" && mid[..cut - 2] == jobId && mid[cut..] == digits;
  }

  lemma ParseMiddleExact(mid: string, jobId: string, digits: string)
    ensures ParseMiddle(mid) == Some((jobId, digits)) <==>
            mid == jobId + "-a" + digits && jobId != "" && NewlineFree(jobId) && digits != "" && AllDigits(digits)
  {
    if mid == jobId + "-a" + digits && jobId != "" && NewlineFree(jobId) && digits != "" && AllDigits(digits) {
      ParseMiddleBuilt(jobId, digits);
    }
  }

  lemma ParseBodyExact(body: string, raw: string, jobId: string, digits: string)
    ensures ParseBody(body, raw) == Some((jobId, digits)) <==>
            body == Prefix(raw) + jobId + "-a" + digits + Suffix(raw)
            && jobId != "" && NewlineFree(jobId) && digits != "" && AllDigits(digits)
  {
    var p, s := Prefix(raw), Suffix(raw);
    var mid := jobId + "-a" + digits;
    assert p + jobId + "-a" + digits + s == p + mid + s;
    Sandwich(body, p, mid, s);
    if |p| + |s| <= |body| && p <= body && body[|body| - |s|..] == s {
      ParseMiddleExact(body[|p|..|body| - |s|], jobId, digits);
    }
  }

  lemma Sandwich(body: string, p: string, mid: string, s: string)
    ensures body == p + mid + s <==>
            |p| + |s| <= |body| && p <= body && body[|body| - |s|..] == s && body[|p|..|body| - |s|] == mid
  {}

  /** A body never ends with a newline, so the two ends of the pattern never compete. */
  lemma BodyNoNewline(raw: string, jobId: string, digits: string)
    requires Trimmed(raw) && digits != "" && AllDigits(digits)
    ensures var body := Prefix(raw) + jobId + "-a" + digits + Suffix(raw); body[|body| - 1] != '\n'
  {}

  /** The parser accepts exactly the names that fit the pattern, with exactly the parts that fit. */
  lemma MatchExact(file: string, name: string, jobId: string, attempt: nat)
    ensures MatchScopedOutput(file, name) == Some((jobId, attempt)) <==>
            exists digits :: Fits(file, name, jobId, digits) && attempt == ParseNumeral(digits)
  {
    if digits :| Fits(file, name, jobId, digits) && attempt == ParseNumeral(digits) {
      FitsMatched(file, name, jobId, digits);
    }
    if MatchScopedOutput(file, name) == Some((jobId, attempt)) {
      var digits := MatchedFits(file, name);
    }
  }

  lemma MatchedFits(file: string, name: string) returns (digits: string)
    requires MatchScopedOutput(file, name).Some?
    ensures var (jobId, attempt) := MatchScopedOutput(file, name).value;
      Fits(file, name, jobId, digits) && attempt == ParseNumeral(digits)
  {
    var raw := Trim(name);
    var whole := ParseBody(file, raw);
    if whole.Some? {
      digits := whole.value.1;
      ParseBodyExact(file, raw, whole.value.0, digits);
    } else {
      var init := file[..|file| - 1];
      var parts := ParseBody(init, raw);
      digits := parts.value.1;
      ParseBodyExact(init, raw, parts.value.0, digits);
      assert file == init + "\n";
    }
  }

  /** What ends with a newline is not a body. */
  lemma NewlineNoBody(file: string, raw: string)
    requires Trimmed(raw) && file != "" && file[|file| - 1] == '\n'
    ensures ParseBody(file, raw) == None
  {
    var whole := ParseBody(file, raw);
    if whole.Some? {
      ParseBodyExact(file, raw, whole.value.0, whole.value.1);
      BodyNoNewline(raw, whole.value.0, whole.value.1);
      assert false;
    }
  }

  lemma FitsMatched(file: string, name: string, jobId: string, digits: string)
    requires Fits(file, name, jobId, digits)
    ensures MatchScopedOutput(file, name) == Some((jobId, ParseNumeral(digits)))
  {
    var raw := Trim(name);
    TrimShape(name);
    var body := Prefix(raw) + jobId + "-a" + digits + Suffix(raw);
    ParseBodyExact(body, raw, jobId, digits);
    if file != body {
      assert file[..|file| - 1] == body;
      NewlineNoBody(file, raw);
    }
  }

  /** At most one job id and attempt fit a file name, whatever "-a" text the job id contains. */
  lemma FitsUnique(file: string, name: string, a: string, x: string, b: string, y: string)
    requires Fits(file, name, a, x) && Fits(file, name, b, y)
    ensures a == b && ParseNumeral(x) == ParseNumeral(y)
  {
    FitsMatched(file, name, a, x);
    FitsMatched(file, name, b, y);
  }

  /** Parsing a printed name gives back the job id and the attempt. */
  lemma RoundTrip(name: string, jobId: string, attempt: nat)
    requires Trim(name) != "" && jobId != "" && NewlineFree(jobId)
    ensures MatchScopedOutput(ScopedName(name, jobId, attempt), name) == Some((jobId, attempt))
  {
    FitsMatched(ScopedName(name, jobId, attempt), name, jobId, Numeral(attempt));
    ParseNumeralInverts(attempt);
  }

  /** Different attempts or jobs never share a report file. */
  lemma NamesDistinct(name: string, a: string, m: nat, b: string, n: nat)
    requires Trim(name) != "" && a != "" && b != "" && NewlineFree(a) && NewlineFree(b)
    requires ScopedName(name, a, m) == ScopedName(name, b, n)
    ensures a == b && m == n
  {
    RoundTrip(name, a, m);
    RoundTrip(name, b, n);
  }
}
