/**
  The inline span resolver of the markdown renderer (`parseInlineFormatting`).

  Three global regular expressions, for bold (two asterisks, a lazy
  capture, two asterisks), italic (one asterisk on each side) and code (one
  backtick on each side), are each run over the ORIGINAL text with a
  `while (exec)` loop; every match becomes a candidate. The candidates are pooled (bold
  first, then italic, then code), stably sorted by start offset, and walked
  with a cursor `lastIndex`: a plain gap is emitted only when a candidate
  starts after the cursor, the candidate itself is always emitted, and the
  cursor is then set to the candidate's end, even when that moves it back.
*/
module Inline {
  import opened Optional
  import opened Strings

  datatype Kind = Bold | Italic | Code

  function Delimiter(k: Kind): (d: string)
    ensures 1 <= |d| <= 2
  {
    match k
    case Bold => "**"
    case Italic => "*"
    case Code => "`"
  }

  /** One candidate: the offsets of the whole match in the original text and
      the captured group between the delimiters. */
  datatype Match = Match(start: nat, end: nat, kind: Kind, content: string)

  /** A rendered piece: a plain string, or a `strong`/`em`/`code` element. */
  datatype Part = Plain(text: string) | Styled(kind: Kind, content: string)

  /** The resolver's result: the array of parts, or, when that array is
      empty, the text itself (`result.length > 0 ? result : text`). */
  datatype Inline = Parts(parts: seq<Part>) | Bare(text: string)

  /** The one- or two-character delimiter `d` stands at position `k` of `s`. */
  predicate Occurs(s: string, d: string, k: nat)
    requires 1 <= |d| <= 2
  {
    k + |d| <= |s| && s[k] == d[0] && (|d| == 1 || s[k + 1] == d[1])
  }

  /** What one regular expression accepts as a match of kind `m.kind`: the
      opening and closing delimiters, the captured text between them, no
      line terminator inside (`.` excludes them) and no earlier closing
      delimiter (`.*?` is lazy). */
  predicate WellFormed(s: string, m: Match)
  {
    var d := Delimiter(m.kind);
    && m.start + 2 * |d| <= m.end <= |s|
    && Occurs(s, d, m.start) && Occurs(s, d, m.end - |d|)
    && m.content == s[m.start + |d|..m.end - |d|]
    && forall k :: m.start + |d| <= k < m.end - |d| ==> !IsLineTerminator(s[k]) && !Occurs(s, d, k)
  }

  /** The lazy `(.*?)` followed by the closing delimiter, starting at `q`:
      the first position of a closing delimiter reached before any line
      terminator. */
  function CloseFrom(s: string, d: string, q: nat): (r: Option<nat>)
    requires 1 <= |d| <= 2 && q <= |s|
    ensures r.Some? ==> q <= r.value && Occurs(s, d, r.value)
    ensures r.Some? ==> forall k :: q <= k < r.value ==> !IsLineTerminator(s[k]) && !Occurs(s, d, k)
    decreases |s| - q
  {
    if q + |d| > |s| then None
    else if Occurs(s, d, q) then Some(q)
    else if IsLineTerminator(s[q]) then None
    else CloseFrom(s, d, q + 1)
  }

  /** The regular expression of kind `k` tried at position `p` exactly. */
  function MatchAt(s: string, k: Kind, p: nat): (r: Option<Match>)
    requires p <= |s|
    ensures r.Some? ==> r.value.start == p < r.value.end <= |s| && r.value.kind == k
  {
    var d := Delimiter(k);
    if !Occurs(s, d, p) then None
    else
      match CloseFrom(s, d, p + |d|)
      case None => None
      case Some(c) => Some(Match(p, c + |d|, k, s[p + |d|..c]))
  }

  /** `regex.exec(text)` with the regular expression's `lastIndex` at
      `from`: the match at the first position at or after `from` where one
      exists. */
  function NextMatch(s: string, k: Kind, from: nat): (r: Option<Match>)
    requires from <= |s|
    ensures r.Some? ==> from <= r.value.start < r.value.end <= |s| && r.value.kind == k
    decreases |s| - from
  {
    match MatchAt(s, k, from)
    case Some(m) => Some(m)
    case None => if from == |s| then None else NextMatch(s, k, from + 1)
  }

  /** Everything the `while ((match = regex.exec(text)) !== null)` loop
      records once `lastIndex` stands at `from`: well-formed matches of one
      kind, in order, none overlapping the next. */
  function Scan(s: string, k: Kind, from: nat): (ms: seq<Match>)
    requires from <= |s|
    decreases |s| - from
  {
    match NextMatch(s, k, from)
    case None => []
    case Some(m) => [m] + Scan(s, k, m.end)
  }

  /** The matches of one scan lie inside the text from `lastIndex` on, are
      of the scanned kind, and follow one another without overlapping. */
  lemma {:induction false} ScanOrdered(s: string, k: Kind, from: nat)
    requires from <= |s|
    ensures forall i :: 0 <= i < |Scan(s, k, from)| ==>
      from <= Scan(s, k, from)[i].start < Scan(s, k, from)[i].end <= |s| && Scan(s, k, from)[i].kind == k
    ensures forall i, j :: 0 <= i < j < |Scan(s, k, from)| ==> Scan(s, k, from)[i].end <= Scan(s, k, from)[j].start
    decreases |s| - from
  {
    match NextMatch(s, k, from)
    case None =>
    case Some(m) =>
      ScanOrdered(s, k, m.end);
      assert Scan(s, k, from) == [m] + Scan(s, k, m.end);
      ConsOrdered(m, Scan(s, k, m.end), from, |s|, k);
  }

  /** A match in front of ordered matches that start after it. */
  lemma ConsOrdered(m: Match, rest: seq<Match>, lo: nat, hi: nat, k: Kind)
    requires lo <= m.start < m.end <= hi && m.kind == k
    requires forall i :: 0 <= i < |rest| ==> m.end <= rest[i].start < rest[i].end <= hi && rest[i].kind == k
    requires forall i, j :: 0 <= i < j < |rest| ==> rest[i].end <= rest[j].start
    ensures var ms := [m] + rest;
      && (forall i :: 0 <= i < |ms| ==> lo <= ms[i].start < ms[i].end <= hi && ms[i].kind == k)
      && (forall i, j :: 0 <= i < j < |ms| ==> ms[i].end <= ms[j].start)
  {
    var ms := [m] + rest;
    forall i | 0 <= i < |ms|
      ensures lo <= ms[i].start < ms[i].end <= hi && ms[i].kind == k
    {
      if i > 0 {
        assert ms[i] == rest[i - 1];
      }
    }
    forall i, j | 0 <= i < j < |ms| ensures ms[i].end <= ms[j].start {
      assert ms[j] == rest[j - 1];
      if i > 0 {
        assert ms[i] == rest[i - 1];
      }
    }
  }

  /** The loop of one pattern: `exec` until it returns null, pushing each
      match. */
  method CollectMatches(text: string, k: Kind) returns (found: seq<Match>)
    ensures found == Scan(text, k, 0)
  {
    found := [];
    var lastIndex: nat := 0;
    var m := NextMatch(text, k, lastIndex);
    while m.Some?
      invariant lastIndex <= |text|
      invariant m == NextMatch(text, k, lastIndex)
      invariant found + Scan(text, k, lastIndex) == Scan(text, k, 0)
      decreases |text| - lastIndex
    {
      ScanStep(text, k, lastIndex, found);
      found := found + [m.value];
      lastIndex := m.value.end;
      m := NextMatch(text, k, lastIndex);
    }
  }

  /** One round of the `exec` loop: the match found is recorded and the
      scan resumes at its end. */
  lemma ScanStep(text: string, k: Kind, from: nat, found: seq<Match>)
    requires from <= |text| && NextMatch(text, k, from).Some?
    ensures var v := NextMatch(text, k, from).value;
      from < v.end <= |text|
      && (found + [v]) + Scan(text, k, v.end) == found + Scan(text, k, from)
  {
    var v := NextMatch(text, k, from).value;
    assert Scan(text, k, from) == [v] + Scan(text, k, v.end);
    assert found + ([v] + Scan(text, k, v.end)) == (found + [v]) + Scan(text, k, v.end);
  }

  /** The pooled candidates, in the order the three loops push them. */
  function Candidates(text: string): seq<Match>
  {
    Scan(text, Bold, 0) + Scan(text, Italic, 0) + Scan(text, Code, 0)
  }

  predicate SortedByStart(ms: seq<Match>)
  {
    forall i, j :: 0 <= i < j < |ms| ==> ms[i].start <= ms[j].start
  }

  /** The subsequence of candidates that start at offset `v`. */
  function StartingAt(ms: seq<Match>, v: nat): seq<Match>
  {
    if ms == [] then []
    else (if ms[0].start == v then [ms[0]] else []) + StartingAt(ms[1..], v)
  }

  /** Insert `m` behind every element that starts no later than it. */
  function InsertByStart(sorted: seq<Match>, m: Match): (r: seq<Match>)
    requires SortedByStart(sorted)
    ensures |r| == |sorted| + 1
    ensures forall i :: 0 <= i < |r| ==> r[i] in sorted || r[i] == m
    ensures SortedByStart(r)
  {
    if sorted == [] || sorted[|sorted| - 1].start <= m.start then sorted + [m]
    else
      var front, last := sorted[..|sorted| - 1], sorted[|sorted| - 1];
      assert sorted == front + [last];
      assert forall x :: x in front ==> x.start <= last.start;
      InsertByStart(front, m) + [last]
  }

  /** `replacements.sort((a, b) => a.start - b.start)`, a stable sort by
      start offset, written as an insertion sort over sequences. */
  function SortByStart(ms: seq<Match>): (r: seq<Match>)
    ensures |r| == |ms|
    ensures forall i :: 0 <= i < |r| ==> r[i] in ms
    ensures SortedByStart(r)
  {
    if ms == [] then []
    else
      assert ms == ms[..|ms| - 1] + [ms[|ms| - 1]];
      InsertByStart(SortByStart(ms[..|ms| - 1]), ms[|ms| - 1])
  }

  /** Every candidate lies inside the text. */
  predicate Bounded(text: string, ms: seq<Match>)
  {
    forall i :: 0 <= i < |ms| ==> ms[i].start <= ms[i].end <= |text|
  }

  /** The parts the `forEach` over the sorted candidates pushes once the
      cursor stands at `last`, followed by the remaining text. */
  function WalkFrom(text: string, ms: seq<Match>, last: nat): (parts: seq<Part>)
    requires last <= |text| && Bounded(text, ms)
    ensures |parts| >= |ms|
  {
    if ms == [] then (if last < |text| then [Plain(text[last..])] else [])
    else
      var m := ms[0];
      (if m.start > last then [Plain(text[last..m.start])] else [])
        + [Styled(m.kind, m.content)]
        + WalkFrom(text, ms[1..], m.end)
  }

  lemma ScanBounded(s: string, k: Kind, from: nat)
    requires from <= |s|
    ensures Bounded(s, Scan(s, k, from))
  {
    ScanOrdered(s, k, from);
  }

  lemma BoundedConcat(text: string, a: seq<Match>, b: seq<Match>)
    requires Bounded(text, a) && Bounded(text, b)
    ensures Bounded(text, a + b)
  {
    forall i | 0 <= i < |a + b| ensures (a + b)[i].start <= (a + b)[i].end <= |text| {
      if i >= |a| {
        assert (a + b)[i] == b[i - |a|];
      }
    }
  }

  lemma SortBounded(text: string, ms: seq<Match>)
    requires Bounded(text, ms)
    ensures Bounded(text, SortByStart(ms))
  {
    var sorted := SortByStart(ms);
    forall i | 0 <= i < |sorted| ensures sorted[i].start <= sorted[i].end <= |text| {
      assert sorted[i] in ms;
    }
  }

  lemma CandidatesBounded(text: string)
    ensures Bounded(text, Candidates(text))
    ensures Bounded(text, SortByStart(Candidates(text)))
  {
    var b, i, c := Scan(text, Bold, 0), Scan(text, Italic, 0), Scan(text, Code, 0);
    ScanBounded(text, Bold, 0);
    ScanBounded(text, Italic, 0);
    ScanBounded(text, Code, 0);
    BoundedConcat(text, b, i);
    BoundedConcat(text, b + i, c);
    SortBounded(text, Candidates(text));
  }

  /** The whole resolver as a value. */
  function Resolve(text: string): Inline
  {
    CandidatesBounded(text);
    var parts := WalkFrom(text, SortByStart(Candidates(text)), 0);
    if |parts| > 0 then Parts(parts) else Bare(text)
  }

  lemma BoundedSuffix(text: string, ms: seq<Match>, i: nat)
    requires Bounded(text, ms) && i <= |ms|
    ensures Bounded(text, ms[i..])
  {
    forall j | 0 <= j < |ms[i..]| ensures ms[i..][j].start <= ms[i..][j].end <= |text| {
      assert ms[i..][j] == ms[i + j];
    }
  }

  /** The cursor walk of `parseInlineFormatting` over the sorted candidates. */
  method Assemble(text: string, replacements: seq<Match>) returns (result: seq<Part>)
    requires Bounded(text, replacements)
    ensures result == WalkFrom(text, replacements, 0)
  {
    var lastIndex: nat := 0;
    result := [];
    for i := 0 to |replacements|
      invariant lastIndex <= |text|
      invariant Bounded(text, replacements[i..])
      invariant result + WalkFrom(text, replacements[i..], lastIndex) == WalkFrom(text, replacements, 0)
    {
      var m := replacements[i];
      WalkStep(text, replacements, i, lastIndex, result);
      ghost var before, gap := result, if m.start > lastIndex then [Plain(text[lastIndex..m.start])] else [];
      if m.start > lastIndex {
        result := result + [Plain(text[lastIndex..m.start])];
      }
      assert result == before + gap;
      result := result + [Styled(m.kind, m.content)];
      lastIndex := m.end;
    }
    if lastIndex < |text| {
      result := result + [Plain(text[lastIndex..])];
    }
  }

  /** One round of the `forEach`: the gap before the candidate, if any,
      then the candidate, and the cursor moves to its end. */
  lemma WalkStep(text: string, ms: seq<Match>, i: nat, last: nat, done: seq<Part>)
    requires i < |ms| && last <= |text| && Bounded(text, ms)
    ensures ms[i].end <= |text| && Bounded(text, ms[i + 1..])
    ensures var m := ms[i];
      done + WalkFrom(text, ms[i..], last)
      == done + (if m.start > last then [Plain(text[last..m.start])] else [])
         + [Styled(m.kind, m.content)] + WalkFrom(text, ms[i + 1..], m.end)
  {
    BoundedSuffix(text, ms, i);
    BoundedSuffix(text, ms, i + 1);
    assert ms[i..][1..] == ms[i + 1..];
  }

  /** `parseInlineFormatting`: three scans of the original text, the pooled
      candidates sorted by start, then the cursor walk. */
  method ParseInlineFormatting(text: string) returns (r: Inline)
    ensures r == Resolve(text)
  {
    var bold := CollectMatches(text, Bold);
    var italic := CollectMatches(text, Italic);
    var code := CollectMatches(text, Code);
    CandidatesBounded(text);
    var replacements := SortByStart(bold + italic + code);
    var result := Assemble(text, replacements);
    r := if |result| > 0 then Parts(result) else Bare(text);
  }

  // ---------------------------------------------------------------------
  // What one scan finds

  lemma MatchAtWellFormed(s: string, k: Kind, p: nat)
    requires p <= |s| && MatchAt(s, k, p).Some?
    ensures WellFormed(s, MatchAt(s, k, p).value)
  {
  }

  /** The lazy capture reaches every closing delimiter that no line
      terminator and no earlier delimiter precede. */
  lemma {:induction false} CloseFromFinds(s: string, d: string, q: nat, c: nat)
    requires 1 <= |d| <= 2 && q <= c && Occurs(s, d, c)
    requires forall k :: q <= k < c ==> !IsLineTerminator(s[k]) && !Occurs(s, d, k)
    ensures CloseFrom(s, d, q) == Some(c)
    decreases c - q
  {
    if q < c {
      CloseFromFinds(s, d, q + 1, c);
    }
  }

  /** Every genuine delimited span is what the regular expression of its
      kind matches at its start, so with `MatchAtWellFormed` a match at `p`
      is exactly a well-formed span starting at `p`. */
  lemma MatchAtFinds(s: string, m: Match)
    requires WellFormed(s, m)
    ensures MatchAt(s, m.kind, m.start) == Some(m)
  {
    var d := Delimiter(m.kind);
    CloseFromFinds(s, d, m.start + |d|, m.end - |d|);
  }

  /** `exec` returns the match at the FIRST position from `lastIndex` on
      where the pattern matches. */
  lemma {:induction false} NextMatchIsFirst(s: string, k: Kind, from: nat)
    requires from <= |s| && NextMatch(s, k, from).Some?
    ensures NextMatch(s, k, from) == MatchAt(s, k, NextMatch(s, k, from).value.start)
    ensures forall p :: from <= p < NextMatch(s, k, from).value.start ==> MatchAt(s, k, p).None?
    ensures forall m :: WellFormed(s, m) && m.kind == k && from <= m.start ==>
      NextMatch(s, k, from).value.start <= m.start
    decreases |s| - from
  {
    var r := NextMatch(s, k, from);
    if MatchAt(s, k, from).None? {
      assert from < |s| && r == NextMatch(s, k, from + 1);
      NextMatchIsFirst(s, k, from + 1);
      forall p | from <= p < r.value.start ensures MatchAt(s, k, p).None? {
        if p > from {
          assert from + 1 <= p;
        }
      }
    }
    forall m | WellFormed(s, m) && m.kind == k && from <= m.start
      ensures r.value.start <= m.start
    {
      MatchAtFinds(s, m);
    }
  }

  /** `exec` returns null only when the pattern matches nowhere from
      `lastIndex` on. */
  lemma {:induction false} NextMatchNoneIsNowhere(s: string, k: Kind, from: nat)
    requires from <= |s| && NextMatch(s, k, from).None?
    ensures forall p :: from <= p <= |s| ==> MatchAt(s, k, p).None?
    ensures forall m :: WellFormed(s, m) && m.kind == k ==> m.start < from
    decreases |s| - from
  {
    assert MatchAt(s, k, from).None?;
    if from < |s| {
      assert NextMatch(s, k, from + 1).None?;
      NextMatchNoneIsNowhere(s, k, from + 1);
      forall p | from <= p <= |s| ensures MatchAt(s, k, p).None? {
        if p > from {
          assert from + 1 <= p;
        }
      }
    }
    forall m | WellFormed(s, m) && m.kind == k
      ensures m.start < from
    {
      MatchAtFinds(s, m);
    }
  }

  lemma {:induction false} NextMatchWellFormed(s: string, k: Kind, from: nat)
    requires from <= |s| && NextMatch(s, k, from).Some?
    ensures WellFormed(s, NextMatch(s, k, from).value)
  {
    NextMatchIsFirst(s, k, from);
    MatchAtWellFormed(s, k, NextMatch(s, k, from).value.start);
  }

  /** Every recorded candidate is a genuine delimited span of the text. */
  lemma {:induction false} ScanWellFormed(s: string, k: Kind, from: nat)
    requires from <= |s|
    ensures forall i :: 0 <= i < |Scan(s, k, from)| ==> WellFormed(s, Scan(s, k, from)[i])
    decreases |s| - from
  {
    var r := NextMatch(s, k, from);
    if r.Some? {
      NextMatchWellFormed(s, k, from);
      ScanWellFormed(s, k, r.value.end);
      assert Scan(s, k, from) == [r.value] + Scan(s, k, r.value.end);
    }
  }

  /** Conversely, one loop misses a genuine span of its kind only when the
      span starts strictly inside a match recorded before it, because
      `lastIndex` jumps to that match's end. */
  lemma {:induction false} ScanFinds(s: string, k: Kind, from: nat, m: Match)
    requires from <= |s| && WellFormed(s, m) && m.kind == k && from <= m.start
    ensures m in Scan(s, k, from)
      || exists i :: 0 <= i < |Scan(s, k, from)| && Scan(s, k, from)[i].start < m.start < Scan(s, k, from)[i].end
    decreases |s| - from
  {
    var r := NextMatch(s, k, from);
    if r.None? {
      NextMatchNoneIsNowhere(s, k, from);
      assert false;
    } else {
      var ms := Scan(s, k, from);
      assert ms == [r.value] + Scan(s, k, r.value.end);
      NextMatchIsFirst(s, k, from);
      if m.start == r.value.start {
        MatchAtFinds(s, m);
        assert ms[0] == m;
      } else if m.start < r.value.end {
        assert ms[0].start < m.start < ms[0].end;
      } else {
        ScanFinds(s, k, r.value.end, m);
        var rest := Scan(s, k, r.value.end);
        if m !in rest {
          var i :| 0 <= i < |rest| && rest[i].start < m.start < rest[i].end;
          assert ms[i + 1] == rest[i];
        }
      }
    }
  }

  /** A candidate needs an opening and a closing delimiter, so a scan that
      records anything has seen the delimiter's character twice. */
  lemma ScanNeedsTwoDelimiters(s: string, k: Kind)
    requires Scan(s, k, 0) != []
    ensures exists i, j :: 0 <= i < j < |s| && s[i] == Delimiter(k)[0] && s[j] == Delimiter(k)[0]
  {
    ScanWellFormed(s, k, 0);
    var m := Scan(s, k, 0)[0];
    var d := Delimiter(k);
    assert WellFormed(s, m);
    assert s[m.start] == d[0] && s[m.end - |d|] == d[0];
  }

  // ---------------------------------------------------------------------
  // The sort

  lemma {:induction false} StartingAtConcat(a: seq<Match>, b: seq<Match>, v: nat)
    ensures StartingAt(a + b, v) == StartingAt(a, v) + StartingAt(b, v)
  {
    if a == [] {
      assert a + b == b;
    } else {
      assert (a + b)[0] == a[0];
      assert (a + b)[1..] == a[1..] + b;
      StartingAtConcat(a[1..], b, v);
    }
  }

  lemma {:induction false} InsertByStartAt(sorted: seq<Match>, m: Match, v: nat)
    requires SortedByStart(sorted)
    ensures StartingAt(InsertByStart(sorted, m), v)
      == StartingAt(sorted, v) + (if m.start == v then [m] else [])
  {
    if sorted == [] || sorted[|sorted| - 1].start <= m.start {
      StartingAtConcat(sorted, [m], v);
    } else {
      var front, last := sorted[..|sorted| - 1], sorted[|sorted| - 1];
      assert sorted == front + [last];
      InsertByStartAt(front, m, v);
      StartingAtConcat(InsertByStart(front, m), [last], v);
      StartingAtConcat(front, [last], v);
    }
  }

  /** The sort is stable: for every start offset, the candidates starting
      there keep the order they were pushed in. */
  lemma {:induction false} SortByStartStable(ms: seq<Match>, v: nat)
    ensures StartingAt(SortByStart(ms), v) == StartingAt(ms, v)
  {
    if ms != [] {
      var front, last := ms[..|ms| - 1], ms[|ms| - 1];
      assert ms == front + [last];
      SortByStartStable(front, v);
      InsertByStartAt(SortByStart(front), last, v);
      StartingAtConcat(front, [last], v);
    }
  }

  /** Sorting a list that is already in order changes nothing. */
  lemma {:induction false} SortByStartSorted(ms: seq<Match>)
    requires SortedByStart(ms)
    ensures SortByStart(ms) == ms
  {
    if ms != [] {
      var front := ms[..|ms| - 1];
      assert SortedByStart(front);
      SortByStartSorted(front);
    }
  }

  lemma {:induction false} StartingAtNone(ms: seq<Match>, v: nat)
    requires forall i :: 0 <= i < |ms| ==> ms[i].start != v
    ensures StartingAt(ms, v) == []
  {
    if ms != [] {
      StartingAtNone(ms[1..], v);
    }
  }

  lemma {:induction false} StartingAtOfScan(s: string, k: Kind, from: nat, v: nat)
    requires from <= |s|
    ensures |StartingAt(Scan(s, k, from), v)| <= 1
    decreases |s| - from
  {
    var ms := Scan(s, k, from);
    if ms != [] {
      var m := ms[0];
      assert ms[1..] == Scan(s, k, m.end);
      ScanOrdered(s, k, from);
      ScanOrdered(s, k, m.end);
      if m.start == v {
        StartingAtNone(ms[1..], v);
      } else {
        StartingAtOfScan(s, k, m.end, v);
      }
    }
  }

  /** Ties in the sort: among the candidates that start at the same offset
      there is at most one of each kind, and they come bold, italic, code. */
  lemma TiesKeepScanOrder(text: string, v: nat)
    ensures StartingAt(SortByStart(Candidates(text)), v)
      == StartingAt(Scan(text, Bold, 0), v) + StartingAt(Scan(text, Italic, 0), v)
         + StartingAt(Scan(text, Code, 0), v)
    ensures |StartingAt(Scan(text, Bold, 0), v)| <= 1
    ensures |StartingAt(Scan(text, Italic, 0), v)| <= 1
    ensures |StartingAt(Scan(text, Code, 0), v)| <= 1
  {
    var b, i, c := Scan(text, Bold, 0), Scan(text, Italic, 0), Scan(text, Code, 0);
    SortByStartStable(Candidates(text), v);
    StartingAtConcat(b + i, c, v);
    StartingAtConcat(b, i, v);
    StartingAtOfScan(text, Bold, 0, v);
    StartingAtOfScan(text, Italic, 0, v);
    StartingAtOfScan(text, Code, 0, v);
  }

  // ---------------------------------------------------------------------
  // Properties of the resolver

  /** The source text of a list of parts, delimiters put back. */
  function Source(parts: seq<Part>): string
  {
    if parts == [] then []
    else
      (match parts[0]
       case Plain(t) => t
       case Styled(k, c) => Delimiter(k) + c + Delimiter(k))
      + Source(parts[1..])
  }

  function Unparse(r: Inline): string
  {
    match r
    case Parts(ps) => Source(ps)
    case Bare(t) => t
  }

  lemma {:induction false} SourceConcat(a: seq<Part>, b: seq<Part>)
    ensures Source(a + b) == Source(a) + Source(b)
  {
    if a == [] {
      assert a + b == b;
    } else {
      assert (a + b)[1..] == a[1..] + b;
      SourceConcat(a[1..], b);
    }
  }

  predicate NoEmptyPlain(parts: seq<Part>)
  {
    forall i :: 0 <= i < |parts| && parts[i].Plain? ==> parts[i].text != []
  }

  /** A plain gap is pushed only when a candidate starts after the cursor,
      and the tail only when text remains: no plain part is ever empty. */
  lemma {:induction false} WalkPlainNonEmpty(text: string, ms: seq<Match>, last: nat)
    requires last <= |text| && Bounded(text, ms)
    ensures NoEmptyPlain(WalkFrom(text, ms, last))
  {
    if ms != [] {
      var m := ms[0];
      var gap := if m.start > last then [Plain(text[last..m.start])] else [];
      var rest := WalkFrom(text, ms[1..], m.end);
      assert WalkFrom(text, ms, last) == gap + [Styled(m.kind, m.content)] + rest;
      assert Bounded(text, ms[1..]);
      WalkPlainNonEmpty(text, ms[1..], m.end);
      assert NoEmptyPlain(gap) by {
        if gap != [] {
          assert |text[last..m.start]| == m.start - last > 0;
        }
      }
      assert NoEmptyPlain([Styled(m.kind, m.content)]);
      NoEmptyPlainConcat(gap, [Styled(m.kind, m.content)]);
      NoEmptyPlainConcat(gap + [Styled(m.kind, m.content)], rest);
    }
  }

  lemma NoEmptyPlainConcat(a: seq<Part>, b: seq<Part>)
    requires NoEmptyPlain(a) && NoEmptyPlain(b)
    ensures NoEmptyPlain(a + b)
  {
    forall i | 0 <= i < |a + b| && (a + b)[i].Plain? ensures (a + b)[i].text != [] {
      if i >= |a| {
        assert (a + b)[i] == b[i - |a|];
      }
    }
  }

  /** Only the empty text comes back as the text itself rather than an array. */
  lemma BareOnlyForEmpty(text: string)
    ensures Resolve(text).Bare? <==> text == []
  {
    if text == [] {
      assert Scan(text, Bold, 0) == [] && Scan(text, Italic, 0) == [] && Scan(text, Code, 0) == [];
    }
  }

  predicate AtMostOnce(s: string, c: char)
  {
    forall i, j :: 0 <= i < j < |s| && s[i] == c ==> s[j] != c
  }

  /** An unterminated delimiter records no candidate: a text with at most
      one asterisk and at most one backtick comes back as one plain part
      (or as itself when empty). */
  lemma UnpairedDelimitersStayPlain(text: string)
    requires AtMostOnce(text, '*') && AtMostOnce(text, '`')
    ensures Resolve(text) == if text == [] then Bare(text) else Parts([Plain(text)])
  {
    if Scan(text, Bold, 0) != [] { ScanNeedsTwoDelimiters(text, Bold); }
    if Scan(text, Italic, 0) != [] { ScanNeedsTwoDelimiters(text, Italic); }
    if Scan(text, Code, 0) != [] { ScanNeedsTwoDelimiters(text, Code); }
    assert Candidates(text) == [];
    assert text[0..] == text;
  }

  /** Text without any `*` or backtick is returned unchanged. */
  lemma PlainTextUnchanged(text: string)
    requires '*' !in text && '`' !in text
    ensures Resolve(text) == if text == [] then Bare(text) else Parts([Plain(text)])
  {
    UnpairedDelimitersStayPlain(text);
  }

  /** The candidate, delimiters put back, spells out the text it spans. */
  predicate Covers(text: string, m: Match)
  {
    var d := Delimiter(m.kind);
    m.start <= m.end <= |text| && d + m.content + d == text[m.start..m.end]
  }

  lemma OccursSlice(s: string, d: string, k: nat)
    requires 1 <= |d| <= 2 && Occurs(s, d, k)
    ensures s[k..k + |d|] == d
  {
    if |d| == 1 {
      assert s[k..k + 1] == [s[k]];
    } else {
      assert s[k..k + 2] == [s[k], s[k + 1]];
    }
  }

  lemma WellFormedCovers(text: string, m: Match)
    requires WellFormed(text, m)
    ensures Covers(text, m)
  {
    var d := Delimiter(m.kind);
    OccursSlice(text, d, m.start);
    OccursSlice(text, d, m.end - |d|);
    SliceSplit3(text, m.start, m.start + |d|, m.end - |d|, m.end);
  }

  /** The candidates ahead of the cursor `last` form a chain: each spells
      out the text it spans, none starts before the cursor, and each ends
      before the next starts. */
  predicate Chain(text: string, ms: seq<Match>, last: nat)
  {
    && (forall i :: 0 <= i < |ms| ==> Covers(text, ms[i]) && last <= ms[i].start)
    && (forall i, j :: 0 <= i < j < |ms| ==> ms[i].end <= ms[j].start)
  }

  lemma ChainTail(text: string, ms: seq<Match>, last: nat)
    requires ms != [] && Chain(text, ms, last)
    ensures Chain(text, ms[1..], ms[0].end)
  {
    forall i | 0 <= i < |ms[1..]|
      ensures Covers(text, ms[1..][i]) && ms[0].end <= ms[1..][i].start
    {
      assert ms[1..][i] == ms[i + 1];
    }
  }

  lemma SourceOfThree(a: seq<Part>, b: seq<Part>, c: seq<Part>)
    ensures Source(a + b + c) == Source(a) + Source(b) + Source(c)
  {
    SourceConcat(a + b, c);
    SourceConcat(a, b);
  }

  /** A chain of candidates ahead of the cursor: the walk puts back exactly
      the rest of the text. */
  lemma {:induction false} WalkReassembles(text: string, ms: seq<Match>, last: nat)
    requires last <= |text| && Bounded(text, ms) && Chain(text, ms, last)
    ensures Source(WalkFrom(text, ms, last)) == text[last..]
  {
    if ms != [] {
      var m := ms[0];
      var gap := if m.start > last then [Plain(text[last..m.start])] else [];
      var styled := [Styled(m.kind, m.content)];
      var rest := WalkFrom(text, ms[1..], m.end);
      assert WalkFrom(text, ms, last) == gap + styled + rest;
      assert Covers(text, m);
      ChainTail(text, ms, last);
      WalkReassembles(text, ms[1..], m.end);
      ReassembleOne(text, last, m, rest);
    }
  }

  /** A gap, one candidate and a reassembled rest put back the text from the
      cursor on. */
  lemma ReassembleOne(text: string, last: nat, m: Match, rest: seq<Part>)
    requires last <= m.start && Covers(text, m) && Source(rest) == text[m.end..]
    ensures Source((if m.start > last then [Plain(text[last..m.start])] else [])
      + [Styled(m.kind, m.content)] + rest) == text[last..]
  {
    var gap := if m.start > last then [Plain(text[last..m.start])] else [];
    var styled := [Styled(m.kind, m.content)];
    SourceOfThree(gap, styled, rest);
    assert Source(styled) == Delimiter(m.kind) + m.content + Delimiter(m.kind);
    GapSource(text, last, m.start);
    SuffixSplit(text, last, m.start);
    SuffixSplit(text, m.start, m.end);
  }

  lemma GapSource(text: string, last: nat, start: nat)
    requires last <= start <= |text|
    ensures Source(if start > last then [Plain(text[last..start])] else []) == text[last..start]
  {
  }

  /** Round trip when every candidate is code (no asterisk at all): the
      parts, with their delimiters put back, spell out the text again. */
  lemma CodeOnlyRoundTrip(text: string)
    requires '*' !in text
    ensures Unparse(Resolve(text)) == text
  {
    if Scan(text, Bold, 0) != [] { ScanNeedsTwoDelimiters(text, Bold); }
    if Scan(text, Italic, 0) != [] { ScanNeedsTwoDelimiters(text, Italic); }
    var code := Scan(text, Code, 0);
    assert Candidates(text) == code;
    ScanOrdered(text, Code, 0);
    SortByStartSorted(code);
    ScanWellFormed(text, Code, 0);
    forall i | 0 <= i < |code| ensures Covers(text, code[i]) {
      WellFormedCovers(text, code[i]);
    }
    assert Chain(text, code, 0);
    WalkReassembles(text, code, 0);
  }

  /** The candidates of `**x**`: one bold span and two empty italics. */
  lemma BoldCandidates()
    ensures SortByStart(Candidates("**x**"))
      == [Match(0, 5, Bold, "x"), Match(0, 2, Italic, ""), Match(3, 5, Italic, "")]
  {
    var t := "**x**";
    assert CloseFrom(t, "**", 3) == Some(3);
    assert CloseFrom(t, "**", 2) == Some(3);
    assert t[2..3] == "x" && t[1..1] == "" && t[4..4] == "";
    assert MatchAt(t, Bold, 0) == Some(Match(0, 5, Bold, "x"));
    assert Scan(t, Bold, 0) == [Match(0, 5, Bold, "x")];
    assert MatchAt(t, Italic, 0) == Some(Match(0, 2, Italic, ""));
    assert MatchAt(t, Italic, 2).None?;
    assert MatchAt(t, Italic, 3) == Some(Match(3, 5, Italic, ""));
    assert Scan(t, Italic, 0) == [Match(0, 2, Italic, ""), Match(3, 5, Italic, "")];
    assert Scan(t, Code, 0) == [];
    var ms := [Match(0, 5, Bold, "x"), Match(0, 2, Italic, ""), Match(3, 5, Italic, "")];
    assert Candidates(t) == ms;
    SortByStartSorted(ms);
  }

  lemma BoldWalk()
    ensures var ms := [Match(0, 5, Bold, "x"), Match(0, 2, Italic, ""), Match(3, 5, Italic, "")];
      Bounded("**x**", ms)
      && WalkFrom("**x**", ms, 0)
         == [Styled(Bold, "x"), Styled(Italic, ""), Plain("x"), Styled(Italic, "")]
  {
    var t := "**x**";
    var ms := [Match(0, 5, Bold, "x"), Match(0, 2, Italic, ""), Match(3, 5, Italic, "")];
    assert Bounded(t, ms[1..]) && Bounded(t, ms[2..]) && Bounded(t, ms[3..]);
    assert WalkFrom(t, ms[3..], 5) == [];
    assert t[2..3] == "x";
    assert WalkFrom(t, ms[2..], 2) == [Plain("x"), Styled(Italic, "")];
    assert WalkFrom(t, ms[1..], 5) == [Styled(Italic, ""), Plain("x"), Styled(Italic, "")];
    assert WalkFrom(t, ms, 0) == [] + [Styled(Bold, "x")] + WalkFrom(t, ms[1..], 5);
  }

  /** Bold text is shown twice: the two asterisk pairs also give two empty
      italic candidates, and the cursor, set back by the first of them,
      lets the bolded word through again as plain text. */
  lemma BoldShownTwice()
    ensures Resolve("**x**")
      == Parts([Styled(Bold, "x"), Styled(Italic, ""), Plain("x"), Styled(Italic, "")])
  {
    BoldCandidates();
    BoldWalk();
  }
}
