/**
  The analysis preprocessor of the results view (`formatChatGPTAnalysis`).

  Eight global replacements run one after the other, each over the
  previous one's output. Each is modelled by a scanner that decides, at
  one position, whether its regular expression matches there and what
  replaces the match; `Replace` then copies the text left to right,
  substituting every match and resuming after it, as a global `replace`
  does. None of the patterns can match the empty string, and none of them
  leaves the engine a choice: every `\d+` and `\s*` is followed by a
  character it cannot match, or by nothing, so the longest run is the only
  one, and the alternatives of each name list cannot both match at one
  position. The `/i` flag compares ASCII letters without regard to case.
*/
module Analysis {
  import opened Optional
  import opened Strings

  /** The eight replacements, in the order they are applied. */
  datatype Rule =
    | SectionHeadings     // /(\d+\.\s*)(PRIMARY DIAGNOSIS|...):/gi -> '\n## $2\n\n'
    | SubsectionHeadings  // /(-\s*)(Compressor Failure|...)/gi -> '\n### $2\n\n'
    | Likelihood          // /\((\d+%\s*likelihood)\)/gi -> ' **($1)**'
    | ToolNames           // /(multimeter|...)/gi -> '`$1`'
    | SafetyWords         // /(Always|...)/gi -> '**$1**'
    | RepairTimes         // /(\d+-\d+\s*hours?)/gi -> '**$1**'
    | BulletBreaks        // /\.\s*-\s*/g -> '.\n\n- '
    | NumberBreaks        // /\.\s*\d+\./g -> '.\n\n$&'

  /** One match: the number of characters it covers and its replacement,
      written as the replacement templates are: a fixed text, the part of
      the text from `start` to `end` (the group the template names, or the
      whole match for `$&`; empty when it names none), and another fixed
      text. */
  datatype Hit = Hit(len: nat, pre: string, start: nat, end: nat, post: string)

  /** A match at `p` is non-empty and inside the text, and its group lies
      inside the match. */
  predicate HitFits(s: string, p: nat, h: Hit)
  {
    0 < h.len && p + h.len <= |s| && p <= h.start <= h.end <= p + h.len
  }

  /** The text that replaces a match. */
  function Out(s: string, h: Hit): string
    requires h.start <= h.end <= |s|
  {
    h.pre + s[h.start..h.end] + h.post
  }

  const SectionNames: seq<string> :=
    ["PRIMARY DIAGNOSIS", "ROOT CAUSES", "IMMEDIATE ACTIONS", "SAFETY WARNINGS", "REPAIR ESTIMATE"]
  const SubsectionNames: seq<string> :=
    ["Compressor Failure", "Refrigerant Leak", "Electrical Issues", "Fan Motor", "Control Board"]
  const Tools: seq<string> := ["multimeter", "manifold gauge", "leak detector", "ohmmeter"]
  const SafetyTerms: seq<string> := ["Always", "Never", "Caution", "Warning", "Important"]

  // ---------------------------------------------------------------------
  // Alternatives

  /** Alternative `n` matches at `q`, followed by ':' when `colon` holds. */
  predicate Accepts(s: string, q: nat, n: string, colon: bool)
  {
    MatchesAt(s, q, n) && (colon ==> q + |n| < |s| && s[q + |n|] == ':')
  }

  /** The first alternative that matches at `q` (with what must follow it),
      as a regular expression tries them. */
  function FirstName(s: string, q: nat, names: seq<string>, colon: bool): (r: Option<string>)
    ensures r.Some? ==> Accepts(s, q, r.value, colon)
  {
    if names == [] then None
    else if Accepts(s, q, names[0], colon) then Some(names[0])
    else FirstName(s, q, names[1..], colon)
  }

  /** What is found is one of the alternatives. */
  lemma {:induction false} FirstNameIn(s: string, q: nat, names: seq<string>, colon: bool)
    ensures FirstName(s, q, names, colon).Some? ==> FirstName(s, q, names, colon).value in names
  {
    if names != [] && !Accepts(s, q, names[0], colon) {
      FirstNameIn(s, q, names[1..], colon);
    }
  }

  /** When no alternative is found, none matches. */
  lemma {:induction false} FirstNameNone(s: string, q: nat, names: seq<string>, colon: bool)
    requires FirstName(s, q, names, colon).None?
    ensures forall n :: n in names ==> !Accepts(s, q, n, colon)
  {
    if names != [] {
      FirstNameNone(s, q, names[1..], colon);
    }
  }

  /** When no alternative matches, none is found. */
  lemma {:induction false} FirstNameAbsent(s: string, q: nat, names: seq<string>, colon: bool)
    requires forall n :: n in names ==> !Accepts(s, q, n, colon)
    ensures FirstName(s, q, names, colon).None?
  {
    if names != [] {
      assert names[0] in names;
      FirstNameAbsent(s, q, names[1..], colon);
    }
  }

  /** `a` and `b` disagree, ignoring case, at some position both have. */
  predicate Clash(a: string, b: string)
  {
    a != [] && b != [] && (Upper(a[0]) != Upper(b[0]) || Clash(a[1..], b[1..]))
  }

  /** No two alternatives can match at the same position. */
  predicate PrefixFree(names: seq<string>)
  {
    forall i, j :: 0 <= i < j < |names| ==> Clash(names[i], names[j])
  }

  /** Every alternative starts with an ASCII letter. */
  predicate LetterFirst(names: seq<string>)
  {
    forall i :: 0 <= i < |names| ==> names[i] != [] && 'A' <= Upper(names[i][0]) <= 'Z'
  }

  /** Two names that differ, ignoring case, at position `k` clash. */
  lemma {:induction false} ClashAt(a: string, b: string, k: nat)
    requires k < |a| && k < |b| && Upper(a[k]) != Upper(b[k])
    ensures Clash(a, b)
    decreases k
  {
    if Upper(a[0]) == Upper(b[0]) {
      assert a[1..][k - 1] == a[k] && b[1..][k - 1] == b[k];
      ClashAt(a[1..], b[1..], k - 1);
    }
  }

  lemma SectionNamesWellFormed()
    ensures PrefixFree(SectionNames) && LetterFirst(SectionNames)
  {
    var ns := SectionNames;
    forall i, j | 0 <= i < j < |ns| ensures Clash(ns[i], ns[j]) {
      if i == 1 && j == 4 {
        ClashAt(ns[i], ns[j], 1);
      } else {
        ClashAt(ns[i], ns[j], 0);
      }
    }
  }

  lemma SubsectionNamesWellFormed()
    ensures PrefixFree(SubsectionNames) && LetterFirst(SubsectionNames)
  {
    var ns := SubsectionNames;
    forall i, j | 0 <= i < j < |ns| ensures Clash(ns[i], ns[j]) {
      if i == 0 && j == 4 {
        ClashAt(ns[i], ns[j], 2);
      } else {
        ClashAt(ns[i], ns[j], 0);
      }
    }
  }

  lemma ToolsWellFormed()
    ensures PrefixFree(Tools) && LetterFirst(Tools)
  {
    var ns := Tools;
    forall i, j | 0 <= i < j < |ns| ensures Clash(ns[i], ns[j]) {
      if i == 0 && j == 1 {
        ClashAt(ns[i], ns[j], 1);
      } else {
        ClashAt(ns[i], ns[j], 0);
      }
    }
  }

  lemma SafetyTermsWellFormed()
    ensures PrefixFree(SafetyTerms) && LetterFirst(SafetyTerms)
  {
    var ns := SafetyTerms;
    forall i, j | 0 <= i < j < |ns| ensures Clash(ns[i], ns[j]) {
      ClashAt(ns[i], ns[j], 0);
    }
  }

  /** Two clashing alternatives never match at one position. */
  lemma {:induction false} ClashExcludes(s: string, q: nat, a: string, b: string)
    requires Clash(a, b) && MatchesAt(s, q, a)
    ensures !MatchesAt(s, q, b)
    decreases |a|
  {
    assert Upper(s[q + 0]) == Upper(a[0]);
    if Upper(a[0]) == Upper(b[0]) {
      assert MatchesAt(s, q + 1, a[1..]) by {
        forall i | 0 <= i < |a[1..]| ensures Upper(s[q + 1 + i]) == Upper(a[1..][i]) {
          assert Upper(s[q + (i + 1)]) == Upper(a[i + 1]);
        }
      }
      ClashExcludes(s, q + 1, a[1..], b[1..]);
      if MatchesAt(s, q, b) {
        assert MatchesAt(s, q + 1, b[1..]) by {
          forall i | 0 <= i < |b[1..]| ensures Upper(s[q + 1 + i]) == Upper(b[1..][i]) {
            assert Upper(s[q + (i + 1)]) == Upper(b[i + 1]);
          }
        }
        assert false;
      }
    }
  }

  /** In a prefix-free list, the alternative that matches is the one found. */
  lemma FirstNameUnique(s: string, q: nat, names: seq<string>, colon: bool, n: string)
    requires PrefixFree(names) && n in names && Accepts(s, q, n, colon)
    ensures FirstName(s, q, names, colon) == Some(n)
  {
    var r := FirstName(s, q, names, colon);
    if r.None? {
      FirstNameNone(s, q, names, colon);
    }
    FirstNameIn(s, q, names, colon);
    var m := r.value;
    if m != n {
      var i :| 0 <= i < |names| && names[i] == m;
      var j :| 0 <= j < |names| && names[j] == n;
      if i < j {
        ClashExcludes(s, q, m, n);
      } else {
        ClashExcludes(s, q, n, m);
      }
    }
  }

  /** An alternative that starts with a letter cannot start on whitespace
      or a digit. */
  lemma NameStartsOnLetter(s: string, q: nat, names: seq<string>, n: string)
    requires LetterFirst(names) && n in names && MatchesAt(s, q, n)
    ensures q < |s| && !IsSpace(s[q]) && !IsDigit(s[q])
  {
    assert Upper(s[q + 0]) == Upper(n[0]);
    LetterIsNotSpace(s[q]);
  }

  // ---------------------------------------------------------------------
  // The scanners

  /** `(\d+\.\s*)(PRIMARY DIAGNOSIS|...):` at `p`. */
  function SectionAt(s: string, p: nat): (h: Option<Hit>)
    requires p <= |s|
    ensures h.Some? ==> HitFits(s, p, h.value)
  {
    var d := DigitRun(s, p);
    if d == 0 || p + d == |s| || s[p + d] != '.' then None
    else
      var q := p + d + 1 + SpaceRun(s, p + d + 1);
      var n := FirstName(s, q, SectionNames, true);
      if n.None? then None
      else Some(Hit(q + |n.value| + 1 - p, "\n## ", q, q + |n.value|, "\n\n"))
  }

  /** `(-\s*)(Compressor Failure|...)` at `p`. */
  function SubsectionAt(s: string, p: nat): (h: Option<Hit>)
    requires p <= |s|
    ensures h.Some? ==> HitFits(s, p, h.value)
  {
    if p == |s| || s[p] != '-' then None
    else
      var q := p + 1 + SpaceRun(s, p + 1);
      match FirstName(s, q, SubsectionNames, false)
      case None => None
      case Some(n) => Some(Hit(q + |n| - p, "\n### ", q, q + |n|, "\n\n"))
  }

  /** `\((\d+%\s*likelihood)\)` at `p`. */
  function LikelihoodAt(s: string, p: nat): (h: Option<Hit>)
    requires p <= |s|
    ensures h.Some? ==> HitFits(s, p, h.value)
  {
    if p == |s| || s[p] != '(' then None
    else
      var d := DigitRun(s, p + 1);
      var e := p + 1 + d;
      if d == 0 || e == |s| || s[e] != '%' then None
      else
        var q := e + 1 + SpaceRun(s, e + 1);
        if MatchesAt(s, q, "likelihood") && q + 10 < |s| && s[q + 10] == ')' then
          Some(Hit(q + 11 - p, " **(", p + 1, q + 10, ")**"))
        else None
  }

  /** One of `names` at `p`, wrapped in `mark` on both sides. */
  function WrapAt(s: string, p: nat, names: seq<string>, mark: string): (h: Option<Hit>)
    requires p <= |s|
    requires LetterFirst(names)
    ensures h.Some? ==> HitFits(s, p, h.value)
  {
    FirstNameIn(s, p, names, false);
    match FirstName(s, p, names, false)
    case None => None
    case Some(n) => Some(Hit(|n|, mark, p, p + |n|, mark))
  }

  /** Whether a matched `hour` is followed by the optional `s`. */
  function PluralEnd(s: string, q: nat): (e: nat)
    requires q + 4 <= |s|
    ensures e == q + 4 || e == q + 5
    ensures e <= |s|
    ensures e == q + 5 <==> q + 4 < |s| && Upper(s[q + 4]) == 'S'
  {
    if q + 4 < |s| && Upper(s[q + 4]) == 'S' then q + 5 else q + 4
  }

  /** `(\d+-\d+\s*hours?)` at `p`. */
  function HoursAt(s: string, p: nat): (h: Option<Hit>)
    requires p <= |s|
    ensures h.Some? ==> HitFits(s, p, h.value)
  {
    var d1 := DigitRun(s, p);
    if d1 == 0 || p + d1 == |s| || s[p + d1] != '-' then None
    else
      var d2 := DigitRun(s, p + d1 + 1);
      if d2 == 0 then None
      else
        var q := p + d1 + 1 + d2 + SpaceRun(s, p + d1 + 1 + d2);
        if !MatchesAt(s, q, "hour") then None
        else
          var e := PluralEnd(s, q);
          Some(Hit(e - p, "**", p, e, "**"))
  }

  /** `\.\s*-\s*` at `p`. */
  function BulletBreakAt(s: string, p: nat): (h: Option<Hit>)
    requires p <= |s|
    ensures h.Some? ==> HitFits(s, p, h.value)
  {
    if p == |s| || s[p] != '.' then None
    else
      var q := p + 1 + SpaceRun(s, p + 1);
      if q == |s| || s[q] != '-' then None
      else Some(Hit(q + 1 + SpaceRun(s, q + 1) - p, ".\n\n- ", p, p, ""))
  }

  /** `\.\s*\d+\.` at `p`; the replacement keeps the whole match after a
      new period and a blank line. */
  function NumberBreakAt(s: string, p: nat): (h: Option<Hit>)
    requires p <= |s|
    ensures h.Some? ==> HitFits(s, p, h.value)
  {
    if p == |s| || s[p] != '.' then None
    else
      var q := p + 1 + SpaceRun(s, p + 1);
      var d := DigitRun(s, q);
      if d == 0 || q + d == |s| || s[q + d] != '.' then None
      else Some(Hit(q + d + 1 - p, ".\n\n", p, q + d + 1, ""))
  }

  function HitAt(r: Rule, s: string, p: nat): (h: Option<Hit>)
    requires p <= |s|
    ensures h.Some? ==> HitFits(s, p, h.value)
  {
    ToolsWellFormed();
    SafetyTermsWellFormed();
    match r
    case SectionHeadings => SectionAt(s, p)
    case SubsectionHeadings => SubsectionAt(s, p)
    case Likelihood => LikelihoodAt(s, p)
    case ToolNames => WrapAt(s, p, Tools, "`")
    case SafetyWords => WrapAt(s, p, SafetyTerms, "**")
    case RepairTimes => HoursAt(s, p)
    case BulletBreaks => BulletBreakAt(s, p)
    case NumberBreaks => NumberBreakAt(s, p)
  }

  // ---------------------------------------------------------------------
  // Global replacement and the pipeline

  /** Whether `r` matches at each position of `s`, and with what. */
  function Hits(r: Rule, s: string): (hits: seq<Option<Hit>>)
    ensures Fits(s, hits)
  {
    seq(|s|, k requires 0 <= k < |s| => HitAt(r, s, k))
  }

  /** One entry per position, each match non-empty and inside the text. */
  predicate Fits(s: string, hits: seq<Option<Hit>>)
  {
    && |hits| == |s|
    && forall k :: 0 <= k < |s| && hits[k].Some? ==> HitFits(s, k, hits[k].value)
  }

  /** A global `replace` from position `p` on: a match is replaced and the
      scan resumes after it; elsewhere the character is copied. */
  function ReplaceFrom(s: string, hits: seq<Option<Hit>>, p: nat): string
    requires Fits(s, hits) && p <= |s|
    decreases |s| - p
  {
    if p == |s| then []
    else match hits[p]
      case Some(h) => Out(s, h) + ReplaceFrom(s, hits, p + h.len)
      case None => [s[p]] + ReplaceFrom(s, hits, p + 1)
  }

  function Replace(r: Rule, s: string): string
  {
    ReplaceFrom(s, Hits(r, s), 0)
  }

  /** `formatChatGPTAnalysis(analysis)`: absent or empty analysis becomes
      the empty string. */
  function FormatAnalysis(analysis: Option<string>): (r: string)
    ensures analysis.None? || analysis.value == [] ==> r == ""
  {
    if analysis.None? || analysis.value == [] then ""
    else
      var formatted := analysis.value;
      var formatted := Replace(SectionHeadings, formatted);
      var formatted := Replace(SubsectionHeadings, formatted);
      var formatted := Replace(Likelihood, formatted);
      var formatted := Replace(ToolNames, formatted);
      var formatted := Replace(SafetyWords, formatted);
      var formatted := Replace(RepairTimes, formatted);
      var formatted := Replace(BulletBreaks, formatted);
      Replace(NumberBreaks, formatted)
  }

  // ---------------------------------------------------------------------
  // What the rewrites leave alone

  /** The characters a rewrite may insert or drop (`Some(r)`), or any of
      them may (`None`). */
  predicate Markup(m: Option<Rule>, c: char)
  {
    match m
    case None => IsSpace(c) || IsDigit(c) || c in ".:#-*`"
    case Some(r) =>
      match r
      case SectionHeadings => IsSpace(c) || IsDigit(c) || c == '.' || c == ':' || c == '#'
      case SubsectionHeadings => IsSpace(c) || c == '-' || c == '#'
      case Likelihood => IsSpace(c) || c == '*'
      case ToolNames => c == '`'
      case SafetyWords => c == '*'
      case RepairTimes => c == '*'
      case BulletBreaks => IsSpace(c)
      case NumberBreaks => IsSpace(c) || c == '.'
  }

  /** The markup test of `m`, as a value. */
  function Marks(m: Option<Rule>): char -> bool
  {
    c => Markup(m, c)
  }

  /** `s` with the characters `drop` selects removed. */
  function Stripped(drop: char -> bool, s: string): string
  {
    if s == [] then [] else (if drop(s[0]) then [] else [s[0]]) + Stripped(drop, s[1..])
  }

  lemma {:induction false} StrippedConcat(drop: char -> bool, a: string, b: string)
    ensures Stripped(drop, a + b) == Stripped(drop, a) + Stripped(drop, b)
  {
    if a == [] {
      assert a + b == b;
    } else {
      StrippedConcat(drop, a[1..], b);
      assert (a + b)[0] == a[0];
      assert (a + b)[1..] == a[1..] + b;
      var head := if drop(a[0]) then [] else [a[0]];
      Assoc(head, Stripped(drop, a[1..]), Stripped(drop, b));
    }
  }

  lemma {:induction false} StrippedMarkupOnly(drop: char -> bool, a: string)
    requires forall i :: 0 <= i < |a| ==> drop(a[i])
    ensures Stripped(drop, a) == []
  {
    if a != [] {
      StrippedMarkupOnly(drop, a[1..]);
    }
  }

  /** Removing one rule's markup and then all markup removes all markup. */
  lemma {:induction false} StrippedTwice(r: Rule, s: string)
    ensures Stripped(Marks(None), Stripped(Marks(Some(r)), s)) == Stripped(Marks(None), s)
  {
    if s != [] {
      StrippedTwice(r, s[1..]);
      var head := if Marks(Some(r))(s[0]) then [] else [s[0]];
      StrippedConcat(Marks(None), head, Stripped(Marks(Some(r)), s[1..]));
    }
  }

  /** Replacing the frame around a kept middle by one with the same
      unmarked content keeps the unmarked content of the whole. */
  lemma Reframe(drop: char -> bool, pre: string, mid: string, post: string, pre': string, post': string)
    requires Stripped(drop, pre) == Stripped(drop, pre')
    requires Stripped(drop, post) == Stripped(drop, post')
    ensures Stripped(drop, pre + mid + post) == Stripped(drop, pre' + mid + post')
  {
    StrippedConcat(drop, pre, mid);
    StrippedConcat(drop, pre + mid, post);
    StrippedConcat(drop, pre', mid);
    StrippedConcat(drop, pre' + mid, post');
  }

  lemma SectionFrames()
    ensures Stripped(Marks(Some(SectionHeadings)), "\n## ") == []
    ensures Stripped(Marks(Some(SectionHeadings)), "\n\n") == []
    ensures Stripped(Marks(Some(SectionHeadings)), ":") == []
  {
  }

  /** Markup throughout a slice strips to nothing. */
  lemma StrippedSlice(drop: char -> bool, s: string, i: nat, j: nat)
    requires i <= j <= |s|
    requires forall k :: i <= k < j ==> drop(s[k])
    ensures Stripped(drop, s[i..j]) == []
  {
    assert forall k :: 0 <= k < j - i ==> s[i..j][k] == s[i + k];
    StrippedMarkupOnly(drop, s[i..j]);
  }

  /** A section heading match is digits, a period and whitespace, then the
      name, then a colon. */
  lemma SectionShape(s: string, p: nat) returns (q: nat, name: string)
    requires p <= |s| && SectionAt(s, p).Some?
    ensures var h := SectionAt(s, p).value;
      && p + h.len <= |s| && p <= q && q + |name| + 1 == p + h.len
      && s[p..p + h.len] == s[p..q] + name + ":" && Out(s, h) == "\n## " + name + "\n\n"
      && forall k :: p <= k < q ==> IsDigit(s[k]) || s[k] == '.' || IsSpace(s[k])
  {
    var e, n;
    e, q, n := SectionParts(s, p);
    SectionAtFinds(s, p, e, q, n);
    name := s[q..q + |n|];
    SectionSpan(s, p, q, q + |n|);
  }

  /** What comes before `q`, the name up to `m`, and the colon at `m`. */
  lemma SectionSpan(s: string, p: nat, q: nat, m: nat)
    requires p <= q <= m < |s| && s[m] == ':'
    ensures s[p..m + 1] == s[p..q] + s[q..m] + ":"
  {
    assert s[m..m + 1] == ":";
    SliceSplit3(s, p, q, m, m + 1);
  }

  lemma SectionKeepsText(s: string, p: nat)
    requires p <= |s| && SectionAt(s, p).Some?
    ensures var h := SectionAt(s, p).value;
      Stripped(Marks(Some(SectionHeadings)), Out(s, h)) == Stripped(Marks(Some(SectionHeadings)), s[p..p + h.len])
  {
    var m := Marks(Some(SectionHeadings));
    var q, name := SectionShape(s, p);
    StrippedSlice(m, s, p, q);
    SectionFrames();
    Reframe(m, "\n## ", name, "\n\n", s[p..q], ":");
  }

  lemma SubsectionFrames()
    ensures Stripped(Marks(Some(SubsectionHeadings)), "\n### ") == []
    ensures Stripped(Marks(Some(SubsectionHeadings)), "\n\n") == []
    ensures Stripped(Marks(Some(SubsectionHeadings)), "") == []
  {
  }

  /** A subsection heading match is a dash and whitespace, then the name. */
  lemma SubsectionShape(s: string, p: nat) returns (q: nat, name: string)
    requires p <= |s| && SubsectionAt(s, p).Some?
    ensures var h := SubsectionAt(s, p).value;
      && p + h.len <= |s| && p <= q && q + |name| == p + h.len
      && s[p..p + h.len] == s[p..q] + name + "" && Out(s, h) == "\n### " + name + "\n\n"
      && forall k :: p <= k < q ==> s[k] == '-' || IsSpace(s[k])
  {
    var n;
    q, n := SubsectionParts(s, p);
    SubsectionAtFinds(s, p, q, n);
    name := s[q..q + |n|];
    assert s[p..q + |n|] == s[p..q] + name + "";
  }

  lemma SubsectionKeepsText(s: string, p: nat)
    requires p <= |s| && SubsectionAt(s, p).Some?
    ensures var h := SubsectionAt(s, p).value;
      Stripped(Marks(Some(SubsectionHeadings)), Out(s, h)) == Stripped(Marks(Some(SubsectionHeadings)), s[p..p + h.len])
  {
    var m := Marks(Some(SubsectionHeadings));
    var q, name := SubsectionShape(s, p);
    StrippedSlice(m, s, p, q);
    SubsectionFrames();
    Reframe(m, "\n### ", name, "\n\n", s[p..q], "");
  }

  lemma LikelihoodFrames()
    ensures Stripped(Marks(Some(Likelihood)), " **(") == "("
    ensures Stripped(Marks(Some(Likelihood)), ")**") == ")"
    ensures Stripped(Marks(Some(Likelihood)), "(") == "("
    ensures Stripped(Marks(Some(Likelihood)), ")") == ")"
  {
  }

  /** A likelihood match is the group between its parentheses. */
  lemma LikelihoodShape(s: string, p: nat) returns (inner: string)
    requires p <= |s| && LikelihoodAt(s, p).Some?
    ensures var h := LikelihoodAt(s, p).value;
      && s[p..p + h.len] == "(" + inner + ")" && Out(s, h) == " **(" + inner + ")**"
  {
    var e, q := LikelihoodParts(s, p);
    LikelihoodAtFinds(s, p, e, q);
    inner := s[p + 1..q + 10];
    assert s[p..q + 11] == [s[p]] + inner + [s[q + 10]];
  }

  lemma LikelihoodKeepsText(s: string, p: nat)
    requires p <= |s| && LikelihoodAt(s, p).Some?
    ensures var h := LikelihoodAt(s, p).value;
      Stripped(Marks(Some(Likelihood)), Out(s, h)) == Stripped(Marks(Some(Likelihood)), s[p..p + h.len])
  {
    var inner := LikelihoodShape(s, p);
    LikelihoodFrames();
    Reframe(Marks(Some(Likelihood)), " **(", inner, ")**", "(", ")");
  }

  lemma WrapKeepsText(s: string, p: nat, names: seq<string>, mark: string, r: Rule)
    requires p <= |s| && LetterFirst(names) && WrapAt(s, p, names, mark).Some?
    requires Stripped(Marks(Some(r)), mark) == []
    ensures var h := WrapAt(s, p, names, mark).value;
      Stripped(Marks(Some(r)), Out(s, h)) == Stripped(Marks(Some(r)), s[p..p + h.len])
  {
    var n := FirstName(s, p, names, false).value;
    var word := s[p..p + |n|];
    assert word == "" + word + "";
    Reframe(Marks(Some(r)), mark, word, mark, "", "");
  }

  lemma StarFrames()
    ensures Stripped(Marks(Some(RepairTimes)), "**") == []
    ensures Stripped(Marks(Some(SafetyWords)), "**") == []
    ensures Stripped(Marks(Some(ToolNames)), "`") == []
  {
  }

  /** A repair time is put in bold as it stands. */
  lemma HoursHit(s: string, p: nat)
    requires p <= |s| && HoursAt(s, p).Some?
    ensures var h := HoursAt(s, p).value; h.pre == "**" && h.post == "**" && h.start == p && h.end == p + h.len
  {
  }

  lemma HoursKeepsText(s: string, p: nat)
    requires p <= |s| && HoursAt(s, p).Some?
    ensures var h := HoursAt(s, p).value;
      Stripped(Marks(Some(RepairTimes)), Out(s, h)) == Stripped(Marks(Some(RepairTimes)), s[p..p + h.len])
  {
    HoursHit(s, p);
    StarFrames();
    FrameKeepsText(Marks(Some(RepairTimes)), s, HoursAt(s, p).value, "**");
  }

  /** Putting the same markup on both sides of a span keeps its content. */
  lemma FrameKeepsText(drop: char -> bool, s: string, h: Hit, mark: string)
    requires h.start <= h.end <= |s| && h.pre == mark && h.post == mark
    requires Stripped(drop, mark) == []
    ensures Stripped(drop, Out(s, h)) == Stripped(drop, s[h.start..h.end])
  {
    var span := s[h.start..h.end];
    assert span == "" + span + "";
    Reframe(drop, mark, span, mark, "", "");
  }

  lemma BulletFrames()
    ensures Stripped(Marks(Some(BulletBreaks)), ".\n\n- ") == ".-"
    ensures !Marks(Some(BulletBreaks))('.') && !Marks(Some(BulletBreaks))('-')
  {
  }

  /** Two kept characters, each followed by markup only. */
  lemma StrippedAround(drop: char -> bool, x: char, a: string, y: char, b: string)
    requires !drop(x) && !drop(y)
    requires forall i :: 0 <= i < |a| ==> drop(a[i])
    requires forall i :: 0 <= i < |b| ==> drop(b[i])
    ensures Stripped(drop, [x] + a + [y] + b) == [x, y]
  {
    StrippedMarkupOnly(drop, a);
    StrippedMarkupOnly(drop, b);
    StrippedConcat4(drop, [x], a, [y], b);
    assert Stripped(drop, [x]) == [x];
    assert Stripped(drop, [y]) == [y];
  }

  lemma StrippedConcat4(drop: char -> bool, w: string, x: string, y: string, z: string)
    ensures Stripped(drop, w + x + y + z) == Stripped(drop, w) + Stripped(drop, x) + Stripped(drop, y) + Stripped(drop, z)
  {
    StrippedConcat(drop, w, x);
    StrippedConcat(drop, w + x, y);
    StrippedConcat(drop, w + x + y, z);
  }

  /** Whitespace throughout a slice. */
  lemma AllSpaceSlice(s: string, i: nat, j: nat)
    requires i <= j <= |s| && forall k :: i <= k < j ==> IsSpace(s[k])
    ensures AllSpace(s[i..j])
  {
    forall k | 0 <= k < j - i ensures IsSpace(s[i..j][k]) {
      assert s[i..j][k] == s[i + k];
    }
  }

  /** A period, whitespace, a dash and whitespace, between `p` and `e`. */
  lemma BulletSpan(s: string, p: nat, q: nat, e: nat)
    requires p < q < e <= |s| && s[p] == '.' && s[q] == '-'
    requires forall k :: p + 1 <= k < q ==> IsSpace(s[k])
    requires forall k :: q + 1 <= k < e ==> IsSpace(s[k])
    ensures s[p..e] == "." + s[p + 1..q] + "-" + s[q + 1..e]
    ensures AllSpace(s[p + 1..q]) && AllSpace(s[q + 1..e])
  {
    AllSpaceSlice(s, p + 1, q);
    AllSpaceSlice(s, q + 1, e);
    assert s[p..p + 1] == "." && s[q..q + 1] == "-";
    SliceSplit4(s, p, p + 1, q, q + 1, e);
  }

  /** A bullet break is a period, whitespace, a dash and whitespace. */
  lemma BulletShape(s: string, p: nat) returns (a: string, b: string)
    requires p <= |s| && BulletBreakAt(s, p).Some?
    ensures var h := BulletBreakAt(s, p).value;
      && s[p..p + h.len] == "." + a + "-" + b && AllSpace(a) && AllSpace(b)
      && Out(s, h) == ".\n\n- "
  {
    var q, e := BulletBreakParts(s, p);
    BulletBreakAtFinds(s, p, q, e);
    BulletSpan(s, p, q, e);
    a, b := s[p + 1..q], s[q + 1..e];
  }

  lemma SpacesAreBreakMarkup(a: string)
    requires AllSpace(a)
    ensures forall i :: 0 <= i < |a| ==> Marks(Some(BulletBreaks))(a[i])
  {
  }

  lemma BulletBreakKeepsText(s: string, p: nat)
    requires p <= |s| && BulletBreakAt(s, p).Some?
    ensures var h := BulletBreakAt(s, p).value;
      Stripped(Marks(Some(BulletBreaks)), Out(s, h)) == Stripped(Marks(Some(BulletBreaks)), s[p..p + h.len])
  {
    var a, b := BulletShape(s, p);
    SpacesAreBreakMarkup(a);
    SpacesAreBreakMarkup(b);
    BulletFrames();
    StrippedAround(Marks(Some(BulletBreaks)), '.', a, '-', b);
  }

  lemma NumberBreakKeepsText(s: string, p: nat)
    requires p <= |s| && NumberBreakAt(s, p).Some?
    ensures var h := NumberBreakAt(s, p).value;
      Stripped(Marks(Some(NumberBreaks)), Out(s, h)) == Stripped(Marks(Some(NumberBreaks)), s[p..p + h.len])
  {
    var h := NumberBreakAt(s, p).value;
    assert Out(s, h) == ".\n\n" + s[p..p + h.len];
    assert Stripped(Marks(Some(NumberBreaks)), ".\n\n") == [];
    StrippedConcat(Marks(Some(NumberBreaks)), ".\n\n", s[p..p + h.len]);
  }

  /** A single replacement only inserts or drops its rule's markup. */
  lemma HitKeepsText(r: Rule, s: string, p: nat)
    requires p <= |s| && HitAt(r, s, p).Some?
    ensures var h := HitAt(r, s, p).value;
      Stripped(Marks(Some(r)), Out(s, h)) == Stripped(Marks(Some(r)), s[p..p + h.len])
  {
    if r == SectionHeadings || r == SubsectionHeadings {
      HeadingHitKeepsText(r, s, p);
    } else if r == Likelihood || r == RepairTimes {
      EmphasisHitKeepsText(r, s, p);
    } else if r == ToolNames || r == SafetyWords {
      WordHitKeepsText(r, s, p);
    } else {
      BreakHitKeepsText(r, s, p);
    }
  }

  lemma HeadingHitKeepsText(r: Rule, s: string, p: nat)
    requires r == SectionHeadings || r == SubsectionHeadings
    requires p <= |s| && HitAt(r, s, p).Some?
    ensures var h := HitAt(r, s, p).value;
      Stripped(Marks(Some(r)), Out(s, h)) == Stripped(Marks(Some(r)), s[p..p + h.len])
  {
    if r == SectionHeadings {
      SectionKeepsText(s, p);
    } else {
      SubsectionKeepsText(s, p);
    }
  }

  lemma EmphasisHitKeepsText(r: Rule, s: string, p: nat)
    requires r == Likelihood || r == RepairTimes
    requires p <= |s| && HitAt(r, s, p).Some?
    ensures var h := HitAt(r, s, p).value;
      Stripped(Marks(Some(r)), Out(s, h)) == Stripped(Marks(Some(r)), s[p..p + h.len])
  {
    if r == Likelihood {
      LikelihoodKeepsText(s, p);
    } else {
      HoursKeepsText(s, p);
    }
  }

  lemma WordHitKeepsText(r: Rule, s: string, p: nat)
    requires r == ToolNames || r == SafetyWords
    requires p <= |s| && HitAt(r, s, p).Some?
    ensures var h := HitAt(r, s, p).value;
      Stripped(Marks(Some(r)), Out(s, h)) == Stripped(Marks(Some(r)), s[p..p + h.len])
  {
    StarFrames();
    if r == ToolNames {
      ToolsWellFormed();
      WrapKeepsText(s, p, Tools, "`", r);
    } else {
      SafetyTermsWellFormed();
      WrapKeepsText(s, p, SafetyTerms, "**", r);
    }
  }

  lemma BreakHitKeepsText(r: Rule, s: string, p: nat)
    requires r == BulletBreaks || r == NumberBreaks
    requires p <= |s| && HitAt(r, s, p).Some?
    ensures var h := HitAt(r, s, p).value;
      Stripped(Marks(Some(r)), Out(s, h)) == Stripped(Marks(Some(r)), s[p..p + h.len])
  {
    if r == BulletBreaks {
      BulletBreakKeepsText(s, p);
    } else {
      NumberBreakKeepsText(s, p);
    }
  }

  /** One step of a scan keeps the unmarked content when the emitted piece
      and the rest both do. */
  lemma StepKeepsText(drop: char -> bool, whole: string, out: string, rest: string, src: string, span: string, tail: string)
    requires whole == out + rest && src == span + tail
    requires Stripped(drop, out) == Stripped(drop, span)
    requires Stripped(drop, rest) == Stripped(drop, tail)
    ensures Stripped(drop, whole) == Stripped(drop, src)
  {
    StrippedConcat(drop, out, rest);
    StrippedConcat(drop, span, tail);
  }

  /** The match at `k`, if any, replaces its span by one with the same
      unmarked content. */
  predicate KeptAt(drop: char -> bool, s: string, hits: seq<Option<Hit>>, k: nat)
    requires Fits(s, hits) && k < |s|
  {
    hits[k].Some? ==> Stripped(drop, Out(s, hits[k].value)) == Stripped(drop, s[k..k + hits[k].value.len])
  }

  /** Every match does. */
  predicate HitsKeepText(drop: char -> bool, s: string, hits: seq<Option<Hit>>)
    requires Fits(s, hits)
  {
    forall k :: 0 <= k < |s| ==> KeptAt(drop, s, hits, k)
  }

  lemma HitKept(drop: char -> bool, s: string, hits: seq<Option<Hit>>, k: nat)
    requires Fits(s, hits) && HitsKeepText(drop, s, hits) && k < |s| && hits[k].Some?
    ensures Stripped(drop, Out(s, hits[k].value)) == Stripped(drop, s[k..k + hits[k].value.len])
  {
    assert KeptAt(drop, s, hits, k);
  }

  /** Then the global replacement only inserts or drops markup: every other
      character of the text survives, in order. */
  lemma {:induction false} ReplaceFromKeepsText(drop: char -> bool, s: string, hits: seq<Option<Hit>>, p: nat)
    requires Fits(s, hits) && p <= |s| && HitsKeepText(drop, s, hits)
    ensures Stripped(drop, ReplaceFrom(s, hits, p)) == Stripped(drop, s[p..])
    decreases |s| - p
  {
    if p < |s| {
      if hits[p].Some? {
        ReplaceFromKeepsText(drop, s, hits, p + hits[p].value.len);
        HitKept(drop, s, hits, p);
        HitStepKeepsText(drop, s, hits, p);
      } else {
        ReplaceFromKeepsText(drop, s, hits, p + 1);
        CopyStepKeepsText(drop, s, hits, p);
      }
    }
  }

  /** A replaced match, then the rest. */
  lemma HitStepKeepsText(drop: char -> bool, s: string, hits: seq<Option<Hit>>, p: nat)
    requires Fits(s, hits) && p < |s| && hits[p].Some?
    requires Stripped(drop, Out(s, hits[p].value)) == Stripped(drop, s[p..p + hits[p].value.len])
    requires Stripped(drop, ReplaceFrom(s, hits, p + hits[p].value.len)) == Stripped(drop, s[p + hits[p].value.len..])
    ensures Stripped(drop, ReplaceFrom(s, hits, p)) == Stripped(drop, s[p..])
  {
    var h := hits[p].value;
    SuffixSplit(s, p, p + h.len);
    ReplaceFromHit(s, hits, p);
    StrippedConcat(drop, Out(s, h), ReplaceFrom(s, hits, p + h.len));
    StrippedConcat(drop, s[p..p + h.len], s[p + h.len..]);
  }

  /** At a match the scan emits the replacement and jumps over the match. */
  lemma ReplaceFromHit(s: string, hits: seq<Option<Hit>>, p: nat)
    requires Fits(s, hits) && p < |s| && hits[p].Some?
    ensures ReplaceFrom(s, hits, p) == Out(s, hits[p].value) + ReplaceFrom(s, hits, p + hits[p].value.len)
  {
  }

  /** A copied character, then the rest. */
  lemma CopyStepKeepsText(drop: char -> bool, s: string, hits: seq<Option<Hit>>, p: nat)
    requires Fits(s, hits) && p < |s| && hits[p].None?
    requires Stripped(drop, ReplaceFrom(s, hits, p + 1)) == Stripped(drop, s[p + 1..])
    ensures Stripped(drop, ReplaceFrom(s, hits, p)) == Stripped(drop, s[p..])
  {
    SuffixCons(s, p);
    assert ReplaceFrom(s, hits, p) == [s[p]] + ReplaceFrom(s, hits, p + 1);
    StepKeepsText(drop, ReplaceFrom(s, hits, p), [s[p]], ReplaceFrom(s, hits, p + 1),
      s[p..], [s[p]], s[p + 1..]);
  }

  lemma ReplaceKeepsText(r: Rule, s: string)
    ensures Stripped(Marks(None), Replace(r, s)) == Stripped(Marks(None), s)
  {
    var hits := Hits(r, s);
    forall k | 0 <= k < |s| ensures KeptAt(Marks(Some(r)), s, hits, k) {
      if hits[k].Some? {
        HitKeepsText(r, s, k);
      }
    }
    ReplaceFromKeepsText(Marks(Some(r)), s, hits, 0);
    assert s[0..] == s;
    StrippedTwice(r, Replace(r, s));
    StrippedTwice(r, s);
  }

  /** The whole chain only inserts or drops whitespace, digits and the
      characters `.:#-*` and backtick: the words of the analysis survive, in
      order. */
  lemma FormatKeepsText(s: string)
    ensures Stripped(Marks(None), FormatAnalysis(Some(s))) == Stripped(Marks(None), s)
  {
    if s != [] {
      var f1 := Replace(SectionHeadings, s);
      var f2 := Replace(SubsectionHeadings, f1);
      var f3 := Replace(Likelihood, f2);
      var f4 := Replace(ToolNames, f3);
      var f5 := Replace(SafetyWords, f4);
      var f6 := Replace(RepairTimes, f5);
      var f7 := Replace(BulletBreaks, f6);
      ReplaceKeepsText(SectionHeadings, s);
      ReplaceKeepsText(SubsectionHeadings, f1);
      ReplaceKeepsText(Likelihood, f2);
      ReplaceKeepsText(ToolNames, f3);
      ReplaceKeepsText(SafetyWords, f4);
      ReplaceKeepsText(RepairTimes, f5);
      ReplaceKeepsText(BulletBreaks, f6);
      ReplaceKeepsText(NumberBreaks, f7);
    }
  }

  /** Text that no rule matches anywhere comes back unchanged. */
  lemma FormatNoMatchUnchanged(s: string)
    requires forall r: Rule, k :: 0 <= k < |s| ==> HitAt(r, s, k).None?
    ensures FormatAnalysis(Some(s)) == s
  {
    forall r: Rule ensures Replace(r, s) == s {
      CopiesWithoutHits(s, Hits(r, s), 0, |s|);
      assert s[0..|s|] == s;
    }
  }

  // ---------------------------------------------------------------------
  // Each scanner finds exactly what its regular expression matches

  predicate DigitsBetween(s: string, i: nat, j: nat)
  {
    i <= j <= |s| && forall k :: i <= k < j ==> IsDigit(s[k])
  }

  predicate SpacesBetween(s: string, i: nat, j: nat)
  {
    i <= j <= |s| && forall k :: i <= k < j ==> IsSpace(s[k])
  }

  /** `(\d+\.\s*)(NAME):` matches at `p`: digits up to `e`, a period,
      whitespace up to `q`, the name `n` and a colon. */
  predicate SectionMatch(s: string, p: nat, e: nat, q: nat, n: string)
  {
    && p < e < |s| && DigitsBetween(s, p, e) && s[e] == '.'
    && SpacesBetween(s, e + 1, q) && n in SectionNames && Accepts(s, q, n, true)
  }

  /** Every such match is found, the number, the colon and the whitespace are
      dropped and the name keeps the spelling of the text. */
  lemma SectionAtFinds(s: string, p: nat, e: nat, q: nat, n: string)
    requires SectionMatch(s, p, e, q, n)
    ensures SectionAt(s, p) == Some(Hit(q + |n| + 1 - p, "\n## ", q, q + |n|, "\n\n"))
  {
    SectionRuns(s, p, e, q, n);
    SectionAtFrom(s, p, e, q, n);
  }

  /** The scanner's steps once the digit run, the whitespace run and the
      name are known. */
  lemma SectionAtFrom(s: string, p: nat, e: nat, q: nat, n: string)
    requires p < e < |s| && s[e] == '.' && e + 1 <= q <= |s|
    requires DigitRun(s, p) == e - p && SpaceRun(s, e + 1) == q - e - 1
    requires FirstName(s, q, SectionNames, true) == Some(n)
    ensures SectionAt(s, p) == Some(Hit(q + |n| + 1 - p, "\n## ", q, q + |n|, "\n\n"))
  {
  }

  lemma SectionRuns(s: string, p: nat, e: nat, q: nat, n: string)
    requires SectionMatch(s, p, e, q, n)
    ensures DigitRun(s, p) == e - p && SpaceRun(s, e + 1) == q - e - 1
    ensures FirstName(s, q, SectionNames, true) == Some(n)
  {
    assert FirstName(s, q, SectionNames, true) == Some(n) by {
      SectionNamesWellFormed();
      FirstNameUnique(s, q, SectionNames, true, n);
    }
    assert q < |s| && !IsSpace(s[q]) by {
      SectionNamesWellFormed();
      NameStartsOnLetter(s, q, SectionNames, n);
    }
    DigitRunExact(s, p, e - p);
    SpaceRunExact(s, e + 1, q - e - 1);
  }

  /** And nothing else is. */
  lemma SectionAtMatches(s: string, p: nat)
    requires p <= |s| && SectionAt(s, p).Some?
    ensures exists e, q, n :: SectionMatch(s, p, e, q, n)
  {
    var e, q, n := SectionParts(s, p);
  }

  /** The parts of the match the scanner found. */
  lemma SectionParts(s: string, p: nat) returns (e: nat, q: nat, n: string)
    requires p <= |s| && SectionAt(s, p).Some?
    ensures SectionMatch(s, p, e, q, n)
  {
    e := p + DigitRun(s, p);
    q := e + 1 + SpaceRun(s, e + 1);
    n := FirstName(s, q, SectionNames, true).value;
    assert DigitsBetween(s, p, e) by { DigitRunDigits(s, p); }
    assert SpacesBetween(s, e + 1, q) by { SpaceRunSpaces(s, e + 1); }
    assert n in SectionNames && Accepts(s, q, n, true) by { FirstNameIn(s, q, SectionNames, true); }
  }

  /** `(-\s*)(NAME)` matches at `p`. */
  predicate SubsectionMatch(s: string, p: nat, q: nat, n: string)
  {
    && p < |s| && s[p] == '-' && SpacesBetween(s, p + 1, q)
    && n in SubsectionNames && MatchesAt(s, q, n)
  }

  lemma SubsectionAtFinds(s: string, p: nat, q: nat, n: string)
    requires SubsectionMatch(s, p, q, n)
    ensures SubsectionAt(s, p) == Some(Hit(q + |n| - p, "\n### ", q, q + |n|, "\n\n"))
  {
    assert FirstName(s, q, SubsectionNames, false) == Some(n) by {
      SubsectionNamesWellFormed();
      FirstNameUnique(s, q, SubsectionNames, false, n);
    }
    assert SpaceRun(s, p + 1) == q - p - 1 by {
      SubsectionNamesWellFormed();
      NameStartsOnLetter(s, q, SubsectionNames, n);
      SpaceRunExact(s, p + 1, q - p - 1);
    }
  }

  lemma SubsectionAtMatches(s: string, p: nat)
    requires p <= |s| && SubsectionAt(s, p).Some?
    ensures exists q, n :: SubsectionMatch(s, p, q, n)
  {
    var q, n := SubsectionParts(s, p);
  }

  lemma SubsectionParts(s: string, p: nat) returns (q: nat, n: string)
    requires p <= |s| && SubsectionAt(s, p).Some?
    ensures SubsectionMatch(s, p, q, n)
  {
    q := p + 1 + SpaceRun(s, p + 1);
    n := FirstName(s, q, SubsectionNames, false).value;
    assert SpacesBetween(s, p + 1, q) by { SpaceRunSpaces(s, p + 1); }
    assert n in SubsectionNames by { FirstNameIn(s, q, SubsectionNames, false); }
  }

  /** `\((\d+%\s*likelihood)\)` matches at `p`: digits up to `e`, a percent
      sign, whitespace up to `q`, then `likelihood)`. */
  predicate LikelihoodMatch(s: string, p: nat, e: nat, q: nat)
  {
    && p < |s| && s[p] == '(' && p + 1 < e < |s| && DigitsBetween(s, p + 1, e) && s[e] == '%'
    && SpacesBetween(s, e + 1, q) && MatchesAt(s, q, "likelihood") && q + 10 < |s| && s[q + 10] == ')'
  }

  /** The replacement puts a space in front and the parentheses inside the
      bold markers. */
  lemma LikelihoodAtFinds(s: string, p: nat, e: nat, q: nat)
    requires LikelihoodMatch(s, p, e, q)
    ensures LikelihoodAt(s, p) == Some(Hit(q + 11 - p, " **(", p + 1, q + 10, ")**"))
  {
    assert !IsSpace(s[q]) by {
      assert Upper(s[q + 0]) == Upper("likelihood"[0]);
      LetterIsNotSpace(s[q]);
    }
    DigitRunExact(s, p + 1, e - p - 1);
    SpaceRunExact(s, e + 1, q - e - 1);
  }

  lemma LikelihoodAtMatches(s: string, p: nat)
    requires p <= |s| && LikelihoodAt(s, p).Some?
    ensures exists e, q :: LikelihoodMatch(s, p, e, q)
  {
    var e, q := LikelihoodParts(s, p);
  }

  lemma LikelihoodParts(s: string, p: nat) returns (e: nat, q: nat)
    requires p <= |s| && LikelihoodAt(s, p).Some?
    ensures LikelihoodMatch(s, p, e, q)
  {
    e := p + 1 + DigitRun(s, p + 1);
    q := e + 1 + SpaceRun(s, e + 1);
    assert DigitsBetween(s, p + 1, e) by { DigitRunDigits(s, p + 1); }
    assert SpacesBetween(s, e + 1, q) by { SpaceRunSpaces(s, e + 1); }
  }

  /** One of `names` occurs at `p`, whatever surrounds it. */
  predicate WordMatch(s: string, p: nat, names: seq<string>, n: string)
  {
    n in names && MatchesAt(s, p, n)
  }

  /** Every occurrence is wrapped, also one inside a longer word. */
  lemma WrapAtFinds(s: string, p: nat, names: seq<string>, mark: string, n: string)
    requires PrefixFree(names) && LetterFirst(names)
    requires WordMatch(s, p, names, n)
    ensures WrapAt(s, p, names, mark) == Some(Hit(|n|, mark, p, p + |n|, mark))
  {
    FirstNameUnique(s, p, names, false, n);
  }

  lemma WrapAtMatches(s: string, p: nat, names: seq<string>, mark: string)
    requires p <= |s| && LetterFirst(names) && WrapAt(s, p, names, mark).Some?
    ensures exists n :: WordMatch(s, p, names, n)
  {
    FirstNameIn(s, p, names, false);
    assert WordMatch(s, p, names, FirstName(s, p, names, false).value);
  }

  /** `(\d+-\d+\s*hours?)` matches at `p`: digits up to `e1`, a dash,
      digits up to `e2`, whitespace up to `q`, then `hour`. */
  predicate HoursMatch(s: string, p: nat, e1: nat, e2: nat, q: nat)
  {
    && p < e1 < |s| && DigitsBetween(s, p, e1) && s[e1] == '-'
    && e1 + 1 < e2 && DigitsBetween(s, e1 + 1, e2)
    && SpacesBetween(s, e2, q) && MatchesAt(s, q, "hour")
  }

  /** The whole estimate, with the plural `s` when there is one, is put in
      bold. */
  lemma HoursAtFinds(s: string, p: nat, e1: nat, e2: nat, q: nat)
    requires HoursMatch(s, p, e1, e2, q)
    ensures HoursAt(s, p) == Some(Hit(PluralEnd(s, q) - p, "**", p, PluralEnd(s, q), "**"))
  {
    HoursRuns(s, p, e1, e2, q);
    HoursAtFrom(s, p, e1, e2, q);
  }

  /** The scanner follows the runs it measures. */
  lemma HoursAtFrom(s: string, p: nat, e1: nat, e2: nat, q: nat)
    requires p < e1 && e1 + 1 < e2 <= q <= |s| && s[e1] == '-' && MatchesAt(s, q, "hour")
    requires DigitRun(s, p) == e1 - p && DigitRun(s, e1 + 1) == e2 - e1 - 1 && SpaceRun(s, e2) == q - e2
    ensures HoursAt(s, p) == Some(Hit(PluralEnd(s, q) - p, "**", p, PluralEnd(s, q), "**"))
  {
  }

  lemma HoursRuns(s: string, p: nat, e1: nat, e2: nat, q: nat)
    requires HoursMatch(s, p, e1, e2, q)
    ensures DigitRun(s, p) == e1 - p && DigitRun(s, e1 + 1) == e2 - e1 - 1 && SpaceRun(s, e2) == q - e2
  {
    HourRun(s, e2, q);
    DigitRunExact(s, p, e1 - p);
    DigitRunExact(s, e1 + 1, e2 - e1 - 1);
  }

  /** The whitespace before `hour` is the whole run, and it does not start
      with a digit. */
  lemma HourRun(s: string, e: nat, q: nat)
    requires SpacesBetween(s, e, q) && MatchesAt(s, q, "hour")
    ensures e < |s| && !IsDigit(s[e]) && SpaceRun(s, e) == q - e
  {
    assert !IsSpace(s[q]) && !IsDigit(s[q]) by {
      assert Upper(s[q + 0]) == Upper("hour"[0]);
      LetterIsNotSpace(s[q]);
    }
    assert !IsDigit(s[e]) by {
      if q == e {
        assert !IsDigit(s[q]);
      } else {
        assert IsSpace(s[e]);
      }
    }
    SpaceRunExact(s, e, q - e);
  }

  lemma HoursAtMatches(s: string, p: nat)
    requires p <= |s| && HoursAt(s, p).Some?
    ensures exists e1, e2, q :: HoursMatch(s, p, e1, e2, q)
  {
    var e1, e2, q := HoursParts(s, p);
  }

  lemma HoursParts(s: string, p: nat) returns (e1: nat, e2: nat, q: nat)
    requires p <= |s| && HoursAt(s, p).Some?
    ensures HoursMatch(s, p, e1, e2, q)
  {
    e1 := p + DigitRun(s, p);
    e2 := e1 + 1 + DigitRun(s, e1 + 1);
    q := e2 + SpaceRun(s, e2);
    assert DigitsBetween(s, p, e1) by { DigitRunDigits(s, p); }
    assert DigitsBetween(s, e1 + 1, e2) by { DigitRunDigits(s, e1 + 1); }
    assert SpacesBetween(s, e2, q) by { SpaceRunSpaces(s, e2); }
  }

  /** `\.\s*-\s*` matches at `p`, the trailing whitespace as far as it goes. */
  predicate BulletBreakMatch(s: string, p: nat, q: nat, e: nat)
  {
    && p < |s| && s[p] == '.' && SpacesBetween(s, p + 1, q) && q < |s| && s[q] == '-'
    && SpacesBetween(s, q + 1, e) && (e == |s| || !IsSpace(s[e]))
  }

  lemma BulletBreakAtFinds(s: string, p: nat, q: nat, e: nat)
    requires BulletBreakMatch(s, p, q, e)
    ensures BulletBreakAt(s, p) == Some(Hit(e - p, ".\n\n- ", p, p, ""))
  {
    SpaceRunExact(s, p + 1, q - p - 1);
    SpaceRunExact(s, q + 1, e - q - 1);
  }

  lemma BulletBreakAtMatches(s: string, p: nat)
    requires p <= |s| && BulletBreakAt(s, p).Some?
    ensures exists q, e :: BulletBreakMatch(s, p, q, e)
  {
    var q, e := BulletBreakParts(s, p);
  }

  lemma BulletBreakParts(s: string, p: nat) returns (q: nat, e: nat)
    requires p <= |s| && BulletBreakAt(s, p).Some?
    ensures BulletBreakMatch(s, p, q, e)
  {
    q := p + 1 + SpaceRun(s, p + 1);
    e := q + 1 + SpaceRun(s, q + 1);
    assert SpacesBetween(s, p + 1, q) by { SpaceRunSpaces(s, p + 1); }
    assert SpacesBetween(s, q + 1, e) by { SpaceRunSpaces(s, q + 1); }
  }

  /** `\.\s*\d+\.` matches at `p`: whitespace up to `q`, digits up to `e`,
      then a period. */
  predicate NumberBreakMatch(s: string, p: nat, q: nat, e: nat)
  {
    && p < |s| && s[p] == '.' && SpacesBetween(s, p + 1, q)
    && q < e < |s| && DigitsBetween(s, q, e) && s[e] == '.'
  }

  /** The whole match is kept behind a new period and a blank line, so the
      period it starts with appears twice. */
  lemma NumberBreakAtFinds(s: string, p: nat, q: nat, e: nat)
    requires NumberBreakMatch(s, p, q, e)
    ensures NumberBreakAt(s, p) == Some(Hit(e + 1 - p, ".\n\n", p, e + 1, ""))
  {
    SpaceRunExact(s, p + 1, q - p - 1);
    DigitRunExact(s, q, e - q);
  }

  lemma NumberBreakAtMatches(s: string, p: nat)
    requires p <= |s| && NumberBreakAt(s, p).Some?
    ensures exists q, e :: NumberBreakMatch(s, p, q, e)
  {
    var q, e := NumberBreakParts(s, p);
  }

  lemma NumberBreakParts(s: string, p: nat) returns (q: nat, e: nat)
    requires p <= |s| && NumberBreakAt(s, p).Some?
    ensures NumberBreakMatch(s, p, q, e)
  {
    q := p + 1 + SpaceRun(s, p + 1);
    e := q + DigitRun(s, q);
    assert SpacesBetween(s, p + 1, q) by { SpaceRunSpaces(s, p + 1); }
    assert DigitsBetween(s, q, e) by { DigitRunDigits(s, q); }
  }

  // ---------------------------------------------------------------------
  // Where a rule can fire, and worked examples

  /** The characters a match of `r` can start with. */
  predicate Lead(r: Rule, c: char)
  {
    match r
    case SectionHeadings => IsDigit(c)
    case SubsectionHeadings => c == '-'
    case Likelihood => c == '('
    case ToolNames => Upper(c) == 'M' || Upper(c) == 'L' || Upper(c) == 'O'
    case SafetyWords => Upper(c) == 'A' || Upper(c) == 'N' || Upper(c) == 'C' || Upper(c) == 'W' || Upper(c) == 'I'
    case RepairTimes => IsDigit(c)
    case BulletBreaks => c == '.'
    case NumberBreaks => c == '.'
  }

  lemma NameLead(s: string, p: nat, names: seq<string>, n: string)
    requires n in names && MatchesAt(s, p, n) && n != []
    ensures p < |s| && Upper(s[p]) == Upper(n[0])
  {
    assert Upper(s[p + 0]) == Upper(n[0]);
  }

  /** A rule only fires on its lead characters. */
  lemma HitNeedsLead(r: Rule, s: string, p: nat)
    requires p <= |s| && HitAt(r, s, p).Some?
    ensures p < |s| && Lead(r, s[p])
  {
    match r
    case ToolNames =>
      ToolsWellFormed();
      FirstNameIn(s, p, Tools, false);
      NameLead(s, p, Tools, FirstName(s, p, Tools, false).value);
    case SafetyWords =>
      SafetyTermsWellFormed();
      FirstNameIn(s, p, SafetyTerms, false);
      NameLead(s, p, SafetyTerms, FirstName(s, p, SafetyTerms, false).value);
    case _ =>
  }

  /** Where nothing matches from `i` to `j`, the scan copies that stretch. */
  lemma {:induction false} CopiesWithoutHits(s: string, hits: seq<Option<Hit>>, i: nat, j: nat)
    requires Fits(s, hits) && i <= j <= |s|
    requires forall k :: i <= k < j ==> hits[k].None?
    ensures ReplaceFrom(s, hits, i) == s[i..j] + ReplaceFrom(s, hits, j)
    decreases j - i
  {
    if i < j {
      CopiesWithoutHits(s, hits, i + 1, j);
      assert ReplaceFrom(s, hits, i) == [s[i]] + ReplaceFrom(s, hits, i + 1);
      assert s[i..j] == [s[i]] + s[i + 1..j];
      Assoc([s[i]], s[i + 1..j], ReplaceFrom(s, hits, j));
    } else {
      assert s[i..j] == [];
    }
  }

  /** Between `i` and `j` no lead character occurs, so nothing matches there. */
  lemma NoLeadNoHits(r: Rule, s: string, i: nat, j: nat)
    requires i <= j <= |s|
    requires forall c :: c in s[i..j] ==> !Lead(r, c)
    ensures forall k :: i <= k < j ==> Hits(r, s)[k].None?
  {
    forall k | i <= k < j ensures Hits(r, s)[k].None? {
      assert s[k] == s[i..j][k - i];
      if HitAt(r, s, k).Some? {
        HitNeedsLead(r, s, k);
      }
    }
  }

  /** Between `i` and `j` no lead character occurs, so the scan copies. */
  lemma NoLeadCopies(r: Rule, s: string, i: nat, j: nat)
    requires i <= j <= |s|
    requires forall c :: c in s[i..j] ==> !Lead(r, c)
    ensures ReplaceFrom(s, Hits(r, s), i) == s[i..j] + ReplaceFrom(s, Hits(r, s), j)
  {
    NoLeadNoHits(r, s, i, j);
    CopiesWithoutHits(s, Hits(r, s), i, j);
  }

  /** With a single match from `i` to `j`, the scan copies around it. */
  lemma OneHit(s: string, hits: seq<Option<Hit>>, i: nat, j: nat)
    requires Fits(s, hits) && i < j <= |s|
    requires forall k :: 0 <= k < i ==> hits[k].None?
    requires hits[i].Some? && hits[i].value.len == j - i
    requires forall k :: j <= k < |s| ==> hits[k].None?
    ensures ReplaceFrom(s, hits, 0) == s[..i] + Out(s, hits[i].value) + s[j..]
  {
    var out := Out(s, hits[i].value);
    assert ReplaceFrom(s, hits, 0) == s[..i] + ReplaceFrom(s, hits, i) by {
      CopiesWithoutHits(s, hits, 0, i);
      assert s[0..i] == s[..i];
    }
    assert ReplaceFrom(s, hits, i) == out + ReplaceFrom(s, hits, j);
    assert ReplaceFrom(s, hits, j) == s[j..] by {
      CopiesWithoutHits(s, hits, j, |s|);
      assert ReplaceFrom(s, hits, |s|) == [];
      assert s[j..|s|] == s[j..];
    }
    Assoc(s[..i], out, s[j..]);
  }

  /** A text without lead characters of `r` passes `r` unchanged. */
  lemma NoLeadUnchanged(r: Rule, s: string)
    requires forall c :: c in s ==> !Lead(r, c)
    ensures Replace(r, s) == s
  {
    assert s[0..|s|] == s;
    NoLeadCopies(r, s, 0, |s|);
  }

  lemma MatchesAtSlice(s: string, p: nat, w: string)
    requires p + |w| <= |s| && s[p..p + |w|] == w
    ensures MatchesAt(s, p, w)
  {
    assert forall i :: 0 <= i < |w| ==> s[p + i] == w[i];
  }

  /** A safety word found at `p`, in any case, is wrapped in bold markers. */
  lemma SafetyWordHit(s: string, p: nat, n: string)
    requires n in SafetyTerms && MatchesAt(s, p, n)
    ensures HitAt(SafetyWords, s, p) == Some(Hit(|n|, "**", p, p + |n|, "**"))
  {
    SafetyTermsWellFormed();
    WrapAtFinds(s, p, SafetyTerms, "**", n);
  }

  /** No word boundary is checked: a safety word is put in bold wherever it
      occurs, even at the start of a longer word. */
  lemma SafetyWordInText(s: string, p: nat, w: string)
    requires w in SafetyTerms && p + |w| <= |s| && s[p..p + |w|] == w
    requires forall c :: c in s[0..p] ==> !Lead(SafetyWords, c)
    requires forall c :: c in s[p + |w|..|s|] ==> !Lead(SafetyWords, c)
    ensures Replace(SafetyWords, s) == s[..p] + "**" + w + "**" + s[p + |w|..]
  {
    var hits := Hits(SafetyWords, s);
    assert hits[p] == Some(Hit(|w|, "**", p, p + |w|, "**")) by {
      MatchesAtSlice(s, p, w);
      SafetyWordHit(s, p, w);
    }
    assert forall k :: 0 <= k < p ==> hits[k].None? by {
      NoLeadNoHits(SafetyWords, s, 0, p);
    }
    assert forall k :: p + |w| <= k < |s| ==> hits[k].None? by {
      NoLeadNoHits(SafetyWords, s, p + |w|, |s|);
    }
    BoldOnly(s, hits, p, w);
  }

  /** The text around a single bold match is copied unchanged. */
  lemma BoldOnly(s: string, hits: seq<Option<Hit>>, p: nat, w: string)
    requires Fits(s, hits) && 0 < |w| && p + |w| <= |s| && s[p..p + |w|] == w
    requires forall k :: 0 <= k < p ==> hits[k].None?
    requires hits[p] == Some(Hit(|w|, "**", p, p + |w|, "**"))
    requires forall k :: p + |w| <= k < |s| ==> hits[k].None?
    ensures ReplaceFrom(s, hits, 0) == s[..p] + "**" + w + "**" + s[p + |w|..]
  {
    OneHit(s, hits, p, p + |w|);
    Assoc4(s[..p], "**", w, "**", s[p + |w|..]);
  }

  lemma Assoc4<T>(a: seq<T>, b: seq<T>, c: seq<T>, d: seq<T>, e: seq<T>)
    ensures a + (b + c + d) + e == a + b + c + d + e
  {
  }

  lemma SafetyWordInsideWord(s: string)
    requires s == "Warnings"
    ensures Replace(SafetyWords, s) == "**Warning**s"
  {
    assert s[0..7] == "Warning";
    SafetyWordInText(s, 0, "Warning");
    assert s[7..] == "s";
  }

  /** A match covering the whole text is replaced as a whole. */
  lemma WholeHit(r: Rule, s: string)
    requires HitAt(r, s, 0).Some? && HitAt(r, s, 0).value.len == |s|
    ensures Replace(r, s) == Out(s, HitAt(r, s, 0).value)
  {
    var hits := Hits(r, s);
    assert ReplaceFrom(s, hits, |s|) == [];
  }

  /** A whole likelihood note `(NN% likelihood)` gets a space in front, and
      its parentheses end up inside the bold markers. */
  lemma LikelihoodGetsLeadingSpace(s: string, e: nat, q: nat)
    requires LikelihoodMatch(s, 0, e, q) && q + 11 == |s|
    ensures Replace(Likelihood, s) == " **" + s + "**"
  {
    assert LikelihoodAt(s, 0) == Some(Hit(q + 11, " **(", 1, q + 10, ")**")) by {
      LikelihoodAtFinds(s, 0, e, q);
    }
    WholeHit(Likelihood, s);
    assert s == "(" + s[1..q + 10] + ")";
    Parenthesised(s, s[1..q + 10]);
  }

  lemma Parenthesised(s: string, inner: string)
    requires s == "(" + inner + ")"
    ensures " **(" + inner + ")**" == " **" + s + "**"
  {
  }

  /** A whole break `.<ws><digits>.` is kept behind a new period and a
      blank line, so its period appears twice. */
  lemma NumberBreakDoublesPeriod(s: string, q: nat, e: nat)
    requires NumberBreakMatch(s, 0, q, e) && e + 1 == |s|
    ensures Replace(NumberBreaks, s) == ".\n\n" + s
  {
    assert NumberBreakAt(s, 0) == Some(Hit(e + 1, ".\n\n", 0, e + 1, "")) by {
      NumberBreakAtFinds(s, 0, q, e);
    }
    WholeHit(NumberBreaks, s);
    assert s[0..e + 1] == s;
  }

  /** At an "A" not followed by "L" no safety word starts. */
  lemma NoSafetyWordAtA(s: string, p: nat)
    requires p + 1 < |s| && Upper(s[p]) == 'A' && Upper(s[p + 1]) != 'L'
    ensures HitAt(SafetyWords, s, p).None?
  {
    forall n | n in SafetyTerms ensures !Accepts(s, p, n, false) {
      if n == "Always" {
        assert Upper(s[p + 1]) != Upper(n[1]);
      } else {
        assert Upper(s[p + 0]) != Upper(n[0]);
      }
    }
    FirstNameAbsent(s, p, SafetyTerms, false);
  }

  lemma SafetyHeadingMatch(s: string)
    requires s == "1. SAFETY WARNINGS:"
    ensures SectionMatch(s, 0, 1, 3, SectionNames[3]) && s[3..18] == "SAFETY WARNINGS"
  {
    var n := SectionNames[3];
    assert s[3..18] == n;
    MatchesAtSlice(s, 3, n);
  }

  lemma SafetyHeadingHit(s: string)
    requires s == "1. SAFETY WARNINGS:"
    ensures SectionAt(s, 0) == Some(Hit(19, "\n## ", 3, 18, "\n\n")) && s[3..18] == "SAFETY WARNINGS"
  {
    SafetyHeadingMatch(s);
    SectionAtFinds(s, 0, 1, 3, SectionNames[3]);
  }

  lemma SafetyHeadingText(n: string)
    requires n == "SAFETY WARNINGS"
    ensures "\n## " + n + "\n\n" == "\n## SAFETY WARNINGS\n\n"
  {
  }

  lemma SafetyHeading(s: string)
    requires s == "1. SAFETY WARNINGS:"
    ensures Replace(SectionHeadings, s) == "\n## SAFETY WARNINGS\n\n"
  {
    SafetyHeadingHit(s);
    WholeHit(SectionHeadings, s);
    SafetyHeadingText(s[3..18]);
  }

  lemma SafetyHeadingKept(t: string)
    requires t == "\n## SAFETY WARNINGS\n\n"
    ensures Replace(SubsectionHeadings, t) == t
    ensures Replace(Likelihood, t) == t
    ensures Replace(ToolNames, t) == t
  {
    SafetyHeadingUnchanged(SubsectionHeadings, t);
    SafetyHeadingUnchanged(Likelihood, t);
    SafetyHeadingUnchanged(ToolNames, t);
  }

  /** The heading has no character that could start a match of `r`. */
  lemma SafetyHeadingUnchanged(r: Rule, t: string)
    requires t == "\n## SAFETY WARNINGS\n\n"
    requires r == SubsectionHeadings || r == Likelihood || r == ToolNames
    ensures Replace(r, t) == t
  {
    NoLeadUnchanged(r, t);
  }

  lemma SafetyWordMatches(t: string, p: nat)
    requires p + 7 <= |t| && t[p..p + 7] == "WARNING"
    ensures HitAt(SafetyWords, t, p) == Some(Hit(7, "**", p, p + 7, "**"))
  {
    var w := "Warning";
    assert forall i :: 0 <= i < 7 ==> Upper(t[p + i]) == Upper(w[i]) by {
      forall i | 0 <= i < 7 ensures Upper(t[p + i]) == Upper(w[i]) {
        assert t[p + i] == "WARNING"[i];
      }
    }
    assert SafetyTerms[3] == w;
    SafetyWordHit(t, p, w);
  }

  lemma SafetyHeadingQuiet(t: string)
    requires t == "\n## SAFETY WARNINGS\n\n"
    ensures forall k :: 0 <= k < 11 ==> Hits(SafetyWords, t)[k].None?
    ensures forall k :: 18 <= k < |t| ==> Hits(SafetyWords, t)[k].None?
  {
    SafetyHeadingQuietFront(t);
    NoLeadNoHits(SafetyWords, t, 18, 21);
  }

  /** Before `WARNING` only the `A` of `SAFETY` starts like a safety word,
      and it is not followed by the `L` of `Always`. */
  lemma SafetyHeadingQuietFront(t: string)
    requires t == "\n## SAFETY WARNINGS\n\n"
    ensures forall k :: 0 <= k < 11 ==> Hits(SafetyWords, t)[k].None?
  {
    var hits := Hits(SafetyWords, t);
    NoLeadNoHits(SafetyWords, t, 0, 5);
    NoSafetyWordAtA(t, 5);
    NoLeadNoHits(SafetyWords, t, 6, 11);
    NoHitsJoin(hits, 0, 5, 11);
  }

  /** Two stretches without matches around a position without one. */
  lemma NoHitsJoin(hits: seq<Option<Hit>>, i: nat, j: nat, m: nat)
    requires i <= j < m <= |hits| && hits[j].None?
    requires forall k :: i <= k < j ==> hits[k].None?
    requires forall k :: j + 1 <= k < m ==> hits[k].None?
    ensures forall k :: i <= k < m ==> hits[k].None?
  {
  }

  lemma SafetyHeadingBold(t: string)
    requires t == "\n## SAFETY WARNINGS\n\n"
    ensures Replace(SafetyWords, t) == "\n## SAFETY **WARNING**S\n\n"
  {
    SafetyHeadingQuiet(t);
    SafetyHeadingPieces(t);
    SafetyWordMatches(t, 11);
    OneHit(t, Hits(SafetyWords, t), 11, 18);
    SafetyBoldText(t[..11], t[11..18], t[18..]);
  }

  lemma SafetyHeadingPieces(t: string)
    requires t == "\n## SAFETY WARNINGS\n\n"
    ensures t[..11] == "\n## SAFETY " && t[11..18] == "WARNING" && t[18..] == "S\n\n"
  {
  }

  lemma SafetyBoldText(a: string, w: string, b: string)
    requires a == "\n## SAFETY " && w == "WARNING" && b == "S\n\n"
    ensures a + ("**" + w + "**") + b == "\n## SAFETY **WARNING**S\n\n"
  {
  }

  lemma SafetyHeadingTail(u: string)
    requires u == "\n## SAFETY **WARNING**S\n\n"
    ensures Replace(RepairTimes, u) == u
    ensures Replace(BulletBreaks, u) == u
    ensures Replace(NumberBreaks, u) == u
  {
    NoLeadUnchanged(RepairTimes, u);
    NoLeadUnchanged(BulletBreaks, u);
    NoLeadUnchanged(NumberBreaks, u);
  }

  /** The rewrites run in order on each other's output: the heading made by
      the first one is later changed by the safety-word rule. */
  lemma SafetyHeadingFormatted()
    ensures FormatAnalysis(Some("1. SAFETY WARNINGS:")) == "\n## SAFETY **WARNING**S\n\n"
  {
    SafetyHeading("1. SAFETY WARNINGS:");
    SafetyHeadingKept("\n## SAFETY WARNINGS\n\n");
    SafetyHeadingBold("\n## SAFETY WARNINGS\n\n");
    SafetyHeadingTail("\n## SAFETY **WARNING**S\n\n");
  }
}
