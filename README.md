# HVAC troubleshooter: the text, rule and wizard logic, modelled in Dafny

The HVAC AI troubleshooter is a React front end with a Flask back end. A
technician picks an equipment type and symptoms in a four-step wizard. The
back end derives a rule-based diagnosis, which a language model may then
overlay. The results view cleans up the model's analysis text and renders it
as markdown.

This project models the deterministic core of that system and proves its
properties:

- `strings.dfy` (module `Strings`): the character classes and string helpers
  the rest shares:
  - JavaScript's `trim()`/`\s` whitespace;
  - Python's `str.strip()`, with Python's own whitespace set;
  - `split` and `join` on one character;
  - the ASCII case folding of `/i`;
  - decimal digits, and Python's `str(int)` with its read-back.
- `optional.dfy` (module `Optional`): a value that may be absent.
- `inline.dfy` (module `Inline`): `parseInlineFormatting`. It runs three
  `while (exec)` scans over the original text (bold, italic, code), pools
  what they find, sorts the pool stably by start offset, and walks it with
  the `lastIndex` cursor.
- `markdown.dfy` (module `Markdown`): `parseMarkdown` and the component's
  entry point. Lines are trimmed and classified. The state machine over
  `currentList`, `currentListItems` and `listType` is written as the
  source's loop (`ParseMarkdown`, `ParseLine`), proved equal to a fold
  (`Parse`). The fold is in turn proved equal to an independent
  description (`Group`: each maximal run of same-kind list lines becomes
  one list).
- `analysis.dfy` (module `Analysis`): `formatChatGPTAnalysis`, eight global,
  case-insensitive replacements applied in order.
  - Each regular expression is a scanner that gives the match at one
    position.
  - `Replace` is the global replacement: it substitutes every match and
    resumes after it.
  - For every scanner the model proves both directions: each textual match
    is found (`…AtFinds`), and each find is such a match (`…AtMatches`).
- `diagnosis.dfy` (module `Diagnosis`): the rule part of
  `get_enhanced_diagnosis`:
  - name lookups;
  - the priority cascade for the primary issue;
  - the top-three actions;
  - the troubleshooting steps and safety warnings, built by appends as in
    the source;
  - the summary sentence;
  - the `min(95, confidence + 10)` overlay.
- `wizard.dfy` (module `Wizard`): the wizard's pure helpers:
  - step clamping;
  - the gating rule;
  - `handleInputChange` and `handleSymptomToggle`;
  - error-code parsing and display.

  It also holds the `reduce` that groups the symptom catalogue by category,
  written as a loop over a map, including the `TypeError` the `{}`
  accumulator raises on a category such as `constructor` or `__proto__`.

The source's quirks are modelled as written and proved as such:

- The inline cursor can move backwards.
- Bold text also yields two empty italic candidates, so `**x**` shows `x`
  twice.
- The number-break rewrite duplicates the period.
- The likelihood rewrite inserts a leading space.
- No rewrite checks word boundaries: `Warnings` becomes `**Warning**s`.
- A bare `-` or `1.` line is a paragraph.

## Model

| member | source | states |
|---|---|---|
| `Strings.TrimShape` | MarkdownRenderer.jsx:15 | `trim()` returns the slice of the line that neither starts nor ends with whitespace; everything cut off on either side is whitespace |
| `Strings.TrimIdempotent` | MarkdownRenderer.jsx:15 | trimming a trimmed line changes nothing |
| `Strings.TrimEmptyIffBlank` | MarkdownRenderer.jsx:15-17 | a line trims to the empty string exactly when it is all whitespace |
| `Strings.JoinSplit` | MarkdownRenderer.jsx:8 | splitting on a character and joining with it gives the text back, so no character of the content is lost by the split into lines |
| `Strings.SplitWithoutSeparator` | GuidedTroubleshooting.jsx:420 | text without the separator splits into itself alone |
| `Strings.SplitAtSeparator` | GuidedTroubleshooting.jsx:420 | the split of `a + sep + b`, `a` separator-free, is `a` followed by the split of `b` |
| `Strings.DecimalRoundTrip` | main_hybrid.py:240 | the decimal digits of a count read back as that count |
| `Strings.PyStripLeft` | main_hybrid.py:339 | `str.strip()`'s left index: the first position from `a` that is not Python whitespace, everything skipped being Python whitespace |
| `Strings.PyStripRight` | main_hybrid.py:339 | `str.strip()`'s right index: the trailing Python whitespace down to `a` is cut off and the last kept character is not Python whitespace |
| `Strings.PyStrip` | main_hybrid.py:339 | `str.strip()` returns the contiguous slice of the input that neither starts nor ends with Python whitespace, everything cut off on either side being Python whitespace; it is empty exactly when the input is all Python whitespace |
| `Strings.PyStripIsNotTrim` | main_hybrid.py:339 | Python's and JavaScript's whitespace sets differ: `str.strip()` removes U+0085 and keeps U+FEFF, `trim()` does the opposite |
| `Inline.CloseFrom` | MarkdownRenderer.jsx:190-206 | the lazy `(.*?)` capture stops at the first closing delimiter, with no line terminator and no earlier delimiter before it |
| `Inline.CloseFromFinds` | MarkdownRenderer.jsx:190-206 | conversely, the lazy capture reaches every closing delimiter that no line terminator and no earlier delimiter precede |
| `Inline.MatchAt` | MarkdownRenderer.jsx:190-206 | a match tried at `p` starts there, ends inside the text and has the pattern's kind; with `MatchAtWellFormed` and `MatchAtFinds` it is exactly the genuine delimited span starting at `p` |
| `Inline.MatchAtFinds` | MarkdownRenderer.jsx:190-206 | every genuine delimited span (delimiter, capture without line terminators or inner delimiters, delimiter) is what the pattern of its kind matches at its start |
| `Inline.MatchAtWellFormed` | MarkdownRenderer.jsx:190-206 | every match is delimiter, content without line terminators or inner delimiters, delimiter, and its content is the capture group |
| `Inline.NextMatch` | MarkdownRenderer.jsx:220 | `exec` from `lastIndex` returns a match at or after `lastIndex` |
| `Inline.NextMatchIsFirst` | MarkdownRenderer.jsx:220 | `exec` returns the match at the first position from `lastIndex` where the pattern matches, it matches nowhere before it, and no genuine span of the kind starts between `lastIndex` and the match |
| `Inline.NextMatchNoneIsNowhere` | MarkdownRenderer.jsx:220 | `exec` returns null only when the pattern matches at no position from `lastIndex` on, that is, when no genuine delimited span of the kind starts there |
| `Inline.ScanOrdered` | MarkdownRenderer.jsx:220-227 | the matches of one `while (exec)` loop lie inside the text, have the loop's kind and do not overlap, in text order |
| `Inline.ScanWellFormed` | MarkdownRenderer.jsx:220-227 | every candidate one loop records is a genuine delimited span of the text |
| `Inline.ScanFinds` | MarkdownRenderer.jsx:218-228 | one `while (exec)` loop records every genuine span of its kind, except a span that starts strictly inside a match recorded before it, where `lastIndex` has jumped past its start |
| `Inline.ScanNeedsTwoDelimiters` | MarkdownRenderer.jsx:190-206 | a scan finds something only if the text holds the delimiter's first character twice |
| `Inline.CollectMatches` | MarkdownRenderer.jsx:218-228 | the imperative `exec` loop of one pattern records exactly the scan `Scan(text, k, 0)` |
| `Inline.InsertByStart` | MarkdownRenderer.jsx:231 | inserting into a list sorted by start keeps it sorted, adds one element and adds nothing else |
| `Inline.SortByStart` | MarkdownRenderer.jsx:231 | the sort by start returns a list of the same length, sorted by start, drawn from the input |
| `Inline.SortByStartStable` | MarkdownRenderer.jsx:231 | the sort is stable: for every start offset, the candidates starting there keep their order |
| `Inline.SortByStartSorted` | MarkdownRenderer.jsx:231 | sorting an already sorted list changes nothing |
| `Inline.TiesKeepScanOrder` | MarkdownRenderer.jsx:218-231 | among candidates with the same start, bold comes before italic before code; each scan contributes at most one candidate per start |
| `Inline.CandidatesBounded` | MarkdownRenderer.jsx:218-231 | every pooled candidate lies inside the text, before and after sorting |
| `Inline.WalkFrom` | MarkdownRenderer.jsx:237-251 | the walk emits at least one part per candidate |
| `Inline.Assemble` | MarkdownRenderer.jsx:234-251 | the imperative `forEach` with `lastIndex` emits exactly the walk `WalkFrom(text, replacements, 0)`: a gap only when a candidate starts after the cursor, every candidate, then the rest of the text |
| `Inline.ParseInlineFormatting` | MarkdownRenderer.jsx:183-254 | the three loops, the sort and the walk of the source compute `Resolve(text)` |
| `Inline.WalkPlainNonEmpty` | MarkdownRenderer.jsx:239-250 | no plain part the walk emits is empty |
| `Inline.BareOnlyForEmpty` | MarkdownRenderer.jsx:253 | the resolver returns the text itself, not an array, exactly when the text is empty |
| `Inline.UnpairedDelimitersStayPlain` | MarkdownRenderer.jsx:220-253 | with at most one `*` and at most one backtick, no candidate is recorded and the text comes back as one plain part |
| `Inline.PlainTextUnchanged` | MarkdownRenderer.jsx:249-253 | text without `*` or backtick comes back as the single unchanged string |
| `Inline.WalkReassembles` | MarkdownRenderer.jsx:237-251 | when the candidates ahead of the cursor do not overlap, the walk puts back exactly the text from the cursor on, delimiters included |
| `Inline.CodeOnlyRoundTrip` | MarkdownRenderer.jsx:205-253 | without any asterisk, putting the delimiters back around the resolved parts gives the original text |
| `Inline.BoldShownTwice` | MarkdownRenderer.jsx:190-246 | `**x**` resolves to a bold `x`, an empty italic, a plain `x` and another empty italic, because the cursor moves back to the end of the first italic |
| `Markdown.NumberedPrefix` | MarkdownRenderer.jsx:114 | a recognised `^\d+\.\s` prefix is digits, a period and one whitespace character |
| `Markdown.NumberedPrefixComplete` | MarkdownRenderer.jsx:114 | every line that has such a prefix is recognised, with the prefix's exact length |
| `Markdown.Classify` | MarkdownRenderer.jsx:15-160 | no contract of its own: the line is trimmed and tested blank, `## `, `### `, `- `/`* `, numbered, else paragraph, in the source's order; its branches are stated by `ClassifyIgnoresIndentation`, `BlankIffWhitespace`, `H3NeverH2`, `NumberedItemText` and the bare-marker lemmas |
| `Markdown.ClassifyIgnoresIndentation` | MarkdownRenderer.jsx:15 | a line is classified as its trim is, so indentation is ignored |
| `Markdown.BlankIffWhitespace` | MarkdownRenderer.jsx:15-17 | a line is blank exactly when it is all whitespace |
| `Markdown.H3NeverH2` | MarkdownRenderer.jsx:41-90 | a `### ` line is a level-3 heading whose text is `substring(4).trim()`, never a level-2 one |
| `Markdown.BareDashIsParagraph` | MarkdownRenderer.jsx:92 | a bare `-` is a paragraph, since trimming removed the space a list marker needs |
| `Markdown.BareStarIsParagraph` | MarkdownRenderer.jsx:92 | an indented bare `* ` is the paragraph `*` |
| `Markdown.BareNumberIsParagraph` | MarkdownRenderer.jsx:114 | a bare `1.` is a paragraph |
| `Markdown.NumberedItemText` | MarkdownRenderer.jsx:114-115 | a numbered line hands the resolver what follows its prefix, trimmed |
| `Markdown.ParseLine` | MarkdownRenderer.jsx:14-160 | one round of the source's `forEach` makes the transition `Step` of the state (blocks, open items, list kind) and keeps `currentList` true exactly when items are open |
| `Markdown.ParseMarkdown` | MarkdownRenderer.jsx:7-180 | the source's loop with its three mutable variables, and the final flush, compute `Parse(text)` |
| `Markdown.WalkGroups` | MarkdownRenderer.jsx:14-177 | from any state the fold equals the blocks so far, the open list extended by the leading run of its kind, then the grouping of the rest |
| `Markdown.ParseIsGrouping` | MarkdownRenderer.jsx:92-134 | the parser's output is the grouping of its lines: each maximal run of same-kind list lines is one list, every other line one block |
| `Markdown.GroupListsNonEmpty` | MarkdownRenderer.jsx:106-133 | every list the grouping emits has at least one item |
| `Markdown.GroupAdjacentListsDiffer` | MarkdownRenderer.jsx:94-127 | two lists are adjacent only when their kinds differ, since a change of kind is what closes a list directly |
| `Markdown.GroupCounts` | MarkdownRenderer.jsx:17-133 | the grouping keeps every spacer and every list item |
| `Markdown.ElementCounts` | MarkdownRenderer.jsx:17-133 | blank lines give the spacers and list lines give the items, one each |
| `Markdown.ParseCounts` | MarkdownRenderer.jsx:17-37 | each whitespace-only line gives exactly one spacer, with no collapsing, and each list line exactly one item of an emitted list |
| `Markdown.ParseListsWellFormed` | MarkdownRenderer.jsx:92-177 | every emitted list is non-empty and adjacent lists differ in kind |
| `Markdown.RenderNonEmpty` | MarkdownRenderer.jsx:3-4 | absent or empty content renders nothing; present content renders at least one block |
| `Markdown.SwitchingKindsSplitsLists` | MarkdownRenderer.jsx:92-134 | `- a`, `1. b`, `- c` give three lists of one item each |
| `Markdown.BlankLineSplitsLists` | MarkdownRenderer.jsx:17-37 | `- a`, a blank line, `- b` give a list, a spacer and another list |
| `Analysis.FormatAnalysis` | DiagnosticResults.jsx:52-83 | absent or empty analysis gives the empty string |
| `Analysis.ReplaceFrom` | DiagnosticResults.jsx:59-80 | no contract of its own: a global `replace` from a position on, substituting a match and resuming after it, copying a character otherwise; stated by `CopiesWithoutHits` and `ReplaceKeepsText` |
| `Analysis.Replace` | DiagnosticResults.jsx:59-80 | no contract of its own: one rule's global `replace` over the whole text; stated by `ReplaceKeepsText`, `NoLeadUnchanged` and `FormatNoMatchUnchanged` |
| `Analysis.HitAt` | DiagnosticResults.jsx:59-80 | the match of a rule at a position is non-empty, lies inside the text and holds its capture group |
| `Analysis.SectionAt` | DiagnosticResults.jsx:59-60 | a section match is non-empty, inside the text, group inside the match; `SectionAtFinds` and `SectionAtMatches` make it exact |
| `Analysis.SubsectionAt` | DiagnosticResults.jsx:63-64 | a subsection match is non-empty, inside the text, group inside the match; `SubsectionAtFinds` and `SubsectionAtMatches` make it exact |
| `Analysis.LikelihoodAt` | DiagnosticResults.jsx:67 | a likelihood match is non-empty, inside the text, group inside the match; `LikelihoodAtFinds` and `LikelihoodAtMatches` make it exact |
| `Analysis.WrapAt` | DiagnosticResults.jsx:70-73 | a tool-name or safety-word match is non-empty, inside the text, group inside the match; `WrapAtFinds` and `WrapAtMatches` make it exact |
| `Analysis.HoursAt` | DiagnosticResults.jsx:76 | a repair-time match is non-empty, inside the text, group inside the match; `HoursAtFinds` and `HoursAtMatches` make it exact |
| `Analysis.BulletBreakAt` | DiagnosticResults.jsx:79 | a bullet-break match is non-empty and inside the text; `BulletBreakAtFinds` and `BulletBreakAtMatches` make it exact |
| `Analysis.NumberBreakAt` | DiagnosticResults.jsx:80 | a number-break match is non-empty, inside the text, and keeps the whole match; `NumberBreakAtFinds` and `NumberBreakAtMatches` make it exact |
| `Analysis.FirstNameIn` | DiagnosticResults.jsx:59 | the alternative found is one of the pattern's names |
| `Analysis.FirstNameNone` | DiagnosticResults.jsx:59 | when no alternative is found, none matches |
| `Analysis.FirstNameUnique` | DiagnosticResults.jsx:59 | in a prefix-free name list, the alternative that matches is the one found |
| `Analysis.SectionNamesWellFormed` | DiagnosticResults.jsx:59 | the five section names start with letters and no two can match at one position |
| `Analysis.SubsectionNamesWellFormed` | DiagnosticResults.jsx:63 | the same for the five subsection names |
| `Analysis.ToolsWellFormed` | DiagnosticResults.jsx:70 | the same for the four tool names |
| `Analysis.SafetyTermsWellFormed` | DiagnosticResults.jsx:73 | the same for the five safety words |
| `Analysis.SectionAtFinds` | DiagnosticResults.jsx:59-60 | every `<digits>.<ws*>NAME:` is found and becomes `\n## NAME\n\n` with NAME as spelled in the text; the number and the colon are dropped |
| `Analysis.SectionAtMatches` | DiagnosticResults.jsx:59-60 | every section match found is such a heading |
| `Analysis.SectionShape` | DiagnosticResults.jsx:59-60 | a found heading is digits, periods and whitespace, then the name and a colon, and its replacement is `\n## ` + name + `\n\n` |
| `Analysis.SubsectionAtFinds` | DiagnosticResults.jsx:63-64 | every `-<ws*>NAME` is found and becomes `\n### NAME\n\n` |
| `Analysis.SubsectionAtMatches` | DiagnosticResults.jsx:63-64 | every subsection match found is such a line |
| `Analysis.SubsectionShape` | DiagnosticResults.jsx:63-64 | a found subsection match is a dash and whitespace, then the name |
| `Analysis.LikelihoodAtFinds` | DiagnosticResults.jsx:67 | every `(<digits>%<ws*>likelihood)` is found; its group, between the parentheses, becomes ` **(` group `)**` |
| `Analysis.LikelihoodAtMatches` | DiagnosticResults.jsx:67 | every likelihood match found is such a note |
| `Analysis.LikelihoodShape` | DiagnosticResults.jsx:67 | a found note is `(` inner `)`, and its replacement is ` **(` inner `)**` |
| `Analysis.LikelihoodGetsLeadingSpace` | DiagnosticResults.jsx:67 | a whole note `s` becomes ` **` + `s` + `**`: a space is inserted in front and the parentheses are inside the bold |
| `Analysis.WrapAtFinds` | DiagnosticResults.jsx:70-73 | every occurrence of a tool name or safety word, in any case and also inside a longer word, is wrapped in the marker, spelling kept |
| `Analysis.WrapAtMatches` | DiagnosticResults.jsx:70-73 | every wrapped match is an occurrence of one of the names |
| `Analysis.SafetyWordInText` | DiagnosticResults.jsx:73 | a safety word with no first letter of a safety word anywhere else in the text is put in bold, spelling kept, and the rest of the text is copied |
| `Analysis.SafetyWordInsideWord` | DiagnosticResults.jsx:73 | `Warnings` becomes `**Warning**s` |
| `Analysis.PluralEnd` | DiagnosticResults.jsx:76 | the match ends after `hour` or one character later, and it takes that character exactly when it is an `s` or `S`, as the greedy case-insensitive `s?` does |
| `Analysis.HoursAtFinds` | DiagnosticResults.jsx:76 | every `<digits>-<digits><ws*>hour` with its optional `s` is found and put in bold as spelled |
| `Analysis.HoursAtMatches` | DiagnosticResults.jsx:76 | every repair-time match found is such an estimate |
| `Analysis.BulletBreakAtFinds` | DiagnosticResults.jsx:79 | every `.<ws*>-<ws*>`, with all the whitespace after the dash, becomes `.\n\n- ` |
| `Analysis.BulletBreakAtMatches` | DiagnosticResults.jsx:79 | every bullet break found is such a break |
| `Analysis.BulletShape` | DiagnosticResults.jsx:79 | a found bullet break is a period, whitespace, a dash and whitespace |
| `Analysis.NumberBreakAtFinds` | DiagnosticResults.jsx:80 | every `.<ws*><digits>.` is found and kept whole behind a new `.\n\n` |
| `Analysis.NumberBreakAtMatches` | DiagnosticResults.jsx:80 | every number break found is such a break |
| `Analysis.NumberBreakDoublesPeriod` | DiagnosticResults.jsx:80 | a whole break `s` becomes `.\n\n` + `s`, so its period appears twice |
| `Analysis.HitNeedsLead` | DiagnosticResults.jsx:59-80 | each rule can only match at one of its lead characters |
| `Analysis.CopiesWithoutHits` | DiagnosticResults.jsx:59-80 | where nothing matches, the global replacement copies the text unchanged |
| `Analysis.NoLeadUnchanged` | DiagnosticResults.jsx:59-80 | a text without any lead character of a rule passes that rule unchanged |
| `Analysis.ReplaceKeepsText` | DiagnosticResults.jsx:59-80 | each rewrite only inserts or drops markup (whitespace, digits, the markers): with that removed, output and input agree |
| `Analysis.FormatKeepsText` | DiagnosticResults.jsx:56-82 | the whole chain of eight rewrites only inserts or drops markup |
| `Analysis.FormatNoMatchUnchanged` | DiagnosticResults.jsx:56-82 | text that no rule matches anywhere comes back unchanged |
| `Analysis.SafetyHeading` | DiagnosticResults.jsx:59-60 | `1. SAFETY WARNINGS:` becomes `\n## SAFETY WARNINGS\n\n` |
| `Analysis.SafetyHeadingBold` | DiagnosticResults.jsx:73 | in that heading the safety-word rule bolds the `WARNING` of `WARNINGS` |
| `Analysis.SafetyHeadingFormatted` | DiagnosticResults.jsx:56-82 | the rewrites run in order on each other's output: `1. SAFETY WARNINGS:` ends as `\n## SAFETY **WARNING**S\n\n` |
| `Diagnosis.Lookup` | main_hybrid.py:76-77 | an id that no entry has is its own name |
| `Diagnosis.LookupFirst` | main_hybrid.py:76-77 | the first entry with the id gives the name |
| `Diagnosis.SymptomNames` | main_hybrid.py:77 | one name per symptom id, same length and order, unknown ids kept as they are |
| `Diagnosis.Issues` | main_hybrid.py:80-83 | a group's list is no longer than the selection and holds only ids of the group; `IssuesMembers` makes it exact on membership, `IssuesCounts` on repeats and `IssuesConcat` on order |
| `Diagnosis.IssuesMembers` | main_hybrid.py:80-83 | a group's list holds exactly the selected symptoms of that group |
| `Diagnosis.IssuesConcat` | main_hybrid.py:80-83 | the comprehension filters piecewise, so the kept ids stay in selection order |
| `Diagnosis.IssuesCounts` | main_hybrid.py:80-83 | each selected id of the group is kept as often as it was selected, every other id no time at all |
| `Diagnosis.IssuesNonEmpty` | main_hybrid.py:80-86 | a group's list is non-empty exactly when a symptom of the group is selected |
| `Diagnosis.PrimaryFinding` | main_hybrid.py:86-142 | the rule confidence is one of 70, 78, 80, 82, 83, 85, 88 |
| `Diagnosis.FirstApplicable` | main_hybrid.py:86-142 | the priority table yields one of its own findings or the default |
| `Diagnosis.PrimaryFindingByPriority` | main_hybrid.py:86-142 | the cascade equals reading the priority table top to bottom: cooling with ice, cooling with not-cooling, cooling; breaker trips, electrical; mechanical; default |
| `Diagnosis.DefaultIffNoRuleGroup` | main_hybrid.py:86-142 | "System Diagnostic Required" comes exactly when no cooling, electrical or mechanical symptom is selected |
| `Diagnosis.VisualOnlyIsDefault` | main_hybrid.py:83-142 | visual symptoms alone lead to the default, since `visual_issues` is never used |
| `Diagnosis.FirstActionGroup` | main_hybrid.py:145-170 | the first applicable action group, or the fallback, has three actions |
| `Diagnosis.RecommendedActions` | main_hybrid.py:145-170 | the imperative `extend`s give the applicable groups in the order cooling, electrical, mechanical, or the fallback; its first three are the first applicable group |
| `Diagnosis.TroubleshootingSteps` | main_hybrid.py:173-203 | the appends give the safety preparation, the refrigerant check iff a cooling symptom, the electrical test iff an electrical symptom, then the component inspection |
| `Diagnosis.StepsShape` | main_hybrid.py:173-203 | the steps open with the safety preparation, close with the inspection, hold two to four steps, refrigerant before electrical |
| `Diagnosis.SafetyWarnings` | main_hybrid.py:206-236 | the appends give the NFPA 70E power warning, the fire warning iff `burning_smell`, the overload warning iff `frequent_breaker_trips`, then the EPA 608 refrigerant warning |
| `Diagnosis.WarningsShape` | main_hybrid.py:206-236 | the warnings open with the critical NFPA 70E one and close with the EPA 608 one, fire before overload |
| `Diagnosis.SummaryHead` | main_hybrid.py:240 | the summary's head ends in `. ` before the count |
| `Diagnosis.Summary` | main_hybrid.py:240 | no contract of its own: the head, the count in decimal and the fixed tail; stated by `SummaryHead` and `SummaryReportsCount` |
| `Diagnosis.SummaryReportsCount` | main_hybrid.py:240 | the digits between the head and the fixed tail of the summary read back as the number of symptoms |
| `Diagnosis.GetDiagnosis` | main_hybrid.py:72-246 | the record holds the primary finding, the summary for the looked-up equipment name, the first three actions, and the steps and warnings above |
| `Diagnosis.Raised` | main_hybrid.py:345 | `min(95, c + 10)`: at most 95, at most ten more, and one of the two |
| `Diagnosis.Enhance` | main_hybrid.py:339-352 | the overlay's title is `ChatGPT-4 Professional Analysis`, its summary is the model's text stripped by `str.strip()` with Python's whitespace set, its confidence the raised one for every score, and causes, actions, steps and warnings are carried over unchanged |
| `Diagnosis.EnhancedConfidence` | main_hybrid.py:345 | on a rule score the overlay adds ten points, except that 88 is capped at 95 |
| `Diagnosis.QuickSubmitIsDefault` | main_hybrid.py:421-428 | the quick report, with no symptoms and the equipment `unknown`, always gets the default finding and the fallback actions |
| `Wizard.NextStep` | GuidedTroubleshooting.jsx:177-179 | `min(step + 1, 4)` |
| `Wizard.PrevStep` | GuidedTroubleshooting.jsx:181-183 | `max(step - 1, 1)` |
| `Wizard.RunStaysInRange` | GuidedTroubleshooting.jsx:177-183 | from any step in 1..4, the initial step 1 included, every sequence of presses stays in 1..4 |
| `Wizard.NextPrevInverse` | GuidedTroubleshooting.jsx:177-183 | back undoes forward below step 4, forward undoes back above step 1, and both ends are fixed points |
| `Wizard.HandleInputChange` | GuidedTroubleshooting.jsx:75-80 | the named field takes the new value and every other field is unchanged |
| `Wizard.ChangesCommute` | GuidedTroubleshooting.jsx:75-80 | of two edits of one field the later wins; edits of different fields commute |
| `Wizard.HandleSymptomToggle` | GuidedTroubleshooting.jsx:82-89 | checking appends the id at the end, even when it is already there; unchecking filters the list through `Without`; only the symptoms change |
| `Wizard.WithoutCounts` | GuidedTroubleshooting.jsx:87 | unchecking removes every occurrence of the id and keeps every other id as often as before |
| `Wizard.WithoutConcat` | GuidedTroubleshooting.jsx:87 | the filter works piecewise, so the remaining ids keep their order |
| `Wizard.ToggleOnOff` | GuidedTroubleshooting.jsx:82-89 | unchecking right after checking an id that was not selected restores the form |
| `Wizard.Without` | GuidedTroubleshooting.jsx:87 | the filter never lengthens the list; `WithoutCounts` and `WithoutConcat` make it exact |
| `Wizard.CanProceed` | GuidedTroubleshooting.jsx:189-202 | only the four steps can ever proceed, and steps 3 and 4 always can |
| `Wizard.ProceedBlockers` | GuidedTroubleshooting.jsx:189-202 | only steps 1 and 2 can hold the wizard back; checking a symptom always unblocks step 2 and unchecking the only one blocks it |
| `Wizard.CleanCodes` | GuidedTroubleshooting.jsx:420 | trimming and filtering comma-free pieces leaves only codes: non-empty, no surrounding whitespace, no comma |
| `Wizard.ParseErrorCodes` | GuidedTroubleshooting.jsx:420 | every parsed code is non-empty, has no surrounding whitespace and no comma |
| `Wizard.JoinCodes` | GuidedTroubleshooting.jsx:419 | no contract of its own: the codes joined with `, `, as the field shows them; stated by `ParseJoinCodes` |
| `Wizard.SingleCode` | GuidedTroubleshooting.jsx:420 | a non-blank, comma-free input gives exactly one code, its trim |
| `Wizard.ParseJoinCodes` | GuidedTroubleshooting.jsx:419-420 | parsing what the field shows, the codes joined with `, `, gives the codes back |
| `Wizard.LeadingSpaceIgnored` | GuidedTroubleshooting.jsx:420 | a space in front of the field's text does not change the parsed codes |
| `Wizard.OfCategoryMembers` | GuidedTroubleshooting.jsx:61-67 | a symptom is in exactly the group of its own category |
| `Wizard.OfCategoryConcat` | GuidedTroubleshooting.jsx:61-67 | grouping works piecewise, so each group keeps catalogue order |
| `Wizard.GroupByCategory` | GuidedTroubleshooting.jsx:61-72 | the `reduce` loop fails exactly when some category names an inherited `Object.prototype` property, on which `push` throws and the `catch` leaves nothing grouped; otherwise it creates a key exactly for each category that occurs, holding that category's symptoms in catalogue order |

## Left out

- Network and I/O: every `fetch`, the polling with `setTimeout`, alerts and
  console logging. The Flask routes, `jsonify`, CORS, environment loading
  and the server entry point are not part of this model either.
- The language-model call and its prompt. The model's answer is a
  parameter of `Diagnosis.Enhance`. Whether a key is configured, and the
  exception path that keeps the rule-based record, are not modelled.
- The `uuid` and `datetime` fields of the stored sessions: they are
  nondeterministic.
- React itself. JSX elements, class names and keys become the neutral
  datatypes `Block`, `Part` and `Inline`. The results view that feeds the
  formatter's output to the renderer is not modelled.
- The reference tables' descriptions and common issues, and the symptoms'
  categories in the back end: the rules never read them.
- `location`, `measurements`, `error_codes` and `description` of
  `get_enhanced_diagnosis`: they are only used in the prompt.
- `handleMeasurementChange` (`parseFloat`) and `getStepProgress` (a
  division): floating point. For the same reason the form's measurements are
  an opaque map and are never read.
- QuickSubmit.jsx: file reading, the upload and the form reset are UI and
  I/O. `Diagnosis.QuickSubmitIsDefault` covers the back-end call it makes.
- `Inline.SortByStart`: the in-place engine sort of `Array.prototype.sort`
  is stated as a stable sort by start, written as an insertion-sort function
  on sequences. The engine's algorithm is not modelled, only its result.
- `Wizard.GroupByCategory`: the result is a map, so the insertion order of
  the object's keys, which decides the order the categories are shown in,
  is not modelled.
- `Wizard.CanProceed` returns a boolean. The source returns the location
  string itself, which is truthy, when step 1 passes.
- `Diagnosis.SummaryHead`: `str.lower()` is modelled on ASCII letters only.
  The issue titles it lowers are ASCII.
- The `/i` flag is modelled as ASCII case folding. The patterns are ASCII,
  and JavaScript's non-Unicode canonicalisation refuses to map a non-ASCII
  character onto an ASCII one.
- `.` in the inline patterns is modelled as excluding the four JavaScript
  line terminators. `\s` and `trim()` share one whitespace predicate.
- Differences between the code and its description, where the model
  follows the code:
  - a line holding only a list marker is a paragraph, not an empty item;
  - the confidence of a stored session defaults to a constant when the
    record has none, which is not modelled.
