/**
  The block parser of the markdown renderer (`parseMarkdown`) and the
  renderer's entry point.

  The text is split on '\n' and every line is trimmed, then classified in a
  fixed order: blank, "## ", "### ", "- " or "* ", `^\d+\.\s`, paragraph.
  The parser keeps an open list (`currentList`, `currentListItems`) and the
  kind of the last list (`listType`, initially bullet); a blank line, a
  heading or a paragraph flushes the open list first, a list line of the
  other kind flushes it and switches the kind, and a list still open at
  the end is flushed last.

  `Parse` states the parser as a fold over the classified lines; the method
  `ParseMarkdown` is the loop of the source, proved equal to it. `Group` is
  an independent description of the result (maximal runs of same-kind list
  lines become one list each) and `ParseIsGrouping` connects the two.
*/
module Markdown {
  import opened Optional
  import opened Strings
  import opened Inline

  datatype ListKind = Bullet | Numbered

  /** One rendered block: `h2`, `h3`, `p`, `ul`/`ol` with its `li` items, or
      the spacing `div` of a blank line. */
  datatype Block =
    | Heading2(title: Inline)
    | Heading3(title: Inline)
    | Paragraph(body: Inline)
    | List(kind: ListKind, items: seq<Inline>)
    | Spacer

  /** A trimmed line, classified, with the text its branch hands to the
      inline resolver. */
  datatype Line =
    | BlankLine
    | H2Line(text: string)
    | H3Line(text: string)
    | ItemLine(kind: ListKind, text: string)
    | TextLine(text: string)

  /** The length of a `^\d+\.\s` prefix of `t` (digits, a period, one
      whitespace character), or 0 when `t` has none. */
  function NumberedPrefix(t: string): (n: nat)
    ensures n == 0 || (2 < n <= |t| && t[n - 2] == '.' && IsSpace(t[n - 1]))
    ensures forall i :: 0 <= i < n - 2 ==> IsDigit(t[i])
  {
    DigitRunDigits(t, 0);
    var d := DigitRun(t, 0);
    if d > 0 && d + 1 < |t| && t[d] == '.' && IsSpace(t[d + 1]) then d + 2 else 0
  }

  /** Every string that does have such a prefix is recognised, with its
      exact length. */
  lemma NumberedPrefixComplete(t: string, d: nat)
    requires 0 < d && d + 1 < |t|
    requires forall i :: 0 <= i < d ==> IsDigit(t[i])
    requires t[d] == '.' && IsSpace(t[d + 1])
    ensures NumberedPrefix(t) == d + 2
  {
    DigitRunExact(t, 0, d);
  }

  /** The classification of one raw line: it is trimmed, then tested in
      the source's order. */
  function Classify(raw: string): Line
  {
    ClassifyTrimmed(Trim(raw))
  }

  function ClassifyTrimmed(t: string): Line
  {
    if t == [] then BlankLine
    else if StartsWith(t, "## ") then H2Line(Trim(t[3..]))
    else if StartsWith(t, "### ") then H3Line(Trim(t[4..]))
    else if StartsWith(t, "- ") || StartsWith(t, "* ") then ItemLine(Bullet, Trim(t[2..]))
    else if NumberedPrefix(t) > 0 then ItemLine(Numbered, Trim(t[NumberedPrefix(t)..]))
    else TextLine(t)
  }

  /** What a classified line contributes: an item for the open list, or a
      block of its own. */
  datatype Element = Item(kind: ListKind, item: Inline) | Single(block: Block)

  function ElementOf(line: Line): Element
  {
    match line
    case BlankLine => Single(Spacer)
    case H2Line(t) => Single(Heading2(Resolve(t)))
    case H3Line(t) => Single(Heading3(Resolve(t)))
    case ItemLine(k, t) => Item(k, Resolve(t))
    case TextLine(t) => Single(Paragraph(Resolve(t)))
  }

  function Elements(lines: seq<string>): (es: seq<Element>)
  {
    seq(|lines|, i requires 0 <= i < |lines| => ElementOf(Classify(lines[i])))
  }

  /** The parser's state: the blocks pushed so far, the items of the open
      list (the list is open exactly when there are some) and the kind of
      the last list. */
  datatype State = State(blocks: seq<Block>, items: seq<Inline>, listType: ListKind)

  const Start := State([], [], Bullet)

  /** Close the open list, if any, keeping its kind. */
  function Flush(st: State): State
  {
    if st.items == [] then st else State(st.blocks + [List(st.listType, st.items)], [], st.listType)
  }

  /** One line's transition. */
  function Step(st: State, e: Element): State
  {
    match e
    case Single(b) =>
      var f := Flush(st);
      State(f.blocks + [b], [], f.listType)
    case Item(k, x) =>
      var f := if k == st.listType then st else Flush(st);
      State(f.blocks, f.items + [x], k)
  }

  /** The remaining lines' transitions, then the final flush. */
  function Walk(st: State, es: seq<Element>): seq<Block>
    decreases |es|
  {
    if es == [] then Flush(st).blocks else Walk(Step(st, es[0]), es[1..])
  }

  /** `parseMarkdown(text)`. */
  function Parse(text: string): seq<Block>
  {
    Walk(Start, Elements(Split(text, '\n')))
  }

  /** `MarkdownRenderer({content})`: nothing for absent or empty content. */
  function Render(content: Option<string>): (r: Option<seq<Block>>)
  {
    if content.None? || content.value == [] then None else Some(Parse(content.value))
  }

  /** The source's loop over the lines, with its three mutable variables. */
  method ParseMarkdown(text: string) returns (elements: seq<Block>)
    ensures elements == Parse(text)
  {
    var lines := Split(text, '\n');
    elements := [];
    var currentList := false;
    var currentListItems: seq<Inline> := [];
    var listType := Bullet;
    ghost var es := Elements(lines);
    for i := 0 to |lines|
      invariant currentList <==> currentListItems != []
      invariant Walk(State(elements, currentListItems, listType), es[i..]) == Parse(text)
    {
      assert es[i..] == [es[i]] + es[i + 1..];
      elements, currentList, currentListItems, listType :=
        ParseLine(Classify(lines[i]), elements, currentList, currentListItems, listType);
    }
    if currentList {
      elements := elements + [List(listType, currentListItems)];
    }
  }

  /** The body of the source's `forEach` for one line, once `Classify` has
      trimmed it and made the source's tests in the source's order: the
      state changes the source makes for each outcome. */
  method ParseLine(line: Line, elements: seq<Block>, currentList: bool,
                   currentListItems: seq<Inline>, listType: ListKind)
    returns (elements': seq<Block>, currentList': bool,
             currentListItems': seq<Inline>, listType': ListKind)
    requires currentList <==> currentListItems != []
    ensures currentList' <==> currentListItems' != []
    ensures State(elements', currentListItems', listType')
      == Step(State(elements, currentListItems, listType), ElementOf(line))
  {
    elements', currentList', currentListItems', listType' := elements, currentList, currentListItems, listType;
    match line
    case BlankLine =>
      if currentList' {
        elements' := elements' + [List(listType', currentListItems')];
        currentList' := false;
        currentListItems' := [];
      }
      elements' := elements' + [Spacer];
    case H2Line(headerText) =>
      if currentList' {
        elements' := elements' + [List(listType', currentListItems')];
        currentList' := false;
        currentListItems' := [];
      }
      var title := ParseInlineFormatting(headerText);
      elements' := elements' + [Heading2(title)];
    case H3Line(headerText) =>
      if currentList' {
        elements' := elements' + [List(listType', currentListItems')];
        currentList' := false;
        currentListItems' := [];
      }
      var title := ParseInlineFormatting(headerText);
      elements' := elements' + [Heading3(title)];
    case ItemLine(kind, listText) =>
      if listType' != kind {
        if currentList' {
          elements' := elements' + [List(listType', currentListItems')];
          currentListItems' := [];
        }
        listType' := kind;
      }
      currentList' := true;
      var item := ParseInlineFormatting(listText);
      currentListItems' := currentListItems' + [item];
    case TextLine(trimmedLine) =>
      if currentList' {
        elements' := elements' + [List(listType', currentListItems')];
        currentList' := false;
        currentListItems' := [];
      }
      var body := ParseInlineFormatting(trimmedLine);
      elements' := elements' + [Paragraph(body)];
  }

  // ---------------------------------------------------------------------
  // Classification

  /** Lines are trimmed before they are classified: indentation and
      trailing whitespace change nothing. */
  lemma ClassifyIgnoresIndentation(raw: string)
    ensures Classify(Trim(raw)) == Classify(raw)
  {
    TrimIdempotent(raw);
  }

  /** A line is blank exactly when it is all whitespace. */
  lemma BlankIffWhitespace(raw: string)
    ensures Classify(raw) == BlankLine <==> AllSpace(raw)
  {
    TrimEmptyIffBlank(raw);
  }

  /** A "### " line is a level-3 heading, never a level-2 one. */
  lemma H3NeverH2(raw: string)
    requires StartsWith(Trim(raw), "### ")
    ensures Classify(raw) == H3Line(Trim(Trim(raw)[4..]))
  {
    var t := Trim(raw);
    assert t[2] == '#';
  }

  /** A bare list marker is a paragraph: after trimming it no longer has the
      space that the list patterns require. */
  lemma BareDashIsParagraph()
    ensures Classify("-") == TextLine("-")
  {
    assert Trim("-") == "-";
  }

  lemma BareStarIsParagraph()
    ensures Classify("  * ") == TextLine("*")
  {
    assert TrimStart("  * ") == "* ";
    assert TrimEnd("* ") == "*";
  }

  lemma BareNumberIsParagraph()
    ensures Classify("1.") == TextLine("1.")
  {
    assert Trim("1.") == "1.";
    assert DigitRun("1.", 0) == 1;
  }

  /** A numbered line hands the resolver what follows its prefix, trimmed. */
  lemma NumberedItemText(raw: string, d: nat)
    requires var t := Trim(raw);
      && 0 < d && d + 1 < |t| && (forall i :: 0 <= i < d ==> IsDigit(t[i]))
      && t[d] == '.' && IsSpace(t[d + 1])
    ensures Classify(raw) == ItemLine(Numbered, Trim(Trim(raw)[d + 2..]))
  {
    var t := Trim(raw);
    NumberedPrefixComplete(t, d);
    assert IsDigit(t[0]);
  }

  // ---------------------------------------------------------------------
  // The reference description: maximal runs of same-kind items

  /** The number of leading elements of `es` that are items of kind `k`. */
  function RunLength(es: seq<Element>, k: ListKind): (n: nat)
    ensures n <= |es|
    ensures forall i :: 0 <= i < n ==> es[i].Item? && es[i].kind == k
    ensures n == |es| || !(es[n].Item? && es[n].kind == k)
  {
    if es != [] && es[0].Item? && es[0].kind == k then 1 + RunLength(es[1..], k) else 0
  }

  /** The items among `es`, in order. */
  function ItemsOf(es: seq<Element>): seq<Inline>
  {
    if es == [] then [] else (if es[0].Item? then [es[0].item] else []) + ItemsOf(es[1..])
  }

  /** Every element stands for one block, except that each maximal run of
      list items of one kind becomes a single list. */
  function Group(es: seq<Element>): seq<Block>
    decreases |es|
  {
    if es == [] then []
    else match es[0]
      case Single(b) => [b] + Group(es[1..])
      case Item(k, _) =>
        var n := RunLength(es, k);
        [List(k, ItemsOf(es[..n]))] + Group(es[n..])
  }

  lemma RunStep(es: seq<Element>, k: ListKind)
    requires es != [] && es[0].Item? && es[0].kind == k
    ensures var n := RunLength(es, k); var n' := RunLength(es[1..], k);
      && n == n' + 1
      && ItemsOf(es[..n]) == [es[0].item] + ItemsOf(es[1..][..n'])
      && es[n..] == es[1..][n'..]
  {
    var n := RunLength(es, k);
    var n' := RunLength(es[1..], k);
    assert es[..n][1..] == es[1..][..n'];
  }

  /** How the fold relates to the grouping from state `st`: with no open
      list the rest is grouped, and an open list absorbs the run of its
      kind that follows. */
  predicate WalkIsGrouping(st: State, es: seq<Element>)
  {
    && (st.items == [] ==> Walk(st, es) == st.blocks + Group(es))
    && (st.items != [] ==>
         var n := RunLength(es, st.listType);
         Walk(st, es) == st.blocks + [List(st.listType, st.items + ItemsOf(es[..n]))] + Group(es[n..]))
  }

  /** The fold and the grouping agree from any state. */
  lemma {:induction false} WalkGroups(st: State, es: seq<Element>)
    ensures WalkIsGrouping(st, es)
    decreases |es|
  {
    if es == [] {
      assert es[..0] == [] && es[0..] == [];
      assert ItemsOf([]) == [] && Group([]) == [];
      assert st.items + [] == st.items;
    } else {
      WalkGroups(Step(st, es[0]), es[1..]);
      if es[0].Single? {
        WalkGroupsSingle(st, es);
      } else {
        WalkGroupsItem(st, es);
      }
    }
  }

  lemma WalkGroupsSingle(st: State, es: seq<Element>)
    requires es != [] && es[0].Single?
    requires WalkIsGrouping(Step(st, es[0]), es[1..])
    ensures WalkIsGrouping(st, es)
  {
    var b := es[0].block;
    var rest := es[1..];
    assert Group(es) == [b] + Group(rest);
    assert Walk(st, es) == Flush(st).blocks + [b] + Group(rest);
    if st.items != [] {
      assert RunLength(es, st.listType) == 0;
      assert es[..0] == [] && es[0..] == es;
      assert st.items + ItemsOf([]) == st.items;
      assert Flush(st).blocks == st.blocks + [List(st.listType, st.items)];
    }
  }

  lemma WalkGroupsItem(st: State, es: seq<Element>)
    requires es != [] && es[0].Item?
    requires WalkIsGrouping(Step(st, es[0]), es[1..])
    ensures WalkIsGrouping(st, es)
  {
    RunStep(es, es[0].kind);
    if st.items == [] {
      WalkGroupsOpen(st, es);
    } else if es[0].kind != st.listType {
      WalkGroupsSwitch(st, es);
    } else {
      WalkGroupsExtend(st, es);
    }
  }

  lemma WalkUnfold(st: State, es: seq<Element>)
    requires es != []
    ensures Walk(st, es) == Walk(Step(st, es[0]), es[1..])
  {
  }

  lemma GroupUnfoldItem(es: seq<Element>)
    requires es != [] && es[0].Item?
    ensures Group(es) == [List(es[0].kind, ItemsOf(es[..RunLength(es, es[0].kind)]))] + Group(es[RunLength(es, es[0].kind)..])
  {
  }

  /** An item with no list open opens one. */
  lemma WalkGroupsOpen(st: State, es: seq<Element>)
    requires es != [] && es[0].Item? && st.items == []
    requires WalkIsGrouping(Step(st, es[0]), es[1..])
    ensures Walk(st, es) == st.blocks + Group(es)
  {
    var k, x, rest := es[0].kind, es[0].item, es[1..];
    var n := RunLength(es, k);
    var items, g := ItemsOf(es[..n]), Group(es[n..]);
    assert Walk(st, es) == st.blocks + [List(k, items)] + g by {
      RunStep(es, k);
      var n' := RunLength(rest, k);
      WalkUnfold(st, es);
      assert Step(st, es[0]) == State(st.blocks, [x], k);
      assert [x] + ItemsOf(rest[..n']) == items;
      assert Group(rest[n'..]) == g;
    }
    assert Group(es) == [List(k, items)] + g by {
      GroupUnfoldItem(es);
    }
    Assoc(st.blocks, [List(k, items)], g);
  }

  /** An item of the other kind closes the open list and opens a new one. */
  lemma WalkGroupsSwitch(st: State, es: seq<Element>)
    requires es != [] && es[0].Item? && st.items != [] && es[0].kind != st.listType
    requires WalkIsGrouping(Step(st, es[0]), es[1..])
    ensures Walk(st, es) == st.blocks + [List(st.listType, st.items + ItemsOf(es[..RunLength(es, st.listType)]))]
      + Group(es[RunLength(es, st.listType)..])
  {
    var k, x, rest := es[0].kind, es[0].item, es[1..];
    var n := RunLength(es, k);
    var items, g := ItemsOf(es[..n]), Group(es[n..]);
    var closed := List(st.listType, st.items);
    assert Walk(st, es) == st.blocks + [closed] + [List(k, items)] + g by {
      RunStep(es, k);
      var n' := RunLength(rest, k);
      WalkUnfold(st, es);
      assert Step(st, es[0]) == State(st.blocks + [closed], [x], k);
      assert [x] + ItemsOf(rest[..n']) == items;
      assert Group(rest[n'..]) == g;
    }
    assert Group(es) == [List(k, items)] + g by {
      GroupUnfoldItem(es);
    }
    assert st.items + ItemsOf(es[..RunLength(es, st.listType)]) == st.items by {
      assert RunLength(es, st.listType) == 0;
      assert es[..0] == [];
      assert st.items + ItemsOf([]) == st.items;
    }
    assert es[RunLength(es, st.listType)..] == es by {
      assert RunLength(es, st.listType) == 0;
    }
    Assoc(st.blocks + [closed], [List(k, items)], g);
  }

  /** An item of the open list's kind joins it. */
  lemma WalkGroupsExtend(st: State, es: seq<Element>)
    requires es != [] && es[0].Item? && st.items != [] && es[0].kind == st.listType
    requires WalkIsGrouping(Step(st, es[0]), es[1..])
    ensures Walk(st, es) == st.blocks + [List(st.listType, st.items + ItemsOf(es[..RunLength(es, st.listType)]))]
      + Group(es[RunLength(es, st.listType)..])
  {
    var k, x, rest := es[0].kind, es[0].item, es[1..];
    var n := RunLength(es, k);
    var items := ItemsOf(es[..n]);
    RunStep(es, k);
    var n' := RunLength(rest, k);
    assert Walk(st, es) == st.blocks + [List(k, st.items + [x] + ItemsOf(rest[..n']))] + Group(rest[n'..]) by {
      WalkUnfold(st, es);
      assert Step(st, es[0]) == State(st.blocks, st.items + [x], k);
    }
    Assoc(st.items, [x], ItemsOf(rest[..n']));
  }

  /** The parser is the grouping of its lines' elements. */
  lemma ParseIsGrouping(text: string)
    ensures Parse(text) == Group(Elements(Split(text, '\n')))
  {
    WalkGroups(Start, Elements(Split(text, '\n')));
    assert WalkIsGrouping(Start, Elements(Split(text, '\n')));
  }

  /** Lines never stand for a list block of their own: lists come only from
      runs of items. */
  predicate NoListSingles(es: seq<Element>)
  {
    forall i :: 0 <= i < |es| ==> !(es[i].Single? && es[i].block.List?)
  }

  lemma ElementsHaveNoListSingles(lines: seq<string>)
    ensures NoListSingles(Elements(lines))
  {
  }

  lemma NoListSinglesSuffix(es: seq<Element>, n: nat)
    requires NoListSingles(es) && n <= |es|
    ensures NoListSingles(es[n..])
  {
    forall i | 0 <= i < |es[n..]| ensures !(es[n..][i].Single? && es[n..][i].block.List?) {
      assert es[n..][i] == es[n + i];
    }
  }

  /** A block in front of a grouping whose lists all have items. */
  lemma ListsNonEmptyCons(b: Block, g: seq<Block>)
    requires b.List? ==> b.items != []
    requires forall i :: 0 <= i < |g| && g[i].List? ==> g[i].items != []
    ensures forall i :: 0 <= i < |[b] + g| && ([b] + g)[i].List? ==> ([b] + g)[i].items != []
  {
    forall i | 0 <= i < |[b] + g| && ([b] + g)[i].List? ensures ([b] + g)[i].items != [] {
      if i > 0 {
        assert ([b] + g)[i] == g[i - 1];
      }
    }
  }

  /** Every emitted list has at least one item. */
  lemma {:induction false} GroupListsNonEmpty(es: seq<Element>)
    requires NoListSingles(es)
    ensures forall i :: 0 <= i < |Group(es)| && Group(es)[i].List? ==> Group(es)[i].items != []
    decreases |es|
  {
    if es != [] {
      match es[0]
      case Single(b) => {
        NoListSinglesSuffix(es, 1);
        GroupListsNonEmpty(es[1..]);
        assert Group(es) == [b] + Group(es[1..]);
        assert !b.List?;
        ListsNonEmptyCons(b, Group(es[1..]));
      }
      case Item(k, x) => {
        var n := RunLength(es, k);
        var items := ItemsOf(es[..n]);
        assert items != [] by {
          RunStep(es, k);
        }
        NoListSinglesSuffix(es, n);
        GroupListsNonEmpty(es[n..]);
        GroupUnfoldItem(es);
        ListsNonEmptyCons(List(k, items), Group(es[n..]));
      }
    }
  }

  /** The first block of the grouping of a non-empty sequence: a list of the
      first item's kind, or the first element's own block. */
  lemma GroupHead(es: seq<Element>)
    requires es != []
    ensures Group(es) != []
    ensures es[0].Item? ==> Group(es)[0].List? && Group(es)[0].kind == es[0].kind
    ensures es[0].Single? ==> Group(es)[0] == es[0].block
  {
  }

  /** Two lists are never adjacent unless their kinds differ: a run of
      one kind cannot be followed directly by another run of that kind. */
  lemma {:induction false} GroupAdjacentListsDiffer(es: seq<Element>)
    requires NoListSingles(es)
    ensures forall i :: 0 <= i < |Group(es)| - 1 && Group(es)[i].List? && Group(es)[i + 1].List? ==>
      Group(es)[i].kind != Group(es)[i + 1].kind
    decreases |es|
  {
    if es != [] {
      match es[0]
      case Single(b) => {
        GroupAdjacentListsDiffer(es[1..]);
        assert forall i :: 1 <= i < |Group(es)| ==> Group(es)[i] == Group(es[1..])[i - 1];
        if es[1..] != [] {
          GroupHead(es[1..]);
        }
      }
      case Item(k, x) => {
        var n := RunLength(es, k);
        RunStep(es, k);
        GroupAdjacentListsDiffer(es[n..]);
        assert forall i :: 1 <= i < |Group(es)| ==> Group(es)[i] == Group(es[n..])[i - 1];
        if es[n..] != [] {
          GroupHead(es[n..]);
          assert es[n..][0] == es[n];
        }
      }
    }
  }

  /** The number of spacer blocks, and of items over all lists. */
  function Spacers(bs: seq<Block>): nat
  {
    if bs == [] then 0 else (if bs[0] == Spacer then 1 else 0) + Spacers(bs[1..])
  }

  function ListedItems(bs: seq<Block>): nat
  {
    if bs == [] then 0 else (if bs[0].List? then |bs[0].items| else 0) + ListedItems(bs[1..])
  }

  /** The number of blank lines, and of list lines. */
  function BlankLines(lines: seq<string>): nat
  {
    if lines == [] then 0 else (if AllSpace(lines[0]) then 1 else 0) + BlankLines(lines[1..])
  }

  function ListLines(lines: seq<string>): nat
  {
    if lines == [] then 0 else (if Classify(lines[0]).ItemLine? then 1 else 0) + ListLines(lines[1..])
  }

  function SpacerElements(es: seq<Element>): nat
  {
    if es == [] then 0 else (if es[0] == Single(Spacer) then 1 else 0) + SpacerElements(es[1..])
  }

  lemma {:induction false} SpacersOfRun(es: seq<Element>, k: ListKind)
    ensures var n := RunLength(es, k);
      SpacerElements(es) == SpacerElements(es[n..]) && |ItemsOf(es[..n])| == n
    decreases |es|
  {
    if es != [] && es[0].Item? && es[0].kind == k {
      SpacersOfRun(es[1..], k);
      RunStep(es, k);
    } else {
      assert es[0..] == es && es[..0] == [];
    }
  }

  lemma {:induction false} ItemsOfRun(es: seq<Element>, k: ListKind)
    ensures var n := RunLength(es, k);
      |ItemsOf(es)| == n + |ItemsOf(es[n..])|
    decreases |es|
  {
    if es != [] && es[0].Item? && es[0].kind == k {
      ItemsOfRun(es[1..], k);
      RunStep(es, k);
    } else {
      assert es[0..] == es;
    }
  }

  /** The grouping keeps every spacer and every item. */
  lemma {:induction false} GroupCounts(es: seq<Element>)
    requires NoListSingles(es)
    ensures Spacers(Group(es)) == SpacerElements(es)
    ensures ListedItems(Group(es)) == |ItemsOf(es)|
    decreases |es|
  {
    if es != [] {
      match es[0]
      case Single(b) => {
        GroupCounts(es[1..]);
        assert ([b] + Group(es[1..]))[1..] == Group(es[1..]);
      }
      case Item(k, x) => {
        var n := RunLength(es, k);
        RunStep(es, k);
        GroupCounts(es[n..]);
        SpacersOfRun(es, k);
        ItemsOfRun(es, k);
        var g := [List(k, ItemsOf(es[..n]))] + Group(es[n..]);
        assert g[1..] == Group(es[n..]);
      }
    }
  }

  lemma {:induction false} ElementCounts(lines: seq<string>)
    ensures SpacerElements(Elements(lines)) == BlankLines(lines)
    ensures |ItemsOf(Elements(lines))| == ListLines(lines)
  {
    if lines != [] {
      ElementCounts(lines[1..]);
      var es := Elements(lines);
      assert es[1..] == Elements(lines[1..]);
      BlankIffWhitespace(lines[0]);
    }
  }

  /** Each whitespace-only line gives exactly one spacer (blank lines are not
      collapsed), and each list line exactly one item of one list. */
  lemma ParseCounts(text: string)
    ensures Spacers(Parse(text)) == BlankLines(Split(text, '\n'))
    ensures ListedItems(Parse(text)) == ListLines(Split(text, '\n'))
  {
    ParseIsGrouping(text);
    ElementsHaveNoListSingles(Split(text, '\n'));
    GroupCounts(Elements(Split(text, '\n')));
    ElementCounts(Split(text, '\n'));
  }

  /** Every list is non-empty and adjacent lists differ in kind. */
  lemma ParseListsWellFormed(text: string)
    ensures var bs := Parse(text);
      && (forall i :: 0 <= i < |bs| && bs[i].List? ==> bs[i].items != [])
      && (forall i :: 0 <= i < |bs| - 1 && bs[i].List? && bs[i + 1].List? ==> bs[i].kind != bs[i + 1].kind)
  {
    ParseIsGrouping(text);
    ElementsHaveNoListSingles(Split(text, '\n'));
    GroupListsNonEmpty(Elements(Split(text, '\n')));
    GroupAdjacentListsDiffer(Elements(Split(text, '\n')));
  }

  /** Every line yields a block or an item, so present text always renders
      to at least one block. */
  lemma RenderNonEmpty(content: Option<string>)
    ensures Render(content).None? <==> content.None? || content.value == []
    ensures Render(content).Some? ==> Render(content).value != []
  {
    if content.Some? && content.value != [] {
      var es := Elements(Split(content.value, '\n'));
      ParseIsGrouping(content.value);
      GroupHead(es);
    }
  }

  // ---------------------------------------------------------------------
  // Examples

  /** A list line with a one-character item. */
  lemma ClassifyBulletLine(line: string, c: char)
    requires line == ['-', ' ', c] && !IsSpace(c)
    ensures Classify(line) == ItemLine(Bullet, [c])
  {
    TrimOfTrimmed(line);
    assert line[2..] == [c];
    TrimOfTrimmed([c]);
    assert !StartsWith(line, "## ") by { assert line[0] != "## "[0]; }
    assert !StartsWith(line, "### ");
    assert line[..2] == "- ";
  }

  lemma ClassifyNumberedLine(line: string, c: char)
    requires line == ['1', '.', ' ', c] && !IsSpace(c)
    ensures Classify(line) == ItemLine(Numbered, [c])
  {
    TrimOfTrimmed(line);
    NumberedPrefixComplete(line, 1);
    assert line[3..] == [c];
    TrimOfTrimmed([c]);
    assert !StartsWith(line, "## ") by { assert line[0] != "## "[0]; }
    assert !StartsWith(line, "### ") by { assert line[0] != "### "[0]; }
    assert !StartsWith(line, "- ") by { assert line[0] != "- "[0]; }
    assert !StartsWith(line, "* ") by { assert line[0] != "* "[0]; }
  }

  lemma PlainItem(k: ListKind, t: string)
    requires t != [] && '*' !in t && '`' !in t
    ensures ElementOf(ItemLine(k, t)) == Item(k, Parts([Plain(t)]))
  {
    PlainTextUnchanged(t);
  }

  lemma ElementsOfThree(l0: string, l1: string, l2: string)
    ensures Elements([l0, l1, l2])
      == [ElementOf(Classify(l0)), ElementOf(Classify(l1)), ElementOf(Classify(l2))]
  {
  }

  lemma WalkSwitching(x: Inline, y: Inline, z: Inline)
    ensures Walk(Start, [Item(Bullet, x), Item(Numbered, y), Item(Bullet, z)])
      == [List(Bullet, [x]), List(Numbered, [y]), List(Bullet, [z])]
  {
    var es := [Item(Bullet, x), Item(Numbered, y), Item(Bullet, z)];
    var s1 := State([], [x], Bullet);
    var s2 := State([List(Bullet, [x])], [y], Numbered);
    var s3 := State([List(Bullet, [x]), List(Numbered, [y])], [z], Bullet);
    assert Step(Start, es[0]) == s1;
    assert Step(s1, es[1]) == s2;
    assert Step(s2, es[2]) == s3;
    assert Walk(s2, es[2..]) == Walk(s3, []);
    assert Walk(s1, es[1..]) == Walk(s2, es[2..]);
  }

  lemma WalkBlank(x: Inline, y: Inline)
    ensures Walk(Start, [Item(Bullet, x), Single(Spacer), Item(Bullet, y)])
      == [List(Bullet, [x]), Spacer, List(Bullet, [y])]
  {
    var es := [Item(Bullet, x), Single(Spacer), Item(Bullet, y)];
    var s1 := State([], [x], Bullet);
    var s2 := State([List(Bullet, [x]), Spacer], [], Bullet);
    var s3 := State([List(Bullet, [x]), Spacer], [y], Bullet);
    assert Step(Start, es[0]) == s1;
    assert Step(s1, es[1]) == s2;
    assert Step(s2, es[2]) == s3;
    assert Walk(s2, es[2..]) == Walk(s3, []);
    assert Walk(s1, es[1..]) == Walk(s2, es[2..]);
  }

  /** Three lines joined by line breaks split back into those lines. */
  lemma SplitThreeLines(a: string, b: string, c: string)
    requires '\n' !in a && '\n' !in b && '\n' !in c
    ensures Split(a + ['\n'] + b + ['\n'] + c, '\n') == [a, b, c]
  {
    SplitWithoutSeparator(c, '\n');
    SplitAtSeparator(b, '\n', c);
    assert a + ['\n'] + b + ['\n'] + c == a + ['\n'] + (b + ['\n'] + c);
    SplitAtSeparator(a, '\n', b + ['\n'] + c);
  }

  /** The element of a one-character bullet or numbered line. */
  lemma BulletElement(line: string, c: char)
    requires line == ['-', ' ', c] && !IsSpace(c) && c != '*' && c != '`'
    ensures ElementOf(Classify(line)) == Item(Bullet, Parts([Plain([c])]))
  {
    ClassifyBulletLine(line, c);
    PlainItem(Bullet, [c]);
  }

  lemma NumberedElement(line: string, c: char)
    requires line == ['1', '.', ' ', c] && !IsSpace(c) && c != '*' && c != '`'
    ensures ElementOf(Classify(line)) == Item(Numbered, Parts([Plain([c])]))
  {
    ClassifyNumberedLine(line, c);
    PlainItem(Numbered, [c]);
  }

  lemma SwitchingElements(l0: string, l1: string, l2: string)
    requires l0 == "- a" && l1 == "1. b" && l2 == "- c"
    ensures Elements([l0, l1, l2])
      == [Item(Bullet, Parts([Plain("a")])), Item(Numbered, Parts([Plain("b")])), Item(Bullet, Parts([Plain("c")]))]
  {
    ElementsOfThree(l0, l1, l2);
    BulletElement(l0, 'a');
    NumberedElement(l1, 'b');
    BulletElement(l2, 'c');
  }

  /** A change of list kind closes the list: "- a", "1. b", "- c" give three
      lists, bullet, numbered, bullet. */
  lemma SwitchingKindsSplitsLists()
    ensures Parse("- a\n1. b\n- c") == [
      List(Bullet, [Parts([Plain("a")])]),
      List(Numbered, [Parts([Plain("b")])]),
      List(Bullet, [Parts([Plain("c")])])]
  {
    assert "- a\n1. b\n- c" == "- a" + ['\n'] + "1. b" + ['\n'] + "- c";
    SplitThreeLines("- a", "1. b", "- c");
    SwitchingElements("- a", "1. b", "- c");
    WalkSwitching(Parts([Plain("a")]), Parts([Plain("b")]), Parts([Plain("c")]));
  }

  lemma BlankElements(l0: string, l1: string, l2: string)
    requires l0 == "- a" && l1 == "" && l2 == "- b"
    ensures Elements([l0, l1, l2])
      == [Item(Bullet, Parts([Plain("a")])), Single(Spacer), Item(Bullet, Parts([Plain("b")]))]
  {
    ElementsOfThree(l0, l1, l2);
    BulletElement(l0, 'a');
    BulletElement(l2, 'b');
    assert Classify(l1) == BlankLine;
  }

  /** A blank line closes the list and leaves a spacer: "- a", "", "- b"
      give two lists around a spacer. */
  lemma BlankLineSplitsLists()
    ensures Parse("- a\n\n- b") == [
      List(Bullet, [Parts([Plain("a")])]),
      Spacer,
      List(Bullet, [Parts([Plain("b")])])]
  {
    assert "- a\n\n- b" == "- a" + ['\n'] + "" + ['\n'] + "- b";
    SplitThreeLines("- a", "", "- b");
    BlankElements("- a", "", "- b");
    WalkBlank(Parts([Plain("a")]), Parts([Plain("b")]));
  }
}
