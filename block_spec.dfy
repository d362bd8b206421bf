/**
 * The block parser as a function of its inputs: the blocks it emits, the
 * state it carries from one line to the next, and what one line does to
 * that state.  `MarkdownParser` runs the same steps in place and is proved
 * to compute exactly these functions.
 */
module BlockSpec {
  import opened Wrappers
  import opened Strings
  import opened InlineTokenizer
  import opened BlockPatterns

  /** The elements the parser emits, with their inline content already tokenized. */
  datatype Block =
    | Paragraph(content: seq<Inline>)
    | Heading(level: nat, content: seq<Inline>)
    | UnorderedList(items: seq<seq<Inline>>)
    | OrderedList(start: nat, items: seq<seq<Inline>>)
    | CodeBlock(language: string, text: string)
    | Rule

  datatype OrderedAcc = OrderedAcc(start: nat, items: seq<string>)

  datatype CodeAcc = CodeAcc(language: string, lines: seq<string>)

  /** The locals shared by the loop and the four flush helpers. */
  datatype State = State(
    elements: seq<Block>,
    paragraph: seq<string>,
    unordered: Option<seq<string>>,
    ordered: Option<OrderedAcc>,
    code: Option<CodeAcc>)

  const Init := State([], [], None, None, None)

  /**
   * What holds between lines: at most one list is open, an open list has an
   * item (so the continuation rule has a last item to extend), and inside a
   * fence nothing else is open.
   */
  predicate Inv(st: State) {
    && !(st.unordered.Some? && st.ordered.Some?)
    && (st.unordered.Some? ==> st.unordered.value != [])
    && (st.ordered.Some? ==> st.ordered.value.items != [])
    && (st.code.Some? ==> st.paragraph == [] && st.unordered.None? && st.ordered.None?)
  }

  // ---------------------------------------------------------------------------
  // The four flushes.
  // ---------------------------------------------------------------------------

  /** One list item, trimmed and tokenized. */
  function RenderItem(item: string): seq<Inline> {
    Tokenize(Trim(item))
  }

  /** Each list item, trimmed and tokenized. */
  function RenderItems(items: seq<string>): seq<seq<Inline>> {
    seq(|items|, k requires 0 <= k < |items| => RenderItem(items[k]))
  }

  function FlushParagraph(st: State): State {
    if st.paragraph == [] then st
    else st.(elements := st.elements + [Paragraph(Tokenize(Join(st.paragraph, " ")))], paragraph := [])
  }

  function FlushUnordered(st: State): State {
    if st.unordered.None? || st.unordered.value == [] then st
    else st.(elements := st.elements + [UnorderedList(RenderItems(st.unordered.value))], unordered := None)
  }

  function FlushOrdered(st: State): State {
    if st.ordered.None? || st.ordered.value.items == [] then st
    else
      st.(elements := st.elements + [OrderedList(st.ordered.value.start, RenderItems(st.ordered.value.items))],
          ordered := None)
  }

  function FlushCode(st: State): State {
    if st.code.None? then st
    else st.(elements := st.elements + [CodeBlock(Lower(st.code.value.language), Join(st.code.value.lines, "\n"))],
             code := None)
  }

  /** The three flushes every structural line starts with. */
  function FlushText(st: State): State {
    FlushOrdered(FlushUnordered(FlushParagraph(st)))
  }

  // ---------------------------------------------------------------------------
  // One line.
  // ---------------------------------------------------------------------------

  /** Inside a fence: a fence line closes it, any other line is kept as it came. */
  function StepInFence(st: State, raw: string): State
    requires st.code.Some?
  {
    if HasFence(Trim(TrimEnd(raw))) then FlushCode(st)
    else st.(code := Some(st.code.value.(lines := st.code.value.lines + [raw])))
  }

  /** The language of a fence: the line without its backticks, trimmed. */
  function FenceLanguage(t: string): string {
    Trim(RemoveAll(t, '`'))
  }

  /** `x` joined to the last item with one space. */
  function ExtendLast(items: seq<string>, x: string): (r: seq<string>)
    requires items != []
  {
    items[|items| - 1 := items[|items| - 1] + " " + x]
  }

  /** A non-blank line outside a fence, tested in the order the parser tests it. */
  function StepLine(st: State, raw: string, t: string): State
    requires Inv(st) && st.code.None?
  {
    if HasFence(t) then
      FlushText(st).(code := Some(CodeAcc(FenceLanguage(t), [])))
    else if IsRule(t) then
      var s1 := FlushText(st);
      s1.(elements := s1.elements + [Rule])
    else if MatchHeading(t).Some? then
      var h := MatchHeading(t).value;
      var level := if h.hashes < 6 then h.hashes else 6;
      var s1 := FlushText(st);
      s1.(elements := s1.elements + [Heading(HeadingTag(level), Tokenize(Trim(h.text)))])
    else if MatchUnordered(t).Some? then
      var s1 := FlushOrdered(FlushParagraph(st));
      s1.(unordered := Some(s1.unordered.GetOr([]) + [MatchUnordered(t).value]))
    else if MatchOrdered(t).Some? then
      var m := MatchOrdered(t).value;
      var s1 := FlushUnordered(FlushParagraph(st));
      var acc := if s1.ordered.Some? then s1.ordered.value else OrderedAcc(m.start, []);
      s1.(ordered := Some(acc.(items := acc.items + [m.item])))
    else if st.unordered.Some? && IsIndented(raw) then
      st.(unordered := Some(ExtendLast(st.unordered.value, Trim(raw))))
    else if st.ordered.Some? && IsIndented(raw) then
      st.(ordered := Some(st.ordered.value.(items := ExtendLast(st.ordered.value.items, Trim(raw)))))
    else
      st.(paragraph := st.paragraph + [t])
  }

  /** The three text flushes leave no paragraph and no list open, and do not touch the fence. */
  lemma FlushTextClears(st: State)
    requires Inv(st)
    ensures var r := FlushText(st);
            r.paragraph == [] && r.unordered.None? && r.ordered.None? && r.code == st.code
  {
  }

  lemma StepLineInv(st: State, raw: string, t: string)
    requires Inv(st) && st.code.None?
    ensures Inv(StepLine(st, raw, t))
  {
    FlushTextClears(st);
  }

  /** What one input line does to the state. */
  function Step(st: State, raw: string): (r: State)
    requires Inv(st)
    ensures Inv(r)
  {
    if st.code.Some? then StepInFence(st, raw)
    else
      var t := Trim(TrimEnd(raw));
      if t == [] then FlushTextClears(st); FlushText(st)
      else StepLineInv(st, raw, t); StepLine(st, raw, t)
  }

  /** The state after the given lines, one `Step` per line in order. */
  function Run(st: State, lines: seq<string>): (r: State)
    requires Inv(st)
    ensures Inv(r)
    decreases |lines|
  {
    if lines == [] then st else Step(Run(st, lines[..|lines| - 1]), lines[|lines| - 1])
  }

  /** One more line is one more `Step`. */
  lemma RunPrefix(st: State, lines: seq<string>, i: nat)
    requires Inv(st) && i < |lines|
    ensures Run(st, lines[..i + 1]) == Step(Run(st, lines[..i]), lines[i])
  {
    assert lines[..i + 1][..i] == lines[..i];
  }

  /** End of input: paragraph, unordered list, ordered list, then code. */
  function Finish(st: State): State {
    FlushCode(FlushText(st))
  }

  /** `markdown.replace(/\r\n/g, "\n").split("\n")`. */
  function Lines(markdown: string): seq<string> {
    Split(NormalizeNewlines(markdown), '\n')
  }

  /** What `parseMarkdown(markdown)` returns. */
  function Parse(markdown: string): seq<Block> {
    Finish(Run(Init, Lines(markdown))).elements
  }
}
