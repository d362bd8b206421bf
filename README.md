# A verified model of the Markdown renderer and the explorer's filter rules

This project models two pieces of a web front end that browses interview
problems by company.

**The Markdown renderer.** `parseMarkdown` walks a document line by line.
It keeps a paragraph buffer, an open unordered list, an open ordered list
and an open fenced code block, and it emits the blocks it finalises in
document order. `renderInline` cuts one block's text into text, strong,
emphasis, code and link nodes, and renders the insides of strong, emphasis
and link nodes again. `createHeading` maps a level to a heading tag.

**The company explorer's state rules.** These are:

- the problem key, and the clamp used for the percentage ranges;
- the "All Companies" entry, which holds every problem once (first
  occurrence wins), ordered by descending frequency;
- the index from problem key to the companies that list it;
- the difficulty toggle, which never switches off every difficulty;
- the four range inputs, and how a saved range is restored;
- the topic checkboxes, and the pruning of selected topics when the
  category changes;
- the problem filter, the visible page and "Load more".

## Files

| file | module | contents |
|---|---|---|
| `wrappers.dfy` | `Wrappers` | `Option`, for `null`, an absent field or a failed regular-expression match |
| `strings.dfy` | `Strings` | JavaScript whitespace, `trim`, trailing-whitespace removal, `split`, `join`, `toLowerCase` on ASCII, `includes` |
| `patterns.dfy` | `BlockPatterns` | the six line patterns of the renderer as explicit scanners |
| `inline.dfy` | `InlineTokenizer` | the inline pattern, the `Tokenize` reference function, and the `RenderInline` loop |
| `inline_properties.dfy` | `InlineProperties` | what tokenization preserves and produces |
| `block_spec.dfy` | `BlockSpec` | the segmenter as a function: state, flushes, one line (`Step`), many lines (`Run`), `Parse` |
| `parser.dfy` | `MarkdownParser` | the `BlockSegmenter` class, whose methods update the shared locals in place; `ParseMarkdown` |
| `block_properties.dfy` | `BlockProperties` | what each kind of line does; lists, fences and ordering |
| `explorer_rules.dfy` | `ExplorerRules` | records, key, clamp, difficulty toggle, ranges, topics, filter, paging |
| `explorer_catalog.dfy` | `ProblemCatalog` | the "All Companies" builder: de-duplication and frequency sort |
| `explorer_index.dfy` | `CompanyIndex` | the problem-to-companies index builder |

**How the renderer is modelled.** The segmenter's closures share five mutable
locals. Here they are the fields of `MarkdownParser.BlockSegmenter`. Each
method is proved to move that state exactly as the matching function of
`BlockSpec` does. `ParseMarkdown` runs the loop with the invariant
`segmenter.Current() == Run(Init, lines[..i])`, and is proved equal to
`BlockSpec.Parse`. The lemmas then state, about `Parse`, what the renderer
promises.

**How blocks are represented.** Blocks carry their inline content already
tokenized. A React node is modelled by the value it shows:
`Paragraph(content)`, `Heading(level, content)`, `UnorderedList(items)`,
`OrderedList(start, items)`, `CodeBlock(language, text)`, `Rule`.

**How the explorer is modelled.** The two nested-`forEach` builders are methods
with loops, proved equal to left folds. `Dedup` and `SortByFrequency` specify
"All Companies". `RefsFor` states the index key by key, without the map.

**Behaviour of the code a reader may not expect.**

- `"####### x"` (seven `#`) is not a heading. The heading pattern accepts one
  to six `#` followed by whitespace, so the line joins the paragraph
  (`SevenHashesIsParagraphText`). The cap at 6 in `Math.min` is therefore
  never reached.
- Strong text cannot contain emphasis. The span bodies exclude `*`, so
  `"**a *b* c**"` becomes `*`, emphasis `a `, `b`, emphasis ` c`, `*`
  (`NestedEmphasisSplitsStrong`).
- The fence pattern is not anchored. Any line that contains three backticks
  opens or closes a fence.
- A plain line right after a list item (not indented) goes to the paragraph
  buffer while the list stays open. At the next flush the paragraph is emitted
  before the list it followed (`ParagraphAfterItemComesFirst`).
- A fence emits a code block even when it holds no lines.
- The `!key` guards of both explorer builders can never fire, because a
  problem key is never empty (`ProblemKey`).

## Model

| member | source | states |
|---|---|---|
| Strings.TrimStart | src/components/markdown-renderer.tsx:112 | the result is a suffix of the input; what was removed is all whitespace; the result does not start with whitespace |
| Strings.TrimEnd | src/components/markdown-renderer.tsx:101 | `replace(/\s+$/, "")`: the result is a prefix of the input; what was removed is all whitespace; the result does not end with whitespace |
| Strings.Trim | src/components/markdown-renderer.tsx:112 | the result is empty exactly when the input is all whitespace; otherwise it neither starts nor ends with whitespace |
| Strings.TrimSlice | src/components/markdown-renderer.tsx:112 | the result is the slice of the input between a whitespace-only head and a whitespace-only tail, so with the Trim clauses it is exactly what `trim` returns |
| Strings.Split | src/components/markdown-renderer.tsx:33 | `split("\n")` gives at least one part, and no part contains the separator |
| Strings.JoinSplit | src/components/markdown-renderer.tsx:33 | joining the parts of a split with the separator gives the input back |
| Strings.NormalizeNewlines | src/components/markdown-renderer.tsx:33 | replacing `\r\n` never lengthens the text, and text without `\r` is unchanged |
| Strings.NormalizeNewlinesPieces | src/components/markdown-renderer.tsx:33 | a CR LF pair becomes LF, and any single character is kept |
| Strings.NormalizeNewlinesAppend | src/components/markdown-renderer.tsx:33 | two pieces are replaced independently unless the first ends in CR; with the pieces lemma this fixes the result on every text |
| Strings.RemoveAll | src/components/markdown-renderer.tsx:125 | `replace(/`/g, "")` leaves no backtick, never lengthens the text, and leaves text without backticks unchanged |
| Strings.RemoveAllPieces | src/components/markdown-renderer.tsx:125 | a lone backtick is dropped and any other single character is kept |
| Strings.RemoveAllAppend | src/components/markdown-renderer.tsx:125 | removal works piece by piece, so the other characters are kept in order |
| Strings.Lower | src/components/markdown-renderer.tsx:88 | `toLowerCase` keeps the length and maps each character on its own |
| Strings.ContainsAt | src/components/company-explorer.tsx:448 | `includes` holds exactly when the needle occurs at some position |
| BlockPatterns.HasFenceFrom | src/components/markdown-renderer.tsx:19 | the unanchored fence test holds exactly when a run of three backticks starts at some position |
| BlockPatterns.FenceAnywhere | src/components/markdown-renderer.tsx:19 | three backticks anywhere in a line make it a fence line |
| BlockPatterns.MatchHeading | src/components/markdown-renderer.tsx:21 | a heading match has one to six `#`, then whitespace, and its text is the rest of the line after that whitespace |
| BlockPatterns.HeadingComplete | src/components/markdown-renderer.tsx:21 | one to six `#` followed by whitespace always match, with that many hashes |
| BlockPatterns.SevenHashesNoHeading | src/components/markdown-renderer.tsx:21 | seven leading `#` never match the heading pattern |
| BlockPatterns.HeadingTag | src/components/markdown-renderer.tsx:247-262 | `createHeading` gives a tag from 1 to 6: a level from 1 to 6 gives its own tag, and any other level gives 6 |
| BlockPatterns.MatchUnordered | src/components/markdown-renderer.tsx:22 | a bullet match starts with `-`, `*` or `+` and whitespace; the item is the text after the marker with its leading whitespace trimmed |
| BlockPatterns.UnorderedComplete | src/components/markdown-renderer.tsx:22 | every bullet line (marker, whitespace, no line terminator) matches, with the trimmed rest as its item |
| BlockPatterns.MatchOrdered | src/components/markdown-renderer.tsx:23 | an ordered match has digits, `.` or `)`, and whitespace; `start` is the decimal value of the digits; the item is what follows the whitespace run |
| BlockPatterns.OrderedItem | src/components/markdown-renderer.tsx:23 | the item is the text after the marker with its leading whitespace trimmed |
| BlockPatterns.OrderedComplete | src/components/markdown-renderer.tsx:23 | every numbered line (digits, `.` or `)`, whitespace, no line terminator) matches, with the numeral's value and the trimmed rest |
| BlockPatterns.OrderedExcludesOthers | src/components/markdown-renderer.tsx:130-159 | a line that matches the ordered pattern is not a rule, a heading or a bullet, so it reaches the ordered branch |
| BlockPatterns.TwoSpacesIndent | src/components/markdown-renderer.tsx:24 | two leading whitespace characters make a line indented |
| InlineTokenizer.TokenShape | src/components/markdown-renderer.tsx:213-226 | every match starts with `**`, `*`, a backtick or `[`, and the prefix decides its kind |
| InlineTokenizer.StrongAtSound | src/components/markdown-renderer.tsx:198 | the strong scanner returns only a `**…**` span whose body is non-empty and free of `*` |
| InlineTokenizer.StrongAtComplete | src/components/markdown-renderer.tsx:198 | every such span is found by the strong scanner |
| InlineTokenizer.EmphasisAtSound | src/components/markdown-renderer.tsx:198 | the emphasis scanner returns only a `*…*` span with a non-empty body free of `*` |
| InlineTokenizer.EmphasisAtComplete | src/components/markdown-renderer.tsx:198 | every such span is found by the emphasis scanner |
| InlineTokenizer.CodeAtSound | src/components/markdown-renderer.tsx:198 | the code scanner returns only a backtick span with a non-empty body free of backticks |
| InlineTokenizer.CodeAtComplete | src/components/markdown-renderer.tsx:198 | every such span is found by the code scanner |
| InlineTokenizer.LinkAtSound | src/components/markdown-renderer.tsx:198 | the link scanner returns only `[label](href)` with a non-empty label free of `]` and a non-empty href free of `)` |
| InlineTokenizer.LinkAtComplete | src/components/markdown-renderer.tsx:198 | every such link is found by the link scanner |
| InlineTokenizer.MatchAt | src/components/markdown-renderer.tsx:198 | the alternation, tried in order at one position, returns only tokens of the pattern |
| InlineTokenizer.MatchAtComplete | src/components/markdown-renderer.tsx:198 | a token starting at a position is the one the alternation returns there |
| InlineTokenizer.FindSpan | src/components/markdown-renderer.tsx:201 | `remaining.match(pattern)` returns the leftmost position where the pattern matches, and no earlier position matches |
| InlineTokenizer.FindSpanLeftmost | src/components/markdown-renderer.tsx:201 | the match found is a token, and no token starts before it |
| InlineTokenizer.MatchLink | src/components/markdown-renderer.tsx:227 | a match splits the token into `[`, a non-empty label without `]`, `](`, a non-empty href without `)`, and `)` |
| InlineTokenizer.LinkFallbackUnreachable | src/components/markdown-renderer.tsx:226-238 | the anchored link pattern always matches a link token, so the plain-text fallback never runs |
| InlineTokenizer.RenderInline | src/components/markdown-renderer.tsx:194-245 | the `while` loop returns exactly `Tokenize(text)` |
| InlineTokenizer.RenderToken | src/components/markdown-renderer.tsx:211-239 | the node pushed for one token is the token's node: strong, emphasis, code or link |
| InlineProperties.TokenizeSource | src/components/markdown-renderer.tsx:200-241 | reading the nodes back gives exactly the input: the prefix, token and rest partition the text, and nothing is lost or duplicated |
| InlineProperties.TokenNodesSource | src/components/markdown-renderer.tsx:211-239 | each token's node reads back as the token |
| InlineProperties.StrongNodes | src/components/markdown-renderer.tsx:213-217 | a `**…**` token becomes a strong node over the rendered body without its two-character delimiters |
| InlineProperties.EmphasisNodes | src/components/markdown-renderer.tsx:218-222 | a `*…*` token becomes an emphasis node over the rendered body |
| InlineProperties.CodeNodes | src/components/markdown-renderer.tsx:223-225 | a code token becomes a code node holding its body verbatim, not rendered |
| InlineProperties.LinkNodes | src/components/markdown-renderer.tsx:226-235 | a link token becomes a link node whose label is rendered and whose href is kept verbatim |
| InlineProperties.StrongSource | src/components/markdown-renderer.tsx:213-217 | a strong node reads back as its token |
| InlineProperties.EmphasisSource | src/components/markdown-renderer.tsx:218-222 | an emphasis node reads back as its token |
| InlineProperties.CodeSource | src/components/markdown-renderer.tsx:223-225 | a code node reads back as its token |
| InlineProperties.LinkParts | src/components/markdown-renderer.tsx:227-229 | a link token is `[`, label, `](`, href, `)` |
| InlineProperties.LinkSource | src/components/markdown-renderer.tsx:226-235 | a link node reads back as its token |
| InlineProperties.TokenizeEmpty | src/components/markdown-renderer.tsx:200 | only the empty text renders to no nodes |
| InlineProperties.NoSpanIsText | src/components/markdown-renderer.tsx:201-204 | text in which the pattern matches nowhere is one text node equal to the input |
| InlineProperties.LeftmostSplit | src/components/markdown-renderer.tsx:201-241 | with the leftmost token at `i..e`, the result is the text before it, the token's node, then the rest rendered again |
| InlineProperties.TokenizeWellFormed | src/components/markdown-renderer.tsx:198-241 | every tree is well formed: text pieces are non-empty; strong and emphasis bodies are non-empty and hold no strong or emphasis; code is non-empty without backticks; a link has a caption and a non-empty href without `)`. Text without `*` yields no strong or emphasis |
| InlineProperties.TokenNodesWellFormed | src/components/markdown-renderer.tsx:211-239 | the node of each token is well formed |
| InlineProperties.StrongWellFormed | src/components/markdown-renderer.tsx:213-217 | a strong node is well formed |
| InlineProperties.EmphasisWellFormed | src/components/markdown-renderer.tsx:218-222 | an emphasis node is well formed |
| InlineProperties.LinkWellFormed | src/components/markdown-renderer.tsx:226-235 | a link node is well formed, and star-free when its token has no `*` |
| InlineProperties.UnterminatedStrongIsText | src/components/markdown-renderer.tsx:198-204 | `a ** b`, an unterminated `**`, stays one plain text node |
| InlineProperties.PlainTextIsText | src/components/markdown-renderer.tsx:198-204 | text with no `*`, backtick or `[` is one text node |
| InlineProperties.LoneStarIsText | src/components/markdown-renderer.tsx:198-204 | a lone `*` is one plain text node |
| InlineProperties.HeadOfNested | src/components/markdown-renderer.tsx:201 | in `**a *b* c**` the leftmost match is the emphasis `*a *` at position 1 |
| InlineProperties.SplitOfNested | src/components/markdown-renderer.tsx:207-241 | `**a *b* c**` splits into the text `*`, the emphasis token `*a *`, and the rest rendered again |
| InlineProperties.EmphasisOfNested | src/components/markdown-renderer.tsx:218-222 | `*a *` is an emphasis of the text `a ` |
| InlineProperties.TailOfNested | src/components/markdown-renderer.tsx:198-241 | `b* c**` renders as `b`, emphasis ` c`, `*` |
| InlineProperties.NestedEmphasisSplitsStrong | src/components/markdown-renderer.tsx:198-241 | a strong span cannot contain emphasis: `**a *b* c**` is split into stray stars and two emphasis nodes |
| BlockSpec.FlushTextClears | src/components/markdown-renderer.tsx:115-117 | after the three text flushes no paragraph and no list is open, and the fence is untouched |
| BlockSpec.StepLineInv | src/components/markdown-renderer.tsx:112-183 | a non-blank line outside a fence keeps the invariant: at most one list open, an open list has an item, nothing else open inside a fence |
| BlockSpec.Step | src/components/markdown-renderer.tsx:100-184 | one line of the loop keeps the invariant |
| BlockSpec.Run | src/components/markdown-renderer.tsx:100-184 | the loop over any lines keeps the invariant |
| BlockSpec.RunPrefix | src/components/markdown-renderer.tsx:100 | one more line is one more step of the loop |
| BlockProperties.BlankIsAllSpace | src/components/markdown-renderer.tsx:112-114 | a line is blank exactly when it is whitespace only |
| BlockProperties.FlushEmptyIsNoOp | src/components/markdown-renderer.tsx:43-98 | flushing an empty or absent accumulator emits nothing and changes nothing |
| BlockProperties.FlushParagraphEmitsOne | src/components/markdown-renderer.tsx:43-51 | a non-empty paragraph becomes one block, whose text reads back as its lines joined by single spaces, and the buffer empties |
| BlockProperties.FlushListsEmitOne | src/components/markdown-renderer.tsx:53-81 | a non-empty list becomes one block holding its items rendered one by one; an ordered list keeps its start, and the list closes |
| BlockProperties.RenderItemsSource | src/components/markdown-renderer.tsx:60-61 | each rendered list item reads back as its item text, trimmed |
| BlockProperties.FlushTextEmits | src/components/markdown-renderer.tsx:115-117 | the text flushes emit one block per open accumulator, paragraph first, and close them all |
| BlockProperties.BlankLine | src/components/markdown-renderer.tsx:114-119 | a whitespace-only line flushes the text accumulators and adds no block of its own |
| BlockProperties.RuleIsNotFence | src/components/markdown-renderer.tsx:20 | a rule line is never a fence line |
| BlockProperties.RuleLine | src/components/markdown-renderer.tsx:130-136 | a rule line flushes the text accumulators and adds exactly one rule |
| BlockProperties.HeadingLine | src/components/markdown-renderer.tsx:138-147 | a heading line flushes the text accumulators and adds one heading; its level is the number of leading `#` (1 to 6), and its content reads back as the trimmed rest of the line |
| BlockProperties.SevenHashesIsParagraphText | src/components/markdown-renderer.tsx:21 | seven `#` with no list open join the paragraph |
| BlockProperties.UnorderedLine | src/components/markdown-renderer.tsx:150-157 | a bullet line flushes the paragraph and any ordered list, keeps an open unordered list, and appends its item last |
| BlockProperties.OrderedLine | src/components/markdown-renderer.tsx:159-170 | an ordered line flushes the paragraph and any unordered list; the list keeps the numeral of its first item, and the new item goes last |
| BlockProperties.ContinuationLine | src/components/markdown-renderer.tsx:172-181 | an indented plain line under an open list is joined with one space onto the last item, and nothing else changes |
| BlockProperties.ParagraphLine | src/components/markdown-renderer.tsx:183 | any other non-blank line is appended, trimmed, to the paragraph |
| BlockProperties.FenceOpens | src/components/markdown-renderer.tsx:121-127 | a fence line flushes the text accumulators and opens a fence whose language is the line without backticks, trimmed |
| BlockProperties.LineInFence | src/components/markdown-renderer.tsx:103-109 | inside a fence a non-fence line is kept raw, untrimmed, and nothing else happens |
| BlockProperties.FenceCloses | src/components/markdown-renderer.tsx:103-105 | a fence line inside a fence emits the code block, with the language lower-cased and the lines joined by newlines |
| BlockProperties.FenceCollects | src/components/markdown-renderer.tsx:103-109 | a run of non-fence lines inside a fence is collected verbatim and in order, and emits nothing |
| BlockProperties.UnterminatedFenceEmitted | src/components/markdown-renderer.tsx:186-189 | at end of input an unterminated fence is still emitted, with all its lines |
| BlockProperties.RunAppend | src/components/markdown-renderer.tsx:100 | reading `a` then `b` is reading `a + b` |
| BlockProperties.OrderedExtend | src/components/markdown-renderer.tsx:159-170 | under an open ordered list an ordered line only appends its item |
| BlockProperties.OrderedRunOpen | src/components/markdown-renderer.tsx:159-170 | under an open ordered list a run of ordered lines only appends their items, in order |
| BlockProperties.OrderedRun | src/components/markdown-renderer.tsx:159-170 | a run of ordered lines forms one list: its start is the first line's numeral (or that of the list already open), later numerals are ignored, and the items are the lines' texts in order |
| BlockProperties.FlushesExtend | src/components/markdown-renderer.tsx:43-98 | each flush keeps the blocks already emitted as a prefix |
| BlockProperties.StepLineExtends | src/components/markdown-renderer.tsx:112-183 | a non-blank line never removes or reorders emitted blocks |
| BlockProperties.StepExtends | src/components/markdown-renderer.tsx:100-184 | no line removes or reorders emitted blocks |
| BlockProperties.RunExtends | src/components/markdown-renderer.tsx:100-184 | blocks are only appended, so they come out in document order |
| BlockProperties.ParseExtendsRun | src/components/markdown-renderer.tsx:186-191 | the final flushes only append, and they append at most three blocks |
| BlockProperties.ParagraphAfterItemComesFirst | src/components/markdown-renderer.tsx:150-188 | a plain line right after a list item leaves the list open, and at the next flush the paragraph is emitted before the list |
| MarkdownParser.RenderListItems | src/components/markdown-renderer.tsx:60-61 | each list item is rendered trimmed, in order |
| MarkdownParser.BlockSegmenter.constructor | src/components/markdown-renderer.tsx:32-41 | the locals start empty: no blocks, no paragraph, nothing open |
| MarkdownParser.BlockSegmenter.FlushParagraph | src/components/markdown-renderer.tsx:43-51 | updates the locals exactly as `BlockSpec.FlushParagraph` |
| MarkdownParser.BlockSegmenter.FlushUnordered | src/components/markdown-renderer.tsx:53-66 | updates the locals exactly as `BlockSpec.FlushUnordered` |
| MarkdownParser.BlockSegmenter.FlushOrdered | src/components/markdown-renderer.tsx:68-81 | updates the locals exactly as `BlockSpec.FlushOrdered` |
| MarkdownParser.BlockSegmenter.FlushCode | src/components/markdown-renderer.tsx:83-98 | updates the locals exactly as `BlockSpec.FlushCode` |
| MarkdownParser.BlockSegmenter.FlushTextBlocks | src/components/markdown-renderer.tsx:115-117 | paragraph, unordered and ordered flushes in that order |
| MarkdownParser.BlockSegmenter.ProcessLine | src/components/markdown-renderer.tsx:100-184 | one iteration keeps the invariant and moves the state as `Step` |
| MarkdownParser.BlockSegmenter.ProcessFenceLine | src/components/markdown-renderer.tsx:103-109 | a line inside a fence closes it or is kept raw |
| MarkdownParser.BlockSegmenter.ProcessText | src/components/markdown-renderer.tsx:121-170 | a non-blank line is tested as fence, rule, heading, bullet, then ordered, in that order |
| MarkdownParser.BlockSegmenter.ProcessContinuation | src/components/markdown-renderer.tsx:172-183 | the continuation and paragraph branches |
| MarkdownParser.BlockSegmenter.Finish | src/components/markdown-renderer.tsx:186-189 | the four final flushes, code last |
| MarkdownParser.ParseMarkdown | src/components/markdown-renderer.tsx:31-192 | returns exactly `Parse(markdown)`, about which the `BlockProperties` lemmas hold |
| ExplorerRules.ClampNumber | src/components/company-explorer.tsx:157 | the result never exceeds `max`; with `min <= max` it lies in the range, equals the value inside it, and equals the nearer bound outside it |
| ExplorerRules.ProblemKey | src/components/company-explorer.tsx:159-161 | the key is never empty; it is the link when the link is not empty, and otherwise the title, a dash and the difficulty |
| ExplorerRules.Difficulties.With | src/components/company-explorer.tsx:494 | sets one flag and leaves the others |
| ExplorerRules.ToggleDifficulty | src/components/company-explorer.tsx:492-501 | at least one difficulty stays enabled; switching off the only enabled one re-enables all three; otherwise exactly the toggled flag flips |
| ExplorerRules.ToggleTwice | src/components/company-explorer.tsx:492-501 | toggling twice restores the flags, unless the first toggle had to reset them |
| ExplorerRules.UpdateMin | src/components/company-explorer.tsx:868-876 | a NaN input leaves the range alone; otherwise the min is the clamped value capped at the max, the max is untouched, and `min <= max` holds after |
| ExplorerRules.UpdateMax | src/components/company-explorer.tsx:886-894 | a NaN input leaves the range alone; otherwise the max is the clamped value raised to at least the min, the min is untouched, and `min <= max` holds after |
| ExplorerRules.RestoreRange | src/components/company-explorer.tsx:275-301 | no saved range keeps the current one; otherwise each present bound is clamped to 0..100, a missing one defaults to 0 or 100, an ordered pair is kept and an inverted pair collapses to the clamped max |
| ExplorerRules.Without | src/components/company-explorer.tsx:842 | removes exactly the topic, keeping the others and keeping the list duplicate-free |
| ExplorerRules.ToggleTopic | src/components/company-explorer.tsx:834-843 | checking makes the topic present (appended last if new), unchecking makes it absent; other topics are unaffected and no duplicate appears |
| ExplorerRules.Keep | src/components/company-explorer.tsx:401 | keeps exactly the available topics; when all are available the list is unchanged |
| ExplorerRules.KeepAppend | src/components/company-explorer.tsx:401 | like `.filter`, keeping works element by element, so order and repeats are kept |
| ExplorerRules.PruneTopics | src/components/company-explorer.tsx:395-406 | no active category clears the selection; otherwise exactly the available topics stay, and the old list is kept when nothing goes |
| ExplorerRules.FilterProblems | src/components/company-explorer.tsx:415-449 | a problem of the category is kept exactly when it passes every filter |
| ExplorerRules.FilterProblemsAppend | src/components/company-explorer.tsx:415-449 | the filter works problem by problem, so category order and repeats are kept |
| ExplorerRules.BlankQueryMatchesAll | src/components/company-explorer.tsx:446-448 | a query of blanks matches every problem |
| ExplorerRules.FullRangesIgnoreRates | src/components/company-explorer.tsx:423-440 | with both ranges at 0..100 or wider, the rates, including null ones, play no part |
| ExplorerRules.NarrowedRangeRejectsNull | src/components/company-explorer.tsx:433-440 | with a narrowed frequency range, a problem with null frequency never passes |
| ExplorerRules.Visible | src/components/company-explorer.tsx:475 | the visible problems are a prefix of the list, `min(visibleCount, length)` long |
| ExplorerRules.HasMoreIffHidden | src/components/company-explorer.tsx:476 | "Load more" shows exactly when some problem is not shown |
| ExplorerRules.LoadMoreExtends | src/components/company-explorer.tsx:1163 | "Load more" keeps what is shown as a prefix, and shows more when there was more |
| ProblemCatalog.AddAllPrefix | src/components/company-explorer.tsx:182-188 | one more problem is one more callback |
| ProblemCatalog.AddAllAppend | src/components/company-explorer.tsx:180-189 | walking one list and then another is walking their concatenation |
| ProblemCatalog.AddFirstKeys | src/components/company-explorer.tsx:183-187 | one callback keeps the kept keys distinct and adds the problem's key |
| ProblemCatalog.AddAllKeys | src/components/company-explorer.tsx:180-189 | the loop keeps one problem per key and loses no key |
| ProblemCatalog.DistinctKeysCount | src/components/company-explorer.tsx:191 | with distinct keys there are as many problems as keys |
| ProblemCatalog.DedupKeys | src/components/company-explorer.tsx:177-191 | "All Companies" holds each key once and every key of the dataset, so its size is the number of distinct keys |
| ProblemCatalog.FirstWithKey | src/components/company-explorer.tsx:184 | a listed problem with the given key, with no problem of that key before it in list order |
| ProblemCatalog.DedupFirstWins | src/components/company-explorer.tsx:184-187 | every kept problem is the first one listed with its key; later duplicates are ignored |
| ProblemCatalog.Insert | src/components/company-explorer.tsx:191-195 | inserting adds exactly the one problem: the result's multiset is the old one plus it |
| ProblemCatalog.FrequencyOrder | src/components/company-explorer.tsx:192-194 | the frequency order, with null below every number, is total and transitive |
| ProblemCatalog.InsertSorted | src/components/company-explorer.tsx:191-195 | inserting into a list sorted by descending frequency keeps it sorted |
| ProblemCatalog.SortByFrequency | src/components/company-explorer.tsx:191-195 | the sort is a permutation, and the result is sorted by descending frequency |
| ProblemCatalog.NullsLast | src/components/company-explorer.tsx:192-194 | in the sorted list, problems without a frequency come last |
| ProblemCatalog.CollectAllProblems | src/components/company-explorer.tsx:177-213 | the nested loops build "All Companies": one category, "All Questions", holding the de-duplicated problems sorted by frequency, with counts equal to its size |
| CompanyIndex.AddRef | src/components/company-explorer.tsx:227-231 | the old entries stay, in order; a new slug appends the company's slug and name last, and a known slug changes nothing |
| CompanyIndex.IndexProblemsLookup | src/components/company-explorer.tsx:222-232 | one company's problems add that company once to each key it lists, and touch no other key |
| CompanyIndex.IndexCompaniesLookup | src/components/company-explorer.tsx:218-238 | the map holds, for every key, exactly the entries `RefsFor` names, and holds exactly the keys some company lists |
| CompanyIndex.RefsForDistinct | src/components/company-explorer.tsx:228-231 | a key's entries never repeat a slug |
| CompanyIndex.RefsForSlugs | src/components/company-explorer.tsx:218-238 | a slug has an entry under a key exactly when some company with that slug lists the key |
| CompanyIndex.RefsForSound | src/components/company-explorer.tsx:229 | every entry is the slug and name of a company that lists the key |
| CompanyIndex.BuildCompanyIndex | src/components/company-explorer.tsx:218-238 | the nested loops build the map that `IndexCompanies` defines; each key's entries are `RefsFor`, and its keys are the listed keys |

## Left out

- Rendering to React is not modelled: JSX, the `md-N` keys and the `key` strings of inline nodes, CSS classes, and `target`/`rel` on links. A block or inline node is modelled by the content it shows.
- `MarkdownRenderer` (the `useMemo` wrapper) is a React component with no logic of its own.
- Strings.Lower: only ASCII letters are lower-cased. `toLowerCase` maps all of Unicode; that is not modelled.
- Strings.Trim: strings are sequences of UTF-16 code units. Characters outside the Basic Multilingual Plane are not modelled as single characters.
- BlockPatterns.MatchOrdered: `parseInt` is the exact decimal value of the digits. Double-precision rounding of numerals above 2^53 is not modelled.
- The explorer's rates and bounds are exact reals. Floating-point rounding, NaN and Infinity values inside the dataset, and `Math.round` in the inputs' displayed values are not modelled.
- ExplorerRules.UpdateMin: the text input is given as an already-parsed optional number. `None` stands for an input `Number` reads as NaN; the parsing itself is not modelled.
- ProblemCatalog.SortByFrequency: modelled as an insertion sort. Its result is stated to be a sorted permutation, but its stability (ties keep their first-seen order) is not stated. Two missing frequencies compare as NaN in the source, which a sort treats as equal.
- activeProblems sorting by the sort option (`localeCompare` on titles, the Infinity-padded number comparators) is not modelled. `FilterProblems` and `FilterProblemsAppend` state the filtered list in category order.
- These parts of the component are not modelled: the computation and sorting of `availableTopics`, the company-name search, the company and category selection effects, and the reset of `visibleCount` when filters change.
- Saving and loading view state through `localStorage` is not modelled. That covers JSON parsing, the `typeof` checks on saved fields other than the ranges, and the merge of saved difficulties, which can leave every difficulty off. `RestoreRange` models only the normalisation of a saved range.
- The other files of the repository are not part of this model: the data loaders, the UI component library, styling and page layout.
