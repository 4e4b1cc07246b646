# obyde in Dafny

obyde moves an Obsidian vault of Markdown notes into a form that a static site
generator (Jekyll or Hugo) can publish. This project models the in-memory string
logic at its core and proves properties of it:

- **the wikilink scanner** (`parse_obsidian_links` and `_substr_cond`). It is a
  single forward pass over the note. It skips backtick-fenced code, collects
  `[[...]]` links and raises on unclosed ones. It is modelled as imperative Dafny:
  a `while` loop over `idx`, `state` and `quotemult`, proved equal to a recursive
  specification `Links`. The properties are proved about that specification.
- **the slug** of a file name (`slugify_md_filename`).
- **the rewriting pipeline and engine** (`RewritingPipeline`, `RewritingEngine`).
  A transformer answers an optional rewritten string for each of its three
  operations. A pipeline gives every phase the original input, and the last
  answer wins. The engine applies a transformer to a post's metadata and to each
  content block, then concatenates the results. `obyde/rewriting.py` and
  `obyde/rewriting/model.py` define the same pipeline. It is modelled once, and
  rows below cite both files.
- **the highlighter** that `process_vault` puts in its pipeline. All three of its
  operations answer `None`.
- **the helpers of `obyde/__init__.py`**: date validation, post-link generation,
  and the link rewriting of `rewrite_links`. That rewriting decomposes each link
  into a target and a display text, replaces it by a link to the first matching
  asset, and otherwise falls back to a link to the matching post.

Modules:

- `Wrappers`: Option and Result.
- `Strings`: Python's `in`, `split`, `replace` and `join` on `str`.
- `Util` and `LinksFacts`: `obyde/util.py`.
- `Parsing`: the block datatype.
- `Rewriting`: the pipeline and the engine.
- `Highlight`: the highlighter.
- `Obyde`: `obyde/__init__.py`.

The fence close follows the code, not the intent its comment states. In
`obyde/util.py:33-37`, `quotemult` is set to 0 before the increment reads it. So
the increment is always `1 + 0`, and closing a fence advances exactly one
position. The remaining ticks of a longer closing run then open a new fence. As a
result, `` `a`[[X]] `` reports `[[X]]`, while ``` ``a``[[X]] ``` reports nothing,
because its second closing tick reopens a fence that never closes.

## Model

| member | source | states |
|---|---|---|
| Strings.Contains | obyde/__init__.py:121-128 | Python's `needle in hay` on strings: `needle` occurs at some position, so the empty string is in every string |
| Strings.Split | obyde/__init__.py:164 | Python's `s.split(sep)`: one more part than there are separators, no part holds `sep`, and joining the parts with `sep` gives `s` back |
| Strings.ReplaceAll | obyde/__init__.py:119 | Python's `s.replace(old, new)`: non-overlapping occurrences replaced left to right, with Python's result for an empty `old`; `ReplaceAbsent`, `ReplaceAfterPrefix` and `ReplaceLeading` state its behaviour |
| Strings.ReplaceAbsent | obyde/__init__.py:129-139 | replacing a non-empty string that does not occur leaves the text unchanged |
| Strings.ReplaceAfterPrefix | obyde/__init__.py:129-139 | text before the first character of the pattern is copied as it is |
| Strings.ReplaceLeading | obyde/__init__.py:129-139 | a leading occurrence of the pattern becomes the replacement |
| Util.Translate | obyde/util.py:3-9 | `name.translate(SLUG_TRANSLATION)`: each punctuation or whitespace character becomes `-`, every other character is kept; `SlugifyMdFilename` states the result |
| Util.Lower | obyde/util.py:10 | `str.lower` on ASCII letters, every other character kept; `SlugifyMdFilename` states the result |
| Util.SlugifyMdFilename | obyde/util.py:3-10 | the slug has the name's length; a position holds `-` exactly when the name's character is ASCII punctuation or whitespace; every other character is the name's, lowercased; no upper-case letter remains |
| Util.SlugifyIdempotent | obyde/util.py:8-10 | slugifying a slug changes nothing |
| Util.Run | obyde/util.py:62-76 | the longest run of characters from `idx` satisfying `cond`: a slice of `s` from `idx`, every character satisfies `cond` at its count, and the run stops at the end of `s` or at a character failing `cond` |
| Util.LongestRunIsRun | obyde/util.py:69-76 | the longest run is unique: any string with that description is `Run` |
| Util.SubstrCond | obyde/util.py:62-76 | a negative index raises the invalid-index error; otherwise the loop returns the longest run |
| Util.Step | obyde/util.py:19-58 | one pass of the loop body advances `idx` by at least one and stays within the content, so the scan terminates |
| Util.LinkStep | obyde/util.py:41-56 | the `[` branch advances and leaves the fence state and its length alone |
| Util.LinkRunsFormSpan | obyde/util.py:42-56 | the three runs measured at a `[[` are consecutive slices of the content; with two or more `]` they form a wikilink |
| Util.LinkStepWellFormed | obyde/util.py:41-56 | a link the `[` branch appends starts at `idx`, ends where the next pass starts, is a wikilink and is the slice of the content it claims |
| Util.StepWellFormed | obyde/util.py:20-58 | the same for any pass of the loop body |
| Util.LinkOutcome | obyde/util.py:43-56 | the decision of the `[` branch on its three runs: a single `[` advances one; otherwise an empty body or `]` run raises, and a closed construct advances past all three and is reported when two or more `]` close it; `OutcomeOfClosed` and `LinkStepOfRuns` state it |
| Util.ScanFrom | obyde/util.py:19-59 | the whole loop from a cursor, as a recursion over `Step`: the spans reported in order, or the first error raised; `ScanStep` and `ScanFromWellPlaced` state its properties |
| Util.Links | obyde/util.py:13-59 | the value of `parse_obsidian_links`: the texts of the spans `ScanFrom` reports from the start, or its error; `ParseObsidianLinks` computes it and `LinksAreWikilinks` states its properties |
| Util.ScanStep | obyde/util.py:19-58 | one unfolding of the scan: a raising pass ends the scan with its error; otherwise the pass's link is followed by the rest of the scan |
| Util.ScanFromWellPlaced | obyde/util.py:19-59 | every link found from a cursor lies at or after it, is a wikilink located where its span says, and the links are in order without overlapping |
| Util.PrependPush | obyde/util.py:55-56 | appending a pass's link to the list agrees with the link coming first in the rest of the scan |
| Util.ScanOnce | obyde/util.py:20-58 | the loop body on `idx`, `state` and `quotemult` computes one `Step` |
| Util.ScanLink | obyde/util.py:41-56 | the `[` branch, with its three `_substr_cond` calls and two raises, computes `LinkStep` |
| Util.ParseObsidianLinks | obyde/util.py:13-59 | the loop returns the texts of the links the scan finds, in order, or its error |
| LinksFacts.RunOfChar | obyde/util.py:69-76 | a maximal run of one character has the length of that run |
| LinksFacts.RunOfCharIsSlice | obyde/util.py:69-76 | a maximal run of one character is the slice of the content it occupies |
| LinksFacts.SliceIsRun | obyde/util.py:69-76 | a slice whose characters all meet the condition, and that cannot be extended, is the run measured from its start |
| LinksFacts.PlainTextSkipped | obyde/util.py:38-41 | outside a fence, text without `[` or backticks produces no link and no change of state |
| LinksFacts.NoBracketNoLinks | obyde/util.py:19-59 | content without `[` from the cursor on yields no links and never raises |
| LinksFacts.NoBracketContentHasNoLinks | obyde/util.py:13-59 | a note without `[` has no links |
| LinksFacts.FenceSkipped | obyde/util.py:38-41 | inside a fence, text without backticks is skipped whatever it holds, `[[` included |
| LinksFacts.TicklessFenceRemainder | obyde/util.py:38-41 | inside a fence, a remainder without any backtick yields no more links and does not raise |
| LinksFacts.TickRunShort | obyde/util.py:28-31 | a tick run starting where no `q` ticks start is shorter than `q` |
| LinksFacts.UnterminatedFence | obyde/util.py:19-59 | a fence of length `q >= 1` after which no run of `q` ticks starts yields no more links and does not raise, whatever shorter tick runs, brackets and text it holds |
| LinksFacts.TickRunOpens | obyde/util.py:22-27 | outside a fence, a run of `n` ticks opens a fence of length `n` and is skipped whole |
| LinksFacts.ShortTickRunSkipped | obyde/util.py:28-32 | inside a fence, a run shorter than the fence is skipped whole |
| LinksFacts.FenceCloseAdvancesOne | obyde/util.py:33-37 | a run at least as long as the fence closes it and advances exactly one position, resetting the length to 0 |
| LinksFacts.StepAtBracket | obyde/util.py:41 | outside a fence, a `[` takes the link branch |
| LinksFacts.EmptyBodyRaises | obyde/util.py:44-48 | two or more `[` followed by `]` or the end of the content raise, with the index of the first `[` |
| LinksFacts.OpenRunRaises | obyde/util.py:44-53 | outside a fence, an opening run of two or more `[` followed by an empty body, or by a body after which no `]` run follows, raises with the index of the first `[` |
| LinksFacts.UnclosedBodyRaises | obyde/util.py:49-53 | a body with no `]` before the end raises |
| LinksFacts.OpenRunIsSlice | obyde/util.py:42-43 | a maximal run of `n >= 1` `[` is the opening run the link branch measures |
| LinksFacts.BodyRunIsSlice | obyde/util.py:44-45 | a stretch of `m >= 1` characters free of `]` that a `]` ends is the body run the link branch measures |
| LinksFacts.CloseRunIsSlice | obyde/util.py:49-50 | a maximal run of `e >= 1` `]` is the closing run the link branch measures |
| LinksFacts.LinkRuns | obyde/util.py:42-50 | for a closed construct, the three runs are the slices before, inside and after the body |
| LinksFacts.LinkStepOfRuns | obyde/util.py:42-56 | the `[` branch decides its result from the three runs it measures and from nothing else |
| LinksFacts.OutcomeOfClosed | obyde/util.py:44-56 | with two or more `[`, a non-empty body and a non-empty `]` run, the branch advances past all three and reports them exactly when the `]` run has two or more characters |
| LinksFacts.ClosedSlicesStep | obyde/util.py:41-56 | outside a fence, the runs ending at `j`, `k` and `l` make the pass resume at `l`, reporting the three slices when at least two `]` close the body |
| LinksFacts.ClosedStep | obyde/util.py:41-56 | the same for runs of `n >= 2` `[`, `m >= 1` body characters and `e >= 1` `]` |
| LinksFacts.SingleCloseDiscarded | obyde/util.py:54-56 | a body closed by a single `]` is dropped without error, and the scan resumes after the `]` |
| LinksFacts.WikilinkReported | obyde/util.py:54-56 | a body closed by two or more `]` is reported as a link from the first `[` to the last `]`, and the scan resumes after it |
| LinksFacts.LinksAreWikilinks | obyde/util.py:13-59 | every link returned is a wikilink found in the content where its span says, in left-to-right order and not overlapping |
| LinksFacts.ReportedTexts | obyde/util.py:56 | helper for the worked inputs below: a scan reporting the single span `sp` returns the list of its text |
| LinksFacts.EmptyLinkRaises | obyde/util.py:46-48 | `[[]]` raises at index 0 |
| LinksFacts.UnclosedLinkRaises | obyde/util.py:51-53 | `text [[A` raises at index 5 |
| LinksFacts.SingleCloseExample | obyde/util.py:54-56 | `[[A] b` yields no link and no error |
| LinksFacts.FencedLinkHidden | obyde/util.py:38-41 | `` `[[Hidden]]` `` yields no link |
| LinksFacts.DisplayLinkSpan | obyde/util.py:42-56 | the text `[[T`, a pipe, `D]] x` scans to the single span made of `[[`, the body `T`, a pipe, `D`, and `]]` |
| LinksFacts.DisplayLinkExample | obyde/util.py:42-56 | the text `[[T`, a pipe, `D]] x` yields that single link, pipe included |
| LinksFacts.CodeSpanPassed | obyde/util.py:22-37 | a one-tick code span at the start is passed over and leaves the scan outside a fence |
| LinksFacts.LinkAtThree | obyde/util.py:41-59 | in `` `a`[[X]] ``, the scan resumed at index 3 outside a fence reports the one span `[[X]]` |
| LinksFacts.LinkAfterCodeSpan | obyde/util.py:33-37 | `` `a`[[X]] `` yields `[[X]]`: the close advances one position only |
| LinksFacts.DoubleTickSpanCloses | obyde/util.py:22-37 | in ``` ``a``[[X]] ```, the first closing tick closes the fence and the scan resumes at the second tick, outside a fence |
| LinksFacts.LinkAfterDoubleTickSpanHidden | obyde/util.py:33-37 | ``` ``a``[[X]] ``` yields no link: the second closing tick opens a new fence |
| LinksFacts.ShortRunKeepsFence | obyde/util.py:22-32 | in ``` ``a`[[X]]`` ```, the single tick at index 3 is skipped and the two-tick fence stays open |
| LinksFacts.ShortRunInsideFence | obyde/util.py:31-32 | inside a two-tick fence, a single tick is skipped and `[[X]]` after it is hidden |
| LinksFacts.UnclosedFenceHidesLink | obyde/util.py:22-41 | in ``` ``a`b[[x ```, the two-tick fence is never closed, so the unclosed `[[x` after it neither yields a link nor raises |
| Rewriting.Apply | obyde/rewriting/model.py:26-33 | a pipeline always answers a string, never `None` |
| Rewriting.Transform | obyde/rewriting/model.py:8-33 | calling an operation of a transformer answers what `Apply` specifies |
| Rewriting.Iterated | obyde/rewriting/model.py:35-41 | the result of `__process_str_transform_iterated` over the first `n` phases: the answer of the last phase that answers, each phase given the original input, or the input when none answers; `LastChangeWins`, `NoChangeKeepsInput` and `PhasesSeeOriginalInput` state it |
| Rewriting.ProcessStrTransformIterated | obyde/rewriting/model.py:35-41 | the loop over the phases computes the last-answer-wins result over all phases |
| Rewriting.EmptyPipelineIsIdentity | obyde/rewriting.py:32-38 | a pipeline without phases answers its input unchanged, for every operation |
| Rewriting.LastChangeWins | obyde/rewriting/model.py:36-40 | when phase `j` answers and no later phase does, the pipeline answers phase `j`'s answer |
| Rewriting.NoChangeKeepsInput | obyde/rewriting.py:33-38 | when no phase answers, the pipeline answers its input |
| Rewriting.DispatchesToSameOperation | obyde/rewriting.py:23-30 | a pipeline's answer for an operation depends only on its phases' answers for that same operation |
| Rewriting.PhasesSeeOriginalInput | obyde/rewriting.py:34-37 | phases are not chained: of two appending phases only the last one's answer on the original input survives |
| Rewriting.OrFallback | obyde/rewriting/model.py:49-50 | `x or original`: a non-empty answer is used, `None` and `""` give the original |
| Rewriting.Ticks | obyde/rewriting/model.py:57 | a tick count `k` gives `k` backticks, none for zero or negative `k` |
| Rewriting.RenderBlock | obyde/rewriting/model.py:52-65 | what `rewrite` writes for one block: `k` ticks, the transformed content with fallback and `k` ticks for a preformatted block, the transformed content with fallback for a plain one; `UnchangedBlock` states it for a no-change transformer |
| Rewriting.Rewritten | obyde/rewriting/model.py:48-70 | the pair `rewrite` returns: the metadata with fallback and the blocks written in order; `RewritingEngine.Rewrite` computes it and `UnchangingEngineReassembles` states its properties |
| Rewriting.RewritingEngine.constructor | obyde/rewriting/model.py:45-46 | the engine holds the transformer it is given |
| Rewriting.RewritingEngine.Rewrite | obyde/rewriting/model.py:48-70 | returns the metadata with fallback and the blocks written in order: `k` ticks, the content with fallback and `k` ticks for a preformatted block, the content with fallback for a plain block |
| Rewriting.ConcatMapAppend | obyde/rewriting/model.py:51-65 | writing two lists of blocks one after the other writes the concatenation of their outputs |
| Rewriting.RenderBlocksAppend | obyde/rewriting/model.py:52-65 | the engine's body for a concatenation of block lists is the concatenation of the bodies |
| Rewriting.UnchangedBlock | obyde/rewriting/model.py:53-65 | a transformer that changes nothing writes a block back as it was, re-wrapped in its ticks |
| Rewriting.UnchangedBlocks | obyde/rewriting/model.py:51-65 | the same for a list of blocks, in order |
| Rewriting.UnchangingEngineReassembles | obyde/rewriting/model.py:48-70 | an engine whose transformer changes nothing returns the metadata unchanged and the blocks reassembled |
| Highlight.TransformNormalBlock | obyde/rewriting/highlight.py:7-8 | a content block is never modified: the answer is `None` |
| Highlight.TransformPreformattedBlock | obyde/rewriting/highlight.py:10-12 | a preformatted block is never modified: the answer is `None` |
| Highlight.TransformMetadataSection | obyde/rewriting/highlight.py:14-16 | the metadata section is never modified: the answer is `None` |
| Highlight.ObsidianHighlightRewritingTransformer | obyde/rewriting/highlight.py:6-16 | the highlighter as a concrete transformer of those three operations; `HighlighterChangesNothing` states that it changes nothing |
| Highlight.HighlighterChangesNothing | obyde/rewriting/highlight.py:6-16 | every operation of the highlighter answers `None` on every input |
| Highlight.HighlighterTestInputs | tests/rewriting/test_highlight.py:4-22 | the inputs of the no-change unit tests answer `None` |
| Highlight.VaultEngineKeepsPosts | obyde/__init__.py:218-221 | the engine `process_vault` builds returns every post's metadata unchanged and its blocks reassembled |
| Obyde.ValidatePostdate | obyde/__init__.py:159-173 | `validate_postdate`: an empty date raises the missing-date error; otherwise a split on `-` into exactly three all-digit parts returns the date, and anything else raises the format error; `ValidatePostdateAccepts` states it independently |
| Obyde.DigitsOrSepConcat | obyde/__init__.py:168-169 | helper for `JoinDigits`: a concatenation is digits and separators exactly when both halves are |
| Obyde.JoinDigits | obyde/__init__.py:164-169 | parts free of the separator are all digits exactly when their join is digits and separators |
| Obyde.ValidatePostdateAccepts | obyde/__init__.py:159-173 | accepted exactly when the date is non-empty, has two `-` and is otherwise all digits, and then returned unchanged; an empty date raises the missing-date error, any other rejected date the format error |
| Obyde.DigitRunsAccepted | obyde/__init__.py:164-169 | any three digit runs joined by `-` are accepted, empty ones and any lengths included |
| Obyde.UnseparatedDateRejected | obyde/__init__.py:164-166 | a non-empty date without `-` raises the format error |
| Obyde.GeneratePostLink | obyde/__init__.py:86-92 | `generate_post_link`: `{% post_url N %}` for jekyll, `{{< relref "N" >}}` for hugo, the unknown-mode error for any other mode; `PostLinkNameRecovered` and `PostLinkInjective` state its properties |
| Obyde.Unwrap | obyde/__init__.py:88-90 | helper for `PostLinkNameRecovered`: the name can be sliced back out of the prefix and suffix around it |
| Obyde.PostLinkNameRecovered | obyde/__init__.py:86-92 | jekyll and hugo links hold the dated name right after their prefix, where it can be read back; any other mode raises the unknown-mode error |
| Obyde.PostLinkInjective | obyde/__init__.py:86-92 | different dated names give different links in the same mode |
| Obyde.StripBrackets | obyde/__init__.py:119 | `link.replace('[[', '').replace(']]', '')`; `StripWikilinkBrackets` states that it recovers the body of a bracket-free link |
| Obyde.DecomposeLink | obyde/__init__.py:119-124 | the target and display text of a link: with a pipe, the first and second pipe segments (the second empty when absent); without one, the stripped text for both; `PlainLinkDecomposes` and `DisplayLinkDecomposes` state it |
| Obyde.StripWikilinkBrackets | obyde/__init__.py:119 | removing `[[` and then `]]` from `[[b]]` gives `b` back when `b` has no brackets |
| Obyde.SplitAtFirst | obyde/__init__.py:122-123 | text before the first separator is the first part of a split |
| Obyde.SplitWithoutSep | obyde/__init__.py:121-122 | text without the separator splits into itself |
| Obyde.PlainLinkDecomposes | obyde/__init__.py:119-120 | `[[b]]` without a pipe has target and display text `b` |
| Obyde.DisplayLinkDecomposes | obyde/__init__.py:121-124 | `[[t`, a pipe, `d`, and further pipe segments, then `]]`, has target `t` and display text `d`; the later segments are dropped |
| Obyde.FirstMatchFrom | obyde/__init__.py:126-128 | the first asset in index order whose file name or old path contains the target, or none when no asset does |
| Obyde.RewriteOne | obyde/__init__.py:125-139 | one pass of the loop body: the first matching asset's Markdown link replaces every occurrence; failing that, a dated post found by slug with a non-empty dated name gives a post link, and an unknown mode raises; otherwise the text is kept; `FirstAssetWins`, `UnmatchedLinkToPost` and `UnmatchedLinkKept` state it |
| Obyde.RewriteAll | obyde/__init__.py:117-140 | the loop over the links: each applied in order to the text the earlier ones left, stopping at the first error; `RewriteAllExtend`, `FirstErrorStops` and `ValidModeRewritesAll` state it |
| Obyde.RewrittenLinks | obyde/__init__.py:115-140 | `rewrite_links`: the scanner's error, or `RewriteAll` over the links it finds; `NoBracketsNoRewrite` and `ValidModeOnlyScanFails` state its properties |
| Obyde.RewriteAllExtend | obyde/__init__.py:118-139 | one more link of the list is applied to the text the earlier links left |
| Obyde.FirstErrorStops | obyde/__init__.py:118-139 | once a link raises, the later links are not looked at, and the error is the result |
| Obyde.NoBracketsNoRewrite | obyde/__init__.py:115-140 | a post without `[` is returned unchanged |
| Obyde.FirstAssetWins | obyde/__init__.py:126-132 | a plain link whose target first matches asset `i` has every occurrence replaced by `[b](prefix/newpath)` of asset `i` |
| Obyde.UnmatchedLinkToPost | obyde/__init__.py:133-139 | a plain link matching no asset, whose slug names a dated post, becomes a post link in the Jekyll or Hugo syntax |
| Obyde.UnmatchedLinkKept | obyde/__init__.py:133-139 | a link matching no asset and no dated post leaves the text unchanged, in every mode |
| Obyde.ValidModeRewritesAll | obyde/__init__.py:200-202 | with the modes `process_vault` lets through, rewriting the links never raises |
| Obyde.ValidModeOnlyScanFails | obyde/__init__.py:232-233 | called as `process_vault` calls it, `rewrite_links` fails exactly when the scanner raises, and with its error |
| Obyde.SplitLinkText | obyde/__init__.py:119-124 | the first statements of the loop body compute the target and display text `DecomposeLink` specifies |
| Obyde.RewriteLink | obyde/__init__.py:119-139 | the loop body for one link computes `RewriteOne`: the asset loop returns at the first match, standing for the `written` flag and `break`, and the post fallback runs only when no asset matched |
| Obyde.RewriteLinks | obyde/__init__.py:115-140 | the loop over the links computes `RewrittenLinks`: the links applied in order, the scanner's error passed on |

## Left out

- `parse_content_blocks` (obyde/parsing.py:12-13) is an empty stub. No segmenter is modelled. Only the block datatype of `obyde/parsing.py:4-10` is modelled, as the engine's input.
- The `<mark>` highlighting that tests/rewriting/test_highlight.py:25-46 expects has no implementation; it is not modelled.
- `find_replace` is not modelled, because it calls Python's `re` module.
- The I/O and glue are not modelled: they read and write files, walk directories, hash, parse YAML and frontmatter, and parse arguments. This covers `find_files`, `write_asset_files`, `load_config`, `dir_exists_or_raise`, `parse_args`, `main`, `process_vault` and `rewrite_post_with_engine`. Only the pipeline `process_vault` builds and its mode check are modelled.
- setup.py is packaging only; it is not modelled.
- Util.SlugifyMdFilename: lower-casing is modelled on ASCII letters only; Python's `str.lower` also maps non-ASCII letters.
- The `StringIO` buffer of `rewrite` is modelled as string concatenation.
- `_substr_cond`'s "condition must be provided" error is not modelled. The condition is a total function here, so the error cannot arise.
- `rewrite`'s `ValueError` for an object that is neither kind of block is not modelled. The block datatype has exactly two variants, so the error cannot arise.
- The lambdas that make a pipeline call the same-named operation of each phase are modelled as an `Operation` tag.
- Errors carry their kind and the data they are about, not the text of the Python message.
- The asset index is modelled as a sequence in the dict's insertion order. The dated-file index is modelled as a map keyed by slug.
