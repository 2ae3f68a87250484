# chunkText in Dafny

This project models `utils/chunkText.ts`, a text-chunking helper of the narration backend. `chunkText` cuts text into groups of a few sentences each, sized for speech synthesis; no file of the repository calls it. It works in three stages:

1. **Normaliser** (`markdownToPlainText`). Eleven global regular-expression replacements run in order: fenced code, inline code, headings, bullet items, numbered items, bold, italic, images, links, table rows, and runs of three or more newlines. The result is then trimmed with `trim`.
2. **Sentence scan**. A `while` loop repeatedly calls `exec` with `/[.!?]+\s*/g`. Each match closes a piece that starts at `lastIndex`. Whatever follows the last match is one more piece. Each piece is trimmed and kept only if something is left.
3. **Grouping**. A `for` loop steps `i` by `sentencesPerChunk` (default 3). It joins each slice of sentences with single spaces, trims the result, and keeps it if non-empty.

Modules:

- `Wrappers` holds `Option`.
- `Text` holds the whitespace set shared by `\s` and `trim` (WhiteSpace and LineTerminator, sections 12.2 and 12.3 of ECMA-262). It also holds `trim` and its cut points, `join(' ')`, and the concatenation and whitespace-stripping views used to state coverage.
- `Markdown` holds one matcher per pattern, a generic left-to-right global-replace scanner (`ReplaceFrom`) and the pipeline `Normalise`.
  - Each matcher returns the match the backtracking engine finds at one position. A shape predicate per pattern describes that match. The matcher's contract says every match it returns has the shape, and a `...Found` lemma says the shape present at a position is the match returned there. So a matcher fails exactly where the shape is absent.
  - These matches were worked out by hand from each pattern's quantifiers. Examples: the lazy `[\s\S]*?` of the code fence; `\s+` giving characters back before `(.+)$`; a run of more than six `#` failing the heading pattern; `^` and `$` under the `m` flag.
- `Segmenter` holds the scan.
  - `NextMatch` is `exec` from a given `lastIndex`.
  - `Pieces` and `KeepTrimmed` are the specification.
  - `Segment` is the loop, proved equal to `Sentences`.
- `Chunker` holds the grouping loop `Assemble` and `ChunkText`, the whole function. `AssembleFrom` is the same loop written as tail recursion, and `Assemble`'s invariant only ties the loop to it. The link to the specification is `AssembleFromIsGrouped`, which proves `AssembleFrom` equal to `Grouped`; that is what makes `Assemble` return `Grouped(allSentences, sentencesPerChunk)`.

The normaliser is pure code, so it is modelled as functions. The two loops of `chunkText` are methods with loop invariants, each proved against a specification function. The properties are then proved about those functions.

Behaviours of the code worth knowing:

- A heading's text is kept (`'$1'` at line 8). A heading line has no terminal punctuation, so it becomes part of the first sentence: `"# Title\nThis is one."` gives the sentence `"Title\nThis is one."`. `HeadingKeepsText` and `HeadingFoldsIntoFirstSentence` show this on small inputs.
- Deleting a table row leaves its line terminator in place, because `^\|.+\|$` does not consume it (`TableRowLeavesLineBreak`).
- `allSentences` is an array filled in one pass over the plain text, before any chunk is built.

## Model

| member | source | states |
|---|---|---|
| Text.IsLineTerminator | utils/chunkText.ts:8-12 | definition: the characters `.` does not match and at which `^` and `$` hold under the `m` flag (LF, CR, U+2028, U+2029); used by `LastOnLine`, `SpacedBody` and `TableRowShape` |
| Text.IsSpace | utils/chunkText.ts:24 | definition: the characters `\s` matches and `trim` removes (lines 8-12, 24, 30, 36, 43, 51, 61); its properties are in the `Trim` and `StripSpace` rows |
| Text.Trim | utils/chunkText.ts:24 | `trim` gives a string with no whitespace at either end, no longer than its input, and empty exactly when the input is all whitespace |
| Text.TrimStart | utils/chunkText.ts:24 | the front cut of `trim`: everything before it is whitespace and the character at it is not |
| Text.TrimEnd | utils/chunkText.ts:24 | the back cut of `trim`: everything from it on is whitespace and the character before it (after the front cut) is not |
| Text.TrimLeft | utils/chunkText.ts:24 | definition: leading whitespace removed; described by `TrimLeftCut` |
| Text.TrimRight | utils/chunkText.ts:24 | definition: trailing whitespace removed; described by `TrimRightCut` |
| Text.TrimLeftCut | utils/chunkText.ts:24 | dropping leading whitespace of a suffix keeps the text from the end of its whitespace run |
| Text.TrimRightCut | utils/chunkText.ts:24 | dropping trailing whitespace of a slice keeps the text up to the start of its final whitespace run |
| Text.TrimSlice | utils/chunkText.ts:24 | `trim` returns exactly the slice between its two cuts |
| Text.TrimChars | utils/chunkText.ts:24 | `trim` only removes characters: the result's multiset of characters is contained in the input's |
| Text.TrimKeepsTrimmed | utils/chunkText.ts:61 | `trim` leaves a string that already has no whitespace at either end unchanged |
| Text.Kept | utils/chunkText.ts:43-45 | definition: a piece trimmed and pushed only if non-empty (also lines 51-54 and 61-64); described by `KeepTrimmedSingle`, `KeepTrimmedWellFormed` and `KeepTrimmedStripSpace` |
| Text.StripSpace | utils/chunkText.ts:39-55 | the non-whitespace characters of a string, in order, contain no whitespace and are no longer than the string |
| Text.StripSpaceAppend | utils/chunkText.ts:39-55 | stripping whitespace distributes over concatenation |
| Text.StripSpaceOfSpace | utils/chunkText.ts:24 | an all-whitespace string strips to nothing |
| Text.StripSpaceTrim | utils/chunkText.ts:43 | trimming removes whitespace only: the non-whitespace characters are unchanged |
| Text.StripSpaceCut | utils/chunkText.ts:43 | cutting whitespace-only ends off a string keeps its non-whitespace characters |
| Text.FlattenAppend | utils/chunkText.ts:39-55 | concatenating two lists of pieces is concatenating the two concatenations |
| Text.Join | utils/chunkText.ts:60 | definition: `join(' ')`; described by `JoinAppend`, `JoinWellFormed`, `StripSpaceJoin`, `JoinSplit` and `JoinPair` |
| Text.JoinAppend | utils/chunkText.ts:60 | `join(' ')` of two non-empty lists is the two joins with one space between them |
| Text.JoinWellFormed | utils/chunkText.ts:58-61 | joining non-empty trimmed strings gives a non-empty trimmed string that starts with the first one's first character and ends with the last one's last character |
| Text.StripSpaceJoin | utils/chunkText.ts:60 | joining with spaces adds whitespace only: the non-whitespace characters of the join are those of the plain concatenation |
| Markdown.AtLineStart | utils/chunkText.ts:4 | definition: where `^` holds under the `m` flag (also lines 8, 10, 12 and 20): position 0 or just after a line terminator |
| Markdown.AtLineEnd | utils/chunkText.ts:8 | definition: where `$` holds under the `m` flag (also lines 10, 12 and 20): the end of the text or just before a line terminator |
| Markdown.FindFence | utils/chunkText.ts:4 | the first three-backtick fence at or after a position, with none before it; or none at all |
| Markdown.CodeFenceAt | utils/chunkText.ts:4 | `^```[\s\S]*?```` matches at a line start from a fence to the first later fence, across lines, and is deleted; it fails only when the line start, the opening fence or a closing fence is missing |
| Markdown.DelimitedAt | utils/chunkText.ts:6 | `` `([^`]+)` `` (and `\*([^*]+)\*` at line 15) matches a delimiter, a non-empty run free of it, and the delimiter, replaced by the run; it fails only when there is no opening delimiter, the next character is a delimiter, or no closing one follows |
| Markdown.BoldAt | utils/chunkText.ts:14 | `\*\*([^*]+)\*\*` matches only `BoldShape`: two asterisks, a non-empty run without asterisks, two asterisks; it is replaced by the run |
| Markdown.BoldFound | utils/chunkText.ts:14 | wherever `BoldShape` holds, `BoldAt` matches exactly that text and keeps the inner run, so it fails exactly where the shape is absent |
| Markdown.TargetEnd | utils/chunkText.ts:17-18 | `\]\([^\)]+\)` after a label matches only `TargetShape`: `](`, a non-empty target without `)` (newlines allowed), and `)` |
| Markdown.TargetFound | utils/chunkText.ts:17-18 | wherever `TargetShape` holds, `TargetEnd` ends the match at that `)` |
| Markdown.ImageAt | utils/chunkText.ts:17 | `![alt](url)` matches only `ImageShape` and is replaced by its alt text, which may be empty and holds no `]` |
| Markdown.ImageFound | utils/chunkText.ts:17 | wherever `ImageShape` holds, `ImageAt` matches exactly that image and keeps its alt text |
| Markdown.LinkAt | utils/chunkText.ts:18 | `[label](url)` matches only `LinkShape` and is replaced by its non-empty label, which holds no `]` |
| Markdown.LinkFound | utils/chunkText.ts:18 | wherever `LinkShape` holds, `LinkAt` matches exactly that link and keeps its label |
| Markdown.LastOnLine | utils/chunkText.ts:8-12 | the last position in a range where `.` can match; every later position in the range is a line terminator |
| Markdown.SpacedLineBody | utils/chunkText.ts:8-12 | `\s+(.+)$` splits as `SpacedBody`: greedy `\s+` takes the whole whitespace run, so `(.+)` starts at its end, unless the run reaches the end of the text; then `(.+)` starts at the last character that is not a line terminator. It fails only on no whitespace or nothing but line terminators after the first whitespace |
| Markdown.SpacedBodyFound | utils/chunkText.ts:8-12 | wherever `SpacedBody` holds, `SpacedLineBody` returns that split, so the split is unique |
| Markdown.ItemBody | utils/chunkText.ts:8-12 | after a line marker, the match keeps only the `(.+)` body of the `SpacedBody` split, which lies on one line and ends at a line end |
| Markdown.ItemBodyFound | utils/chunkText.ts:8-12 | wherever `SpacedBody` holds after a marker, `ItemBody` keeps exactly that body |
| Markdown.HeadingAt | utils/chunkText.ts:8 | `^#{1,6}\s+(.+)$` matches only `HeadingShape`: at a line start, the whole `#` run (one to six long), whitespace, and the kept heading text as the greedy split puts it |
| Markdown.HeadingFound | utils/chunkText.ts:8 | wherever `HeadingShape` holds, `HeadingAt` matches that heading and keeps that text; a run of seven or more `#` has no shape and no match |
| Markdown.BulletItemAt | utils/chunkText.ts:10 | `^[-*+]\s+(.+)$` matches only `BulletShape`: a bullet marker at a line start, whitespace, and the kept item text as the greedy split puts it |
| Markdown.BulletItemFound | utils/chunkText.ts:10 | wherever `BulletShape` holds, `BulletItemAt` matches that item and keeps that text |
| Markdown.NumberedItemAt | utils/chunkText.ts:12 | `^\d+\.\s+(.+)$` matches only `NumberedShape`: the whole digit run and a dot at a line start, whitespace, and the kept item text as the greedy split puts it |
| Markdown.NumberedItemAfter | utils/chunkText.ts:12 | after the digit run, the match needs the dot and then the `SpacedBody` split, and keeps its body |
| Markdown.NumberedItemFound | utils/chunkText.ts:12 | wherever `NumberedShape` holds, `NumberedItemAt` matches that item and keeps that text |
| Markdown.NumberedItemAfterFound | utils/chunkText.ts:12 | proof helper: a dot and a `SpacedBody` split after the digits are matched |
| Markdown.TableRowAt | utils/chunkText.ts:20 | `^\|.+\|$` matches only `TableRowShape`: a whole line of at least three characters from `\|` to `\|`, deleted without its line terminator |
| Markdown.TableRowFound | utils/chunkText.ts:20 | wherever `TableRowShape` holds, `TableRowAt` deletes that line |
| Markdown.BlankLinesAt | utils/chunkText.ts:22 | `\n{3,}` takes the whole newline run (three or more) and puts two newlines in its place; it fails exactly when three newlines do not start here |
| Markdown.MatchAt | utils/chunkText.ts:4-22 | a match of any of the eleven patterns is non-empty and lies inside the text, so the global scan always moves forward |
| Markdown.DelimitedConsumes | utils/chunkText.ts:6 | the inline-code and italic replacement (line 15 too) is taken from the matched text |
| Markdown.BoldConsumes | utils/chunkText.ts:14 | the bold replacement is taken from the matched text |
| Markdown.ImageConsumes | utils/chunkText.ts:17 | the image replacement (its alt text) is taken from the matched text |
| Markdown.LinkConsumes | utils/chunkText.ts:18 | the link replacement (its label) is taken from the matched text |
| Markdown.TailConsumes | utils/chunkText.ts:8-12 | a replacement that is the final part of the match is taken from the matched text |
| Markdown.HeadingConsumes | utils/chunkText.ts:8 | the heading replacement is taken from the matched text |
| Markdown.BulletItemConsumes | utils/chunkText.ts:10 | the bullet-item replacement is taken from the matched text |
| Markdown.NumberedItemConsumes | utils/chunkText.ts:12 | the numbered-item replacement is taken from the matched text |
| Markdown.BlankLinesConsumes | utils/chunkText.ts:22 | the two newlines put for a newline run come from that run |
| Markdown.MatchAtConsumes | utils/chunkText.ts:4-22 | for every pattern, the replacement of a match uses only characters of the matched text |
| Markdown.ReplaceFrom | utils/chunkText.ts:4-22 | definition: `replace` with a `g` pattern, scanned from a position; described by `ReplaceFromHit`, `ReplaceFromMiss`, `ReplaceFromStep`, `ReplaceFromChars` and `ReplaceFromNoMatch` |
| Markdown.Rewrite | utils/chunkText.ts:4-22 | definition: one pass of `replace` over the whole text; described by `RewriteChars` and `RewriteLeavesPlainText` |
| Markdown.ReplaceFromHit | utils/chunkText.ts:4-22 | proof helper: where the pattern matches, the global scan emits the replacement and resumes after the match |
| Markdown.ReplaceFromMiss | utils/chunkText.ts:4-22 | proof helper: where the pattern does not match, the global scan copies one character and moves on |
| Markdown.ScanStep | utils/chunkText.ts:4-22 | one step of the global scan always moves forward and stays inside the text |
| Markdown.ReplaceFromStep | utils/chunkText.ts:4-22 | proof helper: the global scan is its first step followed by the scan from where that step leaves off |
| Markdown.ScanStepChars | utils/chunkText.ts:4-22 | one scan step emits only characters of the text it steps over |
| Markdown.CharsAppend | utils/chunkText.ts:4-22 | output drawn from two adjacent parts of the text is drawn from the text |
| Markdown.ReplaceFromChars | utils/chunkText.ts:4-22 | the global replacement scan only deletes: its output's characters are contained in the scanned input's |
| Markdown.RewriteChars | utils/chunkText.ts:4-22 | `replace` with a global pattern only deletes characters |
| Markdown.Normalise | utils/chunkText.ts:1-25 | `markdownToPlainText` returns a string with no whitespace at either end, never three newlines in a row, and only characters of its input |
| Markdown.AfterCollapsedRun | utils/chunkText.ts:22 | two newlines put before output that starts with no newline leave no run of three |
| Markdown.AfterShortRun | utils/chunkText.ts:22 | a newline copied before output that starts with fewer than `n` newlines leaves no run of three and starts with fewer than `n + 1` |
| Markdown.AfterOther | utils/chunkText.ts:22 | a copied non-newline character starts no newline run |
| Markdown.CollapseRun | utils/chunkText.ts:22 | at a run of three or more newlines the collapse scan emits two newlines and resumes after the whole run, where no newline follows |
| Markdown.CollapseCopy | utils/chunkText.ts:22 | anywhere else the collapse scan copies one character; a copied newline leaves the rest of its run, and a non-newline starts no run |
| Markdown.CollapseRunCase | utils/chunkText.ts:22 | a collapsed run in front of correctly collapsed output keeps it collapsed |
| Markdown.CollapseCopyCase | utils/chunkText.ts:22 | a copied character in front of correctly collapsed output keeps it collapsed |
| Markdown.CollapseFrom | utils/chunkText.ts:22 | the collapse scan from any position yields no three newlines in a row and starts with at most as many newlines as the input has there (never three) |
| Markdown.BlankLinesCollapsed | utils/chunkText.ts:22 | the collapse pass leaves no run of three or more newlines |
| Markdown.TrimKeepsNoTripleNewline | utils/chunkText.ts:22-24 | trimming cannot create a run of three newlines |
| Markdown.ReplaceFromNoMatch | utils/chunkText.ts:4-22 | a pattern that matches nowhere leaves the text unchanged |
| Markdown.MarkupFreeMatchesNothing | utils/chunkText.ts:4-22 | none of the eleven patterns matches anywhere in markup-free text |
| Markdown.RewriteLeavesPlainText | utils/chunkText.ts:4-22 | each pass leaves markup-free text unchanged |
| Markdown.NormaliseNoMatch | utils/chunkText.ts:1-25 | trimmed text that none of the eleven patterns matches anywhere passes through the normaliser unchanged |
| Markdown.NormaliseLeavesPlainText | utils/chunkText.ts:1-25 | markup-free text is text no pattern matches, so trimmed markup-free text passes through the normaliser unchanged |
| Markdown.NormaliseOfBlank | utils/chunkText.ts:1-25 | whitespace-only input normalises to the empty string |
| Markdown.HeadingKeepsText | utils/chunkText.ts:8 | the heading pass turns `"# T"` into `"T"`: the marker goes, the text stays |
| Markdown.TableRowExampleMatches | utils/chunkText.ts:20 | on `"\|a\|\nX"` the table-row pattern matches the first line only, and nothing matches at the line break or after it |
| Markdown.TableRowLeavesLineBreak | utils/chunkText.ts:20 | the table-row pass turns `"\|a\|\nX"` into `"\nX"`: the row goes, its line break stays |
| Segmenter.NextMatch | utils/chunkText.ts:36-42 | `exec` from `lastIndex` finds the leftmost run of `.`, `!`, `?` at or after it, extended greedily over the punctuation and then the whitespace; or reports that no terminal punctuation is left |
| Segmenter.Pieces | utils/chunkText.ts:39-55 | definition: the pieces the scan cuts from `lastIndex` on, each closed by a match, then the remainder; described by `PiecesPartition` and `PiecesShape` |
| Segmenter.KeepTrimmed | utils/chunkText.ts:43-54 | definition: each piece trimmed and kept if non-empty; described by `KeepTrimmedAppend`, `KeepTrimmedWellFormed` and `KeepTrimmedStripSpace` |
| Segmenter.Sentences | utils/chunkText.ts:36-55 | definition: `allSentences` as a function of the plain text; `Segment` computes it and `SentencesWellFormed`, `SentencesCover` and `SentencesTerminated` describe it |
| Segmenter.KeepTrimmedAppend | utils/chunkText.ts:43-54 | trimming and filtering pieces distributes over concatenation |
| Segmenter.KeepTrimmedSingle | utils/chunkText.ts:43-45 | proof helper: one piece yields its trimmed text, or nothing if that is empty |
| Segmenter.SentencesStep | utils/chunkText.ts:42-54 | proof helper: one loop step: a match adds the trimmed piece up to its end; no match adds the trimmed remainder, if any |
| Segmenter.Segment | utils/chunkText.ts:36-55 | the `while` loop and the remainder step collect exactly `Sentences(plainText)` |
| Segmenter.PiecesPartition | utils/chunkText.ts:39-55 | the pieces, concatenated in order, are exactly the text from `lastIndex` on: nothing lost, repeated or reordered |
| Segmenter.KeepTrimmedWellFormed | utils/chunkText.ts:43-54 | the kept pieces are non-empty and trimmed, and there are no more of them than pieces |
| Segmenter.KeepTrimmedStripSpace | utils/chunkText.ts:43-54 | trimming and dropping empty pieces loses no non-whitespace character |
| Segmenter.SentencesWellFormed | utils/chunkText.ts:43-54 | every sentence is non-empty with no whitespace at either end |
| Segmenter.SentencesCover | utils/chunkText.ts:39-55 | the non-whitespace characters of the sentences, in order, are exactly those of the text: each lands in exactly one sentence |
| Segmenter.MatchedPiece | utils/chunkText.ts:36-45 | a piece closed by a match has no `.`, `!` or `?` before the match and ends with the matched punctuation run and its whitespace |
| Segmenter.RunTrim | utils/chunkText.ts:43-47 | such a piece trims to text ending in `.`, `!` or `?`, with such characters only in its final run |
| Segmenter.RunCutShape | utils/chunkText.ts:43-47 | the same for any slice of the piece that keeps the match start and ends on a non-whitespace character |
| Segmenter.MatchedPieceTrim | utils/chunkText.ts:42-47 | a piece closed by a match trims to text ending in `.`, `!` or `?`, with such characters only in its final run |
| Segmenter.RemainderTrim | utils/chunkText.ts:50-54 | the text after the last match trims to text without any `.`, `!` or `?` |
| Segmenter.ShapedCons | utils/chunkText.ts:42-55 | a terminated sentence in front of correctly shaped sentences keeps the shape |
| Segmenter.PiecesShape | utils/chunkText.ts:39-55 | the kept pieces from any `lastIndex` have the sentence shape |
| Segmenter.SentencesTerminated | utils/chunkText.ts:36-55 | every sentence but possibly the last ends in `.`, `!` or `?`, and once a sentence holds one of them every later character is one too |
| Segmenter.ExampleMatches | utils/chunkText.ts:36-48 | on `"T\nO. W"` the scan finds `". "` at 3 and then nothing |
| Segmenter.ExamplePiecesKept | utils/chunkText.ts:43-54 | the pieces `"T\nO. "` and `"W"` trim to `"T\nO."` and `"W"` and are kept |
| Segmenter.HeadingFoldsIntoFirstSentence | utils/chunkText.ts:36-55 | `"T\nO. W"` splits into `"T\nO."` and `"W"`: a line without punctuation joins the next sentence |
| Chunker.Groups | utils/chunkText.ts:57-60 | definition: the joins of the slices of `k` sentences from `i` on; described by `GroupsCount`, `GroupsAt`, `GroupsWellFormed` and `GroupsJoin` |
| Chunker.Grouped | utils/chunkText.ts:57-66 | definition: the groups trimmed and kept if non-empty; described by `GroupedIsGroups`, `GroupedCount`, `GroupedAt` and `GroupedJoin` |
| Chunker.Assemble | utils/chunkText.ts:57-66 | the `for` loop collects exactly `Grouped(allSentences, sentencesPerChunk)` |
| Chunker.AssembleFromIsGrouped | utils/chunkText.ts:57-66 | running the loop from sentence `i` appends to what was collected the chunks of the groups from `i` on |
| Chunker.KeptStep | utils/chunkText.ts:61-64 | proof helper: pushing the trimmed group when it is non-empty, then keeping the rest, is keeping all of them |
| Chunker.KeepTrimmedOfWellFormed | utils/chunkText.ts:61-65 | `trim` and `if (chunk)` leave a list of non-empty trimmed strings unchanged |
| Chunker.JoinSlice | utils/chunkText.ts:58-61 | a non-empty slice of well-formed sentences joins to a non-empty trimmed string |
| Chunker.GroupsCount | utils/chunkText.ts:57 | with `c` groups for the `n` sentences from `i` on, `(c - 1) k < n <= c k` |
| Chunker.GroupsAt | utils/chunkText.ts:57-60 | group `j` from `i` is the join of sentences `[i + j k, i + (j + 1) k)`, cut short at the end |
| Chunker.GroupsUnfold | utils/chunkText.ts:57-60 | proof helper: the groups from sentence `i` are the join of the next `k` sentences (fewer at the end), then the groups from `i + k` |
| Chunker.GroupsWellFormed | utils/chunkText.ts:57-61 | the groups of well-formed sentences are non-empty and trimmed |
| Chunker.GroupsJoin | utils/chunkText.ts:57-66 | joining the groups from `i` with spaces gives the join of the sentences from `i` |
| Chunker.WellFormedCons | utils/chunkText.ts:58-61 | a non-empty trimmed string in front of well-formed strings keeps them well formed |
| Chunker.JoinSplit | utils/chunkText.ts:60 | the join of a slice is the joins of its two parts with one space between them |
| Chunker.JoinCons | utils/chunkText.ts:60 | proof helper: the join of a string followed by a non-empty list is the string, a space and the list's join |
| Chunker.CeilDivUnique | utils/chunkText.ts:57 | the only `c` with `(c - 1) k < n <= c k` is ceil(n / k) |
| Chunker.GroupedIsGroups | utils/chunkText.ts:57-66 | for well-formed sentences no chunk is dropped or changed by `trim` and `if (chunk)` |
| Chunker.GroupedCount | utils/chunkText.ts:57-66 | `n` well-formed sentences give exactly ceil(n / k) chunks |
| Chunker.GroupedAt | utils/chunkText.ts:57-66 | chunk `j` is the single-space join of sentences `[j k, min((j + 1) k, n))` |
| Chunker.GroupedJoin | utils/chunkText.ts:57-66 | joining the chunks with spaces equals joining the sentences with spaces |
| Chunker.JoinPair | utils/chunkText.ts:60 | proof helper: two strings join to the first, one space and the second |
| Chunker.GroupsOfFour | utils/chunkText.ts:57-60 | four sentences two at a time give the joins of the first pair and of the second pair |
| Chunker.FourSentencesWellFormed | utils/chunkText.ts:57-66 | proof helper: the four example sentences are non-empty and trimmed |
| Chunker.FirstPairJoined | utils/chunkText.ts:60 | proof helper: the first two example sentences with one space between them read `"This is one. This is two."` |
| Chunker.SecondPairJoined | utils/chunkText.ts:60 | proof helper: the last two example sentences with one space between them read `"This is three. This is four."` |
| Chunker.GroupedPairs | utils/chunkText.ts:57-66 | four sentences two at a time give the two chunks `"This is one. This is two."` and `"This is three. This is four."` |
| Chunker.Chunks | utils/chunkText.ts:27-69 | definition: `chunkText` as a function of its inputs; `ChunkText` computes it and `ChunksAt` describes it |
| Chunker.ChunkText | utils/chunkText.ts:27-69 | `chunkText` with `sentencesPerChunk` defaulting to 3 returns `[]` for empty or whitespace-only input before normalising, otherwise ceil(n / k) non-empty trimmed chunks for the `n` sentences of the plain text, whose join is the join of those sentences and which hold every non-whitespace character of the plain text once, in order |
| Chunker.ChunksAt | utils/chunkText.ts:57-66 | chunk `j` of the result is sentences `[j k, min((j + 1) k, n))` of the plain text, joined with single spaces |

## Left out

- Chunker.ChunkText: requires `sentencesPerChunk >= 1`. With zero or a negative value the loop at line 57 never ends once there is at least one sentence. Blank input still returns `[]` at line 31, and so does input that normalises to text without sentences. A fractional value (a JavaScript `number`) is cut by `slice`. None of these cases is modelled.
- Strings are sequences of Unicode scalar values. JavaScript strings are UTF-16 code units, so positions and lengths differ for characters outside the Basic Multilingual Plane, and lone surrogates cannot be represented.
- Whitespace is the fixed WhiteSpace and LineTerminator set of ECMA-262. A different Unicode version's `Space_Separator` set is not modelled.
- The regular expressions are not interpreted by a general engine. Each of the eleven patterns (and `[.!?]+\s*`) has a hand-written matcher. Its behaviour was worked out by hand from the pattern's quantifiers and is pinned by a shape predicate in both directions, but no regular-expression semantics is formalised to derive it from.
- `chunkText`'s `text` argument being `undefined` or not a string (a JavaScript type error) is not modelled.
- Every other file of the repository is not part of this model:
  - the prompt constants (`prompts.ts`);
  - the language-model call (`index.ts`);
  - speech synthesis and base64 encoding (`audio.ts`);
  - web scraping (`scrape.ts`);
  - the Express routes and database connection (`server.ts`);
  - authentication, hashing and tokens (`routes/auth.ts`, `models/User.ts`);
  - request validation (`validate.ts`, `schemas.ts`);
  - the stored-generation schema (`models/Generation.ts`).

  All of these are I/O, foreign libraries, or declarations without logic.
- There is no narration stream controller in the source (no per-chunk frames, `isLast` flag or mid-stream abort). The `/dubbing` route synthesises the whole text in one call, so no streaming is modelled.
