/**
 * `markdownToPlainText`: eleven global regular-expression replacements
 * applied one after another, then `trim`.
 *
 * Each replacement is a left-to-right scan (JavaScript's
 * `String.prototype.replace` with a `g` regular expression): at each position
 * the pattern is tried; on a match its replacement is emitted and the scan
 * resumes at the end of the match, otherwise the character is copied and the
 * scan moves one place on. None of the eleven patterns can match the empty
 * string. `MatchAt` gives, per pattern, the match the backtracking engine
 * finds at one position, worked out by hand from each pattern's greedy and
 * lazy quantifiers. Each matcher comes with a shape predicate: a match is
 * always of that shape, and a `...Found` lemma shows that the shape present
 * at a position is matched there.
 */
module Markdown {
  import opened Wrappers
  import opened Text

  /** The eleven patterns, in the order they run. */
  datatype Pass =
    | CodeFence     // a fenced code block, deleted
    | InlineCode    // a backtick span, kept as its text
    | Heading       // a heading line, kept as its text
    | BulletItem    // a bulleted item, kept as its text
    | NumberedItem  // a numbered item, kept as its text
    | Bold          // double-asterisk emphasis, kept as its text
    | Italic        // single-asterisk emphasis, kept as its text
    | Image         // an image, kept as its alt text
    | Link          // a link, kept as its label
    | TableRow      // a table row, deleted
    | BlankLines    // three or more newlines, left as two

  /** A match: where it ends, and the text that replaces it. */
  datatype Hit = Hit(end: nat, rep: string)

  /** A half-open range of positions. */
  datatype Span = Span(start: nat, end: nat)

  /** A match found at `i` is non-empty and lies inside `s`. */
  predicate Advances(s: string, i: nat, h: Option<Hit>) {
    h.Some? ==> i < h.value.end <= |s|
  }

  /** A match found at `i` is replaced only by characters of the matched text. */
  ghost predicate Consumes(s: string, i: nat, h: Option<Hit>) {
    h.Some? ==> i < h.value.end <= |s| && multiset(h.value.rep) <= multiset(s[i..h.value.end])
  }

  /** `t` is the text of `s` from `a` up to but not including `b`. */
  predicate IsSliceOf(t: string, s: string, a: nat, b: nat) {
    a <= b <= |s| && t == s[a..b]
  }

  /** `c` does not occur in `s` from `a` up to but not including `b`. */
  predicate FreeOf(s: string, a: nat, b: nat, c: char) {
    a <= b <= |s| && forall k :: a <= k < b ==> s[k] != c
  }

  lemma SliceWithin(s: string, i: nat, a: nat, b: nat, e: nat)
    requires i <= a <= b <= e <= |s|
    ensures multiset(s[a..b]) <= multiset(s[i..e])
  {
    assert s[i..e] == s[i..a] + s[a..b] + s[b..e];
  }

  /** `^` under the `m` flag. */
  predicate AtLineStart(s: string, i: nat)
    requires i <= |s|
  {
    i == 0 || IsLineTerminator(s[i - 1])
  }

  /** `$` under the `m` flag. */
  predicate AtLineEnd(s: string, j: nat)
    requires j <= |s|
  {
    j == |s| || IsLineTerminator(s[j])
  }

  /** No line terminator in `s[a..b]`: what `.` may run over. */
  predicate OnOneLine(s: string, a: nat, b: nat)
    requires a <= b <= |s|
  {
    forall k :: a <= k < b ==> !IsLineTerminator(s[k])
  }

  /** The bracket characters of the link and image patterns. */
  const OpenParen: char := '\U{0028}'
  const CloseParen: char := '\U{0029}'
  const OpenBracket: char := '\U{005B}'
  const CloseBracket: char := '\U{005D}'

  predicate IsDigit(c: char) { '0' <= c <= '9' }
  predicate IsHash(c: char) { c == '#' }
  predicate IsBullet(c: char) { c == '-' || c == '*' || c == '+' }
  predicate IsNewline(c: char) { c == '\n' }
  predicate OffLine(c: char) { !IsLineTerminator(c) }

  /** Three backticks start at `m`. */
  predicate IsFenceAt(s: string, m: nat) {
    m + 3 <= |s| && s[m] == '`' && s[m + 1] == '`' && s[m + 2] == '`'
  }

  /** The first fence at or after `k`. */
  function FindFence(s: string, k: nat): (f: Option<nat>)
    requires k <= |s|
    ensures f.Some? ==> k <= f.value && IsFenceAt(s, f.value)
    ensures f.Some? ==> forall m :: k <= m < f.value ==> !IsFenceAt(s, m)
    ensures f.None? ==> forall m :: k <= m ==> !IsFenceAt(s, m)
    decreases |s| - k
  {
    if k + 3 > |s| then None
    else if IsFenceAt(s, k) then Some(k)
    else FindFence(s, k + 1)
  }

  /** `^```[\s\S]*?```` at `i`: from a fence at the start of a line to the
      first fence after it (the lazy `*?`), across lines. */
  function CodeFenceAt(s: string, i: nat): (h: Option<Hit>)
    requires i < |s|
    ensures Advances(s, i, h)
    ensures h.Some? ==> AtLineStart(s, i) && IsFenceAt(s, i) && i + 6 <= h.value.end
                        && IsFenceAt(s, h.value.end - 3) && h.value.rep == []
                        && forall m :: i + 3 <= m < h.value.end - 3 ==> !IsFenceAt(s, m)
    ensures h.None? ==> !AtLineStart(s, i) || !IsFenceAt(s, i) || forall m :: i + 3 <= m ==> !IsFenceAt(s, m)
  {
    if AtLineStart(s, i) && IsFenceAt(s, i) then
      match FindFence(s, i + 3)
      case Some(k) => Some(Hit(k + 3, []))
      case None => None
    else None
  }

  /** `d([^d]+)d` at `i`, kept as `$1`: the inline-code (`d` a backtick)
      and italic (`d` an asterisk) patterns. */
  function DelimitedAt(s: string, i: nat, d: char): (h: Option<Hit>)
    requires i < |s|
    ensures Advances(s, i, h)
    ensures h.Some? ==> i + 2 < h.value.end <= |s| && s[i] == d && s[h.value.end - 1] == d && IsSliceOf(h.value.rep, s, i + 1, h.value.end - 1)
                        && h.value.rep != [] && d !in h.value.rep
    ensures h.None? ==> s[i] != d || (i + 1 < |s| && s[i + 1] == d) || d !in s[i + 1..]
  {
    if s[i] != d then None
    else
      var j := SkipWhile(s, i + 1, c => c != d);
      if i + 1 < j < |s| then
        Some(Hit(j + 1, s[i + 1..j]))
      else
        assert j == |s| ==> d !in s[i + 1..];
        None
  }

  /** `\*\*([^*]+)\*\*` matches `s[i..e]`: two asterisks, a non-empty run
      free of asterisks, two asterisks. */
  predicate BoldShape(s: string, i: nat, e: nat) {
    i + 4 < e <= |s| && s[i] == '*' && s[i + 1] == '*' && s[e - 2] == '*' && s[e - 1] == '*'
    && FreeOf(s, i + 2, e - 2, '*')
  }

  /** `\*\*([^*]+)\*\*` at `i`, kept as `$1`. */
  function BoldAt(s: string, i: nat): (h: Option<Hit>)
    requires i < |s|
    ensures Advances(s, i, h)
    ensures h.Some? ==> BoldShape(s, i, h.value.end) && IsSliceOf(h.value.rep, s, i + 2, h.value.end - 2)
  {
    if i + 1 < |s| && s[i] == '*' && s[i + 1] == '*' then
      var j := SkipWhile(s, i + 2, c => c != '*');
      if i + 2 < j && j + 1 < |s| && s[j + 1] == '*' then
        Some(Hit(j + 2, s[i + 2..j]))
      else None
    else None
  }

  /** Bold text at `i` is always found, and replaced by its inner run. */
  lemma BoldFound(s: string, i: nat, e: nat)
    requires BoldShape(s, i, e)
    ensures BoldAt(s, i) == Some(Hit(e, s[i + 2..e - 2]))
  {
    SkipWhileAt(s, i + 2, c => c != '*', e - 2);
  }

  /** The target part `\(([^\)]+)\)` after a closing bracket at `j` ends at
      `e`: an opening parenthesis, a non-empty run free of closing
      parentheses, a closing parenthesis. */
  predicate TargetShape(s: string, j: nat, e: nat) {
    j + 3 < e <= |s| && s[j + 1] == OpenParen && s[e - 1] == CloseParen && FreeOf(s, j + 2, e - 1, CloseParen)
  }

  /** Where the target part after the closing bracket at `j` ends. */
  function TargetEnd(s: string, j: nat): (e: Option<nat>)
    requires j < |s|
    ensures e.Some? ==> TargetShape(s, j, e.value)
  {
    if j + 1 < |s| && s[j + 1] == OpenParen then
      var k := SkipWhile(s, j + 2, c => c != CloseParen);
      if j + 2 < k < |s| then Some(k + 1) else None
    else None
  }

  lemma TargetFound(s: string, j: nat, e: nat)
    requires j < |s| && TargetShape(s, j, e)
    ensures TargetEnd(s, j) == Some(e)
  {
    SkipWhileAt(s, j + 2, c => c != CloseParen, e - 1);
  }

  /** `!\[([^\]]*)\]\([^\)]+\)` matches `s[i..e]` with its closing bracket
      at `j`: the alt text `s[i + 2..j]` may be empty and holds no closing
      bracket. */
  predicate ImageShape(s: string, i: nat, j: nat, e: nat) {
    i + 2 <= j < |s| && s[i] == '!' && s[i + 1] == OpenBracket && FreeOf(s, i + 2, j, CloseBracket)
    && s[j] == CloseBracket && TargetShape(s, j, e)
  }

  /** An image at `i`, kept as its alt text `$1`. */
  function ImageAt(s: string, i: nat): (h: Option<Hit>)
    requires i < |s|
    ensures Advances(s, i, h)
    ensures h.Some? ==> var j := i + 2 + |h.value.rep|;
                        ImageShape(s, i, j, h.value.end) && IsSliceOf(h.value.rep, s, i + 2, j)
  {
    if i + 1 < |s| && s[i] == '!' && s[i + 1] == OpenBracket then
      var j := SkipWhile(s, i + 2, c => c != CloseBracket);
      if j < |s| then
        match TargetEnd(s, j)
        case Some(e) =>
          Some(Hit(e, s[i + 2..j]))
        case None => None
      else None
    else None
  }

  /** An image at `i` is always found, and replaced by its alt text. */
  lemma ImageFound(s: string, i: nat, j: nat, e: nat)
    requires ImageShape(s, i, j, e)
    ensures ImageAt(s, i) == Some(Hit(e, s[i + 2..j]))
  {
    SkipWhileAt(s, i + 2, c => c != CloseBracket, j);
    TargetFound(s, j, e);
  }

  /** `\[([^\]]+)\]\([^\)]+\)` matches `s[i..e]` with its closing bracket
      at `j`: the label `s[i + 1..j]` is non-empty and holds no closing
      bracket. */
  predicate LinkShape(s: string, i: nat, j: nat, e: nat) {
    i + 1 < j < |s| && s[i] == OpenBracket && FreeOf(s, i + 1, j, CloseBracket)
    && s[j] == CloseBracket && TargetShape(s, j, e)
  }

  /** A link at `i`, kept as its label `$1`. */
  function LinkAt(s: string, i: nat): (h: Option<Hit>)
    requires i < |s|
    ensures Advances(s, i, h)
    ensures h.Some? ==> var j := i + 1 + |h.value.rep|;
                        LinkShape(s, i, j, h.value.end) && IsSliceOf(h.value.rep, s, i + 1, j)
  {
    if s[i] == OpenBracket then
      var j := SkipWhile(s, i + 1, c => c != CloseBracket);
      if i + 1 < j < |s| then
        match TargetEnd(s, j)
        case Some(e) =>
          Some(Hit(e, s[i + 1..j]))
        case None => None
      else None
    else None
  }

  /** A link at `i` is always found, and replaced by its label. */
  lemma LinkFound(s: string, i: nat, j: nat, e: nat)
    requires LinkShape(s, i, j, e)
    ensures LinkAt(s, i) == Some(Hit(e, s[i + 1..j]))
  {
    SkipWhileAt(s, i + 1, c => c != CloseBracket, j);
    TargetFound(s, j, e);
  }

  /** The last position in `[lo, hi]` where `.` can start. */
  function LastOnLine(s: string, lo: nat, hi: nat): (k: Option<nat>)
    requires lo <= hi <= |s|
    ensures k.Some? ==> lo <= k.value <= hi && k.value < |s| && !IsLineTerminator(s[k.value])
    ensures k.Some? ==> forall m :: k.value < m <= hi && m < |s| ==> IsLineTerminator(s[m])
    ensures k.None? ==> forall m :: lo <= m <= hi && m < |s| ==> IsLineTerminator(s[m])
    decreases hi - lo
  {
    if hi < |s| && !IsLineTerminator(s[hi]) then Some(hi)
    else if hi == lo then None
    else LastOnLine(s, lo, hi - 1)
  }

  /** How the engine splits `\s+(.+)$` from `j`: `\s+` is `s[j..a]` and
      `(.+)` is `s[a..e]`, the rest of the line from `a`. The greedy `\s+`
      takes the whole whitespace run, so `s[a]` is not whitespace, unless the
      run reaches the end of the text; then it gives characters back one at a
      time, so `a` is the last place `.` can match and only line terminators
      follow it. */
  predicate SpacedBody(s: string, j: nat, a: nat, e: nat) {
    j < a < e <= |s| && (forall k :: j <= k < a ==> IsSpace(s[k]))
    && OnOneLine(s, a, e) && AtLineEnd(s, e)
    && (!IsSpace(s[a]) || forall k :: a < k < |s| ==> IsLineTerminator(s[k]))
  }

  /** `\s+(.+)$` at `j`: the captured `(.+)`. */
  function SpacedLineBody(s: string, j: nat): (b: Option<Span>)
    requires j <= |s|
    ensures b.Some? ==> SpacedBody(s, j, b.value.start, b.value.end)
    ensures b.Some? && SkipWhile(s, j, IsSpace) < |s| ==> b.value.start == SkipWhile(s, j, IsSpace)
    ensures b.None? ==> j == |s| || !IsSpace(s[j]) || forall m :: j < m < |s| ==> IsLineTerminator(s[m])
  {
    var w := SkipWhile(s, j, IsSpace);
    if w == j then None
    else
      match LastOnLine(s, j + 1, w)
      case Some(k) => Some(Span(k, SkipWhile(s, k, OffLine)))
      case None => None
  }

  /** Any split of the shape `SpacedBody` is the one the engine finds. */
  lemma SpacedBodyFound(s: string, j: nat, a: nat, e: nat)
    requires SpacedBody(s, j, a, e)
    ensures SpacedLineBody(s, j) == Some(Span(a, e))
  {
    var w := SkipWhile(s, j, IsSpace);
    if !IsSpace(s[a]) {
      SkipWhileAt(s, j, IsSpace, a);
    } else {
      SkipWhileAt(s, j, IsSpace, |s|);
    }
    assert LastOnLine(s, j + 1, w) == Some(a);
    SkipWhileAt(s, a, OffLine, e);
  }

  /** A line-anchored item: once its marker ends at `m`, `\s+(.+)$` follows
      and the body is kept. */
  function ItemBody(s: string, i: nat, m: nat): (h: Option<Hit>)
    requires i < m <= |s|
    ensures Advances(s, i, h)
    ensures h.Some? ==> |h.value.rep| < h.value.end && var a := h.value.end - |h.value.rep|;
                        SpacedBody(s, m, a, h.value.end) && IsSliceOf(h.value.rep, s, a, h.value.end)
  {
    match SpacedLineBody(s, m)
    case Some(b) =>
      Some(Hit(b.end, s[b.start..b.end]))
    case None => None
  }

  lemma ItemBodyFound(s: string, i: nat, m: nat, a: nat, e: nat)
    requires i < m && SpacedBody(s, m, a, e)
    ensures ItemBody(s, i, m) == Some(Hit(e, s[a..e]))
  {
    SpacedBodyFound(s, m, a, e);
  }

  /** `^#{1,6}\s+(.+)$` matches `s[i..e]` with the `#` run `s[i..m]` and
      the kept text `s[a..e]`. Fewer `#` than the run holds never help the
      engine (the next character would be `#`, not whitespace), so the run
      must be one to six long. */
  predicate HeadingShape(s: string, i: nat, m: nat, a: nat, e: nat) {
    SpacedBody(s, m, a, e) && i < m <= i + 6 && AtLineStart(s, i) && forall k :: i <= k < m ==> s[k] == '#'
  }

  /** A heading at `i`, kept as its text `$1`. */
  function HeadingAt(s: string, i: nat): (h: Option<Hit>)
    requires i < |s|
    ensures Advances(s, i, h)
    ensures h.Some? ==> |h.value.rep| < h.value.end && var a := h.value.end - |h.value.rep|;
                        HeadingShape(s, i, SkipWhile(s, i, IsHash), a, h.value.end) && IsSliceOf(h.value.rep, s, a, h.value.end)
  {
    if !AtLineStart(s, i) then None
    else
      var m := SkipWhile(s, i, IsHash);
      if m == i || m - i > 6 then None else ItemBody(s, i, m)
  }

  /** A heading at `i` is always found, and replaced by its text. */
  lemma HeadingFound(s: string, i: nat, m: nat, a: nat, e: nat)
    requires HeadingShape(s, i, m, a, e)
    ensures HeadingAt(s, i) == Some(Hit(e, s[a..e]))
  {
    SkipWhileAt(s, i, IsHash, m);
    ItemBodyFound(s, i, m, a, e);
  }

  /** `^[-*+]\s+(.+)$` matches `s[i..e]`, keeping `s[a..e]`. */
  predicate BulletShape(s: string, i: nat, a: nat, e: nat) {
    SpacedBody(s, i + 1, a, e) && AtLineStart(s, i) && IsBullet(s[i])
  }

  /** A bulleted item at `i`, kept as its text `$1`. */
  function BulletItemAt(s: string, i: nat): (h: Option<Hit>)
    requires i < |s|
    ensures Advances(s, i, h)
    ensures h.Some? ==> |h.value.rep| < h.value.end && var a := h.value.end - |h.value.rep|;
                        BulletShape(s, i, a, h.value.end) && IsSliceOf(h.value.rep, s, a, h.value.end)
  {
    if AtLineStart(s, i) && IsBullet(s[i]) then ItemBody(s, i, i + 1)
    else None
  }

  /** A bulleted item at `i` is always found, and replaced by its text. */
  lemma BulletItemFound(s: string, i: nat, a: nat, e: nat)
    requires BulletShape(s, i, a, e)
    ensures BulletItemAt(s, i) == Some(Hit(e, s[a..e]))
  {
    ItemBodyFound(s, i, i + 1, a, e);
  }

  /** `^\d+\.\s+(.+)$` matches `s[i..e]` with the digits `s[i..m]`, the dot
      at `m` and the kept text `s[a..e]`. */
  predicate NumberedShape(s: string, i: nat, m: nat, a: nat, e: nat) {
    SpacedBody(s, m + 1, a, e) && i < m && AtLineStart(s, i) && (forall k :: i <= k < m ==> IsDigit(s[k])) && s[m] == '.'
  }

  /** A numbered item at `i`, kept as its text `$1`. */
  function NumberedItemAt(s: string, i: nat): (h: Option<Hit>)
    requires i < |s|
    ensures Advances(s, i, h)
    ensures h.Some? ==> |h.value.rep| < h.value.end && var a := h.value.end - |h.value.rep|;
                        NumberedShape(s, i, SkipWhile(s, i, IsDigit), a, h.value.end) && IsSliceOf(h.value.rep, s, a, h.value.end)
  {
    if !AtLineStart(s, i) then None else NumberedItemAfter(s, i, SkipWhile(s, i, IsDigit))
  }

  /** The rest of a numbered item whose digits run from `i` to `m`: the dot,
      then `\s+(.+)$`. */
  function NumberedItemAfter(s: string, i: nat, m: nat): (h: Option<Hit>)
    requires i <= m <= |s|
    ensures Advances(s, i, h)
    ensures h.Some? ==> i < m < |s| && s[m] == '.' && |h.value.rep| < h.value.end
                        && var a := h.value.end - |h.value.rep|;
                           SpacedBody(s, m + 1, a, h.value.end) && IsSliceOf(h.value.rep, s, a, h.value.end)
  {
    if i < m < |s| && s[m] == '.' then ItemBody(s, i, m + 1) else None
  }

  /** A numbered item at `i` is always found, and replaced by its text. */
  lemma NumberedItemFound(s: string, i: nat, m: nat, a: nat, e: nat)
    requires NumberedShape(s, i, m, a, e)
    ensures NumberedItemAt(s, i) == Some(Hit(e, s[a..e]))
  {
    SkipWhileAt(s, i, IsDigit, m);
    NumberedItemAfterFound(s, i, m, a, e);
  }

  lemma NumberedItemAfterFound(s: string, i: nat, m: nat, a: nat, e: nat)
    requires i < m < |s| && s[m] == '.' && SpacedBody(s, m + 1, a, e)
    ensures NumberedItemAfter(s, i, m) == Some(Hit(e, s[a..e]))
  {
    ItemBodyFound(s, i, m + 1, a, e);
  }

  /** `^\|.+\|$` matches `s[i..e]`: a whole line from `|` to `|`, at least
      three characters long. The line terminator after it is not part of
      the match. */
  predicate TableRowShape(s: string, i: nat, e: nat) {
    i + 3 <= e <= |s| && AtLineStart(s, i) && s[i] == '|' && s[e - 1] == '|'
    && OnOneLine(s, i, e) && AtLineEnd(s, e)
  }

  /** A table row at `i`, deleted. */
  function TableRowAt(s: string, i: nat): (h: Option<Hit>)
    requires i < |s|
    ensures Advances(s, i, h)
    ensures h.Some? ==> TableRowShape(s, i, h.value.end) && h.value.rep == []
  {
    if AtLineStart(s, i) && s[i] == '|' then
      var e := SkipWhile(s, i + 1, OffLine);
      if i + 3 <= e && s[e - 1] == '|' then Some(Hit(e, [])) else None
    else None
  }

  /** A table row at `i` is always found, and deleted. */
  lemma TableRowFound(s: string, i: nat, e: nat)
    requires TableRowShape(s, i, e)
    ensures TableRowAt(s, i) == Some(Hit(e, []))
  {
    SkipWhileAt(s, i + 1, OffLine, e);
  }

  /** `\n{3,}` at `i`, replaced by two newlines. */
  function BlankLinesAt(s: string, i: nat): (h: Option<Hit>)
    requires i < |s|
    ensures Advances(s, i, h)
    ensures h.Some? ==> i + 3 <= h.value.end && (forall k :: i <= k < h.value.end ==> s[k] == '\n')
                        && (h.value.end < |s| ==> s[h.value.end] != '\n') && h.value.rep == "\n\n"
    ensures h.None? ==> !(i + 2 < |s| && s[i] == '\n' && s[i + 1] == '\n' && s[i + 2] == '\n')
  {
    var e := SkipWhile(s, i, IsNewline);
    if e - i >= 3 then
      Some(Hit(e, "\n\n"))
    else None
  }

  /** The match of pattern `p` that the engine finds at position `i`. */
  function MatchAt(p: Pass, s: string, i: nat): (h: Option<Hit>)
    requires i < |s|
    ensures Advances(s, i, h)
  {
    match p
    case CodeFence => CodeFenceAt(s, i)
    case InlineCode => DelimitedAt(s, i, '`')
    case Heading => HeadingAt(s, i)
    case BulletItem => BulletItemAt(s, i)
    case NumberedItem => NumberedItemAt(s, i)
    case Bold => BoldAt(s, i)
    case Italic => DelimitedAt(s, i, '*')
    case Image => ImageAt(s, i)
    case Link => LinkAt(s, i)
    case TableRow => TableRowAt(s, i)
    case BlankLines => BlankLinesAt(s, i)
  }

  // Each replacement uses only characters of the text it replaces.

  lemma DelimitedConsumes(s: string, i: nat, d: char)
    requires i < |s|
    ensures Consumes(s, i, DelimitedAt(s, i, d))
  {
    var h := DelimitedAt(s, i, d);
    if h.Some? { SliceWithin(s, i, i + 1, h.value.end - 1, h.value.end); }
  }

  lemma BoldConsumes(s: string, i: nat)
    requires i < |s|
    ensures Consumes(s, i, BoldAt(s, i))
  {
    var h := BoldAt(s, i);
    if h.Some? { SliceWithin(s, i, i + 2, h.value.end - 2, h.value.end); }
  }

  lemma ImageConsumes(s: string, i: nat)
    requires i < |s|
    ensures Consumes(s, i, ImageAt(s, i))
  {
    var h := ImageAt(s, i);
    if h.Some? { SliceWithin(s, i, i + 2, i + 2 + |h.value.rep|, h.value.end); }
  }

  lemma LinkConsumes(s: string, i: nat)
    requires i < |s|
    ensures Consumes(s, i, LinkAt(s, i))
  {
    var h := LinkAt(s, i);
    if h.Some? { SliceWithin(s, i, i + 1, i + 1 + |h.value.rep|, h.value.end); }
  }

  /** A line-anchored item keeps the tail of its match. */
  lemma TailConsumes(s: string, i: nat, h: Option<Hit>)
    requires Advances(s, i, h)
    requires h.Some? ==> i <= h.value.end - |h.value.rep| && h.value.rep == s[h.value.end - |h.value.rep|..h.value.end]
    ensures Consumes(s, i, h)
  {
    if h.Some? { SliceWithin(s, i, h.value.end - |h.value.rep|, h.value.end, h.value.end); }
  }

  lemma HeadingConsumes(s: string, i: nat)
    requires i < |s|
    ensures Consumes(s, i, HeadingAt(s, i))
  {
    TailConsumes(s, i, HeadingAt(s, i));
  }

  lemma BulletItemConsumes(s: string, i: nat)
    requires i < |s|
    ensures Consumes(s, i, BulletItemAt(s, i))
  {
    TailConsumes(s, i, BulletItemAt(s, i));
  }

  lemma NumberedItemConsumes(s: string, i: nat)
    requires i < |s|
    ensures Consumes(s, i, NumberedItemAt(s, i))
  {
    TailConsumes(s, i, NumberedItemAt(s, i));
  }

  lemma BlankLinesConsumes(s: string, i: nat)
    requires i < |s|
    ensures Consumes(s, i, BlankLinesAt(s, i))
  {
    var h := BlankLinesAt(s, i);
    if h.Some? {
      assert s[i..i + 2] == "\n\n";
      SliceWithin(s, i, i, i + 2, h.value.end);
    }
  }

  lemma MatchAtConsumes(p: Pass, s: string, i: nat)
    requires i < |s|
    ensures Consumes(s, i, MatchAt(p, s, i))
  {
    match p
    case CodeFence =>
    case InlineCode => DelimitedConsumes(s, i, '`');
    case Heading => HeadingConsumes(s, i);
    case BulletItem => BulletItemConsumes(s, i);
    case NumberedItem => NumberedItemConsumes(s, i);
    case Bold => BoldConsumes(s, i);
    case Italic => DelimitedConsumes(s, i, '*');
    case Image => ImageConsumes(s, i);
    case Link => LinkConsumes(s, i);
    case TableRow =>
    case BlankLines => BlankLinesConsumes(s, i);
  }

  /** The global replacement of `p`, from position `i` on. */
  function ReplaceFrom(p: Pass, s: string, i: nat): string
    requires i <= |s|
    decreases |s| - i
  {
    if i == |s| then []
    else
      match MatchAt(p, s, i)
      case Some(h) => h.rep + ReplaceFrom(p, s, h.end)
      case None => [s[i]] + ReplaceFrom(p, s, i + 1)
  }

  /** One step of the scan at `i`, as a hit: a match is replaced and the
      scan resumes after it; without a match one character is copied. */
  function ScanStep(p: Pass, s: string, i: nat): (h: Hit)
    requires i < |s|
    ensures i < h.end <= |s|
  {
    match MatchAt(p, s, i)
    case Some(m) => m
    case None => Hit(i + 1, [s[i]])
  }

  /** The scan is its first step followed by the scan from where it leaves off. */
  lemma ReplaceFromStep(p: Pass, s: string, i: nat)
    requires i < |s|
    ensures ReplaceFrom(p, s, i) == ScanStep(p, s, i).rep + ReplaceFrom(p, s, ScanStep(p, s, i).end)
  {
  }

  /** A scan step emits only characters of the text it steps over. */
  lemma ScanStepChars(p: Pass, s: string, i: nat)
    requires i < |s|
    ensures multiset(ScanStep(p, s, i).rep) <= multiset(s[i..ScanStep(p, s, i).end])
  {
    MatchAtConsumes(p, s, i);
  }

  lemma CharsAppend(r: string, a: string, b: string, s: string, i: nat, e: nat)
    requires i <= e <= |s| && r == a + b
    requires multiset(a) <= multiset(s[i..e]) && multiset(b) <= multiset(s[e..])
    ensures multiset(r) <= multiset(s[i..])
  {
    assert s[i..] == s[i..e] + s[e..];
  }

  /** The scan only deletes: its output's characters are the scanned input's. */
  lemma {:induction false} ReplaceFromChars(p: Pass, s: string, i: nat)
    requires i <= |s|
    ensures multiset(ReplaceFrom(p, s, i)) <= multiset(s[i..])
    decreases |s| - i
  {
    if i < |s| {
      var h := ScanStep(p, s, i);
      ScanStepChars(p, s, i);
      ReplaceFromStep(p, s, i);
      ReplaceFromChars(p, s, h.end);
      CharsAppend(ReplaceFrom(p, s, i), h.rep, ReplaceFrom(p, s, h.end), s, i, h.end);
    }
  }

  /** `s.replace(pattern, replacement)` for pattern `p`. */
  function Rewrite(p: Pass, s: string): string {
    ReplaceFrom(p, s, 0)
  }

  lemma RewriteChars(p: Pass, s: string)
    ensures multiset(Rewrite(p, s)) <= multiset(s)
  {
    ReplaceFromChars(p, s, 0);
    assert s[0..] == s;
  }

  /** No three newlines in a row. */
  predicate NoTripleNewline(s: string) {
    forall k :: 0 <= k && k + 2 < |s| ==> !(s[k] == '\n' && s[k + 1] == '\n' && s[k + 2] == '\n')
  }

  /** `markdownToPlainText`. The result has no whitespace at either end,
      never three newlines in a row, and only characters of the input. */
  function Normalise(markdown: string): (text: string)
    ensures IsTrimmed(text)
    ensures NoTripleNewline(text)
    ensures multiset(text) <= multiset(markdown)
  {
    var noFences := Rewrite(CodeFence, markdown);
    var noInlineCode := Rewrite(InlineCode, noFences);
    var noHeadings := Rewrite(Heading, noInlineCode);
    var noBullets := Rewrite(BulletItem, noHeadings);
    var noNumbers := Rewrite(NumberedItem, noBullets);
    var noBold := Rewrite(Bold, noNumbers);
    var noItalic := Rewrite(Italic, noBold);
    var noImages := Rewrite(Image, noItalic);
    var noLinks := Rewrite(Link, noImages);
    var noTables := Rewrite(TableRow, noLinks);
    var collapsed := Rewrite(BlankLines, noTables);
    RewriteChars(CodeFence, markdown);
    RewriteChars(InlineCode, noFences);
    RewriteChars(Heading, noInlineCode);
    RewriteChars(BulletItem, noHeadings);
    RewriteChars(NumberedItem, noBullets);
    RewriteChars(Bold, noNumbers);
    RewriteChars(Italic, noBold);
    RewriteChars(Image, noItalic);
    RewriteChars(Link, noImages);
    RewriteChars(TableRow, noLinks);
    RewriteChars(BlankLines, noTables);
    BlankLinesCollapsed(noTables);
    TrimKeepsNoTripleNewline(collapsed);
    TrimChars(collapsed);
    Trim(collapsed)
  }

  /** `r` starts with at least `m` newlines. */
  predicate LeadingNewlines(r: string, m: nat) {
    m <= |r| && forall k :: 0 <= k < m ==> r[k] == '\n'
  }

  /** What the collapse scan leaves from a position where the input has `n`
      newlines in a row: no three newlines anywhere, and at the front no
      more newlines than the input had there, never three. */
  predicate CollapsedFront(r: string, n: nat) {
    NoTripleNewline(r) && !LeadingNewlines(r, if n < 2 then n + 1 else 3)
  }

  lemma AfterCollapsedRun(rest: string, n: nat)
    requires n >= 3 && CollapsedFront(rest, 0)
    ensures CollapsedFront("\n\n" + rest, n)
  {
    var r := "\n\n" + rest;
    forall k | 0 <= k && k + 2 < |r|
      ensures !(r[k] == '\n' && r[k + 1] == '\n' && r[k + 2] == '\n')
    {
      assert r[k + 2] == rest[k];
      if k >= 1 {
        assert r[k + 1] == rest[k - 1];
      }
    }
    if |r| >= 3 {
      assert r[2] == rest[0];
    }
  }

  lemma AfterShortRun(rest: string, n: nat)
    requires 1 <= n <= 2 && CollapsedFront(rest, n - 1)
    ensures CollapsedFront("\n" + rest, n)
  {
    var r := "\n" + rest;
    forall k | 0 <= k && k + 2 < |r|
      ensures !(r[k] == '\n' && r[k + 1] == '\n' && r[k + 2] == '\n')
    {
      assert r[k + 1] == rest[k] && r[k + 2] == rest[k + 1];
      if k >= 1 {
        assert r[k] == rest[k - 1];
      } else if n == 1 {
        assert rest[0] != '\n';
      } else {
        assert !(rest[0] == '\n' && rest[1] == '\n');
      }
    }
    if LeadingNewlines(r, n + 1) {
      assert forall k :: 0 <= k < n ==> rest[k] == r[k + 1];
      assert LeadingNewlines(rest, n);
    }
  }

  lemma AfterOther(c: char, rest: string, m: nat)
    requires c != '\n' && CollapsedFront(rest, m)
    ensures CollapsedFront([c] + rest, 0)
  {
    var r := [c] + rest;
    assert r[0] == c;
    forall k | 1 <= k && k + 2 < |r|
      ensures !(r[k] == '\n' && r[k + 1] == '\n' && r[k + 2] == '\n')
    {
      assert r[k] == rest[k - 1] && r[k + 1] == rest[k] && r[k + 2] == rest[k + 1];
    }
  }

  /** A run of three or more newlines becomes two, and the collapse scan
      resumes after the run. */
  lemma CollapseRun(s: string, i: nat)
    requires i < |s| && SkipWhile(s, i, IsNewline) - i >= 3
    ensures ReplaceFrom(BlankLines, s, i) == "\n\n" + ReplaceFrom(BlankLines, s, SkipWhile(s, i, IsNewline))
    ensures SkipWhile(s, SkipWhile(s, i, IsNewline), IsNewline) == SkipWhile(s, i, IsNewline)
  {
    assert MatchAt(BlankLines, s, i) == Some(Hit(SkipWhile(s, i, IsNewline), "\n\n"));
  }

  /** Anything else is copied, one character at a time. */
  lemma CollapseCopy(s: string, i: nat)
    requires i < |s| && SkipWhile(s, i, IsNewline) - i < 3
    ensures ReplaceFrom(BlankLines, s, i) == [s[i]] + ReplaceFrom(BlankLines, s, i + 1)
    ensures s[i] == '\n' ==> SkipWhile(s, i + 1, IsNewline) == SkipWhile(s, i, IsNewline)
    ensures s[i] != '\n' ==> SkipWhile(s, i, IsNewline) == i
  {
    assert MatchAt(BlankLines, s, i) == None;
  }

  lemma CollapseRunCase(s: string, i: nat)
    requires i < |s| && SkipWhile(s, i, IsNewline) - i >= 3
    requires var e := SkipWhile(s, i, IsNewline);
             CollapsedFront(ReplaceFrom(BlankLines, s, e), SkipWhile(s, e, IsNewline) - e)
    ensures CollapsedFront(ReplaceFrom(BlankLines, s, i), SkipWhile(s, i, IsNewline) - i)
  {
    var e := SkipWhile(s, i, IsNewline);
    CollapseRun(s, i);
    AfterCollapsedRun(ReplaceFrom(BlankLines, s, e), e - i);
  }

  lemma CollapseCopyCase(s: string, i: nat)
    requires i < |s| && SkipWhile(s, i, IsNewline) - i < 3
    requires CollapsedFront(ReplaceFrom(BlankLines, s, i + 1), SkipWhile(s, i + 1, IsNewline) - (i + 1))
    ensures CollapsedFront(ReplaceFrom(BlankLines, s, i), SkipWhile(s, i, IsNewline) - i)
  {
    var e := SkipWhile(s, i, IsNewline);
    CollapseCopy(s, i);
    if s[i] == '\n' {
      AfterShortRun(ReplaceFrom(BlankLines, s, i + 1), e - i);
    } else {
      AfterOther(s[i], ReplaceFrom(BlankLines, s, i + 1), SkipWhile(s, i + 1, IsNewline) - (i + 1));
    }
  }

  /** The collapse pass leaves no three newlines in a row, and its output
      from `i` starts with no more newlines than the input has there, and
      never with three. */
  lemma {:induction false} CollapseFrom(s: string, i: nat)
    requires i <= |s|
    ensures CollapsedFront(ReplaceFrom(BlankLines, s, i), SkipWhile(s, i, IsNewline) - i)
    decreases |s| - i
  {
    if i < |s| {
      var e := SkipWhile(s, i, IsNewline);
      if e - i >= 3 {
        CollapseFrom(s, e);
        CollapseRunCase(s, i);
      } else {
        CollapseFrom(s, i + 1);
        CollapseCopyCase(s, i);
      }
    }
  }

  lemma BlankLinesCollapsed(s: string)
    ensures NoTripleNewline(Rewrite(BlankLines, s))
  {
    CollapseFrom(s, 0);
  }

  lemma TrimKeepsNoTripleNewline(s: string)
    requires NoTripleNewline(s)
    ensures NoTripleNewline(Trim(s))
  {
    var a := TrimStart(s);
    var t := Trim(s);
    TrimSlice(s);
    forall k | 0 <= k && k + 2 < |t|
      ensures !(t[k] == '\n' && t[k + 1] == '\n' && t[k + 2] == '\n')
    {
      assert t[k] == s[a + k] && t[k + 1] == s[a + k + 1] && t[k + 2] == s[a + k + 2];
    }
  }

  /** Pattern `p` matches nowhere in `s`. */
  predicate NoMatch(p: Pass, s: string) {
    forall i :: 0 <= i < |s| ==> MatchAt(p, s, i).None?
  }

  lemma {:induction false} ReplaceFromNoMatch(p: Pass, s: string, i: nat)
    requires i <= |s| && NoMatch(p, s)
    ensures ReplaceFrom(p, s, i) == s[i..]
    decreases |s| - i
  {
    if i < |s| {
      ReplaceFromMiss(p, s, i);
      ReplaceFromNoMatch(p, s, i + 1);
      assert s[i..] == [s[i]] + s[i + 1..];
    }
  }

  /** Where `p` matches, the scan emits the replacement and resumes after the match. */
  lemma ReplaceFromHit(p: Pass, s: string, i: nat)
    requires i < |s| && MatchAt(p, s, i).Some?
    ensures ReplaceFrom(p, s, i) == MatchAt(p, s, i).value.rep + ReplaceFrom(p, s, MatchAt(p, s, i).value.end)
  {
  }

  /** Where `p` does not match, the scan copies one character and moves on. */
  lemma ReplaceFromMiss(p: Pass, s: string, i: nat)
    requires i < |s| && MatchAt(p, s, i).None?
    ensures ReplaceFrom(p, s, i) == [s[i]] + ReplaceFrom(p, s, i + 1)
  {
  }

  /** Text without any markup the eleven patterns recognise: no backtick,
      asterisk, opening bracket or pipe; no line that starts with `#`, `-`,
      `+` or a digit; and never three newlines in a row. */
  predicate MarkupFree(s: string) {
    && (forall k :: 0 <= k < |s| ==> s[k] !in {'`', '*', OpenBracket, '|'})
    && (forall k :: 0 <= k < |s| && AtLineStart(s, k) ==> s[k] !in {'#', '-', '+'} && !IsDigit(s[k]))
    && NoTripleNewline(s)
  }

  lemma MarkupFreeMatchesNothing(s: string, p: Pass, i: nat)
    requires MarkupFree(s) && i < |s|
    ensures MatchAt(p, s, i).None?
  {
    if i + 1 < |s| {
      assert s[i + 1] != OpenBracket;
    }
    if i + 2 < |s| {
      assert !(s[i] == '\n' && s[i + 1] == '\n' && s[i + 2] == '\n');
    }
  }

  lemma RewriteLeavesPlainText(p: Pass, s: string)
    requires MarkupFree(s)
    ensures Rewrite(p, s) == s
  {
    forall i | 0 <= i < |s|
      ensures MatchAt(p, s, i).None?
    {
      MarkupFreeMatchesNothing(s, p, i);
    }
    ReplaceFromNoMatch(p, s, 0);
    assert s[0..] == s;
  }

  /** None of the eleven patterns matches anywhere in `s`. */
  predicate UnmatchedText(s: string) {
    forall p: Pass :: NoMatch(p, s)
  }

  /** Trimmed text that no pattern matches passes through the normaliser
      unchanged: every pass leaves it as it is, so the next pass sees the
      same text, and the final `trim` has nothing to remove. */
  lemma NormaliseNoMatch(s: string)
    requires UnmatchedText(s) && IsTrimmed(s)
    ensures Normalise(s) == s
  {
    forall p: Pass
      ensures Rewrite(p, s) == s
    {
      ReplaceFromNoMatch(p, s, 0);
      assert s[0..] == s;
    }
    TrimKeepsTrimmed(s);
  }

  /** Markup-free text is one kind of text no pattern matches, so plain,
      already trimmed text passes through the normaliser unchanged. */
  lemma NormaliseLeavesPlainText(s: string)
    requires MarkupFree(s) && IsTrimmed(s)
    ensures UnmatchedText(s) && Normalise(s) == s
  {
    forall p: Pass, i | 0 <= i < |s|
      ensures MatchAt(p, s, i).None?
    {
      MarkupFreeMatchesNothing(s, p, i);
    }
    NormaliseNoMatch(s);
  }

  /** Whitespace-only input normalises to the empty string. */
  lemma NormaliseOfBlank(s: string)
    requires AllSpace(s)
    ensures Normalise(s) == []
  {
    var t := Normalise(s);
    forall k | 0 <= k < |t|
      ensures IsSpace(t[k])
    {
      assert t[k] in multiset(t);
      assert t[k] in multiset(s);
    }
  }

  /** A heading loses its marker but keeps its text. */
  lemma HeadingKeepsText()
    ensures Rewrite(Heading, "# T") == "T"
  {
    var s := "# T";
    assert SkipWhile(s, 1, IsHash) == 1;
    assert SkipWhile(s, 0, IsHash) == 1;
    assert SkipWhile(s, 2, IsSpace) == 2;
    assert SkipWhile(s, 1, IsSpace) == 2;
    assert SkipWhile(s, 3, OffLine) == 3;
    assert SkipWhile(s, 2, OffLine) == 3;
    assert LastOnLine(s, 2, 2) == Some(2);
    assert SpacedLineBody(s, 1) == Some(Span(2, 3));
    assert s[2..3] == "T";
    assert ItemBody(s, 0, 1) == Some(Hit(3, "T"));
    assert HeadingAt(s, 0) == Some(Hit(3, "T"));
    assert s[0..] == s;
  }

  /** A table row goes, but the line break after it stays. */
  lemma TableRowExampleMatches()
    ensures MatchAt(TableRow, "|a|\nX", 0) == Some(Hit(3, []))
    ensures MatchAt(TableRow, "|a|\nX", 3) == None
    ensures MatchAt(TableRow, "|a|\nX", 4) == None
  {
    var s := "|a|\nX";
    assert SkipWhile(s, 3, OffLine) == 3;
    assert SkipWhile(s, 2, OffLine) == 3;
    assert SkipWhile(s, 1, OffLine) == 3;
  }

  lemma TableRowLeavesLineBreak()
    ensures Rewrite(TableRow, "|a|\nX") == "\nX"
  {
    var s := "|a|\nX";
    TableRowExampleMatches();
    assert ReplaceFrom(TableRow, s, 4) == "X";
    assert ReplaceFrom(TableRow, s, 3) == "\nX";
    assert s[0..] == s;
  }
}
