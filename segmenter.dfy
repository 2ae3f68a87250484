/**
 * The sentence scan of `chunkText`: repeated `exec` of the global pattern
 * `[.!?]+\s*` over the plain text. Each match closes a piece that starts
 * where the previous match ended; the text after the last match is one more
 * piece. Every piece is trimmed and kept only if something is left.
 */
module Segmenter {
  import opened Wrappers
  import opened Text

  /** The terminal punctuation the pattern's class `[.!?]` holds. */
  predicate IsTerminal(c: char) {
    c == '.' || c == '!' || c == '?'
  }

  predicate NotTerminal(c: char) { !IsTerminal(c) }

  /** What `exec` returns: `match.index` and `match.index + match[0].length`. */
  datatype Match = Match(index: nat, end: nat)

  /** `s[index..end]` is a match of `[.!?]+\s*` that the greedy quantifiers
      cannot extend: terminals, then whitespace, and the character after it
      (if any) continues neither run. */
  ghost predicate IsTerminatorRun(s: string, index: nat, end: nat) {
    && index < end <= |s|
    && IsTerminal(s[index])
    && (forall k :: index <= k < end ==> IsTerminal(s[k]) || IsSpace(s[k]))
    && (forall j, k :: index <= j < k < end && IsSpace(s[j]) ==> IsSpace(s[k]))
    && (end < |s| ==> !IsSpace(s[end]) && (IsSpace(s[end - 1]) || !IsTerminal(s[end])))
  }

  /** `s[from..to]` holds no terminal punctuation. */
  ghost predicate NoTerminalIn(s: string, from: nat, to: nat) {
    forall k :: from <= k < to && k < |s| ==> !IsTerminal(s[k])
  }

  /** `sentenceRegex.exec(s)` with `sentenceRegex.lastIndex == from`: the
      leftmost match at or after `from`, or none. */
  function NextMatch(s: string, from: nat): (m: Option<Match>)
    requires from <= |s|
    ensures m.Some? ==> from <= m.value.index && IsTerminatorRun(s, m.value.index, m.value.end)
                        && NoTerminalIn(s, from, m.value.index)
    ensures m.None? ==> NoTerminalIn(s, from, |s|)
  {
    var index := SkipWhile(s, from, NotTerminal);
    if index == |s| then None
    else
      var punctuationEnd := SkipWhile(s, index, IsTerminal);
      Some(Match(index, SkipWhile(s, punctuationEnd, IsSpace)))
  }

  /** The untrimmed pieces the scan cuts from `s[from..]`: one per match,
      ending at the match end, and the remainder if there is one. */
  function Pieces(s: string, from: nat): seq<string>
    requires from <= |s|
    decreases |s| - from
  {
    match NextMatch(s, from)
    case Some(m) => [s[from..m.end]] + Pieces(s, m.end)
    case None => if from < |s| then [s[from..]] else []
  }

  /** Trim every piece and drop the ones that come out empty. */
  function KeepTrimmed(ps: seq<string>): seq<string> {
    if ps == [] then [] else Kept(ps[0]) + KeepTrimmed(ps[1..])
  }

  lemma {:induction false} KeepTrimmedAppend(ps: seq<string>, qs: seq<string>)
    ensures KeepTrimmed(ps + qs) == KeepTrimmed(ps) + KeepTrimmed(qs)
  {
    if ps == [] {
      assert ps + qs == qs;
    } else {
      assert (ps + qs)[0] == ps[0] && (ps + qs)[1..] == ps[1..] + qs;
      KeepTrimmedAppend(ps[1..], qs);
    }
  }

  lemma KeepTrimmedSingle(p: string)
    ensures KeepTrimmed([p]) == Kept(p)
  {
    assert [p][1..] == [];
  }

  /** One step of the scan, in terms of the next match. */
  lemma SentencesStep(s: string, from: nat)
    requires from <= |s|
    ensures NextMatch(s, from).Some? ==>
              KeepTrimmed(Pieces(s, from))
              == Kept(s[from..NextMatch(s, from).value.end]) + KeepTrimmed(Pieces(s, NextMatch(s, from).value.end))
    ensures NextMatch(s, from).None? ==>
              KeepTrimmed(Pieces(s, from)) == if from < |s| then Kept(s[from..]) else []
  {
    var ps := Pieces(s, from);
    match NextMatch(s, from)
    case Some(m) =>
      assert ps[0] == s[from..m.end] && ps[1..] == Pieces(s, m.end);
    case None =>
      if from < |s| {
        assert ps[0] == s[from..] && ps[1..] == [];
        assert KeepTrimmed(ps) == Kept(s[from..]) + [];
      }
  }

  /** The sentences of `s`, as `chunkText` collects them in `allSentences`. */
  function Sentences(s: string): seq<string> {
    KeepTrimmed(Pieces(s, 0))
  }

  /** The scan over `plainText` (the `while` loop and the remainder after it). */
  method Segment(plainText: string) returns (allSentences: seq<string>)
    ensures allSentences == Sentences(plainText)
  {
    allSentences := [];
    var lastIndex := 0;
    var m := NextMatch(plainText, lastIndex);
    while m.Some?
      invariant lastIndex <= |plainText|
      invariant m == NextMatch(plainText, lastIndex)
      invariant allSentences + KeepTrimmed(Pieces(plainText, lastIndex)) == Sentences(plainText)
      decreases |plainText| - lastIndex
    {
      SentencesStep(plainText, lastIndex);
      ghost var rest := KeepTrimmed(Pieces(plainText, m.value.end));
      var sentence := Trim(plainText[lastIndex..m.value.end]);
      if sentence != [] {
        assert Kept(plainText[lastIndex..m.value.end]) == [sentence];
        assert allSentences + [sentence] + rest == allSentences + ([sentence] + rest);
        allSentences := allSentences + [sentence];
      } else {
        assert Kept(plainText[lastIndex..m.value.end]) == [];
        assert [] + rest == rest;
      }
      lastIndex := m.value.end;
      m := NextMatch(plainText, lastIndex);
    }
    SentencesStep(plainText, lastIndex);
    if lastIndex < |plainText| {
      var remaining := Trim(plainText[lastIndex..]);
      if remaining != [] {
        assert Kept(plainText[lastIndex..]) == [remaining];
        allSentences := allSentences + [remaining];
      } else {
        assert Kept(plainText[lastIndex..]) == [];
        assert allSentences + [] == allSentences;
      }
    } else {
      assert allSentences + [] == allSentences;
    }
  }

  // Properties of the pieces and the sentences.

  /** The pieces cover `s[from..]` in order, with nothing left out or repeated. */
  lemma {:induction false} PiecesPartition(s: string, from: nat)
    requires from <= |s|
    ensures Flatten(Pieces(s, from)) == s[from..]
    decreases |s| - from
  {
    match NextMatch(s, from)
    case Some(m) =>
      var ps := Pieces(s, from);
      assert ps[0] == s[from..m.end] && ps[1..] == Pieces(s, m.end);
      PiecesPartition(s, m.end);
      assert s[from..] == s[from..m.end] + s[m.end..];
    case None =>
      if from < |s| {
        var ps := Pieces(s, from);
        assert ps[0] == s[from..] && ps[1..] == [];
      }
  }

  lemma {:induction false} KeepTrimmedWellFormed(ps: seq<string>)
    ensures AllWellFormed(KeepTrimmed(ps))
    ensures |KeepTrimmed(ps)| <= |ps|
  {
    if ps != [] {
      KeepTrimmedWellFormed(ps[1..]);
    }
  }

  lemma {:induction false} KeepTrimmedStripSpace(ps: seq<string>)
    ensures StripSpace(Flatten(KeepTrimmed(ps))) == StripSpace(Flatten(ps))
  {
    if ps != [] {
      var t := Trim(ps[0]);
      var head := Kept(ps[0]);
      KeepTrimmedStripSpace(ps[1..]);
      FlattenAppend(head, KeepTrimmed(ps[1..]));
      assert Flatten(head) == t by {
        if t != [] {
          assert Flatten(head) == t + Flatten([]);
        }
      }
      StripSpaceAppend(t, Flatten(KeepTrimmed(ps[1..])));
      StripSpaceAppend(ps[0], Flatten(ps[1..]));
      StripSpaceTrim(ps[0]);
    }
  }

  /** Every sentence is non-empty and has no whitespace at either end. */
  lemma SentencesWellFormed(s: string)
    ensures AllWellFormed(Sentences(s))
  {
    KeepTrimmedWellFormed(Pieces(s, 0));
  }

  /** Every non-whitespace character of `s` lands in exactly one sentence,
      and in the order of `s`. */
  lemma SentencesCover(s: string)
    ensures StripSpace(Flatten(Sentences(s))) == StripSpace(s)
  {
    KeepTrimmedStripSpace(Pieces(s, 0));
    PiecesPartition(s, 0);
    assert s[0..] == s;
  }

  /** Terminal punctuation appears only as a final run: once a sentence has
      one, everything after it is punctuation too. */
  ghost predicate PunctuationOnlyAtEnd(t: string) {
    forall j, k :: 0 <= j <= k < |t| && IsTerminal(t[j]) ==> IsTerminal(t[k])
  }

  ghost predicate EndsWithTerminal(t: string) {
    t != [] && IsTerminal(t[|t| - 1])
  }

  /** The piece a match closes, seen on its own: no punctuation before the
      match, and the match runs to the end of the piece. */
  lemma MatchedPiece(s: string, from: nat, m: Match)
    requires from <= m.index && IsTerminatorRun(s, m.index, m.end) && NoTerminalIn(s, from, m.index)
    ensures var x := s[from..m.end];
            IsTerminatorRun(x, m.index - from, |x|) && NoTerminalIn(x, 0, m.index - from)
  {
    var x := s[from..m.end];
    var p := m.index - from;
    assert forall k :: 0 <= k < |x| ==> x[k] == s[from + k];
    assert IsTerminal(x[p]);
  }

  /** A piece that ends in a match trims to a sentence that ends in
      punctuation and has none before its final run. */
  lemma RunTrim(x: string, p: nat)
    requires IsTerminatorRun(x, p, |x|) && NoTerminalIn(x, 0, p)
    ensures var t := Trim(x); EndsWithTerminal(t) && PunctuationOnlyAtEnd(t)
  {
    var a, b := TrimStart(x), TrimEnd(x);
    TrimSlice(x);
    assert !IsSpace(x[p]);
    assert a <= p < b;
    RunCutShape(x, p, a, b);
  }

  /** The same, for any slice that keeps the start of the run and ends on a
      character other than whitespace. */
  lemma RunCutShape(x: string, p: nat, a: nat, b: nat)
    requires IsTerminatorRun(x, p, |x|) && NoTerminalIn(x, 0, p)
    requires a <= p < b <= |x| && !IsSpace(x[b - 1])
    ensures var t := x[a..b]; EndsWithTerminal(t) && PunctuationOnlyAtEnd(t)
  {
    var t := x[a..b];
    assert IsTerminal(x[b - 1]);
    forall j, k | 0 <= j <= k < |t| && IsTerminal(t[j])
      ensures IsTerminal(t[k])
    {
      assert t[j] == x[a + j] && t[k] == x[a + k];
      assert p <= a + j;
      assert !IsSpace(x[a + k]);
    }
  }

  /** The piece a match closes trims to a sentence that ends in
      punctuation and has none before its final run. */
  lemma MatchedPieceTrim(s: string, from: nat, m: Match)
    requires from <= m.index && IsTerminatorRun(s, m.index, m.end) && NoTerminalIn(s, from, m.index)
    ensures var t := Trim(s[from..m.end]); EndsWithTerminal(t) && PunctuationOnlyAtEnd(t)
  {
    MatchedPiece(s, from, m);
    RunTrim(s[from..m.end], m.index - from);
  }

  lemma RemainderTrim(s: string, from: nat)
    requires from <= |s| && NoTerminalIn(s, from, |s|)
    ensures forall k :: 0 <= k < |Trim(s[from..])| ==> !IsTerminal(Trim(s[from..])[k])
  {
    var x := s[from..];
    var a := TrimStart(x);
    TrimSlice(x);
    forall k | 0 <= k < |Trim(x)|
      ensures !IsTerminal(Trim(x)[k])
    {
      assert Trim(x)[k] == s[from + a + k];
    }
  }

  /** The sentence shape that every element, and every element but the last, has. */
  ghost predicate Shaped(ss: seq<string>) {
    && (forall k :: 0 <= k < |ss| ==> PunctuationOnlyAtEnd(ss[k]))
    && (forall k :: 0 <= k < |ss| - 1 ==> EndsWithTerminal(ss[k]))
  }

  lemma ShapedCons(t: string, rest: seq<string>)
    requires EndsWithTerminal(t) && PunctuationOnlyAtEnd(t) && Shaped(rest)
    ensures Shaped([t] + rest)
  {
    var ss := [t] + rest;
    forall k | 1 <= k < |ss|
      ensures ss[k] == rest[k - 1]
    {
    }
  }

  lemma {:induction false} PiecesShape(s: string, from: nat)
    requires from <= |s|
    ensures Shaped(KeepTrimmed(Pieces(s, from)))
    decreases |s| - from
  {
    SentencesStep(s, from);
    match NextMatch(s, from)
    case Some(m) =>
      PiecesShape(s, m.end);
      MatchedPieceTrim(s, from, m);
      ShapedCons(Trim(s[from..m.end]), KeepTrimmed(Pieces(s, m.end)));
    case None =>
      if from < |s| {
        RemainderTrim(s, from);
      }
  }

  /** Every sentence but possibly the last ends in `.`, `!` or `?`, and no
      sentence has terminal punctuation anywhere but in its final run; so a
      last sentence without a final `.`, `!` or `?` has none at all. */
  lemma SentencesTerminated(s: string)
    ensures forall k :: 0 <= k < |Sentences(s)| ==> PunctuationOnlyAtEnd(Sentences(s)[k])
    ensures forall k :: 0 <= k < |Sentences(s)| - 1 ==> EndsWithTerminal(Sentences(s)[k])
  {
    PiecesShape(s, 0);
  }

  /** The scan over `"T\nO. W"` finds one match, `". "` at 3. */
  lemma ExampleMatches()
    ensures NextMatch("T\nO. W", 0) == Some(Match(3, 5))
    ensures NextMatch("T\nO. W", 5) == None
  {
    var s := "T\nO. W";
    assert SkipWhile(s, 3, NotTerminal) == 3;
    assert SkipWhile(s, 2, NotTerminal) == 3;
    assert SkipWhile(s, 1, NotTerminal) == 3;
    assert SkipWhile(s, 0, NotTerminal) == 3;
    assert SkipWhile(s, 4, IsTerminal) == 4;
    assert SkipWhile(s, 3, IsTerminal) == 4;
    assert SkipWhile(s, 5, IsSpace) == 5;
    assert SkipWhile(s, 4, IsSpace) == 5;
    assert SkipWhile(s, 6, NotTerminal) == 6;
    assert SkipWhile(s, 5, NotTerminal) == 6;
  }

  lemma ExamplePiecesKept()
    ensures Kept("T\nO. ") == ["T\nO."]
    ensures Kept("W") == ["W"]
  {
    assert TrimLeft("T\nO. ") == "T\nO. ";
    assert TrimRight("T\nO. ") == "T\nO.";
    assert TrimLeft("W") == "W";
  }

  /** A heading line without punctuation folds into the first sentence. */
  lemma HeadingFoldsIntoFirstSentence()
    ensures Sentences("T\nO. W") == ["T\nO.", "W"]
  {
    var s := "T\nO. W";
    ExampleMatches();
    SentencesStep(s, 0);
    SentencesStep(s, 5);
    assert s[0..5] == "T\nO. ";
    assert s[5..] == "W";
    ExamplePiecesKept();
  }
}
