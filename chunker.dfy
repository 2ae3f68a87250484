/**
 * `chunkText`: the blank-input check, the normaliser, the sentence scan, and
 * the `for` loop that groups `sentencesPerChunk` consecutive sentences into
 * one chunk.
 */
module Chunker {
  import opened Text
  import opened Markdown
  import opened Segmenter

  function Min(a: int, b: int): int {
    if a <= b then a else b
  }

  /** The least `c` with `c * k >= n`. */
  function CeilDiv(n: nat, k: int): nat
    requires k >= 1
  {
    (n + k - 1) / k
  }

  /** The groups the loop joins from sentence `i` on: sentences `i` up to
      but not including `i + k`, cut short at the end of the list, joined
      with single spaces. */
  function Groups(ss: seq<string>, k: int, i: nat): seq<string>
    requires k >= 1
    decreases |ss| - i
  {
    if i >= |ss| then []
    else [Join(ss[i..Min(i + k, |ss|)])] + Groups(ss, k, i + k)
  }

  /** The chunks: every group trimmed, and kept unless nothing is left. */
  function Grouped(ss: seq<string>, k: int): seq<string>
    requires k >= 1
  {
    KeepTrimmed(Groups(ss, k, 0))
  }

  /** The grouping loop over `allSentences`. */
  method Assemble(allSentences: seq<string>, sentencesPerChunk: int) returns (chunks: seq<string>)
    requires sentencesPerChunk >= 1
    ensures chunks == Grouped(allSentences, sentencesPerChunk)
  {
    chunks := [];
    var i: nat := 0;
    while i < |allSentences|
      invariant AssembleFrom(allSentences, sentencesPerChunk, i, chunks) == AssembleFrom(allSentences, sentencesPerChunk, 0, [])
      decreases |allSentences| - i
    {
      var end := Min(i + sentencesPerChunk, |allSentences|);
      var group := Join(allSentences[i..end]);
      var chunk := Trim(group);
      if chunk != [] {
        chunks := chunks + [chunk];
      }
      i := i + sentencesPerChunk;
    }
    AssembleFromIsGrouped(allSentences, sentencesPerChunk, 0, []);
    assert [] + Grouped(allSentences, sentencesPerChunk) == Grouped(allSentences, sentencesPerChunk);
  }

  /** The grouping loop run from sentence `i` with `chunks` collected so far. */
  ghost function AssembleFrom(ss: seq<string>, k: int, i: nat, chunks: seq<string>): seq<string>
    requires k >= 1
    decreases |ss| - i
  {
    if i >= |ss| then chunks
    else
      var chunk := Trim(Join(ss[i..Min(i + k, |ss|)]));
      AssembleFrom(ss, k, i + k, if chunk != [] then chunks + [chunk] else chunks)
  }

  /** Running the loop from sentence `i` appends the chunks of the groups
      from `i` on to what was collected. */
  lemma {:induction false} AssembleFromIsGrouped(ss: seq<string>, k: int, i: nat, chunks: seq<string>)
    requires k >= 1
    ensures AssembleFrom(ss, k, i, chunks) == chunks + KeepTrimmed(Groups(ss, k, i))
    decreases |ss| - i
  {
    if i >= |ss| {
      assert chunks + [] == chunks;
    } else {
      var group := Join(ss[i..Min(i + k, |ss|)]);
      var next := if Trim(group) != [] then chunks + [Trim(group)] else chunks;
      assert AssembleFrom(ss, k, i, chunks) == AssembleFrom(ss, k, i + k, next);
      AssembleFromIsGrouped(ss, k, i + k, next);
      GroupsUnfold(ss, k, i);
      KeptStep(chunks, group, Groups(ss, k, i + k));
    }
  }

  /** Keeping the trimmed first piece, then the rest. */
  lemma KeptStep(chunks: seq<string>, g: string, rest: seq<string>)
    ensures (if Trim(g) != [] then chunks + [Trim(g)] else chunks) + KeepTrimmed(rest)
            == chunks + KeepTrimmed([g] + rest)
  {
    KeepTrimmedAppend([g], rest);
    KeepTrimmedSingle(g);
    assert chunks + Kept(g) + KeepTrimmed(rest) == chunks + (Kept(g) + KeepTrimmed(rest));
    assert chunks + [] == chunks;
  }

  /** Well-formed pieces survive trimming and the emptiness test unchanged. */
  lemma {:induction false} KeepTrimmedOfWellFormed(ps: seq<string>)
    requires AllWellFormed(ps)
    ensures KeepTrimmed(ps) == ps
  {
    if ps != [] {
      TrimKeepsTrimmed(ps[0]);
      KeepTrimmedOfWellFormed(ps[1..]);
      assert ps == [ps[0]] + ps[1..];
    }
  }

  /** A slice of well-formed sentences joins to a well-formed string. */
  lemma JoinSlice(ss: seq<string>, i: nat, e: nat)
    requires i < e <= |ss| && AllWellFormed(ss)
    ensures Join(ss[i..e]) != [] && IsTrimmed(Join(ss[i..e]))
  {
    var xs := ss[i..e];
    assert AllWellFormed(xs) by {
      forall q | 0 <= q < |xs|
        ensures xs[q] != [] && IsTrimmed(xs[q])
      {
        assert xs[q] == ss[i + q];
      }
    }
    JoinWellFormed(xs);
  }

  lemma MulSucc(c: int, k: int)
    ensures (c + 1) * k == c * k + k
  {
  }

  /** There are ceil((n - i) / k) groups for the sentences from `i` on: the
      last one holds between 1 and `k` sentences, every other one `k`. */
  lemma {:induction false} GroupsCount(ss: seq<string>, k: int, i: nat)
    requires k >= 1 && i <= |ss|
    ensures (|Groups(ss, k, i)| - 1) * k < |ss| - i <= |Groups(ss, k, i)| * k
    decreases |ss| - i
  {
    if i < |ss| {
      var c := |Groups(ss, k, i + k)|;
      assert |Groups(ss, k, i)| == c + 1;
      MulSucc(c, k);
      if i + k <= |ss| {
        GroupsCount(ss, k, i + k);
      } else {
        assert Groups(ss, k, i + k) == [];
      }
    }
  }

  lemma MulShift(i: int, j: int, k: int)
    ensures i + k + (j - 1) * k == i + j * k
  {
  }

  /** Group `j` from sentence `i` on joins sentences `p` up to but not
      including `p + k`, cut short at the end of the list, where `p` is
      `i + j k`. */
  lemma {:induction false} GroupsAt(ss: seq<string>, k: int, i: nat, j: nat, p: nat)
    requires k >= 1 && j < |Groups(ss, k, i)| && p == i + j * k
    ensures p < |ss|
    ensures Groups(ss, k, i)[j] == Join(ss[p..Min(p + k, |ss|)])
    decreases j
  {
    var rest := Groups(ss, k, i + k);
    if j > 0 {
      assert Groups(ss, k, i)[j] == rest[j - 1];
      MulShift(i, j, k);
      GroupsAt(ss, k, i + k, j - 1, p);
    } else {
      assert j * k == 0;
    }
  }

  lemma GroupsUnfold(ss: seq<string>, k: int, i: nat)
    requires k >= 1 && i < |ss|
    ensures Groups(ss, k, i) == [Join(ss[i..Min(i + k, |ss|)])] + Groups(ss, k, i + k)
  {
  }

  /** The groups of well-formed sentences are well formed. */
  lemma {:induction false} GroupsWellFormed(ss: seq<string>, k: int, i: nat)
    requires k >= 1 && AllWellFormed(ss)
    ensures AllWellFormed(Groups(ss, k, i))
    decreases |ss| - i
  {
    if i < |ss| {
      var e := Min(i + k, |ss|);
      JoinSlice(ss, i, e);
      GroupsWellFormed(ss, k, i + k);
      WellFormedCons(Join(ss[i..e]), Groups(ss, k, i + k));
    }
  }

  /** Joining the groups with spaces gives the join of the sentences. */
  lemma {:induction false} GroupsJoin(ss: seq<string>, k: int, i: nat)
    requires k >= 1 && i < |ss|
    ensures Join(Groups(ss, k, i)) == Join(ss[i..])
    decreases |ss| - i
  {
    var e := Min(i + k, |ss|);
    var group := Join(ss[i..e]);
    var rest := Groups(ss, k, i + k);
    GroupsUnfold(ss, k, i);
    if i + k < |ss| {
      GroupsJoin(ss, k, i + k);
      JoinSplit(ss, i, e);
      JoinCons(group, rest);
    } else {
      assert rest == [];
      assert ss[i..e] == ss[i..];
      assert [group] + rest == [group];
    }
  }

  lemma WellFormedCons(x: string, rest: seq<string>)
    requires x != [] && IsTrimmed(x) && AllWellFormed(rest)
    ensures AllWellFormed([x] + rest)
  {
    var xs := [x] + rest;
    assert forall q :: 1 <= q < |xs| ==> xs[q] == rest[q - 1];
  }

  lemma JoinSplit(ss: seq<string>, i: nat, e: nat)
    requires i < e < |ss|
    ensures Join(ss[i..]) == Join(ss[i..e]) + " " + Join(ss[e..])
  {
    assert ss[i..] == ss[i..e] + ss[e..];
    JoinAppend(ss[i..e], ss[e..]);
  }

  lemma JoinCons(x: string, rest: seq<string>)
    requires rest != []
    ensures Join([x] + rest) == x + " " + Join(rest)
  {
    JoinAppend([x], rest);
  }

  /** `c` satisfies the ceiling bounds exactly when it is `CeilDiv(n, k)`. */
  lemma CeilDivUnique(n: nat, k: int, c: nat)
    requires k >= 1 && (c - 1) * k < n <= c * k
    ensures c == CeilDiv(n, k)
  {
    var q := (n + k - 1) / k;
    var r := (n + k - 1) % k;
    assert n + k - 1 == q * k + r && 0 <= r < k;
    MulSucc(c - 1, k);
    if q < c {
      MulMono(q + 1, c, k);
      MulSucc(q, k);
    } else if q > c {
      MulMono(c + 1, q, k);
      MulSucc(c, k);
    }
  }

  lemma MulMono(a: int, b: int, k: int)
    requires a <= b && k >= 0
    ensures a * k <= b * k
  {
  }

  /** With well-formed sentences, trimming and the emptiness test drop or
      change no group. */
  lemma GroupedIsGroups(ss: seq<string>, k: int)
    requires k >= 1 && AllWellFormed(ss)
    ensures Grouped(ss, k) == Groups(ss, k, 0)
    ensures AllWellFormed(Grouped(ss, k))
  {
    GroupsWellFormed(ss, k, 0);
    KeepTrimmedOfWellFormed(Groups(ss, k, 0));
  }

  /** The chunk-count law: ceil(n / k) chunks for n well-formed sentences. */
  lemma GroupedCount(ss: seq<string>, k: int)
    requires k >= 1 && AllWellFormed(ss)
    ensures |Grouped(ss, k)| == CeilDiv(|ss|, k)
  {
    GroupedIsGroups(ss, k);
    GroupsCount(ss, k, 0);
    CeilDivUnique(|ss|, k, |Groups(ss, k, 0)|);
  }

  /** Chunk `j` joins sentences `j k` up to but not including `(j + 1) k`,
      cut short at the end. */
  lemma GroupedAt(ss: seq<string>, k: int, j: nat)
    requires k >= 1 && AllWellFormed(ss) && j < |Grouped(ss, k)|
    ensures 0 <= j * k < |ss|
    ensures Grouped(ss, k)[j] == Join(ss[j * k..Min(j * k + k, |ss|)])
  {
    GroupedIsGroups(ss, k);
    GroupsAt(ss, k, 0, j, j * k);
  }

  /** Joining the chunks with spaces gives the join of the sentences. */
  lemma GroupedJoin(ss: seq<string>, k: int)
    requires k >= 1 && AllWellFormed(ss)
    ensures Join(Grouped(ss, k)) == Join(ss)
  {
    GroupedIsGroups(ss, k);
    if ss != [] {
      GroupsJoin(ss, k, 0);
      assert ss[0..] == ss;
    }
  }

  /** The chunks `chunkText` returns for `text`. */
  function Chunks(text: string, k: int): seq<string>
    requires k >= 1
  {
    if Trim(text) == [] then [] else Grouped(Sentences(Normalise(text)), k)
  }

  /** `chunkText(text, sentencesPerChunk)`; `sentencesPerChunk` defaults to 3.
      Blank input gives no chunks before any normalising. Every chunk is
      non-empty and trimmed; there are ceil(n / k) of them for the n
      sentences of the plain text; together they hold every non-whitespace
      character of the plain text once, in order. */
  method ChunkText(text: string, sentencesPerChunk: int := 3) returns (chunks: seq<string>)
    requires sentencesPerChunk >= 1
    ensures chunks == Chunks(text, sentencesPerChunk)
    ensures Trim(text) == [] ==> chunks == []
    ensures AllWellFormed(chunks)
    ensures Trim(text) != [] ==> |chunks| == CeilDiv(|Sentences(Normalise(text))|, sentencesPerChunk)
    ensures Trim(text) != [] ==> Join(chunks) == Join(Sentences(Normalise(text)))
    ensures StripSpace(Flatten(chunks)) == StripSpace(Normalise(text))
  {
    if Trim(text) == [] {
      NormaliseOfBlank(text);
      return [];
    }
    var plainText := Normalise(text);
    var allSentences := Segment(plainText);
    chunks := Assemble(allSentences, sentencesPerChunk);
    SentencesWellFormed(plainText);
    SentencesCover(plainText);
    GroupedIsGroups(allSentences, sentencesPerChunk);
    GroupedCount(allSentences, sentencesPerChunk);
    GroupedJoin(allSentences, sentencesPerChunk);
    StripSpaceJoin(chunks);
    StripSpaceJoin(allSentences);
  }

  /** Chunk `j` of `chunkText(text, k)` is sentences `j k` up to but not
      including `(j + 1) k` of the plain text, cut short at the end and joined with single spaces. */
  lemma ChunksAt(text: string, k: int, j: nat)
    requires k >= 1 && j < |Chunks(text, k)|
    ensures 0 <= j * k < |Sentences(Normalise(text))|
    ensures Chunks(text, k)[j] == Join(Sentences(Normalise(text))[j * k..Min(j * k + k, |Sentences(Normalise(text))|)])
  {
    var plainText := Normalise(text);
    var ss := Sentences(plainText);
    assert Trim(text) != [];
    assert Chunks(text, k) == Grouped(ss, k);
    SentencesWellFormed(plainText);
    GroupedAt(ss, k, j);
  }

  lemma JoinPair(a: string, b: string)
    ensures Join([a, b]) == a + " " + b
  {
    assert [a, b][1..] == [b];
  }

  /** Four sentences two at a time are cut into the first two and the last two. */
  lemma GroupsOfFour(ss: seq<string>)
    requires |ss| == 4
    ensures Groups(ss, 2, 0) == [Join([ss[0], ss[1]]), Join([ss[2], ss[3]])]
  {
    assert ss[0..2] == [ss[0], ss[1]];
    assert ss[2..4] == [ss[2], ss[3]];
    assert Groups(ss, 2, 4) == [];
    assert Groups(ss, 2, 2) == [Join([ss[2], ss[3]])];
  }

  /** Four sentences, grouped two at a time by `GroupedPairs`. */
  const FourSentences: seq<string> := ["This is one.", "This is two.", "This is three.", "This is four."]

  lemma FourSentencesWellFormed()
    ensures AllWellFormed(FourSentences)
  {
    var ss := FourSentences;
    forall q | 0 <= q < |ss|
      ensures ss[q] != [] && IsTrimmed(ss[q])
    {
      assert ss[q][0] == 'T' && ss[q][|ss[q]| - 1] == '.';
    }
  }

  lemma FirstPairJoined()
    ensures FourSentences[0] + " " + FourSentences[1] == "This is one. This is two."
  {
  }

  lemma SecondPairJoined()
    ensures FourSentences[2] + " " + FourSentences[3] == "This is three. This is four."
  {
  }

  /** Four sentences two at a time give two chunks of two. */
  lemma GroupedPairs()
    ensures Grouped(FourSentences, 2) == ["This is one. This is two.", "This is three. This is four."]
  {
    var ss := FourSentences;
    FourSentencesWellFormed();
    GroupedIsGroups(ss, 2);
    GroupsOfFour(ss);
    JoinPair(ss[0], ss[1]);
    JoinPair(ss[2], ss[3]);
    FirstPairJoined();
    SecondPairJoined();
  }
}
