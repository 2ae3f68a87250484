/**
 * Characters and strings as the chunking code sees them: the whitespace set
 * shared by the regular-expression class `\s` and `String.prototype.trim`,
 * trimming, and the two ways pieces of text are put back together (plain
 * concatenation and joining with single spaces).
 */
module Text {

  /** A LineTerminator in the sense of section 12.3 of ECMA-262: what ends a
      line for `^`, `$` and `.` in a regular expression. */
  predicate IsLineTerminator(c: char) {
    c == '\n' || c == '\r' || c == '\U{2028}' || c == '\U{2029}'
  }

  /** WhiteSpace (section 12.2 of ECMA-262, the space separators included)
      or a LineTerminator: the characters `\s` matches and `trim` removes. */
  predicate IsSpace(c: char) {
    || c == '\t' || c == '\U{000B}' || c == '\U{000C}' || c == ' '
    || c == '\U{00A0}' || c == '\U{1680}' || ('\U{2000}' <= c <= '\U{200A}')
    || c == '\U{202F}' || c == '\U{205F}' || c == '\U{3000}' || c == '\U{FEFF}'
    || IsLineTerminator(c)
  }

  predicate AllSpace(s: string) {
    forall k :: 0 <= k < |s| ==> IsSpace(s[k])
  }

  /** No whitespace at either end: what `trim` returns. */
  predicate IsTrimmed(s: string) {
    s == [] || (!IsSpace(s[0]) && !IsSpace(s[|s| - 1]))
  }

  /** The end of the longest run of characters satisfying `p` from `i`. */
  function SkipWhile(s: string, i: nat, p: char -> bool): (j: nat)
    requires i <= |s|
    ensures i <= j <= |s|
    ensures forall k :: i <= k < j ==> p(s[k])
    ensures j < |s| ==> !p(s[j])
    decreases |s| - i
  {
    if i < |s| && p(s[i]) then SkipWhile(s, i + 1, p) else i
  }

  /** A run of characters satisfying `p` from `i` that stops at `e` is what
      `SkipWhile` finds. */
  lemma SkipWhileAt(s: string, i: nat, p: char -> bool, e: nat)
    requires i <= e <= |s| && (forall k :: i <= k < e ==> p(s[k])) && (e < |s| ==> !p(s[e]))
    ensures SkipWhile(s, i, p) == e
  {
  }

  /** The start of the longest run of characters satisfying `p` that ends at
      `hi` and does not reach below `lo`. */
  function SkipBackWhile(s: string, lo: nat, hi: nat, p: char -> bool): (j: nat)
    requires lo <= hi <= |s|
    ensures lo <= j <= hi
    ensures forall k :: j <= k < hi ==> p(s[k])
    ensures lo < j ==> !p(s[j - 1])
    decreases hi
  {
    if lo < hi && p(s[hi - 1]) then SkipBackWhile(s, lo, hi - 1, p) else hi
  }

  /** Where `trim` cuts the front of `s`. */
  function TrimStart(s: string): (a: nat)
    ensures a <= |s|
    ensures forall k :: 0 <= k < a ==> IsSpace(s[k])
    ensures a < |s| ==> !IsSpace(s[a])
  {
    SkipWhile(s, 0, IsSpace)
  }

  /** Where `trim` cuts the back of `s`. */
  function TrimEnd(s: string): (b: nat)
    ensures TrimStart(s) <= b <= |s|
    ensures forall k :: b <= k < |s| ==> IsSpace(s[k])
    ensures TrimStart(s) < b ==> !IsSpace(s[b - 1])
  {
    SkipBackWhile(s, TrimStart(s), |s|, IsSpace)
  }

  /** `s` without its leading whitespace. */
  function TrimLeft(s: string): string {
    if s != [] && IsSpace(s[0]) then TrimLeft(s[1..]) else s
  }

  /** `s` without its trailing whitespace. */
  function TrimRight(s: string): string {
    if s != [] && IsSpace(s[|s| - 1]) then TrimRight(s[..|s| - 1]) else s
  }

  lemma {:induction false} TrimLeftCut(s: string, i: nat)
    requires i <= |s|
    ensures TrimLeft(s[i..]) == s[SkipWhile(s, i, IsSpace)..]
    decreases |s| - i
  {
    if i < |s| && IsSpace(s[i]) {
      assert s[i..][1..] == s[i + 1..];
      TrimLeftCut(s, i + 1);
    }
  }

  lemma {:induction false} TrimRightCut(s: string, lo: nat, hi: nat)
    requires lo <= hi <= |s|
    ensures TrimRight(s[lo..hi]) == s[lo..SkipBackWhile(s, lo, hi, IsSpace)]
    decreases hi
  {
    if lo < hi && IsSpace(s[hi - 1]) {
      assert s[lo..hi][..hi - 1 - lo] == s[lo..hi - 1];
      TrimRightCut(s, lo, hi - 1);
    }
  }

  /** `trim` keeps the slice between the two cuts. */
  lemma TrimSlice(s: string)
    ensures TrimRight(TrimLeft(s)) == s[TrimStart(s)..TrimEnd(s)]
  {
    var a := TrimStart(s);
    TrimLeftCut(s, 0);
    assert s[0..] == s;
    assert TrimLeft(s) == s[a..] == s[a..|s|];
    TrimRightCut(s, a, |s|);
  }

  /** `String.prototype.trim`. */
  function Trim(s: string): (t: string)
    ensures IsTrimmed(t)
    ensures |t| <= |s|
    ensures t == [] <==> AllSpace(s)
  {
    TrimSlice(s);
    TrimRight(TrimLeft(s))
  }

  /** Trimming only removes characters. */
  lemma TrimChars(s: string)
    ensures multiset(Trim(s)) <= multiset(s)
  {
    var a, b := TrimStart(s), TrimEnd(s);
    TrimSlice(s);
    assert s == s[..a] + s[a..b] + s[b..];
  }

  /** `trim` a piece and keep it (`if (sentence)`, `if (chunk)`) unless
      nothing is left. */
  function Kept(piece: string): seq<string> {
    var t := Trim(piece);
    if t == [] then [] else [t]
  }

  lemma TrimKeepsTrimmed(s: string)
    requires IsTrimmed(s)
    ensures Trim(s) == s
  {
    if s != [] {
      assert TrimLeft(s) == s;
    }
  }

  /** The characters of `s` that are not whitespace, in order. */
  function StripSpace(s: string): (r: string)
    ensures |r| <= |s|
    ensures forall k :: 0 <= k < |r| ==> !IsSpace(r[k])
  {
    if s == [] then []
    else (if IsSpace(s[0]) then [] else [s[0]]) + StripSpace(s[1..])
  }

  lemma {:induction false} StripSpaceAppend(a: string, b: string)
    ensures StripSpace(a + b) == StripSpace(a) + StripSpace(b)
  {
    if a != [] {
      assert (a + b)[1..] == a[1..] + b;
      StripSpaceAppend(a[1..], b);
    } else {
      assert a + b == b;
    }
  }

  lemma {:induction false} StripSpaceOfSpace(s: string)
    requires AllSpace(s)
    ensures StripSpace(s) == []
  {
    if s != [] {
      StripSpaceOfSpace(s[1..]);
    }
  }

  /** Trimming removes whitespace only. */
  lemma StripSpaceTrim(s: string)
    ensures StripSpace(Trim(s)) == StripSpace(s)
  {
    var a, b := TrimStart(s), TrimEnd(s);
    TrimSlice(s);
    forall k | 0 <= k < a
      ensures IsSpace(s[..a][k])
    {
      assert s[..a][k] == s[k];
    }
    forall k | 0 <= k < |s| - b
      ensures IsSpace(s[b..][k])
    {
      assert s[b..][k] == s[b + k];
    }
    StripSpaceCut(s, a, b);
  }

  /** Cutting whitespace off both ends keeps the non-whitespace characters. */
  lemma StripSpaceCut(s: string, a: nat, b: nat)
    requires a <= b <= |s| && AllSpace(s[..a]) && AllSpace(s[b..])
    ensures StripSpace(s[a..b]) == StripSpace(s)
  {
    var x, y, z := s[..a], s[a..b], s[b..];
    assert s == x + y + z;
    StripSpaceAppend(x + y, z);
    StripSpaceAppend(x, y);
    StripSpaceOfSpace(x);
    StripSpaceOfSpace(z);
  }

  /** Plain concatenation of pieces. */
  function Flatten(xs: seq<string>): string {
    if xs == [] then [] else xs[0] + Flatten(xs[1..])
  }

  /** `Array.prototype.join(' ')`. */
  function Join(xs: seq<string>): string {
    if xs == [] then []
    else if |xs| == 1 then xs[0]
    else xs[0] + " " + Join(xs[1..])
  }

  lemma {:induction false} FlattenAppend(xs: seq<string>, ys: seq<string>)
    ensures Flatten(xs + ys) == Flatten(xs) + Flatten(ys)
  {
    if xs != [] {
      assert (xs + ys)[1..] == xs[1..] + ys;
      FlattenAppend(xs[1..], ys);
    } else {
      assert xs + ys == ys;
    }
  }

  lemma {:induction false} JoinAppend(xs: seq<string>, ys: seq<string>)
    requires xs != [] && ys != []
    ensures Join(xs + ys) == Join(xs) + " " + Join(ys)
  {
    if |xs| > 1 {
      assert (xs + ys)[1..] == xs[1..] + ys;
      JoinAppend(xs[1..], ys);
    } else {
      assert (xs + ys)[1..] == ys;
    }
  }

  /** Every piece is non-empty and has no whitespace at either end. */
  predicate AllWellFormed(xs: seq<string>) {
    forall k :: 0 <= k < |xs| ==> xs[k] != [] && IsTrimmed(xs[k])
  }

  /** Joining non-empty trimmed pieces gives a non-empty trimmed string, so a
      later `trim` leaves it alone. */
  lemma {:induction false} JoinWellFormed(xs: seq<string>)
    requires xs != [] && AllWellFormed(xs)
    ensures Join(xs) != [] && IsTrimmed(Join(xs))
    ensures Join(xs)[0] == xs[0][0]
    ensures Join(xs)[|Join(xs)| - 1] == xs[|xs| - 1][|xs[|xs| - 1]| - 1]
  {
    if |xs| > 1 {
      JoinWellFormed(xs[1..]);
    }
  }

  /** Joining with spaces adds whitespace only. */
  lemma {:induction false} StripSpaceJoin(xs: seq<string>)
    ensures StripSpace(Join(xs)) == StripSpace(Flatten(xs))
  {
    if |xs| > 1 {
      StripSpaceJoin(xs[1..]);
      StripSpaceAppend(xs[0] + " ", Join(xs[1..]));
      StripSpaceAppend(xs[0], " ");
      StripSpaceAppend(xs[0], Flatten(xs[1..]));
    } else if |xs| == 1 {
      assert xs[1..] == [];
      assert Flatten(xs) == xs[0] + [] == xs[0];
    }
  }
}
