/** The few Python string operations the handlers use: str.isspace, strip,
    `in`, startswith, split, splitlines, lower and " ".join, written out on
    seq<char>. */
module Text {
  import opened Wrappers
  import opened Sorting

  /** Python's str.isspace(): the characters `\s` matches and strip() removes. */
  predicate IsSpace(c: char) {
    || ('\t' <= c <= '\r')
    || ('\U{1C}' <= c <= ' ')
    || c == '\U{85}' || c == '\U{A0}' || c == '\U{1680}'
    || ('\U{2000}' <= c <= '\U{200A}')
    || c == '\U{2028}' || c == '\U{2029}' || c == '\U{202F}' || c == '\U{205F}' || c == '\U{3000}'
  }

  /** The characters at which str.splitlines() ends a line. */
  predicate IsLineBreak(c: char) {
    || ('\n' <= c <= '\r')
    || ('\U{1C}' <= c <= '\U{1E}')
    || c == '\U{85}' || c == '\U{2028}' || c == '\U{2029}'
  }

  /** A character of `\w` (ASCII letters, digits and underscore). */
  predicate IsWordChar(c: char) {
    ('a' <= c <= 'z') || ('A' <= c <= 'Z') || ('0' <= c <= '9') || c == '_'
  }

  lemma LineBreakIsSpace(c: char)
    ensures IsLineBreak(c) ==> IsSpace(c)
  {
  }

  function Lower(c: char): (r: char)
    ensures 'A' <= c <= 'Z' ==> 'a' <= r <= 'z' && r as int - c as int == 32
    ensures !('A' <= c <= 'Z') ==> r == c
  {
    if 'A' <= c <= 'Z' then (c as int + 32) as char else c
  }

  function LowerStr(s: string): (r: string)
    ensures |r| == |s|
    ensures forall i :: 0 <= i < |s| ==> r[i] == Lower(s[i])
  {
    seq(|s|, i requires 0 <= i < |s| => Lower(s[i]))
  }

  /** The least position in [from, to) that satisfies P: how a regex search
      picks its leftmost match and a lazy quantifier its shortest prefix. */
  function FirstFrom(from: nat, to: nat, P: nat -> bool): (r: Option<nat>)
    requires from <= to
    decreases (to as int) - (from as int)
    ensures r.Some? ==> from <= r.value < to && P(r.value)
    ensures r.Some? ==> forall q :: from <= q < r.value ==> !P(q)
    ensures r.None? ==> forall q :: from <= q < to ==> !P(q)
  {
    if from == to then None
    else if P(from) then Some(from)
    else FirstFrom(from + 1, to, P)
  }

  predicate OccursAt(s: string, p: string, i: nat) {
    i + |p| <= |s| && s[i..i + |p|] == p
  }

  predicate StartsWith(s: string, p: string) {
    OccursAt(s, p, 0)
  }

  /** str.find: the first occurrence of p in s. */
  function IndexOf(s: string, p: string): (r: Option<nat>)
    ensures r.Some? ==> OccursAt(s, p, r.value)
    ensures r.Some? ==> forall j :: 0 <= j < r.value ==> !OccursAt(s, p, j)
    ensures r.None? ==> forall j :: !OccursAt(s, p, j)
  {
    var at := (i: nat) => OccursAt(s, p, i);
    assert forall j: nat :: at(j) == OccursAt(s, p, j);
    FirstFrom(0, |s| + 1, at)
  }

  /** Python's `p in s`. */
  predicate Contains(s: string, p: string) {
    IndexOf(s, p).Some?
  }

  /** pandas str.contains(p, case=False) for a pattern without regex syntax. */
  predicate ContainsIgnoreCase(s: string, p: string) {
    Contains(LowerStr(s), LowerStr(p))
  }

  /** Two adjacent characters that lower to the lower-case letters x and y
      make s contain [x, y] without regard to case. */
  lemma LowerPairContains(s: string, i: nat, x: char, y: char)
    requires 'a' <= x <= 'z' && 'a' <= y <= 'z'
    requires i + 1 < |s| && Lower(s[i]) == x && Lower(s[i + 1]) == y
    ensures ContainsIgnoreCase(s, [x, y])
  {
    var low := LowerStr(s);
    assert low[i..i + 2] == [x, y];
    assert LowerStr([x, y]) == [x, y];
    assert OccursAt(low, [x, y], i);
  }

  /** s.split(sep, 1): the text before the first occurrence of sep and, when
      there is one, the text after it. */
  function SplitFirst(s: string, sep: string): (r: (string, Option<string>))
    ensures r.1.None? <==> !Contains(s, sep)
    ensures r.1.None? ==> r.0 == s
    ensures r.1.Some? ==> r.0 + sep + r.1.value == s
    ensures r.1.Some? ==> OccursAt(s, sep, |r.0|) && forall j :: 0 <= j < |r.0| ==> !OccursAt(s, sep, j)
  {
    match IndexOf(s, sep)
    case None => (s, None)
    case Some(i) =>
      assert s == s[..i] + sep + s[i + |sep|..];
      (s[..i], Some(s[i + |sep|..]))
  }

  /** The index of the first line at or after from that starts with prefix,
      or |lines| when there is none. */
  function FirstLineStarting(lines: seq<string>, from: nat, prefix: string): (r: nat)
    requires from <= |lines|
    decreases |lines| - from
    ensures from <= r <= |lines|
    ensures forall j :: from <= j < r ==> !StartsWith(lines[j], prefix)
    ensures r < |lines| ==> StartsWith(lines[r], prefix)
  {
    if from == |lines| || StartsWith(lines[from], prefix) then from
    else FirstLineStarting(lines, from + 1, prefix)
  }

  /** The first line at or after from that starts with prefix is the
      first one the search meets. */
  lemma {:induction false} FirstLineStartingAt(lines: seq<string>, from: nat, prefix: string, k: nat)
    requires from <= k <= |lines|
    requires forall j :: from <= j < k ==> !StartsWith(lines[j], prefix)
    requires k < |lines| ==> StartsWith(lines[k], prefix)
    ensures FirstLineStarting(lines, from, prefix) == k
    decreases k - from
  {
    if from < k {
      FirstLineStartingAt(lines, from + 1, prefix, k);
    }
  }

  /** The end of the whitespace run that starts at j. */
  function SpaceEnd(s: string, j: nat): (r: nat)
    requires j <= |s|
    decreases |s| - j
    ensures j <= r <= |s|
    ensures forall t :: j <= t < r ==> IsSpace(s[t])
    ensures r < |s| ==> !IsSpace(s[r])
  {
    if j == |s| || !IsSpace(s[j]) then j else SpaceEnd(s, j + 1)
  }

  /** The end of the run of non-whitespace that starts at j. */
  function WordEnd(s: string, j: nat): (r: nat)
    requires j <= |s|
    decreases |s| - j
    ensures j <= r <= |s|
    ensures forall t :: j <= t < r ==> !IsSpace(s[t])
    ensures r < |s| ==> IsSpace(s[r])
  {
    if j == |s| || IsSpace(s[j]) then j else WordEnd(s, j + 1)
  }

  /** Where regex `.+` starting at j stops: the next '\n' or the end. */
  function LineEnd(s: string, j: nat): (r: nat)
    requires j <= |s|
    decreases |s| - j
    ensures j <= r <= |s|
    ensures forall t :: j <= t < r ==> s[t] != '\n'
    ensures r < |s| ==> s[r] == '\n'
  {
    if j == |s| || s[j] == '\n' then j else LineEnd(s, j + 1)
  }

  /** The next line boundary of str.splitlines() at or after j. */
  function BreakIndex(s: string, j: nat): (r: nat)
    requires j <= |s|
    decreases |s| - j
    ensures j <= r <= |s|
    ensures forall t :: j <= t < r ==> !IsLineBreak(s[t])
    ensures r < |s| ==> IsLineBreak(s[r])
  {
    if j == |s| || IsLineBreak(s[j]) then j else BreakIndex(s, j + 1)
  }

  /** The end of s[..hi] once trailing whitespace is removed, never below lo. */
  function TrimEnd(s: string, lo: nat, hi: nat): (r: nat)
    requires lo <= hi <= |s|
    decreases hi
    ensures lo <= r <= hi
    ensures forall t :: r <= t < hi ==> IsSpace(s[t])
    ensures r > lo ==> !IsSpace(s[r - 1])
  {
    if hi == lo || !IsSpace(s[hi - 1]) then hi else TrimEnd(s, lo, hi - 1)
  }

  predicate IsStripped(s: string) {
    s == [] || (!IsSpace(s[0]) && !IsSpace(s[|s| - 1]))
  }

  /** str.strip(). */
  function Strip(s: string): (r: string)
    ensures IsStripped(r)
    ensures |r| <= |s|
  {
    var a := SpaceEnd(s, 0);
    s[a..TrimEnd(s, a, |s|)]
  }

  /** A text that starts with a non-whitespace character does not strip to
      nothing. */
  lemma StripKeepsFirst(s: string)
    requires s != [] && !IsSpace(s[0])
    ensures Strip(s) != []
  {
    assert SpaceEnd(s, 0) == 0;
    assert TrimEnd(s, 0, |s|) > 0;
  }

  /** One whitespace character strips to nothing. */
  lemma StripSpace(s: string)
    requires |s| == 1 && IsSpace(s[0])
    ensures Strip(s) == []
  {
    assert SpaceEnd(s, 0) == 1;
  }

  /** strip() removes whitespace only, and only at the two ends. */
  lemma StripShape(s: string)
    ensures var a := SpaceEnd(s, 0); var b := TrimEnd(s, a, |s|);
      && Strip(s) == s[a..b]
      && (forall t :: 0 <= t < a ==> IsSpace(s[t]))
      && (forall t :: b <= t < |s| ==> IsSpace(s[t]))
  {
  }

  lemma {:induction false} StripStripped(s: string)
    requires IsStripped(s)
    ensures Strip(s) == s
  {
    var a := SpaceEnd(s, 0);
    if s != [] {
      assert a == 0;
      assert TrimEnd(s, 0, |s|) == |s|;
    }
  }

  lemma StripElements(s: string, c: char)
    requires c in Strip(s)
    ensures c in s
  {
    var a := SpaceEnd(s, 0);
    var b := TrimEnd(s, a, |s|);
    var i :| 0 <= i < |s[a..b]| && s[a..b][i] == c;
    assert s[a + i] == c;
  }

  /** No character of s ends a line. */
  predicate SingleLine(s: string) {
    forall c :: c in s ==> !IsLineBreak(c)
  }

  /** Every line is non-blank and stripped, as the line scanners see them. */
  predicate CleanLines(ls: seq<string>) {
    forall t :: 0 <= t < |ls| ==> ls[t] != [] && IsStripped(ls[t])
  }

  /** [l.strip() for l in s.splitlines() if l.strip()]: the non-blank lines
      of a page, stripped. */
  function Lines(s: string): (r: seq<string>)
    decreases |s|
    ensures CleanLines(r)
    ensures forall t :: 0 <= t < |r| ==> SingleLine(r[t])
  {
    var i := BreakIndex(s, 0);
    var l := Strip(s[..i]);
    assert SingleLine(l) by {
      forall c | c in l ensures !IsLineBreak(c) {
        StripElements(s[..i], c);
      }
    }
    var rest := if i < |s| then Lines(s[i + 1..]) else [];
    (if l == [] then [] else [l]) + rest
  }

  /** " ".join(parts). */
  function JoinSpace(parts: seq<string>): string
    decreases |parts|
  {
    if |parts| == 0 then ""
    else if |parts| == 1 then parts[0]
    else parts[0] + " " + JoinSpace(parts[1..])
  }

  /** s.split(' ', n): at most n cuts at single spaces, the rest kept whole. */
  function SplitSpace(s: string, n: nat): (r: seq<string>)
    decreases n
    ensures 1 <= |r| <= n + 1
    ensures JoinSpace(r) == s
    ensures forall t :: 0 <= t < |r| - 1 ==> ' ' !in r[t]
    ensures |r| < n + 1 ==> ' ' !in r[|r| - 1]
    ensures |r| == (if Spaces(s) < n then Spaces(s) else n) + 1
  {
    if n == 0 then [s]
    else match IndexOf(s, " ")
      case None =>
        NoSpaceFound(s);
        SpacesNone(s);
        [s]
      case Some(i) =>
        FirstSpaceFound(s, i);
        SpacesAfterFirst(s, i);
        var rest := SplitSpace(s[i + 1..], n - 1);
        assert s == s[..i] + " " + s[i + 1..];
        [s[..i]] + rest
  }

  /** When str.find(' ') finds nothing, s has no space. */
  lemma NoSpaceFound(s: string)
    requires IndexOf(s, " ").None?
    ensures ' ' !in s
  {
    forall j | 0 <= j < |s| ensures s[j] != ' ' {
      assert !OccursAt(s, " ", j);
      assert s[j..j + 1] == [s[j]];
    }
  }

  /** When str.find(' ') finds i, s[i] is a space and none comes before it. */
  lemma FirstSpaceFound(s: string, i: nat)
    requires IndexOf(s, " ") == Some(i)
    ensures i < |s| && s[i] == ' ' && ' ' !in s[..i]
  {
    assert s[i..i + 1] == " ";
    forall j | 0 <= j < i ensures s[..i][j] != ' ' {
      assert !OccursAt(s, " ", j);
      assert s[j..j + 1] == [s[j]];
    }
  }

  /** s.split(' ') without a limit. */
  function SplitAllSpaces(s: string): (r: seq<string>)
    ensures |r| == Spaces(s) + 1
    ensures JoinSpace(r) == s
    ensures forall t :: 0 <= t < |r| ==> ' ' !in r[t]
  {
    var r := SplitSpace(s, |s|);
    if |r| == |s| + 1 then
      JoinSpaceLength(r);
      assert r[|r| - 1] == [];
      r
    else r
  }

  /** A join holds a space per separator and all of its last part. */
  lemma {:induction false} JoinSpaceLength(parts: seq<string>)
    requires |parts| >= 1
    ensures |JoinSpace(parts)| >= |parts| - 1 + |parts[|parts| - 1]|
  {
    if |parts| > 1 {
      JoinSpaceLength(parts[1..]);
    }
  }

  /** Joining with spaces at a cut: the parts before and the parts from k,
      with one space between them. */
  lemma {:induction false} JoinSpaceSplit(parts: seq<string>, k: nat)
    requires 0 < k < |parts|
    ensures JoinSpace(parts) == JoinSpace(parts[..k]) + " " + JoinSpace(parts[k..])
  {
    if k > 1 {
      JoinSpaceSplit(parts[1..], k - 1);
      assert parts[1..][..k - 1] == parts[..k][1..];
      assert parts[1..][k - 1..] == parts[k..];
    }
  }

  /** The number of space characters in s. */
  function Spaces(s: string): (r: nat)
    decreases |s|
    ensures r <= |s|
  {
    if s == [] then 0 else (if s[0] == ' ' then 1 else 0) + Spaces(s[1..])
  }

  lemma {:induction false} SpacesConcat(a: string, b: string)
    ensures Spaces(a + b) == Spaces(a) + Spaces(b)
  {
    if a == [] {
      assert a + b == b;
    } else {
      assert (a + b)[1..] == a[1..] + b;
      SpacesConcat(a[1..], b);
    }
  }

  lemma {:induction false} SpacesNone(s: string)
    requires ' ' !in s
    ensures Spaces(s) == 0
  {
    if s != [] {
      assert s[0] in s;
      SpacesNone(s[1..]);
    }
  }

  /** A space at i with none before it: s has one more space than what
      follows i. */
  lemma SpacesAfterFirst(s: string, i: nat)
    requires i < |s| && s[i] == ' ' && ' ' !in s[..i]
    ensures Spaces(s) == 1 + Spaces(s[i + 1..])
  {
    var before, from := s[..i], s[i..];
    assert s == before + from;
    SpacesConcat(before, from);
    SpacesNone(before);
    assert from[0] == ' ' && from[1..] == s[i + 1..];
  }

  /** Joining parts that hold no space puts exactly one space between
      neighbours. */
  lemma {:induction false} JoinSpaceSpaces(parts: seq<string>)
    requires |parts| >= 1
    requires forall t :: 0 <= t < |parts| ==> ' ' !in parts[t]
    ensures Spaces(JoinSpace(parts)) == |parts| - 1
  {
    if |parts| == 1 {
      SpacesNone(parts[0]);
    } else {
      var tail := " " + JoinSpace(parts[1..]);
      assert JoinSpace(parts) == parts[0] + tail;
      JoinSpaceSpaces(parts[1..]);
      SpacesNone(parts[0]);
      SpacesConcat(parts[0], tail);
      assert tail[0] == ' ' && tail[1..] == JoinSpace(parts[1..]);
    }
  }

  /** The whitespace-separated words of s from index i on. */
  function WordsFrom(s: string, i: nat): (r: seq<string>)
    requires i <= |s|
    decreases |s| - i
    ensures forall t :: 0 <= t < |r| ==> r[t] != [] && forall c :: c in r[t] ==> !IsSpace(c)
  {
    var a := SpaceEnd(s, i);
    if a == |s| then []
    else
      var b := WordEnd(s, a);
      [s[a..b]] + WordsFrom(s, b)
  }

  /** s.split(): the whitespace-separated words. */
  function Words(s: string): seq<string> {
    WordsFrom(s, 0)
  }

  /** A space at j is skipped like any other leading whitespace. */
  lemma WordsFromSkip(s: string, j: nat)
    requires j < |s| && IsSpace(s[j])
    ensures WordsFrom(s, j) == WordsFrom(s, j + 1)
  {
    assert SpaceEnd(s, j) == SpaceEnd(s, j + 1);
  }

  /** A word w at i that ends at a space or at the end of s is the first
      word from i on. */
  lemma WordAt(s: string, i: nat, w: string)
    requires w != [] && forall c :: c in w ==> !IsSpace(c)
    requires i + |w| <= |s| && s[i..i + |w|] == w
    requires i + |w| == |s| || IsSpace(s[i + |w|])
    ensures WordsFrom(s, i) == [w] + WordsFrom(s, i + |w|)
  {
    assert w[0] in w && s[i] == w[0];
    forall t | i <= t < i + |w| ensures !IsSpace(s[t]) {
      assert s[t] == w[t - i];
      assert w[t - i] in w;
    }
    assert SpaceEnd(s, i) == i;
    assert WordEnd(s, i) == i + |w|;
  }

  /** Where s continues at i with w, a space and tail, each part is found
      at its place. */
  lemma SpaceCut(s: string, i: nat, w: string, tail: string)
    requires i <= |s| && s[i..] == w + " " + tail
    ensures i + |w| < |s| && s[i..i + |w|] == w && s[i + |w|] == ' ' && s[i + |w| + 1..] == tail
  {
    var e := i + |w|;
    assert |s[i..]| == |w| + 1 + |tail|;
    forall t | 0 <= t < |w| ensures s[i + t] == w[t] {
      assert s[i + t] == s[i..][t];
    }
    assert s[e] == s[i..][|w|];
    forall t | 0 <= t < |tail| ensures s[e + 1 + t] == tail[t] {
      assert s[e + 1 + t] == s[i..][|w| + 1 + t];
    }
  }

  lemma WordsTail(ws: seq<string>)
    requires ws != []
    requires forall t :: 0 <= t < |ws| ==> ws[t] != [] && forall c :: c in ws[t] ==> !IsSpace(c)
    ensures forall t :: 0 <= t < |ws| - 1 ==> ws[1..][t] != [] && forall c :: c in ws[1..][t] ==> !IsSpace(c)
    ensures ws == [ws[0]] + ws[1..]
  {
    forall t | 0 <= t < |ws| - 1 ensures ws[1..][t] == ws[t + 1] {}
  }

  /** s from i on holds the parts ws, one space between neighbours. */
  predicate SpacedAt(s: string, i: nat, ws: seq<string>)
    requires i <= |s|
    decreases |ws|
  {
    if ws == [] then i == |s|
    else if |ws| == 1 then s[i..] == ws[0]
    else
      var e := i + |ws[0]|;
      e < |s| && s[i..e] == ws[0] && s[e] == ' ' && SpacedAt(s, e + 1, ws[1..])
  }

  /** What " ".join(ws) puts at i is ws spaced out from i on. */
  lemma {:induction false} JoinSpaced(s: string, i: nat, ws: seq<string>)
    requires i <= |s| && s[i..] == JoinSpace(ws)
    ensures SpacedAt(s, i, ws)
    decreases |ws|
  {
    if |ws| >= 2 {
      SpaceCut(s, i, ws[0], JoinSpace(ws[1..]));
      JoinSpaced(s, i + |ws[0]| + 1, ws[1..]);
    }
  }

  /** Splitting words spaced out from i gives the words back. */
  lemma {:induction false} WordsFromSpaced(s: string, i: nat, ws: seq<string>)
    requires i <= |s| && SpacedAt(s, i, ws)
    requires forall t :: 0 <= t < |ws| ==> ws[t] != [] && forall c :: c in ws[t] ==> !IsSpace(c)
    ensures WordsFrom(s, i) == ws
    decreases |ws|
  {
    if ws == [] {
    } else if |ws| == 1 {
      WordsFromLast(s, i, ws[0]);
    } else {
      WordsTail(ws);
      WordsFromSpaced(s, i + |ws[0]| + 1, ws[1..]);
      WordsCons(s, i, ws);
    }
  }

  /** A first word followed by a space, and the words after that space,
      make up the words from i on. */
  lemma WordsCons(s: string, i: nat, ws: seq<string>)
    requires |ws| >= 2 && i + |ws[0]| < |s| && s[i..i + |ws[0]|] == ws[0] && s[i + |ws[0]|] == ' '
    requires ws[0] != [] && forall c :: c in ws[0] ==> !IsSpace(c)
    requires WordsFrom(s, i + |ws[0]| + 1) == ws[1..]
    ensures WordsFrom(s, i) == ws
  {
    WordAt(s, i, ws[0]);
    WordsFromSkip(s, i + |ws[0]|);
    assert ws == [ws[0]] + ws[1..];
  }

  /** Splitting words joined by single spaces gives the words back. */
  lemma WordsFromJoin(s: string, i: nat, ws: seq<string>)
    requires i <= |s| && s[i..] == JoinSpace(ws)
    requires forall t :: 0 <= t < |ws| ==> ws[t] != [] && forall c :: c in ws[t] ==> !IsSpace(c)
    ensures WordsFrom(s, i) == ws
  {
    JoinSpaced(s, i, ws);
    WordsFromSpaced(s, i, ws);
  }

  /** A last word that runs to the end of s is the only word from i on. */
  lemma WordsFromLast(s: string, i: nat, w: string)
    requires i <= |s| && s[i..] == w
    requires w != [] && forall c :: c in w ==> !IsSpace(c)
    ensures WordsFrom(s, i) == [w]
  {
    WordAt(s, i, w);
    assert i + |w| == |s|;
  }

  /** Python's `a < b` on str: code point by code point. */
  predicate Below(a: string, b: string) {
    Lex((x: char, y: char) => x < y, a, b)
  }

  /** Below is a strict total order on strings. */
  lemma BelowOrder()
    ensures StrictOrder(Below)
  {
    var less := (x: char, y: char) => x < y;
    forall a ensures !Below(a, a) { LexIrreflexive(less, a); }
    forall a, b, c | Below(a, b) && Below(b, c) ensures Below(a, c) { LexTransitive(less, a, b, c); }
    forall a, b | a != b ensures Below(a, b) || Below(b, a) { LexTotal(less, a, b); }
  }
}
