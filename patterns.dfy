/** The fixed regular expressions of the two result handlers, each written
    out as the match that Python's `re` finds: leftmost start, greedy runs
    that backtrack, lazy prefixes that are as short as possible. */
module Patterns {
  import opened Wrappers
  import opened Text

  // ---------------------------------------------------------------------
  // LABEL\s*(.+)   (re.search, used by pasrse_field_single)
  // ---------------------------------------------------------------------

  /** The largest m in [lo, hi) with s[m] != '\n'. */
  function LastNonNewline(s: string, lo: nat, hi: nat): (r: Option<nat>)
    requires lo <= hi <= |s|
    decreases hi - lo
    ensures r.Some? ==> lo <= r.value < hi && s[r.value] != '\n'
    ensures r.Some? ==> forall t :: r.value < t < hi ==> s[t] == '\n'
    ensures r.None? ==> forall t :: lo <= t < hi ==> s[t] == '\n'
  {
    if hi == lo then None
    else if s[hi - 1] != '\n' then Some(hi - 1)
    else LastNonNewline(s, lo, hi - 1)
  }

  /** Where the group `(.+)` starts once the keyword ends at j: `\s*` first
      takes the whole whitespace run; when that run reaches the end of the
      text it gives characters back until `.` (anything but '\n') can match. */
  function GroupStart(s: string, j: nat): (r: Option<nat>)
    requires j <= |s|
    ensures r.Some? ==> j <= r.value < |s| && s[r.value] != '\n'
    ensures r.Some? ==> forall t :: j <= t < r.value ==> IsSpace(s[t])
    ensures r.None? <==> (forall t :: j <= t < |s| ==> s[t] == '\n')
    ensures SpaceEnd(s, j) < |s| ==> r == Some(SpaceEnd(s, j))
    ensures r.Some? && SpaceEnd(s, j) == |s| ==> forall t :: r.value < t < |s| ==> s[t] == '\n'
  {
    var k := SpaceEnd(s, j);
    if k < |s| then
      assert s[k] != '\n';
      Some(k)
    else
      LastNonNewline(s, j, k)
  }

  predicate FieldMatchAt(keyword: string, text: string, i: nat) {
    OccursAt(text, keyword, i) && GroupStart(text, i + |keyword|).Some?
  }

  /** Where re.search finds the keyword pattern: the leftmost start. */
  function FirstFieldMatch(keyword: string, text: string): (r: Option<nat>)
    ensures r.Some? ==> FieldMatchAt(keyword, text, r.value)
    ensures r.Some? ==> forall j :: 0 <= j < r.value ==> !FieldMatchAt(keyword, text, j)
    ensures r.None? <==> (forall i: nat :: !FieldMatchAt(keyword, text, i))
  {
    var at := (i: nat) => FieldMatchAt(keyword, text, i);
    assert forall i: nat :: at(i) == FieldMatchAt(keyword, text, i);
    FirstFrom(0, |text| + 1, at)
  }

  /** re.search(re.escape(keyword) + r"\s*(.+)", text).group(1).strip(), or
      None when the search fails. */
  function FieldValue(keyword: string, text: string): (r: Option<string>)
    ensures r.None? <==> (forall i: nat :: !FieldMatchAt(keyword, text, i))
    ensures !Contains(text, keyword) ==> r.None?
    ensures r.Some? ==> IsStripped(r.value) && '\n' !in r.value
  {
    match FirstFieldMatch(keyword, text)
    case None => None
    case Some(i) => Some(GroupValue(text, GroupStart(text, i + |keyword|).value))
  }

  /** The captured group starting at g, up to the end of its line, stripped. */
  function GroupValue(text: string, g: nat): (v: string)
    requires g < |text|
    ensures IsStripped(v) && '\n' !in v
  {
    var group := text[g..LineEnd(text, g)];
    assert '\n' !in Strip(group) by {
      if '\n' in Strip(group) {
        StripElements(group, '\n');
      }
    }
    Strip(group)
  }

  /** The value is what follows the first occurrence of the keyword, after any
      whitespace (line breaks included), up to the end of that line. */
  lemma FieldValueAfterFirstOccurrence(keyword: string, text: string, i: nat)
    requires OccursAt(text, keyword, i)
    requires forall j :: 0 <= j < i ==> !OccursAt(text, keyword, j)
    requires SpaceEnd(text, i + |keyword|) < |text|
    ensures var k := SpaceEnd(text, i + |keyword|);
      FieldValue(keyword, text) == Some(Strip(text[k..LineEnd(text, k)]))
    ensures FieldValue(keyword, text).value != []
  {
    var k := SpaceEnd(text, i + |keyword|);
    FirstFieldMatchIs(keyword, text, i);
    FieldValueAt(keyword, text, i);
    var line := text[k..LineEnd(text, k)];
    assert line[0] == text[k];
    StripKeepsFirst(line);
  }

  /** The value of a search that matches at i. */
  lemma FieldValueAt(keyword: string, text: string, i: nat)
    requires FirstFieldMatch(keyword, text) == Some(i)
    ensures FieldValue(keyword, text) == Some(GroupValue(text, GroupStart(text, i + |keyword|).value))
  {
  }

  /** The first occurrence of the keyword is where the search matches
      whenever the rest of the pattern can match there. */
  lemma FirstFieldMatchIs(keyword: string, text: string, i: nat)
    requires FieldMatchAt(keyword, text, i)
    requires forall j :: 0 <= j < i ==> !OccursAt(text, keyword, j)
    ensures FirstFieldMatch(keyword, text) == Some(i)
  {
    var r := FirstFieldMatch(keyword, text);
    assert r.Some?;
    assert r.value <= i;
    assert OccursAt(text, keyword, r.value);
  }

  /** When only whitespace follows the keyword to the end of the text and
      some of it is not a '\n', the group is one whitespace character and
      the value is "" rather than None. */
  lemma FieldValueBlankTail(keyword: string, text: string, i: nat, m: nat)
    requires OccursAt(text, keyword, i)
    requires forall j :: 0 <= j < i ==> !OccursAt(text, keyword, j)
    requires SpaceEnd(text, i + |keyword|) == |text|
    requires i + |keyword| <= m < |text| && text[m] != '\n'
    ensures FieldValue(keyword, text) == Some("")
  {
    BlankGroup(text, i + |keyword|, m);
    FirstFieldMatchIs(keyword, text, i);
    FieldValueAt(keyword, text, i);
  }

  /** A group made only of whitespace that runs to the end of the text is
      the last character that is not a '\n', alone on its line. */
  lemma BlankGroup(text: string, j: nat, m: nat)
    requires j <= m < |text| && text[m] != '\n'
    requires SpaceEnd(text, j) == |text|
    ensures GroupStart(text, j).Some?
    ensures GroupValue(text, GroupStart(text, j).value) == ""
  {
    var g := GroupStart(text, j);
    assert text[m] in text[j..];
    assert g.Some?;
    var e := LineEnd(text, g.value);
    assert g.value + 1 < |text| ==> text[g.value + 1] == '\n';
    assert e == g.value + 1;
    StripSpace(text[g.value..e]);
  }

  // ---------------------------------------------------------------------
  // ^(\S+)\s+(.+)   (re.match on a stripped subject line)
  // ---------------------------------------------------------------------

  /** The grade token and the subject text of a summary subject line, or
      None when the line is a single token. */
  function GradeAndSubject(line: string): (r: Option<(string, string)>)
    requires IsStripped(line)
    ensures r.None? <==> (forall t :: 0 <= t < |line| ==> !IsSpace(line[t]))
  {
    var a := WordEnd(line, 0);
    if a == |line| then None
    else
      var b := SpaceEnd(line, a);
      Some((line[..a], line[b..LineEnd(line, b)]))
  }

  /** The grade is a non-empty run of non-whitespace, the subject starts
      with a non-whitespace character; on a single line the two are the
      line's start and end with only whitespace between them. */
  lemma GradeAndSubjectParts(line: string)
    requires IsStripped(line) && GradeAndSubject(line).Some?
    ensures var (grade, subject) := GradeAndSubject(line).value;
      && grade != [] && (forall c :: c in grade ==> !IsSpace(c))
      && subject != [] && !IsSpace(subject[0])
      && ('\n' !in line ==>
            && |grade| < |line| - |subject|
            && line[..|grade|] == grade
            && line[|line| - |subject|..] == subject
            && forall t :: |grade| <= t < |line| - |subject| ==> IsSpace(line[t]))
  {
    var a := WordEnd(line, 0);
    var b := SpaceEnd(line, a);
    assert !IsSpace(line[|line| - 1]);
    assert b < |line|;
    var e := LineEnd(line, b);
    assert e < |line| ==> line[e] in line;
  }

  // ---------------------------------------------------------------------
  // ^(.*?)(\b(?:SL|HL|EE|TK)\b.*)$   (str.extract on a subject name)
  // ---------------------------------------------------------------------

  const LevelTokens: set<string> := {"SL", "HL", "EE", "TK"}

  /** A level token stands at p as a whole word. */
  predicate LevelTokenAt(s: string, p: nat) {
    && p + 2 <= |s|
    && s[p..p + 2] in LevelTokens
    && (p == 0 || !IsWordChar(s[p - 1]))
    && (p + 2 == |s| || !IsWordChar(s[p + 2]))
  }

  /** (subject name, level and the rest): the cut is at the first whole-word
      level token. */
  function LevelSplit(s: string): (r: Option<(string, string)>)
    ensures r.Some? ==> s == r.value.0 + r.value.1 && LevelTokenAt(s, |r.value.0|)
    ensures r.Some? ==> forall q :: 0 <= q < |r.value.0| ==> !LevelTokenAt(s, q)
    ensures r.None? <==> (forall q: nat :: !LevelTokenAt(s, q))
  {
    var at := (p: nat) => LevelTokenAt(s, p);
    assert forall p: nat :: at(p) == LevelTokenAt(s, p);
    match FirstFrom(0, |s| + 1, at)
    case None => None
    case Some(p) => Some((s[..p], s[p..]))
  }

  // ---------------------------------------------------------------------
  // ^(.+?)\s*(\([^)]+\))$   (str.extract on a candidate's session text)
  // ---------------------------------------------------------------------

  /** From g to the end: '(' then at least one character other than ')'
      then the final ')'. */
  predicate ParenGroup(s: string, g: nat) {
    && g + 3 <= |s|
    && s[g] == '('
    && s[|s| - 1] == ')'
    && forall t :: g < t < |s| - 1 ==> s[t] != ')'
  }

  /** The lazy prefix may end at q: after the whitespace run from q comes a
      trailing parenthesised group. */
  predicate CodeSplitAt(s: string, q: nat) {
    1 <= q <= |s| && ParenGroup(s, SpaceEnd(s, q))
  }

  /** (session_number, personal_code): the shortest non-empty prefix, then
      optional whitespace, then the trailing `(...)` group. */
  function SessionAndCode(s: string): (r: Option<(string, string)>)
    ensures r.Some? ==>
      var (session, code) := r.value;
      && 1 <= |session| && |session| + |code| <= |s|
      && s[..|session|] == session
      && s[|s| - |code|..] == code
      && (forall t :: |session| <= t < |s| - |code| ==> IsSpace(s[t]))
      && |code| >= 3 && code[0] == '(' && code[|code| - 1] == ')'
      && (forall t :: 0 < t < |code| - 1 ==> code[t] != ')')
    ensures r.Some? ==> forall q :: 1 <= q < |r.value.0| ==> !CodeSplitAt(s, q)
    ensures r.None? <==> (forall q: nat :: !CodeSplitAt(s, q))
  {
    var at := (q: nat) => CodeSplitAt(s, q);
    assert forall q: nat :: at(q) == CodeSplitAt(s, q);
    match FirstFrom(1, |s| + 1, at)
    case None => None
    case Some(q) =>
      var g := SpaceEnd(s, q);
      var code := s[g..];
      assert forall t :: 0 < t < |code| - 1 ==> code[t] == s[g + t];
      Some((s[..q], code))
  }

  // ---------------------------------------------------------------------
  // ^(.*?)\s<a>+<b>\b  with re.IGNORECASE, built as '+'.join(word)
  // ---------------------------------------------------------------------

  /** The end of the run of letters equal to c (ignoring case) from j. */
  function RunEnd(s: string, j: nat, c: char): (r: nat)
    requires j <= |s|
    decreases |s| - j
    ensures j <= r <= |s|
    ensures forall t :: j <= t < r ==> Lower(s[t]) == c
    ensures r < |s| ==> Lower(s[r]) != c
  {
    if j == |s| || Lower(s[j]) != c then j else RunEnd(s, j + 1, c)
  }

  /** The final letter b stands at i and a word boundary follows it. */
  predicate TailAt(s: string, i: nat, b: char) {
    i < |s| && Lower(s[i]) == b && (i + 1 == |s| || !IsWordChar(s[i + 1]))
  }

  /** `\s<a>+<b>\b` matches from p: a whitespace character, a run of a's
      of which the greedy `+` may give back all but one, then b and a word
      boundary. */
  predicate DoubledAt(s: string, p: nat, a: char, b: char) {
    && p < |s|
    && IsSpace(s[p])
    && exists i :: p + 2 <= i <= RunEnd(s, p + 1, a) && TailAt(s, i, b)
  }

  /** group(1) of `^(.*?)\s<a>+<b>\b`: the text before the shortest match. */
  function DoubledPrefix(s: string, a: char, b: char): (r: Option<string>)
    ensures r.Some? ==> |r.value| <= |s| && s[..|r.value|] == r.value && DoubledAt(s, |r.value|, a, b)
    ensures r.Some? ==> forall q :: 0 <= q < |r.value| ==> !DoubledAt(s, q, a, b)
    ensures r.None? <==> (forall q: nat :: !DoubledAt(s, q, a, b))
  {
    var at := (p: nat) => DoubledAt(s, p, a, b);
    assert forall p: nat :: at(p) == DoubledAt(s, p, a, b);
    match FirstFrom(0, |s| + 1, at)
    case None => None
    case Some(p) => Some(s[..p])
  }

  /** Where the prefix pattern matches, the two letters also occur next to
      each other, so the same subject satisfies str.contains(word, case=False). */
  lemma DoubledImpliesContains(s: string, a: char, b: char)
    requires 'a' <= a <= 'z' && 'a' <= b <= 'z'
    requires DoubledPrefix(s, a, b).Some?
    ensures ContainsIgnoreCase(s, [a, b])
  {
    var p := |DoubledPrefix(s, a, b).value|;
    var i :| p + 2 <= i <= RunEnd(s, p + 1, a) && TailAt(s, i, b);
    LowerPairContains(s, i - 1, a, b);
  }

  // ---------------------------------------------------------------------
  // (?i)\b(ee|tk)\b   (the EE/TOK exclusion of the subject pivot)
  // ---------------------------------------------------------------------

  const ExcludedWords: set<string> := {"ee", "tk"}

  predicate ExcludedWordAt(s: string, p: nat) {
    && p + 2 <= |s|
    && LowerStr(s[p..p + 2]) in ExcludedWords
    && (p == 0 || !IsWordChar(s[p - 1]))
    && (p + 2 == |s| || !IsWordChar(s[p + 2]))
  }

  /** Where re.search finds the exclusion pattern. */
  function ExcludedWordIndex(s: string): (r: Option<nat>)
    ensures r.Some? ==> ExcludedWordAt(s, r.value)
    ensures r.None? <==> (forall p: nat :: !ExcludedWordAt(s, p))
  {
    var at := (p: nat) => ExcludedWordAt(s, p);
    assert forall p: nat :: at(p) == ExcludedWordAt(s, p);
    FirstFrom(0, |s| + 1, at)
  }

  /** str.extract(pattern).notna(): "ee" or "tk", in any case, stands
      somewhere in s as a whole word. */
  predicate HasExcludedWord(s: string) {
    ExcludedWordIndex(s).Some?
  }

  /** A subject that the pivot drops as EE/TOK also has its ee_fg or tk_fg
      filled: the whole word "ee" or "tk" is in particular a substring. */
  lemma ExcludedWordIsSubstring(s: string)
    requires HasExcludedWord(s)
    ensures ContainsIgnoreCase(s, "ee") || ContainsIgnoreCase(s, "tk")
  {
    var p := ExcludedWordIndex(s).value;
    var low := LowerStr(s);
    assert low[p..p + 2] == LowerStr(s[p..p + 2]);
    assert LowerStr("ee") == "ee" && LowerStr("tk") == "tk";
    assert OccursAt(low, low[p..p + 2], p);
  }

  // ---------------------------------------------------------------------
  // The same patterns applied to a column: a null cell stays null.
  // ---------------------------------------------------------------------

  /** str.split(' - ', n=1, expand=True) on one cell: (before, after). */
  function SplitDash(c: Option<string>): (r: (Option<string>, Option<string>))
    ensures c.None? ==> r == (None, None)
    ensures c.Some? ==> r.0.Some? && (r.1.None? <==> !Contains(c.value, " - "))
    ensures c.Some? && r.1.Some? ==> r.0.value + " - " + r.1.value == c.value
    ensures c.Some? && r.1.None? ==> r.0 == c
  {
    match c
    case None => (None, None)
    case Some(s) =>
      var (a, b) := SplitFirst(s, " - ");
      (Some(a), b)
  }

  /** str.extract of the level pattern on one cell: (name, level and rest),
      both null when the cell is null or has no level token. */
  function ExtractLevel(c: Option<string>): (r: (Option<string>, Option<string>))
    ensures r.0.Some? <==> r.1.Some?
    ensures r.0.Some? ==> c.Some? && c.value == r.0.value + r.1.value && LevelTokenAt(c.value, |r.0.value|)
    ensures c.Some? && r.0.None? ==> forall q: nat :: !LevelTokenAt(c.value, q)
  {
    match c
    case None => (None, None)
    case Some(s) =>
      match LevelSplit(s)
      case None => (None, None)
      case Some((name, level)) => (Some(name), Some(level))
  }

  /** str.extract of the session pattern on one cell: (session number,
      personal code), both null when the cell is null or does not match. */
  function ExtractCode(c: Option<string>): (r: (Option<string>, Option<string>))
    ensures r.0.Some? <==> r.1.Some?
    ensures r.0.Some? ==> c.Some? && SessionAndCode(c.value) == Some((r.0.value, r.1.value))
    ensures c.Some? && r.0.None? ==> forall q: nat :: !CodeSplitAt(c.value, q)
  {
    match c
    case None => (None, None)
    case Some(s) =>
      match SessionAndCode(s)
      case None => (None, None)
      case Some((session, code)) => (Some(session), Some(code))
  }

  /** str.extract of `^(.*?)\s<a>+<b>\b` (IGNORECASE) on one cell. */
  function ExtractDoubled(c: Option<string>, a: char, b: char): (r: Option<string>)
    ensures r.Some? ==> c.Some? && DoubledPrefix(c.value, a, b) == r
    ensures c.Some? && r.None? ==> forall q: nat :: !DoubledAt(c.value, q, a, b)
  {
    match c
    case None => None
    case Some(s) => DoubledPrefix(s, a, b)
  }

  /** Strips a cell that may be null. */
  function StripCell(c: Option<string>): (r: Option<string>)
    ensures r.Some? <==> c.Some?
    ensures r.Some? ==> IsStripped(r.value) && |r.value| <= |c.value|
  {
    match c
    case None => None
    case Some(s) => Some(Strip(s))
  }
}
