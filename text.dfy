/**
 * The character classes and `str` operations of Rust's standard library that the
 * system relies on, over Unicode scalar values (`char`).
 */
module Text {

  /** `char::is_whitespace`: the Unicode White_Space property. */
  predicate IsWhitespace(c: char) {
    || c == ' '
    || ('\t' <= c <= '\r')
    || c == '\U{85}' || c == '\U{A0}' || c == '\U{1680}'
    || ('\U{2000}' <= c <= '\U{200A}')
    || c == '\U{2028}' || c == '\U{2029}' || c == '\U{202F}' || c == '\U{205F}' || c == '\U{3000}'
  }

  /** `char::is_control`: the general category Cc. */
  predicate IsControl(c: char) {
    c <= '\U{1F}' || ('\U{7F}' <= c <= '\U{9F}')
  }

  /** `str::contains` with a string pattern: `s` occurs contiguously in `text`. */
  predicate Contains(text: string, s: string) {
    exists i | 0 <= i <= |text| - |s| :: OccursAt(text, s, i)
  }

  /** `s` occurs in `text` starting at index `i`. */
  predicate OccursAt(text: string, s: string, i: nat) {
    i + |s| <= |text| && text[i..i + |s|] == s
  }

  lemma ContainsAt(text: string, s: string, i: nat)
    requires i + |s| <= |text| && text[i..i + |s|] == s
    ensures Contains(text, s)
  {
    assert OccursAt(text, s, i);
  }

  /** Occurrence is transitive: a substring of a substring is a substring. */
  lemma ContainsTrans(a: string, b: string, c: string)
    requires Contains(a, b) && Contains(b, c)
    ensures Contains(a, c)
  {
    var i :| 0 <= i <= |a| - |b| && OccursAt(a, b, i);
    var j :| 0 <= j <= |b| - |c| && OccursAt(b, c, j);
    forall k | 0 <= k < |c| ensures a[i + j + k] == c[k] {
      assert b[j + k] == c[k];
      assert a[i + (j + k)] == b[j + k];
    }
    assert a[i + j..i + j + |c|] == c;
    ContainsAt(a, c, i + j);
  }

  lemma ContainsInfix(a: string, b: string, c: string)
    ensures Contains(a + b + c, b)
  {
    assert (a + b + c)[|a|..|a| + |b|] == b;
    ContainsAt(a + b + c, b, |a|);
  }

  lemma ContainsSelf(s: string)
    ensures Contains(s, s)
  {
    ContainsAt(s, s, 0);
  }

  /** A slice of a string occurs in it. */
  lemma ContainsSlice(s: string, i: nat, j: nat)
    requires i <= j <= |s|
    ensures Contains(s, s[i..j])
  {
    ContainsAt(s, s[i..j], i);
  }

  /** Every character of a substring is a character of the string. */
  lemma ContainsChars(text: string, s: string)
    requires Contains(text, s)
    ensures forall c | c in s :: c in text
  {
    var i :| 0 <= i <= |text| - |s| && OccursAt(text, s, i);
    forall c | c in s ensures c in text {
      var k :| 0 <= k < |s| && s[k] == c;
      assert text[i + k] == s[k];
    }
  }

  lemma ContainsSuffix(s: string, pat: string)
    requires s != []
    ensures Contains(s[1..], pat) ==> Contains(s, pat)
  {
    if Contains(s[1..], pat) {
      ContainsSlice(s, 1, |s|);
      assert s[1..|s|] == s[1..];
      ContainsTrans(s, s[1..], pat);
    }
  }

  /** `s` has no whitespace at either end. */
  predicate IsTrimmed(s: string) {
    s == [] || (!IsWhitespace(s[0]) && !IsWhitespace(s[|s| - 1]))
  }

  /** `str::trim_start`. */
  function TrimStart(s: string): (r: string)
    ensures |r| <= |s| && r == s[|s| - |r|..]
    ensures r != [] ==> !IsWhitespace(r[0])
    ensures forall i | 0 <= i < |s| - |r| :: IsWhitespace(s[i])
  {
    if s != [] && IsWhitespace(s[0]) then TrimStart(s[1..]) else s
  }

  /** `str::trim_end`. */
  function TrimEnd(s: string): (r: string)
    ensures |r| <= |s| && r == s[..|r|]
    ensures r != [] ==> !IsWhitespace(r[|r| - 1])
    ensures forall i | |r| <= i < |s| :: IsWhitespace(s[i])
  {
    if s != [] && IsWhitespace(s[|s| - 1]) then TrimEnd(s[..|s| - 1]) else s
  }

  /** `r` occurs in `s` at `i` with nothing but whitespace before and after it. */
  predicate PaddedAt(s: string, r: string, i: nat) {
    && i + |r| <= |s| && s[i..i + |r|] == r
    && (forall k | 0 <= k < i :: IsWhitespace(s[k]))
    && (forall k | i + |r| <= k < |s| :: IsWhitespace(s[k]))
  }

  /**
   * `str::trim`: the result is the part of `s` between its leading and trailing
   * whitespace; it is empty exactly when `s` is all whitespace, and a string that
   * is already trimmed is returned unchanged.
   */
  function Trim(s: string): (r: string)
    ensures IsTrimmed(r)
    ensures forall c | c in r :: c in s
    ensures r == [] <==> forall i | 0 <= i < |s| :: IsWhitespace(s[i])
    ensures IsTrimmed(s) ==> r == s
  {
    var t := TrimStart(s);
    var r := TrimEnd(t);
    assert forall c | c in r :: c in t;
    r
  }

  /** The trimmed text sits in `s` with only whitespace before and after it. */
  lemma TrimExact(s: string)
    ensures exists i :: PaddedAt(s, Trim(s), i)
  {
    var t := TrimStart(s);
    var r := TrimEnd(t);
    assert Trim(s) == r;
    TrimsPadded(s, t, r);
  }

  /** Trimming the start and then the end leaves the text padded at the length cut from the start. */
  lemma TrimsPadded(s: string, t: string, r: string)
    requires |t| <= |s| && t == s[|s| - |t|..] && forall k | 0 <= k < |s| - |t| :: IsWhitespace(s[k])
    requires |r| <= |t| && r == t[..|r|] && forall k | |r| <= k < |t| :: IsWhitespace(t[k])
    ensures PaddedAt(s, r, |s| - |t|)
  {
    var i := |s| - |t|;
    assert s[i..i + |r|] == r by {
      assert s[i..i + |r|] == s[i..][..|r|];
    }
    forall k | i + |r| <= k < |s|
      ensures IsWhitespace(s[k])
    {
      assert s[k] == t[k - i];
    }
  }

  /** The trimmed text is a substring of the text. */
  lemma TrimContained(s: string)
    ensures Contains(s, Trim(s))
  {
    TrimExact(s);
    var i: nat :| PaddedAt(s, Trim(s), i);
    ContainsAt(s, Trim(s), i);
  }

  /** Length of the leading run of non-whitespace characters. */
  function WordEnd(s: string): (n: nat)
    ensures n <= |s|
    ensures n < |s| ==> IsWhitespace(s[n])
    ensures forall i | 0 <= i < n :: !IsWhitespace(s[i])
  {
    if s == [] || IsWhitespace(s[0]) then 0 else 1 + WordEnd(s[1..])
  }

  /**
   * `str::split_whitespace`: the maximal runs of non-whitespace characters, in
   * order. Every word is non-empty, holds no whitespace and occurs in `s`; there
   * are no words exactly when `s` is all whitespace.
   */
  function SplitWhitespace(s: string): (words: seq<string>)
    ensures words == [] <==> forall i | 0 <= i < |s| :: IsWhitespace(s[i])
    decreases |s|
  {
    if s == [] then []
    else if IsWhitespace(s[0]) then SplitWhitespace(s[1..])
    else
      var n := WordEnd(s);
      [s[..n]] + SplitWhitespace(s[n..])
  }

  /** A word of `str::split_whitespace` is a non-empty run of non-whitespace that occurs in `s`. */
  predicate IsWordOf(s: string, w: string) {
    w != [] && Contains(s, w) && forall c | c in w :: !IsWhitespace(c)
  }

  lemma {:induction false} SplitWhitespaceWord(s: string, k: nat)
    requires k < |SplitWhitespace(s)|
    ensures IsWordOf(s, SplitWhitespace(s)[k])
    decreases |s|
  {
    if IsWhitespace(s[0]) {
      SplitWhitespaceWord(s[1..], k);
      WordOfSuffix(s, 1, SplitWhitespace(s[1..])[k]);
    } else {
      var n := WordEnd(s);
      if k == 0 {
        HeadWord(s, n);
      } else {
        SplitWhitespaceWord(s[n..], k - 1);
        WordOfSuffix(s, n, SplitWhitespace(s[n..])[k - 1]);
      }
    }
  }

  lemma WordOfSuffix(s: string, n: nat, w: string)
    requires n <= |s| && IsWordOf(s[n..], w)
    ensures IsWordOf(s, w)
  {
    SuffixContained(s, n);
    ContainsTrans(s, s[n..], w);
  }

  lemma HeadWord(s: string, n: nat)
    requires s != [] && !IsWhitespace(s[0]) && n == WordEnd(s)
    ensures IsWordOf(s, s[..n])
  {
    ContainsSlice(s, 0, n);
    assert s[0..n] == s[..n];
    forall c | c in s[..n] ensures !IsWhitespace(c) {
      var k :| 0 <= k < n && s[k] == c;
    }
  }

  lemma SuffixContained(s: string, i: nat)
    requires i <= |s|
    ensures Contains(s, s[i..])
  {
    assert s[i..i + |s[i..]|] == s[i..];
    ContainsAt(s, s[i..], i);
  }

  lemma SplitWhitespaceWords(s: string)
    ensures forall w | w in SplitWhitespace(s) :: IsWordOf(s, w)
  {
    forall w | w in SplitWhitespace(s) ensures IsWordOf(s, w) {
      var k :| 0 <= k < |SplitWhitespace(s)| && SplitWhitespace(s)[k] == w;
      SplitWhitespaceWord(s, k);
    }
  }

  /** `gaps[0] + words[0] + gaps[1] + … + words[n - 1] + gaps[n]`. */
  function Interleave(gaps: seq<string>, words: seq<string>): string
    requires |gaps| == |words| + 1
    decreases |words|
  {
    if words == [] then gaps[0] else gaps[0] + words[0] + Interleave(gaps[1..], words[1..])
  }

  /**
   * `s` is `words` laid out between `gaps`: every word is a non-empty run of
   * non-whitespace, every gap is whitespace, and the gaps between two words are
   * not empty. The words are then the maximal non-whitespace runs of `s`, in order.
   */
  ghost predicate SeparatedBy(s: string, words: seq<string>, gaps: seq<string>) {
    && |gaps| == |words| + 1
    && (forall i | 0 <= i < |words| :: words[i] != [] && forall c | c in words[i] :: !IsWhitespace(c))
    && (forall i | 0 <= i < |gaps| :: forall c | c in gaps[i] :: IsWhitespace(c))
    && (forall i | 0 < i < |words| :: gaps[i] != [])
    && s == Interleave(gaps, words)
  }

  /** `words` are the maximal runs of non-whitespace of `s`, in order. */
  ghost predicate IsRunsOf(s: string, words: seq<string>) {
    exists gaps :: SeparatedBy(s, words, gaps)
  }

  /** `str::split_whitespace` yields exactly the maximal runs of non-whitespace, in order. */
  lemma SplitWhitespaceRuns(s: string)
    ensures IsRunsOf(s, SplitWhitespace(s))
  {
    SplitWhitespaceGaps(s);
  }

  /** The whitespace around and between the words of `str::split_whitespace`. */
  ghost function Gaps(s: string): (gaps: seq<string>)
    ensures |gaps| == |SplitWhitespace(s)| + 1
    decreases |s|
  {
    if s == [] then [[]]
    else if IsWhitespace(s[0]) then
      var g := Gaps(s[1..]);
      [[s[0]] + g[0]] + g[1..]
    else
      [[]] + Gaps(s[WordEnd(s)..])
  }

  lemma {:induction false} SplitWhitespaceGaps(s: string)
    ensures SeparatedBy(s, SplitWhitespace(s), Gaps(s))
    decreases |s|
  {
    if s == [] {
    } else if IsWhitespace(s[0]) {
      SplitWhitespaceGaps(s[1..]);
      SeparatedSpaceStep(s, SplitWhitespace(s[1..]), Gaps(s[1..]));
    } else {
      var n := WordEnd(s);
      SplitWhitespaceGaps(s[n..]);
      SeparatedWordStep(s, n, SplitWhitespace(s[n..]), Gaps(s[n..]));
    }
  }

  /** Whitespace around a text adds no run of non-whitespace. */
  lemma RunsPadded(s: string, t: string, i: nat)
    requires PaddedAt(s, t, i)
    ensures IsRunsOf(s, SplitWhitespace(t))
  {
    var lead, trail := s[..i], s[i + |t|..];
    assert s == lead + t + trail;
    assert forall c | c in trail :: IsWhitespace(c) by {
      forall c | c in trail ensures IsWhitespace(c) {
        var k :| 0 <= k < |trail| && trail[k] == c;
        assert s[i + |t| + k] == c;
      }
    }
    var words, gaps := SplitWhitespace(t), Gaps(t);
    SplitWhitespaceGaps(t);
    SeparatedPadFront(t, words, gaps, lead, lead + t);
    var g1 := [lead + gaps[0]] + gaps[1..];
    SeparatedPadBack(lead + t, words, g1, trail, s);
    RunsWitness(s, words, g1[..|words|] + [g1[|words|] + trail]);
  }

  lemma RunsWitness(s: string, words: seq<string>, gaps: seq<string>)
    requires SeparatedBy(s, words, gaps)
    ensures IsRunsOf(s, words)
  {
  }

  /** A leading whitespace character followed by a separated text. */
  lemma SeparatedSpaceStep(s: string, words: seq<string>, gaps: seq<string>)
    requires s != [] && IsWhitespace(s[0])
    requires SeparatedBy(s[1..], words, gaps)
    ensures SeparatedBy(s, words, [[s[0]] + gaps[0]] + gaps[1..])
  {
    assert [s[0]] + s[1..] == s;
    SeparatedPadFront(s[1..], words, gaps, [s[0]], s);
  }

  /** A leading word followed by a separated text (which then starts with whitespace). */
  lemma SeparatedWordStep(s: string, n: nat, rest: seq<string>, gaps: seq<string>)
    requires s != [] && !IsWhitespace(s[0]) && n == WordEnd(s)
    requires SeparatedBy(s[n..], rest, gaps)
    ensures SeparatedBy(s, [s[..n]] + rest, [[]] + gaps)
  {
    var words, gs := [s[..n]] + rest, [[]] + gaps;
    HeadWord(s, n);
    FirstGapAfterWord(s, n, rest, gaps);
    forall i | 0 <= i < |words|
      ensures words[i] != [] && forall c | c in words[i] :: !IsWhitespace(c)
    {
      if i > 0 {
        assert words[i] == rest[i - 1];
      }
    }
    forall i | 0 <= i < |gs|
      ensures forall c | c in gs[i] :: IsWhitespace(c)
    {
      if i > 0 {
        assert gs[i] == gaps[i - 1];
      }
    }
    forall i | 0 < i < |words|
      ensures gs[i] != []
    {
      assert gs[i] == gaps[i - 1];
    }
    InterleaveWord(s[..n], rest, gaps);
    assert s[..n] + s[n..] == s;
  }

  /** A word in front with an empty gap before it. */
  lemma InterleaveWord(w: string, rest: seq<string>, gaps: seq<string>)
    requires |gaps| == |rest| + 1
    ensures Interleave([[]] + gaps, [w] + rest) == w + Interleave(gaps, rest)
  {
    assert ([[]] + gaps)[1..] == gaps;
    assert ([w] + rest)[1..] == rest;
  }

  /** After a maximal word, the next word, if any, follows a non-empty gap. */
  lemma FirstGapAfterWord(s: string, n: nat, rest: seq<string>, gaps: seq<string>)
    requires n == WordEnd(s)
    requires SeparatedBy(s[n..], rest, gaps)
    ensures rest != [] ==> gaps[0] != []
  {
    if rest != [] {
      InterleaveHead(gaps, rest);
      assert rest[0][0] in rest[0];
      assert s[n..][0] == s[n];
    }
  }

  /** With an empty first gap, the text starts with the first word. */
  lemma InterleaveHead(gaps: seq<string>, words: seq<string>)
    requires |gaps| == |words| + 1 && words != [] && words[0] != []
    ensures gaps[0] == [] ==> |Interleave(gaps, words)| > 0 && Interleave(gaps, words)[0] == words[0][0]
  {
  }

  /** Whitespace in front of a separated text joins its first gap. */
  lemma SeparatedPadFront(s: string, words: seq<string>, gaps: seq<string>, p: string, ps: string)
    requires SeparatedBy(s, words, gaps)
    requires forall c | c in p :: IsWhitespace(c)
    requires ps == p + s
    ensures SeparatedBy(ps, words, [p + gaps[0]] + gaps[1..])
  {
    var gaps' := [p + gaps[0]] + gaps[1..];
    assert gaps'[1..] == gaps[1..];
    if words != [] {
      assert p + s == (p + gaps[0]) + words[0] + Interleave(gaps[1..], words[1..]);
    }
  }

  /** Whitespace after a separated text joins its last gap. */
  lemma SeparatedPadBack(s: string, words: seq<string>, gaps: seq<string>, p: string, sp: string)
    requires SeparatedBy(s, words, gaps)
    requires forall c | c in p :: IsWhitespace(c)
    requires sp == s + p
    ensures SeparatedBy(sp, words, gaps[..|words|] + [gaps[|words|] + p])
  {
    InterleavePadBack(gaps, words, p);
  }

  lemma {:induction false} InterleavePadBack(gaps: seq<string>, words: seq<string>, p: string)
    requires |gaps| == |words| + 1
    ensures Interleave(gaps[..|words|] + [gaps[|words|] + p], words) == Interleave(gaps, words) + p
    decreases |words|
  {
    var gaps' := gaps[..|words|] + [gaps[|words|] + p];
    if words != [] {
      InterleavePadBack(gaps[1..], words[1..], p);
      assert gaps'[1..] == gaps[1..][..|words[1..]|] + [gaps[1..][|words[1..]|] + p];
    }
  }

  /** Index of the first `c` in `s`, or `|s|` when there is none. */
  function IndexOf(s: string, c: char): (i: nat)
    ensures i <= |s| && (i < |s| ==> s[i] == c) && c !in s[..i]
  {
    if s == [] then 0
    else if s[0] == c then 0
    else
      var k := IndexOf(s[1..], c);
      assert s[..k + 1] == [s[0]] + s[1..][..k];
      1 + k
  }

  /**
   * `str::split` on a character: the pieces between occurrences of `sep`; there is
   * always at least one piece and no piece contains `sep`.
   */
  function Split(s: string, sep: char): (parts: seq<string>)
    ensures |parts| >= 1
    ensures forall p | p in parts :: sep !in p
    decreases |s|
  {
    var i := IndexOf(s, sep);
    if i == |s| then [s] else [s[..i]] + Split(s[i + 1..], sep)
  }

  /** `[String]::join`. */
  function Join(parts: seq<string>, sep: string): string {
    if parts == [] then ""
    else if |parts| == 1 then parts[0]
    else parts[0] + sep + Join(parts[1..], sep)
  }

  lemma JoinCons(x: string, rest: seq<string>, sep: string)
    requires rest != []
    ensures Join([x] + rest, sep) == x + sep + Join(rest, sep)
  {
    assert ([x] + rest)[1..] == rest;
  }

  /** Joining the pieces of a split with the separator gives the string back. */
  lemma {:induction false} JoinSplit(s: string, sep: char)
    ensures Join(Split(s, sep), [sep]) == s
    decreases |s|
  {
    var i := IndexOf(s, sep);
    if i < |s| {
      var rest := Split(s[i + 1..], sep);
      assert Split(s, sep) == [s[..i]] + rest;
      JoinCons(s[..i], rest, [sep]);
      JoinSplit(s[i + 1..], sep);
      assert s == s[..i] + [sep] + s[i + 1..];
    }
  }

  /** Every piece of a join occurs in the joined string. */
  lemma {:induction false} JoinContainsPart(parts: seq<string>, sep: string, k: nat)
    requires k < |parts|
    ensures Contains(Join(parts, sep), parts[k])
  {
    if |parts| == 1 {
      ContainsSelf(parts[0]);
    } else if k == 0 {
      ContainsInfix([], parts[0], sep + Join(parts[1..], sep));
      assert [] + parts[0] + (sep + Join(parts[1..], sep)) == Join(parts, sep);
    } else {
      JoinContainsPart(parts[1..], sep, k - 1);
      ContainsInfix(parts[0] + sep, Join(parts[1..], sep), []);
      assert parts[0] + sep + Join(parts[1..], sep) + [] == Join(parts, sep);
      ContainsTrans(Join(parts, sep), Join(parts[1..], sep), parts[k]);
    }
  }

  function LowerAscii(c: char): char {
    if 'A' <= c <= 'Z' then (c as int + 32) as char else c
  }

  predicate IsUpperAscii(c: char) {
    'A' <= c <= 'Z'
  }

  /**
   * `str::to_lowercase` on ASCII text: each capital letter becomes its small
   * letter, every other character is kept, and no capital letter is left.
   */
  function ToLowerAscii(s: string): (r: string)
    ensures |r| == |s|
    ensures forall i | 0 <= i < |s| :: !IsUpperAscii(r[i])
    ensures forall i | 0 <= i < |s| && !IsUpperAscii(s[i]) :: r[i] == s[i]
    ensures forall i | 0 <= i < |s| && IsUpperAscii(s[i]) :: r[i] as int == s[i] as int + 32
  {
    seq(|s|, i requires 0 <= i < |s| => LowerAscii(s[i]))
  }

  /** Lower-casing twice is lower-casing once. */
  lemma ToLowerAsciiIdempotent(s: string)
    ensures ToLowerAscii(ToLowerAscii(s)) == ToLowerAscii(s)
  {
  }

  /**
   * `str::replace`: every non-overlapping occurrence of `pat`, scanning from the
   * left, is replaced by `rep`; text without an occurrence is returned unchanged.
   */
  function ReplaceAll(s: string, pat: string, rep: string): string
    requires pat != []
    decreases |s|
  {
    if |s| < |pat| then s
    else if OccursAt(s, pat, 0) then rep + ReplaceAll(s[|pat|..], pat, rep)
    else [s[0]] + ReplaceAll(s[1..], pat, rep)
  }

  /** Text in which `pat` does not occur comes back from `replace` unchanged. */
  lemma {:induction false} ReplaceAllAbsent(s: string, pat: string, rep: string)
    requires pat != [] && !Contains(s, pat)
    ensures ReplaceAll(s, pat, rep) == s
    decreases |s|
  {
    if |s| >= |pat| {
      if OccursAt(s, pat, 0) {
        assert false;
      }
      ContainsSuffix(s, pat);
      ReplaceAllAbsent(s[1..], pat, rep);
      assert s == [s[0]] + s[1..];
    }
  }

  /** The first occurrence of the non-empty `pat` in `s` starts at `n`. */
  predicate FirstOccurrence(s: string, pat: string, n: nat) {
    pat != [] && OccursAt(s, pat, n) && forall i | 0 <= i < n :: !OccursAt(s, pat, i)
  }

  /**
   * The defining property of left-to-right replacement: when the first occurrence
   * of `pat` starts at `n`, the result is the text before it, then `rep`, then the
   * replacement applied to what follows that occurrence.
   */
  lemma {:induction false} ReplaceAllFirst(s: string, pat: string, rep: string, n: nat)
    requires FirstOccurrence(s, pat, n)
    ensures ReplaceAll(s, pat, rep) == s[..n] + rep + ReplaceAll(s[n + |pat|..], pat, rep)
    decreases n, 1
  {
    if n == 0 {
      ReplaceAllHit(s, pat, rep);
    } else {
      FirstOccurrenceShift(s, pat, n);
      ReplaceAllFirstStep(s, pat, rep, n);
    }
  }

  /** Dropping the first character moves the first occurrence one place to the left. */
  lemma FirstOccurrenceShift(s: string, pat: string, n: nat)
    requires 0 < n && FirstOccurrence(s, pat, n)
    ensures !OccursAt(s, pat, 0) && n + |pat| <= |s|
    ensures FirstOccurrence(s[1..], pat, n - 1)
  {
    var t := s[1..];
    OccursShift(s, t, pat, n - 1);
    forall i | 0 <= i < n - 1 ensures !OccursAt(t, pat, i) {
      OccursShift(s, t, pat, i);
    }
  }

  /** The step of `ReplaceAllFirst`: a miss at the front carries the split of the rest over to `s`. */
  lemma {:induction false} ReplaceAllFirstStep(s: string, pat: string, rep: string, n: nat)
    requires pat != [] && 0 < n && n + |pat| <= |s| && !OccursAt(s, pat, 0)
    requires FirstOccurrence(s[1..], pat, n - 1)
    ensures ReplaceAll(s, pat, rep) == s[..n] + rep + ReplaceAll(s[n + |pat|..], pat, rep)
    decreases n, 0
  {
    var t := s[1..];
    ReplaceAllFirst(t, pat, rep, n - 1);
    ReplaceAllMiss(s, pat, rep);
    TailSlices(s, n, n + |pat|);
    PrefixStep(ReplaceAll(s, pat, rep), ReplaceAll(t, pat, rep), [s[0]], t[..n - 1], s[..n],
               rep, ReplaceAll(s[n + |pat|..], pat, rep));
  }

  /** Slices of the tail of `s`, seen as slices of `s`. */
  lemma TailSlices(s: string, n: nat, m: nat)
    requires 0 < n <= m <= |s|
    ensures s[1..][m - 1..] == s[m..] && [s[0]] + s[1..][..n - 1] == s[..n]
  {
  }

  /** One more leading piece in front of a split result. */
  lemma PrefixStep(whole: string, tail: string, head: string, before: string, prefix: string,
                   rep: string, after: string)
    requires whole == head + tail && tail == before + rep + after && prefix == head + before
    ensures whole == prefix + rep + after
  {
  }

  /** Replacement at an occurrence of `pat` at the start. */
  lemma ReplaceAllHit(s: string, pat: string, rep: string)
    requires pat != [] && |pat| <= |s| && s[..|pat|] == pat
    ensures ReplaceAll(s, pat, rep) == rep + ReplaceAll(s[|pat|..], pat, rep)
  {
    assert OccursAt(s, pat, 0);
  }

  /** Replacement where no occurrence of `pat` starts at the first character. */
  lemma ReplaceAllMiss(s: string, pat: string, rep: string)
    requires pat != [] && s != [] && !OccursAt(s, pat, 0)
    ensures ReplaceAll(s, pat, rep) == [s[0]] + ReplaceAll(s[1..], pat, rep)
  {
    if |s| < |pat| {
      assert s == [s[0]] + s[1..];
    }
  }

  /** An occurrence in the tail is an occurrence one place later in the whole. */
  lemma OccursShift(s: string, s': string, pat: string, i: nat)
    requires s != [] && s[1..] == s'
    ensures OccursAt(s', pat, i) <==> OccursAt(s, pat, i + 1)
  {
    if i + |pat| <= |s'| {
      assert s[i + 1..i + 1 + |pat|] == s'[i..i + |pat|];
    }
  }

  /** Number of bytes of `c` in UTF-8. */
  function Utf8Len(c: char): (n: nat)
    ensures 1 <= n <= 4
  {
    if c as int < 0x80 then 1
    else if c as int < 0x800 then 2
    else if c as int < 0x1_0000 then 3
    else 4
  }

  /** `str::len`: the length of `s` in UTF-8 bytes. */
  function ByteLen(s: string): (n: nat)
    ensures |s| <= n <= 4 * |s|
  {
    if s == [] then 0 else Utf8Len(s[0]) + ByteLen(s[1..])
  }

  lemma {:induction false} ByteLenConcat(a: string, b: string)
    ensures ByteLen(a + b) == ByteLen(a) + ByteLen(b)
  {
    if a != [] {
      assert (a + b)[0] == a[0];
      assert (a + b)[1..] == a[1..] + b;
      ByteLenConcat(a[1..], b);
      assert ByteLen(a + b) == Utf8Len(a[0]) + ByteLen(a[1..] + b);
    } else {
      assert a + b == b;
    }
  }

  /** `u64::to_string` / `i32::to_string` for a non-negative number. */
  function NatToString(n: nat): (r: string)
    ensures r != [] && forall c | c in r :: '0' <= c <= '9'
  {
    var d := ['0', '1', '2', '3', '4', '5', '6', '7', '8', '9'][n % 10];
    if n < 10 then [d] else NatToString(n / 10) + [d]
  }

  /**
   * `Ord for str`: lexicographic order of code points, which is the byte order of
   * the UTF-8 encodings.
   */
  predicate LexLess(a: string, b: string) {
    if a == [] then b != []
    else b != [] && (a[0] < b[0] || (a[0] == b[0] && LexLess(a[1..], b[1..])))
  }

  lemma {:induction false} LexLessIrreflexive(a: string)
    ensures !LexLess(a, a)
  {
    if a != [] {
      LexLessIrreflexive(a[1..]);
    }
  }

  lemma {:induction false} LexLessTrans(a: string, b: string, c: string)
    requires LexLess(a, b) && LexLess(b, c)
    ensures LexLess(a, c)
  {
    if a != [] && b != [] && c != [] && a[0] == b[0] == c[0] {
      LexLessTrans(a[1..], b[1..], c[1..]);
    }
  }

  lemma {:induction false} LexLessTotal(a: string, b: string)
    requires a != b
    ensures LexLess(a, b) || LexLess(b, a)
  {
    if a != [] && b != [] && a[0] == b[0] {
      assert a == [a[0]] + a[1..] && b == [b[0]] + b[1..];
      LexLessTotal(a[1..], b[1..]);
    }
  }
}
