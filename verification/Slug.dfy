/** Venue slugs: rewriting a name into the grammar that the venues table checks. */
module Slug {
  import opened Common
  import opened Text
  import Base64

  predicate IsWordChar(c: char) { 'a' <= c <= 'z' || '0' <= c <= '9' }

  predicate IsWord(w: string) {
    w != "" && forall c :: c in w ==> IsWordChar(c)
  }

  /** The table's CHECK: ^[a-z0-9]+(?:-[a-z0-9]+)*$ */
  ghost predicate InGrammar(s: string) {
    exists words: seq<string> :: words != [] && (forall w :: w in words ==> IsWord(w)) && s == Join(words, '-')
  }

  /** Lower-casing rune by rune; the law fixes what happens to ASCII and leaves the rest of Unicode open. */
  ghost predicate LowersAscii(lower: char -> char) {
    forall c: char :: c as int < 128 ==> lower(c) == if 'A' <= c <= 'Z' then (c as int + 32) as char else c
  }

  /** White space has no lower case among the letters and digits. */
  ghost predicate LowersSpaces(lower: char -> char) {
    forall c: char :: IsSpace(c) ==> !IsWordChar(lower(c))
  }

  function ToLower(lower: char -> char, s: string): string {
    seq(|s|, i requires 0 <= i < |s| => lower(s[i]))
  }

  function SkipOthers(s: string): (rest: string)
    ensures |rest| <= |s|
    ensures rest != "" ==> IsWordChar(rest[0])
    ensures rest == s[|s| - |rest|..]
  {
    if s != "" && !IsWordChar(s[0]) then SkipOthers(s[1..]) else s
  }

  /** Every maximal run of other characters becomes one dash. */
  function ReplaceRuns(s: string): string
    decreases |s|
  {
    if s == "" then ""
    else if IsWordChar(s[0]) then [s[0]] + ReplaceRuns(s[1..])
    else "-" + ReplaceRuns(SkipOthers(s[1..]))
  }

  function TrimLeftDashes(s: string): string {
    if s != "" && s[0] == '-' then TrimLeftDashes(s[1..]) else s
  }

  function TrimRightDashes(s: string): string {
    if s != "" && s[|s| - 1] == '-' then TrimRightDashes(s[..|s| - 1]) else s
  }

  function Slugify(lower: char -> char, value: string): string {
    TrimRightDashes(TrimLeftDashes(ReplaceRuns(ToLower(lower, TrimSpace(value)))))
  }

  // ----- The grammar, character by character -----

  predicate DashedWords(s: string) {
    && (forall i :: 0 <= i < |s| ==> s[i] == '-' || IsWordChar(s[i]))
    && (forall i :: 0 < i < |s| ==> !(s[i - 1] == '-' && s[i] == '-'))
  }

  predicate WellFormed(s: string) {
    s != "" && DashedWords(s) && s[0] != '-' && s[|s| - 1] != '-'
  }

  /** base, a dash, cut: where each character of the joined text comes from. */
  lemma JoinedChars(base: string, cut: string)
    ensures
      var s := base + "-" + cut;
      && |s| == |base| + 1 + |cut| && s[|base|] == '-'
      && (forall i :: 0 <= i < |base| ==> s[i] == base[i])
      && (forall i :: |base| < i < |s| ==> s[i] == cut[i - |base| - 1])
  {
  }

  lemma JoinedIsDashedWords(base: string, cut: string)
    requires base != "" && DashedWords(base) && base[|base| - 1] != '-'
    requires cut != "" && DashedWords(cut) && cut[0] != '-'
    ensures DashedWords(base + "-" + cut)
  {
    var s := base + "-" + cut;
    JoinedChars(base, cut);
    forall i | 0 < i < |s|
      ensures !(s[i - 1] == '-' && s[i] == '-')
    {
      if i > |base| + 1 {
        var j := i - |base| - 1;
        assert s[i] == cut[j] && s[i - 1] == cut[j - 1];
      }
    }
  }

  lemma JoinedIsWellFormed(base: string, cut: string)
    requires WellFormed(base)
    requires cut != "" && DashedWords(cut) && cut[0] != '-'
    ensures WellFormed(base + "-" + cut) <==> cut[|cut| - 1] != '-'
  {
    JoinedIsDashedWords(base, cut);
    JoinedChars(base, cut);
  }

  lemma WordIsWellFormed(w: string)
    requires IsWord(w)
    ensures WellFormed(w)
  {
    assert forall i :: 0 <= i < |w| ==> w[i] in w;
  }

  lemma {:induction false} WordsMakeWellFormed(words: seq<string>)
    requires words != [] && forall w :: w in words ==> IsWord(w)
    ensures WellFormed(Join(words, '-'))
  {
    WordIsWellFormed(words[0]);
    if |words| > 1 {
      WordsMakeWellFormed(words[1..]);
      JoinedIsWellFormed(words[0], Join(words[1..], '-'));
    }
  }

  lemma {:induction false} WellFormedSplitsIntoWords(s: string)
    requires WellFormed(s)
    ensures forall w :: w in Split(s, '-') ==> IsWord(w)
    decreases |s|
  {
    assert IsWordChar(s[0]);
    if |s| == 1 {
      assert Split(s[1..], '-') == [""];
    } else if s[1] == '-' {
      WellFormedSplitsIntoWords(s[2..]);
      assert s[1..][1..] == s[2..];
      assert Split(s[1..], '-') == [""] + Split(s[2..], '-');
      assert [s[0]] + "" == [s[0]];
      assert Split(s, '-') == [[s[0]]] + Split(s[2..], '-');
    } else {
      WellFormedSplitsIntoWords(s[1..]);
      var rest := Split(s[1..], '-');
      assert IsWord(rest[0]);
      assert Split(s, '-') == [[s[0]] + rest[0]] + rest[1..];
    }
  }

  lemma GrammarIsWellFormed(s: string)
    ensures InGrammar(s) <==> WellFormed(s)
  {
    if WellFormed(s) {
      WellFormedSplitsIntoWords(s);
      JoinOfSplit(s, '-');
    }
    if InGrammar(s) {
      var words: seq<string> :| words != [] && (forall w :: w in words ==> IsWord(w)) && s == Join(words, '-');
      WordsMakeWellFormed(words);
    }
  }

  // ----- What slugify produces -----

  lemma Prepended(c: char, r: string)
    requires DashedWords(r)
    requires IsWordChar(c) || (c == '-' && (r == "" || r[0] != '-'))
    ensures DashedWords([c] + r)
  {
    var s := [c] + r;
    assert forall i :: 0 <= i < |r| ==> s[i + 1] == r[i];
    forall i | 0 < i < |s|
      ensures !(s[i - 1] == '-' && s[i] == '-')
    {
      assert s[i] == r[i - 1] && (i > 1 ==> s[i - 1] == r[i - 2]);
    }
  }

  lemma {:induction false} RunsBecomeDashes(s: string)
    ensures DashedWords(ReplaceRuns(s))
    ensures s != "" && IsWordChar(s[0]) ==> ReplaceRuns(s) != "" && ReplaceRuns(s)[0] == s[0]
    ensures ReplaceRuns(s) == "" <==> s == ""
    decreases |s|
  {
    if s == "" {
    } else if IsWordChar(s[0]) {
      RunsBecomeDashes(s[1..]);
      Prepended(s[0], ReplaceRuns(s[1..]));
    } else {
      RunsBecomeDashes(SkipOthers(s[1..]));
      Prepended('-', ReplaceRuns(SkipOthers(s[1..])));
    }
  }

  lemma {:induction false} TrimmedLeft(s: string)
    requires DashedWords(s)
    ensures var t := TrimLeftDashes(s); DashedWords(t) && (t != "" ==> t[0] != '-')
  {
    if s != "" && s[0] == '-' {
      TrimmedLeft(s[1..]);
    }
  }

  lemma {:induction false} TrimmedRight(s: string)
    requires DashedWords(s) && (s != "" ==> s[0] != '-')
    ensures var t := TrimRightDashes(s); t == "" || WellFormed(t)
  {
    if s != "" && s[|s| - 1] == '-' {
      TrimmedRight(s[..|s| - 1]);
    }
  }

  /** A slug is empty or in the grammar, for every input. */
  lemma SlugIsEmptyOrInGrammar(lower: char -> char, value: string)
    ensures Slugify(lower, value) == "" || InGrammar(Slugify(lower, value))
  {
    var lowered := ToLower(lower, TrimSpace(value));
    RunsBecomeDashes(lowered);
    TrimmedLeft(ReplaceRuns(lowered));
    TrimmedRight(TrimLeftDashes(ReplaceRuns(lowered)));
    GrammarIsWellFormed(Slugify(lower, value));
  }

  function WordChars(s: string): string {
    if s == "" then "" else (if IsWordChar(s[0]) then [s[0]] else "") + WordChars(s[1..])
  }

  lemma {:induction false} WordCharsConcat(s: string, t: string)
    ensures WordChars(s + t) == WordChars(s) + WordChars(t)
  {
    if s == "" {
      assert s + t == t;
    } else {
      assert (s + t)[1..] == s[1..] + t && (s + t)[0] == s[0];
      WordCharsConcat(s[1..], t);
      var here := if IsWordChar(s[0]) then [s[0]] else "";
      assert here + (WordChars(s[1..]) + WordChars(t)) == (here + WordChars(s[1..])) + WordChars(t);
    }
  }

  lemma {:induction false} SkippingLosesNothing(s: string)
    ensures WordChars(SkipOthers(s)) == WordChars(s)
  {
    if s != "" && !IsWordChar(s[0]) {
      SkippingLosesNothing(s[1..]);
    }
  }

  lemma {:induction false} ReplacingLosesNothing(s: string)
    ensures WordChars(ReplaceRuns(s)) == WordChars(s)
    decreases |s|
  {
    if s == "" {
    } else if IsWordChar(s[0]) {
      ReplacingLosesNothing(s[1..]);
    } else {
      ReplacingLosesNothing(SkipOthers(s[1..]));
      SkippingLosesNothing(s[1..]);
      WordCharsConcat("-", ReplaceRuns(SkipOthers(s[1..])));
      assert WordChars("-") == WordChars("-"[1..]);
    }
  }

  lemma {:induction false} TrimmingLeftLosesNothing(s: string)
    ensures WordChars(TrimLeftDashes(s)) == WordChars(s)
  {
    if s != "" && s[0] == '-' {
      TrimmingLeftLosesNothing(s[1..]);
    }
  }

  lemma {:induction false} TrimmingRightLosesNothing(s: string)
    ensures WordChars(TrimRightDashes(s)) == WordChars(s)
  {
    if s != "" && s[|s| - 1] == '-' {
      TrimmingRightLosesNothing(s[..|s| - 1]);
      WordCharsConcat(s[..|s| - 1], "-");
      assert s == s[..|s| - 1] + "-";
      assert WordChars("-") == WordChars("-"[1..]);
    }
  }

  lemma {:induction false} NoWordChars(s: string)
    requires forall i :: 0 <= i < |s| ==> !IsWordChar(s[i])
    ensures WordChars(s) == ""
  {
    if s != "" {
      NoWordChars(s[1..]);
    }
  }

  lemma LoweredTrimLosesNothing(lower: char -> char, value: string)
    requires LowersSpaces(lower)
    ensures WordChars(ToLower(lower, TrimSpace(value))) == WordChars(ToLower(lower, value))
  {
    var i, j := TrimSpaceIsExact(value);
    var left, right := ToLower(lower, value[..i]), ToLower(lower, value[j..]);
    var middle := ToLower(lower, TrimSpace(value));
    assert ToLower(lower, value) == left + (middle + right);
    NoWordChars(left);
    NoWordChars(right);
    WordCharsConcat(left, middle + right);
    WordCharsConcat(middle, right);
  }

  /** The letters and digits of the lowered name survive, in order; trimming takes none of them away. */
  lemma SlugKeepsWordChars(lower: char -> char, value: string)
    ensures WordChars(Slugify(lower, value)) == WordChars(ToLower(lower, TrimSpace(value)))
    ensures LowersSpaces(lower) ==> WordChars(Slugify(lower, value)) == WordChars(ToLower(lower, value))
  {
    var lowered := ToLower(lower, TrimSpace(value));
    ReplacingLosesNothing(lowered);
    TrimmingLeftLosesNothing(ReplaceRuns(lowered));
    TrimmingRightLosesNothing(TrimLeftDashes(ReplaceRuns(lowered)));
    if LowersSpaces(lower) {
      LoweredTrimLosesNothing(lower, value);
    }
  }

  // ----- Where the dashes stand -----

  /** Any text without letters and digits. */
  ghost predicate IsGap(s: string) {
    forall i :: 0 <= i < |s| ==> !IsWordChar(s[i])
  }

  /** words[0] gaps[0] words[1] gaps[1] ... */
  function Interleaved(words: seq<string>, gaps: seq<string>): string
    requires |words| == |gaps| + 1
  {
    if gaps == [] then words[0] else words[0] + gaps[0] + Interleaved(words[1..], gaps[1..])
  }

  ghost predicate WordsAndGaps(words: seq<string>, gaps: seq<string>) {
    && |words| == |gaps| + 1 && (forall w :: w in words ==> IsWord(w))
    && forall g :: g in gaps ==> g != "" && IsGap(g)
  }

  lemma {:induction false} WordIsCopied(w: string, rest: string)
    requires forall i :: 0 <= i < |w| ==> IsWordChar(w[i])
    ensures ReplaceRuns(w + rest) == w + ReplaceRuns(rest)
  {
    if w == "" {
      assert w + rest == rest;
    } else {
      assert (w + rest)[1..] == w[1..] + rest;
      WordIsCopied(w[1..], rest);
      assert [w[0]] + (w[1..] + ReplaceRuns(rest)) == w + ReplaceRuns(rest);
    }
  }

  lemma {:induction false} GapIsSkipped(gap: string, rest: string)
    requires IsGap(gap) && (rest == "" || IsWordChar(rest[0]))
    ensures SkipOthers(gap + rest) == rest
  {
    if gap == "" {
      assert gap + rest == rest;
    } else {
      assert (gap + rest)[1..] == gap[1..] + rest;
      GapIsSkipped(gap[1..], rest);
    }
  }

  /** A gap before a word, or at the end, becomes one dash. */
  lemma GapBecomesDash(gap: string, rest: string)
    requires gap != "" && IsGap(gap) && (rest == "" || IsWordChar(rest[0]))
    ensures ReplaceRuns(gap + rest) == "-" + ReplaceRuns(rest)
  {
    assert (gap + rest)[1..] == gap[1..] + rest;
    GapIsSkipped(gap[1..], rest);
  }

  function DashFor(gap: string): string {
    if gap == "" then "" else "-"
  }

  lemma WordGapRest(w: string, gap: string, rest: string)
    requires IsWord(w) && gap != "" && IsGap(gap) && rest != "" && IsWordChar(rest[0])
    ensures ReplaceRuns(w + gap + rest) == w + "-" + ReplaceRuns(rest)
  {
    assert forall i :: 0 <= i < |w| ==> w[i] in w;
    assert w + gap + rest == w + (gap + rest);
    WordIsCopied(w, gap + rest);
    GapBecomesDash(gap, rest);
    assert w + ("-" + ReplaceRuns(rest)) == w + "-" + ReplaceRuns(rest);
  }

  lemma WordThenGap(w: string, back: string)
    requires IsWord(w) && IsGap(back)
    ensures ReplaceRuns(w + back) == w + DashFor(back)
  {
    assert forall i :: 0 <= i < |w| ==> w[i] in w;
    WordIsCopied(w, back);
    if back != "" {
      GapBecomesDash(back, "");
      assert back + "" == back;
    }
  }

  lemma RestOfWords(words: seq<string>, gaps: seq<string>)
    requires WordsAndGaps(words, gaps) && gaps != []
    ensures WordsAndGaps(words[1..], gaps[1..]) && IsWord(words[0]) && gaps[0] != "" && IsGap(gaps[0])
  {
    assert gaps[0] in gaps && words[0] in words;
    assert forall g :: g in gaps[1..] ==> g in gaps;
    assert forall w :: w in words[1..] ==> w in words;
  }

  lemma JoinRegrouped(w: string, words: seq<string>, dash: string)
    requires words != []
    ensures w + "-" + (Join(words, '-') + dash) == Join([w] + words, '-') + dash
  {
    JoinMore(w, words, '-');
  }

  lemma TextRegrouped(words: seq<string>, gaps: seq<string>, back: string)
    requires |words| == |gaps| + 1 && gaps != []
    ensures Interleaved(words, gaps) + back == words[0] + gaps[0] + (Interleaved(words[1..], gaps[1..]) + back)
  {
  }

  lemma {:induction false} WordsAreJoined(words: seq<string>, gaps: seq<string>, back: string)
    requires WordsAndGaps(words, gaps) && IsGap(back)
    ensures
      var text := Interleaved(words, gaps) + back;
      text != "" && IsWordChar(text[0]) && ReplaceRuns(text) == Join(words, '-') + DashFor(back)
    decreases |words|
  {
    WordLeads(words, gaps, back);
    if gaps == [] {
      WordThenGap(words[0], back);
    } else {
      var rest := Interleaved(words[1..], gaps[1..]) + back;
      RestOfWords(words, gaps);
      WordsAreJoined(words[1..], gaps[1..], back);
      WordGapRest(words[0], gaps[0], rest);
      TextRegrouped(words, gaps, back);
      JoinRegrouped(words[0], words[1..], DashFor(back));
      assert words == [words[0]] + words[1..];
    }
  }

  lemma DashesComeOff(s: string, front: string, back: string)
    requires WellFormed(s)
    ensures TrimRightDashes(TrimLeftDashes(DashFor(front) + (s + DashFor(back)))) == s
  {
    var t := s + DashFor(back);
    assert ("-" + t)[1..] == t && "" + t == t;
    assert TrimLeftDashes(t) == t;
    if back != "" {
      assert t[..|t| - 1] == s;
    }
  }

  /**
   The slug of a text is its words, joined by single dashes: whatever stands between, before and after them, and
   however much of it.
   */
  lemma SlugOfWords(
    lower: char -> char, value: string, front: string, words: seq<string>, gaps: seq<string>, back: string)
    requires WordsAndGaps(words, gaps) && IsGap(front) && IsGap(back)
    requires
      var lowered := front + Interleaved(words, gaps) + back;
      && |lowered| == |TrimSpace(value)|
      && forall i :: 0 <= i < |lowered| ==> lowered[i] == lower(TrimSpace(value)[i])
    ensures Slugify(lower, value) == Join(words, '-')
  {
    var text := Interleaved(words, gaps) + back;
    assert ToLower(lower, TrimSpace(value)) == front + Interleaved(words, gaps) + back == front + text;
    WordsAreJoined(words, gaps, back);
    FrontBecomesDash(front, text);
    WordsMakeWellFormed(words);
    DashesComeOff(Join(words, '-'), front, back);
  }

  lemma FrontBecomesDash(front: string, text: string)
    requires IsGap(front) && text != "" && IsWordChar(text[0])
    ensures ReplaceRuns(front + text) == DashFor(front) + ReplaceRuns(text)
  {
    if front == "" {
      assert front + text == text;
    } else {
      GapBecomesDash(front, text);
    }
  }

  /** Every text with a letter or digit has such words, so that the theorem above determines every slug. */
  lemma {:induction false} SplitsIntoWords(s: string)
    returns (front: string, words: seq<string>, gaps: seq<string>, back: string)
    requires WordChars(s) != ""
    ensures WordsAndGaps(words, gaps) && IsGap(front) && IsGap(back)
    ensures s == front + Interleaved(words, gaps) + back
    decreases |s|
  {
    if !IsWordChar(s[0]) {
      front, words, gaps, back := SplitsIntoWords(s[1..]);
      assert s == [s[0]] + s[1..];
      front := [s[0]] + front;
      assert s == front + Interleaved(words, gaps) + back;
    } else {
      front, words, gaps, back := WordThenRest(s);
    }
  }

  lemma {:induction false} WordThenRest(s: string)
    returns (front: string, words: seq<string>, gaps: seq<string>, back: string)
    requires s != "" && IsWordChar(s[0])
    ensures WordsAndGaps(words, gaps) && front == "" && IsGap(back)
    ensures s == front + Interleaved(words, gaps) + back
    decreases |s|, 0
  {
    var tail := s[1..];
    front := "";
    assert s == [s[0]] + tail;
    if WordChars(tail) == "" {
      OnlyGaps(tail);
      words, gaps, back := [[s[0]]], [], tail;
    } else if IsWordChar(tail[0]) {
      var f, ws, gs, b := WordThenRest(tail);
      words, gaps, back := [[s[0]] + ws[0]] + ws[1..], gs, b;
      WordGrows(s[0], ws, gs);
      assert s == [s[0]] + (Interleaved(ws, gs) + b);
    } else {
      var f, ws, gs, b := SplitsIntoWords(tail);
      words, gaps, back := [[s[0]]] + ws, [f] + gs, b;
      assert f != "" by {
        WordLeads(ws, gs, b);
      }
      assert words[1..] == ws && gaps[1..] == gs;
      assert s == [s[0]] + (f + Interleaved(ws, gs) + b);
    }
  }

  lemma {:induction false} OnlyGaps(s: string)
    requires WordChars(s) == ""
    ensures IsGap(s)
  {
    if s != "" {
      OnlyGaps(s[1..]);
      assert forall i :: 1 <= i < |s| ==> s[i] == s[1..][i - 1];
    }
  }

  lemma WordGrows(c: char, words: seq<string>, gaps: seq<string>)
    requires WordsAndGaps(words, gaps) && IsWordChar(c)
    ensures WordsAndGaps([[c] + words[0]] + words[1..], gaps)
    ensures Interleaved([[c] + words[0]] + words[1..], gaps) == [c] + Interleaved(words, gaps)
  {
    var more := [[c] + words[0]] + words[1..];
    assert more[1..] == words[1..];
    if gaps != [] {
      assert [c] + words[0] + gaps[0] + Interleaved(words[1..], gaps[1..])
          == [c] + (words[0] + gaps[0] + Interleaved(words[1..], gaps[1..]));
    }
    assert words[0] in words;
  }

  lemma WordLeads(words: seq<string>, gaps: seq<string>, back: string)
    requires WordsAndGaps(words, gaps)
    ensures
      var text := Interleaved(words, gaps) + back;
      text != "" && IsWordChar(text[0])
  {
    assert words[0] in words && words[0][0] in words[0];
  }

  lemma {:induction false} NothingToReplace(s: string)
    requires DashedWords(s) && (s != "" ==> s[|s| - 1] != '-')
    ensures ReplaceRuns(s) == s
    decreases |s|
  {
    if s != "" {
      NothingToReplace(s[1..]);
      assert s == [s[0]] + s[1..];
      if !IsWordChar(s[0]) {
        assert SkipOthers(s[1..]) == s[1..];
      }
    }
  }

  lemma LoweringFixesSlugs(lower: char -> char, s: string)
    requires LowersAscii(lower) && DashedWords(s)
    ensures ToLower(lower, s) == s
  {
    forall i | 0 <= i < |s|
      ensures lower(s[i]) == s[i]
    {
      assert s[i] == '-' || IsWordChar(s[i]);
    }
  }

  lemma WellFormedIsFixed(lower: char -> char, s: string)
    requires LowersAscii(lower) && WellFormed(s)
    ensures Slugify(lower, s) == s
  {
    assert !IsSpace(s[0]) && !IsSpace(s[|s| - 1]) by {
      assert IsWordChar(s[0]) && IsWordChar(s[|s| - 1]);
    }
    LoweringFixesSlugs(lower, s);
    NothingToReplace(s);
  }

  /** The fixed points of slugify are the empty text and the grammar, so slugify is idempotent. */
  lemma SlugFixedPoints(lower: char -> char, s: string)
    requires LowersAscii(lower)
    ensures Slugify(lower, s) == s <==> s == "" || InGrammar(s)
  {
    SlugIsEmptyOrInGrammar(lower, s);
    GrammarIsWellFormed(s);
    if s == "" {
      assert ToLower(lower, s) == s;
    } else if InGrammar(s) {
      WellFormedIsFixed(lower, s);
    }
  }

  lemma SlugIsIdempotent(lower: char -> char, value: string)
    requires LowersAscii(lower)
    ensures Slugify(lower, Slugify(lower, value)) == Slugify(lower, value)
  {
    SlugIsEmptyOrInGrammar(lower, value);
    SlugFixedPoints(lower, Slugify(lower, value));
  }

  // ----- Unique slugs -----

  lemma SlugIsEmptyOrWellFormed(lower: char -> char, value: string)
    ensures Slugify(lower, value) == "" || WellFormed(Slugify(lower, value))
  {
    SlugIsEmptyOrInGrammar(lower, value);
    GrammarIsWellFormed(Slugify(lower, value));
  }

  function Base(lower: char -> char, name: string): (base: string)
    ensures WellFormed(base)
  {
    SlugIsEmptyOrWellFormed(lower, name);
    var base := Slugify(lower, name);
    if base == "" then "venue" else base
  }

  function Cut(suffix: string): string {
    if |suffix| > 7 then suffix[..7] else suffix
  }

  /** None stands for the error that a token without any letter or digit causes. */
  function UniqueSlug(lower: char -> char, name: string, token: string): Option<string> {
    var cut := Cut(Slugify(lower, token));
    if cut == "" then None else Some(Base(lower, name) + "-" + cut)
  }

  predicate CutEndsInDash(lower: char -> char, token: string) {
    var suffix := Slugify(lower, token);
    |suffix| > 7 && suffix[6] == '-'
  }

  lemma Shortened(suffix: string, n: nat)
    requires WellFormed(suffix) && 0 < n <= |suffix|
    ensures DashedWords(suffix[..n]) && suffix[..n][0] != '-'
    ensures n < |suffix| || suffix[..n][n - 1] != '-'
  {
  }

  lemma CutSlug(base: string, suffix: string)
    requires WellFormed(base) && WellFormed(suffix)
    ensures WellFormed(base + "-" + Cut(suffix)) <==> !(|suffix| > 7 && suffix[6] == '-')
  {
    var length := if |suffix| > 7 then 7 else |suffix|;
    assert Cut(suffix) == suffix[..length];
    Shortened(suffix, length);
    JoinedIsWellFormed(base, suffix[..length]);
  }

  /** A produced slug meets the CHECK exactly when the seven-character cut does not end in a dash. */
  lemma UniqueSlugMeetsCheck(lower: char -> char, name: string, token: string)
    requires UniqueSlug(lower, name, token).Some?
    ensures InGrammar(UniqueSlug(lower, name, token).value) <==> !CutEndsInDash(lower, token)
  {
    SlugIsEmptyOrWellFormed(lower, token);
    CutSlug(Base(lower, name), Slugify(lower, token));
    GrammarIsWellFormed(UniqueSlug(lower, name, token).value);
  }

  /** Slug generation itself fails exactly on tokens without a letter or digit. */
  lemma UniqueSlugFails(lower: char -> char, name: string, token: string)
    ensures UniqueSlug(lower, name, token).None? <==> WordChars(ToLower(lower, TrimSpace(token))) == ""
    ensures LowersSpaces(lower) ==> (UniqueSlug(lower, name, token).None? <==> WordChars(ToLower(lower, token)) == "")
  {
    SlugKeepsWordChars(lower, token);
    SlugIsEmptyOrInGrammar(lower, token);
    GrammarIsWellFormed(Slugify(lower, token));
  }

  /**
   A generated slug is the slug of the name, or "venue" if that is empty, a dash, and at most 7 characters of the
   token's slug.
   */
  lemma UniqueSlugBeginsWithTheName(lower: char -> char, name: string, token: string)
    requires UniqueSlug(lower, name, token).Some?
    ensures
      var slug, suffix := UniqueSlug(lower, name, token).value, Slugify(lower, token);
      var base := if Slugify(lower, name) == "" then "venue" else Slugify(lower, name);
      var length := if |suffix| <= 7 then |suffix| else 7;
      && |slug| == |base| + 1 + length && slug[..|base|] == base && slug[|base|] == '-'
      && slug[|base| + 1..] == suffix[..length]
  {
    Parts(Base(lower, name), Cut(Slugify(lower, token)));
  }

  lemma Parts(base: string, cut: string)
    ensures
      var s := base + "-" + cut;
      |s| == |base| + 1 + |cut| && s[..|base|] == base && s[|base|] == '-' && s[|base| + 1..] == cut
  {
  }

  function DashedToken(): (token: string)
    ensures |token| == 43 && token[..7] == "abcdef-"
    ensures forall i :: 7 <= i < 43 ==> token[i] == if i < 42 then 'a' else 'c'
  {
    "abcdef-" + seq(35, _ => 'a') + "c"
  }

  lemma DashedTokenIsWellFormed()
    ensures WellFormed(DashedToken()) && DashedToken()[6] == '-'
  {
    var token := DashedToken();
    assert forall i :: 0 <= i < 7 ==> token[i] == token[..7][i];
  }

  lemma DashedTokenIsDrawn()
    ensures exists random: Bytes :: |random| == 32 && Base64.Encode(Base64.UrlSafe, random) == DashedToken()
  {
    var token := DashedToken();
    DashedTokenIsWellFormed();
    forall c | c in token
      ensures Base64.Value(Base64.UrlSafe, c).Some?
    {
      var i :| 0 <= i < |token| && token[i] == c;
      assert c == '-' || IsWordChar(c);
    }
    Base64.EveryTokenIsDrawn(token);
  }

  /** A token that NewSessionToken can draw, and whose cut ends in a dash. */
  lemma SomeTokenFailsTheCheck(lower: char -> char)
    requires LowersAscii(lower)
    ensures exists random: Bytes :: |random| == 32 && Base64.Encode(Base64.UrlSafe, random) == DashedToken()
    ensures CutEndsInDash(lower, DashedToken())
  {
    DashedTokenIsDrawn();
    DashedTokenIsWellFormed();
    WellFormedIsFixed(lower, DashedToken());
  }
}
