/** nlp_model.py: the hospital chatbot's intent matcher. Text is normalised,
    every pattern of every intent is scored against the user's words, and
    the first intent holding the highest score answers when that score
    reaches the threshold. Characters are classified as in ASCII. */
module HospitalNlp {
  import opened Wrappers

  /** Python's `str.isspace` on ASCII: tab to carriage return, the four
      separators 0x1C to 0x1F, and the space. */
  predicate IsSpace(c: char) {
    '\t' <= c <= '\r' || '\U{1C}' <= c <= '\U{1F}' || c == ' '
  }

  /** The regex class `\w` on ASCII: letters, digits and the underscore. */
  predicate IsWordChar(c: char) {
    'a' <= c <= 'z' || 'A' <= c <= 'Z' || '0' <= c <= '9' || c == '_'
  }

  /** An ASCII upper-case letter, the characters `lower()` changes. */
  predicate IsUpper(c: char) {
    'A' <= c <= 'Z'
  }

  function LowerChar(c: char): char {
    if IsUpper(c) then (c as int + 32) as char else c
  }

  /** `str.lower` on ASCII. */
  function Lower(s: string): string {
    if s == [] then [] else [LowerChar(s[0])] + Lower(s[1..])
  }

  /** Lower-casing keeps the length, leaves no upper-case letter, and keeps
      every character's class. */
  lemma {:induction false} LowerFacts(s: string)
    ensures |Lower(s)| == |s|
    ensures forall i :: 0 <= i < |s| ==> !IsUpper(Lower(s)[i])
    ensures forall i :: 0 <= i < |s| ==>
              (IsWordChar(Lower(s)[i]) <==> IsWordChar(s[i])) && (IsSpace(Lower(s)[i]) <==> IsSpace(s[i]))
  {
    if s != [] {
      LowerFacts(s[1..]);
      assert forall i :: 1 <= i < |s| ==> Lower(s)[i] == Lower(s[1..])[i - 1] && s[i] == s[1..][i - 1];
    }
  }

  /** Drop the leading whitespace. */
  function TrimLeft(s: string): string {
    if s != [] && IsSpace(s[0]) then TrimLeft(s[1..]) else s
  }

  /** What `TrimLeft` leaves is a suffix that is empty or starts with a
      non-space, and everything it dropped was whitespace. */
  lemma {:induction false} TrimLeftFacts(s: string)
    ensures |TrimLeft(s)| <= |s| && TrimLeft(s) == s[|s| - |TrimLeft(s)|..]
    ensures TrimLeft(s) == [] || !IsSpace(TrimLeft(s)[0])
    ensures forall i :: 0 <= i < |s| - |TrimLeft(s)| ==> IsSpace(s[i])
  {
    if s != [] && IsSpace(s[0]) {
      TrimLeftFacts(s[1..]);
      assert forall i :: 1 <= i < |s| ==> s[i] == s[1..][i - 1];
    }
  }

  /** Drop the trailing whitespace. */
  function TrimRight(s: string): string {
    if s != [] && IsSpace(s[|s| - 1]) then TrimRight(s[..|s| - 1]) else s
  }

  /** What `TrimRight` leaves is a prefix that is empty or ends with a
      non-space, and everything it dropped was whitespace. */
  lemma {:induction false} TrimRightFacts(s: string)
    ensures |TrimRight(s)| <= |s| && TrimRight(s) == s[..|TrimRight(s)|]
    ensures TrimRight(s) == [] || !IsSpace(TrimRight(s)[|TrimRight(s)| - 1])
    ensures forall i :: |TrimRight(s)| <= i < |s| ==> IsSpace(s[i])
  {
    if s != [] && IsSpace(s[|s| - 1]) {
      TrimRightFacts(s[..|s| - 1]);
    }
  }

  /** `str.strip()`. */
  function Strip(s: string): string {
    TrimRight(TrimLeft(s))
  }

  /** `r` is the slice of `s` from `k`, with only whitespace around it. */
  ghost predicate IsTrimmedSlice(s: string, r: string, k: int) {
    && 0 <= k && k + |r| <= |s| && r == s[k..k + |r|]
    && (forall i :: 0 <= i < k ==> IsSpace(s[i]))
    && (forall i :: k + |r| <= i < |s| ==> IsSpace(s[i]))
  }

  /** Where the slice `Strip` keeps starts. */
  lemma StripOffset(s: string) returns (k: nat)
    ensures IsTrimmedSlice(s, Strip(s), k)
  {
    var t := TrimLeft(s);
    var r := Strip(s);
    TrimLeftFacts(s);
    TrimRightFacts(t);
    k := |s| - |t|;
    assert forall i :: k <= i < |s| ==> s[i] == t[i - k];
    assert r == s[k..k + |r|];
  }

  /** Stripping leaves a slice of `s` that neither starts nor ends with
      whitespace, with only whitespace outside it; it is empty exactly when
      `s` is all whitespace. */
  lemma StripFacts(s: string)
    ensures exists k :: IsTrimmedSlice(s, Strip(s), k)
    ensures Strip(s) == [] || (!IsSpace(Strip(s)[0]) && !IsSpace(Strip(s)[|Strip(s)| - 1]))
    ensures Strip(s) == [] <==> forall i :: 0 <= i < |s| ==> IsSpace(s[i])
  {
    var k := StripOffset(s);
    var t, r := TrimLeft(s), Strip(s);
    TrimLeftFacts(s);
    TrimRightFacts(t);
    if r != [] {
      assert r[0] == t[0];
    }
  }

  /** Every character left by `Strip` comes from its argument. */
  lemma StripKeepsChars(s: string)
    ensures forall i :: 0 <= i < |Strip(s)| ==> Strip(s)[i] in s
  {
    var r := Strip(s);
    var k := StripOffset(s);
    assert forall i :: 0 <= i < |r| ==> r[i] == s[k + i];
  }

  /** `re.sub(r'[^\w\s]', '', s)`. */
  function RemovePunctuation(s: string): string {
    if s == [] then []
    else
      var rest := RemovePunctuation(s[1..]);
      if IsWordChar(s[0]) || IsSpace(s[0]) then [s[0]] + rest else rest
  }

  /** Only word characters and whitespace are left, each of them as many
      times as in `s`, and nothing is added. */
  lemma RemovePunctuationFacts(s: string)
    ensures forall i :: 0 <= i < |RemovePunctuation(s)| ==>
              (IsWordChar(RemovePunctuation(s)[i]) || IsSpace(RemovePunctuation(s)[i])) && RemovePunctuation(s)[i] in s
    ensures forall c {:trigger multiset(RemovePunctuation(s))[c]} ::
              IsWordChar(c) || IsSpace(c) ==> multiset(RemovePunctuation(s))[c] == multiset(s)[c]
    ensures multiset(RemovePunctuation(s)) <= multiset(s)
  {
    RemovePunctuationChars(s);
    RemovePunctuationCounts(s);
  }

  /** Every character left is a word character or whitespace taken from `s`. */
  lemma {:induction false} RemovePunctuationChars(s: string)
    ensures forall i :: 0 <= i < |RemovePunctuation(s)| ==>
              (IsWordChar(RemovePunctuation(s)[i]) || IsSpace(RemovePunctuation(s)[i])) && RemovePunctuation(s)[i] in s
  {
    if s != [] {
      var rest := RemovePunctuation(s[1..]);
      RemovePunctuationChars(s[1..]);
      assert forall x :: x in s[1..] ==> x in s;
      if IsWordChar(s[0]) || IsSpace(s[0]) {
        assert RemovePunctuation(s) == [s[0]] + rest;
      }
    }
  }

  /** Word characters and whitespace keep their counts; nothing is added. */
  lemma {:induction false} RemovePunctuationCounts(s: string)
    ensures forall c {:trigger multiset(RemovePunctuation(s))[c]} ::
              IsWordChar(c) || IsSpace(c) ==> multiset(RemovePunctuation(s))[c] == multiset(s)[c]
    ensures multiset(RemovePunctuation(s)) <= multiset(s)
  {
    if s != [] {
      var rest := RemovePunctuation(s[1..]);
      RemovePunctuationCounts(s[1..]);
      assert s == [s[0]] + s[1..];
      assert multiset(s) == multiset{s[0]} + multiset(s[1..]);
      if IsWordChar(s[0]) || IsSpace(s[0]) {
        assert multiset(RemovePunctuation(s)) == multiset{s[0]} + multiset(rest);
      }
    }
  }

  /** `preprocess_text`: lower-case, strip, then remove punctuation. */
  function Preprocess(text: string): string {
    RemovePunctuation(Strip(Lower(text)))
  }

  /** The cleaned text holds only lower-case word characters and whitespace. */
  lemma PreprocessCharset(text: string)
    ensures forall i :: 0 <= i < |Preprocess(text)| ==>
              (IsWordChar(Preprocess(text)[i]) || IsSpace(Preprocess(text)[i])) && !IsUpper(Preprocess(text)[i])
  {
    var s := Lower(text);
    LowerFacts(text);
    StripKeepsChars(s);
    RemovePunctuationFacts(Strip(s));
  }

  /** Preprocessing loses no word character: only punctuation and the
      whitespace at the ends go. */
  lemma PreprocessKeepsWordChars(text: string, c: char)
    requires IsWordChar(c)
    ensures multiset(Preprocess(text))[c] == multiset(Lower(text))[c]
  {
    StripKeepsWordChars(Lower(text), c);
    RemovePunctuationFacts(Strip(Lower(text)));
  }

  /** Stripping removes whitespace only, so no word character. */
  lemma StripKeepsWordChars(s: string, c: char)
    requires IsWordChar(c)
    ensures multiset(Strip(s))[c] == multiset(s)[c]
  {
    var r := Strip(s);
    var k := StripOffset(s);
    var before, after := s[..k], s[k + |r|..];
    assert s == before + r + after;
    assert multiset(s) == multiset(before) + multiset(r) + multiset(after);
    NoWordCharIn(before, c);
    NoWordCharIn(after, c);
  }

  /** A run of whitespace holds no word character. */
  lemma {:induction false} NoWordCharIn(s: string, c: char)
    requires IsWordChar(c) && forall i :: 0 <= i < |s| ==> IsSpace(s[i])
    ensures multiset(s)[c] == 0
  {
  }

  /** `str.split()` with the word `cur` under construction. */
  function SplitFrom(s: string, cur: string): seq<string> {
    if s == [] then
      if cur == [] then [] else [cur]
    else if IsSpace(s[0]) then
      var rest := SplitFrom(s[1..], []);
      if cur == [] then rest else [cur] + rest
    else
      SplitFrom(s[1..], cur + [s[0]])
  }

  /** Every word is a non-empty run of non-whitespace; there are none exactly
      when `cur` is empty and the rest is all whitespace. */
  lemma {:induction false} SplitFromFacts(s: string, cur: string)
    requires forall i :: 0 <= i < |cur| ==> !IsSpace(cur[i])
    ensures forall k :: 0 <= k < |SplitFrom(s, cur)| ==>
              SplitFrom(s, cur)[k] != [] && forall i :: 0 <= i < |SplitFrom(s, cur)[k]| ==> !IsSpace(SplitFrom(s, cur)[k][i])
    ensures SplitFrom(s, cur) == [] <==> cur == [] && forall i :: 0 <= i < |s| ==> IsSpace(s[i])
  {
    if s == [] {
    } else if IsSpace(s[0]) {
      SplitFromFacts(s[1..], []);
      assert forall i :: 1 <= i < |s| ==> s[i] == s[1..][i - 1];
    } else {
      SplitFromFacts(s[1..], cur + [s[0]]);
    }
  }

  /** The characters of `s` that are not whitespace, in order. */
  function NonSpace(s: string): string {
    if s == [] then [] else (if IsSpace(s[0]) then [] else [s[0]]) + NonSpace(s[1..])
  }

  /** The words written one after another. */
  function Concat(ws: seq<string>): string {
    if ws == [] then [] else ws[0] + Concat(ws[1..])
  }

  /** No character is lost or reordered: the words, written one after another,
      are `cur` followed by the non-whitespace characters of `s`. */
  lemma {:induction false} SplitFromConcat(s: string, cur: string)
    ensures Concat(SplitFrom(s, cur)) == cur + NonSpace(s)
  {
    if s == [] {
      assert cur + [] == cur;
      if cur != [] {
        assert Concat([cur]) == cur + Concat([]);
      }
    } else if IsSpace(s[0]) {
      var rest := SplitFrom(s[1..], []);
      SplitFromConcat(s[1..], []);
      assert NonSpace(s) == NonSpace(s[1..]);
      if cur != [] {
        assert ([cur] + rest)[1..] == rest;
        assert Concat([cur] + rest) == cur + Concat(rest);
      }
    } else {
      SplitFromConcat(s[1..], cur + [s[0]]);
      assert NonSpace(s) == [s[0]] + NonSpace(s[1..]);
      assert (cur + [s[0]]) + NonSpace(s[1..]) == cur + ([s[0]] + NonSpace(s[1..]));
    }
  }

  /** Only whitespace separates words: a stretch without whitespace is one
      word, joined to the word under construction. */
  lemma {:induction false} SplitFromNoSpace(s: string, cur: string)
    requires forall i :: 0 <= i < |s| ==> !IsSpace(s[i])
    requires cur + s != []
    ensures SplitFrom(s, cur) == [cur + s]
  {
    if s == [] {
      assert cur + s == cur;
    } else {
      SplitFromNoSpace(s[1..], cur + [s[0]]);
      assert (cur + [s[0]]) + s[1..] == cur + s;
    }
  }

  /** Every whitespace character ends the word in progress: the words of
      `a`, a whitespace character and `b` are the words of `a` followed by
      those of `b`. */
  lemma {:induction false} SplitFromAtSpace(a: string, c: char, b: string, cur: string)
    requires IsSpace(c)
    ensures SplitFrom(a + [c] + b, cur) == SplitFrom(a, cur) + SplitFrom(b, [])
  {
    var s := a + [c] + b;
    if a == [] {
      assert s[0] == c && s[1..] == b;
    } else {
      assert s[0] == a[0] && s[1..] == a[1..] + [c] + b;
      if IsSpace(a[0]) {
        SplitFromAtSpace(a[1..], c, b, []);
        if cur != [] {
          assert [cur] + (SplitFrom(a[1..], []) + SplitFrom(b, [])) == ([cur] + SplitFrom(a[1..], [])) + SplitFrom(b, []);
        }
      } else {
        SplitFromAtSpace(a[1..], c, b, cur + [a[0]]);
      }
    }
  }

  /** `s.split()`. */
  function Split(s: string): seq<string> {
    SplitFrom(s, [])
  }

  /** The set of the elements of a list of words. */
  function SetOf(ws: seq<string>): set<string> {
    if ws == [] then {} else {ws[0]} + SetOf(ws[1..])
  }

  /** `SetOf` holds exactly the listed words. */
  lemma {:induction false} SetOfMembers(ws: seq<string>)
    ensures forall x :: x in SetOf(ws) <==> x in ws
  {
    if ws != [] {
      SetOfMembers(ws[1..]);
      assert ws == [ws[0]] + ws[1..];
    }
  }

  /** `set(s.split())`. */
  function WordSet(s: string): set<string> {
    SetOf(Split(s))
  }

  /** The words of `s` are none of them empty, and there are none exactly
      when `s` is all whitespace. */
  lemma WordSetFacts(s: string)
    ensures "" !in WordSet(s)
    ensures WordSet(s) == {} <==> forall i :: 0 <= i < |s| ==> IsSpace(s[i])
  {
    var ws := Split(s);
    SplitFromFacts(s, []);
    SetOfMembers(ws);
    if ws != [] {
      assert ws[0] in WordSet(s);
    }
  }

  /** `needle` occurs in `hay` from position `i`. */
  ghost predicate OccursAt(needle: string, hay: string, i: int) {
    0 <= i && i + |needle| <= |hay| && hay[i..i + |needle|] == needle
  }

  /** Python's `needle in hay` on strings. */
  function IsSubstring(needle: string, hay: string): bool {
    if |needle| > |hay| then false
    else if hay[..|needle|] == needle then true
    else IsSubstring(needle, hay[1..])
  }

  /** `IsSubstring` holds exactly when the needle occurs somewhere. */
  lemma {:induction false} IsSubstringIff(needle: string, hay: string)
    ensures IsSubstring(needle, hay) <==> exists i :: OccursAt(needle, hay, i)
  {
    if |needle| > |hay| {
    } else if hay[..|needle|] == needle {
      assert OccursAt(needle, hay, 0);
    } else {
      IsSubstringIff(needle, hay[1..]);
      assert forall i :: OccursAt(needle, hay[1..], i) ==> OccursAt(needle, hay, i + 1);
      assert forall i :: OccursAt(needle, hay, i) && i > 0 ==> OccursAt(needle, hay[1..], i - 1);
    }
  }

  /** `calculate_similarity`, `SequenceMatcher(None, a, b).ratio()`: supplied
      from outside. */
  type Similarity = (string, string) -> real

  /** A similarity ratio lies between 0 and 1. */
  ghost predicate IsRatio(sim: Similarity) {
    forall a, b :: 0.0 <= sim(a, b) <= 1.0
  }

  /** A subset is no larger than its superset. */
  lemma {:induction false} SubsetCard<T>(a: set<T>, b: set<T>)
    requires a <= b
    ensures |a| <= |b|
    decreases b
  {
    if a != {} {
      var x :| x in a;
      SubsetCard(a - {x}, b - {x});
    }
  }

  /** The keyword score: the shared words over the larger word count, and 0
      when no word is shared. */
  function Overlap(user: string, pattern: string): real {
    var p, u := WordSet(pattern), WordSet(user);
    var common := p * u;
    if common == {} then 0.0
    else
      var larger := if |p| >= |u| then |p| else |u|;
      |common| as real / larger as real
  }

  /** The keyword score is positive exactly when a word is shared, and at most 1. */
  lemma OverlapBounds(user: string, pattern: string)
    ensures WordSet(pattern) * WordSet(user) == {} <==> Overlap(user, pattern) == 0.0
    ensures 0.0 <= Overlap(user, pattern) <= 1.0
  {
    var p, u := WordSet(pattern), WordSet(user);
    var common := p * u;
    if common != {} {
      SubsetCard(common, p);
      SubsetCard(common, u);
      var larger := if |p| >= |u| then |p| else |u|;
      RatioInUnit(|common|, larger);
    }
  }

  /** A positive count over a count no smaller lies in (0, 1]. */
  lemma RatioInUnit(a: nat, b: nat)
    requires 0 < a <= b
    ensures 0.0 < a as real / b as real <= 1.0
  {
  }

  /** The score of one cleaned pattern against the cleaned user text: 0.9
      when either contains the other, the similarity otherwise, then raised
      to the keyword score when that is higher. */
  function PatternScore(user: string, pattern: string, sim: Similarity): real {
    var base := if IsSubstring(pattern, user) || IsSubstring(user, pattern) then 0.9 else sim(user, pattern);
    if WordSet(pattern) * WordSet(user) != {} && Overlap(user, pattern) > base then Overlap(user, pattern)
    else base
  }

  /** The score is the larger of the base score (0.9 under containment, the
      similarity without it) and the keyword score when a word is shared: it
      is at least each that applies, and it is the base unless a shared word
      gives a strictly higher keyword score. For a similarity ratio it lies
      between 0 and 1. */
  lemma PatternScoreBounds(user: string, pattern: string, sim: Similarity)
    ensures IsRatio(sim) ==> 0.0 <= PatternScore(user, pattern, sim) <= 1.0
    ensures IsSubstring(pattern, user) || IsSubstring(user, pattern) ==> PatternScore(user, pattern, sim) >= 0.9
    ensures !(IsSubstring(pattern, user) || IsSubstring(user, pattern)) ==> PatternScore(user, pattern, sim) >= sim(user, pattern)
    ensures WordSet(pattern) * WordSet(user) != {} ==> PatternScore(user, pattern, sim) >= Overlap(user, pattern)
    ensures var s := PatternScore(user, pattern, sim);
            var base := if IsSubstring(pattern, user) || IsSubstring(user, pattern) then 0.9 else sim(user, pattern);
            s == base || (WordSet(pattern) * WordSet(user) != {} && s == Overlap(user, pattern) && s > base)
  {
    OverlapBounds(user, pattern);
  }

  /** Text that cleans to nothing is contained in every pattern and shares
      no word with it, so it scores exactly 0.9 against every pattern. */
  lemma EmptyTextScore(pattern: string, sim: Similarity)
    ensures PatternScore("", pattern, sim) == 0.9
  {
  }

  /** A pattern typed exactly, with at least one word, scores the full 1.0. */
  lemma ExactMatchScore(text: string, sim: Similarity)
    requires WordSet(text) != {}
    ensures PatternScore(text, text, sim) == 1.0
  {
    var w := WordSet(text);
    assert w * w == w;
    assert text[..|text|] == text;
    assert IsSubstring(text, text);
    assert |w| > 0;
    assert Overlap(text, text) == |w| as real / |w| as real == 1.0;
  }

  /** One entry of the training data's `intents` list. */
  datatype Intent = Intent(tag: string, patterns: seq<string>, responses: seq<string>)

  /** Minimum score for an intent to answer. */
  const Threshold := 0.4

  /** The scores of the patterns of one intent against the cleaned user
      text `user`, in order. */
  ghost function Row(user: string, patterns: seq<string>, sim: Similarity): (row: seq<real>)
    ensures |row| == |patterns|
    decreases |patterns|
  {
    if patterns == [] then []
    else
      var n := |patterns| - 1;
      Row(user, patterns[..n], sim) + [PatternScore(user, Preprocess(patterns[n]), sim)]
  }

  /** The rows of all intents, in order: every score `find_intent` computes. */
  ghost function Table(intents: seq<Intent>, user: string, sim: Similarity): (t: seq<seq<real>>)
    ensures |t| == |intents|
    ensures forall i :: 0 <= i < |t| ==> |t[i]| == |intents[i].patterns|
    decreases |intents|
  {
    if intents == [] then []
    else
      var n := |intents| - 1;
      var front := Table(intents[..n], user, sim);
      assert forall i :: 0 <= i < n ==> intents[..n][i] == intents[i];
      front + [Row(user, intents[n].patterns, sim)]
  }

  lemma {:induction false} RowEntry(user: string, patterns: seq<string>, sim: Similarity, j: int)
    requires 0 <= j < |patterns|
    ensures Row(user, patterns, sim)[j] == PatternScore(user, Preprocess(patterns[j]), sim)
    decreases |patterns|
  {
    var n := |patterns| - 1;
    var front := patterns[..n];
    assert Row(user, patterns, sim) == Row(user, front, sim) + [PatternScore(user, Preprocess(patterns[n]), sim)];
    if j < n {
      RowEntry(user, front, sim, j);
      assert front[j] == patterns[j];
    }
  }

  /** Entry (i, j) of the table is the score of pattern `j` of intent `i`,
      cleaned, against the cleaned user text. */
  lemma {:induction false} TableEntry(intents: seq<Intent>, user: string, sim: Similarity, i: int, j: int)
    requires 0 <= i < |intents| && 0 <= j < |intents[i].patterns|
    ensures Table(intents, user, sim)[i][j] == PatternScore(user, Preprocess(intents[i].patterns[j]), sim)
    decreases |intents|
  {
    var n := |intents| - 1;
    var front := intents[..n];
    assert Table(intents, user, sim) == Table(front, user, sim) + [Row(user, intents[n].patterns, sim)];
    if i < n {
      TableEntry(front, user, sim, i, j);
      assert front[i] == intents[i];
    } else {
      RowEntry(user, intents[n].patterns, sim, j);
    }
  }

  /** Pattern `j` of intent `i` is visited before pattern `bj` of intent `bi`. */
  ghost predicate Before(i: int, j: int, bi: int, bj: int) {
    i < bi || (i == bi && j < bj)
  }

  /** Entry `j` of row `i` holds the highest score of the table, and is the
      first entry visited that does. */
  ghost predicate IsBest(t: seq<seq<real>>, i: int, j: int) {
    && 0 <= i < |t| && 0 <= j < |t[i]|
    && (forall i', j' :: 0 <= i' < |t| && 0 <= j' < |t[i']| ==> t[i'][j'] <= t[i][j])
    && (forall i', j' :: 0 <= i' < |t| && 0 <= j' < |t[i']| && Before(i', j', i, j) ==> t[i'][j'] < t[i][j])
  }

  /** What `find_intent` answers: nothing when every score is below the
      threshold, and otherwise the intent owning the best pattern. */
  ghost predicate IsFindResult(intents: seq<Intent>, userInput: string, sim: Similarity, m: Option<Intent>) {
    var t := Table(intents, Preprocess(userInput), sim);
    if forall i, j :: 0 <= i < |t| && 0 <= j < |t[i]| ==> t[i][j] < Threshold
    then m == None
    else exists i, j :: IsBest(t, i, j) && m == Some(intents[i])
  }

  /** At most one entry is the best, so `find_intent` has one answer. */
  lemma BestUnique(t: seq<seq<real>>, i: int, j: int, i2: int, j2: int)
    requires IsBest(t, i, j) && IsBest(t, i2, j2)
    ensures i == i2 && j == j2
  {
    assert !Before(i, j, i2, j2);
    assert !Before(i2, j2, i, j);
  }

  lemma FindResultUnique(intents: seq<Intent>, userInput: string, sim: Similarity, m: Option<Intent>, m2: Option<Intent>)
    requires IsFindResult(intents, userInput, sim, m) && IsFindResult(intents, userInput, sim, m2)
    ensures m == m2
  {
  }

  /** Input that cleans to nothing (punctuation only, say) scores 0.9
      against every pattern, so it matches the first intent that has a
      pattern at all. */
  lemma CleanedEmptyMatchesFirst(intents: seq<Intent>, userInput: string, sim: Similarity, i: int)
    requires Preprocess(userInput) == ""
    requires 0 <= i < |intents| && intents[i].patterns != []
    requires forall k :: 0 <= k < i ==> intents[k].patterns == []
    ensures IsFindResult(intents, userInput, sim, Some(intents[i]))
  {
    var t := Table(intents, "", sim);
    forall a, b | 0 <= a < |t| && 0 <= b < |t[a]|
      ensures t[a][b] == 0.9
    {
      TableEntry(intents, "", sim, a, b);
      EmptyTextScore(Preprocess(intents[a].patterns[b]), sim);
    }
    assert IsBest(t, i, 0);
  }

  /** The state of the `find_intent` scan after every pattern before
      pattern `j` of intent `i`: `highest` is the highest score so far (0 to
      begin with) and, when an intent is kept, it is intent `bi`, whose
      pattern `bj` was the first to reach that score. */
  ghost predicate Leading(intents: seq<Intent>, t: seq<seq<real>>, i: int, j: int, m: Option<Intent>, highest: real, bi: int, bj: int) {
    && highest >= 0.0
    && (forall i', j' :: 0 <= i' < |t| && 0 <= j' < |t[i']| && Before(i', j', i, j) ==> t[i'][j'] <= highest)
    && (m.None? ==> highest == 0.0)
    && (m.Some? ==> && 0 <= bi < |t| && 0 <= bj < |t[bi]| && Before(bi, bj, i, j)
                    && bi < |intents| && m == Some(intents[bi]) && highest == t[bi][bj]
                    && forall i', j' :: 0 <= i' < |t| && 0 <= j' < |t[i']| && Before(i', j', bi, bj) ==> t[i'][j'] < highest)
  }

  /** Visiting entry (i, j): a strictly higher score takes the lead, any
      other leaves the state as it is. */
  lemma LeadingStep(intents: seq<Intent>, t: seq<seq<real>>, i: int, j: int, m: Option<Intent>, highest: real, bi: int, bj: int)
    requires 0 <= i < |t| && i < |intents| && 0 <= j < |t[i]|
    requires Leading(intents, t, i, j, m, highest, bi, bj)
    ensures t[i][j] > highest ==> Leading(intents, t, i, j + 1, Some(intents[i]), t[i][j], i, j)
    ensures t[i][j] <= highest ==> Leading(intents, t, i, j + 1, m, highest, bi, bj)
  {
  }

  /** Past the last pattern of intent `i`, the scan moves to intent `i + 1`. */
  lemma LeadingNextIntent(intents: seq<Intent>, t: seq<seq<real>>, i: int, m: Option<Intent>, highest: real, bi: int, bj: int)
    requires 0 <= i < |t|
    requires Leading(intents, t, i, |t[i]|, m, highest, bi, bj)
    ensures Leading(intents, t, i + 1, 0, m, highest, bi, bj)
  {
  }

  /** After the whole table, a kept intent holds the best entry, and its
      score bounds every entry. */
  lemma LeadingDone(intents: seq<Intent>, t: seq<seq<real>>, m: Option<Intent>, highest: real, bi: int, bj: int)
    requires Leading(intents, t, |t|, 0, m, highest, bi, bj)
    ensures forall i, j :: 0 <= i < |t| && 0 <= j < |t[i]| ==> t[i][j] <= highest
    ensures m.Some? ==> IsBest(t, bi, bj) && m == Some(intents[bi])
    ensures m.None? ==> highest == 0.0
  {
  }

  /** The exception `get_response` can raise: `random.choice` of an intent
      with no responses. */
  datatype Fault = IndexError

  /** How reading the training data file went: parsed, with the `intents`
      and `default_response` entries when present, or one of the two
      failures the loader catches. */
  datatype LoadOutcome =
    | Parsed(intentsEntry: Option<seq<Intent>>, defaultEntry: Option<string>)
    | FileNotFound
    | InvalidJson

  const FallbackResponse := "I'm here to help with appointments and hospital information. Could you please rephrase?"
  const NotLoadedResponse := "Training data not loaded. Please contact support."
  const FormatErrorResponse := "Training data format error. Please contact support."
  const NotCaughtResponse := "I didn't catch that. Could you please repeat?"

  /** Tags that mark a diagnosis query. */
  const DiagnosisTags := ["diagnosis", "symptoms", "medication"]

  /** The decimal numeral of `n`, as an f-string writes it. */
  function Decimal(n: nat): (d: string)
    ensures |d| > 0 && forall i :: 0 <= i < |d| ==> '0' <= d[i] <= '9'
  {
    var digit := ('0' as int + n % 10) as char;
    if n < 10 then [digit] else Decimal(n / 10) + [digit]
  }

  /** The value of a numeral. */
  function NumeralValue(d: string): nat
    requires forall i :: 0 <= i < |d| ==> '0' <= d[i] <= '9'
  {
    if d == [] then 0 else NumeralValue(d[..|d| - 1]) * 10 + (d[|d| - 1] as int - '0' as int)
  }

  /** Reading the numeral back gives the number. */
  lemma {:induction false} DecimalRoundTrip(n: nat)
    ensures NumeralValue(Decimal(n)) == n
  {
    if n >= 10 {
      var d := Decimal(n);
      assert d[..|d| - 1] == Decimal(n / 10);
      DecimalRoundTrip(n / 10);
    }
  }

  /** `r` is what `get_response` answers for the matched intent `m`: the
      default response when there is none, a response of the intent when it
      has some, and IndexError from `random.choice` when it has none. */
  ghost predicate IsAnswer(m: Option<Intent>, defaultResponse: string, r: Result<string, Fault>) {
    match m
    case None => r == Ok(defaultResponse)
    case Some(intent) =>
      if intent.responses == [] then r == Err(IndexError)
      else r.Ok? && r.value in intent.responses
  }

  /** `HospitalNLPModel`: the intents and default response of the loaded
      training data. */
  class HospitalNLPModel {
    var intents: seq<Intent>
    var defaultResponse: string

    /** `__init__`: start with no intents and an empty default, then load. */
    constructor (outcome: LoadOutcome)
      ensures outcome.Parsed? ==> intents == (if outcome.intentsEntry.Some? then outcome.intentsEntry.value else [])
      ensures outcome.Parsed? ==> defaultResponse == (if outcome.defaultEntry.Some? then outcome.defaultEntry.value else FallbackResponse)
      ensures outcome == FileNotFound ==> intents == [] && defaultResponse == NotLoadedResponse
      ensures outcome == InvalidJson ==> intents == [] && defaultResponse == FormatErrorResponse
    {
      intents := [];
      defaultResponse := "";
      new;
      LoadTrainingData(outcome);
    }

    /** `load_training_data`: take both entries, with their defaults, from a
        parsed file; on either failure keep the intents and set the
        matching error text as the default response. */
    method LoadTrainingData(outcome: LoadOutcome)
      modifies this
      ensures outcome.Parsed? ==> intents == (if outcome.intentsEntry.Some? then outcome.intentsEntry.value else [])
      ensures outcome.Parsed? ==> defaultResponse == (if outcome.defaultEntry.Some? then outcome.defaultEntry.value else FallbackResponse)
      ensures outcome == FileNotFound ==> intents == old(intents) && defaultResponse == NotLoadedResponse
      ensures outcome == InvalidJson ==> intents == old(intents) && defaultResponse == FormatErrorResponse
    {
      match outcome
      case Parsed(entry, default) =>
        intents := if entry.Some? then entry.value else [];
        defaultResponse := if default.Some? then default.value else FallbackResponse;
      case FileNotFound =>
        defaultResponse := NotLoadedResponse;
      case InvalidJson =>
        defaultResponse := FormatErrorResponse;
    }

    /** `reload_training_data`: load again, with the same outcome for the
        intents and the default response, and report how many intents
        there now are. */
    method ReloadTrainingData(outcome: LoadOutcome) returns (message: string)
      modifies this
      ensures outcome.Parsed? ==> intents == (if outcome.intentsEntry.Some? then outcome.intentsEntry.value else [])
      ensures !outcome.Parsed? ==> intents == old(intents)
      ensures outcome.Parsed? ==> defaultResponse == (if outcome.defaultEntry.Some? then outcome.defaultEntry.value else FallbackResponse)
      ensures outcome == FileNotFound ==> defaultResponse == NotLoadedResponse
      ensures outcome == InvalidJson ==> defaultResponse == FormatErrorResponse
      ensures message == "Training data reloaded successfully. " + Decimal(|intents|) + " intents loaded."
    {
      LoadTrainingData(outcome);
      message := "Training data reloaded successfully. " + Decimal(|intents|) + " intents loaded.";
    }

    /** The score of pattern `j` of intent `i` against the cleaned user text. */
    method ScoreAt(user: string, i: nat, j: nat, sim: Similarity) returns (score: real)
      requires i < |intents| && j < |intents[i].patterns|
      ensures score == Table(intents, user, sim)[i][j]
    {
      score := PatternScore(user, Preprocess(intents[i].patterns[j]), sim);
      TableEntry(intents, user, sim, i, j);
    }

    /** `find_intent`: scan every pattern of every intent in order, keeping
        the intent of the first strictly highest score, and answer it when
        that score reaches the threshold. */
    method FindIntent(userInput: string, sim: Similarity) returns (m: Option<Intent>)
      ensures IsFindResult(intents, userInput, sim, m)
    {
      var user := Preprocess(userInput);
      ghost var t := Table(intents, user, sim);
      m := None;
      var highest := 0.0;
      ghost var bi, bj := 0, 0;
      var i := 0;
      while i < |intents|
        invariant 0 <= i <= |intents|
        invariant Leading(intents, t, i, 0, m, highest, bi, bj)
      {
        m, highest, bi, bj := ScanIntent(user, sim, i, m, highest, bi, bj);
        i := i + 1;
      }
      LeadingDone(intents, t, m, highest, bi, bj);
      if !(highest >= Threshold && m.Some?) {
        m := None;
      }
    }

    /** The inner loop of `find_intent`: the patterns of intent `i`. */
    method ScanIntent(user: string, sim: Similarity, i: nat, m0: Option<Intent>, highest0: real, ghost bi0: int, ghost bj0: int)
      returns (m: Option<Intent>, highest: real, ghost bi: int, ghost bj: int)
      requires i < |intents|
      requires Leading(intents, Table(intents, user, sim), i, 0, m0, highest0, bi0, bj0)
      ensures Leading(intents, Table(intents, user, sim), i + 1, 0, m, highest, bi, bj)
    {
      ghost var t := Table(intents, user, sim);
      m, highest, bi, bj := m0, highest0, bi0, bj0;
      var patterns := intents[i].patterns;
      var j := 0;
      while j < |patterns|
        invariant 0 <= j <= |patterns|
        invariant Leading(intents, t, i, j, m, highest, bi, bj)
      {
        var score := ScoreAt(user, i, j, sim);
        LeadingStep(intents, t, i, j, m, highest, bi, bj);
        if score > highest {
          highest := score;
          m := Some(intents[i]);
          bi, bj := i, j;
        }
        j := j + 1;
      }
      LeadingNextIntent(intents, t, i, m, highest, bi, bj);
    }

    /** `get_response`: blank input is asked to be repeated; otherwise a
        response of the matched intent, chosen at random (`pick` stands for
        the random draw), or the default response when nothing matched. */
    method GetResponse(userInput: string, sim: Similarity, pick: nat) returns (r: Result<string, Fault>)
      ensures Strip(userInput) == [] ==> r == Ok(NotCaughtResponse)
      ensures Strip(userInput) != [] ==>
                exists m :: IsFindResult(intents, userInput, sim, m) && IsAnswer(m, defaultResponse, r)
    {
      var stripped := Strip(userInput);
      if stripped == [] {
        return Ok(NotCaughtResponse);
      }
      var m := FindIntent(userInput, sim);
      if m.Some? {
        if m.value.responses == [] {
          r := Err(IndexError);
        } else {
          r := Ok(m.value.responses[pick % |m.value.responses|]);
        }
      } else {
        r := Ok(defaultResponse);
      }
      assert IsFindResult(intents, userInput, sim, m) && IsAnswer(m, defaultResponse, r);
    }

    /** `is_greeting`: the matched intent is tagged "greeting". */
    method IsGreeting(userInput: string, sim: Similarity) returns (b: bool)
      ensures exists m :: IsFindResult(intents, userInput, sim, m) && (b <==> m.Some? && m.value.tag == "greeting")
    {
      var m := FindIntent(userInput, sim);
      b := m.Some? && m.value.tag == "greeting";
    }

    /** `is_diagnosis_query`: the matched intent carries a diagnosis tag. */
    method IsDiagnosisQuery(userInput: string, sim: Similarity) returns (b: bool)
      ensures exists m :: IsFindResult(intents, userInput, sim, m) && (b <==> m.Some? && m.value.tag in DiagnosisTags)
    {
      var m := FindIntent(userInput, sim);
      b := m.Some? && m.value.tag in DiagnosisTags;
    }
  }
}
