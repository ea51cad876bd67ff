/**
 * Skill-phrase extraction: the technologies a question asks about, as the
 * lower-case phrases to look for in the CV ("How many years of experience
 * with Docker and/or Kubernetes?" gives ["docker", "kubernetes"]).
 *
 * The functions below specify each step; `ExtractSkillPhrases` is the
 * step-by-step procedure, proved equal to `SkillPhrases`.
 */
module SkillExtraction {
  import opened Wrappers
  import opened Text

  const Separators: seq<string> := [" with ", " avec ", " using ", " utilisant ", " in "]
  const MaxPhrases := 15

  // ---------------------------------------------------------------------------
  // re.sub(r"\s*\?+\s*\*?\s*$", "", s)

  predicate IsQuestionMark(c: char) {
    c == '?'
  }

  /** `t` as a whole matches `\s*\?+\s*\*?\s*`. */
  predicate IsQuestionTail(t: string) {
    var a := TrimLeft(t);
    var b := TrimLeftWhere(a, IsQuestionMark);
    var c := TrimLeft(b);
    var d := if c != [] && c[0] == '*' then c[1..] else c;
    |b| < |a| && forall i :: 0 <= i < |d| ==> IsSpace(d[i])
  }

  /** The leftmost position from `i` on where the tail pattern matches up to the end, or `|s|`. */
  function TailStart(s: string, i: nat): (k: nat)
    requires i <= |s|
    ensures i <= k <= |s|
    ensures k < |s| ==> IsQuestionTail(s[k..])
    decreases |s| - i
  {
    if i == |s| then |s|
    else if IsQuestionTail(s[i..]) then i
    else TailStart(s, i + 1)
  }

  /**
   * `re.sub(r"\s*\?+\s*\*?\s*$", "", s)` on a string without a trailing line
   * break: the question marks, the required-field star and the whitespace
   * around them are cut from the end.
   */
  function DropQuestionTail(s: string): (r: string)
    ensures StartsWith(s, r)
  {
    s[..TailStart(s, 0)]
  }

  // ---------------------------------------------------------------------------
  // Choosing the text that names the skills

  /**
   * What follows the first occurrence of `sep` in the lower-cased text, with
   * the question tail dropped and the spaces trimmed; none when `sep` does
   * not occur.
   */
  function CandidateAfter(text: string, sep: string): (r: Option<string>)
    ensures r.Some? <==> Occurs(sep, Lower(text))
  {
    if Occurs(sep, Lower(text)) then
      Some(Strip(DropQuestionTail(Strip(text[IndexOf(sep, Lower(text)) + |sep|..]))))
    else None
  }

  /** The candidates of one text, one per separator. */
  function Candidates(text: string): string -> Option<string> {
    sep => CandidateAfter(text, sep)
  }

  /** The first candidate, in separator order, that has between 3 and 149 characters. */
  function FirstFit(candidate: string -> Option<string>, seps: seq<string>): (r: Option<string>)
    ensures r.Some? ==> 2 < |r.value| < 150
    ensures r.Some? ==> exists k :: 0 <= k < |seps| && candidate(seps[k]) == r
    decreases |seps|
  {
    if seps == [] then None
    else
      var c := candidate(seps[0]);
      if c.Some? && 2 < |c.value| < 150 then c else FirstFit(candidate, seps[1..])
  }

  /**
   * The text after the first separator (in list order) that leaves between 3
   * and 149 characters once the question tail is dropped; with no such
   * separator, the whole text without its tail.
   */
  function RestAfterSeparator(text: string, seps: seq<string>): string
  {
    match FirstFit(Candidates(text), seps)
    case Some(rest) => rest
    case None => Strip(DropQuestionTail(text))
  }

  /** A list after a colon ("technologies suivantes : MQ, Kafka") replaces the text when it is 3 to 119 characters long. */
  function AfterColon(rest: string): string {
    if ':' in rest then
      var after := Strip(AfterLast(rest, ':'));
      if 2 < |after| < 120 then after else rest
    else rest
  }

  // ---------------------------------------------------------------------------
  // re.split(r"\s+et/ou\s+|\s+and/or\s+|\s+and\s+|\s+or\s+|\s+et\s+|\s+ou\s+|,|/", rest, flags=re.I)

  const WordSeparators: seq<string> := ["et/ou", "and/or", "and", "or", "et", "ou"]

  /** The end of the whitespace run that starts at `i`. */
  function SpaceRunEnd(s: string, i: nat): (j: nat)
    requires i <= |s|
    ensures i <= j <= |s|
  {
    |s| - |TrimLeft(s[i..])|
  }

  /** The length of a match of `\s+w\s+` (ignoring case) at position `i`. */
  function WordSeparatorLength(s: string, i: nat, w: string): (n: Option<nat>)
    requires i <= |s|
    ensures n.Some? ==> 0 < n.value && i + n.value <= |s|
  {
    var j := SpaceRunEnd(s, i);
    if j == i || j + |w| > |s| || Lower(s[j..j + |w|]) != w then None
    else
      var k := SpaceRunEnd(s, j + |w|);
      if k == j + |w| then None else Some(k - i)
  }

  /** The first word alternative, in pattern order, that matches at `i`. */
  function FirstWordSeparator(s: string, i: nat, words: seq<string>): (n: Option<nat>)
    requires i <= |s|
    ensures n.Some? ==> 0 < n.value && i + n.value <= |s|
  {
    if words == [] then None
    else
      match WordSeparatorLength(s, i, words[0])
      case Some(n) => Some(n)
      case None => FirstWordSeparator(s, i, words[1..])
  }

  /** The length of the separator match at `i`, if any alternative matches there. */
  function SeparatorLength(s: string, i: nat): (n: Option<nat>)
    requires i < |s|
    ensures n.Some? ==> 0 < n.value && i + n.value <= |s|
  {
    match FirstWordSeparator(s, i, WordSeparators)
    case Some(n) => Some(n)
    case None => if s[i] == ',' || s[i] == '/' then Some(1) else None
  }

  /** Splitting from scan position `i`, the current piece having begun at `start`. */
  function SplitFrom(s: string, start: nat, i: nat): (parts: seq<string>)
    requires start <= i <= |s|
    ensures |parts| >= 1
    decreases |s| - i
  {
    if i == |s| then [s[start..]]
    else
      match SeparatorLength(s, i)
      case Some(n) => [s[start..i]] + SplitFrom(s, i + n, i + n)
      case None => SplitFrom(s, start, i + 1)
  }

  /** The pieces `re.split` returns: matches are found left to right and never overlap. */
  function SplitParts(s: string): (parts: seq<string>)
    ensures |parts| >= 1
  {
    SplitFrom(s, 0, 0)
  }

  // ---------------------------------------------------------------------------
  // Cleaning one piece

  /**
   * The leading articles `^(des?|du|de la|les?|the|using|utilisant)\s+` in the
   * order the regular expression tries them ("des" before "de").
   */
  const Articles: seq<string> := ["des", "de", "du", "de la", "les", "le", "the", "using", "utilisant"]

  /** How many characters the article rule removes from the front of `p`. */
  function ArticleLength(p: string, articles: seq<string>): (n: nat)
    ensures n <= |p|
  {
    if articles == [] then 0
    else
      var w := articles[0];
      if |w| <= |p| && Lower(p[..|w|]) == w && SpaceRunEnd(p, |w|) > |w| then SpaceRunEnd(p, |w|)
      else ArticleLength(p, articles[1..])
  }

  predicate IsPiecePunctuation(c: char) {
    c == ' ' || c == '.' || c == '*'
  }

  /** One piece as a phrase: trimmed, article dropped, `strip(" .*")`, kept at 2 to 59 characters, lower-cased. */
  function CleanPiece(piece: string): Option<string>
  {
    var p1 := Strip(piece);
    var p2 := Strip(p1[ArticleLength(p1, Articles)..]);
    var p3 := StripWhere(p2, IsPiecePunctuation);
    if 1 < |p3| < 60 then Some(Lower(p3)) else None
  }

  lemma CleanPieceIsPhrase(piece: string)
    ensures CleanPiece(piece).Some? ==> IsPhrase(CleanPiece(piece).value)
  {
    var p1 := Strip(piece);
    var p2 := Strip(p1[ArticleLength(p1, Articles)..]);
    LowerIsLowered(StripWhere(p2, IsPiecePunctuation));
  }

  /** A phrase as the cleaning step keeps it. */
  predicate IsPhrase(p: string) {
    1 < |p| < 60 && IsLowered(p)
  }

  /** The values `clean` gives the pieces, in order, skipping the pieces it rejects. */
  function Kept(clean: string -> Option<string>, pieces: seq<string>): (r: seq<string>)
    ensures |r| <= |pieces|
  {
    if pieces == [] then []
    else
      var init := Kept(clean, pieces[..|pieces| - 1]);
      match clean(pieces[|pieces| - 1])
      case Some(ph) => init + [ph]
      case None => init
  }

  /** The phrases of the pieces, in order: the list the first loop builds. */
  function CleanPieces(pieces: seq<string>): seq<string>
  {
    Kept(CleanPiece, pieces)
  }

  lemma {:induction false} CleanPiecesArePhrases(pieces: seq<string>)
    ensures forall p :: p in CleanPieces(pieces) ==> IsPhrase(p)
  {
    if pieces != [] {
      CleanPiecesArePhrases(pieces[..|pieces| - 1]);
      CleanPieceIsPhrase(pieces[|pieces| - 1]);
    }
  }

  lemma CleanPiecesNonEmpty(pieces: seq<string>)
    ensures forall p :: p in CleanPieces(pieces) ==> p != ""
  {
    CleanPiecesArePhrases(pieces);
  }

  // ---------------------------------------------------------------------------
  // Keeping first occurrences

  predicate Distinct<T(==)>(s: seq<T>) {
    forall i, j :: 0 <= i < j < |s| ==> s[i] != s[j]
  }

  /** The list with every repeat of an earlier entry dropped: the second loop's `result`. */
  function Dedupe<T(==)>(s: seq<T>): (r: seq<T>)
  {
    if s == [] then []
    else
      var init := Dedupe(s[..|s| - 1]);
      if s[|s| - 1] in init then init else init + [s[|s| - 1]]
  }

  /** Deduplication keeps exactly the entries of the input, once each. */
  lemma {:induction false} DedupeMembers<T>(s: seq<T>)
    ensures forall x :: x in Dedupe(s) <==> x in s
    ensures Distinct(Dedupe(s))
  {
    if s != [] {
      var init := s[..|s| - 1];
      DedupeMembers(init);
      assert s == init + [s[|s| - 1]];
    }
  }

  /**
   * First-occurrence order: deduplicating a prefix gives a prefix of the
   * deduplicated whole.
   */
  lemma {:induction false} DedupePrefix<T>(s: seq<T>, k: nat)
    requires k <= |s|
    ensures StartsWithSeq(Dedupe(s), Dedupe(s[..k]))
    decreases |s| - k
  {
    if k < |s| {
      DedupePrefix(s, k + 1);
      assert s[..k + 1][..k] == s[..k];
    } else {
      assert s[..k] == s;
    }
  }

  predicate StartsWithSeq<T(==)>(s: seq<T>, p: seq<T>) {
    |p| <= |s| && s[..|p|] == p
  }

  lemma DistinctPrefix<T>(s: seq<T>, n: nat)
    requires Distinct(s)
    ensures Distinct(Take(s, n))
  {
  }

  // ---------------------------------------------------------------------------
  // The word fallback: re.findall(r"[a-zA-Z0-9+#./]+", rest)

  predicate IsWordChar(c: char) {
    ('a' <= c <= 'z') || ('A' <= c <= 'Z') || ('0' <= c <= '9') || c == '+' || c == '#' || c == '.' || c == '/'
  }

  /** The maximal runs of word characters, left to right. */
  function Words(s: string): (r: seq<string>)
    ensures forall i :: 0 <= i < |r| ==> r[i] != ""
    decreases |s|
  {
    if s == [] then []
    else if !IsWordChar(s[0]) then Words(s[1..])
    else
      var n := |s| - |TrimLeftWhere(s, IsWordChar)|;
      [s[..n]] + Words(s[n..])
  }

  const StopWords: seq<string> := ["the", "and", "you", "have", "your", "avec", "experience", "expérience", "years", "années"]

  /** The words longer than two characters that are not stop words, lower-cased: the fallback loop's `result`. */
  function FallbackWords(words: seq<string>): (r: seq<string>)
    ensures forall w :: w in r ==> |w| > 2
  {
    if words == [] then []
    else
      var init := FallbackWords(words[..|words| - 1]);
      var w := words[|words| - 1];
      if |w| > 2 && Lower(w) !in StopWords then init + [Lower(w)] else init
  }

  lemma {:induction false} FallbackWordsLowered(words: seq<string>)
    ensures forall w :: w in FallbackWords(words) ==> IsLowered(w)
  {
    if words != [] {
      FallbackWordsLowered(words[..|words| - 1]);
      LowerIsLowered(words[|words| - 1]);
    }
  }

  // ---------------------------------------------------------------------------
  // The whole extraction

  /** The text the phrases are taken from, for a label that is not blank. */
  function SkillText(questionLabel: string): string {
    AfterColon(RestAfterSeparator(Strip(questionLabel), Separators))
  }

  /** The deduplicated phrases of the split text. */
  function SplitPhrases(rest: string): seq<string> {
    Dedupe(CleanPieces(SplitParts(rest)))
  }

  /** `_extract_skill_phrases_from_question`. */
  function SkillPhrases(questionLabel: string): (r: seq<string>)
    ensures Strip(questionLabel) == "" ==> r == []
    ensures |r| <= MaxPhrases
  {
    if Strip(questionLabel) == "" then []
    else
      var rest := SkillText(questionLabel);
      var result := SplitPhrases(rest);
      Take(if result == [] && rest != "" then FallbackWords(Words(rest)) else result, MaxPhrases)
  }

  /** The split path yields distinct phrases. */
  lemma PiecePhrasesShape(pieces: seq<string>)
    ensures forall p :: p in Dedupe(CleanPieces(pieces)) ==> IsPhrase(p)
    ensures Distinct(Dedupe(CleanPieces(pieces)))
  {
    DedupeMembers(CleanPieces(pieces));
    CleanPiecesArePhrases(pieces);
  }

  /**
   * Every phrase is lower case and at least two characters long; when the
   * split path produced phrases they are also shorter than 60 characters and
   * pairwise different.
   */
  lemma SkillPhrasesShape(questionLabel: string)
    ensures forall p :: p in SkillPhrases(questionLabel) ==> |p| >= 2 && IsLowered(p)
    ensures Strip(questionLabel) != "" && SplitPhrases(SkillText(questionLabel)) != [] ==>
              Distinct(SkillPhrases(questionLabel))
              && forall p :: p in SkillPhrases(questionLabel) ==> |p| < 60
  {
    if Strip(questionLabel) != "" {
      var rest := SkillText(questionLabel);
      var result := SplitPhrases(rest);
      if result == [] && rest != "" {
        var words := FallbackWords(Words(rest));
        assert SkillPhrases(questionLabel) == Take(words, MaxPhrases);
        FallbackWordsLowered(Words(rest));
        TakeMembers(words, MaxPhrases);
      } else {
        assert SkillPhrases(questionLabel) == Take(result, MaxPhrases);
        PiecePhrasesShape(SplitParts(rest));
        TakeMembers(result, MaxPhrases);
        DistinctPrefix(result, MaxPhrases);
      }
    }
  }

  lemma TakeMembers(s: seq<string>, n: nat)
    ensures forall x :: x in Take(s, n) ==> x in s
  {
    forall x | x in Take(s, n) ensures x in s {
      var i :| 0 <= i < |Take(s, n)| && Take(s, n)[i] == x;
      assert s[i] == x;
    }
  }

  // ---------------------------------------------------------------------------
  // The procedure

  /** The separator loop of `_extract_skill_phrases_from_question`, with its `else` branch. */
  method ChooseRest(text: string) returns (rest: string)
    ensures rest == RestAfterSeparator(text, Separators)
  {
    var fit := FindFit(Candidates(text), Separators);
    if fit.Some? {
      rest := fit.value;
    } else {
      rest := Strip(DropQuestionTail(text));
    }
  }

  /** The loop of `ChooseRest`: the separators in order, stopping at the first that fits. */
  method FindFit(candidate: string -> Option<string>, seps: seq<string>) returns (fit: Option<string>)
    ensures fit == FirstFit(candidate, seps)
  {
    fit := None;
    var s := 0;
    while s < |seps| && fit.None?
      invariant 0 <= s <= |seps|
      invariant fit.Some? ==> fit == FirstFit(candidate, seps)
      invariant fit.None? ==> FirstFit(candidate, seps) == FirstFit(candidate, seps[s..])
    {
      assert seps[s..][0] == seps[s] && seps[s..][1..] == seps[s + 1..];
      var c := candidate(seps[s]);
      if c.Some? && 2 < |c.value| < 150 {
        fit := c;
      }
      s := s + 1;
    }
    if fit.None? {
      assert seps[s..] == [];
    }
  }

  /** The cleaning loop: each piece cleaned, the usable ones kept in order. */
  method CleanAll(pieces: seq<string>) returns (phrases: seq<string>)
    ensures phrases == CleanPieces(pieces)
  {
    phrases := KeepAll(CleanPiece, pieces);
  }

  /** The loop of `CleanAll`, over any cleaning step. */
  method KeepAll(clean: string -> Option<string>, pieces: seq<string>) returns (kept: seq<string>)
    ensures kept == Kept(clean, pieces)
  {
    kept := [];
    var i := 0;
    while i < |pieces|
      invariant 0 <= i <= |pieces|
      invariant kept == Kept(clean, pieces[..i])
    {
      ghost var next := pieces[..i + 1];
      assert next[..|next| - 1] == pieces[..i] && next[|next| - 1] == pieces[i];
      var c := clean(pieces[i]);
      if c.Some? {
        kept := kept + [c.value];
      }
      i := i + 1;
    }
    assert pieces[..|pieces|] == pieces;
  }

  /** The deduplication loop, which remembers the phrases already kept in a set. */
  method DedupeAll(phrases: seq<string>) returns (result: seq<string>)
    requires forall p :: p in phrases ==> p != ""
    ensures result == Dedupe(phrases)
  {
    var seen: set<string> := {};
    result := [];
    var j := 0;
    while j < |phrases|
      invariant 0 <= j <= |phrases|
      invariant result == Dedupe(phrases[..j])
      invariant forall x :: x in seen <==> x in result
    {
      assert phrases[..j + 1][..j] == phrases[..j];
      var ph := phrases[j];
      assert ph in phrases;
      if ph != "" && ph !in seen {
        seen := seen + {ph};
        result := result + [ph];
      }
      j := j + 1;
    }
    assert phrases[..|phrases|] == phrases;
  }

  /** The word fallback loop. */
  method KeepWords(words: seq<string>) returns (result: seq<string>)
    ensures result == FallbackWords(words)
  {
    result := [];
    var k := 0;
    while k < |words|
      invariant 0 <= k <= |words|
      invariant result == FallbackWords(words[..k])
    {
      assert words[..k + 1][..k] == words[..k];
      var w := words[k];
      if |w| > 2 && Lower(w) !in StopWords {
        result := result + [Lower(w)];
      }
      k := k + 1;
    }
    assert words[..|words|] == words;
  }

  /** `_extract_skill_phrases_from_question`, step by step. */
  method ExtractSkillPhrases(questionLabel: string) returns (result: seq<string>)
    ensures result == SkillPhrases(questionLabel)
  {
    if Strip(questionLabel) == "" {
      return [];
    }
    var rest := ChooseRest(Strip(questionLabel));
    rest := AfterColon(rest);
    assert rest == SkillText(questionLabel);
    var pieces := SplitParts(rest);
    var phrases := CleanAll(pieces);
    CleanPiecesNonEmpty(pieces);
    result := DedupeAll(phrases);
    assert result == SplitPhrases(rest);
    if result == [] && rest != "" {
      result := KeepWords(Words(rest));
    }
    result := Take(result, MaxPhrases);
  }
}
