/**
 * 02_label.py: every stored submission gets exactly one verdict. A junk
 * title or flair gives "JUNK"; otherwise a flair with a known meaning
 * decides; otherwise the top comments vote with the first judgment each one
 * states, weighted by its capped score; with no vote the verdict is
 * "UNKNOWN".
 */
module Labeling {
  import opened Wrappers
  import opened Text
  import opened Batching
  import opened Scanning

  // ---------------------------------------------------------------------
  // Tables
  // ---------------------------------------------------------------------

  /** The alternatives of the judgment pattern, in the order the pattern tries them. */
  const Alternatives: seq<string> :=
    ["YTA", "NTA", "ESH", "NAH", "INFO", "YWBTA", "YWNBTA", "NOT THE A-HOLE", "YOU'RE THE ASSHOLE"]

  /** CANONICAL: each spelling, upper-cased, to the judgment it means. */
  const Canonical: map<string, string> := map[
    "YTA" := "YTA", "NTA" := "NTA", "ESH" := "ESH", "NAH" := "NAH", "INFO" := "INFO",
    "YWBTA" := "YTA", "YWNBTA" := "NTA", "NOT THE A-HOLE" := "NTA", "YOU'RE THE ASSHOLE" := "YTA"]

  /** The judgments a vote may settle on. */
  const Judgments: set<string> := {"YTA", "NTA", "ESH", "NAH", "INFO"}

  /** Flairs that mark a post as not being a case at all. */
  const JunkFlairs: set<string> := {
    "UPDATE", "Update", "Update ", "META", "META: Help!", "Open Forum", "Announcement",
    "Announcement ", "TL;DR", "Best of 2022", "Best of 2021", "Community Discussion",
    "COOL META", "NEWS", "POO Mode Activated \U{00F0}\U{0178}\U{2019}\U{00A9}", "too close to call", "Fake", "Fake Story"}

  /** Flairs whose meaning is a judgment. */
  const FlairMapping: map<string, string> := map[
    "Not the A-hole" := "NTA", "not the a-hole" := "NTA", "Not the A-hole POO Mode" := "NTA",
    "not the a-hole POO Mode" := "NTA", "Not the A-hole (oof)" := "NTA", "not the asshole" := "NTA",
    "not the arsehole" := "NTA", "not the a-hole-" := "NTA", "Def. not a-hole" := "NTA",
    "not the a-hole, run" := "NTA", "not a-hole, run" := "NTA", "nut the a-hole" := "NTA",
    "Asshole" := "YTA", "asshole" := "YTA", "Asshole POO Mode" := "YTA", "asshole POO Mode" := "YTA",
    "justifiable asshole" := "YTA", "justified asshole" := "YTA", "Righteous Asshole" := "YTA",
    "UnanimASSly the Asshole" := "YTA", "asshole-ish" := "YTA", "asshole-y" := "YTA",
    "asshole baby" := "YTA", "a little butthole" := "YTA", "cheap asshole" := "YTA",
    "YTA reddit" := "YTA", "Everyone Sucks" := "ESH", "everyone sucks" := "ESH",
    "Everyone Sucks POO Mode" := "ESH", "No A-holes here" := "NAH", "no a--holes here" := "NAH",
    "No A-holes here POO Mode" := "NAH"]

  /** Upper-cased title fragments that mark a post as junk. */
  const JunkTitleKeywords: seq<string> := ["UPDATE:", "UPDATE -", "META:", "BEST OF", "AWARDS", "MONTHLY FORUM"]

  /** The verdict for junk posts, and for posts nothing else decides. */
  const Junk: string := "JUNK"
  const Unknown: string := "UNKNOWN"

  // ---------------------------------------------------------------------
  // The judgment pattern: whole words, ignoring ASCII case
  // ---------------------------------------------------------------------

  /** A character `\b` counts as part of a word. */
  predicate IsWordChar(c: char) {
    'a' <= c <= 'z' || 'A' <= c <= 'Z' || '0' <= c <= '9' || c == '_'
  }

  function LowerChar(c: char): char {
    if 'A' <= c <= 'Z' then (c as int - 'A' as int + 'a' as int) as char else c
  }

  /** Equal up to the case of ASCII letters. */
  predicate SameIgnoringCase(a: string, b: string)
    decreases |a|
  {
    |a| == |b| && (|a| == 0 || (LowerChar(a[0]) == LowerChar(b[0]) && SameIgnoringCase(a[1..], b[1..])))
  }

  /** `\b` at position `i`: a word character on exactly one side. */
  predicate Boundary(s: string, i: int)
    requires 0 <= i <= |s|
  {
    (i > 0 && IsWordChar(s[i - 1])) != (i < |s| && IsWordChar(s[i]))
  }

  /** `alt` matches `s` at `i` as a whole word, ignoring case. */
  predicate MatchesAt(s: string, i: nat, alt: string) {
    i + |alt| <= |s| && Boundary(s, i) && SameIgnoringCase(s[i..i + |alt|], alt) && Boundary(s, i + |alt|)
  }

  /** `m` spells one of the alternatives, ignoring case. */
  predicate Spells(m: string) {
    exists k :: 0 <= k < |Alternatives| && SameIgnoringCase(m, Alternatives[k])
  }

  /** The first alternative, from the `k`-th on, that matches at `i`. */
  function FirstMatch(s: string, i: nat, k: nat): (r: Option<nat>)
    requires k <= |Alternatives|
    ensures r.Some? ==> k <= r.value < |Alternatives| && MatchesAt(s, i, Alternatives[r.value])
    ensures r.Some? ==> forall j :: k <= j < r.value ==> !MatchesAt(s, i, Alternatives[j])
    ensures r.None? ==> forall j :: k <= j < |Alternatives| ==> !MatchesAt(s, i, Alternatives[j])
    decreases |Alternatives| - k
  {
    if k == |Alternatives| then None
    else if MatchesAt(s, i, Alternatives[k]) then Some(k)
    else FirstMatch(s, i, k + 1)
  }

  /**
   * The length of the first alternative, in the pattern's order, that
   * matches at `q`; 0 when none does.
   */
  function MatchLen(s: string, q: nat): (n: nat)
    ensures n > 0 ==> q + n <= |s| && exists k :: (0 <= k < |Alternatives| && MatchesAt(s, q, Alternatives[k]) && n == |Alternatives[k]|
                                                    && forall j :: 0 <= j < k ==> !MatchesAt(s, q, Alternatives[j]))
    ensures n == 0 ==> forall k :: 0 <= k < |Alternatives| ==> !MatchesAt(s, q, Alternatives[k])
  {
    match FirstMatch(s, q, 0)
    case Some(k) => assert |Alternatives[k]| > 0; |Alternatives[k]|
    case None => 0
  }

  /** The match length at every position of `s`. */
  function MatchLens(s: string): (lens: seq<nat>)
    ensures |lens| == |s|
  {
    seq(|s|, q requires 0 <= q < |s| => MatchLen(s, q))
  }

  /**
   * `findall`: the scan from the start of `s` that takes, at each position,
   * the first alternative that matches there and resumes after it, and
   * otherwise moves one character on.
   */
  function FindAll(s: string): (ms: seq<string>)
    ensures forall j :: 0 <= j < |ms| ==> Spells(ms[j])
  {
    FoundSpell(s);
    ScanFrom(s, MatchLens(s), 0)
  }

  /** The text of every positive match length in `lens` that fits spells an alternative. */
  ghost predicate LensSpell(s: string, lens: seq<nat>)
    requires |lens| == |s|
  {
    forall p :: 0 <= p < |s| && 0 < lens[p] && p + lens[p] <= |s| ==> Spells(s[p..p + lens[p]])
  }

  /** Every match the scan finds spells an alternative. */
  lemma FoundSpell(s: string)
    ensures forall m :: m in ScanFrom(s, MatchLens(s), 0) ==> Spells(m)
  {
    var lens := MatchLens(s);
    forall p | 0 <= p < |s| && 0 < lens[p] && p + lens[p] <= |s|
      ensures Spells(s[p..p + lens[p]])
    {
      LensSpells(s, p, s[p..p + lens[p]]);
    }
    ScanSpells(s, lens);
  }

  /** A scan over lengths whose texts spell alternatives finds only such texts. */
  lemma ScanSpells(s: string, lens: seq<nat>)
    requires |lens| == |s| && LensSpell(s, lens)
    ensures forall m :: m in ScanFrom(s, lens, 0) ==> Spells(m)
  {
    ScanMembers(s, lens, 0);
  }

  /** The text of the match at `p` spells the alternative that matched. */
  lemma LensSpells(s: string, p: nat, m: string)
    requires p < |s| && 0 < MatchLens(s)[p] && p + MatchLens(s)[p] <= |s| && m == s[p..p + MatchLens(s)[p]]
    ensures Spells(m)
  {
    assert MatchLens(s)[p] == MatchLen(s, p);
    var k := FirstMatch(s, p, 0).value;
    assert MatchesAt(s, p, Alternatives[k]) && m == s[p..p + |Alternatives[k]|];
  }

  /**
   * `findall` scans left to right: each match is the text at its position
   * of the first alternative that matches there, the matches come in order
   * without overlapping, and no position outside them starts a match.
   */
  lemma FindAllScan(s: string)
    ensures exists ps :: ScanPositions(s, MatchLens(s), 0, FindAll(s), ps)
  {
    assert FindAll(s) == ScanFrom(s, MatchLens(s), 0);
    ScanFromPositions(s, MatchLens(s), 0);
  }

  /** The two spelled-out phrases rewritten to acronyms before matching. */
  function Clean(text: string): string {
    Replace(Replace(text, "Not the A-hole", "NTA"), "You're the A-hole", "YTA")
  }

  /**
   * A match upper-cased, with the two characters U+00C4 U+00B0 (the UTF-8
   * bytes of a dotted capital I read as Latin-1) replaced by a plain I.
   */
  function Normalize(m: string): string {
    Replace(Upper(m), "\U{00C4}\U{00B0}", "I")
  }

  /** Each match whose normal form is in the table, mapped to its judgment. */
  function Canonicalize(ms: seq<string>): (r: seq<string>)
    ensures |r| <= |ms|
    ensures forall j :: 0 <= j < |r| ==> r[j] in Judgments
  {
    if ms == [] then []
    else (if Normalize(ms[0]) in Canonical then [Canonical[Normalize(ms[0])]] else []) + Canonicalize(ms[1..])
  }

  /** `extract_judgments`: the judgments the text states, in order of occurrence. */
  function ExtractJudgments(text: string): (r: seq<string>)
    ensures forall j :: 0 <= j < |r| ==> r[j] in Judgments
  {
    Canonicalize(FindAll(Clean(text)))
  }

  /** Upper case letters and the punctuation of the alternatives. */
  predicate UpperForm(s: string) {
    forall i :: 0 <= i < |s| ==> 'A' <= s[i] <= 'Z' || s[i] == ' ' || s[i] == '-' || s[i] == '\''
  }

  lemma AlternativesAreUpperForm()
    ensures forall k :: 0 <= k < |Alternatives| ==> UpperForm(Alternatives[k]) && Alternatives[k] in Canonical
  {
    forall k | 0 <= k < |Alternatives|
      ensures UpperForm(Alternatives[k]) && Alternatives[k] in Canonical
    {
      var a := Alternatives[k];
      assert a == "YTA" || a == "NTA" || a == "ESH" || a == "NAH" || a == "INFO" || a == "YWBTA" ||
             a == "YWNBTA" || a == "NOT THE A-HOLE" || a == "YOU'RE THE ASSHOLE";
    }
  }

  /** A text that equals an upper-case form up to case upper-cases to it. */
  lemma {:induction false} UpperOfMatch(m: string, a: string)
    requires SameIgnoringCase(m, a) && UpperForm(a)
    ensures Upper(m) == a
    decreases |m|
  {
    if |m| > 0 {
      assert UpperForm(a[1..]) by {
        forall i | 0 <= i < |a[1..]| ensures 'A' <= a[1..][i] <= 'Z' || a[1..][i] == ' ' || a[1..][i] == '-' || a[1..][i] == '\'' {
          assert a[1..][i] == a[i + 1];
        }
      }
      UpperOfMatch(m[1..], a[1..]);
      assert Upper(m) == [UpperChar(m[0])] + Upper(m[1..]);
      assert a == [a[0]] + a[1..];
    }
  }

  /** Text in upper-case form is its own upper case and holds no U+00C4, so normalising leaves it alone. */
  lemma NoDottedI(a: string)
    requires UpperForm(a)
    ensures Upper(a) == a && !Contains(a, "\U{00C4}\U{00B0}")
    ensures Normalize(a) == a
  {
    assert !Contains(a, "\U{00C4}\U{00B0}") by {
      forall i | 0 <= i <= |a| - 2
        ensures !OccursAt(a, "\U{00C4}\U{00B0}", i)
      {
        assert a[i..i + 2][0] == a[i];
      }
    }
    SameSelf(a);
    UpperOfMatch(a, a);
  }

  lemma {:induction false} SameSelf(a: string)
    ensures SameIgnoringCase(a, a)
    decreases |a|
  {
    if |a| > 0 {
      SameSelf(a[1..]);
    }
  }

  /** `SameIgnoringCase` position by position. */
  lemma {:induction false} SamePointwise(a: string, b: string)
    ensures SameIgnoringCase(a, b) <==> |a| == |b| && forall i :: 0 <= i < |a| ==> LowerChar(a[i]) == LowerChar(b[i])
    decreases |a|
  {
    if |a| > 0 && |b| > 0 {
      SamePointwise(a[1..], b[1..]);
      assert forall i :: 1 <= i < |a| ==> a[i] == a[1..][i - 1];
      assert forall i :: 1 <= i < |b| ==> b[i] == b[1..][i - 1];
    }
  }

  /**
   * Every match survives the table lookup: the judgments are exactly the
   * canonical meanings of the matches, one for one, in order.
   */
  lemma {:induction false} EveryMatchKept(ms: seq<string>)
    requires forall j :: 0 <= j < |ms| ==> Spells(ms[j])
    ensures |Canonicalize(ms)| == |ms|
    ensures forall j :: 0 <= j < |ms| ==> Upper(ms[j]) in Canonical && Canonicalize(ms)[j] == Canonical[Upper(ms[j])]
    decreases |ms|
  {
    if ms != [] {
      var rest := ms[1..];
      assert forall j :: 0 <= j < |rest| ==> rest[j] == ms[j + 1];
      EveryMatchKept(rest);
      MatchNormalForm(ms[0]);
      var r := Canonicalize(ms);
      assert r == [Canonical[Upper(ms[0])]] + Canonicalize(rest);
      forall j | 0 <= j < |ms|
        ensures Upper(ms[j]) in Canonical && r[j] == Canonical[Upper(ms[j])]
      {
        if j > 0 {
          assert ms[j] == rest[j - 1];
        }
      }
    }
  }

  /** A match is already in the table's form: upper-casing it gives a key, which normalising also gives. */
  lemma MatchNormalForm(m: string)
    requires Spells(m)
    ensures Upper(m) in Canonical && Normalize(m) == Upper(m)
  {
    var k :| 0 <= k < |Alternatives| && SameIgnoringCase(m, Alternatives[k]);
    var a := Alternatives[k];
    AlternativesAreUpperForm();
    UpperOfMatch(m, a);
    NoDottedI(a);
    calc {
      Normalize(m);
      Replace(Upper(m), "\U{00C4}\U{00B0}", "I");
      { assert Upper(m) == a; }
      Replace(a, "\U{00C4}\U{00B0}", "I");
      a;
    }
  }

  /** The judgments of a text are the meanings of its whole-word matches, none dropped. */
  lemma JudgmentsAreMatches(text: string)
    ensures var ms := FindAll(Clean(text));
      && |ExtractJudgments(text)| == |ms|
      && forall j :: 0 <= j < |ms| ==> Upper(ms[j]) in Canonical && ExtractJudgments(text)[j] == Canonical[Upper(ms[j])]
  {
    EveryMatchKept(FindAll(Clean(text)));
  }

  /** No alternative of the pattern begins another one. */
  lemma NoAlternativeIsPrefix()
    ensures forall j, k :: 0 <= j < |Alternatives| && 0 <= k < |Alternatives| && j != k ==>
      !(|Alternatives[j]| <= |Alternatives[k]| && Alternatives[k][..|Alternatives[j]|] == Alternatives[j])
  {
    forall j, k | 0 <= j < |Alternatives| && 0 <= k < |Alternatives| && j != k
      ensures !(|Alternatives[j]| <= |Alternatives[k]| && Alternatives[k][..|Alternatives[j]|] == Alternatives[j])
    {
      var a, b := Alternatives[j], Alternatives[k];
      assert |a| >= 3 && |b| >= 3 && (a[0], a[1], a[2]) != (b[0], b[1], b[2]);
      assert |a| <= |b| ==> (b[..|a|][0], b[..|a|][1], b[..|a|][2]) == (b[0], b[1], b[2]);
    }
  }

  /** Two upper-case forms that agree up to case agree. */
  lemma UpperFormsAgree(a: string, b: string, n: nat)
    requires UpperForm(a) && UpperForm(b) && n <= |a| && n <= |b|
    requires forall i :: 0 <= i < n ==> LowerChar(a[i]) == LowerChar(b[i])
    ensures a[..n] == b[..n]
  {
    assert forall i :: 0 <= i < n ==> a[i] == b[i];
  }

  /** A whole text that is an alternative, in any case, is matched by that alternative alone. */
  lemma FirstMatchWhole(s: string, k: nat)
    requires k < |Alternatives| && SameIgnoringCase(s, Alternatives[k])
    ensures FirstMatch(s, 0, 0) == Some(k)
  {
    WholeMatch(s, k);
    forall j | 0 <= j < |Alternatives| && j != k
      ensures !MatchesAt(s, 0, Alternatives[j])
    {
      NoOtherMatch(s, k, j);
    }
  }

  /** The alternative a whole text spells matches it at its start. */
  lemma WholeMatch(s: string, k: nat)
    requires k < |Alternatives| && SameIgnoringCase(s, Alternatives[k])
    ensures MatchesAt(s, 0, Alternatives[k])
  {
    var a := Alternatives[k];
    AlternativesEndInLetters();
    SamePointwise(s, a);
    LetterLike(s[0], a[0]);
    LetterLike(s[|s| - 1], a[|a| - 1]);
    assert s[0..|a|] == s;
  }

  /** Every alternative starts and ends with a capital letter. */
  lemma AlternativesEndInLetters()
    ensures forall k :: 0 <= k < |Alternatives| ==>
      |Alternatives[k]| > 0 && 'A' <= Alternatives[k][0] <= 'Z' && 'A' <= Alternatives[k][|Alternatives[k]| - 1] <= 'Z'
  {
  }

  /** A character equal to a capital letter up to case is a word character. */
  lemma LetterLike(c: char, d: char)
    requires 'A' <= d <= 'Z' && LowerChar(c) == LowerChar(d)
    ensures IsWordChar(c)
  {
  }

  /** No other alternative matches at the start of a text that spells one. */
  lemma NoOtherMatch(s: string, k: nat, j: nat)
    requires k < |Alternatives| && SameIgnoringCase(s, Alternatives[k])
    requires j < |Alternatives| && j != k
    ensures !MatchesAt(s, 0, Alternatives[j])
  {
    var a, b := Alternatives[k], Alternatives[j];
    if MatchesAt(s, 0, b) {
      AlternativesAreUpperForm();
      SamePointwise(s, a);
      SamePointwise(s[0..|b|], b);
      UpperFormsAgree(a, b, |b|);
      NoAlternativeIsPrefix();
      assert false;
    }
  }

  /**
   * A text that is one alternative, in any case, and that the two phrase
   * rewrites leave alone states exactly that alternative's judgment.
   */
  lemma SingleJudgment(s: string, k: nat)
    requires k < |Alternatives| && SameIgnoringCase(s, Alternatives[k]) && Clean(s) == s
    ensures ExtractJudgments(s) == [Canonical[Alternatives[k]]]
  {
    WholeFindAll(s, k);
    MatchNormalForm(s);
    AlternativesAreUpperForm();
    UpperOfMatch(s, Alternatives[k]);
    assert Canonicalize([s]) == [Canonical[Normalize(s)]] + Canonicalize([]);
  }

  /** A text that spells one alternative is found as a single match, itself. */
  lemma WholeFindAll(s: string, k: nat)
    requires k < |Alternatives| && SameIgnoringCase(s, Alternatives[k])
    ensures FindAll(s) == [s]
  {
    FirstMatchWhole(s, k);
    SamePointwise(s, Alternatives[k]);
    assert |Alternatives[k]| == |s| > 0;
    var lens := MatchLens(s);
    assert lens[0] == MatchLen(s, 0) == |s|;
    ScanStep(s, lens, 0);
    assert s[0..|s|] == s;
    assert ScanFrom(s, lens, |s|) == [];
  }

  /** A text without a hyphen does not contain a pattern that has one. */
  lemma HyphenFree(s: string, pat: string, d: nat)
    requires '-' !in s && d < |pat| && pat[d] == '-'
    ensures !Contains(s, pat)
  {
    forall i | 0 <= i <= |s| - |pat|
      ensures !OccursAt(s, pat, i)
    {
      assert s[i..i + |pat|][d] == s[i + d];
    }
  }

  /** Text without a hyphen contains neither spelled-out phrase, so the rewrites leave it alone. */
  lemma HyphenFreeClean(s: string)
    requires '-' !in s
    ensures Clean(s) == s
  {
    HyphenFree(s, "Not the A-hole", 9);
    HyphenFree(s, "You're the A-hole", 12);
  }

  /**
   * Any spelling of an alternative, in any case and without a hyphen (an
   * abbreviation such as "ywbta", or "you're the asshole"), states exactly
   * that alternative's judgment.
   */
  lemma SynonymCanonicalised(s: string, k: nat)
    requires k < |Alternatives| && SameIgnoringCase(s, Alternatives[k]) && '-' !in s
    ensures ExtractJudgments(s) == [Canonical[Alternatives[k]]]
  {
    HyphenFreeClean(s);
    SingleJudgment(s, k);
  }

  /** "Not the a-hole" in any case but the exact one the first rewrite expects is matched by the pattern as "NTA". */
  lemma SpelledOutMeansNta(s: string)
    requires SameIgnoringCase(s, Alternatives[7]) && s != "Not the A-hole"
    ensures ExtractJudgments(s) == ["NTA"]
  {
    var pat := "Not the A-hole";
    assert s[..|pat|] == s;
    assert Replace(s, pat, "NTA") == [s[0]] + Replace(s[1..], pat, "NTA");
    assert Clean(s) == s;
    SingleJudgment(s, 7);
  }

  /** Written exactly as the first rewrite expects, "Not the A-hole" becomes "NTA" before matching. */
  lemma ExactPhraseRewritten(s: string)
    requires s == "Not the A-hole"
    ensures ExtractJudgments(s) == ["NTA"]
  {
    CleanExactPhrase();
    AcronymStatesItself();
  }

  /** The first rewrite turns the exact phrase into the acronym, which the second leaves alone. */
  lemma CleanExactPhrase()
    ensures Clean("Not the A-hole") == "NTA"
  {
    var s := "Not the A-hole";
    assert Replace(s, s, "NTA") == "NTA" + Replace([], s, "NTA");
  }

  /** "NTA" passes the rewrites unchanged and states "NTA". */
  lemma AcronymStatesItself()
    ensures Clean("NTA") == "NTA" && ExtractJudgments("NTA") == ["NTA"]
  {
    SamePointwise("NTA", Alternatives[1]);
    HyphenFreeClean("NTA");
    SingleJudgment("NTA", 1);
    NtaIsCanonical();
  }

  lemma NtaIsCanonical()
    ensures Canonical[Alternatives[1]] == "NTA"
  {
    assert Alternatives[1] == "NTA";
  }

  // ---------------------------------------------------------------------
  // The weighted vote
  // ---------------------------------------------------------------------

  /** A top comment as fetched for the vote. */
  datatype CommentRow = CommentRow(body: string, score: int)

  /** A comment's vote weight: its score, capped at 500 and at least 1. */
  function Weight(score: int): (w: int)
    ensures 1 <= w <= 500
    ensures 1 <= score <= 500 ==> w == score
  {
    if score > 500 then 500 else if score < 1 then 1 else score
  }

  /** The judgment a comment votes for: the first one it states, if any. */
  function Ballot(c: CommentRow): (b: Option<string>)
    ensures b.Some? ==> b.value in Judgments
  {
    var js := ExtractJudgments(c.body);
    if js == [] then None else Some(js[0])
  }

  /** What one comment puts into the counter: the judgment it votes for, if any, and the weight of the vote. */
  datatype Cast = Cast(ballot: Option<string>, weight: int)

  function CastOf(c: CommentRow): Cast {
    Cast(Ballot(c), Weight(c.score))
  }

  /** The casts of the comments, one per comment, in order. */
  function Casts(comments: seq<CommentRow>): (casts: seq<Cast>)
    ensures |casts| == |comments| && forall i :: 0 <= i < |comments| ==> casts[i] == CastOf(comments[i])
  {
    seq(|comments|, i requires 0 <= i < |comments| => CastOf(comments[i]))
  }

  /** Every ballot names one of the judgments, as those of comments do. */
  predicate Judged(casts: seq<Cast>) {
    forall i :: 0 <= i < |casts| && casts[i].ballot.Some? ==> casts[i].ballot.value in Judgments
  }

  /** The casts of comments name judgments and weigh at least 1. */
  lemma CastsJudged(comments: seq<CommentRow>)
    ensures Judged(Casts(comments))
    ensures forall i :: 0 <= i < |comments| ==> Casts(comments)[i].weight >= 1
  {
  }

  /** The summed weight of the casts voting for `judgment`. */
  function TotalFor(casts: seq<Cast>, judgment: string): int
    decreases |casts|
  {
    if casts == [] then 0
    else
      var c := casts[|casts| - 1];
      TotalFor(casts[..|casts| - 1], judgment) + (if c.ballot == Some(judgment) then c.weight else 0)
  }

  /** The labels in the order they first received a vote: the Counter's key order. */
  function VotedLabels(casts: seq<Cast>): (keys: seq<string>)
    ensures forall l :: l in keys ==> exists i :: 0 <= i < |casts| && casts[i].ballot == Some(l)
    decreases |casts|
  {
    if casts == [] then []
    else
      var front := casts[..|casts| - 1];
      var keys := VotedLabels(front);
      assert forall i :: 0 <= i < |front| ==> front[i] == casts[i];
      var b := casts[|casts| - 1].ballot;
      if b.Some? && b.value !in keys then keys + [b.value] else keys
  }

  /** Each label is a key once: the counter never repeats one. */
  lemma {:induction false} VotedLabelsDistinct(casts: seq<Cast>)
    ensures forall i, j :: 0 <= i < j < |VotedLabels(casts)| ==> VotedLabels(casts)[i] != VotedLabels(casts)[j]
    decreases |casts|
  {
    if casts != [] {
      var front := casts[..|casts| - 1];
      VotedLabelsDistinct(front);
      var keys, b := VotedLabels(front), casts[|casts| - 1].ballot;
      if b.Some? && b.value !in keys {
        var keys' := keys + [b.value];
        forall i, j | 0 <= i < j < |keys'|
          ensures keys'[i] != keys'[j]
        {
          assert keys'[i] == keys[i] && keys[i] in keys;
          if j < |keys| {
            assert keys'[j] == keys[j];
            assert keys[i] != keys[j];
          } else {
            assert keys'[j] == b.value;
            assert keys[i] != b.value;
          }
        }
      }
    }
  }

  /** The keys are judgments when the ballots are. */
  lemma VotedLabelsJudged(casts: seq<Cast>)
    requires Judged(casts)
    ensures forall l :: l in VotedLabels(casts) ==> l in Judgments
  {
  }

  /** A label has received a vote exactly when its total is positive (every weight is positive). */
  lemma {:induction false} VotedIffPositive(casts: seq<Cast>, judgment: string)
    requires forall i :: 0 <= i < |casts| ==> casts[i].weight >= 1
    ensures judgment in VotedLabels(casts) <==> TotalFor(casts, judgment) > 0
    ensures TotalFor(casts, judgment) >= 0
    decreases |casts|
  {
    if casts != [] {
      var front := casts[..|casts| - 1];
      assert forall i :: 0 <= i < |front| ==> front[i] == casts[i];
      VotedIffPositive(front, judgment);
    }
  }

  /**
   * The position `max` settles on: a largest total, the first one among
   * equals since only a strictly larger total replaces the current best.
   */
  function FirstLargest(keys: seq<string>, votes: map<string, int>): (t: nat)
    requires |keys| > 0 && forall l :: l in keys ==> l in votes
    ensures t < |keys|
    ensures forall i :: 0 <= i < |keys| ==> votes[keys[i]] <= votes[keys[t]]
    ensures forall i :: 0 <= i < t ==> votes[keys[i]] < votes[keys[t]]
    decreases |keys|
  {
    if |keys| == 1 then 0
    else
      var front := keys[..|keys| - 1];
      var b := FirstLargest(front, votes);
      assert forall i :: 0 <= i < |front| ==> keys[i] == front[i];
      if votes[keys[|keys| - 1]] > votes[keys[b]] then |keys| - 1 else b
  }

  /** The vote's totals, keyed by label. */
  function Totals(casts: seq<Cast>): map<string, int> {
    map l | l in VotedLabels(casts) :: TotalFor(casts, l)
  }

  /** `votes.most_common(1)`, kept only when it is a judgment; `None` when nobody voted. */
  function Vote(casts: seq<Cast>): (v: Option<string>)
    ensures v.Some? ==> v.value in Judgments
  {
    var keys := VotedLabels(casts);
    if keys == [] then None
    else
      var top := keys[FirstLargest(keys, Totals(casts))];
      if top in Judgments then Some(top) else None
  }

  /** Some cast carries a ballot. */
  predicate AnyBallot(casts: seq<Cast>) {
    exists i :: 0 <= i < |casts| && casts[i].ballot.Some?
  }

  /** Labels receive votes exactly when some cast carries a ballot. */
  lemma {:induction false} NoVoteMeansNoKeys(casts: seq<Cast>)
    ensures VotedLabels(casts) != [] <==> AnyBallot(casts)
    decreases |casts|
  {
    if casts != [] {
      var n := |casts| - 1;
      var front := casts[..n];
      NoVoteMeansNoKeys(front);
      assert forall i :: 0 <= i < n ==> front[i] == casts[i];
      if AnyBallot(casts) && casts[n].ballot.None? {
        var i :| 0 <= i < |casts| && casts[i].ballot.Some?;
        assert front[i] == casts[i];
      }
    }
  }

  /** Among ballots that all name judgments, there is a vote exactly when some comment states a judgment. */
  lemma VoteIffBallot(casts: seq<Cast>)
    requires Judged(casts)
    ensures Vote(casts).Some? <==> AnyBallot(casts)
  {
    NoVoteMeansNoKeys(casts);
    VotedLabelsJudged(casts);
  }

  /**
   * The vote goes to a label with the largest total; every label with the
   * same total received its first vote later.
   */
  lemma VoteIsHeaviest(casts: seq<Cast>)
    requires forall i :: 0 <= i < |casts| ==> casts[i].weight >= 1
    ensures Vote(casts).Some? ==>
      var w := Vote(casts).value;
      var keys := VotedLabels(casts);
      && TotalFor(casts, w) > 0
      && (forall l :: TotalFor(casts, l) <= TotalFor(casts, w))
      && (forall i :: 0 <= i < |keys| && TotalFor(casts, keys[i]) == TotalFor(casts, w) ==>
            exists t :: 0 <= t <= i && keys[t] == w)
  {
    var keys := VotedLabels(casts);
    if keys != [] {
      var t := FirstLargest(keys, Totals(casts));
      HeaviestKey(casts, t);
      FirstAmongEquals(casts, t);
    }
  }

  /** The key `max` picks has a positive total, and no label has a larger one. */
  lemma HeaviestKey(casts: seq<Cast>, t: nat)
    requires forall i :: 0 <= i < |casts| ==> casts[i].weight >= 1
    requires VotedLabels(casts) != [] && t == FirstLargest(VotedLabels(casts), Totals(casts))
    ensures TotalFor(casts, VotedLabels(casts)[t]) > 0
    ensures forall l :: TotalFor(casts, l) <= TotalFor(casts, VotedLabels(casts)[t])
  {
    VotedIffPositive(casts, VotedLabels(casts)[t]);
    forall l
      ensures TotalFor(casts, l) <= TotalFor(casts, VotedLabels(casts)[t])
    {
      NoHeavier(casts, t, l);
    }
  }

  lemma NoHeavier(casts: seq<Cast>, t: nat, l: string)
    requires forall i :: 0 <= i < |casts| ==> casts[i].weight >= 1
    requires VotedLabels(casts) != [] && t == FirstLargest(VotedLabels(casts), Totals(casts))
    ensures TotalFor(casts, l) <= TotalFor(casts, VotedLabels(casts)[t])
  {
    var keys, votes := VotedLabels(casts), Totals(casts);
    VotedIffPositive(casts, keys[t]);
    VotedIffPositive(casts, l);
    if l in keys {
      var i :| 0 <= i < |keys| && keys[i] == l;
      assert votes[keys[i]] <= votes[keys[t]];
    }
  }

  /** Every key with the same total as the one `max` picks comes no earlier. */
  lemma FirstAmongEquals(casts: seq<Cast>, t: nat)
    requires VotedLabels(casts) != [] && t == FirstLargest(VotedLabels(casts), Totals(casts))
    ensures var keys := VotedLabels(casts);
      forall i :: 0 <= i < |keys| && TotalFor(casts, keys[i]) == TotalFor(casts, keys[t]) ==>
        exists t' :: 0 <= t' <= i && keys[t'] == keys[t]
  {
    var keys, votes := VotedLabels(casts), Totals(casts);
    forall i | 0 <= i < |keys| && TotalFor(casts, keys[i]) == TotalFor(casts, keys[t])
      ensures exists t' :: 0 <= t' <= i && keys[t'] == keys[t]
    {
      assert votes[keys[i]] == votes[keys[t]];
      assert !(i < t);
    }
  }

  /** One more cast: its weight goes to its ballot, which becomes a key if it was not one. */
  lemma TallyPush(casts: seq<Cast>, c: Cast)
    ensures forall l :: TotalFor(casts + [c], l) == TotalFor(casts, l) + (if c.ballot == Some(l) then c.weight else 0)
    ensures VotedLabels(casts + [c]) == if c.ballot.Some? && c.ballot.value !in VotedLabels(casts) then VotedLabels(casts) + [c.ballot.value] else VotedLabels(casts)
  {
    assert (casts + [c])[..|casts|] == casts;
  }

  /** The tally of YTA 15, NTA 10, YTA 5. */
  lemma ExampleTally()
    ensures var cs := [Cast(Some("YTA"), 15), Cast(Some("NTA"), 10), Cast(Some("YTA"), 5)];
      VotedLabels(cs) == ["YTA", "NTA"] && TotalFor(cs, "YTA") == 20 && TotalFor(cs, "NTA") == 10
  {
    var c0, c1, c2 := Cast(Some("YTA"), 15), Cast(Some("NTA"), 10), Cast(Some("YTA"), 5);
    TallyPush([], c0);
    TallyPush([c0], c1);
    TallyPush([c0, c1], c2);
    assert [c0] == [] + [c0] && [c0, c1] == [c0] + [c1] && [c0, c1, c2] == [c0, c1] + [c2];
  }

  /** YTA 15 and YTA 5 outweigh NTA 10. */
  lemma VoteExample()
    ensures Vote([Cast(Some("YTA"), 15), Cast(Some("NTA"), 10), Cast(Some("YTA"), 5)]) == Some("YTA")
  {
    var cs := [Cast(Some("YTA"), 15), Cast(Some("NTA"), 10), Cast(Some("YTA"), 5)];
    ExampleTally();
    var keys, votes := VotedLabels(cs), Totals(cs);
    assert votes["YTA"] == 20 && votes["NTA"] == 10;
    assert FirstLargest(keys, votes) == 0;
  }

  /** The tally of NTA 10, YTA 10. */
  lemma TieTally()
    ensures var cs := [Cast(Some("NTA"), 10), Cast(Some("YTA"), 10)];
      VotedLabels(cs) == ["NTA", "YTA"] && TotalFor(cs, "NTA") == 10 && TotalFor(cs, "YTA") == 10
  {
    var c0, c1 := Cast(Some("NTA"), 10), Cast(Some("YTA"), 10);
    TallyPush([], c0);
    TallyPush([c0], c1);
    assert [c0] == [] + [c0] && [c0, c1] == [c0] + [c1];
    assert "YTA" != "NTA" by { assert "YTA"[0] != "NTA"[0]; }
  }

  /** On an exact tie the label that was voted for first wins; the post is not left unlabelled. */
  lemma TieExample()
    ensures Vote([Cast(Some("NTA"), 10), Cast(Some("YTA"), 10)]) == Some("NTA")
  {
    var cs := [Cast(Some("NTA"), 10), Cast(Some("YTA"), 10)];
    TieTally();
    var keys, votes := VotedLabels(cs), Totals(cs);
    assert votes["NTA"] == 10 && votes["YTA"] == 10;
    assert FirstLargest(keys, votes) == 0;
  }

  // ---------------------------------------------------------------------
  // The decision chain
  // ---------------------------------------------------------------------

  /** A submission row as read for labelling. */
  datatype Submission = Submission(id: string, title: Option<string>, flair: Option<string>)

  /** A junk keyword in the upper-cased title, or a junk flair. */
  predicate IsJunk(s: Submission) {
    var title := Upper(if s.title.Some? then s.title.value else "");
    (exists k :: 0 <= k < |JunkTitleKeywords| && Contains(title, JunkTitleKeywords[k]))
      || (s.flair.Some? && s.flair.value in JunkFlairs)
  }

  /** The flair's meaning, when it has one. */
  function FlairVerdict(flair: Option<string>): (v: Option<string>)
    ensures v.Some? <==> flair.Some? && flair.value in FlairMapping
    ensures v.Some? ==> v.value in Judgments && v.value != "INFO"
  {
    if flair.Some? && flair.value in FlairMapping then
      FlairMeanings(flair.value);
      Some(FlairMapping[flair.value])
    else None
  }

  /** Every flair with a meaning means YTA, NTA, ESH or NAH. */
  lemma FlairMeanings(f: string)
    requires f in FlairMapping
    ensures FlairMapping[f] in {"YTA", "NTA", "ESH", "NAH"}
  {
  }

  /** Whether the comments have to be fetched: neither junk nor a flair with a meaning. */
  predicate NeedsComments(s: Submission) {
    !IsJunk(s) && FlairVerdict(s.flair).None?
  }

  /**
   * The verdict of one submission, given what the comment query returned
   * (`None` when it failed, which counts as no comments).
   */
  function Decide(s: Submission, fetched: Option<seq<CommentRow>>): (verdict: string)
    ensures verdict == Junk <==> IsJunk(s)
    ensures verdict in Judgments || verdict == Junk || verdict == Unknown
  {
    if IsJunk(s) then Junk
    else if FlairVerdict(s.flair).Some? then FlairVerdict(s.flair).value
    else CommentVerdict(fetched)
  }

  /** The verdict the comments give: the vote, or "UNKNOWN" without one. */
  function CommentVerdict(fetched: Option<seq<CommentRow>>): (verdict: string)
    ensures verdict in Judgments || verdict == Unknown
  {
    var comments := if fetched.Some? then fetched.value else [];
    var v := Vote(Casts(comments));
    if v.Some? then v.value else Unknown
  }

  /** Junk beats a meaningful flair and any comments. */
  lemma JunkFirst(s: Submission, fetched: Option<seq<CommentRow>>)
    requires IsJunk(s)
    ensures Decide(s, fetched) == Junk
  {
  }

  /** A meaningful flair decides, whatever the comments say. */
  lemma FlairDecides(s: Submission, f: Option<seq<CommentRow>>, g: Option<seq<CommentRow>>)
    requires !IsJunk(s) && s.flair.Some? && s.flair.value in FlairMapping
    ensures Decide(s, f) == Decide(s, g) == FlairMapping[s.flair.value]
  {
  }

  /** A junk title keyword wins even over a flair that means "not the a-hole". */
  lemma JunkTitleExample()
    ensures Decide(Submission("x", Some("Update: my sister"), Some("Not the A-hole")), None) == Junk
  {
    var s := Submission("x", Some("Update: my sister"), Some("Not the A-hole"));
    var title := Upper("Update: my sister");
    assert title[..7] == "UPDATE:";
    assert OccursAt(title, JunkTitleKeywords[0], 0);
    assert IsJunk(s);
  }

  /** The "POO Mode Activated" flair, spelled with the four characters the table holds, marks a post as junk. */
  lemma PooFlairIsJunk()
    ensures Decide(Submission("x", None, Some("POO Mode Activated \U{00F0}\U{0178}\U{2019}\U{00A9}")), None) == Junk
  {
    var s := Submission("x", None, Some("POO Mode Activated \U{00F0}\U{0178}\U{2019}\U{00A9}"));
    assert s.flair.value in JunkFlairs;
    JunkFirst(s, None);
  }

  /** Without comments, or with none stating a judgment, the verdict is "UNKNOWN". */
  lemma NoJudgmentUnknown(s: Submission, fetched: Option<seq<CommentRow>>)
    requires NeedsComments(s)
    requires fetched.Some? ==> forall i :: 0 <= i < |fetched.value| ==> ExtractJudgments(fetched.value[i].body) == []
    ensures Decide(s, fetched) == Unknown
  {
    var comments := if fetched.Some? then fetched.value else [];
    CastsJudged(comments);
    VoteIffBallot(Casts(comments));
  }

  /** When some comment states a judgment, the verdict is a judgment with the largest total weight. */
  lemma CommentsDecide(s: Submission, comments: seq<CommentRow>)
    requires NeedsComments(s) && exists i :: 0 <= i < |comments| && ExtractJudgments(comments[i].body) != []
    ensures Decide(s, Some(comments)) in Judgments
    ensures forall l :: TotalFor(Casts(comments), l) <= TotalFor(Casts(comments), Decide(s, Some(comments)))
  {
    var casts := Casts(comments);
    var i :| 0 <= i < |comments| && ExtractJudgments(comments[i].body) != [];
    assert casts[i].ballot.Some?;
    CastsJudged(comments);
    VoteIffBallot(casts);
    VoteIsHeaviest(casts);
  }

  // ---------------------------------------------------------------------
  // The labelling loop
  // ---------------------------------------------------------------------

  /** One `UPDATE submissions SET verdict = ... WHERE id = ...`. */
  datatype Update = Update(verdict: string, id: string)

  /** The update for every submission, in order, given each one's verdict. */
  function Updates(subs: seq<Submission>, verdictOf: Submission -> string): (us: seq<Update>)
    ensures |us| == |subs|
    decreases |subs|
  {
    if subs == [] then []
    else Updates(subs[..|subs| - 1], verdictOf) + [Update(verdictOf(subs[|subs| - 1]), subs[|subs| - 1].id)]
  }

  /** The verdicts `label` writes: each submission decided on the comments fetched for it. */
  function Verdicts(fetch: string -> Option<seq<CommentRow>>): Submission -> string {
    (s: Submission) => Decide(s, fetch(s.id))
  }

  /** The ids whose comments are queried, in order. */
  function Queried(subs: seq<Submission>): seq<string>
    decreases |subs|
  {
    if subs == [] then []
    else Queried(subs[..|subs| - 1]) + (if NeedsComments(subs[|subs| - 1]) then [subs[|subs| - 1].id] else [])
  }

  /** Exactly one update per submission, carrying its id and its verdict, in order. */
  lemma {:induction false} OneUpdatePerSubmission(subs: seq<Submission>, verdictOf: Submission -> string)
    ensures |Updates(subs, verdictOf)| == |subs|
    ensures forall i :: 0 <= i < |subs| ==> Updates(subs, verdictOf)[i] == Update(verdictOf(subs[i]), subs[i].id)
    decreases |subs|
  {
    if subs != [] {
      var front := subs[..|subs| - 1];
      OneUpdatePerSubmission(front, verdictOf);
      forall i | 0 <= i < |subs|
        ensures Updates(subs, verdictOf)[i] == Update(verdictOf(subs[i]), subs[i].id)
      {
        if i < |front| {
          assert front[i] == subs[i];
        }
      }
    }
  }

  /**
   * The counter of the vote: each comment that states a judgment adds its
   * weight to the first judgment it states; a label becomes a key when it
   * first receives a vote.
   */
  method Tally(comments: seq<CommentRow>) returns (keys: seq<string>, votes: map<string, int>)
    ensures keys == VotedLabels(Casts(comments))
    ensures votes == Totals(Casts(comments))
  {
    keys := [];
    votes := map[];
    for i := 0 to |comments|
      invariant Counted(keys, votes, Casts(comments[..i]))
    {
      CastsPrefix(comments, i);
      keys, votes := CountComment(keys, votes, comments[i], Casts(comments[..i]));
    }
    assert comments[..|comments|] == comments;
    CountedTotals(keys, votes, Casts(comments));
  }

  lemma CastsPrefix(comments: seq<CommentRow>, i: nat)
    requires i < |comments|
    ensures Casts(comments[..i + 1]) == Casts(comments[..i]) + [CastOf(comments[i])]
  {
    assert comments[..i + 1] == comments[..i] + [comments[i]];
    CastsPush(comments[..i], comments[i]);
  }

  lemma CastsPush(comments: seq<CommentRow>, c: CommentRow)
    ensures Casts(comments + [c]) == Casts(comments) + [CastOf(c)]
  {
  }

  /** The counter's state after the casts `seen`: its keys in first-vote order, each with its total. */
  ghost predicate Counted(keys: seq<string>, votes: map<string, int>, seen: seq<Cast>) {
    && keys == VotedLabels(seen)
    && (forall l :: l in votes <==> l in keys)
    && (forall l :: l in votes ==> votes[l] == TotalFor(seen, l))
  }

  lemma CountedTotals(keys: seq<string>, votes: map<string, int>, seen: seq<Cast>)
    requires Counted(keys, votes, seen)
    ensures votes == Totals(seen)
  {
  }

  /** One comment's vote: the first judgment it states, weighted by its score. */
  method CountComment(keys: seq<string>, votes: map<string, int>, c: CommentRow, ghost seen: seq<Cast>)
    returns (keys': seq<string>, votes': map<string, int>)
    requires Counted(keys, votes, seen)
    ensures Counted(keys', votes', seen + [CastOf(c)])
  {
    var judgments := ExtractJudgments(c.body);
    var ballot := if judgments == [] then None else Some(judgments[0]);
    keys', votes' := Count(keys, votes, ballot, Weight(c.score), seen);
  }

  /** `votes[judgment] += weight`, the key added on its first vote. */
  method Count(keys: seq<string>, votes: map<string, int>, ballot: Option<string>, weight: int, ghost seen: seq<Cast>)
    returns (keys': seq<string>, votes': map<string, int>)
    requires Counted(keys, votes, seen)
    ensures Counted(keys', votes', seen + [Cast(ballot, weight)])
  {
    TallyPush(seen, Cast(ballot, weight));
    keys', votes' := keys, votes;
    if ballot.Some? {
      var judgment := ballot.value;
      if judgment !in votes {
        votes' := votes'[judgment := 0];
        keys' := keys' + [judgment];
        TotalAbsent(seen, judgment);
      }
      votes' := votes'[judgment := votes'[judgment] + weight];
    }
  }

  /** A label without a vote has a zero total. */
  lemma {:induction false} TotalAbsent(casts: seq<Cast>, judgment: string)
    requires judgment !in VotedLabels(casts)
    ensures TotalFor(casts, judgment) == 0
    decreases |casts|
  {
    if casts != [] {
      TotalAbsent(casts[..|casts| - 1], judgment);
    }
  }

  /** The verdict of one submission, fetching its comments only when they are needed. */
  method DecideOne(s: Submission, fetch: string -> Option<seq<CommentRow>>)
    returns (verdict: string, queried: bool)
    ensures verdict == Decide(s, fetch(s.id))
    ensures queried == NeedsComments(s)
  {
    queried := false;
    var title := Upper(if s.title.Some? then s.title.value else "");
    var junkTitle := false;
    for k := 0 to |JunkTitleKeywords|
      invariant junkTitle == exists j :: 0 <= j < k && Contains(title, JunkTitleKeywords[j])
    {
      if Contains(title, JunkTitleKeywords[k]) {
        junkTitle := true;
      }
    }
    if junkTitle || (s.flair.Some? && s.flair.value in JunkFlairs) {
      verdict := Junk;
    } else {
      var mapped := FlairVerdict(s.flair);
      if mapped.None? {
        queried := true;
        var fetched := fetch(s.id);
        var comments := if fetched.Some? then fetched.value else [];
        var v: Option<string> := None;
        if comments != [] {
          var keys, votes := Tally(comments);
          if keys != [] {
            var top := keys[FirstLargest(keys, votes)];
            if top in Judgments {
              v := Some(top);
            }
          }
        }
        verdict := if v.Some? then v.value else Unknown;
      } else {
        verdict := mapped.value;
      }
    }
  }

  /** Labelling one more submission adds its update and, when it needs its comments, its query. */
  lemma LabelStep(done: seq<Submission>, s: Submission, fetch: string -> Option<seq<CommentRow>>)
    ensures Updates(done + [s], Verdicts(fetch)) == Updates(done, Verdicts(fetch)) + [Update(Decide(s, fetch(s.id)), s.id)]
    ensures Queried(done + [s]) == Queried(done) + (if NeedsComments(s) then [s.id] else [])
  {
    assert (done + [s])[..|done|] == done;
  }

  /**
   * `label`: one update per submission, written in batches of `batchSize`
   * with a final partial batch; `queried` lists the submissions whose
   * comments were fetched.
   */
  method LabelSubmissions(subs: seq<Submission>, fetch: string -> Option<seq<CommentRow>>, batchSize: int)
    returns (batches: seq<seq<Update>>, updatedCount: nat, queried: seq<string>)
    ensures Flatten(batches) == Updates(subs, Verdicts(fetch))
    ensures WellBatched(batches, EffectiveSize(batchSize))
    ensures updatedCount == |subs|
    ensures queried == Queried(subs)
  {
    var n := EffectiveSize(batchSize);
    var updates: seq<Update> := [];
    batches := [];
    updatedCount := 0;
    queried := [];
    for i := 0 to |subs|
      invariant Flatten(batches) + updates == Updates(subs[..i], Verdicts(fetch))
      invariant forall b :: 0 <= b < |batches| ==> |batches[b]| == n
      invariant |updates| < n
      invariant updatedCount == |Flatten(batches)|
      invariant queried == Queried(subs[..i])
    {
      var verdict, asked := DecideOne(subs[i], fetch);
      assert subs[..i + 1] == subs[..i] + [subs[i]];
      LabelStep(subs[..i], subs[i], fetch);
      if asked {
        queried := queried + [subs[i].id];
      }
      var written;
      batches, updates, written := Add(batches, updates, Update(verdict, subs[i].id), batchSize);
      updatedCount := updatedCount + written;
    }
    assert subs[..|subs|] == subs;
    var written;
    batches, written := Flush(batches, updates, n);
    updatedCount := updatedCount + written;
  }
}
