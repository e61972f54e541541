/**
 * adjudicator.py: `adjudicate` resolves the API key, embeds and retrieves,
 * polls the jury, stops early when nothing was retrieved, and otherwise
 * writes the judge's context, asks the judge, and merges the judge's
 * citations with the retrieved records. The embedder, the database, the
 * jury and the judge are parameters; the method records the calls it makes.
 */
module Adjudication {
  import opened Wrappers
  import opened Text
  import opened Retrieval
  import opened Models
  import opened Dicts

  // ---------------------------------------------------------------------
  // The API key
  // ---------------------------------------------------------------------

  /** An optional string is truthy when present and non-empty. */
  predicate Truthy(s: Option<string>) {
    s.Some? && s.value != ""
  }

  /** The argument if truthy, else the environment variable; `None` when neither is. */
  function ResolveKey(arg: Option<string>, env: Option<string>): (key: Option<string>)
    ensures key.Some? <==> Truthy(arg) || Truthy(env)
    ensures key.Some? ==> key.value != "" && (key == arg || key == env)
    ensures Truthy(arg) ==> key == arg
  {
    if Truthy(arg) then arg else if Truthy(env) then env else None
  }

  const MissingKeyMessage: string := "GEMINI_API_KEY must be provided or set in environment."
  const NoPrecedentsMessage: string := "No relevant precedents found"

  // ---------------------------------------------------------------------
  // The context handed to the judge
  // ---------------------------------------------------------------------

  /** How long the excerpts of a precedent's text and of a comment's body may be. */
  const FactsExcerpt: nat := 1000
  const CommentExcerpt: nat := 200

  /** `- {label}: {prob * 100:.2f}%`, the number written by `percent`. */
  function JuryLine(name: string, prob: real, percent: real -> string): string {
    "- " + name + ": " + percent(prob * 100.0) + "%\n"
  }

  /** One jury line per label, in the dict's order. */
  function JuryLines(c: Consensus, percent: real -> string): string
    requires forall l :: l in c.labels ==> l in c.probs
    decreases |c.labels|
  {
    if c.labels == [] then ""
    else
      var n := |c.labels| - 1;
      JuryLines(Consensus(c.labels[..n], c.probs), percent) + JuryLine(c.labels[n], c.probs[c.labels[n]], percent)
  }

  /** The line quoting a comment: its author, score and the start of its body. */
  function CommentLine(c: Comment): string {
    "- " + Shown(c.author) + " (Score " + IntToString(c.score) + "): " + SliceTo(c.body, CommentExcerpt) + "...\n"
  }

  function CommentLines(cs: seq<Comment>): string
    decreases |cs|
  {
    if cs == [] then "" else CommentLines(cs[..|cs| - 1]) + CommentLine(cs[|cs| - 1])
  }

  /** The first line of a precedent's block: its number, id and title. */
  function CaseHeading(number: nat, p: Precedent): string {
    "CASE " + IntToString(number) + ": ID `" + p.id + "` - Title: " + p.title + "\n"
  }

  /** The flair of the precedent, as the official verdict. */
  function VerdictLine(p: Precedent): string {
    "Official Reddit Verdict: " + Shown(p.verdict) + "\n"
  }

  /** The line quoting the facts of a precedent: the start of its text. */
  function FactsLine(p: Precedent): string {
    "Facts: " + SliceTo(p.text, FactsExcerpt) + "...\n"
  }

  const JudgmentsHeading: string := "Top Judgments from the Jury:\n"
  const CaseSeparator: string := "\n---\n"

  /** The block of the `number`-th precedent. */
  function CaseBlock(number: nat, p: Precedent): string {
    CaseHeading(number, p) + VerdictLine(p) + FactsLine(p) + JudgmentsHeading + CommentLines(p.comments) + CaseSeparator
  }

  /** The blocks of `ps`, written by `render` and numbered from `first` on. */
  function Blocks(ps: seq<Precedent>, first: nat, render: (nat, Precedent) -> string): string
    decreases |ps|
  {
    if ps == [] then "" else render(first, ps[0]) + Blocks(ps[1..], first + 1, render)
  }

  /** The blocks of two runs of precedents, the second numbered on from the first. */
  lemma {:induction false} BlocksAppend(ps: seq<Precedent>, qs: seq<Precedent>, first: nat, render: (nat, Precedent) -> string)
    ensures Blocks(ps + qs, first, render) == Blocks(ps, first, render) + Blocks(qs, first + |ps|, render)
    decreases |ps|
  {
    if ps == [] {
      assert ps + qs == qs;
    } else {
      BlocksAppend(ps[1..], qs, first + 1, render);
      assert (ps + qs)[1..] == ps[1..] + qs;
    }
  }

  /**
   * The `i`-th precedent (from 0) is written as case number `i + 1`, after
   * the cases of the precedents before it and before those after it.
   */
  lemma CaseNumbering(ps: seq<Precedent>, i: nat, render: (nat, Precedent) -> string)
    requires i < |ps|
    ensures Blocks(ps, 1, render) == Blocks(ps[..i], 1, render) + render(i + 1, ps[i]) + Blocks(ps[i + 1..], i + 2, render)
  {
    var rest := [ps[i]] + ps[i + 1..];
    assert ps == ps[..i] + rest;
    BlocksAppend(ps[..i], rest, 1, render);
    assert rest[0] == ps[i] && rest[1..] == ps[i + 1..];
    assert Blocks(rest, i + 1, render) == render(i + 1, ps[i]) + Blocks(ps[i + 1..], i + 2, render);
  }

  const EvidenceHeading: string := "### CURRENT EVIDENCE PROVIDED BY THE PLAINTIFF:\n\n"
  const PollingHeading: string := "### PRE-DELIBERATION JURY POLLING:\n"
  const CasesHeading: string := "### RELEVANT CASE LAW (PRECEDENTS):\n\n"

  /** The whole context: the scenario, the jury's poll and the precedents. */
  function Context(scenario: string, c: Consensus, ps: seq<Precedent>, percent: real -> string): string
    requires forall l :: l in c.labels ==> l in c.probs
  {
    EvidenceHeading + scenario + "\n\n" + PollingHeading + JuryLines(c, percent) + "\n" + CasesHeading + Blocks(ps, 1, CaseBlock)
  }

  /** The quoted facts are the first 1000 characters of the precedent's text, or all of it when shorter. */
  lemma FactsAreExcerpt(p: Precedent)
    ensures exists f ::
      && FactsLine(p) == "Facts: " + f + "...\n"
      && |f| == (if |p.text| < FactsExcerpt then |p.text| else FactsExcerpt)
      && f == p.text[..|f|]
  {
    var f := SliceTo(p.text, FactsExcerpt);
    assert FactsLine(p) == "Facts: " + f + "...\n";
  }

  /** The quoted body is the first 200 characters of the comment's body, or all of it when shorter. */
  lemma CommentIsExcerpt(c: Comment)
    ensures exists b ::
      && CommentLine(c) == "- " + Shown(c.author) + " (Score " + IntToString(c.score) + "): " + b + "...\n"
      && |b| == (if |c.body| < CommentExcerpt then |c.body| else CommentExcerpt)
      && b == c.body[..|b|]
  {
    var b := SliceTo(c.body, CommentExcerpt);
    assert CommentLine(c) == "- " + Shown(c.author) + " (Score " + IntToString(c.score) + "): " + b + "...\n";
  }

  lemma Regroup(x: string, a: string, b: string, c: string, d: string, e: string, f: string)
    ensures x + a + b + c + d + e + f == x + (a + b + c + d + e + f)
  {
  }

  lemma Assoc(x: string, a: string, b: string)
    ensures x + a + b == x + (a + b)
  {
  }

  /** One more precedent adds its block, numbered after those before it. */
  lemma BlocksPush(ps: seq<Precedent>, i: nat, render: (nat, Precedent) -> string)
    requires i < |ps|
    ensures Blocks(ps[..i + 1], 1, render) == Blocks(ps[..i], 1, render) + render(i + 1, ps[i])
  {
    assert ps[..i + 1] == ps[..i] + [ps[i]];
    BlocksAppend(ps[..i], [ps[i]], 1, render);
    assert Blocks([ps[i]], 1 + i, render) == render(i + 1, ps[i]) + Blocks([], i + 2, render);
  }

  /** The body of the precedent loop: the block of case `number`, appended line by line. */
  method WriteCase(context: string, number: nat, p: Precedent) returns (written: string)
    ensures written == context + CaseBlock(number, p)
  {
    written := context + CaseHeading(number, p);
    written := written + VerdictLine(p);
    written := written + FactsLine(p);
    written := written + JudgmentsHeading;
    ghost var quoted := written;
    for j := 0 to |p.comments|
      invariant written == quoted + CommentLines(p.comments[..j])
    {
      assert p.comments[..j + 1][..j] == p.comments[..j];
      Assoc(quoted, CommentLines(p.comments[..j]), CommentLine(p.comments[j]));
      written := written + CommentLine(p.comments[j]);
    }
    assert p.comments[..|p.comments|] == p.comments;
    written := written + CaseSeparator;
    Regroup(context, CaseHeading(number, p), VerdictLine(p), FactsLine(p), JudgmentsHeading, CommentLines(p.comments), CaseSeparator);
  }

  /** The context-building loops of `adjudicate`, appending to one string. */
  method BuildContext(scenario: string, c: Consensus, ps: seq<Precedent>, percent: real -> string)
    returns (context: string)
    requires forall l :: l in c.labels ==> l in c.probs
    ensures context == Context(scenario, c, ps, percent)
  {
    context := EvidenceHeading;
    context := context + scenario + "\n\n";
    context := context + PollingHeading;
    ghost var polled := context;
    for i := 0 to |c.labels|
      invariant context == polled + JuryLines(Consensus(c.labels[..i], c.probs), percent)
    {
      assert c.labels[..i + 1][..i] == c.labels[..i];
      Assoc(polled, JuryLines(Consensus(c.labels[..i], c.probs), percent), JuryLine(c.labels[i], c.probs[c.labels[i]], percent));
      context := context + JuryLine(c.labels[i], c.probs[c.labels[i]], percent);
    }
    assert c.labels[..|c.labels|] == c.labels;
    context := context + "\n";
    context := context + CasesHeading;
    ghost var headed := context;
    for i := 0 to |ps|
      invariant context == headed + Blocks(ps[..i], 1, CaseBlock)
    {
      BlocksPush(ps, i, CaseBlock);
      Assoc(headed, Blocks(ps[..i], 1, CaseBlock), CaseBlock(i + 1, ps[i]));
      context := WriteCase(context, i + 1, ps[i]);
    }
    assert ps[..|ps|] == ps;
  }

  // ---------------------------------------------------------------------
  // The judge's citations, enriched
  // ---------------------------------------------------------------------

  /** One entry of the judge's `precedents` array. */
  datatype Citation = Citation(caseId: string, comparison: string)

  /** The judge's parsed response. */
  datatype JudgeOutput = JudgeOutput(verdict: string, openingStatement: string, facts: string,
                                     precedents: seq<Citation>, deliberation: string)

  /**
   * An enriched citation: a copy of the retrieved record with the judge's
   * comparison added, or the judge's citation as it came.
   */
  datatype Cited = Matched(record: Precedent, comparison: string) | Unmatched(cite: Citation)

  /** `{p["id"]: p for p in precedents}`: the retrieved records by id, a later record with the same id winning. */
  function RecordMap(ps: seq<Precedent>): map<string, Precedent> {
    KeyedBy(ps, (p: Precedent) => p.id)
  }

  /** What one citation becomes. */
  function EnrichOne(cite: Citation, records: map<string, Precedent>): Cited {
    if cite.caseId in records then Matched(records[cite.caseId], cite.comparison) else Unmatched(cite)
  }

  /** Every citation enriched, in the judge's order. */
  function EnrichAll(cites: seq<Citation>, records: map<string, Precedent>): (r: seq<Cited>)
    ensures |r| == |cites|
    decreases |cites|
  {
    if cites == [] then [] else EnrichAll(cites[..|cites| - 1], records) + [EnrichOne(cites[|cites| - 1], records)]
  }

  /**
   * The enriched list has the judge's length and order; a citation of a
   * retrieved id becomes that record, unchanged, with the judge's
   * comparison; any other citation passes through as it was.
   */
  lemma {:induction false} EnrichmentShape(cites: seq<Citation>, ps: seq<Precedent>)
    ensures |EnrichAll(cites, RecordMap(ps))| == |cites|
    ensures forall i :: 0 <= i < |cites| ==>
      var e := EnrichAll(cites, RecordMap(ps))[i];
      if exists j :: 0 <= j < |ps| && ps[j].id == cites[i].caseId then
        e.Matched? && e.record in ps && e.record.id == cites[i].caseId && e.comparison == cites[i].comparison
      else e == Unmatched(cites[i])
  {
    EnrichPointwise(cites, RecordMap(ps));
  }

  /** Citation `i` of the enriched list is citation `i` of the judge, enriched. */
  lemma {:induction false} EnrichPointwise(cites: seq<Citation>, records: map<string, Precedent>)
    ensures forall i :: 0 <= i < |cites| ==> EnrichAll(cites, records)[i] == EnrichOne(cites[i], records)
    decreases |cites|
  {
    if cites != [] {
      var n := |cites| - 1;
      EnrichPointwise(cites[..n], records);
      forall i | 0 <= i < n
        ensures EnrichAll(cites, records)[i] == EnrichOne(cites[i], records)
      {
        assert cites[..n][i] == cites[i];
      }
    }
  }

  /** The enrichment loop of `adjudicate`. */
  method Enrich(cites: seq<Citation>, ps: seq<Precedent>) returns (enriched: seq<Cited>)
    ensures enriched == EnrichAll(cites, RecordMap(ps))
  {
    var records := RecordMap(ps);
    enriched := [];
    for i := 0 to |cites|
      invariant enriched == EnrichAll(cites[..i], records)
    {
      assert cites[..i + 1][..i] == cites[..i];
      var cid := cites[i].caseId;
      if cid in records {
        enriched := enriched + [Matched(records[cid], cites[i].comparison)];
      } else {
        enriched := enriched + [Unmatched(cites[i])];
      }
    }
    assert cites[..|cites|] == cites;
  }

  // ---------------------------------------------------------------------
  // adjudicate
  // ---------------------------------------------------------------------

  /** The raw rankings returned beside the answer. */
  datatype Diagnostics = Diagnostics(vector: seq<Hit>, keyword: seq<Hit>, hybrid: seq<Fused>)

  /** What `adjudicate` returns when it does not raise. */
  datatype Outcome =
    | NoPrecedents(error: string, consensus: Consensus, diagnostics: Diagnostics)
    | Ruling(verdict: string, openingStatement: string, facts: string, precedents: seq<Cited>,
             deliberation: string, consensus: Consensus, diagnostics: Diagnostics)

  /** The outside world `adjudicate` talks to. */
  datatype Services = Services(
    env: Option<string>,
    embed: string -> seq<real>,
    index: Index,
    jury: string -> seq<real>,
    judge: (string, string) -> Option<JudgeOutput>,
    percent: real -> string)

  /** An outside call, in the order they are made. */
  datatype Call = Embed(text: string) | Retrieve(query: string) | Poll(text: string) | Judge(context: string)

  /**
   * `adjudicate`: raises without a key before calling anything; returns the
   * error record without calling the judge when nothing was retrieved; and
   * otherwise asks the judge and enriches its citations. A judge response
   * that does not parse is the exception `json.loads` raises.
   */
  method Adjudicate(scenario: string, apiKey: Option<string>, embeddingDim: int, kPrecedents: int, services: Services)
    returns (outcome: Result<Outcome, string>, calls: seq<Call>)
    ensures ResolveKey(apiKey, services.env).None? ==> outcome == Failure(MissingKeyMessage) && calls == []
    ensures ResolveKey(apiKey, services.env).Some? ==>
      (|calls| >= 3 && calls[..3] == [Embed(scenario), Retrieve(scenario), Poll(scenario)])
    ensures ResolveKey(apiKey, services.env).Some? && RetrievedFor(scenario, embeddingDim, kPrecedents, services) == [] ==>
      (outcome == Success(NoPrecedents(NoPrecedentsMessage, Predict(services.jury(scenario)), Diagnose(scenario, embeddingDim, services)))
       && |calls| == 3)
    ensures ResolveKey(apiKey, services.env).Some? && RetrievedFor(scenario, embeddingDim, kPrecedents, services) != [] ==>
      (var retrieved := RetrievedFor(scenario, embeddingDim, kPrecedents, services);
       var context := Context(scenario, Predict(services.jury(scenario)), retrieved, services.percent);
       var response := services.judge(ResolveKey(apiKey, services.env).value, context);
       && calls == [Embed(scenario), Retrieve(scenario), Poll(scenario), Judge(context)]
       && (response.None? ==> outcome.Failure?)
       && (response.Some? ==> outcome == Success(Ruling(
             response.value.verdict, response.value.openingStatement, response.value.facts,
             EnrichAll(response.value.precedents, RecordMap(retrieved)), response.value.deliberation,
             Predict(services.jury(scenario)), Diagnose(scenario, embeddingDim, services)))))
  {
    var key := ResolveKey(apiKey, services.env);
    if key.None? {
      return Failure(MissingKeyMessage), [];
    }
    var precedents, consensus, diagnostics := Gather(scenario, embeddingDim, kPrecedents, services);
    outcome, calls := Hear(scenario, key.value, precedents, consensus, diagnostics, services);
  }

  /** `adjudicate` once it has a key and the retrieved precedents: return the error record when there are none, and otherwise ask the judge. */
  method Hear(scenario: string, key: string, precedents: seq<Precedent>, consensus: Consensus,
              diagnostics: Diagnostics, services: Services)
    returns (outcome: Result<Outcome, string>, calls: seq<Call>)
    requires forall l :: l in consensus.labels ==> l in consensus.probs
    ensures |calls| >= 3 && calls[..3] == [Embed(scenario), Retrieve(scenario), Poll(scenario)]
    ensures precedents == [] ==> outcome == Success(NoPrecedents(NoPrecedentsMessage, consensus, diagnostics)) && |calls| == 3
    ensures precedents != [] ==>
      (var context := Context(scenario, consensus, precedents, services.percent);
       var response := services.judge(key, context);
       && calls == [Embed(scenario), Retrieve(scenario), Poll(scenario), Judge(context)]
       && (response.None? ==> outcome.Failure?)
       && (response.Some? ==> outcome == Success(Ruling(
             response.value.verdict, response.value.openingStatement, response.value.facts,
             EnrichAll(response.value.precedents, RecordMap(precedents)), response.value.deliberation,
             consensus, diagnostics))))
  {
    calls := [Embed(scenario), Retrieve(scenario), Poll(scenario)];
    if precedents == [] {
      return Success(NoPrecedents(NoPrecedentsMessage, consensus, diagnostics)), calls;
    }
    var context;
    outcome, context := Rule(scenario, key, consensus, precedents, diagnostics, services);
    calls := calls + [Judge(context)];
    assert calls[..3] == [Embed(scenario), Retrieve(scenario), Poll(scenario)];
  }

  /** Embed and retrieve, and poll the jury. */
  method Gather(scenario: string, embeddingDim: int, kPrecedents: int, services: Services)
    returns (precedents: seq<Precedent>, consensus: Consensus, diagnostics: Diagnostics)
    ensures precedents == RetrievedFor(scenario, embeddingDim, kPrecedents, services)
    ensures consensus == Predict(services.jury(scenario))
    ensures diagnostics == Diagnose(scenario, embeddingDim, services)
  {
    var vector := Encode(services.embed(scenario), embeddingDim);
    var vRes, kRes, hRank;
    precedents, vRes, kRes, hRank := RetrievePrecedents(services.index, vector, scenario, kPrecedents);
    consensus := Predict(services.jury(scenario));
    diagnostics := Diagnostics(vRes, kRes, hRank);
  }

  /** The judge's part: write the context, ask the judge, and enrich its citations. */
  method Rule(scenario: string, key: string, consensus: Consensus, precedents: seq<Precedent>,
              diagnostics: Diagnostics, services: Services)
    returns (outcome: Result<Outcome, string>, context: string)
    requires forall l :: l in consensus.labels ==> l in consensus.probs
    ensures context == Context(scenario, consensus, precedents, services.percent)
    ensures services.judge(key, context).None? ==> outcome.Failure?
    ensures services.judge(key, context).Some? ==>
      (var result := services.judge(key, context).value;
       outcome == Success(Ruling(result.verdict, result.openingStatement, result.facts,
                                 EnrichAll(result.precedents, RecordMap(precedents)), result.deliberation,
                                 consensus, diagnostics)))
  {
    context := BuildContext(scenario, consensus, precedents, services.percent);
    var response := services.judge(key, context);
    if response.None? {
      return Failure("the judge's response is not valid JSON"), context;
    }
    var result := response.value;
    var enriched := Enrich(result.precedents, precedents);
    outcome := Success(Ruling(result.verdict, result.openingStatement, result.facts, enriched,
                              result.deliberation, consensus, diagnostics));
  }

  /** The rankings the searches and the fusion produce for the scenario. */
  function Diagnose(scenario: string, embeddingDim: int, services: Services): Diagnostics {
    var vr := services.index.vectorSearch(Encode(services.embed(scenario), embeddingDim));
    var kr := services.index.keywordSearch(Bm25Query(Sanitized(scenario)));
    Diagnostics(vr, kr, Rrf(vr, kr, RrfK, TopRankBonus))
  }

  /** The precedents `retrieve_precedents` returns for the scenario. */
  function RetrievedFor(scenario: string, embeddingDim: int, kPrecedents: int, services: Services): seq<Precedent> {
    var hr := Diagnose(scenario, embeddingDim, services).hybrid;
    var top := TopIds(hr, kPrecedents);
    if top == [] then []
    else Assemble(top, SubmissionMap(services.index.fetchSubmissions(top)), services.index.fetchComments(top), hr)
  }
}
