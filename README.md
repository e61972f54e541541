# People's Court: a verified model of the corpus pipeline and the retrieval core

This project models, in Dafny, the parts of the People's Court system that
have statable logic:

- the offline corpus pipeline: stream splitting, submission filters with a
  seen-id set, batched inserts, per-submission top-3 comment heaps
  (`01_ingest.py`), verdict labelling by junk tables, flair mapping and a
  score-weighted comment vote (`02_label.py`), and the class-balanced export
  (`05_generate_training_data.py`);
- the online path: Reciprocal Rank Fusion with a top-rank bonus,
  keyword sanitising, the BM25 query string, the top-k slice, comment
  grouping and precedent assembly (`db.py`), embedding truncation and the
  jury's label order (`models.py`), and `adjudicate`'s API key check,
  early exit, context text and citation enrichment (`adjudicator.py`).

One module per source file:

| file | module | source |
|---|---|---|
| wrappers.dfy | `Wrappers` | `Option` and `Result` |
| text.dfy | `Text` | the Python string operations the code relies on: `s[:n]` with a negative stop, `str.replace`, `str.split`, `str.strip`, ASCII `str.upper` |
| batching.dfy | `Batching` | the "flush when `len(rows) >= batch_size`, then flush the rest" loops |
| dicts.dfy | `Dicts` | the `{key(x): x for x in xs}` comprehension that `db.py` and `adjudicator.py` both use |
| scanning.dfy | `Scanning` | the left-to-right, non-overlapping scan of `re.findall` |
| retrieval.dfy | `Retrieval` | `backend/src/peoples_court/db.py` |
| ingest.dfy | `Ingest` | `data_processing/01_ingest.py` |
| labeling.dfy | `Labeling` | `data_processing/02_label.py` |
| models.dfy | `Models` | `backend/src/peoples_court/models.py` |
| adjudication.dfy | `Adjudication` | `backend/src/peoples_court/adjudicator.py` |
| training_data.dfy | `TrainingData` | `data_processing/05_generate_training_data.py` |

The code that changes state step by step is imperative Dafny. Each such
method but the last below is proved equal to a specification function:

- `RrfCombine` folds both rankings into an insertion-ordered key list and a
  score map, then sorts.
- `SanitizeKeywords` runs the replace loop.
- `GroupComments` fills the comment lists.
- `StreamLines` carries the partial line across chunks.
- `IngestSubmissions`, `RetainComments` and `LabelSubmissions` run the
  ingest and label loops.
- `Tally` keeps the `Counter`.
- `BuildContext` appends to the context, and `Enrich` builds the enriched
  list.
- `GenDataset` groups, caps and shuffles. Its sampling and shuffling are
  random, so it is not equal to one function: its contract states the
  failure case, the length, where each example comes from and how many of
  each label it holds.

The properties are proved as lemmas about those functions.

Some behaviours of the code worth stating plainly:

- A tie in the comment vote goes to the label that received a vote first
  (`Counter.most_common` keeps insertion order), so a tied post is labelled.
- A winning `INFO` is a valid verdict.
- Equal fused scores keep first-seen order: vector ids first, then new
  keyword ids. Python's sort is stable under `reverse=True`, and nothing
  else breaks a tie.
- Only the first line of the keyword query is used.
- A precedent's `verdict` field is the submission's `link_flair_text`.
- The label tables compare the characters the code literally holds. The
  "POO Mode Activated" junk flair ends in the four characters U+00F0
  U+0178 U+2019 U+00A9 (`ðŸ’©`). The match normalisation replaces the two
  characters U+00C4 U+00B0 (`Ä°`) by `I`.

## Model

| member | source | states |
|---|---|---|
| Text.SliceTo | backend/src/peoples_court/db.py:118 | `s[:n]`: a prefix of `s`, of length `min(n, len s)` for `n >= 0` and `len s + n` (at least 0) for a negative `n` |
| Text.ReplaceChar | backend/src/peoples_court/db.py:100-101 | replacing one character by another keeps the length and changes exactly the positions holding that character |
| Text.Replace | data_processing/02_label.py:100-102 | `str.replace` leaves a text that does not contain the pattern unchanged |
| Text.JoinSplit | data_processing/01_ingest.py:51 | `split("\n")` loses nothing: joining the pieces with the separator gives back the text |
| Text.Split | data_processing/01_ingest.py:51 | `split` yields at least one piece and no piece holds the separator |
| Text.Strip | backend/src/peoples_court/db.py:99 | `strip()` gives the part of the text between a leading and a trailing run of whitespace, and that part neither starts nor ends with whitespace |
| Text.Upper | data_processing/02_label.py:140 | `upper()` keeps the length and upper-cases each ASCII letter in place |
| Batching.Add | data_processing/01_ingest.py:118-140 | appending a row and flushing a full batch loses and reorders nothing, every flushed batch is full, the pending list stays shorter than the batch size, and the written count grows by the rows flushed |
| Batching.Flush | data_processing/01_ingest.py:142-148 | the final flush writes the pending rows after the full batches; the result is well batched (all full but a non-empty, smaller last one) |
| Batching.WellBatchedUnique | data_processing/01_ingest.py:133-148 | the batches are determined by the rows: two well-batched splittings of the same rows are equal |
| Batching.EffectiveSize | data_processing/01_ingest.py:133 | the number of rows held before a flush: the batch size when it is positive, 1 otherwise (`len(rows) >= batch_size` then flushes every row) |
| Dicts.KeyedBy | backend/src/peoples_court/db.py:128 | `{key(x): x for x in xs}` (also `adjudicator.py:120`): the keys are exactly the keys of the elements, and each maps to the last element of the list with that key |
| Retrieval.RrfCombine | backend/src/peoples_court/db.py:37-62 | the method's two fold loops and its sort return exactly `Rrf` of the two rankings |
| Retrieval.AddRanking | backend/src/peoples_court/db.py:56-61 | one fold loop: the keys become the first-occurrence order of all ids seen, and each id's score grows by its rank scores in this list |
| Retrieval.AddHit | backend/src/peoples_court/db.py:57-58 | `scores[id] = scores.get(id, 0) + 1/(k+rank) + boost`: only `id` changes and a new id goes to the end of the key order |
| Retrieval.ScoreItems | backend/src/peoples_court/db.py:55-61 | the dict's items before sorting: ids in first-seen order (vector list first) and each score is the id's fused score |
| Retrieval.FusionCoversRankings | backend/src/peoples_court/db.py:55-62 | every id of either list appears exactly once in the fusion, no other id appears, each score is the sum of `1/(k+r)` over its positions plus the bonus at rank 1, and the output is non-increasing |
| Retrieval.SortByScore | backend/src/peoples_court/db.py:62 | `sorted(..., reverse=True)` is a permutation, non-increasing, and keeps the order of equal scores |
| Retrieval.FusionTiesKeepFirstSeenOrder | backend/src/peoples_court/db.py:55-62 | the entries with any given score appear in the fusion in first-seen order (vector ids first, then new keyword ids) |
| Retrieval.InsertSorted | backend/src/peoples_court/db.py:62 | inserting into a non-increasing list keeps it non-increasing |
| Retrieval.FusionOfOneList | backend/src/peoples_court/db.py:56-62 | with one list empty and the other duplicate-free, the fused order is that list's order |
| Retrieval.ContributionDecreases | backend/src/peoples_court/db.py:57-58 | a later rank contributes strictly less (for a non-negative bonus) |
| Retrieval.SortKeepsStrictlyDecreasing | backend/src/peoples_court/db.py:62 | sorting a list whose scores strictly decrease leaves it as it is |
| Retrieval.RankScoreDistinct | backend/src/peoples_court/db.py:56-58 | in a duplicate-free list, an id's rank score is the contribution of its one position |
| Retrieval.FirstInBothWins | backend/src/peoples_court/db.py:56-62 | an id at rank 1 in both lists scores strictly more than any other id and heads the fusion |
| Retrieval.EmptyFusion | backend/src/peoples_court/db.py:55-62 | two empty lists fuse to nothing |
| Retrieval.SanitizeKeywords | backend/src/peoples_court/db.py:99-101 | the replace loop computes `Sanitized` |
| Retrieval.BlankEach | backend/src/peoples_court/db.py:100-101 | replacing each listed character in turn blanks exactly the positions holding one of them |
| Retrieval.Sanitized | backend/src/peoples_court/db.py:99-101 | the cleaned query has the length of the stripped first line, no newline and none of `: ( ) [ ] " ? * - / \` |
| Retrieval.TitleGroupEnclosesKeywords | backend/src/peoples_court/db.py:112 | in `title:(q)^2 OR selftext:(q)` the first `)` closes the title group exactly when `q` has none, which always holds for a sanitised query |
| Retrieval.TopIds | backend/src/peoples_court/db.py:118 | `hybrid_rankings[:k]`'s ids: a prefix of the fused ids, exactly `min(k, n)` of them for `k >= 0` |
| Retrieval.GroupComments | backend/src/peoples_court/db.py:135-142 | the dict of comment lists: a submission with comments gets its first three rows' comments in row order, and a submission without comments is absent |
| Retrieval.TopComments | backend/src/peoples_court/db.py:139-142 | exactly `min(3, n)` comments, the first ones of the submission in row order, all of them when there are at most three |
| Retrieval.FirstScore | backend/src/peoples_court/db.py:155-157 | `next(score for sid, score in ... if sid == id)`: the score of the first entry with that id |
| Retrieval.AssemblePrecedents | backend/src/peoples_court/db.py:144-160 | the assembly loop computes `Assemble` |
| Retrieval.AssembleContents | backend/src/peoples_court/db.py:144-160 | one precedent per top id whose row was found, in that order, each copying the row's fields (verdict = flair), carrying its top comments (at most 3) and its first fused score |
| Retrieval.FoundIsSubsequence | backend/src/peoples_court/db.py:145-146 | the ids of the precedents are a subsequence of the top ids |
| Retrieval.PrecedentsInFusedOrder | backend/src/peoples_court/db.py:117-160 | for any `k`: each precedent has its fused score as relevance, the precedents are in non-increasing relevance, and there are at most `k` of them when `k >= 0` |
| Retrieval.RetrievePrecedents | backend/src/peoples_court/db.py:64-161 | the results are the two searches (the keyword one with the sanitised BM25 query), their fusion, and no precedents when the top slice is empty, otherwise the assembled ones |
| Ingest.StreamLines | data_processing/01_ingest.py:43-56 | the chunk loop yields exactly the complete non-empty lines of the concatenated stream |
| Ingest.YieldNonEmpty | data_processing/01_ingest.py:54-56 | the inner loop yields the non-empty pieces in order |
| Ingest.CompleteLinesAppend | data_processing/01_ingest.py:50-52 | carrying the text after the last newline into the next chunk gives the same lines as splitting the whole text |
| Ingest.SplitAppend | data_processing/01_ingest.py:50-52 | splitting `t + c` is splitting `t` without its last piece, then splitting that piece followed by `c` |
| Ingest.LinesAreNonEmptyAndWhole | data_processing/01_ingest.py:54-56 | every yielded line is non-empty and holds no newline |
| Ingest.UnterminatedTailNotYielded | data_processing/01_ingest.py:52-56 | text after the last newline at the end of the stream is never yielded |
| Ingest.TerminatedRoundTrip | data_processing/01_ingest.py:43-56 | newline-terminated lines come back as exactly the non-empty ones, and nothing is left pending |
| Ingest.NonEmptyAppend | data_processing/01_ingest.py:54-56 | the `if line` filter distributes over concatenation |
| Ingest.Pass1Sound | data_processing/01_ingest.py:106-117 | every kept row has a non-empty id not already in the database, `score` (0 when missing) at least `min_score`, text that is not a removal marker, and an author that is not a bot; no id is kept twice; the seen set is the old ids plus the kept ones |
| Ingest.Pass1Origin | data_processing/01_ingest.py:106-130 | each kept row is the row of a record that qualifies (non-empty id, score at least `min_score`, text not a removal marker, `is_self` true), taken at strictly increasing stream positions |
| Ingest.Pass1Complete | data_processing/01_ingest.py:106-117 | every record that passes the filters has its id in the final seen set, and the seen set only grows |
| Ingest.IngestSubmissions | data_processing/01_ingest.py:100-148 | the rows written are exactly pass 1's, in batches of `batch_size` with a smaller last one, and `inserted_count` is their number |
| Ingest.OfferFullHeap | data_processing/01_ingest.py:187-190 | a full heap is unchanged exactly when the new score is at most every kept score, so an equal score does not replace the minimum |
| Ingest.MinPos | data_processing/01_ingest.py:189-190 | `heap[0]`: an entry no other is below in the heap order, with the least score |
| Ingest.ReplaceMin | data_processing/01_ingest.py:190 | `heapreplace` swaps the least entry for the new one and keeps the size |
| Ingest.RetainTopThree | data_processing/01_ingest.py:186-190 | after all offers a heap holds `min(3, n)` of the entries, and no dropped entry scores more than a kept one |
| Ingest.RetainBounded | data_processing/01_ingest.py:187-190 | a heap never holds more than three entries |
| Ingest.RetainFew | data_processing/01_ingest.py:187-188 | up to three offered entries are all kept, as a multiset |
| Ingest.RetainPush | data_processing/01_ingest.py:186-190 | retention is one offer per comment, in stream order |
| Ingest.RetainExample | data_processing/01_ingest.py:186-190 | scores 3, 9, 1, 7, 5 leave 9, 7 and 5 |
| Ingest.ReplaceStep | data_processing/01_ingest.py:189-190 | replacing the least entry by a strictly larger one keeps the heap a sub-multiset of the offered entries that no dropped entry outscores |
| Ingest.KeepStep | data_processing/01_ingest.py:189 | rejecting an entry no larger than the minimum keeps the same invariant |
| Ingest.RetainComments | data_processing/01_ingest.py:155-190 | pass 2 makes a heap exactly for the submissions with a considered comment, each the retention of that submission's considered comments in stream order |
| Ingest.OfferComment | data_processing/01_ingest.py:163-190 | one line of pass 2 keeps every heap equal to the retention of its submission's considered comments |
| Ingest.PushHeap | data_processing/01_ingest.py:187-190 | the push-or-replace step computes `Offer` |
| Ingest.CommentsForKnown | data_processing/01_ingest.py:166 | a submission that was not ingested gets no comments |
| Ingest.LinkOfStripsPrefix | data_processing/01_ingest.py:163 | `link_id.replace("t3_", "")` turns `t3_x` into the submission id `x` |
| Ingest.RepliesNotConsidered | data_processing/01_ingest.py:171-172 | a comment whose parent is another comment (`t1_...`), or that has no parent, is not a top-level comment and is skipped |
| Ingest.IdLessTotal | data_processing/01_ingest.py:188-190 | Python's string order on comment ids, which breaks equal-score ties in the heap tuples, relates any two distinct ids in exactly one direction |
| Ingest.IdLessTransitive | data_processing/01_ingest.py:188-190 | and it is transitive, so the heap order is a strict order |
| Ingest.IngestAll | data_processing/01_ingest.py:92-190 | both passes over the streamed lines: pass 1's rows in batches, and pass 2's heaps over the ids known after pass 1 |
| Labeling.FirstMatch | data_processing/02_label.py:19-22 | at a position the first alternative that matches as a whole word, and none before it |
| Labeling.FindAll | data_processing/02_label.py:103 | every match `findall` returns spells one of the alternatives, ignoring case |
| Labeling.FindAllScan | data_processing/02_label.py:103 | the matches sit at strictly increasing, non-overlapping positions; each is the text there of the first alternative that matches as a whole word; and no position outside them starts a match |
| Scanning.ScanFromPositions | data_processing/02_label.py:103 | a left-to-right scan finds its matches at increasing, non-overlapping positions, each the match text at its position, and skips no position that starts a match |
| Scanning.ScanMembers | data_processing/02_label.py:103 | every match of the scan is the match text at some position of the input |
| Labeling.Canonicalize | data_processing/02_label.py:104-108 | the list comprehension keeps at most one judgment per match, each one of YTA, NTA, ESH, NAH and INFO |
| Labeling.ExtractJudgments | data_processing/02_label.py:98-108 | only the labels YTA, NTA, ESH, NAH and INFO come out |
| Labeling.JudgmentsAreMatches | data_processing/02_label.py:103-108 | the judgments are the canonical meanings of the matches, one for each, in text order |
| Labeling.EveryMatchKept | data_processing/02_label.py:104-108 | no match is dropped by the `in CANONICAL` filter |
| Labeling.MatchNormalForm | data_processing/02_label.py:105-107 | a match upper-cases to a key of the table, and the dotted-I fold changes nothing |
| Labeling.AlternativesAreUpperForm | data_processing/02_label.py:19-33 | every alternative of the pattern is a key of the table |
| Labeling.NoAlternativeIsPrefix | data_processing/02_label.py:20 | no alternative begins another, so the order of the alternatives does not decide a match |
| Labeling.FirstMatchWhole | data_processing/02_label.py:19-22 | a text that spells an alternative in any case is matched by that alternative |
| Labeling.SingleJudgment | data_processing/02_label.py:98-108 | such a text, left alone by the rewrites, states exactly that alternative's judgment |
| Labeling.SynonymCanonicalised | data_processing/02_label.py:19-33 | case-insensitively, YWBTA means YTA, YWNBTA NTA, "you're the asshole" YTA, and each acronym itself |
| Labeling.SpelledOutMeansNta | data_processing/02_label.py:19-33 | "not the a-hole" in any case but the exact one the rewrite expects means NTA |
| Labeling.ExactPhraseRewritten | data_processing/02_label.py:100 | the exact phrase "Not the A-hole" is rewritten to NTA and means NTA |
| Labeling.HyphenFreeClean | data_processing/02_label.py:100-102 | the two rewrites leave a text without a hyphen unchanged |
| Labeling.Weight | data_processing/02_label.py:166 | `max(1, min(score, 500))` is in [1, 500] and is the score itself within that range |
| Labeling.Ballot | data_processing/02_label.py:163-166 | a comment votes only with its first judgment |
| Labeling.Casts | data_processing/02_label.py:162-166 | one cast per comment, in order |
| Labeling.CastsJudged | data_processing/02_label.py:163-166 | every cast names a judgment and weighs at least 1 |
| Labeling.VotedLabelsDistinct | data_processing/02_label.py:161-166 | the counter's keys are distinct |
| Labeling.VotedLabels | data_processing/02_label.py:161-166 | every key received a vote |
| Labeling.VotedIffPositive | data_processing/02_label.py:161-168 | a label is a key exactly when its total is positive |
| Labeling.TallyPush | data_processing/02_label.py:166 | one more cast adds its weight to its label, which becomes the last key when new |
| Labeling.FirstLargest | data_processing/02_label.py:169 | `most_common(1)` picks a largest count, the first of equals in key order |
| Labeling.Vote | data_processing/02_label.py:168-171 | the vote, when there is one, is one of the judgments |
| Labeling.VoteIffBallot | data_processing/02_label.py:160-171 | there is a vote exactly when some comment states a judgment |
| Labeling.VoteIsHeaviest | data_processing/02_label.py:161-171 | the vote goes to a label with the largest positive total, which received its first vote no later than any label tied with it |
| Labeling.ExampleTally | data_processing/02_label.py:161-166 | YTA 15, NTA 10, YTA 5 count to YTA 20 and NTA 10 |
| Labeling.VoteExample | data_processing/02_label.py:161-171 | and the vote goes to YTA |
| Labeling.TieExample | data_processing/02_label.py:169-171 | NTA 10 then YTA 10 is a tie and NTA, voted first, wins |
| Labeling.Decide | data_processing/02_label.py:140-173 | the verdict is JUNK exactly for junk posts (a junk title keyword, or a flair in the junk table with its literal characters), and is otherwise a judgment or UNKNOWN |
| Labeling.JunkFirst | data_processing/02_label.py:144-145 | a junk title keyword or junk flair gives JUNK whatever the flair or comments |
| Labeling.JunkTitleExample | data_processing/02_label.py:140-145 | "Update: my sister" is junk even with the flair "Not the A-hole" |
| Labeling.PooFlairIsJunk | data_processing/02_label.py:34-53 | the flair "POO Mode Activated" followed by U+00F0 U+0178 U+2019 U+00A9 makes a post junk |
| Labeling.FlairVerdict | data_processing/02_label.py:147 | `FLAIR_MAPPING.get(flair)` gives a verdict exactly for a mapped flair, and that verdict is a judgment other than INFO |
| Labeling.FlairMeanings | data_processing/02_label.py:54-87 | every mapped flair means YTA, NTA, ESH or NAH |
| Labeling.CommentVerdict | data_processing/02_label.py:149-173 | the comment fallback gives a judgment or UNKNOWN |
| Labeling.FlairDecides | data_processing/02_label.py:147-148 | a mapped flair fixes the verdict and the comments do not matter |
| Labeling.NoJudgmentUnknown | data_processing/02_label.py:155-173 | no comments, a failed query, or no judgment in any comment give UNKNOWN |
| Labeling.CommentsDecide | data_processing/02_label.py:160-171 | when some comment states a judgment, the verdict is a judgment with the largest total |
| Labeling.Tally | data_processing/02_label.py:161-166 | the counter loop builds the keys in first-vote order and each label's total |
| Labeling.CountComment | data_processing/02_label.py:163-166 | one comment's step keeps the counter equal to the totals of the comments so far |
| Labeling.Count | data_processing/02_label.py:166 | `votes[j] += w` keeps the counter's keys and totals |
| Labeling.DecideOne | data_processing/02_label.py:139-173 | the loop body computes `Decide`, and queries the comments exactly when neither the junk tables nor the flair decide |
| Labeling.OneUpdatePerSubmission | data_processing/02_label.py:138-173 | exactly one (verdict, id) update per submission, in order |
| Labeling.LabelSubmissions | data_processing/02_label.py:135-200 | the updates written are one per submission, in batches of `batch_size` with a smaller last one, and the count is the number of submissions |
| Models.Encode | backend/src/peoples_court/models.py:120-126 | the result is a prefix of the embedding, of length `min(dim, len)` for `dim >= 0`, and the whole embedding when `dim >= len` |
| Models.EncodeComposes | backend/src/peoples_court/models.py:124-125 | truncating to `d` and then to `d' <= d` is truncating to `d'` |
| Models.EncodeIdempotent | backend/src/peoples_court/models.py:124-125 | truncating twice to the same `d` is truncating once |
| Models.Predict | backend/src/peoples_court/models.py:100-111 | the keys are the label list zipped with the probabilities, in the label order, each with its probability |
| Models.PredictKeys | backend/src/peoples_court/models.py:100-111 | with four probabilities the keys are exactly NTA, YTA, ESH, NAH, in that order |
| Adjudication.ResolveKey | backend/src/peoples_court/adjudicator.py:36-40 | a key exists exactly when the argument or the environment variable is non-empty, and the argument wins |
| Adjudication.Adjudicate | backend/src/peoples_court/adjudicator.py:36-137 | with no key it fails with the message before any call; otherwise it embeds, retrieves and polls the jury, returns the error dict without calling the judge when nothing was retrieved, and otherwise calls the judge on the context and returns its answer with enriched citations, the jury output and the raw rankings |
| Adjudication.Gather | backend/src/peoples_court/adjudicator.py:49-57 | the embedding, the retrieval and the jury poll give the retrieved precedents, the consensus and the raw rankings, as functions of the scenario |
| Adjudication.Hear | backend/src/peoples_court/adjudicator.py:49-137 | given a key and the gathered results: no precedents return the error record after three calls, otherwise the judge is called on the context and its answer comes back enriched |
| Adjudication.Rule | backend/src/peoples_court/adjudicator.py:66-137 | the context is `Context` of the scenario, consensus and precedents; a judge answer that does not parse fails, and a parsed one comes back with its citations enriched and the consensus and rankings added |
| Adjudication.BuildContext | backend/src/peoples_court/adjudicator.py:67-83 | the `+=` loops build exactly `Context` |
| Adjudication.WriteCase | backend/src/peoples_court/adjudicator.py:75-83 | one iteration appends the precedent's case block |
| Adjudication.CaseNumbering | backend/src/peoples_court/adjudicator.py:74-83 | the blocks are numbered 1..n in retrieval order: the i-th precedent's block, numbered i+1, sits between the earlier and the later ones |
| Adjudication.BlocksAppend | backend/src/peoples_court/adjudicator.py:74-83 | the blocks of two lists are the blocks of each, numbering continued |
| Adjudication.FactsAreExcerpt | backend/src/peoples_court/adjudicator.py:77 | the facts line quotes the first `min(1000, len)` characters of the text |
| Adjudication.CommentIsExcerpt | backend/src/peoples_court/adjudicator.py:81 | a comment line shows the author (`None` when NULL) and the score, and quotes the first `min(200, len)` characters of the body |
| Adjudication.Enrich | backend/src/peoples_court/adjudicator.py:121-131 | the loop computes `EnrichAll` |
| Adjudication.EnrichAll | backend/src/peoples_court/adjudicator.py:121-131 | one entry per citation |
| Adjudication.EnrichmentShape | backend/src/peoples_court/adjudicator.py:120-133 | same length and order as the citations; a citation of a retrieved id becomes that record with the comparison added, and any other passes through unchanged |
| TrainingData.Bucket | data_processing/05_generate_training_data.py:43-47 | a verdict's bucket holds examples of that verdict, each made from a fetched row |
| TrainingData.BucketIsVerdictRows | data_processing/05_generate_training_data.py:43-47 | the bucket is exactly the rows with that verdict, as examples, in row order, each once |
| TrainingData.GroupByVerdict | data_processing/05_generate_training_data.py:43-47 | the grouping loop gives each of the four verdicts its bucket, text = title + "\n\n" + selftext and label = verdict |
| TrainingData.Cap | data_processing/05_generate_training_data.py:51-53 | a class contributes `min(count, target_max)` of its examples, duplicate-free as a sub-multiset, and all of them when not capped |
| TrainingData.Sample | data_processing/05_generate_training_data.py:53 | `random.sample(items, n)`: `n` entries drawn without replacement |
| TrainingData.CapClasses | data_processing/05_generate_training_data.py:49-54 | the class loop: a negative `target_max` fails as `random.sample` does, and otherwise the output is the classes' contributions in class order |
| TrainingData.Shuffle | data_processing/05_generate_training_data.py:56 | `random.shuffle` only permutes |
| TrainingData.GenDataset | data_processing/05_generate_training_data.py:43-56 | the export has the sum of the contributions as its length, holds only examples of fetched rows with one of the four labels, and each label appears `min(count, target_max)` times, drawn from its bucket |
| TrainingData.FlattenLength | data_processing/05_generate_training_data.py:49-54 | the output length is the sum of the per-class contributions |
| TrainingData.ExportedPerClass | data_processing/05_generate_training_data.py:49-56 | after the shuffle each class still has exactly its contribution, and so no label exceeds `target_max` |
| TrainingData.ExportedFromRows | data_processing/05_generate_training_data.py:43-56 | every exported example comes from a fetched row and carries one of the four labels |
| TrainingData.WithLabelPermutation | data_processing/05_generate_training_data.py:56 | a permutation keeps each label's examples as a multiset |
| TrainingData.WithLabelFlatten | data_processing/05_generate_training_data.py:50-54 | the examples of one class in the concatenation are exactly that class's piece |

## Left out

- The SQL and ParadeDB queries are not modelled: cosine search, BM25
  scoring, `ON CONFLICT`, `TRUNCATE`, commits and rollbacks. Their results
  are inputs: the `Index` functions in `Retrieval`, the `parse` and `fetch`
  parameters in `Ingest` and `Labeling`, and the rows of `TrainingData`.
  A failed comment query in `label` is a `None` from `fetch`.
- Zstandard decompression and UTF-8 decoding with `errors="ignore"` are not
  modelled. The stream is a sequence of already-decoded chunks, and a
  missing file is an empty stream.
- JSON parsing is not modelled. It is a parameter returning `None` for a
  line that does not decode.
- Pass 2 of `ingest` after the heaps are built is not modelled: the
  flattening of the heaps into comment rows and their batched insert
  (`data_processing/01_ingest.py:192-210`). They are database writes. The
  model's result is the heaps.
- Logging and progress messages are not modelled.
- Floating point is not modelled. RRF scores are exact `real`s, so ties
  that floating-point rounding would create or break are not captured.
  The jury's probabilities are inputs, and the `%.2f` formatting is a
  parameter `percent`.
- The embedding model, the jury model and the Gemini judge are not
  modelled. They are parameters of `Adjudicate`. `Adjudicate` records the
  calls it makes instead of performing them.
- Randomness is not modelled. `random.sample` and `random.shuffle` are
  nondeterministic choices: any duplicate-free sub-multiset of the right
  size, and any permutation.
- The regular expression engine is modelled by a concrete scanner.
  `\b` is ASCII word characters only and case folding is ASCII only, so
  Unicode word characters and case pairs beyond ASCII are not captured.
- `str.upper` is modelled on ASCII letters only, and `str.strip` on a fixed
  set of whitespace characters.
- Text.Replace: only states that a text without the pattern is unchanged.
  The full contents are stated by `ReplaceChar` for single characters and
  by the rewrite lemmas of `Labeling`.
- Ingest.IngestSubmissions: a record whose `score` is present but null
  makes `None < min_score` raise TypeError
  (`data_processing/01_ingest.py:107`), which ends the run. The model reads
  such a score as 0 and goes on.
- Ingest.RetainComments: in the source, three kinds of comment record end
  the whole run, and the model's typed parse carries on past each of them.
  A null `score` raises TypeError only when it is compared with an integer
  score: inside `heappush` (`data_processing/01_ingest.py:188`) when the
  heap already holds an entry, or at `score > heap[0][0]` (`:189`). A null
  score pushed into an empty heap, followed only by other null scores for
  that submission, is kept and stored as NULL; `label` would then raise at
  `min(c["score"], 500)` (`data_processing/02_label.py:166`). A null
  `link_id` raises AttributeError (`:163`). A record without an `author`
  or `id` key raises KeyError (`:177-179`). The model reads a null score
  as 0 throughout, so every stored comment score is an integer, and for
  the other two cases takes `""` or `None` and goes on.
- Ingest.OfferComment: one line of pass 2, with the same unmodelled
  exceptions as `RetainComments`.
- Ingest.IngestAll: both passes, with the unmodelled exceptions of
  `IngestSubmissions` and `RetainComments`.
- Labeling.EveryMatchKept: the scanner folds case on ASCII letters only.
  Under `re.IGNORECASE` Python also matches U+0130 (dotted capital I)
  against `I`, so "İNFO" is a match in the source. `upper()` keeps the
  U+0130 and the `Ä°` replace does not touch it, so the source drops that
  match at the `in CANONICAL` test (`data_processing/02_label.py:107`).
  The model never finds such a match.
- Labeling.MatchNormalForm: holds for the matches of the ASCII scanner. A
  match holding U+0130, which the source can find, does not normalise to a
  key of the table.
- Labeling.JudgmentsAreMatches: one judgment per match holds for the
  matches of the ASCII scanner. The source has no judgment for a match
  holding U+0130.
- Labeling.LabelSubmissions: the count assumes every UPDATE batch
  succeeds. `data_processing/02_label.py:186-188` and `:198-200` roll back
  a failed batch and do not count it.
- Retrieval.AssembleContents: a precedent's `title` is a string, so the
  model cannot express a NULL title. The source prints such a title as
  `None` in the context (`backend/src/peoples_court/adjudicator.py:75`).
  A NULL comment author and a NULL submission score, which ingest can
  store, are modelled as `Option`s, and the context shows a NULL author as
  `None`. A comment score is always an integer, as ingest reads a null
  one as 0 (see `Ingest.RetainComments`).
- Adjudication.Rule: the judge's answer is a record with the five schema
  fields, and each citation is a case id and a comparison. Extra keys the
  judge returns are dropped. The source returns the parsed `result` dict
  as it is, with only `precedents`, `consensus` and `diagnostics` set, so
  any other key passes through
  (`backend/src/peoples_court/adjudicator.py:116` and `:131-137`).
- Retrieval.RetrievePrecedents: the vector, keyword and detail queries are
  functions of their arguments, so the model assumes the database does not
  change between them.
- TrainingData.Cap: requires a non-negative cap. With a negative cap every
  class is larger than the cap and `random.sample` raises; `CapClasses` and
  `GenDataset` model that case as `Failure`.
- Models.Predict: the probabilities are an input list. The model does not
  capture the softmax and the tokeniser.
- Ingest.Offer, Ingest.RetainFew: a heap is kept as its entries in arrival
  order, with `heapreplace` putting the new entry last. Python's `heapq`
  keeps the list in heap-array order (pushing scores 5 then 3 stores 3
  first), and `comment_rows` copies that order. The model captures which
  entries a heap holds, not their positions in the list. The readers sort
  the comments with `ORDER BY score DESC`, so nothing downstream depends on
  the list order.
- Ingest.IdLessTotal: the heap's tie order follows Python's tuple
  comparison, which compares the comment ids after equal scores. When the
  ids are also equal, Python goes on to compare the other fields; the model
  leaves the order of such entries unspecified.
- Adjudication.Adjudicate: an exception raised by the judge or by
  `json.loads` becomes a `Failure`. The database `close` in `finally` is
  not modelled.
- The web wrapper, the CLI, embedding, benchmarking and training scripts
  are not part of this model. `config.py` is not part of this model either:
  its constants are parameters, with `EMBEDDING_DIM` = 256 and
  `K_PRECEDENTS` = 3 as the defaults.
