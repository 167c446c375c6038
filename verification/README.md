# A verified model of quote checking, queueing and scoring

The repository asks a language model which techniques a headline or its lead uses, keeps only the
findings whose quotes the outlet really published, stores them, shows them to readers, and measures
how often they are right. This project states in Dafny what those steps are and proves what they
promise. `dafny verify dfyconfig.toml` checks all of it.

Text is a sequence of code points, as in Python and PostgreSQL. The whitespace and typography
tables are the program's own; the proofs about folding use only a few laws of them
(`Typography.Lawful`), which `PythonRulesLawful` establishes.

| module | what it models |
|---|---|
| `Typography`, `Chunks`, `Validator` | folding a text with a map back to its characters; locating a quote |
| `Analyze` | which quotes of a reply are kept, and what is kept of them |
| `Segments`, `ArticlePage` | cutting a text at span boundaries, and the article page built on it |
| `Corpus`, `CorpusRuns` | the tables, the integrity audit, and every interleaving of the processes that write them |
| `Queue`, `QueueRuns`, `RetrySpacing` | one analyser pass, sequences of passes, and retries over whole runs |
| `Metrics`, `Scoring`, `Wilson` | matching findings to labels, all reported counts, the confidence interval |
| `Json`, `Schema`, `SchemaMeaning`, `SchemaSiblings` | expanding the references of a schema, what that keeps, and what may stand beside a reference |
| `Ingest` | conditional reads of a source over whole runs, against a conforming server |
| `BodyLimit`, `SignIn` | the request-body limiter and the budget of failed sign-ins |
| `GoldSample`, `Slugs` | round-robin sampling and unique handles |
| `Sets`, `Positions`, `Decimals` | cardinalities, positions a filter keeps, numbers written in decimal |

Code that changes state is written as classes and loops (`Normalise`, `Segmented`, `Queue.Store`,
`RequestSizeLimit`, `LoginAttempts`, `SlugSet` and so on), each proved equal to a function of its
inputs or its old state; the theorems are about those functions.

## Where a promise has a condition

- A provider outage is documented as charging no article (`FailureTracker`, src/analyzer/store.py:36-47).
  The code stops at the third failure in a row, so an outage that meets only one or two more due
  articles of a pass charges each of them. `QueueRuns.OutageWithinPassIff` gives the exact condition
  for an outage that starts anywhere in a pass, `OutageChargesNobodyIff` for one met at its start.
- The body limiter answers 413 in place of the application (src/api/limits.py:61-63). If the
  application had already started its response, two responses start on one request.
  `BodyLimit.RejectionIsTheOnlyResponseIff` gives the exact condition, `TwoResponsesStart` an input.
- A Content-Length made of superscript digits, or of more than 4300 digits, passes the limiter's
  `isdigit` test and then fails to convert; `RequestSizeLimit.Call` has that outcome as
  `InvalidLength`, and `SuperscriptFails` is an input. An HTTP server in front of the limiter may
  refuse such a header before it gets here.
- The schema inliner lets the siblings of a reference override its target, as its comment says
  (src/domain/analysis.py:215). For schemas in general that can change the meaning, though not for
  the program's own, whose references stand beside annotations at most.
  `SchemaSiblings.PlainSiblingsIff` says exactly when it does, and `OverriddenAssertionIsLost` is
  such a schema.

## Model

| member | source | states |
|---|---|---|
| Typography.PythonRulesLawful | src/analyzer/validator.py:28-40 | the whitespace and typography tables obey the laws folding relies on: one printed character in, one out, and only the ellipsis gives three dots |
| Typography.WhitespaceIff | src/analyzer/validator.py:92-94 | whitespace is exactly the space separators, the line and paragraph separators and the separating controls of the Unicode database |
| Typography.ProducedByClass | src/analyzer/validator.py:28-40 | dashes fold to the hyphen, single quotes to the apostrophe, double quotes and guillemets to the quotation mark, the ellipsis to three dots, and every other character to itself |
| Typography.FoldAlikeIff | src/analyzer/validator.py:28-40 | two different characters fold alike if and only if both stand in one of those classes or are its ASCII character |
| Typography.LettersArePlain | src/analyzer/validator.py:28-40 | printable ASCII and the Latin letters, Polish ones among them, are neither whitespace nor tidied |
| Validator.Normalise | src/analyzer/validator.py:75-112 | the folding loop, with its runs of spaces, suppressed leading space and popped trailing space, yields the folded text and the origin map that the position-by-position definition gives |
| Validator.FoldSlice | src/analyzer/validator.py:83-112 | compositionality: any slice folds to what its positions, from first to last printed character, contribute inside the whole text |
| Validator.FoldEdges | src/analyzer/validator.py:92-110 | a text folds to nothing exactly when it is blank, and a fold never opens or closes with a space |
| Validator.FoldIsWords | src/analyzer/validator.py:75-112 | an independent reading of folding: split the text on whitespace, tidy each word character by character, join the words with single spaces |
| Validator.FindFrom | src/analyzer/validator.py:142 | the first occurrence at or after a position, or -1 exactly when there is none |
| Validator.MatchInBounds | src/analyzer/validator.py:122-156 | every match, exact or fuzzy, names a non-empty slice of the source; fuzzy scores reach the threshold, exact ones are 100 |
| Validator.StripFolds | src/analyzer/validator.py:92-110 | whitespace around a text makes no difference to its folding |
| Validator.FuzzyMatchSound | src/analyzer/validator.py:147-156 | the slice of a fuzzy match, apart from whitespace at its edges, folds to the window the aligner chose in the folded source, with at most two dots added on a side and only where the window cuts an ellipsis character; a blank window gives a blank slice |
| Validator.ExactMatchSound | src/analyzer/validator.py:115-145 | the slice of an exact match folds to the folded quote with at most two dots added on a side, and only where the match cuts an ellipsis character; it starts and ends on printed characters |
| Validator.UncutFoldsEqually | src/analyzer/validator.py:115-145 | when the slice has no ellipsis character at its edges the two folds are equal |
| Validator.SliceIsFound | src/analyzer/validator.py:133-145 | completeness: if any slice of the source folds to the folded quote, even up to cut ellipses, the quote is matched exactly and no later than that slice's first printed character |
| Validator.CopiedQuoteIsFound | src/analyzer/validator.py:133-145 | every non-blank quote copied from the source is matched exactly, no later than where it was copied from |
| Validator.ExactMatchIff | src/analyzer/validator.py:133-145 | the exact stage succeeds if and only if the quote is not blank and some slice of the source folds to it up to cut ellipses |
| Validator.PlainQuoteIff | src/analyzer/validator.py:122-145 | between texts with nothing to tidy the exact stage is substring search: it matches if and only if the quote stands in the source, at its first occurrence, and returns the quote itself |
| Analyze.QuoteLocatorInBounds | src/analyzer/validator.py:122-156 | the program's quote locator meets the bounds all later results assume of a locator |
| Analyze.VerifyQuotes | src/analyzer/analyze.py:91-140 | the nested loops keep the first field's match for each finding and reject the findings no field has, in order |
| Analyze.VerdictIff | src/analyzer/analyze.py:115-138 | a quote is rejected if and only if none of the searched fields contains it |
| Analyze.VerifiedGenuine | src/analyzer/analyze.py:119-135 | every kept finding has a non-empty in-range span in a field the article has, and its quote is that span of the source |
| Analyze.QuotesAccountedFor | src/analyzer/analyze.py:71-77 | each finding is kept or rejected and never both, so the stored quote counts add up |
| Analyze.KeptInOrder | src/analyzer/analyze.py:114-136 | the findings kept are, in order and by position in the reply, exactly those that some field has, each with the model's technique and confidence and with the field, span, fuzzy flag and source slice of the first field that has it |
| Analyze.LostInOrder | src/analyzer/analyze.py:137-138 | the quotes rejected are, in order, exactly those of the findings that no field has |
| Analyze.FuzzyCounted | src/analyzer/analyze.py:75-77 | the stored count of fuzzy quotes is the number of findings matched so |
| Analyze.CopiedFromTitleIsKept | src/analyzer/analyze.py:107-136 | a quote copied from the headline is kept against the headline, as an exact match |
| Analyze.CopiedFromLeadIsKept | src/analyzer/analyze.py:107-138 | a quote copied from the lead is never rejected |
| Analyze.AnalyzeReply | src/analyzer/analyze.py:169-201 | an unparseable reply yields no findings, no rejected quotes and no category; a parsed one yields its category, exactly the kept findings and exactly the rejected quotes |
| Segments.Segmented | web/lib/segments.ts:31-61 | the loops over spans and cuts yield the segmentation of the text, for arbitrary integer spans |
| Segments.PiecesJoinToText | web/lib/segments.ts:45-58 | the pieces join to the original text and none is empty |
| Segments.MarksAreCoverage | web/lib/segments.ts:50-56 | the marks of the piece a character lies in are exactly the ascending indices of the spans covering that character |
| Segments.NeighboursDiffer | web/lib/segments.ts:35-42 | neighbouring pieces never carry the same marks |
| Segments.SegmentationIsCoarsest | web/lib/segments.ts:35-42 | every division of the text into uniformly covered pieces contains all of these cuts, and these cuts are such a division |
| Segments.MarkedIsSlice | web/lib/segments.ts:31-61 | joining the pieces marked with one index gives the slice its span names, clamped to the text; an empty span marks nothing |
| ArticlePage.ReadingOrderIsComplete | web/app/[locale]/articles/[id]/page.tsx:17-32 | the list beside the text holds every finding exactly as often as it was served |
| ArticlePage.InFieldInOrder | web/app/[locale]/articles/[id]/page.tsx:17-18 | the findings shown in a field are, by position, exactly those served for it, in the order they were served |
| ArticlePage.MarkedTextIsTheQuote | web/app/[locale]/articles/[id]/page.tsx:30-88 | end to end: for every reply and every order the findings come back in, the text marked with a finding is the quote stored for it, and the number on the mark names that same finding in the list |
| ArticlePage.StoredFindingsAreShown | web/app/[locale]/articles/[id]/page.tsx:30-88 | end to end over runs: in every reachable state of the system, any findings stored under one analysis, served in any order on the article as it is stored then, are each marked as their stored quote and numbered as in the list |
| ArticlePage.PageShowsStoredQuotes | web/app/[locale]/articles/[id]/page.tsx:30-88 | the same with the program's own quote locator, whatever its fuzzy aligner answers within bounds |
| ArticlePage.NumbersAreDistinct | web/app/[locale]/articles/[id]/page.tsx:73-87 | no number stands for two findings anywhere on the page |
| Corpus.InsertAllKeeps | src/ingest/store.py:63-95 | saving articles keeps every stored row as it is, adds rows with new addresses once and pending, and leaves all offered addresses stored |
| Corpus.InsertAllCarries | src/ingest/store.py:63-95 | of the rows offered the first with each new address is stored with its own title and lead, pending and untried |
| Corpus.InsertAllOffered | src/ingest/store.py:63-95 | nothing is stored that was neither stored before nor offered |
| Corpus.SoundPassesAudit | src/evals/audit_data.py:39-92 | the invariant of the tables implies that all five integrity checks, read as SQL reads them, count zero violations |
| CorpusRuns.StepKeepsInvariant | src/analyzer/store.py:119-233 | every single database call of every writer, and a crash of a writer between any two, keeps the invariant |
| CorpusRuns.RunKeepsInvariant | src/analyzer/store.py:119-233 | so does every run, and over it article texts never change while analyses and findings only accumulate |
| CorpusRuns.AuditAlwaysPasses | src/evals/audit_data.py:39-92 | all five checks pass in every state reachable from the empty database by any interleaving of ingest, passes, sweeps, gold loads and requeues |
| CorpusRuns.AuditPassesWithQuoteLocator | src/evals/audit_data.py:39-92 | in particular with the program's own quote locator, whatever its fuzzy aligner answers within bounds |
| CorpusRuns.FindingsStayValid | src/ingest/store.py:66-75 | a finding stored at any point is there unchanged ever after and still quotes its article at its offsets |
| CorpusRuns.HeadlineOnly | src/evals/run_eval.py:131-137 | an evaluation call that is shown the headline only keeps no finding in the lead; any other is shown the whole article |
| Queue.DueBelow | src/analyzer/store.py:87-95 | the due articles, all of them and no others, in ascending id order |
| Queue.LimitKeepsOldest | src/analyzer/store.py:94-99 | a limit is never exceeded, is met whenever a due article is left out, and every article left out is younger than all those kept |
| Queue.Stop | src/analyzer/store.py:52-60 | the first position at which three provider errors stand in a row, or none exactly when there is no such position |
| Queue.FailureTracker.RecordFailure | src/analyzer/store.py:52-60 | counts a failure and asks to abort at the third in a row, then dropping every collected charge |
| Queue.FailureTracker.RecordSuccess | src/analyzer/store.py:62-63 | a success breaks the streak and keeps the charges collected |
| Queue.Store.LoadPending | src/analyzer/store.py:73-104 | exactly the due articles up to the limit, with the text stored for each |
| Queue.Store.SaveAnalysis | src/analyzer/store.py:119-194 | adds one analysis row and its surviving findings, and changes no article |
| Queue.Store.MarkAnalyzed | src/analyzer/store.py:197-208 | one article gets the status, and the category only where there is one; its text, attempts and every other article stay; with any status but pending it is never due again |
| Queue.Store.BumpAttempts | src/analyzer/store.py:211-233 | charges each named article once however often it is named, retiring those out of attempts |
| Queue.TurnsMeaning | src/analyzer/__main__.py:80-127 | the loop with its counters refines a simple reading: still running, with no third error in a row and one charge per error, or stopped at the first third error with what was saved before it and no charges |
| Queue.RunPass | src/analyzer/__main__.py:58-141 | a pass leaves the database that reading gives and returns the replies stored; a dry run leaves it alone and returns zero |
| QueueRuns.PassAtArticle | src/analyzer/__main__.py:80-132 | what one pass does to each article it loaded: a reply settles it, a failure charges it once, an abort charges nobody and keeps the replies saved before it |
| QueueRuns.ReplySettles | src/analyzer/store.py:107-116 | a parsed reply leaves the article analysed with the category it names, or the one it had; any other leaves it failed with the category it had; nothing else about it changes |
| QueueRuns.EveryReplyIsStored | src/analyzer/__main__.py:106-127 | a pass adds one analysis row for each reply before any abort, in order, for the right article, and under it exactly the findings the quote check keeps of that reply in that article's text |
| QueueRuns.PassElsewhere | src/analyzer/__main__.py:67-132 | articles a pass did not load are unchanged by it |
| QueueRuns.GoldUntouched | src/analyzer/store.py:93 | gold articles are never loaded and never changed by a pass |
| QueueRuns.OutageWithinPassIff | src/analyzer/__main__.py:80-103 | when the provider goes down at any point of a pass, the articles it failed on are left alone if and only if there are none or at least three of them; one or two are each charged |
| QueueRuns.OutageChargesNobodyIff | src/analyzer/__main__.py:94-103 | when every call of a pass fails, the whole database is left alone if and only if nothing or at least three articles are due; one or two due articles are each charged |
| QueueRuns.LongOutageChangesNothing | src/analyzer/store.py:36-60 | any number of passes during an outage, each with three or more due articles, changes nothing |
| QueueRuns.PassLowersBudget | src/analyzer/store.py:87-95 | a pass that is not aborted lowers the attempts left in the queue by at least the number of due articles |
| QueueRuns.QueueDrains | src/analyzer/__main__.py:67-132 | with nothing added or requeued, at most three passes per article do any work without aborting |
| QueueRuns.PassIsARun | src/analyzer/__main__.py:80-132 | a whole pass equals one sequence of the single database steps that the corpus invariants cover |
| QueueRuns.PassKeepsAudit | src/evals/audit_data.py:39-92 | so the integrity checks pass after any pass |
| RetrySpacing.DueIff | src/analyzer/store.py:87-95 | an article is loaded if and only if no reply has settled it since its last requeue, it is not gold, it has attempts left, and more than an hour for each of its charges has passed since the last one |
| RetrySpacing.Lived | src/analyzer/store.py:211-233 | in every run each article's counter and timestamp summarise its charges since the last requeue, which are at most three and spaced |
| RetrySpacing.RetriesAreSpaced | src/analyzer/store.py:211-233 | in every run with a clock that does not run backwards: at most three charges between requeues, the retry after the k-th charge more than k hours after it, and no load before that |
| RetrySpacing.RetriesAreGranted | src/analyzer/store.py:211-233 | and it gets them: in every run an article not settled since its last requeue is retired if and only if it has been charged three times and is otherwise pending, and it is loaded exactly when it has waited its time |
| Metrics.FirstFree | src/evals/metrics.py:361-368 | the first unclaimed label the finding matches, or none exactly when every matching label is claimed |
| Metrics.OverlapsIff | src/evals/metrics.py:52-82 | non-empty spans overlap if and only if they are in one field and some character lies in both; a match is also of one technique |
| Metrics.GreedyIsAMatching | src/evals/metrics.py:357-378 | the pairs claimed match, use no finding and no label twice, and number as many as the hits |
| Metrics.GreedyMaximal | src/evals/metrics.py:361-373 | a finding left unmatched had every label it matches already claimed |
| Metrics.GreedyAtLeastHalf | src/evals/metrics.py:357-378 | for every order of the findings, greedy matching is at least half as large as any one-to-one matching |
| Metrics.HalfIsTight | src/evals/metrics.py:357-378 | half is the best bound: an input where greedy finds one pair and two exist |
| Scoring.MatchFindings | src/evals/metrics.py:357-378 | the inner loop's counters and claimed set are those of the greedy matching |
| Scoring.ScoreGroup | src/evals/metrics.py:300-419 | all counters of a configuration equal the sums over its rows that the matching defines |
| Scoring.ScoresBalanced | src/evals/metrics.py:309-385 | over all parsed rows: true and false positives are the findings, true positives and false negatives the reachable labels with neither negative, true positives never exceed span hits nor span hits the findings, and no pairing beats twice the true positives |
| Scoring.RowsCounted | src/evals/metrics.py:333-385 | each verdict counter is the number of rows with what it counts: unparsed, inconsistent, category right, assessment right, without findings, neutral, neutral with findings; accusations are counted one by one |
| Scoring.FindingsCounted | src/evals/metrics.py:369-378 | true and false positives, all and confident, are numbers of findings, a missing confidence counting as none |
| Scoring.SpansCounted | src/evals/metrics.py:358-360 | span hits are the findings that overlap some reachable label, whatever it is called |
| Scoring.AllVisible | src/evals/metrics.py:349-355 | a call that was shown the lead can find every label |
| Scoring.HeadlineVisible | src/evals/metrics.py:349-355 | a headline-only call can find exactly the labels of the headline, each as often as it is there |
| Scoring.GroupRows | src/evals/metrics.py:444-453 | every row lands in the group of its own key, in order, and no group is empty |
| Scoring.VariantIsShared | src/evals/metrics.py:306-307 | reading the variant off a group's first row gives the labels reachable for each of its rows |
| Wilson.WilsonIsScoreRegion | src/evals/metrics.py:33-49 | a proportion lies in the interval if and only if the score test accepts it; the observed proportion lies inside and clamping changes nothing |
| Wilson.NoObservations | src/evals/metrics.py:41-42 | without observations both bounds are zero |
| Json.FindOverlay | src/domain/analysis.py:216-217 | an updated dictionary answers with the new entry where there is one and the old one otherwise |
| Schema.MergedWeighsLess | src/domain/analysis.py:209-218 | merging a definition into its reference lowers the measure that makes the recursion terminate |
| Schema.ResolvedIsRefFree | src/domain/analysis.py:208-222 | whatever the expansion returns has no string-valued reference anywhere |
| Schema.PresentResolves | src/domain/analysis.py:213-214 | the expansion fails only on a reference without a definition |
| Schema.InliningRemovesReferences | src/domain/analysis.py:205-225 | the inlined schema has no reference, inlining it again changes nothing, and inlining succeeds whenever every reference has an object as its definition |
| Schema.LastSegmentOfPath | src/domain/analysis.py:212 | a name without a slash is found whatever path leads to it, and stands for itself |
| Schema.DefinedReferenceExpands | src/domain/analysis.py:211-218 | a reference by any path to a defined object comes out as the definition with the entries beside the reference laid over it |
| Schema.UndefinedReferenceFails | src/domain/analysis.py:213-214 | a reference to an undefined name stops the expansion with an error naming it |
| SchemaMeaning.DataSurvivesIff | src/domain/analysis.py:208-222 | a value comes out of the expansion as it went in if and only if it has no string-valued reference in it |
| SchemaMeaning.InliningKeepsMeaning | src/domain/analysis.py:205-225 | the inlined schema, read without definitions, accepts exactly the documents the original accepts with them, as long as siblings met on the way override no assertion of their target with a different one |
| SchemaSiblings.ProperIsSafe | src/domain/analysis.py:215-217 | schemas whose references stand beside annotations only meet that condition |
| SchemaSiblings.PlainSiblingsIff | src/domain/analysis.py:215-218 | for a reference with plain keywords beside it: original and inlined schema agree on every document under every reading of the assertions if and only if no sibling gives a key of the target another value, annotations aside |
| SchemaSiblings.OverridingLosesMeaning | src/domain/analysis.py:215-217 | where a sibling does, there is a reading of the assertions under which the original refuses every document and the inlined schema accepts it |
| SchemaSiblings.OverriddenAssertionIsLost | src/domain/analysis.py:215-217 | a concrete schema: a `minLength` of 5 overridden by a sibling of 1 accepts a string of length 3 that the original refuses |
| Ingest.ParseBody | src/ingest/fetch.py:245-275 | the deduplicating loop keeps the first usable entry of each address |
| Ingest.ParsedAddresses | src/ingest/fetch.py:255-263 | an address is kept if and only if some usable entry has it |
| Ingest.ParsedIsDeduplicated | src/ingest/fetch.py:261-263 | no address is kept twice |
| Ingest.ParsedKeepsFirst | src/ingest/fetch.py:261-274 | what is kept for an address is its first usable entry |
| Ingest.ParsedInOrder | src/ingest/fetch.py:255-275 | what is read of a page, by position: exactly the entries with a title and a link that are the first with that link, in page order, each with its own title and lead |
| Ingest.Source.RunSource | src/ingest/__main__.py:88-113 | each outcome of a read triggers its own statements, articles before validator; a dry run writes nothing |
| Ingest.NextRequest | src/ingest/fetch.py:329-346 | the next request names the tag of the last page with articles, if it had one, and the time of the last such page or 304; failures and empty pages change neither |
| Ingest.AnswerLeaves | src/ingest/__main__.py:88-113 | a 304 moves the fetch time and nothing else; a page with a usable entry stores its articles, takes over its tag or the lack of one and records no error; anything else adds one error row and changes nothing else |
| Ingest.RunIsFaithful | src/ingest/store.py:131-156 | in every run, also with a crash between saving and marking, the held tag names content whose articles are all stored |
| Ingest.NotModifiedHidesNothing | src/ingest/fetch.py:329-346 | when a conforming server that tags its contents apart answers 304, every article it then publishes is already stored |
| Ingest.ValidatorMovesWithArticles | src/ingest/__main__.py:96-113 | the tag changes only with a read that yielded articles, and only once they are stored: empty and failed reads never advance it |
| Ingest.StoredTextStays | src/ingest/store.py:66-75 | a later read never changes an article stored before |
| BodyLimit.RequestSizeLimit.ReceiveCounted | src/api/limits.py:57-67 | counts body bytes and turns every body message past the limit into a disconnect |
| BodyLimit.RequestSizeLimit.SendUnlessExceeded | src/api/limits.py:69-73 | passes a message on unless the body was cut |
| BodyLimit.RequestSizeLimit.Serve | src/api/limits.py:54-83 | for every sequence of receives and sends and every ending, what the application is handed, what goes out, and whether an exception reaches the caller |
| BodyLimit.RequestSizeLimit.Call | src/api/limits.py:44-83 | the whole middleware: anything but HTTP passes untouched; an HTTP request is refused on the declared length with one 413 and nothing run, failed on an unconvertible length, or served |
| BodyLimit.HandedAtMostLimit | src/api/limits.py:57-67 | the application is never handed more body than the limit, and within the limit all of it |
| BodyLimit.WithinLimitUnchanged | src/api/limits.py:57-73 | if the bytes read stay within the limit every message passes unchanged in both directions |
| BodyLimit.SentStopsAtCut | src/api/limits.py:69-73 | past the limit exactly the messages sent before the cut go out |
| BodyLimit.RejectionIsTheOnlyResponseIff | src/api/limits.py:82-102 | the output is the messages before the cut and one 413 pair, which is one response if and only if the application had not started its own |
| BodyLimit.TwoResponsesStart | src/api/limits.py:69-83 | an application that starts its response before it reads too much: two responses start |
| BodyLimit.SuperscriptFails | src/api/limits.py:49-52 | a superscript digit as Content-Length fails to convert, whatever the limit |
| BodyLimit.DeclaredTooLargeIff | src/api/limits.py:49-52 | a length written in decimal, with any leading zeros, is refused if and only if the number is more than the limit; no declaration is never refused |
| BodyLimit.NonNumericProceeds | src/api/limits.py:49-52 | a declared length with an ASCII character that is no digit is let through |
| SignIn.LoginAttempts.TooManyFailures | src/api/security.py:169-191 | of the rows exactly the expired ones go, every copy; an identifier counts as spent if and only if the table as it stood before has at least ten of its failures within the window |
| SignIn.LoginAttempts.RecordFailure | src/api/security.py:194-199 | one row for each identifier at the time of the failure |
| SignIn.LoginAttempts.ClearFailures | src/api/security.py:202-207 | no row of these identifiers is left, and every other row stays with its number of copies |
| SignIn.LoginAttempts.Login | src/api/routers/auth.py:98-151 | the order of budget, account and password, the answer given and the table left behind |
| SignIn.PrunedTableAnswersAsHistory | src/api/security.py:176-191 | in every run the pruned table answers every request as the full unpruned history would |
| SignIn.BudgetHolds | src/api/security.py:55-59 | in every run, between clearing sign-ins, no identifier has more than ten failures recorded in any half-open interval of fifteen minutes |
| SignIn.TurnedAwayIff | src/api/routers/auth.py:111-148 | in every run, by the answers given: a request is turned away if and only if its address or its client has had ten wrong passwords within the window with no sign-in after them, and is otherwise answered by its credentials |
| SignIn.RowsAreFailures | src/api/security.py:194-207 | the rows held against an identifier number exactly its wrong passwords since its last sign-in |
| GoldSample.LoadGold | src/evals/run_eval.py:76-87 | with a limit, as many rows as limit and rows allow, each kind a prefix of its own order, and at every pick no kind more than one behind while it has rows left, and none behind a kind that first appears after it |
| GoldSample.DealtIsFair | src/evals/run_eval.py:82-85 | equal rounds in the order the kinds first appear, some already served in the current one, are fair in that sense |
| Decimals.ValueOfDecimal | src/api/limits.py:50 | reading a number written in decimal gives it back, also behind leading zeros |
| Decimals.DecimalInjective | src/evals/candidates.py:116 | different suffix numbers are written differently, so the handles tried are pairwise distinct |
| Slugs.TakenBound | src/evals/candidates.py:115-116 | pigeonhole: if the first n handles are all taken, at least n handles are taken, so the loop ends |
| Slugs.SlugSet.Slugify | src/evals/candidates.py:114-118 | returns the first free handle and adds it to the taken set |
| Slugs.WrittenAreDistinct | src/evals/candidates.py:134-154 | handles chosen in turn against all earlier ones are pairwise distinct |
| Slugs.WriteCandidates | src/evals/candidates.py:134-154 | one handle for each title, each the first free one in its turn, all different |

## Left out

- Validator.FuzzyMatchSound: the similarity measure of the fuzzy aligner belongs to a library; it is an arbitrary function here that keeps its windows in range and its scores above the threshold, so nothing is said of how like the quote the window is.
- Analyze.VerifiedGenuine: `neutral_similarity`, the model's free texts and the stored raw reply are not modelled; they are copied or computed by a library and decide nothing.
- Wilson.WilsonIsScoreRegion: arithmetic is exact over the reals, with the square root a given number whose square is the radicand; floating-point rounding is not modelled.
- RetrySpacing.RetriesAreSpaced: passes follow one another, as one analyser process runs them; two processes charging the same article at once could space its charges closer. The integrity results do cover concurrent writers.
- Ingest.NotModifiedHidesNothing: is about sources that send an ETag; for one that sends only Last-Modified the recorded fetch time lies after the read, so a 304 may hide what was published in between.
- SignIn.BudgetHolds: requests are handled one at a time; counting and recording are separate statements, so simultaneous sign-ins could each pass the count.
- SchemaMeaning.InliningKeepsMeaning: for schemas in general the condition on siblings is sufficient; it is shown to be exact for a reference among plain keywords. Data under `const`, `enum` or `default` with a reference in it is outside, since the expansion rewrites it.
- Schema.InliningRemovesReferences: definitions are acyclic, witnessed by a rank; on cyclic ones the original recursion does not return.
- Scoring.ScoreGroup: latencies, token counts, quote totals and the number of distinct articles are plain sums beside the matching.
- Slugs.SlugSet.Slugify: starts from the base words; picking them out of a title uses Unicode decomposition.
- BodyLimit.RequestSizeLimit.Call: reading the header out of the request is not modelled; a declared length is given.
- CorpusRuns.AuditAlwaysPasses: runs start from an empty database and rows are identified by their position, which stands for the time-ordered ids; the wording of SQL statements and the columns no check reads are not modelled.
- Canonical composition of article text, URL canonicalisation and the parsing of feeds, pages and robots files: their results are arbitrary inputs.
- Sources with an unsupported strategy or a disallowing robots file: they only add a row to the error table.
- The throttle between requests, pooling, sessions, password hashing and timing: plumbing or cryptography.
- `consistency_error`, the verdict display, report text and feed paging: easy facts about single expressions.
