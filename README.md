# Verified model of the browser-use-automation literature-review core

The repository automates systematic literature reviews. It has three parts.
- A five-step orchestrator (`automated_research/main.py`) plans queries, runs them through a browser agent on IEEE Xplore, deduplicates the papers and writes one Markdown report per paper.
- A set of PRISMA 2020 / Cochrane helpers:
  - screening criteria;
  - several reviewers with Cohen's kappa and majority voting;
  - the RoB 2 risk-of-bias judgement;
  - the PRISMA flow-diagram counts;
  - a PRISMA search-strategy builder;
  - the Ochiai-format report writer.
- Several searchers with a shared post-processing pipeline:
  - arXiv, J-STAGE and government documents;
  - Semantic Scholar;
  - the agent-driven IEEE search;
  - a hybrid lightweight system that combines three engines by ratio;
  - a registry of search sources.

This project models the deterministic core of each of those files and proves what it promises.

Modelling conventions:
- Python dictionaries whose order can be observed are insertion-ordered maps (`Dicts.ODict`). The others are Dafny maps.
- A key that is absent from a record is `None` in an `Option`.
- Python truthiness is written out: an empty string is falsy, and so is the year 0.
- Integers are unbounded. Python's `int(x / 100)` is truncation toward zero (`Hybrid.TruncDiv`), and `//` is floor division. For the non-negative operands used here, floor division agrees with Dafny's `/`.
- Operations that reach the network, a browser agent or a language model take that call as a function parameter, its failure being `None`.
- Classes whose instances the source updates in place (`ReviewerManager`, `ScreeningManager`, `RiskOfBiasAssessment`, `PRISMAFlowDiagram`, `SourceRegistry`) are Dafny classes with `modifies` clauses. Everything else is functions over datatypes.

Modules:
- `Common`: Option, Python prefix slicing, subsequences, collecting successful results.
- `Strs`: ASCII case, strip, split/join, replace, decimal rendering.
- `Dicts`: insertion-ordered maps.
- `Records`: the shared searcher pipeline, with dedup, year filter and query collection.
- One module per core source file.

## Model

| member | source | states |
|---|---|---|
| Reviewers.DecisionsForSpec | automated_research/multiple_reviewers.py:43-45 | `get_decisions_for_paper` returns exactly the logged decisions about the paper, in log order (a subsequence of the log), duplicates kept |
| Reviewers.DecisionsForAppend | automated_research/multiple_reviewers.py:39-45 | after recording a decision, the paper's list gains it at the end and no other paper's list changes |
| Reviewers.ReviewerManager.constructor | automated_research/multiple_reviewers.py:30-32 | a new manager has no reviewers and an empty log |
| Reviewers.ReviewerManager.AddReviewer | automated_research/multiple_reviewers.py:34-37 | this reviewer is stored under the id, replacing an earlier entry; the log is unchanged |
| Reviewers.ReviewerManager.RecordDecision | automated_research/multiple_reviewers.py:39-41 | exactly one decision is appended to the log; the list of reviewers is unchanged |
| Reviewers.ConflictConsensusPartition | automated_research/multiple_reviewers.py:86-142 | a paper with two or more decisions is a conflict exactly when it is not a consensus; a paper with fewer is neither |
| Reviewers.ReviewerManager.GetConflicts | automated_research/multiple_reviewers.py:86-103 | every entry is a conflicting paper with all its decisions and their count, every conflicting paper is listed, and no paper is listed twice |
| Reviewers.ReviewerManager.GetConsensusPapers | automated_research/multiple_reviewers.py:127-142 | a paper is listed exactly when it has two or more decisions that all agree; no duplicates |
| Reviewers.ReviewerManager.ResolveByMajority | automated_research/multiple_reviewers.py:105-125 | no decisions give no result; a result is the unique value with the most votes; no result despite decisions means two values tie at the maximum |
| Reviewers.CountVotes | automated_research/multiple_reviewers.py:113-115 | the vote dictionary is a histogram of the decision values: its keys are the values in order of first appearance (`FirstAppearances`), and each holds its number of votes |
| Reviewers.TallyFacts | automated_research/multiple_reviewers.py:113-115 | the tally's keys are distinct, are the first appearances of the decision values, are exactly the values some decision carries, and each counts the decisions carrying it |
| Common.FirstAppearancesSpec | automated_research/multiple_reviewers.py:113-115 | the first appearances list every item of the sequence exactly once, ordered by the position where each first occurs |
| Common.HistogramInsert | automated_research/screening_criteria.py:130 | `counts[x] = counts.get(x, 0) + 1`: a known key gains one and keeps its place, a new key is appended with count 1, and the pair stays a histogram of the items seen |
| Reviewers.MaxCount | automated_research/multiple_reviewers.py:118 | the result is a count that some key attains and that no key exceeds |
| Reviewers.ValuesWithCount | automated_research/multiple_reviewers.py:119 | the result is exactly the keys with the target count, distinct and in key order |
| Reviewers.MajorityOutcome | automated_research/multiple_reviewers.py:118-125 | one key at the maximum is the unique majority; two or more keys at the maximum are a tie |
| Reviewers.UniqueWinner | automated_research/multiple_reviewers.py:121-122 | a key that alone reaches the largest count wins |
| Reviewers.TieFound | automated_research/multiple_reviewers.py:125 | two different keys that reach the largest count make a tie |
| Reviewers.VotesOfThree | automated_research/multiple_reviewers.py:157-168 | the votes for three different values add up to at most the number of decisions |
| Reviewers.ReviewerStatistics | automated_research/multiple_reviewers.py:157-168 | the total is the number of this reviewer's own decisions; included + excluded + uncertain never exceeds it |
| Reviewers.ByReviewer | automated_research/multiple_reviewers.py:159 | every selected decision is in the log and is by that reviewer |
| Reviewers.ByReviewerCount | automated_research/multiple_reviewers.py:159 | this reviewer's list has one entry per log position that holds one of their decisions |
| Reviewers.LastIndex | automated_research/multiple_reviewers.py:59-60 | the position of this reviewer's last decision on the paper, if there is one |
| Reviewers.LastDecisionsLatest | automated_research/multiple_reviewers.py:59-60 | this reviewer's decision map holds exactly the papers they decided, each with their latest decision |
| Reviewers.ExpectedTimesSquare | automated_research/multiple_reviewers.py:74-77 | the expected agreement times n² is an integer, computed from the Include counts |
| Reviewers.ExpectedIsOneIff | automated_research/multiple_reviewers.py:74-81 | the expected agreement is 1 exactly when both Include rates are 0 or both are 1 |
| Reviewers.KappaWhenExpectedIsOne | automated_research/multiple_reviewers.py:80-81 | when the expected agreement is 1, kappa is 1.0 |
| Reviewers.KappaScaled | automated_research/multiple_reviewers.py:68-84 | otherwise kappa equals (n·agreements − P)/(n² − P), where P is the expected agreement scaled by n² |
| Reviewers.KappaOfCountsAtMostOne | automated_research/multiple_reviewers.py:68-84 | kappa never exceeds 1, and it is 1 when both Include rates are 0 or both are 1 |
| Reviewers.BinaryNumeratorBound | automated_research/multiple_reviewers.py:68-84 | with only Include and Exclude, the scaled numerator is at least minus the scaled denominator |
| Reviewers.KappaOfCountsBinaryLowerBound | automated_research/multiple_reviewers.py:68-84 | when the common papers split into the four Include/Exclude cells, kappa is at least −1 |
| Reviewers.CellsCommon | automated_research/multiple_reviewers.py:62 | the four Include/Exclude cells partition the papers both reviewers decided |
| Reviewers.CellsAgreeing | automated_research/multiple_reviewers.py:68 | the agreements are the Include/Include and Exclude/Exclude cells |
| Reviewers.CellsIncluding | automated_research/multiple_reviewers.py:74-75 | each reviewer's Include count is the sum of their two Include cells |
| Reviewers.KappaAtMostOne | automated_research/multiple_reviewers.py:47-84 | `calculate_cohen_kappa` is 0 when the two reviewers share no paper, and never exceeds 1 |
| Reviewers.KappaBinaryRange | automated_research/multiple_reviewers.py:47-84 | when the shared papers carry only Include and Exclude, kappa lies in [−1, 1] |
| Screening.PaperIdSpec | automated_research/screening_criteria.py:68 | the paper id is a truthy DOI, else a truthy URL, else the title's first 50 characters (the whole title if it is shorter) |
| Screening.ScreenPaper | automated_research/screening_criteria.py:57-114 | the record carries the paper id, the title (or ""), the stage and the "automated" screener |
| Screening.ScreenDecision | automated_research/screening_criteria.py:70-114 | Include exactly when the year, language and type checks all pass, otherwise Exclude; an exclusion always has a non-empty reason and an inclusion has none |
| Screening.ScreenPrecedence | automated_research/screening_criteria.py:72-103 | the first failing check gives the reason, in the order year, language, publication type |
| Screening.ScreenIgnoresFalsy | automated_research/screening_criteria.py:72-103 | a missing or falsy year, or a missing or empty publication type, never excludes a paper |
| Screening.ScreeningManager.constructor | automated_research/screening_criteria.py:49-51 | the default criteria are used when none are given; there are no records yet |
| Screening.ScreeningManager.AddRecord | automated_research/screening_criteria.py:53-55 | exactly one record is appended; the criteria are unchanged |
| Screening.CountDecision | automated_research/screening_criteria.py:122-124 | the count never exceeds the number of records |
| Screening.DecisionCountsBound | automated_research/screening_criteria.py:122-124 | the counts of three different decisions add up to at most the number of records |
| Screening.ReasonHistogram | automated_research/screening_criteria.py:127-131 | the reason dictionary is a histogram of the reasons of the excluded records: its keys are the reasons in order of first appearance (`FirstAppearances`), each with its number of occurrences |
| Screening.ReasonsBound | automated_research/screening_criteria.py:127-131 | the histogram's entries come only from excluded records, so there are at most as many as exclusions |
| Screening.ScreeningManager.GetScreeningSummary | automated_research/screening_criteria.py:116-139 | no records give all zeros and no reasons; otherwise the total and the three decision counts are correct and the reasons form that histogram |
| Screening.DefaultCriteriaFixed | automated_research/screening_criteria.py:190-196 | whatever the field, the defaults are English only, 2018 to 2024, journal articles and conference papers |
| Screening.DefaultCriteriaLists | automated_research/screening_criteria.py:165-197 | the four base inclusion and five base exclusion entries come first; a technical field adds 2 + 1 entries, a life-science field 2 + 2 and any other field none |
| Screening.CriteriaForLists | automated_research/screening_criteria.py:170-188 | the same list shapes, stated for each field kind |
| Screening.FieldCaseInsensitive | automated_research/screening_criteria.py:184-188 | the field is matched case-insensitively |
| Screening.MixedFivePapers | tests/integration/test_full_research_workflow.py:232-243 | with the default year range and language, the workflow's five sample papers give 3 inclusions and 2 exclusions |
| RiskOfBias.DomainTable | automated_research/risk_of_bias.py:40-60 | there are exactly five domains, with the five fixed ids in table order |
| RiskOfBias.OverallRiskSpec | automated_research/risk_of_bias.py:88-107 | no entries give "Unknown". Otherwise the result is High iff some domain is High, Some concerns iff none is High and some is Some concerns, and Low iff neither appears |
| RiskOfBias.OverallLowIffAllLow | automated_research/risk_of_bias.py:92-95 | when all ratings are valid, the judgement is Low exactly when every domain is Low |
| RiskOfBias.OverallOrderIndependent | automated_research/risk_of_bias.py:100-107 | reordering the list of ratings never changes the judgement, which only depends on the set of ratings |
| RiskOfBias.RerateHigh | automated_research/risk_of_bias.py:86-107 | rating any domain High makes the overall judgement High, whatever the other ratings |
| RiskOfBias.Assessment.constructor | automated_research/risk_of_bias.py:66-68 | a blank assessment has the given id and title, no domain entries and no overall risk |
| RiskOfBias.Assessment.AssessDomain | automated_research/risk_of_bias.py:70-86 | an invalid rating is rejected first, then an unknown domain, and both leave the entries unchanged; on success only that domain's entry is (over)written |
| RiskOfBias.Assessment.CalculateOverallRisk | automated_research/risk_of_bias.py:88-110 | returns the judgement. It is stored only when there are entries; "Unknown" leaves the stored value unchanged |
| PrismaFlow.InitialData | automated_research/prisma_flow_diagram.py:14-38 | a fresh diagram's data is well formed: every counter is 0 and every table is empty |
| PrismaFlow.WithTotals | automated_research/prisma_flow_diagram.py:76-80 | recomputing the identification total keeps the data well formed |
| PrismaFlow.WithScreening | automated_research/prisma_flow_diagram.py:82-87 | recomputing the screening stage keeps the data well formed |
| PrismaFlow.WithEligibility | automated_research/prisma_flow_diagram.py:89-97 | recomputing the eligibility stage keeps the data well formed |
| PrismaFlow.Refreshed | automated_research/prisma_flow_diagram.py:101-104 | the three recalculations in sequence keep the data well formed |
| PrismaFlow.RefreshedCounts | automated_research/prisma_flow_diagram.py:76-104 | after the full recalculation each derived count is fixed by the entered data: identified is the sum of the databases and other sources; screened is identified minus duplicates; sought is screened minus screening exclusions; assessed is sought minus not retrieved. Everything entered is untouched |
| PrismaFlow.RefreshIdempotent | automated_research/prisma_flow_diagram.py:101-104 | recalculating twice gives the same state as recalculating once |
| PrismaFlow.IdentifiedAfterDatabase | automated_research/prisma_flow_diagram.py:40-46 | re-entering a database replaces its earlier count in the identification total instead of adding to it |
| PrismaFlow.IdentifiedAfterOtherSource | automated_research/prisma_flow_diagram.py:48-51 | re-entering another source replaces its earlier count in the total |
| PrismaFlow.ScreeningAfterExclusion | automated_research/prisma_flow_diagram.py:57-60 | a screening reason's count is set, not added: the stage total changes by the difference |
| PrismaFlow.EligibilityAfterExclusion | automated_research/prisma_flow_diagram.py:62-65 | the same for an eligibility reason |
| PrismaFlow.NoClamping | automated_research/prisma_flow_diagram.py:82-86 | nothing is clamped: 5 duplicates on an empty diagram give −5 records screened |
| PrismaFlow.PrismaFlowDiagram.constructor | automated_research/prisma_flow_diagram.py:14-38 | a new diagram shows ten zero counts and empty source and reason tables |
| PrismaFlow.PrismaFlowDiagram.AddDatabaseResults | automated_research/prisma_flow_diagram.py:40-46 | the database entry is set, with a falsy search date replaced by the clock's date, then the total is recomputed |
| PrismaFlow.PrismaFlowDiagram.AddOtherSourceResults | automated_research/prisma_flow_diagram.py:48-51 | the source's count is set, then the total is recomputed |
| PrismaFlow.PrismaFlowDiagram.SetDuplicatesRemoved | automated_research/prisma_flow_diagram.py:53-55 | only the duplicate count changes; nothing is recomputed |
| PrismaFlow.PrismaFlowDiagram.AddScreeningExclusion | automated_research/prisma_flow_diagram.py:57-60 | the reason's count is set, then the screening stage is recomputed |
| PrismaFlow.PrismaFlowDiagram.AddEligibilityExclusion | automated_research/prisma_flow_diagram.py:62-65 | the reason's count is set, then the eligibility stage is recomputed |
| PrismaFlow.PrismaFlowDiagram.SetReportsNotRetrieved | automated_research/prisma_flow_diagram.py:67-69 | only the not-retrieved count changes |
| PrismaFlow.PrismaFlowDiagram.SetFinalIncluded | automated_research/prisma_flow_diagram.py:71-74 | the studies count is stored; the reports count is the given one when it is truthy, otherwise the studies count; nothing else changes |
| PrismaFlow.PrismaFlowDiagram.RecalculateTotals | automated_research/prisma_flow_diagram.py:76-80 | the state becomes `WithTotals` of the old state |
| PrismaFlow.PrismaFlowDiagram.RecalculateScreening | automated_research/prisma_flow_diagram.py:82-87 | the state becomes `WithScreening` of the old state |
| PrismaFlow.PrismaFlowDiagram.RecalculateEligibility | automated_research/prisma_flow_diagram.py:89-97 | the state becomes `WithEligibility` of the old state |
| PrismaFlow.PrismaFlowDiagram.GenerateMermaidCounts | automated_research/prisma_flow_diagram.py:99-134 | rendering first refreshes the data fully and then shows the counts of the refreshed data |
| PrismaFlow.CreateExampleDiagram | automated_research/prisma_flow_diagram.py:250-275 | the example diagram shows 825 identified, 180 duplicates, 645 screened, 395 excluded, 250 sought, 8 not retrieved, 242 assessed, 52 excluded, 30 studies and 33 reports |
| PrismaFlow.ExampleIdentification | automated_research/prisma_flow_diagram.py:255-260 | three databases and one other source make 825 identified records, with 180 duplicates |
| PrismaFlow.ExampleDatabases | automated_research/prisma_flow_diagram.py:256-258 | the three databases contribute 800 records |
| PrismaFlow.ExampleScreening | automated_research/prisma_flow_diagram.py:262-265 | three screening reasons exclude 395 of the 645 screened records |
| PrismaFlow.ExampleEligibility | automated_research/prisma_flow_diagram.py:267-271 | with 8 reports not retrieved and three reasons totalling 52, 250 reports are sought and 242 assessed |
| Records.DedupLoop | automated_research/arxiv_search.py:302-313 | the `seen`-set loop computes `Dedup`: it keeps a record only when its key is truthy and new |
| Records.DedupSubsequence | automated_research/arxiv_search.py:302-313 | the kept records are a subsequence of the input |
| Records.DedupKeys | automated_research/arxiv_search.py:307-311 | every kept record has a key, the keys are pairwise distinct, and none was seen before |
| Records.DedupKeepsFirst | automated_research/arxiv_search.py:307-311 | the first record with each new key is kept |
| Records.DedupComplete | automated_research/arxiv_search.py:307-311 | every key that occurs in the input and was not seen before appears in the output |
| Records.DedupOfDistinct | automated_research/arxiv_search.py:302-313 | a list whose keys are present, fresh and distinct comes back unchanged |
| Records.DedupIdempotent | automated_research/arxiv_search.py:302-313 | deduplicating twice is the same as deduplicating once |
| Records.FilterByYearLoop | automated_research/arxiv_search.py:315-335 | the filtering loop computes `FilterByYear`: the input is unchanged when both bounds are falsy; otherwise papers without a year or outside a truthy bound are dropped |
| Records.KeepInYearRangeSpec | automated_research/arxiv_search.py:322-333 | a paper is kept exactly when it is in the input and in range, and the filter splits over concatenation, so order and multiplicity are kept |
| Records.FilterByYearIdempotent | automated_research/arxiv_search.py:315-335 | filtering twice with the same bounds is the same as filtering once |
| Records.FilterByYearSpec | automated_research/arxiv_search.py:315-335 | the filtered list is a subsequence, keeps distinct keys, and holds only papers in range once a bound is truthy |
| Records.PerQueryTarget | automated_research/arxiv_search.py:67 | `max(floor, total // queries)` is at least the floor, and above the floor it is the floor quotient |
| Records.PostFetchSpec | automated_research/arxiv_search.py:83-91 | dedup, the year filter and `[:max_results]` keep at most `max_results` papers, all fetched, in order, distinct and in range |
| Records.SearchResultSpec | automated_research/arxiv_search.py:46-91 | no queries give no papers; otherwise the papers come from the fetched ones in order; there are at most `max_results`, with distinct ids, all in the year range when a bound is given |
| Records.Search | automated_research/arxiv_search.py:57-91 | the searcher loop (fetch per query, extend, dedup, filter, truncate) computes `SearchResult` |
| Records.DateYearSpec | automated_research/arxiv_search.py:286-300 | an empty date, or one without four consecutive digits, has no year; a year lies in 0..9999; a date that starts with a four-digit year yields that year |
| Records.CollectUntilLoop | automated_research/main.py:219-245 | the query loop computes `CollectUntil`: failed queries are skipped, and it breaks only after a successful query that brings the total to `max_papers` |
| Records.CollectUntilRan | automated_research/main.py:219-245 | the collected list is exactly the results of the queries the loop ran, in order |
| Records.CollectUntilStopsAtLimit | automated_research/main.py:240-242 | the loop stops before the last query only right after a successful query that reached the limit |
| Records.CollectUntilNoEarlierStop | automated_research/main.py:240-242 | no earlier successful query had reached the limit |
| Records.CollectedSpec | automated_research/ieee_automated_search.py:49-116 | no queries give no papers. Otherwise each query asks for at least 5 papers, at most `max_papers` come back, with distinct title keys, as a subsequence of what the queries that ran returned; an early stop means the limit was reached |
| Records.Collect | automated_research/main.py:209-253 | the collection (loop, dedup, `[:max_papers]`) computes `Collected` |
| Arxiv.BuildArxivQuerySpec | automated_research/arxiv_search.py:24-44 | the query never starts or ends with white space and has no two white-space characters in a row; collapsing again changes nothing; the year bounds never change it; a search string without AND/OR/NOT only has its white space collapsed |
| Arxiv.MatchEnd | automated_research/arxiv_search.py:277 | the greedy `\d{4}\.\d{4,5}` match ends 9 or 10 characters after its start, inside the text |
| Arxiv.ArxivIdFrom | automated_research/arxiv_search.py:277 | the result is the leftmost match start at or after the given index; none means there is no match there |
| Arxiv.ExtractArxivIdSpec | automated_research/arxiv_search.py:266-280 | without a match the text comes back unchanged; otherwise the result is the leftmost match, which is a bare identifier |
| Arxiv.MatchIsId | automated_research/arxiv_search.py:277-279 | every match is a bare identifier |
| Arxiv.ExtractIdempotent | automated_research/arxiv_search.py:266-280 | extracting from an extracted identifier changes nothing |
| Arxiv.ExtractAfter | automated_research/arxiv_search.py:266-280 | an identifier that follows digit-free text and is not followed by a digit (a version suffix, `.pdf`, nothing) is what comes out |
| Arxiv.ExtractFromEntryUrl | tests/ci/test_arxiv_search.py:145 | `http://arxiv.org/abs/2301.12345v1` gives `2301.12345` |
| Arxiv.ExtractDropsVersion | tests/ci/test_arxiv_search.py:147 | `1234.5678v2` gives `1234.5678` |
| Arxiv.ExtractKeepsBareId | tests/ci/test_arxiv_search.py:148 | a bare `2301.12345` is already clean |
| Arxiv.UrlsInjective | automated_research/arxiv_search.py:257-258 | the abstract link and the PDF link each determine the identifier they were built from |
| Arxiv.UrlsRecoverId | automated_research/arxiv_search.py:257-258 | extraction recovers a bare identifier from its abstract link and from its PDF link |
| Arxiv.AddTermsSpec | automated_research/arxiv_search.py:247-250 | the category loop keeps the earlier entries in front and adds no duplicate; the result holds exactly the earlier entries and the non-empty terms |
| Arxiv.CategoriesSpec | automated_research/arxiv_search.py:245-250 | the categories start with the primary term when there is one, hold no duplicates, and are exactly that term plus the non-empty further terms |
| Arxiv.ParseAuthors | automated_research/arxiv_search.py:235-240 | one name per author item, in order |
| Arxiv.ParseCategories | automated_research/arxiv_search.py:245-250 | the loop computes `Categories` |
| Arxiv.ParseEntry | automated_research/arxiv_search.py:223-264 | the id is extracted from the entry's id; the authors are one name per item; the links are built from the id; the year comes from the published date; title, abstract and source are filled in, with "" for missing text |
| Arxiv.DeduplicatePapers | automated_research/arxiv_search.py:302-313 | deduplication on the arXiv id, with an empty id dropped |
| Arxiv.DeduplicateSpec | automated_research/arxiv_search.py:302-313 | the kept papers appear in input order, have non-empty, pairwise distinct ids, include the first paper of every id, and deduplicating again changes nothing |
| Arxiv.FilterByYear | automated_research/arxiv_search.py:315-335 | falsy bounds return the input; otherwise a paper is kept exactly when it is in the input and in range |
| Arxiv.Search | automated_research/arxiv_search.py:46-91 | the search is the shared pipeline with at least one result per query, the arXiv id as key and the paper's year |
| JStage.BuildQuery | automated_research/jstage_search.py:25-42 | the service is "1", and the text is the search string with every " AND " replaced by a space and then every " OR " by " \| " (replacement written as split and join) |
| JStage.BuildQueryPlain | automated_research/jstage_search.py:37 | a search string without either operator is sent unchanged |
| JStage.DigitRunEnd | automated_research/jstage_search.py:176 | the greedy `\d+` ends at the first non-digit |
| JStage.SlashFrom | automated_research/jstage_search.py:176 | the greedy `[^/]+` ends at the first '/' |
| JStage.DoiMatchAt | automated_research/jstage_search.py:176 | a match's group is non-empty and contains no '/' |
| JStage.DoiJournalCode | automated_research/jstage_search.py:176-178 | the result is the group of a match; no result means that no position matches |
| JStage.LastSegment | automated_research/jstage_search.py:179 | the result contains no '/', is a suffix of the DOI, and is preceded by a '/' whenever it is shorter than the DOI |
| JStage.LastSegmentIsLastPart | automated_research/jstage_search.py:179 | it is exactly the last piece of `doi.split("/")` |
| JStage.DoiCodeOfStandardDoi | automated_research/jstage_search.py:174-178 | a DOI `10.<digits>/<code>/<rest>` yields the journal code `<code>` |
| JStage.DoiMatchSlashes | automated_research/jstage_search.py:176 | a match needs two slashes in the DOI |
| JStage.BuildArticleUrlForms | automated_research/jstage_search.py:151-191 | a DOI with a journal code gives `article/<code>/<last segment>`, any other DOI gives `article/<doi>`; journal and volume give `article/<journal>/<volume>`, with `/<issue>/<page>` when those are given too; otherwise the base URL |
| JStage.SampleDoiUrl | tests/ci/test_jstage_search.py:124-127 | the test DOI `10.2197/ipsjdc.2023.0001` has a single '/', so it does not match and the whole DOI is the path |
| JStage.ContainsJapaneseSpec | automated_research/jstage_search.py:193-207 | true exactly when some character is hiragana, katakana or a CJK ideograph |
| JStage.AsciiIsNotJapanese | automated_research/jstage_search.py:206-207 | ASCII text never counts as Japanese |
| JStage.AuthorNamesSpec | automated_research/jstage_search.py:116-125 | there are at most as many names as entries; each name is a plain string entry or the non-empty name of a dict entry |
| JStage.AuthorNamesAppend | automated_research/jstage_search.py:116-125 | the names of two entry lists one after the other are the names of the first followed by the names of the second, so entry order is kept |
| JStage.AuthorNamesSingle | automated_research/jstage_search.py:119-125 | a plain string entry gives itself, a dict entry with a non-empty name gives that name, and any other entry gives nothing |
| JStage.AuthorNamesComplete | automated_research/jstage_search.py:116-125 | every plain string entry and every non-empty dict name appears among the names |
| JStage.ParseArticle | automated_research/jstage_search.py:105-149 | the authors come from the author loop; the year is the given one, or else the one read from the date; the URL is the given one, or else the one built from the DOI; the other fields are copied with "" defaults; the source is J-STAGE |
| JStage.DedupKey | automated_research/jstage_search.py:222-247 | the key is never empty: the DOI, else the URL, else the lower-cased stripped title |
| JStage.DeduplicatePapers | automated_research/jstage_search.py:209-249 | deduplication on that key |
| JStage.DeduplicateSpec | automated_research/jstage_search.py:209-249 | the kept papers appear in input order with pairwise distinct keys; papers without DOI, URL or non-blank title are dropped; the first paper of every key is kept; deduplicating again changes nothing |
| JStage.FilterByYear | automated_research/jstage_search.py:251-271 | falsy bounds return the input; otherwise a paper is kept exactly when it is in range |
| JStage.Search | automated_research/jstage_search.py:44-89 | the search is the shared pipeline with at least one result per query and this deduplication key |
| JStage.StubSearchIsEmpty | automated_research/jstage_search.py:91-103 | with the source's own fetch, which returns nothing, every search returns no papers |
| JStage.StubFetchAll | automated_research/jstage_search.py:91-103 | fetching every query with the stub collects nothing |
| GovDocs.AvailableSources | automated_research/government_documents_search.py:73-75 | the table's entries, in table order |
| GovDocs.SourceIds | automated_research/government_documents_search.py:135 | the table's keys, in order |
| GovDocs.SourceTableSpec | automated_research/government_documents_search.py:24-71 | there are six sources under distinct keys; each one's id is its key, and each has a name, a URL and a country or an organization |
| GovDocs.GetSupportedCountries | automated_research/government_documents_search.py:77-85 | the result holds exactly the countries and organizations of the sources (a set, as `list(set(...))` has no order) |
| GovDocs.TypeFromSpec | automated_research/government_documents_search.py:230-234 | scanning the pattern table from row k gives the label of the first matching row, or the default when none matches |
| GovDocs.DocumentTypeSpec | automated_research/government_documents_search.py:203-234 | the type is the label of the first row whose pattern matches the lower-cased title, or "Government Document" when none does |
| GovDocs.DetectDocumentType | automated_research/government_documents_search.py:203-234 | the loop with its early return computes `DocumentType` |
| GovDocs.PatternAbsent | automated_research/government_documents_search.py:231 | a pattern each of whose alternatives needs a character that the text lacks does not match |
| GovDocs.TypeSkip | automated_research/government_documents_search.py:230-232 | a row that does not match is passed over |
| GovDocs.TypeHit | automated_research/government_documents_search.py:230-232 | a row that matches decides the type |
| GovDocs.SpacedHit | automated_research/government_documents_search.py:217-221 | `a\s+b` matches where `a`, a white-space character and `b` follow each other |
| GovDocs.SkipRow | automated_research/government_documents_search.py:230-232 | a table row whose every alternative needs a missing character is passed over |
| GovDocs.PublicCommentBeforeRegulation | tests/ci/test_government_documents_search.py:146 | "Public Comment on Regulation" is a Public Comment, because that row comes before the regulation row |
| GovDocs.AnnualReportIsReport | tests/ci/test_government_documents_search.py:145 | "Annual Report FY2024" is a Report |
| GovDocs.ParseDocumentSpec | automated_research/government_documents_search.py:157-201 | the source names the agency and the country (or, failing the country, the organization), joined by " - ", or is "Government Document" when all three are blank; a given type is kept and a missing one is detected from the title; a truthy year is kept, otherwise it is read from the date |
| GovDocs.ParseSampleDocument | tests/ci/test_government_documents_search.py:117-136 | the sample policy paper parses with year 2024 from its date, its own type, and agency and country as its source |
| GovDocs.FilterByTypeSpec | automated_research/government_documents_search.py:236-247 | the result is a subsequence of the input, and a document occurs in it exactly when it is in the input with an allowed type |
| GovDocs.FilterByTypeAppend | automated_research/government_documents_search.py:236-247 | filtering two lists one after the other gives their filtered lists one after the other, so each document is kept or dropped on its own and in place |
| GovDocs.FilterByTypeSingle | automated_research/government_documents_search.py:247 | one document is kept exactly when its type is allowed, so with FilterByTypeAppend every occurrence of an allowed document survives and no other does |
| GovDocs.DeduplicateDocuments | automated_research/government_documents_search.py:249-276 | deduplication on the URL, or on the lower-cased stripped title when there is no URL |
| GovDocs.DeduplicateSpec | automated_research/government_documents_search.py:249-276 | the kept documents appear in input order; none lacks both a URL and a non-blank title; no two share a key; the first document of every key is kept |
| GovDocs.SharedSeenSet | automated_research/government_documents_search.py:259-274 | a document without URL whose title equals an earlier URL is dropped, because URLs and titles share one seen set |
| GovDocs.FilterByYear | automated_research/government_documents_search.py:325-345 | falsy bounds return the input; otherwise a document is kept exactly when it is in range |
| GovDocs.AgencyFromSpec | automated_research/government_documents_search.py:313-315 | the scan returns the agency of the first table pattern contained in the URL, and nothing when none is |
| GovDocs.SlashFrom | automated_research/government_documents_search.py:318 | the greedy `[^/]+` ends at the first '/' |
| GovDocs.HostAt | automated_research/government_documents_search.py:318 | a matched host is non-empty and contains no '/' |
| GovDocs.HostFromSpec | automated_research/government_documents_search.py:318 | the same holds for the leftmost match |
| GovDocs.ExtractAgency | automated_research/government_documents_search.py:278-323 | the loop with its early return, then the host fallback, computes `AgencyOf` |
| GovDocs.AgencyOfSpec | automated_research/government_documents_search.py:278-323 | the agency of the first table pattern found in the lower-cased URL; failing that, the upper-cased first label of the host; failing that, "Government Agency" |
| GovDocs.DomainLabelSpec | automated_research/government_documents_search.py:321 | the label is the upper-cased part of the host before its first dot |
| GovDocs.WhiteHouseAgency | tests/ci/test_government_documents_search.py:191 | the White House URL gives "White House" |
| GovDocs.FdaAgency | tests/ci/test_government_documents_search.py:192 | the FDA URL gives "FDA" |
| GovDocs.AllSourcesSpec | automated_research/government_documents_search.py:111-155 | the result never repeats a key, is a subsequence of what the sources returned for the first query, and when a bound is given holds only documents whose year is known and in range |
| GovDocs.StubSearchIsEmpty | automated_research/government_documents_search.py:87-109 | with the source's own `search_source`, which returns nothing, every search finds nothing |
| GovDocs.GatheredStub | automated_research/government_documents_search.py:135-142 | gathering over any sources with that stub collects nothing |
| GovDocs.SearchAllSources | automated_research/government_documents_search.py:111-155 | the loop over the sources with the first query, then dedup and the year filter, computes `AllSourcesResult` |
| PrismaStrategy.JsonFenceIsFence | automated_research/prisma_search_strategy.py:57-60 | a "```json" opener is also a plain fence, so the first branch takes precedence |
| PrismaStrategy.JsonBlock | automated_research/prisma_search_strategy.py:57-58 | with a "```json" opener, the text runs from the end of the first opener to the next fence inside its block, stripped |
| PrismaStrategy.PlainBlock | automated_research/prisma_search_strategy.py:59-60 | without a "```json" opener but with a fence, the text runs from the end of the first fence to the next, stripped |
| PrismaStrategy.JsonTextSpec | automated_research/prisma_search_strategy.py:57-62 | the extracted JSON text in every case: the json block up to the closing fence, or to the end of the reply when no fence follows; the plain block; or the whole reply stripped when there is no fence |
| PrismaStrategy.OptionalLinesGroups | automated_research/prisma_search_strategy.py:83-98 | the optional part of the context is the concatenation of the five per-answer groups |
| PrismaStrategy.GroupsAreCandidates | automated_research/prisma_search_strategy.py:83-98 | each group is its candidate line when the answer is truthy and empty otherwise, and its lines start with its heading |
| PrismaStrategy.ContextLinesSpec | automated_research/prisma_search_strategy.py:76-100 | the context opens with the theme and field lines ("N/A" when missing). Then, in the fixed order purpose, problem, technologies, additional context, known papers, come exactly the lines of the truthy answers |
| PrismaStrategy.AppendText | automated_research/prisma_search_strategy.py:83-87 | `if value: parts.append(heading + value)`: one line for a truthy value, none otherwise |
| PrismaStrategy.AppendList | automated_research/prisma_search_strategy.py:89-98 | `if items: parts.append(heading + ", ".join(items))` |
| PrismaStrategy.FormatResearchContext | automated_research/prisma_search_strategy.py:76-100 | the appended lines joined by newlines: `ContextLines` |
| PrismaStrategy.GenerateFallbackStrategy | automated_research/prisma_search_strategy.py:136-165 | the appending and extending computes `FallbackStrategy` |
| PrismaStrategy.FallbackStrategySpec | automated_research/prisma_search_strategy.py:136-165 | there is exactly one query. The keywords are the non-empty theme, then the non-empty field, then the first three technologies in order. With two or more keywords the query joins the first three with " AND ", otherwise it is the theme or the field. Related and exclusion lists are empty, the years are 2018 to 2024, the types Journal and Conference |
| PrismaStrategy.ThemeOnlyFallback | tests/ci/test_prisma_search_strategy.py:139-149 | a theme alone is both the only keyword and the only query |
| Ochiai.MarkdownFenceIsFence | automated_research/ochiai_report_generator.py:69-72 | a "```markdown" opener is also a plain fence, so the first branch takes precedence |
| Ochiai.SecondFence | automated_research/ochiai_report_generator.py:73-75 | splitting on fences gives three pieces or more exactly when a second fence follows the first |
| Ochiai.StripCodeFenceSpec | automated_research/ochiai_report_generator.py:69-75 | with a "```markdown" opener the report is the stripped text from that opener to the next fence, or to the end when none follows; otherwise, with two fences, it is the stripped text between them; otherwise the reply is unchanged |
| Ochiai.FormatPaperMetadata | automated_research/ochiai_report_generator.py:84-98 | the appended parts joined by newlines: `MetadataLines` |
| Ochiai.MetadataSpec | automated_research/ochiai_report_generator.py:84-98 | the six heading lines come in the order Title, Authors, Year, Publication, DOI, URL, each with its value or "N/A"; an abstract block follows, after a blank line, exactly when the abstract is a non-empty string |
| Ochiai.FormatResearchContext | automated_research/ochiai_report_generator.py:100-117 | the appended lines joined by newlines: `ContextLines` |
| Ochiai.ContextAgrees | automated_research/ochiai_report_generator.py:100-117 | the report's context is the strategy generator's context of the same answers without the additional information and known papers, and a prefix of the full strategy context |
| Ochiai.ContextSpec | automated_research/ochiai_report_generator.py:100-117 | the theme and field lines come first ("N/A" when missing); then, in the order purpose, problem, technologies, exactly the lines of the truthy answers among those three follow; nothing else |
| Ochiai.CoreAnswers | automated_research/ochiai_report_generator.py:106-115 | dropping the additional information and known papers keeps the first three answers and their lines |
| Ochiai.FormatSearchStrategy | automated_research/ochiai_report_generator.py:213-225 | the appended lines joined by newlines: `StrategyLines` |
| Ochiai.StrategySpec | automated_research/ochiai_report_generator.py:213-225 | the keywords line comes first when there are keywords; when there are queries the heading follows, then one line per query in list order, the i-th query (from 0) numbered i + 1 |
| Ochiai.QueryLineInjective | automated_research/ochiai_report_generator.py:223 | the number and the query can be read back from a query line |
| Ochiai.QueryLinesDistinct | automated_research/ochiai_report_generator.py:222-223 | the numbered query lines are pairwise different, even for repeated queries |
| Ochiai.SafeTitleSpec | automated_research/ochiai_report_generator.py:248-249 | the sanitised title has min(50, length) characters; a safe character (alphanumeric, space, '-', '_') is kept and any other becomes '_'; every character is safe; sanitising twice changes nothing |
| Ochiai.ReportFileNameSpec | automated_research/ochiai_report_generator.py:246-253 | a file name exists exactly for a truthy title. It has at most 53 characters, ends with ".md" and holds no '/' and no other '.', so the report stays in the output directory |
| IeeeAuto.DeduplicatePapers | automated_research/ieee_automated_search.py:224-235 | deduplication on the lower-cased, stripped title, with a blank title dropped |
| IeeeAuto.DeduplicateSpec | automated_research/ieee_automated_search.py:224-235 | the kept papers appear in input order; none has a blank normalised title and no two share one; the first paper of each normalised title is kept and every non-blank normalised title is represented; deduplicating again changes nothing |
| IeeeAuto.TitleKeyOfTrimmed | automated_research/ieee_automated_search.py:230 | a title whose lower-case form has no white space at either end has that form as its key |
| IeeeAuto.DedupPattern | automated_research/ieee_automated_search.py:229-233 | keys a, b, a, a keep exactly the first two records |
| IeeeAuto.DedupCaseInsensitive | tests/ci/test_automated_research_integration.py:62-76 | "Paper A", "Paper B", "Paper A", "PAPER A" keep exactly the first "Paper A" and "Paper B" |
| IeeeAuto.SampleKeys | tests/ci/test_automated_research_integration.py:66-71 | the four test titles have keys a, b, a, a with a ≠ b |
| IeeeAuto.TaskPiecesContain | automated_research/ieee_automated_search.py:123-165 | whatever the fixed texts, the search task holds the site text, the quoted query, the year range, the count and the output-format text |
| IeeeAuto.BuildSearchTaskSpec | automated_research/ieee_automated_search.py:118-166 | the search task names IEEE Xplore, the quoted query, the range "start - end" (2018 and 2024 for missing bounds), the number of results and the JSON output format |
| IeeeAuto.SampleSearchTask | tests/ci/test_automated_research_integration.py:50-59 | with the range 2020 to 2024 and ten results, the search task states "2020 - 2024" and "10" |
| IeeeAuto.SearchAndCollect | automated_research/ieee_automated_search.py:31-116 | the collection over the strategy's queries, each searched by the agent with its task, computes `Collected` |
| IeeeAuto.SearchAndCollectSpec | automated_research/ieee_automated_search.py:49-116 | no queries give nothing. Otherwise at most `max_papers` papers, with distinct non-blank normalised titles, each returned by the agent for the search task of one of the queries, asking for `max(5, max_papers // #queries)` results |
| MainPipeline.DeduplicatePapers | automated_research/main.py:344-355 | the orchestrator's dedup is the IEEE searcher's: input order, non-blank normalised titles, no two alike |
| MainPipeline.SearchPapers | automated_research/main.py:188-256 | the search step (queries, or none when the key is missing; the loop; dedup; `[:max_papers]`) computes `Collected` |
| MainPipeline.SearchPapersSpec | automated_research/main.py:194-253 | no queries give nothing. Otherwise each query asks for `max(5, max_papers // #queries)` ≥ 5 papers, and at most `max_papers` come back, with distinct titles, each returned by the search of one of the queries |
| MainPipeline.ReportFileNameSpec | automated_research/main.py:288-290 | the name is the index in at least three digits (read back as the index), then '_', then the sanitised title's safe characters (at most 50; "paper" when there is no title), then ".md" |
| MainPipeline.ReportFileNameInjective | automated_research/main.py:280-290 | two report names are equal only for the same index |
| MainPipeline.ReportFileNamesDistinct | automated_research/main.py:280-292 | the reports of one session never share a file name, even for papers with the same title |
| Hybrid.ValidateStrategySpec | automated_research_lightweight/hybrid_system.py:227-238 | the validated ratios always add up to 100 (a missing one counting as 0); a parsed reply that adds up to 100 is kept unchanged; any other parsed reply gives 50/30/20 with "デフォルト戦略"; an unparsable reply gives 50/30/20 with the parse-error reason |
| Hybrid.MissingRatioAccepted | automated_research_lightweight/hybrid_system.py:227-233 | a reply with ratios 60 and 40 and no IEEE ratio passes the validation unchanged, and then the subscripted reads of all three ratios fail |
| Hybrid.ResolveRatiosSpec | automated_research_lightweight/hybrid_system.py:228-264 | the resolved ratios add up to 100 for every reply and agree with the subscripted reads whenever those succeed |
| Hybrid.EngineCountSpec | automated_research_lightweight/hybrid_system.py:262-264 | for non-negative inputs, `int(max_papers * ratio / 100)` is the largest c with 100·c ≤ max_papers·ratio |
| Hybrid.EngineCountsSum | automated_research_lightweight/hybrid_system.py:262-264 | with non-negative ratios adding up to 100, the three counts add up to at most `max_papers` and lose fewer than 3 papers to truncation |
| Hybrid.DefaultCounts | automated_research_lightweight/hybrid_system.py:262-264 | the default split of ten papers asks 5, 3 and 2 |
| Hybrid.SearchQuerySpec | automated_research_lightweight/hybrid_system.py:259 | the " OR " query holds every keyword; one keyword is the query itself, and no keywords give the empty query |
| Hybrid.MergeResults | automated_research_lightweight/hybrid_system.py:273-281 | failed engines are skipped and the others extend the list, in order |
| Hybrid.ParallelSearchSpec | automated_research_lightweight/hybrid_system.py:240-281 | the merged list is the successful engines' papers, arXiv first, then Semantic Scholar, then IEEE, each engine asked for its own count |
| Hybrid.DeduplicateAndRank | automated_research_lightweight/hybrid_system.py:283-315 | the dedup loop with its truncation computes `Ranked` |
| Hybrid.RankedSpec | automated_research_lightweight/hybrid_system.py:300-315 | the result keeps input order and never holds two papers with the same normalised title, so at most one blank one; it has `min(max_papers, #distinct titles)` papers |
| Hybrid.RankedPrefix | automated_research_lightweight/hybrid_system.py:311-313 | the ranked papers are the first ones the deduplication keeps |
| Hybrid.RankedComplete | automated_research_lightweight/hybrid_system.py:300-315 | with no more than `max_papers` distinct titles, the first paper of each normalised title is kept and every title of the input is represented |
| Hybrid.GenerateReports | automated_research_lightweight/hybrid_system.py:317-340 | one report per paper, in order, copying the title, authors, date, URL and source, the abstract defaulting to "アブストラクトなし" |
| Hybrid.ResearchPapersSpec | automated_research_lightweight/hybrid_system.py:67-110 | at most `max_papers` papers come out, with distinct normalised titles, and each was returned by one of the three engines for the keyword query; it follows the corrected ratio resolution (ResolveRatios), whereas the source raises `KeyError` at line 97 when the reply omits `ieee_ratio` (see Findings) |
| SemanticScholar.YearParamSpec | automated_research_lightweight/semantic_scholar_searcher.py:61-67 | the year parameter is present exactly when a bound is truthy; for positive years it splits on '-' into the decimal start and end, an open side being empty |
| SemanticScholar.ParsePaperSpec | automated_research_lightweight/semantic_scholar_searcher.py:101-124 | the authors keep their number and order, a nameless one becoming "Unknown". The URL is the paper page of a non-empty id (the id reads back from it), else the given URL, else "N/A". A PDF link exists exactly for a non-empty open-access entry that has one. Missing title, abstract and counts get their defaults; a year reads back from the date text |
| SemanticScholar.SearchPapers | automated_research_lightweight/semantic_scholar_searcher.py:32-89 | every returned entry is parsed, in order; a failed request or a missing `data` key gives nothing |
| Registry.OfCategorySpec | automated_research_lightweight/sources/registry.py:59-61 | the sources of a category are exactly the registered ones of that category, in registration order |
| Registry.LookupSpec | automated_research_lightweight/sources/registry.py:81-82 | the looked-up sources are registered sources with requested ids, every requested registered id yields its source, and unknown ids are dropped |
| Registry.LookupAppend | automated_research_lightweight/sources/registry.py:81-82 | looking up two id lists one after the other gives their results one after the other, so the requested order and repeated ids are kept |
| Registry.LookupSingle | automated_research_lightweight/sources/registry.py:81-82 | one id gives its registered source, or nothing when it is not registered |
| Registry.ResultsMapSpec | automated_research_lightweight/sources/registry.py:91-102 | the result map has one key per searched source id, holding that source's results, or the empty list when its search failed |
| Registry.SearchSpec | automated_research_lightweight/sources/registry.py:63-102 | every key of the result is a registered id holding its source's results; a non-empty id list searches exactly the registered ids it names; no list or an empty one searches every registered source |
| Registry.SelectedSources | automated_research_lightweight/sources/registry.py:81-84 | only registered sources are selected; a non-empty id list selects a registered source exactly when its id is listed, and no list or an empty one selects every registered source |
| Registry.ResultsOfRegistered | automated_research_lightweight/sources/registry.py:91-102 | searching registered sources keys each result by the source's registered id, and an id gets a key exactly when its source was searched |
| Registry.EmptyCategorySearchesAll | automated_research_lightweight/sources/registry.py:104-114 | as written, a category without sources passes an empty id list, which is falsy, so every registered source is searched |
| Registry.CategorySearchSpec | automated_research_lightweight/sources/registry.py:104-114 | the corrected category search has a key exactly for each registered source of the category, holding its results, and is empty for a category without sources |
| Registry.RegisterSpec | automated_research_lightweight/sources/registry.py:36-42 | after registering, the id maps to the new source; the count grows by one only for a new id; every other entry is unchanged |
| Registry.UnregisterSpec | automated_research_lightweight/sources/registry.py:44-49 | after removing a registered id it is gone, the count drops by one and every other entry is unchanged |
| Registry.KeysCount | automated_research_lightweight/sources/registry.py:116-117 | the registration order lists each registered id once, so its length is the number of sources |
| Registry.SourceRegistry.constructor | automated_research_lightweight/sources/registry.py:33-34 | the registry starts empty |
| Registry.SourceRegistry.Register | automated_research_lightweight/sources/registry.py:36-42 | the source is stored under its id, overwriting in place, and the registry stays well keyed |
| Registry.SourceRegistry.Unregister | automated_research_lightweight/sources/registry.py:44-49 | True and the entry removed exactly when the id was registered, otherwise False and no change |
| Registry.SourceRegistry.Get | automated_research_lightweight/sources/registry.py:51-53 | the source registered under the id, None exactly when there is none |
| Registry.SourceRegistry.ListSources | automated_research_lightweight/sources/registry.py:55-57 | one info per registered source, in registration order |
| Registry.SourceRegistry.Len | automated_research_lightweight/sources/registry.py:116-117 | the number of registered sources |
| Registry.SourceRegistry.Has | automated_research_lightweight/sources/registry.py:119-120 | an id is contained exactly when `get` finds it, and exactly when `list_sources` lists a source with that id |
| Registry.SourceRegistry.Search | automated_research_lightweight/sources/registry.py:63-102 | the loop over the selected sources computes the result map that SearchSpec describes |
| Registry.SourceRegistry.SearchByCategory | automated_research_lightweight/sources/registry.py:104-114 | the method computes the as-written category search |

## Left out
- Browser automation: the agent run inside `search_and_collect` (`automated_research/ieee_automated_search.py:76-97`) is the `search` parameter, and parsing the agent's history (`_extract_papers_from_history`, `_parse_paper_info`) is not part of this model. It is a framework that is not shown.
- Network clients: the `_fetch_*` functions, `search_source`, the HTTP request of the Semantic Scholar searcher and the engine calls of the hybrid system are function parameters, their exceptions being `None`. `automated_research_lightweight/ieee_searcher.py`, `arxiv_searcher.py`, `sources/perplexity.py` and `sources/organizations.py` are not part of this model.
- The IEEE search service in `browser_use/integrations/ieee_search/service.py` returns a hard-coded fake result and is not part of this model.
- Language models and interviews: the prompts and model calls of the strategy builder, the report generator and the hybrid system are parameters or left out; `llm_provider.py`, `research_interview.py` and the Streamlit app are not part of this model.
- Concurrency: `asyncio.gather`, locks and rate-limit sleeps are modelled as sequential calls in list order; the results do not depend on the interleaving.
- Foreign parsers: XML parsing of arXiv feeds, `json.loads`/`json.dump`, `urllib.parse.quote` and `datetime.fromisoformat` are left out. A parsed record or reply is an input datatype. For the year of a date, a successful ISO parse gives the first four-digit run too, so the model uses the regex fallback for both paths.
- Hybrid: stripping a code fence from the model's reply (`automated_research_lightweight/hybrid_system.py:220-223`) comes before `json.loads`, and is left out with it; the reply is an already parsed `Option<RatioStrategy>`.
- Hybrid: the ratios are integers and the engine counts are computed exactly. Python's float rounding in `max_papers * ratio / 100` is not modelled.
- Kappa is computed over Dafny `real`, which is exact. Python's float rounding is not modelled.
- Text: `str.lower`, `str.upper`, `strip`, `isalnum`, and the regular-expression classes `\s` and `\d`, are their ASCII versions. Unicode case mapping, Unicode whitespace and non-ASCII decimal digits (which Python 3's `\d` matches) are not modelled. `\d` occurs at automated_research/jstage_search.py:176 and 275, automated_research/government_documents_search.py:358 and automated_research/arxiv_search.py:277 and 297.
- Python dict key order is modelled with `Dicts.ODict` for the source registry and as key lists for the vote and reason histograms. Where the source iterates a set (conflicts and consensus), the results are specified as sets without duplicates.
- SourceRegistry.Search and SearchSpec: the result is a Dafny map, so the key order of the returned dict (automated_research_lightweight/sources/registry.py:102, the order of the selected sources, a repeated id keeping its first place) is not modelled; the keys and each key's results are.
- Rendering: the Mermaid and Markdown text of the flow diagram and the Markdown of the reports are left out, apart from the counts and the formatted lines the model covers. `_display_search_strategy` only prints and is left out.
- Clock: `datetime.now()` timestamps are left out; the screening and report dates are data.
- Persistence and logging: every `save_*`/`load_*` method, `export_to_csv`, pydantic validation, `print` and `logging` calls are left out.
- MainPipeline.SearchPapers: tagging each returned paper with its `search_query` (`automated_research/main.py:229-230`) is not modelled; papers are kept as the search returned them.
- Records that hold a key whose value is `None` are treated like records without the key, for example `year_range.get('start', 2018)` in the IEEE task and the null fields of a Semantic Scholar reply.

## Findings
| source | as written | input that shows it | evidently intended | confidence | as-written member | corrected member |
|---|---|---|---|---|---|---|
| automated_research_lightweight/hybrid_system.py:228-233 | the validation counts a missing ratio as 0 and returns the reply unchanged when the sum is 100, but lines 95-97 and 262-264 read all three ratios by subscript | the reply `{"arxiv_ratio": 60, "semantic_scholar_ratio": 40}` passes validation and then raises `KeyError: 'ieee_ratio'` | a missing ratio is used as 0, so every validated strategy yields three counts and the ratios add up to 100 | not executed | Hybrid.MissingRatioAccepted | Hybrid.ResolveRatiosSpec |
| automated_research_lightweight/sources/registry.py:104-114 | `search_by_category` passes the category's ids to `search`, which treats an empty id list as "no list" | a registry with one `government` source, searched with the category `academic`, searches the `government` source | a category with no sources searches nothing and returns `{}` | not executed | Registry.EmptyCategorySearchesAll | Registry.CategorySearchSpec |
