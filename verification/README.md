# BenchMatch-AI core, modelled in Dafny

BenchMatch-AI matches staffing requirements to employees who are "on the bench" (not currently allocated). This project models its core and proves properties of the model.

Backend, `backend/data_ingestion.py`:

- **Corpus builder.** For each employee, skills, certificates and project summaries are grouped, left-joined onto the employee rows, filled with `""`, and rendered as one five-line labelled text chunk. The ingest loop upserts each chunk into a vector collection keyed by employee id, counting successes and failures.
- **Hybrid search.** Short queries are padded, and the retrieval window is widened. Retrieved items are screened on their bench record and employee row. Four multiplicative boosts turn a cosine distance into a final score, and the candidates are stably re-ranked and cut to `top_n`.

Frontend (React):

- the tag editor (`TagInput.tsx`);
- the new-requirement form with its submit/cancel guard (`NewRequirementPage.tsx`);
- the shortlist page's requirement merge, fit metrics, bench badge and fit-report state (`CandidateShortlistPage.tsx`);
- the fit report's certification split, labels, confidence bands and tabs (`CandidateFitModal.tsx`);
- the sidebar's active-route test and open/collapse behaviour (`Sidebar.tsx`);
- the progress bar's clamp and colour bands (`ProgressBar.tsx`).

Modules, one per component:

- `Wrappers`: `Option`.
- `Text`: Python and JavaScript white space, strip/trim, `str.split()`, ASCII lower-casing, substring tests, decimal rendering, splitting on a character.
- `Records`: the table rows.
- `Corpus`: aggregation, chunk and ingest.
- `Scoring`: query padding, retrieval window and boosts.
- `Ranking`: the stable sort and the `[:top_n]` cut.
- `Search`: the screening loop and `search_employees`.
- Frontend: `TagInput`, `RequirementForm`, `Shortlist`, `FitModal`, `Sidebar`, `ProgressBar`.

Inputs from outside become parameters:

- The database tables are sequences of records.
- The embedding service is a function `embed: string -> Option<seq<real>>`, where `None` stands for a failed embedding or upsert.
- The vector query is a function `retrieve(normalisedQuery, k)` that returns the hits in distance order.
- JavaScript's `Number(text)` is a function `toNumber`.

Scores are exact reals.

## Model

| member | source | states |
|---|---|---|
| Corpus.SkillEntries | backend/data_ingestion.py:129-133 | An employee's skill list is empty exactly when the skill table has no row for that id, and it has at most one entry per row. Every entry is `name (N yrs)` rendered from one of the employee's rows. |
| Corpus.CertNames | backend/data_ingestion.py:135-136 | An employee's certificate list is empty exactly when the certificate table has no row for that id. Every entry is the name on one of the employee's rows. |
| Corpus.Summaries | backend/data_ingestion.py:138-139 | An employee's project summaries are empty exactly when the project table has no row for that id. Every entry is the summary on one of the employee's rows. |
| Corpus.Aggregate | backend/data_ingestion.py:141-147 | The left join keeps one aggregated row per employee row, in order and with the same id. |
| Corpus.AbsentRendersEmpty | backend/data_ingestion.py:141-147 | A missing group or a null role or primary skill becomes `""`, never a null marker. The skills column is `""` exactly when the employee has no skill row. |
| Corpus.SkillEntriesSplit | backend/data_ingestion.py:129-133 | The skill group is built row by row in table order: the group of two tables in sequence is the first table's group followed by the second's. |
| Corpus.CertNamesSplit | backend/data_ingestion.py:135-136 | The certificate group is built row by row in table order, in the same sense. |
| Corpus.SummariesSplit | backend/data_ingestion.py:138-139 | The project-summary group is built row by row in table order, in the same sense. |
| Corpus.GroupsOfOneRow | backend/data_ingestion.py:129-139 | A one-row table contributes its rendered skill, certificate name or summary exactly when the row belongs to the employee. With the split lemmas, this fixes each group as every one of the employee's rows, in table order, and nothing else. |
| Corpus.OtherRowsIgnored | backend/data_ingestion.py:129-147 | Rows of other employees appended to the skill, certificate or project table leave the employee's aggregated row unchanged. |
| Corpus.SkillRendering | backend/data_ingestion.py:129-133 | Each skill row of the employee appended to the table adds `name (N yrs)` at the end of the skills column. It follows `, ` when the employee already had skill rows and stands alone otherwise. N parses back to the row's years. |
| Corpus.CertificationAppended | backend/data_ingestion.py:135-136 | A certificate of the employee appended to the table adds its name at the end of the column. It follows `, ` when the employee already had certificates. |
| Corpus.ExperienceAppended | backend/data_ingestion.py:138-139 | A project of the employee appended to the table adds its summary at the end of the experience column. It follows a blank when the employee already had projects. |
| Corpus.ChunkShape | backend/data_ingestion.py:153-161 | Stripping the chunk only removes trailing white space of the experience text. The four labelled lines and the `Experience:` label are kept verbatim. |
| Corpus.ChunkLines | backend/data_ingestion.py:153-161 | With no line break inside a field, the chunk splits into exactly the five labelled lines in the fixed order (the last one stripped at its end). |
| Corpus.ExperienceLine | backend/data_ingestion.py:155-161 | No project history gives the bare `Experience:` label. A summary ending in a visible character is kept verbatim after `Experience: `. |
| Corpus.Ingest | backend/data_ingestion.py:204-231 | Every aggregated row is attempted, and the success and failure counters add up to the number of rows. The result is the loop run over all rows. |
| Corpus.IngestCounts | backend/data_ingestion.py:204-231 | The success count is the number of rows whose embedding succeeded, wherever the failures fall. |
| Corpus.IngestOverlay | backend/data_ingestion.py:213-222 | Upsert semantics: the run overlays its writes on the starting collection, and ids it does not write keep their entries. |
| Corpus.WritesKeys | backend/data_ingestion.py:209-222 | The ids written are exactly the ids of rows whose embedding succeeded. |
| Corpus.WritesLastWins | backend/data_ingestion.py:209-222 | For a repeated id, the collection holds the chunk, embedding and role of the last successful row. |
| Corpus.IngestIdempotent | backend/data_ingestion.py:207-231 | Re-running on unchanged data with the same embedding results leaves the collection and the counts unchanged. |
| Scoring.NormalizeQuery | backend/data_ingestion.py:337-343 | A query with one token (after strip/split) gets ` developer engineer professional` appended. One with two tokens gets ` professional development experience`. Any other count, zero included, is returned unchanged. |
| Scoring.NormalizedTokens | backend/data_ingestion.py:337-343 | The padded query tokenises to the original tokens followed by the three context tokens. |
| Scoring.RetrievalK | backend/data_ingestion.py:371 | The window is at least 35 and at least 6·top_n, and it equals one of them. |
| Scoring.RoleBoost | backend/data_ingestion.py:430-439 | ×2.0 iff the role equals the lower-cased query. ×1.5 iff it does not but contains a query word of three or more characters. ×1.0 otherwise. The two boosts never both apply. |
| Scoring.ExactRoleAlsoKeyword | backend/data_ingestion.py:430-439 | An exact role match with a long enough query word also satisfies the keyword rule, yet the boost is 2.0 and not 3.0 (the `elif`). |
| Scoring.ShortWordIgnored | backend/data_ingestion.py:436-437 | Appending a word of one or two characters to the query, after a blank, never changes whether the keyword rule hits a role. |
| Scoring.PrimaryBoost | backend/data_ingestion.py:441-443 | ×1.8 iff the primary skill is non-empty and a substring of the lower-cased query, else ×1.0. |
| Scoring.NullPrimarySkill | backend/data_ingestion.py:419 | A NULL primary skill reads as `"none"`, so it earns ×1.8 exactly when the query contains `none`. |
| Scoring.SkillBoost | backend/data_ingestion.py:446-454 | No matching skill gives 1.0. Otherwise the boost lies in [1.3, 2.0] and reaches the 2.0 cap exactly from four matches. |
| Scoring.SkillBoostMonotone | backend/data_ingestion.py:453 | More matching skills never lower the skill boost. |
| Scoring.BoostFactor | backend/data_ingestion.py:428-454 | The combined boost, the product of the role, primary-skill and skill factors, lies in [1.0, 2.0·1.8·2.0]. |
| Scoring.BoostNeutral | backend/data_ingestion.py:428-454 | The boost is exactly 1.0 iff no signal fires: the role neither equals the query nor is hit by a keyword, the primary skill is empty or absent from the query, and no skill row matches. |
| Scoring.FinalScoreMonotone | backend/data_ingestion.py:423-458 | For a non-negative embedding score, a larger boost never lowers the final score. |
| Scoring.BoostDemotesNegativeScore | backend/data_ingestion.py:423-458 | At distance 1.5 the embedding score is negative, and an exact role match then ranks below an unboosted candidate. |
| Search.FirstIndex | backend/data_ingestion.py:398-415 | The lookup returns the first row with the id, or none exactly when no row has it. |
| Search.BenchStatusOf | backend/data_ingestion.py:393-402 | There is no status exactly when the employee has no bench record. Otherwise it is the status of the first record. |
| Search.MatchCountIsCardinality | backend/data_ingestion.py:447-452 | The skill-match count is the number of the employee's skill rows whose lower-cased name contains a query term. |
| Search.Score | backend/data_ingestion.py:417-468 | A scored candidate keeps its id, position and status. Its role is the metadata role or "Unknown", its embedding score is 1 − distance, its final score is embedding score × boost, and its boost lies in [1, 7.2]. The boost is the combined boost of the employee row's lower-cased `role` and `primary_skill` and of the count of the employee's skill rows matching a query word. All of these read the lower-cased query as given. The primary skill reported is the lower-cased column. |
| Search.ClassifySpec | backend/data_ingestion.py:387-415 | An item is kept iff its first bench record says "inactive" and it has an employee row. It is not eligible iff that status is anything else. It is missing iff it has no bench record, or an eligible record but no employee row. |
| Search.KeptCandidate | backend/data_ingestion.py:404-468 | A kept candidate is "inactive" and carries (1 − distance) × boost with the boost in [1, 7.2]. |
| Search.KeptBoost | backend/data_ingestion.py:414-452 | The boost of a kept candidate is the combined boost of the item's first employee row: its `role` column (not the stored metadata role), its `primary_skill`, and the count of the employee's skill rows matching a word of the query. Each rule reads `query_text.lower()`, not the normalised query. The reported primary skill is the row's lower-cased column. |
| Search.Tally | backend/data_ingestion.py:383-413 | Each retrieved item lands in exactly one of missing, not eligible or candidates, so the three counts add up to the number retrieved. |
| Search.TallyMissing | backend/data_ingestion.py:393-395 | The missing counter is the number of items judged missing. |
| Search.TallyNotEligible | backend/data_ingestion.py:405-407 | The not-eligible counter is the number of items with a non-"inactive" status. |
| Search.TallySound | backend/data_ingestion.py:383-468 | Candidates are kept items in retrieval order, each equal to the verdict at its position. |
| Search.TallyComplete | backend/data_ingestion.py:383-468 | Every kept item is among the candidates. |
| Search.ScreenSpec | backend/data_ingestion.py:383-468 | Screening the retrieved items yields exactly the kept verdicts in retrieval order, plus the two counters. |
| Search.CandidatesEligible | backend/data_ingestion.py:404-415 | Every candidate is an "inactive" retrieved item with an employee row, at its own retrieval index. |
| Search.Output | backend/data_ingestion.py:474-487 | The output has \|ranked[:top_n]\| records, each carrying that candidate's fields with the final score as the similarity. |
| Search.OutputSorted | backend/data_ingestion.py:473-487 | The output of a sorted ranking lists similarities highest first. |
| Search.SearchEmployees | backend/data_ingestion.py:345-413 | Retrieval uses the normalised query and the widened window. The two counters and the candidates account for every retrieved item. |
| Search.RankedOutput | backend/data_ingestion.py:473-487 | The output length is min(top_n, candidates), following Python slice rules for a negative top_n. It is a prefix of a permutation of the candidates, sorted by final score, with ties in retrieval order. |
| Search.SearchEmployeesShape | backend/data_ingestion.py:383-487 | The search output is the ranked, cut output of the candidates, and those are in retrieval order. |
| Search.SearchEmployeesProvenance | backend/data_ingestion.py:387-487 | Every output record comes from a retrieved item that the filter kept, is "inactive", and shows its final score. |
| Ranking.Insert | backend/data_ingestion.py:473 | Insertion adds exactly one element and keeps all the others. |
| Ranking.InsertSorted | backend/data_ingestion.py:473 | Insertion keeps a list sorted highest first. |
| Ranking.InsertStable | backend/data_ingestion.py:473 | Insertion after all earlier elements keeps ties in retrieval order. |
| Ranking.RankByScore | backend/data_ingestion.py:473 | The ranking is a permutation of the candidates. |
| Ranking.RankByScoreSpec | backend/data_ingestion.py:473 | The ranking is sorted by final score, highest first, and it is stable. |
| Ranking.PyTake | backend/data_ingestion.py:474 | `s[:n]` has min(n, \|s\|) elements for n ≥ 0, and \|s\|+n (at least 0) for n < 0. It is always a prefix. |
| Ranking.PrefixKeepsOrder | backend/data_ingestion.py:473-474 | Cutting a sorted, stable ranking keeps it sorted and stable. |
| TagInput.AddBlankIsNoOp | BenchMatch-AI/frontend/src/components/ui/TagInput.tsx:20-22 | Adding empty or white-space-only text changes neither the tags nor the typed text. |
| TagInput.AddVisibleAppendsOrRefuses | BenchMatch-AI/frontend/src/components/ui/TagInput.tsx:20-25 | Text with a visible character trims to a non-empty tag, and it is refused exactly when that tag is already present. |
| TagInput.AddAppendsTrimmed | BenchMatch-AI/frontend/src/components/ui/TagInput.tsx:24-25 | A successful add appends exactly the trimmed text after the unchanged earlier tags and clears the input. The new tag has no surrounding white space. |
| TagInput.AddKeepsNoDuplicates | BenchMatch-AI/frontend/src/components/ui/TagInput.tsx:23-24 | Adding never introduces a duplicate. |
| TagInput.EnterAndCommaAdd | BenchMatch-AI/frontend/src/components/ui/TagInput.tsx:28-31 | Enter and "," add the current input, exactly like the Add button. |
| TagInput.BackspaceRemovesLast | BenchMatch-AI/frontend/src/components/ui/TagInput.tsx:32-33 | Backspace on an empty input with tags removes only the last tag. Otherwise it changes nothing. |
| TagInput.RemoveTag | BenchMatch-AI/frontend/src/components/ui/TagInput.tsx:37-38 | Removing drops every occurrence of the tag, and only those: other tags keep their multiplicity. |
| TagInput.RemoveTagDistributes | BenchMatch-AI/frontend/src/components/ui/TagInput.tsx:37-38 | Removal filters each part of a concatenation, so the remaining tags keep their relative order. |
| TagInput.RemoveTagIdempotent | BenchMatch-AI/frontend/src/components/ui/TagInput.tsx:37-38 | Removing an absent tag changes nothing, and removing twice is removing once. |
| TagInput.StepKeepsNoDuplicates | BenchMatch-AI/frontend/src/components/ui/TagInput.tsx:20-38 | Every user action keeps a duplicate-free tag list duplicate-free. |
| RequirementForm.HandleChange | frontend/src/pages/NewRequirementPage.tsx:21-25 | A change sets the named field to the value and leaves every other field unchanged. |
| RequirementForm.HandleChangeLaws | frontend/src/pages/NewRequirementPage.tsx:21-25 | Writing a field's own value back is a no-op, and of two writes to one field the last wins. |
| RequirementForm.InputValue | frontend/src/pages/NewRequirementPage.tsx:27-37 | The experience box gives "" for empty text and a number otherwise. Other inputs pass their text through. |
| RequirementForm.InitialVersusCleared | frontend/src/pages/NewRequirementPage.tsx:11-19 | The initial form is empty except for the skills React and Node.js, so it differs from the cleared form only in that field. |
| RequirementForm.SubmitGuard | frontend/src/pages/NewRequirementPage.tsx:39-54 | Submit sets the flag and captures the form, and a second Submit is a no-op. |
| RequirementForm.CancelGuard | frontend/src/pages/NewRequirementPage.tsx:56-67 | Cancel is a no-op while submitting. Otherwise it clears every field, skills included. |
| RequirementForm.CapturedStaysCaptured | frontend/src/pages/NewRequirementPage.tsx:39-67 | After Submit, no further edit, submit or cancel changes the captured requirement or the submitting flag. |
| RequirementForm.NavigatesWithSubmittedForm | frontend/src/pages/NewRequirementPage.tsx:39-54 | The requirement sent to the shortlist is the form as it was at Submit, even if fields were edited while waiting. |
| RequirementForm.NoNavigationWithoutSubmit | frontend/src/pages/NewRequirementPage.tsx:39-54 | Without a Submit the page never navigates. |
| Shortlist.Merge | frontend/src/pages/CandidateShortlistPage.tsx:102-122 | Without a submitted form the card shows the mock requirement. The id is always the mock id. |
| Shortlist.MergeFields | frontend/src/pages/CandidateShortlistPage.tsx:105-121 | A text field takes the submitted value iff it is non-empty. Skills are kept iff non-empty. Experience is kept iff it is a number, otherwise the mock value is used. |
| Shortlist.ZeroExperienceKept | frontend/src/pages/CandidateShortlistPage.tsx:113-116 | A minimum experience of 0 is kept, not replaced by the mock's 5. |
| Shortlist.MergeIdempotent | frontend/src/pages/CandidateShortlistPage.tsx:102-122 | Merging a merged requirement again gives it back. |
| Shortlist.MergeOfPageForms | frontend/src/pages/CandidateShortlistPage.tsx:102-122 | The cleared form merges to the mock requirement, and the initial form to the mock requirement with its two skills. |
| Shortlist.TopFit | frontend/src/pages/CandidateShortlistPage.tsx:172 | The top fit is a candidate's score at least every other score, and there is none exactly for no candidates. |
| Shortlist.SortAsc | frontend/src/pages/CandidateShortlistPage.tsx:173-175 | The ascending sort is a permutation of the scores. |
| Shortlist.SortAscSorted | frontend/src/pages/CandidateShortlistPage.tsx:173-175 | The sorted scores are in ascending order. |
| Shortlist.MedianFitSpec | frontend/src/pages/CandidateShortlistPage.tsx:173-175 | The median is a candidate's score with at most ⌊n/2⌋ scores below it and more than ⌊n/2⌋ at or below it, so for even n it is the upper median. |
| Shortlist.MockMetrics | frontend/src/pages/CandidateShortlistPage.tsx:22-87 | For the three mock candidates the strip shows a top fit of 94 and a median of 88. |
| Shortlist.BadgeVariant | frontend/src/pages/CandidateShortlistPage.tsx:159-166 | "bench" iff the status is Bench, "partial" iff Partial, "notBench" for anything else. |
| Shortlist.BadgeAgreesWithLabel | frontend/src/pages/CandidateShortlistPage.tsx:159-166 | The table badge and the fit report's bench label classify every status the same way. |
| Shortlist.RowClickShowsDefault | frontend/src/pages/CandidateShortlistPage.tsx:274-289 | Clicking any row opens the report on its default candidate "c1"; the clicked row is only recorded. |
| Shortlist.TabSurvivesReopen | frontend/src/pages/CandidateShortlistPage.tsx:282-289 | The report stays mounted, so closing and reopening it keeps the tab it was left on. |
| FitModal.PartitionMultiset | frontend/src/components/modals/CandidateFitModal.tsx:565-566 | Together, the required and optional lists hold every certification exactly as often as the input. |
| FitModal.PartitionMembers | frontend/src/components/modals/CandidateFitModal.tsx:565-566 | A certification is in the required list iff it is marked required, and in the optional list iff it is not. |
| FitModal.RequiredDistributes | frontend/src/components/modals/CandidateFitModal.tsx:565 | The required filter keeps input order. |
| FitModal.OptionalDistributes | frontend/src/components/modals/CandidateFitModal.tsx:566 | The optional filter keeps input order. |
| FitModal.CertStatus | frontend/src/components/modals/CandidateFitModal.tsx:576-617 | A required certification shows "Met" iff held and "Missing" iff not. An optional one shows "Held" iff held and "Not held" iff not. |
| FitModal.MetCountsHeldRequired | frontend/src/components/modals/CandidateFitModal.tsx:576-593 | The number of "Met" badges is the number of required certifications held. |
| FitModal.BenchLabel | frontend/src/components/modals/CandidateFitModal.tsx:179-184 | Bench gives "Immediately available", Partial gives "Partially allocated", and any other status gives "Not currently on bench". |
| FitModal.ConfidenceBandsExact | frontend/src/components/modals/CandidateFitModal.tsx:445-451 | Strong iff ≥ 85, moderate iff 60 ≤ c < 85, weak iff < 60. The strong and moderate tests never both hold. |
| FitModal.ExactlyOneBody | frontend/src/components/modals/CandidateFitModal.tsx:168-296 | While open exactly the active tab's body is rendered, and while closed none. |
| Sidebar.Initial | frontend/src/components/layout/Sidebar.tsx:37 | The rail starts expanded. |
| Sidebar.TogglesFlip | frontend/src/components/layout/Sidebar.tsx:46-61 | The header toggle and the mobile toggle flip the rail and leave the route alone. |
| Sidebar.AsideExpands | frontend/src/components/layout/Sidebar.tsx:73-75 | A click on the rail opens it when collapsed and leaves it open when open. |
| Sidebar.NavKeepsOpen | frontend/src/components/layout/Sidebar.tsx:126-168 | A nav click navigates and neither expands nor collapses the rail in either mode. |
| Sidebar.WhoChangesWhat | frontend/src/components/layout/Sidebar.tsx:46-168 | Only the toggles collapse the rail, and only nav buttons change the route. |
| Sidebar.NavigatedItemActive | frontend/src/components/layout/Sidebar.tsx:39-44 | After navigating to a nav item's path, that item is active. |
| Sidebar.AtMostOneActive | frontend/src/components/layout/Sidebar.tsx:13-44 | For any pathname at most one of the three configured items is active. |
| Sidebar.PrefixMatchIsTextual | frontend/src/components/layout/Sidebar.tsx:39-44 | "/" is active only on exactly "/". Other items match by text prefix, so "/shortlisted" activates Shortlist. |
| ProgressBar.Safe | BenchMatch-AI/frontend/src/components/ui/ProgressBar.tsx:8 | The clamped value lies in [0, 100], passes values already in range through unchanged, and maps values below or above to the nearer end. |
| ProgressBar.SafeIdempotentMonotone | BenchMatch-AI/frontend/src/components/ui/ProgressBar.tsx:8 | Clamping is idempotent and order-preserving. |
| ProgressBar.BandsOfRawValue | BenchMatch-AI/frontend/src/components/ui/ProgressBar.tsx:10-15 | Green iff value ≥ 75, yellow iff 50 ≤ value < 75, red iff value < 50, so exactly one band applies. |
| ProgressBar.RenderOfSafe | BenchMatch-AI/frontend/src/components/ui/ProgressBar.tsx:8-25 | Width, caption and colour depend only on the clamped value, never on the raw input. |
| ProgressBar.ColorMonotone | BenchMatch-AI/frontend/src/components/ui/ProgressBar.tsx:10-15 | A higher value never gets a worse colour. |

## Left out

- Database loading, the Azure SQL engine, the Nomic embedding call and the ChromaDB client are I/O. They are replaced by input sequences and the `embed` and `retrieve` parameters.
- Logging, including the `idx % 10` progress messages and the debug bench distribution, only produces output.
- Scores are exact reals, not binary floats.
- `round(final_score, 4)`: the code rounds the final score to four decimals and sorts on the rounded value, so candidates whose exact scores differ by less than the rounding step can tie and keep retrieval order. The model ranks on exact scores. The embedding score and boost factor are also stored rounded; those values are not modelled.
- `allow_partial` is accepted but ignored by the code, which hard-codes "inactive" as the only eligible status. The model has no partial tier.
- A NULL bench status compares unequal to "inactive", like any other non-"inactive" value. The model takes the status as a string.
- A NULL `skill_name` would make `.lower()` raise in the search. The model takes skill names as strings.
- Corpus.SkillEntries: a NULL `skill_name` would render as `None (N yrs)` in the corpus. A NULL or fractional `years_experience` makes pandas hold the column as floats, so entries read `3.0 yrs` or `nan yrs`. The model takes names as strings and years as whole numbers, so it renders `N yrs` only.
- Corpus.CertNames: a NULL `certificate_name` makes `", ".join` raise a TypeError, which aborts the whole aggregation. The model takes names as strings and has no such failure.
- Corpus.Summaries: a NULL `experience_summary` makes `" ".join` raise a TypeError, which aborts the whole aggregation. The model takes summaries as strings and has no such failure.
- `Text.Lower` lower-cases ASCII letters only. Python's `str.lower()` also maps non-ASCII letters.
- The weighted fit score, the certification breakdown and the generated rationale are not implemented in `backend/data_ingestion.py`. `backend/main.py` and the test scripts are not part of this model.
- Role matching uses the whole query. One might expect the requirement's role title to be compared with the employee role, but the code compares the whole lower-cased query text (`backend/data_ingestion.py:431-432`). The model follows the code.
- JavaScript number edge cases are left out: NaN from `Number(text)`, `Math.max()` of an empty list (−∞; `None` here), and an out-of-range median index (`undefined`; `None` here). The clamp and bands are modelled on reals without NaN.
- The `setTimeout` delay and the `submittedAt` timestamp are left out. Router navigation is reduced to the `navigated` field, and the timer to a `TimerFires` event.
- `RequirementForm.HandleChange` accepts only values of the field's type. In the page every caller passes such a value; the `as any` cast would allow others.
- Rendering-only parts are not modelled: the summary tiles, the experience bar width and the project list of the fit report, the CSS classes, icons, `KpiCard`, the charts, `Table`, `Modal`, `Button`, `Badge`, `TopBar` and `AppLayout`.
