# Synaptheum research assistant — verified model of its decision rules

Synaptheum is a multi-agent research assistant. A coordinator agent guards the
user's request with a keyword guardrail, then hands the work to specialised
agents:

- a library agent searches the university library with a combined Boolean query;
- a paper agent indexes the found papers, screens them and groups them into themes;
- a document agent logs in to Google Drive and creates the research document;
- a writing agent writes each section with citations, formats the document for a
  target journal and reports word count, citation count and conformance.

The browser work is done by a computer-use loop. Each turn, the planning model's
output is inspected. The first computer call in it is executed on the page and a
fresh screenshot is sent back, until the model answers without a call.

This project models the deterministic rules inside those agents and proves what
they promise:

- `Security`: the input guardrail and the credential masking.
- `ComputerUse`: the event log a computer action produces and the turn decision.
  - The loop is modelled as a state machine over a page's event log and a given
    finite sequence of model responses.
  - It also holds the browser-session helpers, recorded as tasks on the session,
    and the document id and URL rules.
- `Guidelines`: the journal-guideline selection.
- `RunContext`: the shared run context.
- `Library`, `Paper`, `Document` and `Writing`: the agents' tools.
- `Text`: the Python string operations they rely on (`lower`, `in`, `replace`,
  `split`, `join`, the `isalnum` filter), written out over `seq<char>`.
- `Wrappers`: `Option` and `Result`.

Where the source changes state step by step, the model keeps that form:

- the page (`ComputerUse.Surface`), the browser session
  (`ComputerUse.BrowserSession`) and the run context (`RunContext.Context`) are
  classes whose methods update their fields;
- every loop of the source is a `while`/`for` loop, proved against a
  specification function about which the properties are proved as lemmas.

## Model

| member | source | states |
|---|---|---|
| Text.Lower | utils/security-final.py:31-37 | the ASCII lowering keeps the length |
| Text.LowerPointwise | utils/security-final.py:31-37 | lower-casing acts character by character |
| Text.LowerIdempotent | agents/writing-agent-final.py:44-61 | lower-casing twice is lower-casing once, so the case-insensitive checks ignore a second lowering |
| Text.Contains | utils/security-final.py:34 | definition; properties in `Text.ContainsIff` and `Text.ContainsTransitive` |
| Text.ContainsIff | utils/security-final.py:31-37 | the left-to-right `t in s` search succeeds exactly when `t` occurs at some index of `s` |
| Text.ContainsTransitive | utils/security-final.py:34 | a substring of a substring of the text is a substring of the text |
| Text.ContainsAnyIff | utils/security-final.py:31 | `any(term in s for term in terms)` holds exactly when some term of the list occurs |
| Text.Replace | utils/security-final.py:70 | definition; properties in `Text.ReplaceAbsent`, `Text.ReplaceKeepsLength` and `Text.ReplaceCharAt` |
| Text.ReplaceAbsent | utils/security-final.py:70 | `replace` leaves a text without the pattern unchanged |
| Text.ReplaceKeepsLength | utils/security-final.py:69-70 | replacing by a string of the pattern's length keeps the length |
| Text.ReplaceCharAt | utils/computer-use-final.py:234 | replacing one character by another rewrites exactly the positions holding it |
| Text.Join | agents/library-agent-final.py:32 | definition; properties in `Text.JoinSnoc` and `Text.SplitJoin` |
| Text.JoinSnoc | agents/library-agent-final.py:32 | joining one more part appends the separator and that part |
| Text.DropSpaces | agents/writing-agent-final.py:205 | dropping leading whitespace leaves a text that is empty or starts with a non-space; what is dropped is stated in `Text.DropSpacesDropsOnlySpaces` |
| Text.DropSpacesDropsOnlySpaces | agents/writing-agent-final.py:205 | the kept text is a suffix of the input, and every character dropped before it is whitespace |
| Text.TakeWord | agents/writing-agent-final.py:205 | the word taken is the longest whitespace-free prefix |
| Text.Split | agents/writing-agent-final.py:205 | definition; properties in `Text.SplitYieldsWords`, `Text.SplitSkipsSpace` and `Text.SplitJoin` |
| Text.SplitYieldsWords | agents/writing-agent-final.py:205 | every piece of `split()` is non-empty and free of whitespace |
| Text.SplitSkipsSpace | agents/writing-agent-final.py:205 | leading whitespace does not change `split()` |
| Text.SplitCons | agents/writing-agent-final.py:205 | a word followed by whitespace or the end is the first piece of `split()`, and the rest is split on its own |
| Text.TakeWordPrefix | agents/writing-agent-final.py:205 | a word followed by whitespace or the end is taken whole |
| Text.SplitJoin | agents/writing-agent-final.py:205 | splitting words joined by single spaces gives the words back |
| Text.WordCountJoin | agents/writing-agent-final.py:205 | `len(split())` of words joined by spaces is the number of words |
| Text.KeepAlnum | utils/computer-use-final.py:233 | definition; properties in `Text.KeepAlnumChar`, `Text.KeepAlnumConcat` and `Text.KeepAlnumProperties` |
| Text.KeepAlnumChar | utils/computer-use-final.py:233 | a single character is kept exactly when it is alphanumeric |
| Text.KeepAlnumConcat | utils/computer-use-final.py:233 | the filter of a concatenation is the concatenation of the filters; with `Text.KeepAlnumChar` this says every alphanumeric character is kept, in order, and no other |
| Text.KeepAlnumProperties | utils/computer-use-final.py:233 | the `isalnum` filter keeps only alphanumerics, never lengthens and keeps an all-alphanumeric text whole |
| Security.Credentials.Values | utils/security-final.py:6-11 | `model_dump()` yields the four credential values, in field order |
| Security.SecurityGuardrail | utils/security-final.py:20-59 | acceptable exactly when the lower-cased text has no sensitive term, no credential-change phrase and no off-topic term; the tripwire is the negation; the reason follows the priority sensitive, credential modification, off-topic, default |
| Security.CredentialChangeIsSensitive | utils/security-final.py:25-34 | every credential-change request already mentions "password" or "credential", both sensitive terms |
| Security.CredentialReasonUnreachable | utils/security-final.py:43-49 | the credential-modification reason is never returned |
| Security.AcceptabilityWithoutCredentialCheck | utils/security-final.py:31-40 | acceptability is decided by the sensitive and off-topic terms alone |
| Security.DefaultReasonIffAcceptable | utils/security-final.py:40-49 | the default reason is given exactly to accepted inputs |
| Security.GuardrailIgnoresCase | utils/security-final.py:22-37 | the verdict ignores case, and a message list is judged by its string rendering |
| Security.MaskValue | utils/security-final.py:69 | the mask has the value's length, keeps its first two and last two characters and has only `*` between |
| Security.MaskOne | utils/security-final.py:67-70 | definition; properties in `Security.ReplaceHidesNonOverlapping` and `Security.MaskLeavesOverlappingValue` |
| Security.MaskAll | utils/security-final.py:64-72 | definition; properties in `Security.MaskCredentials`, `Security.MaskAllShortValues`, `Security.MaskAllAbsent` and `Security.MaskAllKeepsLength` |
| Security.MaskCredentials | utils/security-final.py:62-72 | the loop masks the four values in field order, skipping empty ones and those of length at most 4 |
| Security.MaskAllShortValues | utils/security-final.py:68 | values of length at most 4, the empty one included, leave the text unchanged |
| Security.MaskAllAbsent | utils/security-final.py:64-72 | a text containing none of the values comes back unchanged |
| Security.MaskAllKeepsLength | utils/security-final.py:64-72 | masking never changes the length of the text |
| Security.MaskLeavesOverlappingValue | utils/security-final.py:67-70 | masking "abXYZab" in "abXYZabXYZab" gives "ab***abXYZab", which still contains the value |
| Security.MaskOneCovering | utils/security-final.py:67-70 | the intended mask of one value: every character strictly inside an occurrence, past its first two and before its last two, becomes `*`; the length is kept |
| Security.MaskAllCovering | utils/security-final.py:64-72 | the intended masking of the values in turn; the length is kept |
| Security.StarredKeepsAbsence | utils/security-final.py:67-70 | turning characters into `*` cannot create an occurrence of a value without `*` |
| Security.MaskOneCoveringHides | utils/security-final.py:67-70 | the intended mask only stars characters and leaves no occurrence of a value longer than 4 without `*` |
| Security.MaskAllCoveringHides | utils/security-final.py:64-72 | after the intended masking, no value longer than 4 and without `*` occurs in the text |
| Security.ReplaceIsCovering | utils/security-final.py:70 | when the occurrences of the value do not overlap, `replace` by the mask is the intended mask |
| Security.ReplaceHidesNonOverlapping | utils/security-final.py:67-70 | when the occurrences do not overlap, the mask written in the source leaves no occurrence of the value |
| ComputerUse.Surface.TakeScreenshot | utils/computer-use-final.py:24-28 | a screenshot is logged and identified by its position in the log |
| ComputerUse.Dispatch | utils/computer-use-final.py:33-46 | definition; properties in `ComputerUse.DispatchShapes` and `ComputerUse.KeyPressesInOrder` |
| ComputerUse.TurnEvents | utils/computer-use-final.py:33-51 | definition; properties in `ComputerUse.TurnEndsWithScreenshot` and `ComputerUse.TurnEventsCloseWithScreenshot` |
| ComputerUse.ExecuteComputerAction | utils/computer-use-final.py:31-51 | the page receives the action's inputs by its type, then the idle wait, then the screenshot whose position is returned |
| ComputerUse.TurnEndsWithScreenshot | utils/computer-use-final.py:49-51 | every executed action ends with a screenshot |
| ComputerUse.TurnEventsCloseWithScreenshot | utils/computer-use-final.py:49-51 | the real page closes every action with a screenshot |
| ComputerUse.KeyPressesInOrder | utils/computer-use-final.py:39-41 | a key-press action presses its keys one by one, in list order |
| ComputerUse.DispatchShapes | utils/computer-use-final.py:33-49 | key presses in order (none when the list is missing); a scroll moves before scrolling, with missing deltas read as 0; an unknown type sends nothing, though the idle wait and the screenshot still follow |
| ComputerUse.Filter | utils/computer-use-final.py:84-88 | the comprehension keeps only items of the requested type |
| ComputerUse.FilterFirst | utils/computer-use-final.py:84-88 | the comprehension is empty exactly when nothing matches, and otherwise starts with the first match |
| ComputerUse.DecideTurn | utils/computer-use-final.py:84-97 | definition; properties in `ComputerUse.TurnDecision` |
| ComputerUse.TurnDecision | utils/computer-use-final.py:84-97 | a turn acts exactly when the output holds a computer call, and then on the first one; otherwise it finishes with the first message's text or the default message |
| ComputerUse.RunFrom | utils/computer-use-final.py:82-124 | definition; properties in `ComputerUse.RunFromActs`, `ComputerUse.RunFromStops` and `ComputerUse.RunExtends` |
| ComputerUse.ActAndContinue | utils/computer-use-final.py:94-124 | definition; properties in `ComputerUse.RunFromActs` and `ComputerUse.ActingTurnRecord` |
| ComputerUse.RunLoop | utils/computer-use-final.py:54-124 | definition; properties in `ComputerUse.ComputerUseLoop`, `ComputerUse.FinishWithoutActing`, `ComputerUse.FollowUpCarriesIds`, `ComputerUse.FrameIsFreshScreenshot` and `ComputerUse.FramesIncrease` |
| ComputerUse.RunFromActs | utils/computer-use-final.py:94-124 | an acting turn executes its call, sends the call id with the new screenshot chained to the current response, and goes on with the next response |
| ComputerUse.RunFromStops | utils/computer-use-final.py:86-92 | a finishing turn, or the end of the responses, ends the run where it is |
| ComputerUse.ActingTurnRecord | utils/computer-use-final.py:99-124 | an acting turn leaves its follow-up request right after the earlier requests, and its screenshot at the position that request names |
| ComputerUse.LoopStep | utils/computer-use-final.py:94-124 | one acting turn of the real page, in the loop's terms |
| ComputerUse.ComputerUseLoop | utils/computer-use-final.py:54-124 | the loop leaves the page log, the requests sent and the outcome its specification `RunLoop` gives |
| ComputerUse.OnlyCompletedStatus | utils/computer-use-final.py:86-92 | the loop never returns a status other than "completed" |
| ComputerUse.RunExtends | utils/computer-use-final.py:82-124 | a run only appends to the log and the requests, and every request it adds is a follow-up |
| ComputerUse.FinishWithoutActing | utils/computer-use-final.py:54-92 | when the first response has no computer call, nothing is dispatched, the goal is the only request and the loop finishes at once |
| ComputerUse.FollowUpCarriesIds | utils/computer-use-final.py:104-116 | every follow-up request carries the id of the response it answers and the id of the call that turn executed |
| ComputerUse.FrameIsFreshScreenshot | utils/computer-use-final.py:101-121 | every frame sent back points at a screenshot the run itself took |
| ComputerUse.FramesIncrease | utils/computer-use-final.py:101-121 | the frames sent back follow the order of the log |
| ComputerUse.ClickThenFinish | utils/computer-use-final.py:54-124 | a click followed by a final message gives the expected log, requests and returned text |
| ComputerUse.BrowserSession.Run | utils/computer-use-final.py:127-299 | each helper run is recorded on the session, in order |
| ComputerUse.GoogleDriveLogin | utils/computer-use-final.py:183-199 | runs the login with the given username and password and reports "logged_in" |
| ComputerUse.UcalgaryLibrarySearch | utils/computer-use-final.py:127-180 | runs the search with the login and the query, and reports the three fixed results |
| ComputerUse.WriteGoogleDoc | utils/computer-use-final.py:239-259 | runs the write of the content into the document and reports "content_written" |
| ComputerUse.FormatAccordingToJournalStyle | utils/computer-use-final.py:262-299 | runs the formatting with the guidelines and reports "formatting_applied" |
| ComputerUse.DocId | utils/computer-use-final.py:233 | the id is "doc_" followed by the first ten alphanumeric characters of the title |
| ComputerUse.DocUrl | utils/computer-use-final.py:234 | the URL is the mock prefix followed by the title with every space turned into an underscore |
| ComputerUse.CreateGoogleDoc | utils/computer-use-final.py:202-236 | runs the creation with the given sections, or the nine standard headings when none are given, and returns the derived id and URL with the title |
| ComputerUse.ShortAlnumTitleId | utils/computer-use-final.py:233 | an all-alphanumeric title of at most ten characters is its own id suffix |
| Guidelines.GetJournalGuidelines | agents/writing-agent-final.py:38-94 | definition; properties in `Guidelines.GuidelineSelection`, `Guidelines.GuidelinesIgnoreCase` and `Guidelines.SectionRequirementKeys` |
| Guidelines.GuidelineSelection | agents/writing-agent-final.py:38-94 | "applied" gives APA/6000 even when "review" is also there; otherwise "review" gives Chicago/8000; anything else APA/7000 |
| Guidelines.GuidelinesIgnoreCase | agents/writing-agent-final.py:44-61 | the selection depends only on the lower-cased name |
| Guidelines.SectionRequirementKeys | agents/writing-agent-final.py:48-88 | every profile has requirements for abstract, introduction, methods, discussion and conclusion; only the review profile has none for results |
| RunContext.Context.constructor | main-script.py:113-118 | the context starts with the credentials, session, question and journal, not logged in, with no index and no document |
| Library.Parenthesized | agents/library-agent-final.py:32 | a query is wrapped in one pair of parentheses |
| Library.CombineQueries | agents/library-agent-final.py:32 | definition; properties in `Library.CombineFewQueries`, `Library.CombineQueriesSnoc` and `Library.CombineQueriesLength` |
| Library.CombineFewQueries | agents/library-agent-final.py:32 | no query gives the empty string; one query is just parenthesised |
| Library.CombineQueriesSnoc | agents/library-agent-final.py:32 | one more query appends " AND " and that query in parentheses |
| Library.CombineQueriesLength | agents/library-agent-final.py:32 | the combined query is as long as the queries, plus two parentheses each and one " AND " between neighbours |
| Library.SearchUcalgaryLibrary | agents/library-agent-final.py:26-46 | searches with the combined query and the library login; the query field is the combined query, the results pass through, and `total_found` is their count |
| Paper.CreatePaperIndex | agents/paper-agent-final.py:27-32 | the store id is recorded in the context and reported; nothing else changes |
| Paper.Citation | agents/paper-agent-final.py:55 | definition; properties in `Paper.CitationShape` |
| Paper.Evaluate | agents/paper-agent-final.py:47-57 | definition; properties in `Paper.EvaluateAll` |
| Paper.CitationShape | agents/paper-agent-final.py:55 | the citation is "authors (year). title.", with year 2023 when the hit has none |
| Paper.Bucket | agents/paper-agent-final.py:61-68 | definition; properties in `Paper.BucketSnoc`, `Paper.BucketLength`, `Paper.BucketPositions` and `Paper.BucketCountSnoc` |
| Paper.Themes | agents/paper-agent-final.py:61-68 | definition; properties in `Paper.ThemesSnoc`, `Paper.GroupByTheme` and `Paper.ThemesPartition` |
| Paper.BucketSnoc | agents/paper-agent-final.py:62-68 | one more title joins the bucket of its position modulo 3 |
| Paper.ThemesSnoc | agents/paper-agent-final.py:62-68 | one more title joins the theme of its position and leaves the other two as they were |
| Paper.EvaluatePapers | agents/paper-agent-final.py:35-74 | fails exactly when the index id is missing or empty; otherwise one evaluation per hit in order, the two fixed rejected titles, and the titles spread over the three themes by position |
| Paper.EvaluateAll | agents/paper-agent-final.py:45-58 | one evaluation per hit, in order, with title, authors and PDF link copied |
| Paper.GroupByTheme | agents/paper-agent-final.py:61-68 | the i-th title joins Methodology, Theoretical or Application as i mod 3 is 0, 1 or 2 |
| Paper.BucketLength | agents/paper-agent-final.py:62-68 | theme r has one title per position with remainder r modulo 3 |
| Paper.BucketPositions | agents/paper-agent-final.py:62-68 | theme r holds exactly the titles at positions 3m + r, in order |
| Paper.BucketCountSnoc | agents/paper-agent-final.py:62-68 | one more title adds one occurrence to the bucket of its position only |
| Paper.ThemesPartition | agents/paper-agent-final.py:61-68 | the three themes partition the titles: each title lands in exactly one theme, as often as it occurs |
| Document.LoginToGoogle | agents/document-agent-final.py:15-28 | runs the login with the Google credentials and sets the login flag; nothing else in the context changes |
| Document.CreationTasks | agents/document-agent-final.py:33-43 | the login is run only when the flag is not set, and the document is created last |
| Document.CreateResearchDocument | agents/document-agent-final.py:31-53 | logs in only when not logged in, creates the document, records it in the context and returns the given title and sections with the derived id and URL |
| Writing.CitationsOf | agents/writing-agent-final.py:104-116 | the citations of the papers, one per paper, in order |
| Writing.CitedPapers | agents/writing-agent-final.py:102-122 | definition; properties in `Writing.WriteDocumentSection` and `Writing.CitationsComeFromPapers` |
| Writing.WriteDocumentSection | agents/writing-agent-final.py:97-128 | the title is kept verbatim; the citations are those of the papers the section kind cites (first; first two; second if there are two; all; none) |
| Writing.CitationsComeFromPapers | agents/writing-agent-final.py:102-122 | a section cites a contiguous run of the papers, each at most once and in order, so never more than there are papers |
| Writing.SectionKindIgnoresCase | agents/writing-agent-final.py:102-117 | the section kind is recognised whatever the case of the title |
| Writing.WriteSections | agents/writing-agent-final.py:168-182 | one written section per heading |
| Writing.WriteAllSections | agents/writing-agent-final.py:168-182 | the section loop writes every heading in turn, in order |
| Writing.CitationTotalBound | agents/writing-agent-final.py:218 | sections citing at most n papers each have at most n citations per section between them |
| Writing.CitationCountBound | agents/writing-agent-final.py:218 | the citation count is at most the number of sections times the number of papers |
| Writing.SectionWritesInOrder | agents/writing-agent-final.py:185-190 | one write per section, in order, with its heading and content |
| Writing.FormatForJournal | agents/writing-agent-final.py:131-145 | looks the journal up, runs the formatting with its guidelines and returns them |
| Writing.TypeSections | agents/writing-agent-final.py:185-190 | the typing loop writes every section into the document, in order |
| Writing.WriteReferences | agents/writing-agent-final.py:196-202 | the reference list, one "- citation" line per paper, is written to the document |
| Writing.LookUpJournal | agents/writing-agent-final.py:160-165 | guidelines are looked up exactly when a target journal is named, and then their citation style replaces the requested one |
| Writing.WriteCompleteDocument | agents/writing-agent-final.py:148-223 | fails, running nothing, when not logged in; otherwise returns the complete document and runs the section writes, the journal formatting when a journal is named, and the reference list |
| Writing.ReportDocument | agents/writing-agent-final.py:204-223 | the report's word count and citation count are those of the written sections, and it conforms unless the journal's limit is exceeded |
| Writing.CompleteDocument | agents/writing-agent-final.py:148-223 | definition; properties in `Writing.WriteCompleteDocument`, `Writing.CitationStyleFromJournal` and `Writing.ConformanceIff` |
| Writing.TotalWords | agents/writing-agent-final.py:205 | definition; properties in `Writing.ReportDocument` |
| Writing.TotalCitations | agents/writing-agent-final.py:218 | definition; properties in `Writing.CitationTotalBound`, `Writing.CitationCountBound` and `Writing.ReportDocument` |
| Writing.ReferenceList | agents/writing-agent-final.py:197 | definition; properties in `Writing.WriteReferences` and `Writing.WritingOrder` |
| Writing.CitationStyleFromJournal | agents/writing-agent-final.py:161-165 | with a target journal the document has the journal's guidelines and citation style (APA or Chicago); without one it keeps the requested style and has no guidelines; the source's defaults are `Writing.DefaultCitationStyle` and `Writing.DefaultTargetJournal`, see `Writing.DefaultArgumentsGiveApa` |
| Writing.DefaultArgumentsGiveApa | agents/writing-agent-final.py:148-210 | with the defaults `DefaultCitationStyle` ("APA") and `DefaultTargetJournal` (none), the document is APA, has no journal guidelines and conforms |
| Writing.ConformanceIff | agents/writing-agent-final.py:208-210 | the document fails the guidelines exactly when a journal is named and the word count exceeds its limit |
| Writing.WritingOrder | agents/writing-agent-final.py:184-202 | the sections are written in order, then the formatting when a journal is named, then the reference list last; the formatting is the only task that is not a write |

## Left out

- `lower()`, `isalnum()`: only ASCII letters and digits are case-folded or counted as alphanumeric. Python's Unicode tables are not modelled. `isspace()` uses Python's full set of whitespace characters.
  - Python's `lower()` can lengthen a text: "İ" (U+0130) lowers to two characters.
  - It can also map non-ASCII letters onto ASCII ones: the Kelvin sign U+212A lowers to "k", so "HAC\u212A" lowers to "hack".
  - On such input the guardrail verdict and the guideline selection of the model can therefore differ from the source's.
- The OpenAI and Playwright calls are modelled abstractly:
  - the planning model's answers are a given finite sequence of responses;
  - running out of responses ends the run with `OracleExhausted`, which stands for a loop that would wait on a model that no longer answers;
  - mouse, keyboard, sleep, load-state waits and screenshots are events appended to the page's log;
  - a screenshot is identified by its position in the log; the image bytes and their base64 encoding are not modelled.
- ExecuteComputerAction, ComputerUseLoop: every Playwright and OpenAI call is taken to succeed.
  - The `TimeoutError` of the 5000 ms `wait_for_load_state` (utils/computer-use-final.py:49) is not modelled; in the source it escapes the loop.
  - Neither is a failure of `responses.create` (utils/computer-use-final.py:60 and 104), which escapes the loop as well.
  - The action is read as a dictionary, as `action.get` does at utils/computer-use-final.py:33-44. Line 100 reads `action.type` as an attribute, which a plain dictionary does not have; the model does not capture that mismatch.
- `Security.MaskCredentials` keeps the behaviour of the source, which can leave an overlapping value in the text (see "## Findings"). The intended masking is `Security.MaskAllCovering`; it is not used by the rest of the model, since no other member masks text.
- The request's fixed tool description, model name and truncation setting are not modelled. A request records only the goal or the chained response id, the call id and the frame.
- GoogleDriveLogin, UcalgaryLibrarySearch, WriteGoogleDoc, FormatAccordingToJournalStyle, CreateGoogleDoc: each is modelled as if its computer-use loop (utils/computer-use-final.py:145, 197, 228, 257, 297) returned normally.
  - In the source, a loop whose first message has an empty content list raises `IndexError` (utils/computer-use-final.py:90); the model's loop ends with `MessageWithoutContent` there. A loop can also run forever.
  - Either way the helper raises or hangs instead of returning its fixed status, and its callers (`Document.LoginToGoogle`, `Document.CreateResearchDocument`, `Library.SearchUcalgaryLibrary`, `Writing.FormatForJournal`, `Writing.WriteCompleteDocument`) never reach the state their contracts state. For instance, `login_to_google` then never sets the login flag (agents/document-agent-final.py:27).
- The goal prose of the browser helpers is not modelled. Each helper is recorded as a `BrowserTask` holding the values it puts into the goal. The helper's own computer-use run is the loop modelled by `ComputerUse.ComputerUseLoop`, and its outcome is not consumed by the helpers when it returns normally (see the line above).
- The `print` of the executed action's type and the console warning of an over-long document are not modelled.
- `utils/vector-store-final.py` is not part of this model. The store id that `create_paper_index` records and the hits `evaluate_papers` searches are parameters.
- `agents/journal-agent-final.py` is not part of this model: it returns constant mock data built from floats.
- `relevance_score` and `quality_score` of a paper evaluation are floats and are not modelled.
- The async/await structure, the agent and tool construction of every `create_*_agent` and of `main-script.py`, and its console input are not modelled.
- `write_document_section` takes a citation style and journal guidelines that it never uses. The model omits both arguments.
- The `section_requirements` local of `write_complete_document` is computed and never used. The model omits it.
- `ScreenedPapers`, `DocumentInfo` and the results are records, not dictionaries. The `.get("selected_papers", [])` default of a missing key is not modelled.
- A hit's `year` is its rendered text, absent when the hit has none.
- An action of an unknown type sends no input to the page, as the code does.
- A first message with an empty content list ends the loop with `MessageWithoutContent`, which stands for the `IndexError` the code raises.
- `ComputerUse.RunFrom`'s lemmas are stated for any page whose executed actions end with a screenshot. `TurnEvents`, the real page, is one such page.

## Findings

| source | as written | input that shows it | evidently intended | confidence | as-written member | corrected member |
|---|---|---|---|---|---|---|
| utils/security-final.py:67-70 | each value is masked with `str.replace`, which rewrites its occurrences left to right without overlap | the value "abXYZab" in the text "abXYZabXYZab" gives "ab***abXYZab", which still contains the value | no credential value longer than 4 characters, and free of `*`, survives in the masked text | not executed | Security.MaskLeavesOverlappingValue | Security.MaskAllCovering (proved by Security.MaskAllCoveringHides; equal to the source's mask when occurrences do not overlap, by Security.ReplaceIsCovering) |
