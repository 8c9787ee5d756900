/** The writing agent: placeholder content and citations for each section,
    formatting for a target journal, and the assembly of the complete
    document with its word count, citation count and conformance to the
    journal's word limit. */
module Writing {
  import opened Wrappers
  import opened Text
  import opened Guidelines
  import opened ComputerUse
  import opened RunContext
  import opened Paper
  import opened Document

  datatype DocumentSection = DocumentSection(title: string, content: string, citations: seq<string>)

  datatype WrittenDocument = WrittenDocument(
    title: string,
    url: string,
    sections: seq<DocumentSection>,
    totalWordCount: nat,
    citationCount: nat,
    citationStyle: string,
    targetJournal: Option<string>,
    conformsToJournalGuidelines: bool,
    journalGuidelines: Option<JournalStyleGuidelines>)

  const NotLoggedInError := "Not logged into Google. Login first."

  /** The defaults of `write_complete_document`'s `citation_style` and
      `target_journal` parameters. */
  const DefaultCitationStyle := "APA"
  const DefaultTargetJournal: Option<string> := None

  const IntroductionContent :=
    "This introduction provides context for the research question and outlines the paper structure."
  const LiteratureReviewContent :=
    "This literature review synthesizes existing research on the topic, identifying key themes and gaps."
  const MethodologyContent :=
    "This methodology section details the research approach and data collection methods."
  const ResultsContent := "This section presents the key findings from the analysis."
  const DiscussionContent :=
    "This discussion interprets the findings in light of existing literature and identifies implications."
  const ConclusionContent :=
    "This conclusion summarizes key points and suggests directions for future research."

  function Min(a: nat, b: nat): nat
  {
    if a < b then a else b
  }

  /** The citations of the papers, in order. */
  function CitationsOf(papers: seq<PaperEvaluation>): (cs: seq<string>)
    ensures |cs| == |papers|
    ensures forall i :: 0 <= i < |papers| ==> cs[i] == papers[i].citation
  {
    seq(|papers|, i requires 0 <= i < |papers| => papers[i].citation)
  }

  /** The papers a section cites, by its lower-cased title: the first one for
      the introduction, the first two for the literature review, the second
      one for the methodology, all of them for the discussion, none
      otherwise. */
  function CitedPapers(section: string, papers: seq<PaperEvaluation>): seq<PaperEvaluation>
  {
    var name := Lower(section);
    if name == "introduction" then papers[..Min(1, |papers|)]
    else if name == "literature review" then papers[..Min(2, |papers|)]
    else if name == "methodology" then papers[Min(1, |papers|)..Min(2, |papers|)]
    else if name == "discussion" then papers
    else []
  }

  /** `write_document_section`: the placeholder content for the section kind
      and the citations of the papers that kind cites; the title is kept as
      given. */
  function WriteDocumentSection(section: string, papers: seq<PaperEvaluation>): (s: DocumentSection)
    ensures s.title == section
    ensures s.citations == CitationsOf(CitedPapers(section, papers))
  {
    var name := Lower(section);
    if name == "introduction" then
      DocumentSection(section, IntroductionContent, if papers != [] then [papers[0].citation] else [])
    else if name == "literature review" then
      DocumentSection(section, LiteratureReviewContent, if papers != [] then CitationsOf(papers[..Min(2, |papers|)]) else [])
    else if name == "methodology" then
      DocumentSection(section, MethodologyContent, if |papers| > 1 then [papers[1].citation] else [])
    else if name == "results" || name == "findings" then
      DocumentSection(section, ResultsContent, [])
    else if name == "discussion" then
      DocumentSection(section, DiscussionContent, if papers != [] then CitationsOf(papers) else [])
    else if name == "conclusion" then
      DocumentSection(section, ConclusionContent, [])
    else
      DocumentSection(section, "Content for " + section + " section.", [])
  }

  /** A section cites only papers it is given, each at most once and in the
      papers' order, so never more than there are papers. */
  lemma CitationsComeFromPapers(section: string, papers: seq<PaperEvaluation>)
    ensures var cs := WriteDocumentSection(section, papers).citations;
      && |cs| <= |papers|
      && exists lo, hi :: 0 <= lo <= hi <= |papers| && cs == CitationsOf(papers[lo..hi])
  {
    var name := Lower(section);
    var cs := WriteDocumentSection(section, papers).citations;
    if name == "introduction" {
      assert cs == CitationsOf(papers[0..Min(1, |papers|)]);
    } else if name == "literature review" {
      assert cs == CitationsOf(papers[0..Min(2, |papers|)]);
    } else if name == "methodology" {
      assert cs == CitationsOf(papers[Min(1, |papers|)..Min(2, |papers|)]);
    } else if name == "discussion" {
      assert cs == CitationsOf(papers[0..|papers|]);
    } else {
      assert cs == CitationsOf(papers[0..0]);
    }
  }

  /** The section kind is recognised whatever the case of the title. */
  lemma SectionKindIgnoresCase(section: string, papers: seq<PaperEvaluation>)
    ensures WriteDocumentSection(Lower(section), papers).citations == WriteDocumentSection(section, papers).citations
  {
    LowerIdempotent(section);
  }

  /** The written sections: one per heading, in the headings' order. */
  function WriteSections(sections: seq<string>, papers: seq<PaperEvaluation>): (ws: seq<DocumentSection>)
    ensures |ws| == |sections|
  {
    seq(|sections|, i requires 0 <= i < |sections| => WriteDocumentSection(sections[i], papers))
  }

  /** The number of whitespace-separated words of the sections' contents. */
  function TotalWords(ws: seq<DocumentSection>): nat
    decreases |ws|
  {
    if ws == [] then 0 else TotalWords(ws[..|ws| - 1]) + WordCount(ws[|ws| - 1].content)
  }

  /** The number of citations of the sections. */
  function TotalCitations(ws: seq<DocumentSection>): nat
    decreases |ws|
  {
    if ws == [] then 0 else TotalCitations(ws[..|ws| - 1]) + |ws[|ws| - 1].citations|
  }

  /** Sections citing at most `n` papers each have at most `n` citations per
      section between them. */
  lemma {:induction false} CitationTotalBound(ws: seq<DocumentSection>, n: nat)
    requires forall i :: 0 <= i < |ws| ==> |ws[i].citations| <= n
    ensures TotalCitations(ws) <= |ws| * n
    decreases |ws|
  {
    if ws != [] {
      CitationTotalBound(ws[..|ws| - 1], n);
      Distribute(|ws| - 1, n);
    }
  }

  /** No section adds more citations than there are papers. */
  lemma CitationCountBound(sections: seq<string>, papers: seq<PaperEvaluation>)
    ensures TotalCitations(WriteSections(sections, papers)) <= |sections| * |papers|
  {
    var ws := WriteSections(sections, papers);
    forall i | 0 <= i < |ws| ensures |ws[i].citations| <= |papers| {
      CitationsComeFromPapers(sections[i], papers);
    }
    CitationTotalBound(ws, |papers|);
  }

  lemma Distribute(n: nat, p: nat)
    ensures (n + 1) * p == n * p + p
  {
  }

  /** The guidelines of the target journal, when one is named. */
  function JournalGuidelinesFor(targetJournal: Option<string>): Option<JournalStyleGuidelines>
  {
    if Truthy(targetJournal) then Some(GetJournalGuidelines(targetJournal.value)) else None
  }

  /** What is typed into the document for one section. */
  function SectionText(s: DocumentSection): string
  {
    "# " + s.title + "\n\n" + s.content + "\n\n"
  }

  /** The reference list: one "- citation" line per paper. */
  function ReferenceList(papers: seq<PaperEvaluation>): string
  {
    "# References\n\n" + Join("\n", seq(|papers|, i requires 0 <= i < |papers| => "- " + papers[i].citation))
  }

  /** The writes of the sections, one after another. */
  function SectionWrites(url: string, ws: seq<DocumentSection>): seq<BrowserTask>
    decreases |ws|
  {
    if ws == [] then [] else SectionWrites(url, ws[..|ws| - 1]) + [WriteDoc(url, SectionText(ws[|ws| - 1]))]
  }

  lemma {:induction false} SectionWritesInOrder(url: string, ws: seq<DocumentSection>)
    ensures |SectionWrites(url, ws)| == |ws|
    ensures forall i :: 0 <= i < |ws| ==> SectionWrites(url, ws)[i] == WriteDoc(url, SectionText(ws[i]))
    decreases |ws|
  {
    if ws != [] {
      SectionWritesInOrder(url, ws[..|ws| - 1]);
    }
  }

  /** The browser tasks of writing a complete document: every section in
      order, then the formatting with the journal's guidelines when a journal
      is named, then the reference list. */
  function WritingTasks(url: string, ws: seq<DocumentSection>, papers: seq<PaperEvaluation>,
                        guidelines: Option<JournalStyleGuidelines>): seq<BrowserTask>
  {
    SectionWrites(url, ws)
      + (if guidelines.Some? then [FormatDoc(url, guidelines.value)] else [])
      + [WriteDoc(url, ReferenceList(papers))]
  }

  /** The document `write_complete_document` returns. */
  function CompleteDocument(info: DocumentInfo, papers: seq<PaperEvaluation>, citationStyle: string,
                            targetJournal: Option<string>): WrittenDocument
  {
    var guidelines := JournalGuidelinesFor(targetJournal);
    var ws := WriteSections(info.sections, papers);
    var total := TotalWords(ws);
    WrittenDocument(info.title, info.url, ws, total, TotalCitations(ws),
                    if guidelines.Some? then guidelines.value.citationStyle else citationStyle,
                    targetJournal,
                    !(guidelines.Some? && total > guidelines.value.maxWordCount),
                    guidelines)
  }

  /** `format_for_journal`: looks the journal up and runs the formatting with
      its guidelines, which it returns. */
  method FormatForJournal(ctx: Context, url: string, journalName: string) returns (guidelines: JournalStyleGuidelines)
    modifies ctx.session
    ensures guidelines == GetJournalGuidelines(journalName)
    ensures ctx.session.tasks == old(ctx.session.tasks) + [FormatDoc(url, guidelines)]
  {
    guidelines := GetJournalGuidelines(journalName);
    var _ := FormatAccordingToJournalStyle(ctx.session, url, guidelines);
  }

  /** The section loop of `write_complete_document`: every heading written
      in turn. */
  method WriteAllSections(sections: seq<string>, papers: seq<PaperEvaluation>) returns (written: seq<DocumentSection>)
    ensures written == WriteSections(sections, papers)
  {
    written := [];
    for i := 0 to |sections|
      invariant |written| == i
      invariant forall j :: 0 <= j < i ==> written[j] == WriteDocumentSection(sections[j], papers)
    {
      written := written + [WriteDocumentSection(sections[i], papers)];
    }
  }

  /** The typing loop of `write_complete_document`: each section's heading
      and content written into the document, in order. */
  method TypeSections(session: BrowserSession, url: string, written: seq<DocumentSection>)
    modifies session
    ensures session.tasks == old(session.tasks) + SectionWrites(url, written)
  {
    for i := 0 to |written|
      invariant session.tasks == old(session.tasks) + SectionWrites(url, written[..i])
    {
      assert written[..i + 1][..i] == written[..i];
      var _ := WriteGoogleDoc(session, url, "# " + written[i].title + "\n\n" + written[i].content + "\n\n");
    }
    assert written[..|written|] == written;
  }

  /** The reference list typed at the end of the document. */
  method WriteReferences(session: BrowserSession, url: string, papers: seq<PaperEvaluation>)
    modifies session
    ensures session.tasks == old(session.tasks) + [WriteDoc(url, ReferenceList(papers))]
  {
    var references := Join("\n", seq(|papers|, i requires 0 <= i < |papers| => "- " + papers[i].citation));
    var _ := WriteGoogleDoc(session, url, "# References\n\n" + references);
  }

  /** The journal lookup of `write_complete_document`: the guidelines of the
      target journal when one is named, and then its citation style in place
      of the requested one. */
  method LookUpJournal(targetJournal: Option<string>, citationStyle: string)
    returns (journalGuidelines: Option<JournalStyleGuidelines>, style: string)
    ensures journalGuidelines == JournalGuidelinesFor(targetJournal)
    ensures journalGuidelines.Some? <==> Truthy(targetJournal)
    ensures style == if journalGuidelines.Some? then journalGuidelines.value.citationStyle else citationStyle
  {
    journalGuidelines := None;
    style := citationStyle;
    if targetJournal.Some? && targetJournal.value != "" {
      var guidelines := GetJournalGuidelines(targetJournal.value);
      journalGuidelines := Some(guidelines);
      style := guidelines.citationStyle;
    }
  }

  /** `write_complete_document`: refuses to run before the Google login;
      otherwise writes every section, formats for the target journal when one
      is named, writes the reference list and reports the document. */
  method WriteCompleteDocument(ctx: Context, info: DocumentInfo, screened: ScreenedPapers,
                               citationStyle: string, targetJournal: Option<string>)
    returns (r: Result<WrittenDocument, string>)
    modifies ctx.session
    ensures !ctx.googleLoggedIn ==> r == Err(NotLoggedInError) && ctx.session.tasks == old(ctx.session.tasks)
    ensures ctx.googleLoggedIn ==>
      && r == Ok(CompleteDocument(info, screened.selectedPapers, citationStyle, targetJournal))
      && ctx.session.tasks == old(ctx.session.tasks) +
           WritingTasks(info.url, r.value.sections, screened.selectedPapers, r.value.journalGuidelines)
  {
    if !ctx.googleLoggedIn {
      return Err(NotLoggedInError);
    }
    var url := info.url;
    var sections := info.sections;
    var papers := screened.selectedPapers;
    var journalGuidelines, style := LookUpJournal(targetJournal, citationStyle);
    var written := WriteAllSections(sections, papers);
    TypeSections(ctx.session, url, written);
    ghost var formatting: seq<BrowserTask> := [];
    if targetJournal.Some? && targetJournal.value != "" {
      var _ := FormatForJournal(ctx, url, targetJournal.value);
      formatting := [FormatDoc(url, journalGuidelines.value)];
    }
    WriteReferences(ctx.session, url, papers);
    Regroup(old(ctx.session.tasks), SectionWrites(url, written), formatting, [WriteDoc(url, ReferenceList(papers))]);
    var document := ReportDocument(info, papers, citationStyle, targetJournal, written, journalGuidelines, style);
    r := Ok(document);
  }

  /** The report of `write_complete_document`: the word count of the written
      sections, their citation count, and whether the count stays within the
      journal's limit. */
  method ReportDocument(info: DocumentInfo, papers: seq<PaperEvaluation>, citationStyle: string,
                        targetJournal: Option<string>, written: seq<DocumentSection>,
                        journalGuidelines: Option<JournalStyleGuidelines>, style: string)
    returns (document: WrittenDocument)
    requires written == WriteSections(info.sections, papers)
    requires journalGuidelines == JournalGuidelinesFor(targetJournal)
    requires style == if journalGuidelines.Some? then journalGuidelines.value.citationStyle else citationStyle
    ensures document == CompleteDocument(info, papers, citationStyle, targetJournal)
  {
    var totalWordCount := TotalWords(written);
    var conforms := true;
    if journalGuidelines.Some? && totalWordCount > journalGuidelines.value.maxWordCount {
      conforms := false;
    }
    document := WrittenDocument(info.title, info.url, written, totalWordCount, TotalCitations(written), style,
                                targetJournal, conforms, journalGuidelines);
  }

  lemma Regroup(a: seq<BrowserTask>, b: seq<BrowserTask>, c: seq<BrowserTask>, d: seq<BrowserTask>)
    ensures a + b + c + d == a + (b + c + d)
  {
  }

  /** With a target journal the document takes the journal's citation style
      (APA or Chicago) whatever style was asked for; without one it keeps the
      requested style. */
  lemma CitationStyleFromJournal(info: DocumentInfo, papers: seq<PaperEvaluation>, citationStyle: string,
                                 targetJournal: Option<string>)
    ensures var d := CompleteDocument(info, papers, citationStyle, targetJournal);
      && (Truthy(targetJournal) ==>
            d.journalGuidelines == Some(GetJournalGuidelines(targetJournal.value))
            && d.citationStyle == GetJournalGuidelines(targetJournal.value).citationStyle
            && (d.citationStyle == "APA" || d.citationStyle == "Chicago"))
      && (!Truthy(targetJournal) ==> d.citationStyle == citationStyle && d.journalGuidelines == None)
  {
    if Truthy(targetJournal) {
      GuidelineSelection(targetJournal.value);
    }
  }

  /** Called with its defaults, `write_complete_document` writes an APA
      document without journal guidelines, which conforms. */
  lemma DefaultArgumentsGiveApa(info: DocumentInfo, papers: seq<PaperEvaluation>)
    ensures var d := CompleteDocument(info, papers, DefaultCitationStyle, DefaultTargetJournal);
      d.citationStyle == "APA" && d.targetJournal == None && d.journalGuidelines == None
      && d.conformsToJournalGuidelines
  {
  }

  /** The document fails the guidelines exactly when a journal is named and
      its word count exceeds the journal's limit; without a journal it always
      conforms. */
  lemma ConformanceIff(info: DocumentInfo, papers: seq<PaperEvaluation>, citationStyle: string,
                       targetJournal: Option<string>)
    ensures var d := CompleteDocument(info, papers, citationStyle, targetJournal);
      !d.conformsToJournalGuidelines <==>
        Truthy(targetJournal) && d.totalWordCount > GetJournalGuidelines(targetJournal.value).maxWordCount
  {
  }

  /** The reference list is written last, after every section and after the
      journal formatting; the formatting is the only task that is not a
      write. */
  lemma WritingOrder(url: string, ws: seq<DocumentSection>, papers: seq<PaperEvaluation>,
                     guidelines: Option<JournalStyleGuidelines>)
    ensures var ts := WritingTasks(url, ws, papers, guidelines);
      && |ts| == |ws| + (if guidelines.Some? then 2 else 1)
      && ts[|ts| - 1] == WriteDoc(url, ReferenceList(papers))
      && (forall i :: 0 <= i < |ws| ==> ts[i] == WriteDoc(url, SectionText(ws[i])))
      && (guidelines.Some? ==> ts[|ws|] == FormatDoc(url, guidelines.value))
      && (forall i :: 0 <= i < |ts| && ts[i].FormatDoc? ==> i == |ws| && guidelines.Some?)
  {
    SectionWritesInOrder(url, ws);
  }
}
