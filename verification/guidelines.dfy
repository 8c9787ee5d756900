/** The journal style guidelines the writing agent looks up by journal name:
    three fixed profiles chosen by case-insensitive keywords. */
module Guidelines {
  import opened Wrappers
  import opened Text

  datatype JournalStyleGuidelines = JournalStyleGuidelines(
    citationStyle: string,
    maxWordCount: int,
    sectionRequirements: map<string, string>,
    formattingNotes: string,
    referenceFormat: string,
    figureRequirements: Option<string>,
    tableRequirements: Option<string>)

  /** The profile of journals whose name mentions "applied". */
  const AppliedGuidelines := JournalStyleGuidelines(
    "APA",
    6000,
    map[
      "Abstract" := "Max 250 words, structured with Objectives, Methods, Results, Conclusions",
      "Introduction" := "Brief context, clear research gap, explicit aims",
      "Methods" := "Detailed enough for replication, ethics approval mentioned",
      "Results" := "Only results, no interpretation",
      "Discussion" := "Interpret results, acknowledge limitations, suggest applications",
      "Conclusion" := "Brief, no new information"
    ],
    "Double-spaced, 12pt Times New Roman, 1-inch margins",
    "APA 7th edition, DOI required when available",
    Some("High resolution (300 dpi), legends below figures"),
    Some("Tables should be editable (not images), titles above tables"))

  /** The profile of review journals. */
  const ReviewGuidelines := JournalStyleGuidelines(
    "Chicago",
    8000,
    map[
      "Abstract" := "Unstructured, max 300 words",
      "Introduction" := "Comprehensive literature background",
      "Methods" := "Clear criteria for literature inclusion/exclusion",
      "Discussion" := "Synthesis of literature, identify patterns and gaps",
      "Conclusion" := "Future research directions"
    ],
    "Double-spaced, 12pt font, numbered pages",
    "Chicago author-date style, full DOI URLs",
    Some("TIFF or EPS format only"),
    Some("No vertical lines, minimal horizontal lines"))

  /** The profile of every other journal. */
  const DefaultGuidelines := JournalStyleGuidelines(
    "APA",
    7000,
    map[
      "Abstract" := "Max 250 words",
      "Introduction" := "Context, gap, aims",
      "Methods" := "Clear description of approach",
      "Results" := "Key findings only",
      "Discussion" := "Interpretation of results",
      "Conclusion" := "Brief summary and implications"
    ],
    "Double-spaced, 12pt font",
    "APA style",
    Some("High-quality images, properly labeled"),
    Some("Clear formatting with titles"))

  /** `get_journal_guidelines`: "applied" is tested before "review", both on
      the lower-cased name. */
  function GetJournalGuidelines(journalName: string): (g: JournalStyleGuidelines)
  {
    var name := Lower(journalName);
    if Contains(name, "applied") then AppliedGuidelines
    else if Contains(name, "review") then ReviewGuidelines
    else DefaultGuidelines
  }

  /** The profile is chosen by keyword priority: a name mentioning "applied"
      gets APA with 6000 words even when it also mentions "review"; otherwise
      "review" gets Chicago with 8000 words; any other name gets APA with
      7000 words. The style is Chicago exactly for the review profile. */
  lemma GuidelineSelection(journalName: string)
    ensures var name := Lower(journalName);
      var g := GetJournalGuidelines(journalName);
      && (Contains(name, "applied") ==> g.citationStyle == "APA" && g.maxWordCount == 6000)
      && (!Contains(name, "applied") && Contains(name, "review") ==> g.citationStyle == "Chicago" && g.maxWordCount == 8000)
      && (!Contains(name, "applied") && !Contains(name, "review") ==> g.citationStyle == "APA" && g.maxWordCount == 7000)
      && (g.citationStyle == "Chicago" <==> !Contains(name, "applied") && Contains(name, "review"))
      && (g.maxWordCount == 6000 <==> Contains(name, "applied"))
  {
  }

  /** Only the two keywords matter, and only up to case. */
  lemma GuidelinesIgnoreCase(journalName: string)
    ensures GetJournalGuidelines(journalName) == GetJournalGuidelines(Lower(journalName))
  {
    LowerIdempotent(journalName);
  }

  /** Every profile states requirements for the abstract, introduction,
      methods, discussion and conclusion; only the review profile has none
      for results. */
  lemma SectionRequirementKeys(journalName: string)
    ensures var g := GetJournalGuidelines(journalName);
      {"Abstract", "Introduction", "Methods", "Discussion", "Conclusion"} <= g.sectionRequirements.Keys
      && ("Results" in g.sectionRequirements <==> g != ReviewGuidelines)
  {
  }
}
