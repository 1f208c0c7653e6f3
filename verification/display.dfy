/**
 * The result pane: which of its four views is drawn, and, for a result, the four
 * cards with their titles, element ids, copy texts and bodies.
 */
module Display {
  import opened Types
  import opened Text

  /** What a card shows under its title: a bulleted list or one paragraph. */
  datatype Body = Bullets(items: seq<string>) | Paragraph(text: string)

  datatype Card = Card(title: string, copyText: string, body: Body)

  /** The pane's four views: loading skeleton, failure box, placeholder, or the result cards. */
  datatype View = Skeleton | ErrorBox(message: string) | Placeholder | Cards(cards: seq<Card>)

  const SummaryTitle: string := "Complaint Summary"
  const DepartmentTitle: string := "Relevant Department"
  const AnalysisTitle: string := "Rules & Regulations Analysis"
  const SolutionsTitle: string := "Proposed Solutions"

  /**
   * The element id of a card's collapsible content: `card-content-` followed by
   * the title with every white-space run turned into `-`.
   */
  function ContentId(c: Card): string
  {
    "card-content-" + Slug(c.title)
  }

  /** The text the copy button puts on the clipboard for a list field: the items, one per line. */
  function ListCopyText(items: seq<string>): string
  {
    Join(items, '\n')
  }

  /** Whether a card draws a copy button (`copyText && ...`): only for non-empty copy text. */
  predicate HasCopyButton(c: Card)
  {
    c.copyText != ""
  }

  /** The four cards of a result, in the order they are drawn. */
  function ResultCards(r: AnalysisResult): (cards: seq<Card>)
    ensures |cards| == 4
    ensures cards[0].title == SummaryTitle && cards[1].title == DepartmentTitle
    ensures cards[2].title == AnalysisTitle && cards[3].title == SolutionsTitle
    ensures cards[0].copyText == Join(r.summary, '\n') && cards[3].copyText == Join(r.solutions, '\n')
    ensures cards[1].copyText == r.department && cards[2].copyText == r.analysis
  {
    [ Card(SummaryTitle, ListCopyText(r.summary), Bullets(r.summary)),
      Card(DepartmentTitle, r.department, Paragraph(r.department)),
      Card(AnalysisTitle, r.analysis, Paragraph(r.analysis)),
      Card(SolutionsTitle, ListCopyText(r.solutions), Bullets(r.solutions)) ]
  }

  /** Reads a result back off the four cards as drawn. */
  function ReadBack(cards: seq<Card>): Option<AnalysisResult>
  {
    if |cards| == 4 && cards[0].body.Bullets? && cards[1].body.Paragraph?
      && cards[2].body.Paragraph? && cards[3].body.Bullets?
    then Some(AnalysisResult(cards[0].body.items, cards[1].body.text, cards[2].body.text, cards[3].body.items))
    else None
  }

  /** The cards show every field of the result: reading them back gives the result itself. */
  lemma CardsShowEverything(r: AnalysisResult)
    ensures ReadBack(ResultCards(r)) == Some(r)
  {
  }

  /** A non-empty list whose items hold no line break. */
  predicate LineFreeList(items: seq<string>)
  {
    |items| >= 1 && forall i :: 0 <= i < |items| ==> '\n' !in items[i]
  }

  /**
   * Copying a list card and splitting the clipboard text at line breaks gives the
   * list back, when the list is non-empty and no item holds a line break itself.
   */
  lemma ListCopyRoundTrip(items: seq<string>)
    requires LineFreeList(items)
    ensures Split(ListCopyText(items), '\n') == items
  {
    SplitJoin(items, '\n');
  }

  /**
   * What the copy buttons put on the clipboard gives the result back: the
   * paragraph cards copy their field verbatim, and splitting a list card's copy
   * text at line breaks recovers its list when the list is non-empty and no item
   * holds a line break.
   */
  lemma CopiedTextsGiveResultBack(r: AnalysisResult)
    ensures var cards := ResultCards(r);
      && cards[1].copyText == r.department && cards[2].copyText == r.analysis
      && (LineFreeList(r.summary) ==> Split(cards[0].copyText, '\n') == r.summary)
      && (LineFreeList(r.solutions) ==> Split(cards[3].copyText, '\n') == r.solutions)
  {
    if LineFreeList(r.summary) {
      ListCopyRoundTrip(r.summary);
    }
    if LineFreeList(r.solutions) {
      ListCopyRoundTrip(r.solutions);
    }
  }


  /**
   * The list cards lose their copy button exactly for an empty list or a list of
   * one empty item; the paragraph cards exactly for an empty field.
   */
  lemma CopyButtons(r: AnalysisResult)
    ensures var cards := ResultCards(r);
      && (HasCopyButton(cards[0]) <==> !(|r.summary| == 0 || (|r.summary| == 1 && r.summary[0] == "")))
      && (HasCopyButton(cards[1]) <==> r.department != "")
      && (HasCopyButton(cards[2]) <==> r.analysis != "")
      && (HasCopyButton(cards[3]) <==> !(|r.solutions| == 0 || (|r.solutions| == 1 && r.solutions[0] == "")))
  {
    JoinEmpty(r.summary, '\n');
    JoinEmpty(r.solutions, '\n');
  }

  /** Whether an error string is drawn (`if (error)`): it must be present and non-empty. */
  predicate ShowsError(error: Option<string>)
  {
    error.Some? && error.value != ""
  }

  /** The pane's view: loading first, then a non-empty error, then a missing result, else the cards. */
  function SelectView(result: Option<AnalysisResult>, isLoading: bool, error: Option<string>): (v: View)
    ensures isLoading ==> v == Skeleton
    ensures !isLoading && ShowsError(error) ==> v == ErrorBox(error.value)
    ensures !isLoading && !ShowsError(error) && result.None? ==> v == Placeholder
    ensures !isLoading && !ShowsError(error) && result.Some? ==> v == Cards(ResultCards(result.value))
  {
    if isLoading then Skeleton
    else if ShowsError(error) then ErrorBox(error.value)
    else if result.None? then Placeholder
    else Cards(ResultCards(result.value))
  }

  /**
   * Each view is chosen exactly under its own condition, so the conditions split
   * the inputs four ways and a shown result always comes from `result`.
   */
  lemma ViewConditions(result: Option<AnalysisResult>, isLoading: bool, error: Option<string>)
    ensures SelectView(result, isLoading, error).Skeleton? <==> isLoading
    ensures SelectView(result, isLoading, error).ErrorBox? <==> !isLoading && ShowsError(error)
    ensures SelectView(result, isLoading, error).Placeholder? <==> !isLoading && !ShowsError(error) && result.None?
    ensures SelectView(result, isLoading, error).Cards? <==>
      !isLoading && !ShowsError(error) && result.Some?
    ensures SelectView(result, isLoading, error).Cards? ==>
      ReadBack(SelectView(result, isLoading, error).cards) == result
  {
    if !isLoading && !ShowsError(error) && result.Some? {
      CardsShowEverything(result.value);
    }
  }

  /** The words of each card title. */
  const SummaryWords: seq<string> := ["Complaint", "Summary"]
  const DepartmentWords: seq<string> := ["Relevant", "Department"]
  const AnalysisWords: seq<string> := ["Rules", "&", "Regulations", "Analysis"]
  const SolutionsWords: seq<string> := ["Proposed", "Solutions"]

  /** Non-empty words without white space in them. */
  predicate SolidWords(words: seq<string>)
  {
    |words| >= 1 && forall i :: 0 <= i < |words| ==> |words[i]| > 0 && NoWhitespace(words[i])
  }

  /** Each title is its words separated by single spaces. */
  lemma TitlesAreWords()
    ensures SummaryTitle == Join(SummaryWords, ' ')
    ensures DepartmentTitle == Join(DepartmentWords, ' ')
    ensures AnalysisTitle == Join(AnalysisWords, ' ')
    ensures SolutionsTitle == Join(SolutionsWords, ' ')
  {
    SummaryForms();
    DepartmentForms();
    AnalysisSpaced();
    SolutionsForms();
  }

  /** A pair of words joined by a separator. */
  lemma JoinPair(words: seq<string>, sep: char)
    requires |words| == 2
    ensures Join(words, sep) == words[0] + [sep] + words[1]
  {
    JoinTwo(words[0], words[1], sep);
    assert words == [words[0], words[1]];
  }

  /** The summary title, space- and dash-joined. */
  lemma SummaryForms()
    ensures SummaryTitle == Join(SummaryWords, ' ')
    ensures Join(SummaryWords, '-') == "Complaint-Summary"
  {
    JoinPair(SummaryWords, ' ');
    JoinPair(SummaryWords, '-');
  }

  /** The department title, space- and dash-joined. */
  lemma DepartmentForms()
    ensures DepartmentTitle == Join(DepartmentWords, ' ')
    ensures Join(DepartmentWords, '-') == "Relevant-Department"
  {
    JoinPair(DepartmentWords, ' ');
    JoinPair(DepartmentWords, '-');
  }

  /** The four analysis words joined by spaces. */
  lemma AnalysisSpaced()
    ensures AnalysisTitle == Join(AnalysisWords, ' ')
  {
    assert "Rules" + [' '] + "&" + [' '] + "Regulations" + [' '] + "Analysis" == AnalysisTitle;
    JoinFour("Rules", "&", "Regulations", "Analysis", ' ');
  }

  /** The four analysis words joined by dashes. */
  lemma AnalysisDashed()
    ensures Join(AnalysisWords, '-') == "Rules-&-Regulations-Analysis"
  {
    assert "Rules" + ['-'] + "&" + ['-'] + "Regulations" + ['-'] + "Analysis" == "Rules-&-Regulations-Analysis";
    JoinFour("Rules", "&", "Regulations", "Analysis", '-');
  }

  /** The solutions title, space- and dash-joined. */
  lemma SolutionsForms()
    ensures SolutionsTitle == Join(SolutionsWords, ' ')
    ensures Join(SolutionsWords, '-') == "Proposed-Solutions"
  {
    JoinPair(SolutionsWords, ' ');
    JoinPair(SolutionsWords, '-');
  }

  /** A join of two pieces. */
  lemma JoinTwo(a: string, b: string, sep: char)
    ensures Join([a, b], sep) == a + [sep] + b
  {
    assert [a, b][1..] == [b];
  }

  /** A join of four pieces. */
  lemma JoinFour(a: string, b: string, c: string, d: string, sep: char)
    ensures Join([a, b, c, d], sep) == a + [sep] + b + [sep] + c + [sep] + d
  {
    assert [a, b, c, d][1..] == [b, c, d];
    assert [b, c, d][1..] == [c, d];
    JoinTwo(c, d, sep);
  }

  /** The title words are non-empty and free of white space. */
  lemma TitleWordsSolid()
    ensures SolidWords(SummaryWords) && SolidWords(DepartmentWords)
    ensures SolidWords(AnalysisWords) && SolidWords(SolutionsWords)
  {
    PrintableIsSolid(SummaryWords);
    PrintableIsSolid(DepartmentWords);
    PrintableIsSolid(AnalysisWords);
    PrintableIsSolid(SolutionsWords);
  }

  /** Words made of visible ASCII characters hold no white space. */
  lemma PrintableIsSolid(words: seq<string>)
    requires |words| >= 1
    requires forall i :: 0 <= i < |words| ==> |words[i]| > 0
    requires forall i, k :: 0 <= i < |words| && 0 <= k < |words[i]| ==> '!' <= words[i][k] <= '~'
    ensures SolidWords(words)
  {
  }

  /** The dash-joined forms of the title words. */
  lemma DashedWords()
    ensures Join(SummaryWords, '-') == "Complaint-Summary"
    ensures Join(DepartmentWords, '-') == "Relevant-Department"
    ensures Join(AnalysisWords, '-') == "Rules-&-Regulations-Analysis"
    ensures Join(SolutionsWords, '-') == "Proposed-Solutions"
  {
    SummaryForms();
    DepartmentForms();
    AnalysisDashed();
    SolutionsForms();
  }

  /** The slug of each card title. */
  lemma TitleSlugs()
    ensures Slug(SummaryTitle) == "Complaint-Summary"
    ensures Slug(DepartmentTitle) == "Relevant-Department"
    ensures Slug(AnalysisTitle) == "Rules-&-Regulations-Analysis"
    ensures Slug(SolutionsTitle) == "Proposed-Solutions"
  {
    TitlesAreWords();
    TitleWordsSolid();
    DashedWords();
    SlugOfWords(SummaryWords);
    SlugOfWords(DepartmentWords);
    SlugOfWords(AnalysisWords);
    SlugOfWords(SolutionsWords);
  }

  /** The element ids of the four cards, in drawing order. */
  lemma CardContentIds(r: AnalysisResult)
    ensures var cards := ResultCards(r);
      && ContentId(cards[0]) == "card-content-" + "Complaint-Summary"
      && ContentId(cards[1]) == "card-content-" + "Relevant-Department"
      && ContentId(cards[2]) == "card-content-" + "Rules-&-Regulations-Analysis"
      && ContentId(cards[3]) == "card-content-" + "Proposed-Solutions"
  {
    TitleSlugs();
  }

  /** No two cards of a result share an element id. */
  lemma CardContentIdsDistinct(r: AnalysisResult)
    ensures var ids := ContentIds(ResultCards(r));
      forall i, j :: 0 <= i < j < |ids| ==> ids[i] != ids[j]
  {
    var cards := ResultCards(r);
    CardContentIds(r);
    DistinctByLength(ContentIds(cards));
  }

  /** The element ids of a sequence of cards. */
  function ContentIds(cards: seq<Card>): (ids: seq<string>)
    ensures |ids| == |cards|
    ensures forall k :: 0 <= k < |cards| ==> ids[k] == ContentId(cards[k])
  {
    seq(|cards|, k requires 0 <= k < |cards| => ContentId(cards[k]))
  }

  /** The four ids differ in length, hence pairwise. */
  lemma DistinctByLength(ids: seq<string>)
    requires |ids| == 4
    requires ids[0] == "card-content-" + "Complaint-Summary"
    requires ids[1] == "card-content-" + "Relevant-Department"
    requires ids[2] == "card-content-" + "Rules-&-Regulations-Analysis"
    requires ids[3] == "card-content-" + "Proposed-Solutions"
    ensures forall i, j :: 0 <= i < j < |ids| ==> ids[i] != ids[j]
  {
    assert |ids[0]| == 30 && |ids[1]| == 32 && |ids[2]| == 41 && |ids[3]| == 31;
  }
}
