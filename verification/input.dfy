/**
 * The input controller: the draft editor's buttons, the analyze guard, the
 * file-type check, and the text-extraction sub-state (`isExtracting`,
 * `extractionError`). The draft itself belongs to the session; the handlers
 * here take the current draft and return the draft they leave behind.
 */
module Input {
  import opened Types
  import opened Text

  /** Shown when a chosen file is neither an image nor a PDF. */
  const UnsupportedFileMessage: string := "File type not supported. Please upload an image or PDF file."

  /** Shown when extraction rejects with something that is not an `Error`. */
  const ExtractionFallback: string := "An unknown error occurred during text extraction."

  /**
   * The English sample complaint loaded by the "Example (EN)" button, kept as its
   * salutation line followed by the rest of the letter.
   */
  const EnglishSalutation: string := "To the Municipal Corporation,"
  const EnglishExample: string := EnglishSalutation + "\n\nI am writing to report a recurring issue of improper garbage disposal and overflowing public bins in the Park Street area, specifically near the community center. For the past three months, the waste collection has been infrequent, leading to piles of garbage on the sidewalks. This is causing a severe public health hazard, attracting pests, and creating an unbearable stench.\n\nDespite multiple calls to the local sanitation office (Ref: #2354, #2411), no permanent solution has been provided. The bins are too small for the neighborhood's needs and are not emptied on schedule. According to municipal by-law 7.4 concerning public sanitation, waste must be collected at least three times a week in residential zones. This is clearly not happening.\n\nWe request immediate action to clear the existing garbage, install larger bins, and ensure a regular collection schedule is strictly followed."

  /** The Malayalam sample complaint loaded by the "Example (ML)" button, split the same way. */
  const MalayalamSalutation: string := "മുനിസിപ്പൽ കോർപ്പറേഷന്,"
  const MalayalamExample: string := MalayalamSalutation + "\n\nപാർക്ക് സ്ട്രീറ്റ് ഏരിയയിലെ, പ്രത്യേകിച്ച് കമ്മ്യൂണിറ്റി സെന്ററിനടുത്തുള്ള, മാലിന്യം തെറ്റായി നിക്ഷേപിക്കുന്നതും പൊതു മാലിന്യപ്പെട്ടികൾ കവിഞ്ഞൊഴുകുന്നതുമായ സ്ഥിരം പ്രശ്നം റിപ്പോർട്ട് ചെയ്യാൻ ഞാൻ ആഗ്രഹിക്കുന്നു. കഴിഞ്ഞ മൂന്ന് മാസമായി, മാലിന്യ ശേഖരണം വളരെ കുറവാണ്, ഇത് നടപ്പാതകളിൽ മാലിന്യങ്ങൾ കുന്നുകൂടാൻ കാരണമാകുന്നു. ഇത് ഗുരുതരമായ ഒരു പൊതുജനാരോഗ്യ ഭീഷണിയാണ്, കീടങ്ങളെ ആകർഷിക്കുകയും അസഹനീയമായ ദുർഗന്ധം സൃഷ്ടിക്കുകയും ചെയ്യുന്നു.\n\nപ്രാദേശിക ശുചീകരണ ഓഫീസിലേക്ക് പലതവണ വിളിച്ചിട്ടും (റഫറൻസ്: #2354, #2411), ഒരു ശാശ്വത പരിഹാരവും ലഭിച്ചിട്ടില്ല. ഈ പ്രദേശത്തെ ആവശ്യങ്ങൾക്ക് മാലിന്യപ്പെട്ടികൾ വളരെ ചെറുതാണ്, അവ കൃത്യസമയത്ത് കാലിയാക്കുന്നുമില്ല. പൊതു ശുചീകരണവുമായി ബന്ധപ്പെട്ട മുനിസിപ്പൽ നിയമത്തിലെ 7.4 വകുപ്പ് പ്രകാരം, ജനവാസ മേഖലകളിൽ ആഴ്ചയിൽ മൂന്ന് തവണയെങ്കിലും മാലിന്യം ശേഖരിക്കണം. ഇത് വ്യക്തമായും നടക്കുന്നില്ല.\n\nനിലവിലുള്ള മാലിന്യം ഉടൻ നീക്കം ചെയ്യാനും, വലിയ മാലിന്യപ്പെട്ടികൾ സ്ഥാപിക്കാനും, കൃത്യമായ ശേഖരണ ഷെഡ്യൂൾ കർശനമായി പാലിക്കുന്നുണ്ടെന്ന് ഉറപ്പാക്കാനും ഞങ്ങൾ അടിയന്തിര നടപടി അഭ്യർത്ഥിക്കുന്നു."

  datatype Language = English | Malayalam

  function ExampleText(lang: Language): string
  {
    match lang
    case English => EnglishExample
    case Malayalam => MalayalamExample
  }

  /** The component's own state. */
  datatype InputState = InputState(isExtracting: bool, extractionError: Option<string>)

  const InitialInput: InputState := InputState(false, None)

  /** The component's state together with the draft a handler leaves behind. */
  datatype Edit = Edit(input: InputState, draft: string)

  /** `handleAnalyzeClick`: whether the click is forwarded to `onAnalyze`. */
  predicate ForwardsAnalyze(draft: string)
  {
    Trim(draft) != ""
  }

  /** The analyze click is forwarded exactly when the draft has a non-white character. */
  lemma ForwardsAnalyzeIffNotBlank(draft: string)
    ensures ForwardsAnalyze(draft) <==> exists i :: 0 <= i < |draft| && !IsWhitespace(draft[i])
  {
    TrimEmptyIffBlank(draft);
  }

  /** The media types the upload accepts: any image type, or PDF. */
  predicate IsSupportedType(mediaType: string)
    ensures IsSupportedType(mediaType) ==>
      mediaType == "application/pdf" || (|mediaType| >= 6 && mediaType == "image/" + mediaType[6..])
  {
    StartsWith(mediaType, "image/") || mediaType == "application/pdf"
  }

  /** Every `image/` type is accepted, whatever its subtype. */
  lemma ImageTypesSupported(subtype: string)
    ensures IsSupportedType("image/" + subtype)
  {
    assert ("image/" + subtype)[..6] == "image/";
  }

  /** The accepted and rejected media types at the edges of the rule. */
  lemma SupportedTypeExamples()
    ensures IsSupportedType("image/png") && IsSupportedType("image/jpeg") && IsSupportedType("image/")
    ensures IsSupportedType("application/pdf")
    ensures !IsSupportedType("text/plain") && !IsSupportedType("image")
    ensures !IsSupportedType("application/pdfx") && !IsSupportedType("Image/png") && !IsSupportedType("")
  {
    assert "image/png"[..6] == "image/";
    assert "image/jpeg"[..6] == "image/";
    assert "image/"[..6] == "image/";
    assert "Image/png"[..6] != "image/" by { assert "Image/png"[0] != "image/"[0]; }
    assert "text/plain"[..6] != "image/" by { assert "text/plain"[0] != "image/"[0]; }
    assert "application/pdf"[..6] != "image/";
    assert "application/pdfx"[..6] != "image/";
  }

  /** The first half of `handleFileChange`: what it leaves behind, and whether it calls the extractor. */
  datatype FileStep = FileStep(edit: Edit, extracts: bool)

  /**
   * `handleFileChange` up to its `await`. `file` is the chosen file's media type,
   * or `None` when the picker returned no file.
   */
  function BeginExtraction(st: InputState, draft: string, file: Option<string>): (r: FileStep)
    ensures r.extracts <==> file.Some? && IsSupportedType(file.value)
    ensures file.None? ==> r.edit == Edit(st, draft)
    ensures file.Some? && !IsSupportedType(file.value) ==>
      && r.edit.draft == draft
      && r.edit.input.isExtracting == st.isExtracting
      && r.edit.input.extractionError == Some(UnsupportedFileMessage)
    ensures r.extracts ==>
      r.edit.input.isExtracting && r.edit.input.extractionError.None? && r.edit.draft == ""
  {
    match file
    case None => FileStep(Edit(st, draft), false)
    case Some(mediaType) =>
      if !IsSupportedType(mediaType) then
        FileStep(Edit(st.(extractionError := Some(UnsupportedFileMessage)), draft), false)
      else
        FileStep(Edit(st.(isExtracting := true, extractionError := None), ""), true)
  }

  /** `handleFileChange` after the extraction call settles. */
  function CompleteExtraction(st: InputState, draft: string, outcome: Outcome<string>): (r: Edit)
    ensures !r.input.isExtracting
    ensures outcome.Success? ==> r.draft == outcome.value && r.input.extractionError == st.extractionError
    ensures outcome.Failure? ==>
      && r.draft == draft
      && r.input.extractionError == Some(ErrorText(outcome.message, ExtractionFallback))
  {
    match outcome
    case Success(text) => Edit(st.(isExtracting := false), text)
    case Failure(message) =>
      Edit(InputState(false, Some(ErrorText(message, ExtractionFallback))), draft)
  }

  /** The example buttons: clear the extraction error and load the sample text. */
  function ExampleClick(st: InputState, lang: Language): (r: Edit)
    ensures r.input.extractionError.None? && r.input.isExtracting == st.isExtracting
    ensures r.draft == ExampleText(lang)
  {
    Edit(st.(extractionError := None), ExampleText(lang))
  }

  /** Both sample complaints can be analyzed as loaded. */
  lemma ExamplesAnalyzable(lang: Language)
    ensures ForwardsAnalyze(ExampleText(lang)) && !IsBlank(ExampleText(lang))
  {
    var t := ExampleText(lang);
    assert EnglishSalutation[0] == 'T';
    assert MalayalamSalutation[0] == '\U{D2E}';
    assert !IsWhitespace(t[0]);
    TrimEmptyIffBlank(t);
  }

  /** Whether any operation is in progress: an analysis or an extraction. */
  predicate AnyLoading(isLoading: bool, st: InputState)
  {
    isLoading || st.isExtracting
  }

  /** Whether the analyze button is enabled. */
  predicate AnalyzeEnabled(isLoading: bool, st: InputState, draft: string)
  {
    !AnyLoading(isLoading, st) && Trim(draft) != ""
  }

  /**
   * Whether the file input, the text area and the upload, example and clear
   * buttons are enabled: they share the one `anyLoading` test.
   */
  predicate ControlsEnabled(isLoading: bool, st: InputState)
  {
    !AnyLoading(isLoading, st)
  }

  /** The analyze button is enabled exactly when the other controls are and the draft is not blank. */
  lemma AnalyzeEnabledIff(isLoading: bool, st: InputState, draft: string)
    ensures AnalyzeEnabled(isLoading, st, draft) <==> ControlsEnabled(isLoading, st) && !IsBlank(draft)
    ensures AnalyzeEnabled(isLoading, st, draft) ==> ForwardsAnalyze(draft)
  {
    TrimEmptyIffBlank(draft);
  }

  /** Whether the inline extraction-error box is drawn (`extractionError && ...`). */
  predicate ShowsExtractionError(st: InputState)
  {
    st.extractionError.Some? && st.extractionError.value != ""
  }

  /**
   * A rejected file is reported inline, leaves the draft alone and never reaches
   * the extractor.
   */
  lemma RejectedFileReported(st: InputState, draft: string, mediaType: string)
    requires !IsSupportedType(mediaType)
    ensures var r := BeginExtraction(st, draft, Some(mediaType));
      && !r.extracts && r.edit.draft == draft && ShowsExtractionError(r.edit.input)
  {
  }

  /**
   * A full extraction of an accepted file: the draft is the transcription verbatim
   * on success, stays empty on failure, and the extracting flag is down either way.
   */
  lemma ExtractionRound(st: InputState, draft: string, mediaType: string, outcome: Outcome<string>)
    requires IsSupportedType(mediaType)
    ensures var begun := BeginExtraction(st, draft, Some(mediaType));
      var r := CompleteExtraction(begun.edit.input, begun.edit.draft, outcome);
      && begun.extracts
      && !r.input.isExtracting
      && (outcome.Success? ==> r.draft == outcome.value && r.input.extractionError.None?)
      && (outcome.Failure? ==> r.draft == "" && r.input.extractionError.Some?)
  {
  }
}
