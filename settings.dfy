/** The driver's options, their defaults, the language codes, and the nvda.ini
    document the options writer produces from them. */
module Settings {
  import opened Wrappers
  import opened Text

  // ------------------------------------------------------------- languages

  /** NvdaLanguage: a language code NVDA understands, wrapped as a value. */
  datatype NvdaLanguage = NvdaLanguage(value: string)

  /** The named static members, each wrapping a fixed code (Greek wraps "the"). */
  const Arabic: NvdaLanguage := NvdaLanguage("ar")
  const Vietnamese: NvdaLanguage := NvdaLanguage("vi")
  const Urdu: NvdaLanguage := NvdaLanguage("ur")
  const Ukrainian: NvdaLanguage := NvdaLanguage("uk")
  const Turkish: NvdaLanguage := NvdaLanguage("tr")
  const Tamil: NvdaLanguage := NvdaLanguage("ta")
  const Thai: NvdaLanguage := NvdaLanguage("th")
  const Swedish: NvdaLanguage := NvdaLanguage("sv")
  const Somali: NvdaLanguage := NvdaLanguage("so")
  const SerbianLatin: NvdaLanguage := NvdaLanguage("sr")
  const Spanish: NvdaLanguage := NvdaLanguage("es")
  const Punjabi: NvdaLanguage := NvdaLanguage("pa")
  const Polish: NvdaLanguage := NvdaLanguage("pl")
  const NorwegianBokmalNorway: NvdaLanguage := NvdaLanguage("nb_NO")
  const Dutch: NvdaLanguage := NvdaLanguage("nl")
  const Mongolian: NvdaLanguage := NvdaLanguage("mn")
  const Macedonian: NvdaLanguage := NvdaLanguage("mk")
  const Lithuanian: NvdaLanguage := NvdaLanguage("lt")
  const CentralKurdish: NvdaLanguage := NvdaLanguage("ckb")
  const Kyrgyz: NvdaLanguage := NvdaLanguage("ky")
  const Kannada: NvdaLanguage := NvdaLanguage("kn")
  const Japanese: NvdaLanguage := NvdaLanguage("ja")
  const Italian: NvdaLanguage := NvdaLanguage("it")
  const Icelandic: NvdaLanguage := NvdaLanguage("is")
  const Irish: NvdaLanguage := NvdaLanguage("ga")
  const English: NvdaLanguage := NvdaLanguage("en")
  const Indonesian: NvdaLanguage := NvdaLanguage("id")
  const Hungarian: NvdaLanguage := NvdaLanguage("hu")
  const Hindi: NvdaLanguage := NvdaLanguage("hi")
  const Hebrew: NvdaLanguage := NvdaLanguage("he")
  const Greek: NvdaLanguage := NvdaLanguage("the")
  const Georgiano: NvdaLanguage := NvdaLanguage("ka")
  const Galician: NvdaLanguage := NvdaLanguage("gl")
  const Finnish: NvdaLanguage := NvdaLanguage("fi")
  const Slovenian: NvdaLanguage := NvdaLanguage("sl")
  const Croatian: NvdaLanguage := NvdaLanguage("hr")
  const Korean: NvdaLanguage := NvdaLanguage("ko")
  const ChineseTraditionalHongKong: NvdaLanguage := NvdaLanguage("zh_HK")
  const ChineseTraditionalTaiwan: NvdaLanguage := NvdaLanguage("zh_TW")
  const ChineseSimplifiedChina: NvdaLanguage := NvdaLanguage("zh_CN")
  const Czech: NvdaLanguage := NvdaLanguage("cs")
  const Catalan: NvdaLanguage := NvdaLanguage("ca")
  const Bulgarian: NvdaLanguage := NvdaLanguage("bg")
  const Aragonese: NvdaLanguage := NvdaLanguage("an")
  const German: NvdaLanguage := NvdaLanguage("de")
  const Albanian: NvdaLanguage := NvdaLanguage("sq")
  const AfrikaansSouthAfrica: NvdaLanguage := NvdaLanguage("af_ZZ")

  /** Equals(NvdaLanguage): the wrapped codes are equal. */
  predicate Same(a: NvdaLanguage, b: NvdaLanguage) {
    a.value == b.value
  }

  /** operator ==, which calls Equals. */
  predicate Eq(left: NvdaLanguage, right: NvdaLanguage) {
    Same(left, right)
  }

  /** operator !=, the negation of ==. */
  predicate Ne(left: NvdaLanguage, right: NvdaLanguage) {
    !Eq(left, right)
  }

  /** What Equals(object) may be handed. */
  datatype Boxed = BoxedLanguage(language: NvdaLanguage) | OtherObject | NullObject

  /** Equals(object): false for anything that is not an NvdaLanguage. */
  predicate EqualsObject(self: NvdaLanguage, obj: Boxed) {
    obj.BoxedLanguage? && Same(obj.language, self)
  }

  /** GetHashCode: the hash of the code; `stringHash` is string.GetHashCode, which .NET
      seeds per process. */
  function HashCode(self: NvdaLanguage, stringHash: string -> int): int {
    stringHash(self.value)
  }

  /** == holds exactly when the codes are equal, != is its negation, and Equals(object)
      agrees with == on boxed languages and rejects everything else. */
  lemma EqualityLaws(a: NvdaLanguage, b: NvdaLanguage, obj: Boxed)
    ensures Eq(a, b) <==> a.value == b.value
    ensures Ne(a, b) <==> !Eq(a, b)
    ensures EqualsObject(a, BoxedLanguage(b)) == Eq(a, b)
    ensures !obj.BoxedLanguage? ==> !EqualsObject(a, obj)
  {
  }

  /** Languages that compare equal have equal hash codes, whatever the string hash. */
  lemma HashAgreesWithEquality(a: NvdaLanguage, b: NvdaLanguage, stringHash: string -> int)
    requires Eq(a, b)
    ensures HashCode(a, stringHash) == HashCode(b, stringHash)
  {
  }

  // --------------------------------------------------------------- options

  datatype KeyboardLayout = Desktop | Laptop

  datatype PunctuationLevel = NoPunctuation | SomePunctuation | MostPunctuation | AllPunctuation

  /** ProgressBarOutputModes is a [Flags] enumeration over an int. */
  const Beep: int := 1
  const Speak: int := 2

  function HasFlag(mode: int, flag: int): bool
    requires flag == 1 || flag == 2
  {
    (mode / flag) % 2 == 1
  }

  datatype GeneralSettings = GeneralSettings(language: NvdaLanguage, playStartAndExitSounds: bool)

  datatype SpeechSettings = SpeechSettings(
    autoDialectSwitching: bool, autoLanguageSwitching: bool, includeUnicodeDescriptions: bool,
    punctuationLevel: PunctuationLevel, sayCapForCapitals: bool, useSpellingFunctionality: bool)

  datatype DocumentFormattingSettings = DocumentFormattingSettings(
    reportFontName: bool, reportFontSize: bool, reportFontAttributes: bool, reportEmphasis: bool,
    reportStyle: bool, reportColor: bool, reportComments: bool, reportRevisions: bool,
    reportSpellingErrors: bool, reportPage: bool, reportLineNumber: bool, reportLineIndentation: bool,
    reportParagraphIndentation: bool, reportLineSpacing: bool, reportAlignment: bool,
    reportTables: bool, reportTableHeaders: bool, reportTableCellCoords: bool,
    reportBorderColor: bool, reportBorderStyle: bool, reportHeadings: bool, reportLinks: bool,
    reportLists: bool, reportBlockQuotes: bool, reportLandmarks: bool, reportFrames: bool,
    reportClickable: bool, detectFormatAfterCursor: bool, includeLayoutTables: bool)

  datatype InputCompositionSettings = InputCompositionSettings(
    autoReportAllCandidates: bool, announceSelectedCandidate: bool,
    alwaysIncludeShortCharacterDescriptionInCandidateName: bool,
    reportReadingStringChanges: bool, reportCompositionStringChanges: bool)

  datatype KeyboardSettings = KeyboardSettings(
    keyboardLayout: KeyboardLayout, useCapsLockAsNvdaModifierKey: bool, speakTypedCharacters: bool,
    speakTypedWords: bool, speechInterruptForEnter: bool)

  datatype ProgressBarUpdateSettings = ProgressBarUpdateSettings(progressBarOutputMode: int, reportBackgroundProgressBars: bool)

  datatype PresentationSettings = PresentationSettings(
    reportTooltips: bool, reportHelpBalloons: bool, reportKeyboardShortcuts: bool,
    reportObjectPositionInformation: bool, guessObjectPositionInformationWhenUnavailable: bool,
    reportObjectDescriptions: bool, progressBarUpdates: ProgressBarUpdateSettings,
    reportDynamicContentChanges: bool)

  datatype ReviewCursorSettings = ReviewCursorSettings(followFocus: bool, followCaret: bool, followMouse: bool, simpleReviewMode: bool)

  datatype BrowseModeSettings = BrowseModeSettings(
    maxLineLength: int, linesPerPage: int, useScreenLayout: bool, autoSayAllOnPageLoad: bool,
    autoPassThroughOnCaretMove: bool, autoPassThroughOnFocusChange: bool, trapNonCommandGestures: bool)

  datatype VisionSettings = VisionSettings(highlightFocus: bool, highlightNavigator: bool, highlightBrowseMode: bool)

  /** NvdaDriverOptions. The vision group is read by the writer but not declared by the
      options class; it is a field here, and its default is every flag off. */
  datatype Options = Options(
    general: GeneralSettings, speech: SpeechSettings, documentFormatting: DocumentFormattingSettings,
    inputComposition: InputCompositionSettings, keyboard: KeyboardSettings,
    presentation: PresentationSettings, reviewCursor: ReviewCursorSettings,
    browseMode: BrowseModeSettings, vision: VisionSettings)

  /** The values the parameterless NvdaDriverOptions constructor assigns. Flags it does not
      assign (useCapsLockAsNvdaModifierKey, the vision group) keep the bool default, false. */
  function Defaults(): (o: Options)
    ensures o.general.language == English
    ensures o.keyboard.keyboardLayout == Desktop
    ensures o.speech.punctuationLevel == SomePunctuation
    ensures o.browseMode.maxLineLength == 100 && o.browseMode.linesPerPage == 25
    ensures o.presentation.progressBarUpdates == ProgressBarUpdateSettings(Beep, false)
  {
    Options(
      GeneralSettings(English, true),
      SpeechSettings(false, true, true, SomePunctuation, false, true),
      DocumentFormattingSettings(
        false, false, false, false, false, false, true, true, true, true, false, false,
        false, false, false, true, true, true, false, false, true, true, true, true, true, true,
        true, false, false),
      InputCompositionSettings(true, true, true, true, true),
      KeyboardSettings(Desktop, false, true, false, true),
      PresentationSettings(false, true, true, true, false, true, ProgressBarUpdateSettings(Beep, false), true),
      ReviewCursorSettings(true, true, false, true),
      BrowseModeSettings(100, 25, true, true, false, true, true),
      VisionSettings(false, false, false))
  }

  // ---------------------------------------------------------------- writer

  /** ToFirstCapitalizedString on a bool, the spelling NVDA's configuration reads. */
  function Capitalized(b: bool): string {
    if b then "True" else "False"
  }

  /** GetSymbolLevel. */
  function SymbolLevel(p: PunctuationLevel): (n: int)
    ensures p == AllPunctuation <==> n == 300
    ensures p == MostPunctuation <==> n == 200
    ensures p == SomePunctuation <==> n == 100
    ensures p == NoPunctuation <==> n == 0
  {
    match p
    case AllPunctuation => 300
    case MostPunctuation => 200
    case SomePunctuation => 100
    case NoPunctuation => 0
  }

  /** The enum's ToString() lowered: a named flag by its name, an unnamed value as its number. */
  function ModeName(mode: int): string {
    if mode == Beep then "beep" else if mode == Speak then "speak" else IntText(mode)
  }

  /** The progressBarOutputMode value: "both" when the Beep and Speak flags are both set. */
  function ProgressModeText(mode: int): (r: string)
    ensures HasFlag(mode, Beep) && HasFlag(mode, Speak) <==> r == "both"
    ensures mode == Beep ==> r == "beep"
    ensures mode == Speak ==> r == "speak"
  {
    if HasFlag(mode, Beep) && HasFlag(mode, Speak) then "both" else ModeName(mode)
  }

  function Setting(indent: string, key: string, value: string): string {
    indent + key + " = " + value
  }

  function Flag(indent: string, key: string, b: bool): string {
    Setting(indent, key, Capitalized(b))
  }

  /** The lines of nvda.ini, section by section; WriteOptionsToIniFile joins them with
      line feeds (the line breaks of its verbatim string). */
  function IniLines(o: Options): seq<string> {
    Preamble() + Concat(Sections(o))
  }

  /** The sections after the preamble, from [general] to [documentFormatting]. */
  function Sections(o: Options): seq<seq<string>> {
    [ GeneralSection(o.general), SpeechSection(o.speech), BrailleSection(),
      VisionSection(o.vision), KeyboardSection(o.keyboard), ReviewCursorSection(o.reviewCursor),
      InputCompositionSection(o.inputComposition), PresentationSection(o.presentation),
      VirtualBuffersSection(o.browseMode), DocumentFormattingSection(o.documentFormatting) ]
  }

  /** The sections' lines one after the other. */
  function Concat(sections: seq<seq<string>>): (r: seq<string>)
  {
    if sections == [] then [] else sections[0] + Concat(sections[1..])
  }

  /** A line of any section is a line of the document. */
  lemma {:induction false} InConcat(sections: seq<seq<string>>, i: nat, j: nat)
    requires i < |sections| && j < |sections[i]|
    ensures sections[i][j] in Concat(sections)
  {
    if i > 0 {
      InConcat(sections[1..], i - 1, j);
    } else {
      assert Concat(sections)[j] == sections[0][j];
    }
  }

  function Preamble(): seq<string> {
    [ "schemaVersion = 3",
      "[development]",
      "[upgrade]",
      "[update]",
      "\tallowUsageStats = False",
      "\taskedAllowUsageStats = True",
      "\tautoCheck = False",
      "\tstartupNotification = False" ]
  }

  function GeneralSection(g: GeneralSettings): seq<string> {
    [ "[general]",
      "\tshowWelcomeDialogAtStartup = False",
      Setting("\t", "language", g.language.value),
      "\tsaveConfigurationOnExit = False",
      "\taskToExit = False",
      Flag("\t", "playStartAndExitSounds", g.playStartAndExitSounds),
      "\tloggingLevel = DEBUG" ]
  }

  function SpeechSection(s: SpeechSettings): seq<string> {
    [ "[speech]",
      "\tsynth = oneCore",
      Flag("\t", "autoLanguageSwitching", s.autoLanguageSwitching),
      Flag("\t", "autoDialectSwitching", s.autoDialectSwitching),
      "\ttrustVoiceLanguage = False",
      Flag("\t", "includeCLDR", s.includeUnicodeDescriptions),
      Setting("\t", "symbolLevel", IntText(SymbolLevel(s.punctuationLevel))),
      "\t[[silence]]",
      Flag("\t\t", "sayCapForCapitals", s.sayCapForCapitals) ]
  }

  function BrailleSection(): seq<string> {
    [ "[braille]",
      "\t[[noBraille]]",
      "\t\tport = \"\"" ]
  }

  function VisionSection(v: VisionSettings): seq<string> {
    [ "[vision]",
      "\t[[NVDAHighlighter]]",
      Flag("\t\t", "highlightFocus", v.highlightFocus),
      Flag("\t\t", "highlightNavigator", v.highlightNavigator),
      Flag("\t\t", "highlightBrowseMode", v.highlightBrowseMode),
      "\t[[screenCurtain]]" ]
  }

  function KeyboardSection(k: KeyboardSettings): seq<string> {
    [ "[keyboard]",
      Setting("\t", "keyboardLayout", if k.keyboardLayout == Desktop then "desktop" else "laptop"),
      Flag("\t", "useCapsLockAsNVDAModifierKey", k.useCapsLockAsNvdaModifierKey),
      Flag("\t", "speakTypedCharacters", k.speakTypedCharacters),
      Flag("\t", "speakTypedWords", k.speakTypedWords),
      Flag("\t", "speechInterruptForEnter", k.speechInterruptForEnter) ]
  }

  function ReviewCursorSection(rc: ReviewCursorSettings): seq<string> {
    [ "[reviewCursor]",
      Flag("\t", "followFocus", rc.followFocus),
      Flag("\t", "followCaret", rc.followCaret),
      Flag("\t", "followMouse", rc.followMouse),
      Flag("\t", "simpleReviewMode", rc.simpleReviewMode) ]
  }

  function InputCompositionSection(ic: InputCompositionSettings): seq<string> {
    [ "[inputComposition]",
      Flag("\t", "autoReportAllCandidates", ic.autoReportAllCandidates),
      Flag("\t", "announceSelectedCandidate", ic.announceSelectedCandidate),
      Flag("\t", "alwaysIncludeShortCharacterDescriptionInCandidateName", ic.alwaysIncludeShortCharacterDescriptionInCandidateName),
      Flag("\t", "reportReadingStringChanges", ic.reportReadingStringChanges),
      Flag("\t", "reportCompositionStringChanges", ic.reportCompositionStringChanges) ]
  }

  function PresentationSection(p: PresentationSettings): seq<string> {
    [ "[presentation]",
      Flag("\t", "reportTooltips", p.reportTooltips),
      Flag("\t", "reportHelpBalloons", p.reportHelpBalloons),
      Flag("\t", "reportKeyboardShortcuts", p.reportKeyboardShortcuts),
      Flag("\t", "reportObjectPositionInformation", p.reportObjectPositionInformation),
      Flag("\t", "guessObjectPositionInformationWhenUnavailable", p.guessObjectPositionInformationWhenUnavailable),
      Flag("\t", "reportObjectDescriptions", p.reportObjectDescriptions),
      Flag("\t", "reportDynamicContentChanges", p.reportDynamicContentChanges),
      "\treportAutoSuggestionsWithSound = False",
      "\t[[progressBarUpdates]]",
      Setting("\t\t", "progressBarOutputMode", ProgressModeText(p.progressBarUpdates.progressBarOutputMode)),
      Flag("\t\t", "reportBackgroundProgressBars", p.progressBarUpdates.reportBackgroundProgressBars) ]
  }

  function VirtualBuffersSection(b: BrowseModeSettings): seq<string> {
    [ "[virtualBuffers]",
      Setting("\t", "maxLineLength", IntText(b.maxLineLength)),
      Setting("\t", "linesPerPage", IntText(b.linesPerPage)),
      Flag("\t", "useScreenLayout", b.useScreenLayout),
      Flag("\t", "autoSayAllOnPageLoad", b.autoSayAllOnPageLoad),
      Flag("\t", "autoPassThroughOnFocusChange", b.autoPassThroughOnFocusChange),
      Flag("\t", "autoPassThroughOnCaretMove", b.autoPassThroughOnCaretMove),
      "\tpassThroughAudioIndication = False",
      Flag("\t", "trapNonCommandGestures", b.trapNonCommandGestures) ]
  }

  function DocumentFormattingSection(d: DocumentFormattingSettings): seq<string> {
    [ "[documentFormatting]",
      Flag("\t", "includeLayoutTables", d.includeLayoutTables),
      Flag("\t", "detectFormatAfterCursor", d.detectFormatAfterCursor),
      Flag("\t", "reportFontName", d.reportFontName),
      Flag("\t", "reportFontSize", d.reportFontSize),
      Flag("\t", "reportFontAttributes", d.reportFontAttributes),
      Flag("\t", "reportColor", d.reportColor),
      Flag("\t", "reportComments", d.reportComments),
      Flag("\t", "reportRevisions", d.reportRevisions),
      Flag("\t", "reportEmphasis", d.reportEmphasis),
      Flag("\t", "reportAlignment", d.reportAlignment),
      Flag("\t", "reportStyle", d.reportStyle),
      Flag("\t", "reportSpellingErrors", d.reportSpellingErrors),
      Flag("\t", "reportPage", d.reportPage),
      Flag("\t", "reportLineNumber", d.reportLineNumber),
      Flag("\t", "reportLineIndentation", d.reportLineIndentation),
      Flag("\t", "reportParagraphIndentation", d.reportParagraphIndentation),
      Flag("\t", "reportLineSpacing", d.reportLineSpacing),
      Flag("\t", "reportTables", d.reportTables),
      Flag("\t", "reportTableHeaders", d.reportTableHeaders),
      Flag("\t", "reportTableCellCoords", d.reportTableCellCoords),
      Flag("\t", "reportBorderStyle", d.reportBorderStyle),
      Flag("\t", "reportBorderColor", d.reportBorderColor),
      Flag("\t", "reportLinks", d.reportLinks),
      Flag("\t", "reportHeadings", d.reportHeadings),
      Flag("\t", "reportLists", d.reportLists),
      Flag("\t", "reportBlockQuotes", d.reportBlockQuotes),
      Flag("\t", "reportLandmarks", d.reportLandmarks),
      Flag("\t", "reportFrames", d.reportFrames),
      Flag("\t", "reportClickable", d.reportClickable) ]
  }

  /** The document WriteOptionsToIniFile hands to File.WriteAllText. */
  function IniContent(o: Options): string {
    Join("\n", IniLines(o))
  }

  /** The document starts with the schema version line, whatever the options. */
  lemma IniStartsWithSchema(o: Options)
    ensures |IniContent(o)| >= 17 && IniContent(o)[..17] == "schemaVersion = 3"
  {
    var lines := IniLines(o);
    assert lines[0] == Preamble()[0];
    JoinStartsWithFirst("\n", lines);
  }

  /** Every line of every section is a line of the document. */
  lemma SectionInIni(o: Options, i: nat, j: nat)
    requires i < |Sections(o)| && j < |Sections(o)[i]|
    ensures Sections(o)[i][j] in IniLines(o)
  {
    var sections := Sections(o);
    InConcat(sections, i, j);
    var rest := Concat(sections);
    assert sections[i][j] in rest;
    assert IniLines(o) == Preamble() + rest;
  }

  /** The [general] section: no welcome dialog, nothing saved or asked on exit, debug
      logging, and the language code verbatim. */
  lemma GeneralLines(g: GeneralSettings)
    ensures "\tshowWelcomeDialogAtStartup = False" in GeneralSection(g)
    ensures "\tsaveConfigurationOnExit = False" in GeneralSection(g)
    ensures "\taskToExit = False" in GeneralSection(g)
    ensures "\tloggingLevel = DEBUG" in GeneralSection(g)
    ensures Setting("\t", "language", g.language.value) in GeneralSection(g)
  {
    var lines := GeneralSection(g);
    assert lines[1] == "\tshowWelcomeDialogAtStartup = False";
    assert lines[2] == Setting("\t", "language", g.language.value);
    assert lines[3] == "\tsaveConfigurationOnExit = False";
    assert lines[4] == "\taskToExit = False";
    assert lines[6] == "\tloggingLevel = DEBUG";
  }

  /** The [speech] section: the OneCore synthesiser, and the symbol level through its
      mapping. */
  lemma SpeechLines(sp: SpeechSettings)
    ensures "\tsynth = oneCore" in SpeechSection(sp)
    ensures Setting("\t", "symbolLevel", IntText(SymbolLevel(sp.punctuationLevel))) in SpeechSection(sp)
  {
    var lines := SpeechSection(sp);
    assert lines[1] == "\tsynth = oneCore";
    assert lines[6] == Setting("\t", "symbolLevel", IntText(SymbolLevel(sp.punctuationLevel)));
  }

  /** The [keyboard] section: "desktop" for the desktop layout and "laptop" otherwise. */
  lemma KeyboardLines(k: KeyboardSettings)
    ensures Setting("\t", "keyboardLayout", if k.keyboardLayout == Desktop then "desktop" else "laptop") in KeyboardSection(k)
    ensures k.keyboardLayout == Desktop ==> Setting("\t", "keyboardLayout", "desktop") in KeyboardSection(k)
    ensures k.keyboardLayout == Laptop ==> Setting("\t", "keyboardLayout", "laptop") in KeyboardSection(k)
  {
    var lines := KeyboardSection(k);
    assert lines[1] == Setting("\t", "keyboardLayout", if k.keyboardLayout == Desktop then "desktop" else "laptop");
  }

  /** The [presentation] section writes the progress-bar mode through its mapping. */
  lemma PresentationLines(pr: PresentationSettings)
    ensures Setting("\t\t", "progressBarOutputMode", ProgressModeText(pr.progressBarUpdates.progressBarOutputMode)) in PresentationSection(pr)
  {
    var lines := PresentationSection(pr);
    assert lines[10] == Setting("\t\t", "progressBarOutputMode", ProgressModeText(pr.progressBarUpdates.progressBarOutputMode));
  }

  /** maxLineLength and linesPerPage are written as the given integers, which read back
      as the same integers. */
  lemma BrowseModeLines(b: BrowseModeSettings)
    ensures Setting("\t", "maxLineLength", IntText(b.maxLineLength)) in VirtualBuffersSection(b)
    ensures Setting("\t", "linesPerPage", IntText(b.linesPerPage)) in VirtualBuffersSection(b)
    ensures ParseInt(IntText(b.maxLineLength)) == Some(b.maxLineLength)
    ensures ParseInt(IntText(b.linesPerPage)) == Some(b.linesPerPage)
  {
    var lines := VirtualBuffersSection(b);
    assert lines[1] == Setting("\t", "maxLineLength", IntText(b.maxLineLength));
    assert lines[2] == Setting("\t", "linesPerPage", IntText(b.linesPerPage));
    IntTextRoundTrip(b.maxLineLength);
    IntTextRoundTrip(b.linesPerPage);
  }

  /** With the default options the writer emits the English code and the desktop layout,
      symbolLevel = 100 and the beep progress mode. */
  lemma DefaultIni()
    ensures Setting("\t", "language", "en") in GeneralSection(Defaults().general)
    ensures Setting("\t", "keyboardLayout", "desktop") in KeyboardSection(Defaults().keyboard)
    ensures Setting("\t", "symbolLevel", "100") in SpeechSection(Defaults().speech)
    ensures Setting("\t\t", "progressBarOutputMode", "beep") in PresentationSection(Defaults().presentation)
  {
    var o := Defaults();
    GeneralLines(o.general);
    KeyboardLines(o.keyboard);
    assert IntText(SymbolLevel(o.speech.punctuationLevel)) == "100" by {
      assert IntText(100) == "100";
    }
    SpeechLines(o.speech);
    assert ProgressModeText(o.presentation.progressBarUpdates.progressBarOutputMode) == "beep";
    PresentationLines(o.presentation);
  }
}
