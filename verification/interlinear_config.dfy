/**
 * The per-session interlinear display configuration: its validations, the
 * lookup-or-create rule, the settings hashes, and the arrangement of a word's
 * primary, secondary and Spanish elements by one of six fixed orders.
 */
module InterlinearConfigs {
  import opened Wrappers
  import opened Seqs
  import opened Text
  import opened Corpus

  datatype Config = Config(
    id: nat,
    sessionId: Option<string>,
    name: Option<string>,
    showGreek: bool, showHebrew: bool, showSpanish: bool, showStrongs: bool,
    showGrammar: bool, showPronunciation: bool, showWordOrder: bool,
    primaryLanguage: string, secondaryLanguage: string, elementOrder: int,
    greekFontSize: int, hebrewFontSize: int, spanishFontSize: int,
    strongsFontSize: int, grammarFontSize: int, pronunciationFontSize: int,
    cardPadding: int, cardSpacing: int, cardTheme: string)

  const Languages: set<string> := {"spanish", "greek", "hebrew"}
  const Themes: set<string> := {"default", "compact", "spacious"}
  const DefaultName: string := "Default Configuration"
  const SessionName: string := "My Configuration"

  /** The attributes a validation error can be attached to. */
  datatype Attribute =
    | Name | PrimaryLanguage | SecondaryLanguage | ElementOrder | CardTheme
    | GreekFontSize | HebrewFontSize | SpanishFontSize | StrongsFontSize
    | GrammarFontSize | PronunciationFontSize | CardPadding | CardSpacing

  predicate FontSizeOk(n: int) { 50 <= n <= 200 }
  predicate CardScaleOk(n: int) { 50 <= n <= 150 }

  const AllAttributes: set<Attribute> :=
    {Name, PrimaryLanguage, SecondaryLanguage, ElementOrder, CardTheme,
     GreekFontSize, HebrewFontSize, SpanishFontSize, StrongsFontSize,
     GrammarFontSize, PronunciationFontSize, CardPadding, CardSpacing}

  /**
   * Whether one attribute fails its validation. `secondary_language` fails
   * both when it is not a known language and when it equals the primary one.
   */
  predicate Fails(c: Config, a: Attribute) {
    match a
    case Name => !Present(c.name)
    case PrimaryLanguage => c.primaryLanguage !in Languages
    case SecondaryLanguage => c.secondaryLanguage !in Languages || c.secondaryLanguage == c.primaryLanguage
    case ElementOrder => !(1 <= c.elementOrder <= 6)
    case CardTheme => c.cardTheme !in Themes
    case GreekFontSize => !FontSizeOk(c.greekFontSize)
    case HebrewFontSize => !FontSizeOk(c.hebrewFontSize)
    case SpanishFontSize => !FontSizeOk(c.spanishFontSize)
    case StrongsFontSize => !FontSizeOk(c.strongsFontSize)
    case GrammarFontSize => !FontSizeOk(c.grammarFontSize)
    case PronunciationFontSize => !FontSizeOk(c.pronunciationFontSize)
    case CardPadding => !CardScaleOk(c.cardPadding)
    case CardSpacing => !CardScaleOk(c.cardSpacing)
  }

  /** `errors.attribute_names` after `valid?`: every attribute that fails. */
  function Errors(c: Config): (r: set<Attribute>)
    ensures forall a :: a in r <==> Fails(c, a)
  {
    set a | a in AllAttributes && Fails(c, a)
  }

  predicate IsValid(c: Config) { Errors(c) == {} }

  /**
   * A configuration is valid exactly when its name is present, both language
   * roles are known and differ, the order is 1..6, the theme is known, every
   * font size is within 50..200 and padding and spacing are within 50..150.
   */
  lemma ValidIff(c: Config)
    ensures IsValid(c) <==>
      && Present(c.name)
      && c.primaryLanguage in Languages && c.secondaryLanguage in Languages
      && c.primaryLanguage != c.secondaryLanguage
      && 1 <= c.elementOrder <= 6 && c.cardTheme in Themes
      && FontSizeOk(c.greekFontSize) && FontSizeOk(c.hebrewFontSize) && FontSizeOk(c.spanishFontSize)
      && FontSizeOk(c.strongsFontSize) && FontSizeOk(c.grammarFontSize) && FontSizeOk(c.pronunciationFontSize)
      && CardScaleOk(c.cardPadding) && CardScaleOk(c.cardSpacing)
  {
    if !IsValid(c) {
      var a :| a in Errors(c);
    } else {
      NothingFails(c);
    }
  }

  /** With no error, no attribute fails its validation. */
  lemma NothingFails(c: Config)
    requires IsValid(c)
    ensures !Fails(c, Name) && !Fails(c, PrimaryLanguage) && !Fails(c, SecondaryLanguage)
    ensures !Fails(c, ElementOrder) && !Fails(c, CardTheme)
    ensures !Fails(c, GreekFontSize) && !Fails(c, HebrewFontSize) && !Fails(c, SpanishFontSize)
    ensures !Fails(c, StrongsFontSize) && !Fails(c, GrammarFontSize) && !Fails(c, PronunciationFontSize)
    ensures !Fails(c, CardPadding) && !Fails(c, CardSpacing)
  {
    assert Name !in Errors(c) && PrimaryLanguage !in Errors(c) && SecondaryLanguage !in Errors(c);
    assert ElementOrder !in Errors(c) && CardTheme !in Errors(c);
    assert GreekFontSize !in Errors(c) && HebrewFontSize !in Errors(c) && SpanishFontSize !in Errors(c);
    assert StrongsFontSize !in Errors(c) && GrammarFontSize !in Errors(c) && PronunciationFontSize !in Errors(c);
    assert CardPadding !in Errors(c) && CardSpacing !in Errors(c);
  }

  /**
   * The column defaults of the table, with the session and the name that
   * `create_default_config` sets: "My Configuration" for a session,
   * "Default Configuration" for the shared row.
   */
  function Seed(id: nat, sessionId: Option<string>): (c: Config)
    ensures c.id == id && c.sessionId == sessionId
    ensures c.name == Some(if sessionId.Some? then SessionName else DefaultName)
  {
    Config(
      id, sessionId, Some(if sessionId.Some? then SessionName else DefaultName),
      true, true, true, true, true, false, false,
      "spanish", "greek", 1,
      100, 100, 100, 100, 100, 100,
      100, 100, "default")
  }

  /** `create!` with the seed never raises: the seed passes every validation. */
  lemma SeedValid(id: nat, sessionId: Option<string>)
    ensures IsValid(Seed(id, sessionId))
  {
    var c := Seed(id, sessionId);
    assert !IsSpace(c.name.value[0]);
    assert "spanish" != "greek";
  }

  // ---------------------------------------------------------------------------
  // Settings hashes

  /** The symbol keys of the settings hashes, grouped by the hash that carries them. */
  datatype DisplayKey = ShowGreek | ShowHebrew | ShowSpanish | ShowStrongs | ShowGrammar | ShowPronunciation | ShowWordOrder
  datatype LayoutKey = PrimaryLanguageKey | SecondaryLanguageKey | ElementOrderKey | CardThemeKey
  datatype FontKey = GreekFont | HebrewFont | SpanishFont | StrongsFont | GrammarFont | PronunciationFont
  datatype AppearanceKey = CardPaddingKey | CardSpacingKey
  datatype SettingKey = Display(d: DisplayKey) | Layout(l: LayoutKey) | Font(f: FontKey) | Appearance(a: AppearanceKey)

  datatype SettingValue = BoolValue(b: bool) | IntValue(i: int) | TextValue(s: string)

  type Settings = map<SettingKey, SettingValue>

  /** The column each setting key names, read from the configuration. */
  function SettingOf(c: Config, k: SettingKey): (r: SettingValue)
    ensures r.BoolValue? <==> k.Display?
  {
    match k
    case Display(ShowGreek) => BoolValue(c.showGreek)
    case Display(ShowHebrew) => BoolValue(c.showHebrew)
    case Display(ShowSpanish) => BoolValue(c.showSpanish)
    case Display(ShowStrongs) => BoolValue(c.showStrongs)
    case Display(ShowGrammar) => BoolValue(c.showGrammar)
    case Display(ShowPronunciation) => BoolValue(c.showPronunciation)
    case Display(ShowWordOrder) => BoolValue(c.showWordOrder)
    case Layout(PrimaryLanguageKey) => TextValue(c.primaryLanguage)
    case Layout(SecondaryLanguageKey) => TextValue(c.secondaryLanguage)
    case Layout(ElementOrderKey) => IntValue(c.elementOrder)
    case Layout(CardThemeKey) => TextValue(c.cardTheme)
    case Font(GreekFont) => IntValue(c.greekFontSize)
    case Font(HebrewFont) => IntValue(c.hebrewFontSize)
    case Font(SpanishFont) => IntValue(c.spanishFontSize)
    case Font(StrongsFont) => IntValue(c.strongsFontSize)
    case Font(GrammarFont) => IntValue(c.grammarFontSize)
    case Font(PronunciationFont) => IntValue(c.pronunciationFontSize)
    case Appearance(CardPaddingKey) => IntValue(c.cardPadding)
    case Appearance(CardSpacingKey) => IntValue(c.cardSpacing)
  }

  /**
   * The numbers the hashes report for a valid configuration are within the
   * validated ranges: the element order in 1..6, a font size in 50..200,
   * padding and spacing in 50..150.
   */
  lemma ValidSettingsInRange(c: Config, k: SettingKey)
    requires IsValid(c)
    ensures k == Layout(ElementOrderKey) ==> 1 <= SettingOf(c, k).i <= 6
    ensures k.Font? ==> FontSizeOk(SettingOf(c, k).i)
    ensures k.Appearance? ==> CardScaleOk(SettingOf(c, k).i)
  {
    NothingFails(c);
  }

  /** `display_settings_hash`: the seven visibility toggles. */
  function DisplaySettingsHash(c: Config): (r: Settings)
    ensures forall k :: k in r ==> k.Display?
    ensures forall k :: k in r ==> r[k] == SettingOf(c, k)
  {
    map[
      Display(ShowGreek) := BoolValue(c.showGreek),
      Display(ShowHebrew) := BoolValue(c.showHebrew),
      Display(ShowSpanish) := BoolValue(c.showSpanish),
      Display(ShowStrongs) := BoolValue(c.showStrongs),
      Display(ShowGrammar) := BoolValue(c.showGrammar),
      Display(ShowPronunciation) := BoolValue(c.showPronunciation),
      Display(ShowWordOrder) := BoolValue(c.showWordOrder)]
  }

  /** `layout_settings_hash`: language roles, element order and theme. */
  function LayoutSettingsHash(c: Config): (r: Settings)
    ensures forall k :: k in r ==> k.Layout?
    ensures forall k :: k in r ==> r[k] == SettingOf(c, k)
  {
    map[
      Layout(PrimaryLanguageKey) := TextValue(c.primaryLanguage),
      Layout(SecondaryLanguageKey) := TextValue(c.secondaryLanguage),
      Layout(ElementOrderKey) := IntValue(c.elementOrder),
      Layout(CardThemeKey) := TextValue(c.cardTheme)]
  }

  /** `font_settings_hash`: the six font sizes. */
  function FontSettingsHash(c: Config): (r: Settings)
    ensures forall k :: k in r ==> k.Font?
    ensures forall k :: k in r ==> r[k] == SettingOf(c, k)
  {
    map[
      Font(GreekFont) := IntValue(c.greekFontSize),
      Font(HebrewFont) := IntValue(c.hebrewFontSize),
      Font(SpanishFont) := IntValue(c.spanishFontSize),
      Font(StrongsFont) := IntValue(c.strongsFontSize),
      Font(GrammarFont) := IntValue(c.grammarFontSize),
      Font(PronunciationFont) := IntValue(c.pronunciationFontSize)]
  }

  /** `appearance_settings_hash`: padding and spacing. */
  function AppearanceSettingsHash(c: Config): (r: Settings)
    ensures forall k :: k in r ==> k.Appearance?
    ensures forall k :: k in r ==> r[k] == SettingOf(c, k)
  {
    map[Appearance(CardPaddingKey) := IntValue(c.cardPadding), Appearance(CardSpacingKey) := IntValue(c.cardSpacing)]
  }

  /**
   * `complete_settings_hash`: the four hashes merged. Their keys are disjoint,
   * so the merge keeps every entry of every part and overrides none.
   */
  function CompleteSettingsHash(c: Config): (r: Settings)
    ensures r.Keys == DisplaySettingsHash(c).Keys + LayoutSettingsHash(c).Keys
                      + FontSettingsHash(c).Keys + AppearanceSettingsHash(c).Keys
    ensures forall k :: k in DisplaySettingsHash(c) ==> r[k] == DisplaySettingsHash(c)[k]
    ensures forall k :: k in LayoutSettingsHash(c) ==> r[k] == LayoutSettingsHash(c)[k]
    ensures forall k :: k in FontSettingsHash(c) ==> r[k] == FontSettingsHash(c)[k]
    ensures forall k :: k in AppearanceSettingsHash(c) ==> r[k] == AppearanceSettingsHash(c)[k]
    ensures forall k :: k in r ==> r[k] == SettingOf(c, k)
  {
    var d, l, f, a := DisplaySettingsHash(c), LayoutSettingsHash(c), FontSettingsHash(c), AppearanceSettingsHash(c);
    d + l + f + a
  }

  /**
   * Every setting key is in the hash of its group, and so in the complete
   * hash, with the value of the column it names: no column is left out.
   */
  lemma SettingsHashesCoverKeys(c: Config, k: SettingKey)
    ensures k.Display? ==> k in DisplaySettingsHash(c)
    ensures k.Layout? ==> k in LayoutSettingsHash(c)
    ensures k.Font? ==> k in FontSettingsHash(c)
    ensures k.Appearance? ==> k in AppearanceSettingsHash(c)
    ensures k in CompleteSettingsHash(c) && CompleteSettingsHash(c)[k] == SettingOf(c, k)
  {
    match k
    case Display(d) =>
      match d {
        case ShowGreek => case ShowHebrew => case ShowSpanish => case ShowStrongs =>
        case ShowGrammar => case ShowPronunciation => case ShowWordOrder =>
      }
    case Layout(l) =>
      match l {
        case PrimaryLanguageKey => case SecondaryLanguageKey => case ElementOrderKey => case CardThemeKey =>
      }
    case Font(f) =>
      match f {
        case GreekFont => case HebrewFont => case SpanishFont => case StrongsFont =>
        case GrammarFont => case PronunciationFont =>
      }
    case Appearance(a) =>
      match a {
        case CardPaddingKey => case CardSpacingKey =>
      }
  }

  // ---------------------------------------------------------------------------
  // Arrangement of a word's elements

  /** One displayed element of a word (the `type`, `text`, `color_class`, `font_size` hash). */
  datatype Element = Element(kind: string, text: string, colorClass: string, fontSize: int)

  const Placeholder: string := "\U{2014}"

  /**
   * `language_element_for`: the element a language role yields for a word, if
   * any. Greek and Hebrew need their toggle and a present form; Spanish needs
   * only its toggle and shows a muted dash when the translation is blank; an
   * unknown language yields nothing.
   */
  function LanguageElementFor(c: Config, language: string, w: Word): (r: Option<Element>)
    ensures language == "greek" ==> (r.Some? <==> c.showGreek && Present(w.greekWord))
    ensures language == "greek" && r.Some? ==>
              r.value == Element("greek", w.greekWord.value, "text-sky-300", c.greekFontSize)
    ensures language == "hebrew" ==> (r.Some? <==> c.showHebrew && Present(w.hebrewWord))
    ensures language == "hebrew" && r.Some? ==>
              r.value == Element("hebrew", w.hebrewWord.value, "text-orange-300", c.hebrewFontSize)
    ensures language == "spanish" ==> (r.Some? <==> c.showSpanish)
    ensures language == "spanish" && r.Some? ==>
              r.value.kind == "spanish" && r.value.fontSize == c.spanishFontSize
    ensures language == "spanish" && r.Some? && Present(w.spanishTranslation) ==>
              r.value.text == w.spanishTranslation.value && r.value.colorClass == "text-white"
    ensures language == "spanish" && r.Some? && !Present(w.spanishTranslation) ==>
              r.value.text == Placeholder && r.value.colorClass == "text-gray-400"
    ensures language !in Languages ==> r.None?
    ensures r.Some? ==> r.value.kind == language
  {
    if language == "greek" then
      if c.showGreek && Present(w.greekWord) then
        Some(Element("greek", w.greekWord.value, "text-sky-300", c.greekFontSize))
      else None
    else if language == "hebrew" then
      if c.showHebrew && Present(w.hebrewWord) then
        Some(Element("hebrew", w.hebrewWord.value, "text-orange-300", c.hebrewFontSize))
      else None
    else if language == "spanish" then
      if c.showSpanish then
        var present := Present(w.spanishTranslation);
        Some(Element("spanish",
                     if present then w.spanishTranslation.value else Placeholder,
                     if present then "text-white" else "text-gray-400",
                     c.spanishFontSize))
      else None
    else None
  }

  /** The three positions the element order permutes. */
  datatype Slot = Primary | Secondary | Spanish

  /**
   * The fixed table of six orders over (primary, secondary, spanish); any
   * other value behaves as order 1.
   */
  function Arrangement(order: int): (r: seq<Slot>)
    ensures |r| == 3 && multiset(r) == multiset{Primary, Secondary, Spanish}
    ensures !(1 <= order <= 6) ==> r == [Primary, Secondary, Spanish]
  {
    if order == 2 then [Spanish, Primary, Secondary]
    else if order == 3 then [Primary, Spanish, Secondary]
    else if order == 4 then [Secondary, Primary, Spanish]
    else if order == 5 then [Spanish, Secondary, Primary]
    else if order == 6 then [Secondary, Spanish, Primary]
    else [Primary, Secondary, Spanish]
  }

  function SlotLabel(s: Slot): string {
    match s
    case Primary => "Primary"
    case Secondary => "Secondary"
    case Spanish => "Spanish"
  }

  /** `element_order_name`: a label for each of the six orders, "Unknown" otherwise. */
  function ElementOrderName(order: int): (r: string)
    ensures r == "Unknown" <==> !(1 <= order <= 6)
  {
    if order == 1 then "Primary \U{2192} Secondary \U{2192} Spanish"
    else if order == 2 then "Spanish \U{2192} Primary \U{2192} Secondary"
    else if order == 3 then "Primary \U{2192} Spanish \U{2192} Secondary"
    else if order == 4 then "Secondary \U{2192} Primary \U{2192} Spanish"
    else if order == 5 then "Spanish \U{2192} Secondary \U{2192} Primary"
    else if order == 6 then "Secondary \U{2192} Spanish \U{2192} Primary"
    else "Unknown"
  }

  /** The element the word offers for one slot of the arrangement. */
  function SlotElement(c: Config, w: Word, slot: Slot): Option<Element> {
    match slot
    case Primary => LanguageElementFor(c, c.primaryLanguage, w)
    case Secondary => LanguageElementFor(c, c.secondaryLanguage, w)
    case Spanish => LanguageElementFor(c, "spanish", w)
  }

  /**
   * The three candidates in the configured order, before `compact`. Primary and
   * Spanish are computed independently, so a primary role of "spanish" yields
   * the Spanish element twice.
   */
  function Candidates(c: Config, w: Word): (r: seq<Option<Element>>)
    ensures |r| == 3
    ensures forall i :: 0 <= i < 3 ==> r[i] == SlotElement(c, w, Arrangement(c.elementOrder)[i])
  {
    var order := Arrangement(c.elementOrder);
    var r := [SlotElement(c, w, order[0]), SlotElement(c, w, order[1]), SlotElement(c, w, order[2])];
    assert r[0] == SlotElement(c, w, order[0]) && r[1] == SlotElement(c, w, order[1]) && r[2] == SlotElement(c, w, order[2]);
    r
  }

  /**
   * `arranged_word_elements`: the permuted candidates with the missing ones
   * dropped; at most three elements, each of a known language.
   */
  function ArrangedWordElements(c: Config, w: Word): (r: seq<Element>)
    ensures |r| <= 3
    ensures forall e :: e in r ==> e.kind in Languages
  {
    var cs := Candidates(c, w);
    assert forall o :: o in cs && o.Some? ==> o.value.kind in Languages by {
      forall o | o in cs && o.Some? ensures o.value.kind in Languages {
        var i :| 0 <= i < 3 && cs[i] == o;
      }
    }
    Somes(cs)
  }

  /**
   * When all three candidates exist, nothing is dropped: position i holds the
   * element of the i-th slot of the configured order.
   */
  lemma ArrangementFollowsTable(c: Config, w: Word)
    requires SlotElement(c, w, Primary).Some? && SlotElement(c, w, Secondary).Some?
    requires c.showSpanish
    ensures |ArrangedWordElements(c, w)| == 3
    ensures forall i :: 0 <= i < 3 ==>
              ArrangedWordElements(c, w)[i] == SlotElement(c, w, Arrangement(c.elementOrder)[i]).value
  {
    CandidatesPresent(c, w);
    SomesAllPresent(Candidates(c, w));
  }

  /** With all three slots filled, every candidate is present and is its slot's element. */
  lemma CandidatesPresent(c: Config, w: Word)
    requires SlotElement(c, w, Primary).Some? && SlotElement(c, w, Secondary).Some?
    requires c.showSpanish
    ensures forall i :: 0 <= i < 3 ==> Candidates(c, w)[i] == SlotElement(c, w, Arrangement(c.elementOrder)[i])
    ensures forall i :: 0 <= i < 3 ==> Candidates(c, w)[i].Some?
  {
    assert SlotElement(c, w, Spanish).Some?;
  }

  /** The configuration with the toggle of one language turned off. */
  function WithoutLanguage(c: Config, language: string): (r: Config)
    ensures r.showGreek == (c.showGreek && language != "greek")
    ensures r.showHebrew == (c.showHebrew && language != "hebrew")
    ensures r.showSpanish == (c.showSpanish && language != "spanish")
    ensures r.primaryLanguage == c.primaryLanguage && r.secondaryLanguage == c.secondaryLanguage
    ensures r.elementOrder == c.elementOrder
    ensures r.greekFontSize == c.greekFontSize && r.hebrewFontSize == c.hebrewFontSize
    ensures r.spanishFontSize == c.spanishFontSize
  {
    if language == "greek" then c.(showGreek := false)
    else if language == "hebrew" then c.(showHebrew := false)
    else if language == "spanish" then c.(showSpanish := false)
    else c
  }

  /** Removing one language's toggle masks exactly the elements of that language. */
  lemma RoleWithoutLanguage(c: Config, language: string, role: string, w: Word)
    requires language in Languages
    ensures var e := LanguageElementFor(c, role, w);
            LanguageElementFor(WithoutLanguage(c, language), role, w)
              == if e.Some? && e.value.kind == language then None else e
  {
    RoleWithout(c, WithoutLanguage(c, language), language, role, w);
  }

  /** A configuration whose toggles differ from `c` only in switching `language` off. */
  lemma RoleWithout(c: Config, c': Config, language: string, role: string, w: Word)
    requires language in Languages
    requires c'.showGreek == (c.showGreek && language != "greek")
    requires c'.showHebrew == (c.showHebrew && language != "hebrew")
    requires c'.showSpanish == (c.showSpanish && language != "spanish")
    requires c'.greekFontSize == c.greekFontSize && c'.hebrewFontSize == c.hebrewFontSize
    requires c'.spanishFontSize == c.spanishFontSize
    ensures var e := LanguageElementFor(c, role, w);
            LanguageElementFor(c', role, w) == if e.Some? && e.value.kind == language then None else e
  {
    if role == "greek" {
    } else if role == "hebrew" {
    } else if role == "spanish" {
    }
  }

  lemma SlotWithoutLanguage(c: Config, language: string, slot: Slot, w: Word)
    requires language in Languages
    ensures var e := SlotElement(c, w, slot);
            SlotElement(WithoutLanguage(c, language), w, slot)
              == if e.Some? && e.value.kind == language then None else e
  {
    var c' := WithoutLanguage(c, language);
    assert c'.primaryLanguage == c.primaryLanguage && c'.secondaryLanguage == c.secondaryLanguage;
    match slot
    case Primary => RoleWithoutLanguage(c, language, c.primaryLanguage, w);
    case Secondary => RoleWithoutLanguage(c, language, c.secondaryLanguage, w);
    case Spanish => RoleWithoutLanguage(c, language, "spanish", w);
  }

  /**
   * Turning one language's toggle off removes exactly that language's elements
   * and keeps every other element in its place relative to the rest.
   */
  lemma ToggleOffRemovesOnlyThatLanguage(c: Config, w: Word, language: string)
    requires language in Languages
    ensures ArrangedWordElements(WithoutLanguage(c, language), w)
         == Filter(ArrangedWordElements(c, w), (e: Element) => e.kind != language)
  {
    var keep := (e: Element) => e.kind != language;
    var c' := WithoutLanguage(c, language);
    var order := Arrangement(c.elementOrder);
    var cs, cs' := Candidates(c, w), Candidates(c', w);
    var m := Mask(cs, keep);
    forall i | 0 <= i < 3
      ensures cs'[i] == m[i]
    {
      assert cs[i] == SlotElement(c, w, order[i]) && cs'[i] == SlotElement(c', w, order[i]);
      SlotWithoutLanguage(c, language, order[i], w);
    }
    assert cs' == m;
    SomesOfMask(cs, keep);
  }

  /**
   * The seeded configuration has primary role "spanish": with order 1 a word
   * with a Greek form shows Spanish, Greek, Spanish.
   */
  lemma SeedShowsSpanishTwice(w: Word, sessionId: Option<string>)
    requires Present(w.greekWord)
    ensures var spanish := LanguageElementFor(Seed(0, sessionId), "spanish", w).value;
            ArrangedWordElements(Seed(0, sessionId), w)
              == [spanish, Element("greek", w.greekWord.value, "text-sky-300", 100), spanish]
  {
    var cs := SeedCandidates(w, sessionId);
    SomesAllPresent(cs);
    var r := Somes(cs);
    assert |r| == 3 && r[0] == cs[0].value && r[1] == cs[1].value && r[2] == cs[2].value;
    assert r == [cs[0].value, cs[1].value, cs[2].value];
  }

  /** The seeded roles and order 1 give the candidates Spanish, Greek, Spanish. */
  lemma SeedCandidates(w: Word, sessionId: Option<string>) returns (cs: seq<Option<Element>>)
    requires Present(w.greekWord)
    ensures cs == Candidates(Seed(0, sessionId), w)
    ensures var spanish := LanguageElementFor(Seed(0, sessionId), "spanish", w);
            spanish.Some? && cs == [spanish, Some(Element("greek", w.greekWord.value, "text-sky-300", 100)), spanish]
  {
    var c := Seed(0, sessionId);
    assert c.primaryLanguage == "spanish" && c.secondaryLanguage == "greek" && c.elementOrder == 1;
    assert Arrangement(c.elementOrder) == [Primary, Secondary, Spanish];
    cs := Candidates(c, w);
  }

  // ---------------------------------------------------------------------------
  // Lookup-or-create per session

  /** `for_session(session_id).first`: the earliest row with that session (nil matches nil). */
  function FirstForSession(rows: seq<Config>, sessionId: Option<string>): (r: Option<Config>)
    ensures r.Some? ==> r.value in rows && r.value.sessionId == sessionId
    ensures r.None? <==> forall x :: x in rows ==> x.sessionId != sessionId
    ensures r.Some? ==> exists i :: 0 <= i < |rows| && rows[i] == r.value &&
                          forall j :: 0 <= j < i ==> rows[j].sessionId != sessionId
  {
    var k := FirstSessionIndex(rows, sessionId, 0);
    if k == |rows| then None else Some(rows[k])
  }

  /** The position of the first row from `from` on with that session, or `|rows|`. */
  function FirstSessionIndex(rows: seq<Config>, sessionId: Option<string>, from: nat): (k: nat)
    requires from <= |rows|
    ensures from <= k <= |rows|
    ensures forall j :: from <= j < k ==> rows[j].sessionId != sessionId
    ensures k < |rows| ==> rows[k].sessionId == sessionId
    decreases |rows| - from
  {
    if from == |rows| || rows[from].sessionId == sessionId then from
    else FirstSessionIndex(rows, sessionId, from + 1)
  }

  /** `default_config.first`: the earliest shared row named "Default Configuration". */
  function FirstDefault(rows: seq<Config>): (r: Option<Config>)
    ensures r.Some? ==> r.value in rows && IsDefault(r.value)
    ensures r.None? <==> forall x :: x in rows ==> !IsDefault(x)
    ensures r.Some? ==> exists i :: 0 <= i < |rows| && rows[i] == r.value &&
                          forall j :: 0 <= j < i ==> !IsDefault(rows[j])
  {
    var k := FirstDefaultIndex(rows, 0);
    if k == |rows| then None else Some(rows[k])
  }

  /** A shared row named "Default Configuration" (`default_config`). */
  predicate IsDefault(x: Config) {
    x.sessionId.None? && x.name == Some(DefaultName)
  }

  /** The position of the first shared default row from `from` on, or `|rows|`. */
  function FirstDefaultIndex(rows: seq<Config>, from: nat): (k: nat)
    requires from <= |rows|
    ensures from <= k <= |rows|
    ensures forall j :: from <= j < k ==> !IsDefault(rows[j])
    ensures k < |rows| ==> IsDefault(rows[k])
    decreases |rows| - from
  {
    if from == |rows| || IsDefault(rows[from]) then from
    else FirstDefaultIndex(rows, from + 1)
  }

  /** The two-step lookup: the session's row, else the shared default row. */
  function Lookup(rows: seq<Config>, sessionId: Option<string>): (r: Option<Config>)
    ensures r.Some? ==> r.value in rows && (r.value.sessionId == sessionId || IsDefault(r.value))
    ensures (exists x :: x in rows && x.sessionId == sessionId) ==> r.Some? && r.value.sessionId == sessionId
    ensures r.None? <==> forall x :: x in rows ==> x.sessionId != sessionId && !IsDefault(x)
  {
    var mine := FirstForSession(rows, sessionId);
    if mine.Some? then mine else FirstDefault(rows)
  }

  /** The `interlinear_configs` table, rows in id order. */
  class ConfigTable {
    var rows: seq<Config>
    var nextId: nat

    /** Ids strictly increase along the table and stay below `nextId`. */
    ghost predicate Valid()
      reads this
    {
      && (forall i :: 0 <= i < |rows| ==> rows[i].id < nextId)
      && (forall i, j :: 0 <= i < j < |rows| ==> rows[i].id < rows[j].id)
    }

    constructor ()
      ensures Valid() && rows == [] && nextId == 1
    {
      rows := [];
      nextId := 1;
    }

    /** `create_default_config`: appends one valid seeded row for the session. */
    method CreateDefaultConfig(sessionId: Option<string>) returns (c: Config)
      requires Valid()
      modifies this
      ensures Valid()
      ensures c == Seed(old(nextId), sessionId) && IsValid(c)
      ensures rows == old(rows) + [c]
      ensures nextId == old(nextId) + 1
    {
      c := Seed(nextId, sessionId);
      SeedValid(nextId, sessionId);
      rows := rows + [c];
      nextId := nextId + 1;
    }

    /**
     * `for_session_or_default`: the session's row if one exists, else the
     * shared default row, else a new row created for the session. Afterwards
     * the same lookup finds the returned row, so a second call creates nothing.
     */
    method ForSessionOrDefault(sessionId: Option<string>) returns (c: Config)
      requires Valid()
      modifies this
      ensures Valid()
      ensures old(Lookup(rows, sessionId)).Some? ==>
                c == old(Lookup(rows, sessionId)).value && rows == old(rows) && nextId == old(nextId)
      ensures old(Lookup(rows, sessionId)).None? ==>
                c == Seed(old(nextId), sessionId) && rows == old(rows) + [c] && nextId == old(nextId) + 1
      ensures Lookup(rows, sessionId) == Some(c)
    {
      var mine := FirstForSession(rows, sessionId);
      if mine.Some? {
        c := mine.value;
        return;
      }
      var shared := FirstDefault(rows);
      if shared.Some? {
        c := shared.value;
        return;
      }
      c := CreateDefaultConfig(sessionId);
      assert FirstForSession(rows, sessionId) == Some(c) by {
        assert rows == old(rows) + [c];
        FirstForSessionAppend(old(rows), c);
      }
    }
  }

  /** A row appended for a session that had none is that session's first row. */
  lemma FirstForSessionAppend(rows: seq<Config>, c: Config)
    requires forall x :: x in rows ==> x.sessionId != c.sessionId
    ensures FirstForSession(rows + [c], c.sessionId) == Some(c)
  {
  }
}
