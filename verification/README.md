# Interlineal reader — a verified model

Interlineal is a Rails application for reading the Bible interlinearly. Each
verse is shown word by word. A word carries its Greek or Hebrew form, its
Spanish translation, grammar and a link to a Strong's lexicon entry. This
project models the application's core in Dafny and proves what that core
promises.

- **The reference hierarchy** (`Corpus`, `Books`, `Chapters`, `Verses`,
  `Words`, `Strongs`).
  - The store is five tables of rows. The uniqueness rules of the
    validations and indexes are predicates over it.
  - Neighbour navigation inside a book or chapter is proved to tolerate gaps
    in the numbering.
  - The derived strings are specified. The language tag, the display
    helpers, the references and `full_definition` are given exactly.
    `searchable_text` is given field by field: which fields occur, the empty
    text when none is present, the exact text when all are present, and
    the order in which one more field is appended (`Text.CompactJoinSnoc`).
  - The `touch_chapter` callback is a class, `Verses.VerseStore`, whose
    update bumps the chapter's version.
- **The interlinear display configuration** (`InterlinearConfigs`).
  - The validations and the settings hashes.
  - The per-session lookup-or-create over a `ConfigTable` class.
  - The arrangement of a word's primary, secondary and Spanish elements by a
    fixed table of six orders.
- **The reading controller** (`BibleController`).
  - The `set_book`, `set_chapter` and `set_verse` not-found chain, and where
    `index` sends the reader.
  - The neighbour links of a verse page and the three-way search.
  - The word-display settings read from the session.
  - A `BibleView` class whose methods assign the actions' instance variables.
- **The settings controller** (`SettingsController`, `SessionStore`).
  - Merging the session hash over the defaults.
  - The checkbox coercion of `update` and the defaults stored by `reset`.
  - How `current_verse_words` finds the verse being read.
  - A `SettingsSession` class for the session and `@settings`.
- **The navigation picker** (`NavigationController`).
  - The `load_navigation_data` filter and `select_book` / `select_chapter`,
    with their fallback to the first book, as methods of a `Picker` class
    that assign its instance variables in the source's order.
  - `update`'s choice between top-level and form parameters.

`Seqs` and `Text` hold the generic pieces:
- filter, `LIMIT`, `compact`, `uniq` by key, a stable sort and min/max
  selection;
- Ruby's `blank?`/`present?`, `strip`, `join`, `to_s`, `to_i` and
  unanchored regular-expression matching.

**Where the repository's tests and the code disagree, the model follows the
code.**

| code | test that expects otherwise | what the model proves |
|---|---|---|
| `Word#language` prefers a present Hebrew form over the stored column | `spec/models/word_spec.rb:187-190` | `Words.Language` |
| `Strong` has no Hebrew handling: `display_number` always prefixes "G" and `hebrew_word` is never required | `spec/models/strong_spec.rb:28-32`, `:94-97`, `:143-151` | `Strongs.DisplayNumber`, `Strongs.ValidStrong` |
| search matches only verse text, word forms and translations, and lexicon definitions, never a Strong's number | `spec/controllers/bible_controller_spec.rb:176-180` | `BibleController.UnmatchedQueryFindsNothing` |
| `default_settings` has no `show_hebrew` key | `spec/controllers/settings_controller_spec.rb:113` | `SettingsController.DefaultSettings` |
| `update` permits only the display keys, so a submitted `show_hebrew` is dropped and never stored | `spec/controllers/settings_controller_spec.rb:44` | `SettingsController.UpdatedSettings` |
| `params.require(:settings)` raises `ActionController::ParameterMissing` when `settings` is absent; nothing redirects | `spec/controllers/settings_controller_spec.rb:65-68` | `SettingsController.UpdateResponse` |

Search results are sorted by book *name*, then chapter and verse number, not
in canonical book order (`BibleController.ResultLe`). `Book.by_name`, by
contrast, orders by id (`Books.ByNameIsNotAlphabetical`).

**Modelling choices.**
- Unordered `.first` on a query is the row with the smallest id. That is the
  primary-key order Rails uses. It does not hold for an association that
  was preloaded without an order: `index` reads `chapters.first` from
  `Book.includes(:chapters)`, whose rows come back in unspecified order (see
  "Left out").
- Store order stands for the unspecified order of an unordered query, so a
  `LIMIT 50` takes the first 50 matching rows in store order.
- Request parameters are strings. Casting one to an integer column takes the
  value of its leading digits, and a parameter without a leading digit names
  no row (`BibleController.ParamToNat`).
- `uniq` on records compares ids, as Active Record equality does, so the
  model de-duplicates verses by id.
- A raised exception is an error value (`Result`, `ok == false`). The
  exceptions modelled are those each member's row names. The request-format
  error of `respond_to` and the errors from a non-hash parameter are not
  modelled (see "Left out").

## Model

| member | source | states |
|---|---|---|
| Books.NewTestament | app/models/book.rb:13 | exactly the books whose testament is "NT" |
| Books.OldTestament | app/models/book.rb:14 | exactly the books whose testament is "OT" |
| Books.TestamentsPartition | app/models/book.rb:10-14 | when every book is valid, the two scopes together count every book exactly once |
| Books.ByName | app/models/book.rb:15 | a permutation of the books in non-decreasing id order |
| Books.ByNameIsNotAlphabetical | app/models/book.rb:15 | "Genesis" (id 1) comes before "Exodo" (id 2), against alphabetical order |
| Books.First | app/models/book.rb:15 | None exactly when there is no book; otherwise a stored book whose id is minimal |
| Books.FullName | app/models/book.rb:18-20 | the name, " (", the abbreviation ("" when nil), ")", with position and length |
| Books.ValidBook | app/models/book.rb:8-10 | the name is not blank, the abbreviation is present and the testament is "OT" or "NT"; a valid book is in exactly one of the two testament scopes |
| Chapters.ChaptersOf | app/models/chapter.rb:13 | exactly the stored chapters of the book |
| Chapters.NextChapter | app/models/chapter.rb:28-30 | None iff no chapter of the same book has a larger number; otherwise a chapter of the same book with the least larger number |
| Chapters.PreviousChapter | app/models/chapter.rb:32-34 | None iff no chapter of the same book has a smaller number; otherwise a chapter of the same book with the greatest smaller number |
| Chapters.SameNumberSameChapter | app/models/chapter.rb:9 | with numbers unique per book, the book and number identify the chapter |
| Chapters.PreviousOfNext | app/models/chapter.rb:28-34 | with unique numbers, the previous of the next chapter is the chapter itself, whatever the gaps |
| Chapters.NextOfPrevious | app/models/chapter.rb:28-34 | with unique numbers, the next of the previous chapter is the chapter itself |
| Chapters.ChaptersByNumber | app/models/chapter.rb:12 | a permutation of the book's chapters in non-decreasing number order |
| Chapters.FindByNumber | app/controllers/navigation_controller.rb:27 | a chapter of the book with that number, or None when the book has none |
| Chapters.FullReference | app/models/chapter.rb:16-18 | the book name, a space, then the chapter number's decimal text |
| Chapters.FullReferenceInjective | app/models/chapter.rb:16-18 | within a book, equal references mean equal chapter numbers |
| Chapters.ValidChapter | app/models/chapter.rb:8 | defines the validation: a positive chapter number (uniqueness per book is `Corpus.ChapterNumbersUnique`) |
| Verses.VersesOf | app/models/verse.rb:13 | exactly the stored verses of the chapter |
| Verses.NextVerse | app/models/verse.rb:25-27 | None iff no verse of the same chapter has a larger number; otherwise the one with the least larger number |
| Verses.PreviousVerse | app/models/verse.rb:29-31 | None iff no verse of the same chapter has a smaller number; otherwise the one with the greatest smaller number |
| Verses.SameNumberSameVerse | app/models/verse.rb:9 | with numbers unique per chapter, the chapter and number identify the verse |
| Verses.PreviousOfNext | app/models/verse.rb:25-31 | with unique numbers, next then previous returns to the same verse, whatever the gaps |
| Verses.NextOfPrevious | app/models/verse.rb:25-31 | with unique numbers, previous then next returns to the same verse |
| Verses.VersesByNumber | app/models/verse.rb:12 | a permutation of the chapter's verses in non-decreasing number order |
| Verses.FindByNumber | app/controllers/bible_controller.rb:177-178 | a verse of the chapter with that number, or None when the chapter has none |
| Verses.WordsByOrder | app/models/verse.rb:33-35 | a permutation of exactly the verse's words, in non-decreasing word order |
| Verses.WordsWithStrongs | app/models/verse.rb:37-39 | the same words in the same order, each paired with its lexicon entry or None |
| Verses.FullReference | app/models/verse.rb:17-19 | the chapter's reference, ":", then the verse number |
| Verses.FullReferenceInjective | app/models/verse.rb:17-19 | within a chapter, equal references mean equal verse numbers |
| Verses.Touch | app/models/verse.rb:47-53 | the touched chapter's version grows; every other field, and every other chapter, is unchanged |
| Verses.VerseStore.constructor | app/models/verse.rb:47-53 | the tables as given, valid |
| Verses.VerseStore.UpdateSpanishText | app/models/verse.rb:47-53 | the save succeeds iff the verse's chapter exists; then only that verse's text changes and its chapter is touched; otherwise nothing changes; validity is kept |
| Verses.ValidVerse | app/models/verse.rb:8 | defines the validation: a positive verse number (uniqueness per chapter is `Corpus.VerseNumbersUnique`) |
| Words.Language | app/models/word.rb:70-78 | "hebrew" when a Hebrew form is present, else "greek" when a Greek form is present, else the stored column |
| Words.DisplayOrNA | app/models/word.rb:27-37 | the field when present, else "N/A"; never blank |
| Words.DisplayStrong | app/models/word.rb:39-49 | "N/A" without a number; otherwise the number after a prefix that is "H" iff a Hebrew form is present and "G" otherwise |
| Words.DisplayStrongMatchesLanguage | app/models/word.rb:39-78 | for a word with a number and a source form, the "H" prefix appears iff the language is "hebrew" |
| Words.HasStrongDefinition | app/models/word.rb:51-53 | true iff some lexicon entry carries the word's Strong's number |
| Words.StrongDefinition | app/models/word.rb:55-57 | None iff there is no entry; otherwise the `full_definition` of an entry with that number |
| Words.SearchableText | app/models/word.rb:59-68 | every non-nil field among the six occurs in the text; all nil gives "" |
| Words.SearchableTextAllPresent | app/models/word.rb:59-68 | with all six fields present, exactly the six in order, joined by single spaces |
| Words.FullReference | app/models/word.rb:23-25 | the verse's reference, ":", then the word order |
| Words.FullReferenceInjective | app/models/word.rb:23-25 | within a verse, equal references mean equal word orders |
| Words.ValidWord | app/models/word.rb:9 | defines the validation: a positive word order (uniqueness per verse is `Corpus.WordOrdersUnique`) |
| Words.DisplayGreek | app/models/word.rb:27-29 | the Greek form when it is present, otherwise "N/A"; never blank |
| Words.DisplayHebrew | app/models/word.rb:31-33 | the Hebrew form when it is present, otherwise "N/A"; never blank |
| Words.DisplaySpanish | app/models/word.rb:35-37 | the Spanish translation when it is present, otherwise "N/A"; never blank |
| Strongs.DisplayNumber | app/models/strong.rb:15-17 | "G" followed by the number, for Hebrew entries too |
| Strongs.FullDefinition | app/models/strong.rb:19-24 | "" with no present definition, the one present definition alone, or both joined by "; " |
| Strongs.BuildFullDefinition | app/models/strong.rb:19-24 | building the parts list step by step gives `FullDefinition` |
| Strongs.WordsOf | app/models/strong.rb:3 | exactly the words with the entry's number; none when the entry has no number |
| Strongs.VersesOfWords | app/models/strong.rb:31 | exactly the verses that some word's verse id names |
| Strongs.VersesWithThisWord | app/models/strong.rb:30-32 | stored verses, each owning a word of the entry; every such word's verse is included; no verse twice |
| Strongs.DedupedVersesCoverWords | app/models/strong.rb:31 | `uniq` keeps each word's own verse and adds no verse that no word names |
| Strongs.SearchableText | app/models/strong.rb:34-44 | every non-nil field among the seven occurs in the text; all nil gives "" |
| Strongs.SearchableTextAllPresent | app/models/strong.rb:34-44 | with all seven fields present, exactly the seven in order, joined by single spaces |
| Strongs.ValidStrong | app/models/strong.rb:6-7 | the number and the Greek form are present; a valid entry's `display_number` has at least one character after "G" |
| Corpus.StrongOf | app/models/word.rb:4 | present iff the word has a number and an entry carries it; then that entry |
| Corpus.FindBook | app/controllers/navigation_controller.rb:21 | a stored book with that id, or None exactly when no book has it |
| Corpus.FindBookIn | app/controllers/navigation_controller.rb:21 | a book of the list with that id, or None exactly when none has it |
| Corpus.FindChapter | app/models/verse.rb:3 | a stored chapter with that id, or None exactly when no chapter has it |
| Corpus.FindChapterIn | app/models/verse.rb:3 | a chapter of the list with that id, or None exactly when none has it |
| Corpus.FindVerse | app/controllers/settings_controller.rb:78 | a stored verse with that id, or None exactly when no verse has it |
| Corpus.FindVerseIn | app/controllers/settings_controller.rb:78 | a verse of the list with that id, or None exactly when none has it |
| Corpus.FindStrongIn | app/models/word.rb:4 | an entry of the list with that number, or None exactly when none carries it |
| Corpus.VerseLinked | app/controllers/bible_controller.rb:103 | defines the inner join: the verse's chapter exists and so does that chapter's book |
| Corpus.WordLinked | app/controllers/bible_controller.rb:109 | defines the inner join: the word's verse exists and is linked |
| Corpus.IdsUnique | db/schema.rb:14-60 | defines the primary keys: no two rows of one table share an id |
| Corpus.ChapterNumbersUnique | db/schema.rb:25 | defines the unique index: no two chapters of one book share a number |
| Corpus.VerseNumbersUnique | db/schema.rb:54 | defines the unique index: no two verses of one chapter share a number |
| Corpus.WordOrdersUnique | app/models/word.rb:10 | defines the validation: no two words of one verse share an order |
| Corpus.StrongNumbersUnique | db/schema.rb:46 | defines the unique index: no two entries share a number |
| Corpus.NumbersUnique | db/schema.rb:25-54 | the four uniqueness rules together |
| Corpus.Linked | db/schema.rb:81-84 | defines the foreign keys: every chapter's book, verse's chapter and word's verse exists |
| InterlinearConfigs.Errors | app/models/interlinear_config.rb:3-22 | exactly the attributes whose validation fails |
| InterlinearConfigs.ValidIff | app/models/interlinear_config.rb:3-22 | valid iff the name is present, both roles are known and differ, the order is 1..6, the theme is known, fonts are in 50..200 and padding/spacing in 50..150 |
| InterlinearConfigs.NothingFails | app/models/interlinear_config.rb:3-22 | a valid configuration fails none of the thirteen attribute checks |
| InterlinearConfigs.Seed | app/models/interlinear_config.rb:34-39 | the given id and session, named "My Configuration" with a session and "Default Configuration" without |
| InterlinearConfigs.SeedValid | app/models/interlinear_config.rb:34-39 | the seeded row passes every validation, so `create!` cannot raise |
| InterlinearConfigs.DisplaySettingsHash | app/models/interlinear_config.rb:42-52 | only display keys, each with the value of the column it names |
| InterlinearConfigs.LayoutSettingsHash | app/models/interlinear_config.rb:54-61 | only layout keys, each with the value of the column it names |
| InterlinearConfigs.FontSettingsHash | app/models/interlinear_config.rb:63-72 | only font keys, each with the value of the column it names |
| InterlinearConfigs.AppearanceSettingsHash | app/models/interlinear_config.rb:74-79 | only appearance keys, each with the value of the column it names |
| InterlinearConfigs.CompleteSettingsHash | app/models/interlinear_config.rb:81-86 | the union of the four key sets, with every part's value kept (no merge overrides another), each value that of its column |
| InterlinearConfigs.SettingsHashesCoverKeys | app/models/interlinear_config.rb:42-86 | every one of the nineteen keys is in its group's hash and in the complete hash, with the value of its column |
| InterlinearConfigs.LanguageElementFor | app/models/interlinear_config.rb:125-152 | Greek/Hebrew element iff toggle on and form present, with that text, colour and font; Spanish iff toggle on, "—" in grey for a blank translation; nothing for an unknown language |
| InterlinearConfigs.Arrangement | app/models/interlinear_config.rb:106-114 | a permutation of the three slots; any order outside 1..6 behaves as order 1 |
| InterlinearConfigs.ElementOrderName | app/models/interlinear_config.rb:88-98 | "Unknown" exactly for orders outside 1..6 |
| InterlinearConfigs.Candidates | app/models/interlinear_config.rb:102-113 | three candidates; position i is the element of the i-th slot of the configured order, or none |
| InterlinearConfigs.ArrangedWordElements | app/models/interlinear_config.rb:100-115 | at most three elements, each of a known language |
| InterlinearConfigs.ArrangementFollowsTable | app/models/interlinear_config.rb:100-115 | with all three candidates present, position i holds the element of the order's i-th slot |
| InterlinearConfigs.CandidatesPresent | app/models/interlinear_config.rb:102-113 | with all three slots filled, each candidate is present and is its slot's element |
| InterlinearConfigs.WithoutLanguage | app/models/interlinear_config.rb:128-144 | only that language's toggle is switched off; roles, order and font sizes are kept |
| InterlinearConfigs.RoleWithoutLanguage | app/models/interlinear_config.rb:125-152 | switching a language off removes exactly that language's element for any role |
| InterlinearConfigs.RoleWithout | app/models/interlinear_config.rb:125-152 | the same, for any configuration whose toggles differ only in that language |
| InterlinearConfigs.SlotWithoutLanguage | app/models/interlinear_config.rb:102-104 | the same, slot by slot |
| InterlinearConfigs.ToggleOffRemovesOnlyThatLanguage | app/models/interlinear_config.rb:100-152 | turning one language off filters out exactly its elements and keeps the relative order of the rest |
| InterlinearConfigs.SeedShowsSpanishTwice | app/models/interlinear_config.rb:102-107 | with the seeded roles (primary "spanish") and order 1, a word with a Greek form shows Spanish, Greek, Spanish |
| InterlinearConfigs.SeedCandidates | app/models/interlinear_config.rb:102-107 | the seeded roles and order 1 give the candidates Spanish, Greek, Spanish, all present |
| InterlinearConfigs.FirstForSession | app/models/interlinear_config.rb:25-31 | the earliest row with that session; None iff there is none |
| InterlinearConfigs.FirstSessionIndex | app/models/interlinear_config.rb:25-31 | the first position from `from` on whose row has that session, or the end |
| InterlinearConfigs.FirstDefault | app/models/interlinear_config.rb:26-31 | the earliest shared row named "Default Configuration"; None iff there is none |
| InterlinearConfigs.FirstDefaultIndex | app/models/interlinear_config.rb:26-31 | the first position from `from` on whose row is a shared "Default Configuration", or the end |
| InterlinearConfigs.ConfigTable.constructor | app/models/interlinear_config.rb:29-39 | an empty, valid table |
| InterlinearConfigs.ConfigTable.CreateDefaultConfig | app/models/interlinear_config.rb:34-39 | appends exactly one valid seeded row for the session with a fresh id; ids keep increasing |
| InterlinearConfigs.ConfigTable.ForSessionOrDefault | app/models/interlinear_config.rb:29-32 | the session's row, else the default row, with the table unchanged; otherwise exactly one new seeded row; afterwards the lookup finds the result, so a second call creates nothing |
| InterlinearConfigs.FirstForSessionAppend | app/models/interlinear_config.rb:31 | a row appended for a session that had none is that session's first row |
| InterlinearConfigs.Fails | app/models/interlinear_config.rb:3-22 | defines when each attribute fails its validation; `secondary_language` also fails when it equals the primary one |
| InterlinearConfigs.IsValid | app/models/interlinear_config.rb:3-22 | defines `valid?`: no attribute fails (`ValidIff` spells the conditions out) |
| InterlinearConfigs.SettingOf | app/models/interlinear_config.rb:42-86 | the column each of the 19 hash keys names; a boolean exactly for the seven display keys |
| InterlinearConfigs.ValidSettingsInRange | app/models/interlinear_config.rb:6-19 | for a valid configuration the hashes report an element order in 1..6, font sizes in 50..200, and padding and spacing in 50..150 |
| InterlinearConfigs.IsDefault | app/models/interlinear_config.rb:26 | defines `default_config`: no session and the name "Default Configuration" |
| InterlinearConfigs.Lookup | app/models/interlinear_config.rb:31 | a row of the table that is the session's own or the shared default; the session's row whenever one exists; None exactly when neither exists |
| BibleController.ParamToNat | app/controllers/bible_controller.rb:164-182 | nothing iff the parameter does not start with a digit; otherwise its leading digits' value |
| BibleController.ParamOfNatToString | app/controllers/bible_controller.rb:15 | an id written into a path is read back as the same id |
| BibleController.BookParam | app/controllers/bible_controller.rb:164-168 | a stored book with the parameter's id, or nothing when the cast fails or no book has it |
| BibleController.ResolveVerse | app/controllers/bible_controller.rb:164-182 | found records are linked and carry the parameters' numbers; a missing book redirects to the root with "Book not found"; a missing chapter (iff) to the book; with book and chapter found, a missing verse (iff) to that chapter, and a found verse gives exactly those three records |
| BibleController.ResolveVersePath | app/controllers/bible_controller.rb:164-182 | with unique ids and numbers, any stored verse's address resolves to that verse, chapter and book |
| BibleController.FirstChapterOf | app/controllers/bible_controller.rb:10 | the book's chapter with the smallest id (one legal answer for the unordered preload), None iff the book has none |
| BibleController.FirstVerseOf | app/controllers/bible_controller.rb:11 | the chapter's verse with the smallest id, None iff it has none |
| BibleController.Index | app/controllers/bible_controller.rb:7-20 | redirects iff the first book has a first chapter that has a first verse, and then to that verse's page; the empty state otherwise |
| BibleController.IndexRedirectResolves | app/controllers/bible_controller.rb:7-20 | the address `index` redirects to resolves to the first book's first chapter's first verse |
| BibleController.Navigation | app/controllers/bible_controller.rb:57-60 | the previous/next verse are `Verses.PreviousVerse`/`NextVerse`, present iff a neighbour exists; a neighbouring chapter only on a side without a verse, then the previous/next chapter of the same book |
| BibleController.FirstVerseLinksToPreviousChapter | app/controllers/bible_controller.rb:57-59 | the first verse of a chapter with an earlier chapter links to the nearest earlier chapter |
| BibleController.SpanishResults | app/controllers/bible_controller.rb:103-106 | at most 50 linked verses whose text contains the query; under 50 means all of them |
| BibleController.GreekRows | app/controllers/bible_controller.rb:109-112 | at most 50 linked words whose form or translation contains the query; under 50 means all |
| BibleController.GreekResults | app/controllers/bible_controller.rb:109-114 | at most 50 verses, each owning a matching row; every row's verse present; no verse twice |
| BibleController.WordVersesKeyed | app/controllers/bible_controller.rb:113-114 | after `map(&:verse).uniq`, every linked word's verse id is still present |
| BibleController.VersesOfWordsLength | app/controllers/bible_controller.rb:113 | `map(&:verse)` yields no more verses than words |
| BibleController.StrongRows | app/controllers/bible_controller.rb:117-120 | at most 50 entries, each a stored entry whose definition contains the query and that has a word in a linked verse; under 50 means all such entries |
| BibleController.StrongResults | app/controllers/bible_controller.rb:117-122 | every verse comes from an entry's `verses_with_this_word`; every such verse is present; no verse twice |
| BibleController.ResultLeTotalPreorder | app/controllers/bible_controller.rb:124-126 | the (book name, chapter, verse) order is total and transitive |
| BibleController.SearchResults | app/controllers/bible_controller.rb:124-126 | no verse twice, sorted by (book name, chapter number, verse number), every verse from a lookup and every looked-up verse present |
| BibleController.SearchFor | app/controllers/bible_controller.rb:97-130 | the query stripped; no results unless it is present and at least 2 long; otherwise the search results; the count equals the results' length |
| BibleController.ShortQueryFindsNothing | app/controllers/bible_controller.rb:98-129 | a query under two characters once stripped gives no result and a count of 0 |
| BibleController.UnmatchedQueryFindsNothing | app/controllers/bible_controller.rb:103-122 | a query in no text, form, translation or definition finds nothing, even if it is a Strong's number |
| BibleController.InterlinearAsWritten | app/controllers/bible_controller.rb:87-94 | any redirect of the filters ends in a raise; otherwise the verse's words with their entries |
| BibleController.Interlinear | app/controllers/bible_controller.rb:87-94 | redirects iff the filters do, to the same place with the same alert; otherwise the verse's words |
| BibleController.InterlinearFailsOnMissingBook | app/controllers/bible_controller.rb:87-94 | on an empty store the as-written action raises where the corrected one redirects to the root |
| BibleController.WordDisplayDefaults | app/controllers/bible_controller.rb:185-192 | exactly the six display keys, no `show_hebrew` |
| BibleController.LoadWordDisplaySettings | app/controllers/bible_controller.rb:184-199 | a session hash overrides the defaults key by key and adds its keys; any other value yields the defaults |
| BibleController.BibleView.constructor | app/controllers/bible_controller.rb:1 | every instance variable unset |
| BibleController.BibleView.ShowVerse | app/controllers/bible_controller.rb:52-70 | the verse's words and text, its neighbour links, every book in canonical order, slideshow mode iff the parameter is "true", the session's display settings |
| BibleController.BibleView.SetDisplayMode | app/controllers/bible_controller.rb:64-67 | slideshow mode iff the parameter is "true"; the display settings from the session |
| BibleController.BibleView.Slideshow | app/controllers/bible_controller.rb:73-84 | the same words, text and neighbour links as the verse page |
| BibleController.BibleView.LoadVerse | app/controllers/bible_controller.rb:53-60 | the words, text and neighbour links the verse actions share |
| BibleController.BibleView.SetWords | app/controllers/bible_controller.rb:53-54 | the verse's ordered words with entries and its Spanish text |
| BibleController.BibleView.SetNavigation | app/controllers/bible_controller.rb:57-60 | assigning the links step by step gives `Navigation` |
| BibleController.BibleView.Search | app/controllers/bible_controller.rb:97-130 | query, results and count as `SearchFor` says |
| BibleController.BibleView.FindResults | app/controllers/bible_controller.rb:99-129 | no results for an unsearchable query; otherwise the search results; the count is their length |
| BibleController.VersePath | config/routes.rb:18 | defines `bible_verse_path`: "/books/", the book id, "/chapters/", the chapter number, "/verses/", the verse number, each in decimal (`SettingsController.VersePathCaptureOfPath` reads the three numbers back) |
| BibleController.Searchable | app/controllers/bible_controller.rb:101 | defines the guard: the stripped query is present and at least two characters long |
| BibleController.SpanishMatch | app/controllers/bible_controller.rb:104 | defines the condition: the verse has text and it contains the query |
| BibleController.WordMatch | app/controllers/bible_controller.rb:110 | defines the condition: the Greek form or the Spanish translation contains the query |
| BibleController.StrongMatch | app/controllers/bible_controller.rb:118 | defines the condition: `definition` or `definition2` contains the query |
| BibleController.HasLinkedWord | app/controllers/bible_controller.rb:117 | defines the inner join: some word with the entry's number has a verse, chapter and book |
| BibleController.BookNameOf | app/controllers/bible_controller.rb:125 | defines the first sort key: the name of the verse's book, "" when the chapter or book is missing |
| BibleController.ChapterNumberOf | app/controllers/bible_controller.rb:125 | defines the second sort key: the number of the verse's chapter, 0 when the chapter is missing |
| BibleController.ResultLe | app/controllers/bible_controller.rb:124-126 | defines the `sort_by` order: book name, then chapter number, then verse number (`ResultLeTotalPreorder` proves it total and transitive) |
| BibleController.BibleView.SetAllBooks | app/controllers/bible_controller.rb:61 | `@all_books` is every book in canonical order |
| SettingsController.DefaultSettings | app/controllers/settings_controller.rb:64-73 | exactly the six display keys, on exactly for Greek, Spanish, Strong's and grammar; no `show_hebrew` |
| SettingsController.DefaultsAgree | app/controllers/settings_controller.rb:64-73 | the modal's defaults equal the verse page's |
| SettingsController.LoadSettings | app/controllers/settings_controller.rb:56-62 | every default key kept; session keys override and extra keys stay; a non-hash yields the defaults |
| SettingsController.LoadAgrees | app/controllers/settings_controller.rb:56-62 | the modal and the verse page read the session identically |
| SettingsController.LoadIdempotent | app/controllers/settings_controller.rb:56-62 | storing what was loaded and loading again changes nothing |
| SettingsController.PermittedSettings | app/controllers/settings_controller.rb:11-14 | only submitted display keys, each true iff its value is "1" or "true" |
| SettingsController.UpdatedSettings | app/controllers/settings_controller.rb:11-14 | a missing or empty `settings` raises `ParameterMissing`; otherwise exactly the submitted display keys, each true iff its value is "1" or "true"; never a `show_hebrew` key |
| SettingsController.LoadAfterUpdate | app/controllers/settings_controller.rb:11-16 | after `update` the next request reads exactly the display keys: submitted ones coerced, others at their defaults |
| SettingsController.LoadAfterReset | app/controllers/settings_controller.rb:37 | after `reset` the next request reads exactly the defaults |
| SettingsController.DigitRun | app/controllers/settings_controller.rb:79 | the longest prefix of digits |
| SettingsController.AfterLiteral | app/controllers/settings_controller.rb:79 | the rest iff the text starts with the literal, and literal + rest is the text |
| SettingsController.VerseNumberCapture | app/controllers/settings_controller.rb:79 | matches iff the text starts with "verses/" and a digit; the capture is the maximal digit run after it |
| SettingsController.VersePathCapture | app/controllers/settings_controller.rb:79-80 | no match unless the text starts with "b" |
| SettingsController.VersePathCaptureSound | app/controllers/settings_controller.rb:79-80 | a match's three captures are non-empty digit runs, the text starts with the path they form, and no digit follows it |
| SettingsController.WordsOfVerseId | app/controllers/settings_controller.rb:78-80 | `RecordNotFound` iff no verse has the id; otherwise that verse's words in order |
| SettingsController.CurrentVerseWordsAsWritten | app/controllers/settings_controller.rb:75-84 | a present `verse_id` is looked up as an id; otherwise the first `verses/N` of the referer is looked up with N as a verse id; without either, no words |
| SettingsController.CurrentVerseWords | app/controllers/settings_controller.rb:75-84 | the same for `verse_id`; no words without a verse-page referer; with one, the words by order of the verse its book, chapter and verse numbers resolve to, and `RecordNotFound` when they resolve to none; the only error is `RecordNotFound` |
| SettingsController.DigitRunOfDigits | app/controllers/settings_controller.rb:79 | a digit run followed by a non-digit is captured whole |
| SettingsController.AsWrittenTakesVerseNumberAsId | app/controllers/settings_controller.rb:79-80 | on `/books/B/chapters/C/verses/N` the as-written lookup asks for the verse whose id is N |
| SettingsController.FirstVerseNumberCapture | app/controllers/settings_controller.rb:79 | behind text without a "v", the first `verses/(\d+)` match is the digits that follow |
| SettingsController.AfterLiteralOfConcat | app/controllers/settings_controller.rb:79 | a literal followed by anything is recognised, leaving the rest |
| SettingsController.RegroupPath | app/controllers/settings_controller.rb:79 | a verse path read from its second character, regrouped |
| SettingsController.VersePathCaptureOfDigits | app/controllers/settings_controller.rb:79 | a path of three digit runs captures exactly those runs |
| SettingsController.VersePathCaptureOfPath | app/controllers/bible_controller.rb:15 | a verse page's own address captures its book id, chapter number and verse number |
| SettingsController.FirstVersePathCapture | app/controllers/settings_controller.rb:79 | behind an origin without a "b", the first match is the page's own address |
| SettingsController.CorrectedFindsTheViewedVerse | app/controllers/settings_controller.rb:75-84 | on a verse page's address the corrected lookup returns that verse's words in order |
| SettingsController.AsWrittenShowsAnotherVersesWords | app/controllers/settings_controller.rb:79-80 | a two-chapter sample where the as-written lookup shows no words and the corrected one the viewed verse's word |
| SettingsController.SampleUnique | app/controllers/settings_controller.rb:79-80 | the sample store has unique ids and numbers |
| SettingsController.SampleWordsOf | app/controllers/settings_controller.rb:78-80 | in the sample, verse id 1 has no word and verse id 5 has one |
| SettingsController.UpdateResponseAsWritten | app/controllers/settings_controller.rb:9-33 | raises iff the parameters are missing (then `ParameterMissing`) or the stream's words lookup raises (then `RecordNotFound`); HTML redirects back iff the update succeeded; a stream renders the as-written lookup's words with the settings loaded before the update |
| SettingsController.UpdateResponse | app/controllers/settings_controller.rb:9-33 | raises iff parameters are missing (then `ParameterMissing`) or the lookup raises (then `RecordNotFound`); HTML redirects back iff the update succeeded; a stream renders the looked-up words |
| SettingsController.UpdateRendersSubmitted | app/controllers/settings_controller.rb:11-28 | the corrected stream shows exactly the submitted checkboxes over the defaults |
| SettingsController.UpdateAsWrittenShowsStaleSettings | app/controllers/settings_controller.rb:11-28 | from a fresh session, submitting Greek off still streams Greek on |
| SettingsController.ResetResponseAsWritten | app/controllers/settings_controller.rb:35-52 | HTML always redirects back; a stream raises iff the as-written lookup raises, and otherwise renders its words with the settings loaded before the reset |
| SettingsController.ResetResponse | app/controllers/settings_controller.rb:35-52 | HTML always redirects back; a stream raises iff the lookup raises, and otherwise renders the looked-up words |
| SettingsController.ResetRendersDefaults | app/controllers/settings_controller.rb:37-47 | the corrected stream shows exactly the defaults |
| SettingsController.ResetAsWrittenShowsStaleSettings | app/controllers/settings_controller.rb:37-47 | with Greek off before, the as-written reset still shows Greek off |
| SettingsController.SettingsSession.constructor | app/controllers/settings_controller.rb:56-62 | the stored value as given, with `@settings` loaded from it |
| SettingsController.SettingsSession.LoadSettingsFilter | app/controllers/settings_controller.rb:56-62 | `@settings` is what the session holds, merged over the defaults |
| SettingsController.SettingsSession.Update | app/controllers/settings_controller.rb:9-33 | the corrected response; the session holds the permitted values unless the action raised, then it is unchanged; `@settings` is fresh |
| SettingsController.SettingsSession.Reset | app/controllers/settings_controller.rb:35-52 | the corrected response; the session holds the defaults unless the action raised; `@settings` is fresh |
| SettingsController.Coerce | app/controllers/settings_controller.rb:14 | defines the checkbox value: on exactly for "1" and "true" (the six permitted keys, lines 11-13, are the constant `DisplayKeys`) |
| NavigationController.FindBookParam | app/controllers/navigation_controller.rb:69 | a stored book with the parameter's id, or nothing for a nil, non-numeric or unknown id |
| NavigationController.BookOrFirst | app/controllers/navigation_controller.rb:69-72 | the named book when found, else the first book; None iff there is no book |
| NavigationController.ChapterByParam | app/controllers/navigation_controller.rb:76 | a chapter of the book whose number is the parameter's value, or None when the cast fails or none has it |
| NavigationController.VersesOrEmpty | app/controllers/navigation_controller.rb:77 | empty without a chapter; otherwise exactly the chapter's verses in number order |
| NavigationController.BookFallback | app/controllers/navigation_controller.rb:21-24 | with books stored, some book always results; a known id yields that book; a fallback has the smallest id |
| NavigationController.EitherParam | app/controllers/navigation_controller.rb:8-10 | the top-level value when given, else the form's |
| NavigationController.UpdateParams | app/controllers/navigation_controller.rb:8-10 | each given top-level value wins; each missing one is the form's value; without a form, the top-level values |
| NavigationController.Decide | app/controllers/navigation_controller.rb:12-16 | the slideshow at the three values iff all are present, otherwise `show` |
| NavigationController.NestedFormReachesSlideshow | app/controllers/navigation_controller.rb:8-13 | form values alone reach the slideshow |
| NavigationController.BlankTopLevelHidesNested | app/controllers/navigation_controller.rb:8-12 | a blank top-level book id hides the form's and `show` is rendered |
| NavigationController.Picker.constructor | app/controllers/navigation_controller.rb:1 | every instance variable unset |
| NavigationController.Picker.LoadNavigationData | app/controllers/navigation_controller.rb:58-87 | raw parameters echoed and all books in id order; raises iff a book id is present and there is no book; otherwise the book fields as `Loaded` says and the form data echo the parameters |
| NavigationController.Picker.LoadAllBooks | app/controllers/navigation_controller.rb:64-66 | every book in canonical order |
| NavigationController.Picker.SetNavigationData | app/controllers/navigation_controller.rb:82-86 | the form data are the raw parameters |
| NavigationController.Picker.AssignParams | app/controllers/navigation_controller.rb:59-61 | the three raw parameters |
| NavigationController.Picker.LoadBookFields | app/controllers/navigation_controller.rb:68-86 | fails iff a book id is present and there is no book; otherwise `Loaded` and the form data |
| NavigationController.Picker.LoadBook | app/controllers/navigation_controller.rb:68-79 | fails iff a book id is present and there is no book; otherwise `Loaded` |
| NavigationController.Picker.FindBookOrFirst | app/controllers/navigation_controller.rb:69-72 | the named or the first book; succeeds iff there is a book |
| NavigationController.Picker.LoadChapters | app/controllers/navigation_controller.rb:73 | the book's chapters by number |
| NavigationController.Picker.LoadChapter | app/controllers/navigation_controller.rb:76-77 | the chapter the number names and its verses, empty without one |
| NavigationController.Picker.Show | app/controllers/navigation_controller.rb:2-5 | the raw parameters echoed and all books in id order; raises as the filter does; otherwise `Loaded` and the form data |
| NavigationController.Picker.Update | app/controllers/navigation_controller.rb:7-17 | the raw parameters echoed and all books in id order; raises as the filter does; otherwise `Loaded`, the form data and the outcome `Decide` gives |
| NavigationController.Picker.SelectBook | app/controllers/navigation_controller.rb:19-34 | raises iff there is no book; otherwise the named or first book, its chapters, its chapter 1 (with `@chapter_number` 1) or none with empty verses, and the form data; all books in id order |
| NavigationController.Picker.ChooseBook | app/controllers/navigation_controller.rb:20-29 | `select_book`'s own lines give `BookSelected` |
| NavigationController.Picker.ReloadBook | app/controllers/navigation_controller.rb:20-24 | the raw book id and the named or first book; succeeds iff there is a book |
| NavigationController.Picker.LoadFirstChapter | app/controllers/navigation_controller.rb:25-29 | chapters by number, chapter 1 of the book, its number, its verses (empty without it) |
| NavigationController.Picker.SelectChapter | app/controllers/navigation_controller.rb:36-50 | raises iff there is no book; otherwise the named or first book, the chapter the number names, its verses, the book's chapters, raw parameters and form data; all books in id order |
| NavigationController.Picker.ChooseChapter | app/controllers/navigation_controller.rb:37-45 | `select_chapter`'s own lines give `ChapterSelected` |
| NavigationController.Picker.ReassignChapterNumber | app/controllers/navigation_controller.rb:38 | the raw chapter number |
| NavigationController.Picker.LoadChosenChapter | app/controllers/navigation_controller.rb:43-45 | the named chapter, its verses and the book's chapters |
| Seqs.Take | app/controllers/bible_controller.rb:106 | a prefix of at most n rows, all of them when there are no more than n |
| Seqs.Somes | app/models/interlinear_config.rb:107 | exactly the present values, no more of them than the inputs, none when all are absent |
| Seqs.SomesSnoc | app/models/interlinear_config.rb:107 | appending an entry appends its value when present and nothing otherwise, so `compact` keeps the order |
| Seqs.DedupBy | app/controllers/bible_controller.rb:114 | members of the input, every input key kept, no key twice |
| Seqs.DedupByKeepsDistinct | app/controllers/bible_controller.rb:124 | `uniq` on a list without repeats changes nothing |
| Seqs.InsertionSort | app/controllers/bible_controller.rb:124-126 | a sorted permutation of the input |
| Seqs.LeastAbove | app/models/chapter.rb:29 | None iff no key is above n; otherwise a member with the least key above n |
| Seqs.GreatestBelow | app/models/chapter.rb:33 | None iff no key is below n; otherwise a member with the greatest key below n |
| Seqs.MinBy | app/controllers/bible_controller.rb:9-11 | None iff empty; otherwise a member with the least key |
| Seqs.SomesOfMask | app/models/interlinear_config.rb:107-113 | masking before `compact` equals filtering after it |
| Seqs.DistinctByPermutation | app/controllers/bible_controller.rb:124-126 | sorting keeps the list free of repeated keys |
| Seqs.Filter | app/models/book.rb:13 | no longer than the input, exactly the members that satisfy the condition, and every element satisfies it |
| Seqs.Map | app/controllers/bible_controller.rb:113 | the same length, with element i the image of input element i |
| Seqs.FlatMap | app/controllers/bible_controller.rb:121 | exactly the elements of the images of the input's members |
| Text.Strip | app/controllers/bible_controller.rb:98 | a slice of the input from which only strippable characters were cut at either end, with none left at either end; the input itself when it has none at its ends |
| Text.StripIdempotent | app/controllers/bible_controller.rb:98 | stripping twice is stripping once |
| Text.LexLeTotal | app/controllers/bible_controller.rb:125 | any two names compare |
| Text.LexLeTransitive | app/controllers/bible_controller.rb:125 | name order is transitive |
| Text.LexLeAntisymmetric | app/controllers/bible_controller.rb:125 | names that compare both ways are equal |
| Text.JoinContainsParts | app/models/word.rb:59-68 | every joined part occurs in the result |
| Text.JoinSnoc | app/models/word.rb:67 | joining one more part appends the separator and that part |
| Text.JoinCons | app/models/word.rb:67 | joining a part in front puts it, then the separator, before the rest |
| Text.CompactJoinOfPresent | app/models/word.rb:59-68 | with every field present, `compact.join` is the plain join of the values |
| Text.CompactJoinSnoc | app/models/word.rb:59-68 | one more field leaves the text unchanged when nil, and otherwise appends the separator (if some earlier field was present) and its value |
| Text.ToIOfNatToString | app/controllers/settings_controller.rb:80 | `to_i` reads back a written number, whatever non-digit follows |
| Text.NatToStringInjective | app/models/chapter.rb:17 | different numbers are written differently |
| Text.IntToStringInjective | app/models/chapter.rb:17 | different integers are written differently, sign included |
| Text.FirstMatchSkip | app/controllers/settings_controller.rb:79 | text where the pattern matches nowhere is skipped |
| Text.IsSpace | app/models/word.rb:28 | defines the whitespace class of `blank?` |
| Text.Blank | app/models/word.rb:28 | whitespace only; the empty text is blank |
| Text.Present | app/models/word.rb:28 | not nil and not blank, so present text is non-empty |
| Text.Contains | app/controllers/bible_controller.rb:104 | defines `LIKE '%q%'` as substring search; the empty query is in every text, and a contained query is no longer than the text |
| Text.LexLe | app/controllers/bible_controller.rb:125 | defines string order: by character, a proper prefix first (total, transitive and antisymmetric by the `LexLe` lemmas) |
| Text.NatToString | app/models/chapter.rb:17 | at least one character, every one a digit (`ToIOfNatToString` reads it back) |
| Text.IntToString | app/models/chapter.rb:17 | the decimal text of a non-negative number, "-" before it for a negative one |
| Text.ToI | app/controllers/settings_controller.rb:80 | 0 for text that does not start with a digit (`ToIOfNatToString` gives the value of a written number) |
| Text.Join | app/models/strong.rb:23 | "" for no parts and the part itself for one (`JoinSnoc` and `JoinCons` give the rest) |
| Text.CompactJoin | app/models/word.rb:59-68 | every present field occurs in the result, and "" when no field is present (`CompactJoinSnoc` gives it exactly) |
| Text.FirstMatch | app/controllers/settings_controller.rb:79 | a match found is what the pattern captures at some position of the text |

## Left out

- Pagination in `show_chapter`, and the `show_book`, `show_chapter` and
  `strong_definition` actions. They are outside the modelled core. Only the
  `verses_with_this_word` they rely on is modelled.
- Rendering: Turbo Streams, partials, layouts, HTTP transport and the `close`
  action. A redirect is a returned location.
- `Rails.cache` and its six-hour expiry around `@all_books`. The model reads
  the books afresh, so it does not capture a stale cache.
- `application_controller.rb` (locale negotiation) and the JavaScript
  controllers, which are DOM and timer glue. They are not part of this model.
- SQL `LIKE` collation, case folding and wildcard characters in the query.
  Containment is plain substring containment.
- `Verses.Touch`: `updated_at` is a version counter that grows, not a
  timestamp.
- `to_i` on signs and leading whitespace, and ids of 0. Parameters are read
  by their leading digits only (`BibleController.ParamToNat`).
- Session values are modelled as booleans, and a `settings` parameter as a
  map of strings. A non-string form value, which `permit` would drop, is not
  modelled.
- InterlinearConfigs.ElementOrderName: its contract states only which orders
  are "Unknown". That each label names the slots of `Arrangement` in the same
  order is not proved.
- InterlinearConfigs.ArrangedWordElements: the kind of each element is
  bounded, and the exact contents are proved only when all three candidates
  are present (`ArrangementFollowsTable`) and under a toggle change
  (`ToggleOffRemovesOnlyThatLanguage`).
- Seqs.DedupBy: the contract states membership, key coverage and no repeated
  key, not that `uniq` keeps each key's first occurrence in input order. The
  search results are re-sorted afterwards and the picker does not use it, so
  no modelled result depends on that order.
- BibleController.FirstChapterOf: `index` takes the first of the chapters
  preloaded by `includes(:chapters)`, and that preload query has no
  `ORDER BY`, so which chapter comes first is unspecified. The model picks
  the chapter with the smallest id, which is one answer the database may
  give, not the only one.
- BibleController.StrongRows: the order of the entries is not modelled. The
  model takes the first 50 qualifying entries in store order, each once.
- The request-format error of `respond_to`. `update` and `reset` answer only
  Turbo Stream and HTML, and `select_book` and `select_chapter` only Turbo
  Stream. Any other format raises `UnknownFormat`, and the model's request
  has only these two formats.
- A scalar `settings` or `navigation` parameter. `permit` on a string
  raises `NoMethodError`, and `dig` through one raises `TypeError`. The
  model's parameters are a map or
  nothing (`SettingsController.UpdatedSettings`,
  `NavigationController.UpdateParams`).
- SettingsController.SettingsSession.Update and
  SettingsController.SettingsSession.Reset: these model the corrected
  responses (see Findings). The as-written responses are the pure functions
  `UpdateResponseAsWritten` and `ResetResponseAsWritten`.

## Findings

| source | as written | input that shows it | evidently intended | confidence | as-written member | corrected member |
|---|---|---|---|---|---|---|
| app/controllers/settings_controller.rb:79-80 | takes the digits after the referer's `verses/` as a verse id, but in `/books/B/chapters/C/verses/N` they are the verse number | a book with chapters 1 and 2, each with verse 1 (ids 1 and 5), the word on verse id 5, referer `/books/1/chapters/2/verses/1`: the words of verse id 1 (none) are shown | resolve the book id, chapter number and verse number as the verse page does | high (not executed) | SettingsController.AsWrittenShowsAnotherVersesWords | SettingsController.CorrectedFindsTheViewedVerse |
| app/controllers/bible_controller.rb:87-94 | calls the filters as plain methods, so a filter's redirect does not stop the action, which then dereferences nil | an empty store and any address | redirect as `show_verse` does | high (not executed) | BibleController.InterlinearFailsOnMissingBook | BibleController.Interlinear |
| app/controllers/settings_controller.rb:16-28 | renders `@settings`, loaded by the filter before the session was overwritten | a fresh session, `update` with `show_greek` "0" as a Turbo Stream: the words render with Greek on | render the settings just stored | high (not executed) | SettingsController.UpdateAsWrittenShowsStaleSettings | SettingsController.UpdateRendersSubmitted |
| app/controllers/settings_controller.rb:37-47 | renders `@settings` loaded before the reset | a session with Greek off, `reset` as a Turbo Stream: the form and words render with Greek off | render the defaults | high (not executed) | SettingsController.ResetAsWrittenShowsStaleSettings | SettingsController.ResetRendersDefaults |
