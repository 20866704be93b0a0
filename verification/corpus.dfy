/**
 * The reference corpus: books, chapters, verses, words and Strong's lexicon
 * entries, as the rows of five tables. Every row carries the store-assigned
 * `id`; foreign keys are ids (`word.strong_number` refers to a lexicon entry by
 * its `strong_number`). Nullable text columns are `Option<string>`.
 */
module Corpus {
  import opened Wrappers

  datatype Book = Book(id: nat, name: string, abbreviation: Option<string>, testament: Option<string>)

  /** `version` stands for `updated_at`: it only ever grows (see `Verses.VerseStore`). */
  datatype Chapter = Chapter(id: nat, bookId: nat, chapterNumber: int, version: nat)

  datatype Verse = Verse(id: nat, chapterId: nat, verseNumber: int, spanishText: Option<string>)

  datatype Word = Word(
    id: nat, verseId: nat, wordOrder: int,
    strongNumber: Option<string>,
    greekWord: Option<string>, greekGrammar: Option<string>,
    spanishTranslation: Option<string>,
    hebrewWord: Option<string>, hebrewGrammar: Option<string>,
    language: Option<string>)

  datatype Strong = Strong(
    id: nat, strongNumber: Option<string>,
    greekWord: Option<string>, pronunciation: Option<string>,
    definition: Option<string>, definition2: Option<string>,
    partOfSpeech: Option<string>, derivation: Option<string>,
    rv1909Definition: Option<string>,
    hebrewWord: Option<string>, language: Option<string>)

  datatype Store = Store(
    books: seq<Book>, chapters: seq<Chapter>, verses: seq<Verse>,
    words: seq<Word>, strongs: seq<Strong>)

  /** `Book.find_by(id:)`. */
  function FindBook(st: Store, id: nat): (r: Option<Book>)
    ensures r.Some? ==> r.value in st.books && r.value.id == id
    ensures r.None? ==> forall b :: b in st.books ==> b.id != id
  {
    FindBookIn(st.books, id)
  }

  function FindBookIn(bs: seq<Book>, id: nat): (r: Option<Book>)
    ensures r.Some? ==> r.value in bs && r.value.id == id
    ensures r.None? ==> forall b :: b in bs ==> b.id != id
  {
    if bs == [] then None
    else if bs[0].id == id then Some(bs[0])
    else FindBookIn(bs[1..], id)
  }

  /** `Chapter.find_by(id:)`. */
  function FindChapter(st: Store, id: nat): (r: Option<Chapter>)
    ensures r.Some? ==> r.value in st.chapters && r.value.id == id
    ensures r.None? ==> forall c :: c in st.chapters ==> c.id != id
  {
    FindChapterIn(st.chapters, id)
  }

  function FindChapterIn(cs: seq<Chapter>, id: nat): (r: Option<Chapter>)
    ensures r.Some? ==> r.value in cs && r.value.id == id
    ensures r.None? ==> forall c :: c in cs ==> c.id != id
  {
    if cs == [] then None
    else if cs[0].id == id then Some(cs[0])
    else FindChapterIn(cs[1..], id)
  }

  /** `Verse.find_by(id:)`. */
  function FindVerse(st: Store, id: nat): (r: Option<Verse>)
    ensures r.Some? ==> r.value in st.verses && r.value.id == id
    ensures r.None? ==> forall v :: v in st.verses ==> v.id != id
  {
    FindVerseIn(st.verses, id)
  }

  function FindVerseIn(vs: seq<Verse>, id: nat): (r: Option<Verse>)
    ensures r.Some? ==> r.value in vs && r.value.id == id
    ensures r.None? ==> forall v :: v in vs ==> v.id != id
  {
    if vs == [] then None
    else if vs[0].id == id then Some(vs[0])
    else FindVerseIn(vs[1..], id)
  }

  /** The lexicon entry a word refers to (`belongs_to :strong` keyed by `strong_number`). */
  function StrongOf(st: Store, w: Word): (r: Option<Strong>)
    ensures r.Some? <==> w.strongNumber.Some? && exists s :: s in st.strongs && s.strongNumber == w.strongNumber
    ensures r.Some? ==> r.value in st.strongs && r.value.strongNumber == w.strongNumber
  {
    if w.strongNumber.None? then None else FindStrongIn(st.strongs, w.strongNumber)
  }

  function FindStrongIn(ss: seq<Strong>, n: Option<string>): (r: Option<Strong>)
    ensures r.Some? ==> r.value in ss && r.value.strongNumber == n
    ensures r.None? ==> forall s :: s in ss ==> s.strongNumber != n
  {
    if ss == [] then None
    else if ss[0].strongNumber == n then Some(ss[0])
    else FindStrongIn(ss[1..], n)
  }

  /** The chapter of a verse and the book of that chapter both exist (an inner join succeeds). */
  predicate VerseLinked(st: Store, v: Verse) {
    var c := FindChapter(st, v.chapterId);
    c.Some? && FindBook(st, c.value.bookId).Some?
  }

  /** The verse of a word exists and is linked. */
  predicate WordLinked(st: Store, w: Word) {
    var v := FindVerse(st, w.verseId);
    v.Some? && VerseLinked(st, v.value)
  }

  /** Store-assigned ids are unique within each table. */
  ghost predicate IdsUnique(st: Store) {
    && (forall i, j :: 0 <= i < j < |st.books| ==> st.books[i].id != st.books[j].id)
    && (forall i, j :: 0 <= i < j < |st.chapters| ==> st.chapters[i].id != st.chapters[j].id)
    && (forall i, j :: 0 <= i < j < |st.verses| ==> st.verses[i].id != st.verses[j].id)
    && (forall i, j :: 0 <= i < j < |st.words| ==> st.words[i].id != st.words[j].id)
    && (forall i, j :: 0 <= i < j < |st.strongs| ==> st.strongs[i].id != st.strongs[j].id)
  }

  /** `chapter_number` is unique per book (validation and unique index). */
  ghost predicate ChapterNumbersUnique(cs: seq<Chapter>) {
    forall i, j :: 0 <= i < |cs| && 0 <= j < |cs| && i != j && cs[i].bookId == cs[j].bookId
      ==> cs[i].chapterNumber != cs[j].chapterNumber
  }

  /** `verse_number` is unique per chapter (validation and unique index). */
  ghost predicate VerseNumbersUnique(vs: seq<Verse>) {
    forall i, j :: 0 <= i < |vs| && 0 <= j < |vs| && i != j && vs[i].chapterId == vs[j].chapterId
      ==> vs[i].verseNumber != vs[j].verseNumber
  }

  /** `word_order` is unique per verse (validation). */
  ghost predicate WordOrdersUnique(ws: seq<Word>) {
    forall i, j :: 0 <= i < |ws| && 0 <= j < |ws| && i != j && ws[i].verseId == ws[j].verseId
      ==> ws[i].wordOrder != ws[j].wordOrder
  }

  /** `strong_number` is unique (validation and unique index). */
  ghost predicate StrongNumbersUnique(ss: seq<Strong>) {
    forall i, j :: 0 <= i < |ss| && 0 <= j < |ss| && i != j ==> ss[i].strongNumber != ss[j].strongNumber
  }

  ghost predicate NumbersUnique(st: Store) {
    && ChapterNumbersUnique(st.chapters)
    && VerseNumbersUnique(st.verses)
    && WordOrdersUnique(st.words)
    && StrongNumbersUnique(st.strongs)
  }

  /** Every foreign key resolves (the schema's foreign-key constraints). */
  ghost predicate Linked(st: Store) {
    && (forall c :: c in st.chapters ==> FindBook(st, c.bookId).Some?)
    && (forall v :: v in st.verses ==> FindChapter(st, v.chapterId).Some?)
    && (forall w :: w in st.words ==> FindVerse(st, w.verseId).Some?)
  }
}
