/**
 * The reading controller: where `/` sends the reader, how a
 * `books/:book_id/chapters/:chapter_number/verses/:verse_number` address is
 * resolved (or redirected when a part is missing), the neighbour links of a
 * verse page, and the three-way search.
 */
module BibleController {
  import opened Wrappers
  import opened Seqs
  import opened Text
  import opened Corpus
  import Books
  import Chapters
  import Verses
  import Strongs
  import opened SessionStore

  // ---------------------------------------------------------------------------
  // Addresses

  /** The pages a response can send the reader to. */
  datatype Location =
    | Root
    | BookPage(bookId: nat)
    | ChapterPage(bookId: nat, chapterNumber: int)
    | VersePage(bookId: nat, chapterNumber: int, verseNumber: int)

  /**
   * A path parameter cast to an integer column: the value of its leading
   * digits, and nothing when it does not start with a digit (such a value can
   * name no row).
   */
  function ParamToNat(s: string): (r: Option<nat>)
    ensures r.None? <==> s == [] || !IsDigit(s[0])
    ensures r.Some? ==> r.value == ToI(s)
  {
    if s == [] || !IsDigit(s[0]) then None else Some(ToI(s))
  }

  /** A path helper writes an id as its decimal text; the route reads the same id back. */
  lemma ParamOfNatToString(n: nat)
    ensures ParamToNat(NatToString(n)) == Some(n)
  {
    ToIOfNatToString(n, []);
    assert NatToString(n) + [] == NatToString(n);
  }

  /** `bible_verse_path(book_id, chapter_number, verse_number)`. */
  function VersePath(bookId: nat, chapterNumber: nat, verseNumber: nat): string {
    "/books/" + NatToString(bookId) + "/chapters/" + NatToString(chapterNumber) + "/verses/" + NatToString(verseNumber)
  }

  // ---------------------------------------------------------------------------
  // set_book / set_chapter / set_verse

  /** The outcome of the three lookup filters: the records, or the redirect they issue. */
  datatype Resolution =
    | Found(book: Book, chapter: Chapter, verse: Verse)
    | Redirect(to: Location, alert: string)

  const BookNotFound: string := "Book not found"
  const ChapterNotFound: string := "Chapter not found"
  const VerseNotFound: string := "Verse not found"

  /** `Book.find(params[:book_id])`, None where `find` raises `RecordNotFound`. */
  function BookParam(st: Store, bookParam: string): (r: Option<Book>)
    ensures r.Some? ==> r.value in st.books && ParamToNat(bookParam) == Some(r.value.id)
    ensures r.None? ==> ParamToNat(bookParam).None? || forall b :: b in st.books ==> b.id != ParamToNat(bookParam).value
  {
    match ParamToNat(bookParam)
    case None => None
    case Some(id) => FindBook(st, id)
  }

  /**
   * The `set_book`, `set_chapter`, `set_verse` chain. Each filter that finds
   * nothing redirects one level up with its alert, and the chain stops there:
   * a missing book goes to the root, a missing chapter to the book, a missing
   * verse to the chapter.
   */
  function ResolveVerse(st: Store, bookParam: string, chapterParam: string, verseParam: string): (r: Resolution)
    ensures r.Found? ==>
      && r.book in st.books && r.chapter in st.chapters && r.verse in st.verses
      && r.chapter.bookId == r.book.id && r.verse.chapterId == r.chapter.id
      && ParamToNat(bookParam) == Some(r.book.id)
      && ParamToNat(chapterParam) == Some(r.chapter.chapterNumber)
      && ParamToNat(verseParam) == Some(r.verse.verseNumber)
    ensures BookParam(st, bookParam).None? ==> r == Redirect(Root, BookNotFound)
    ensures BookParam(st, bookParam).Some? ==>
      var b := BookParam(st, bookParam).value;
      (ParamToNat(chapterParam).None? || forall c :: c in st.chapters && c.bookId == b.id ==> c.chapterNumber != ParamToNat(chapterParam).value)
      <==> r == Redirect(BookPage(b.id), ChapterNotFound)
    ensures r.Redirect? && r.alert == VerseNotFound ==>
      exists c :: c in st.chapters && r.to == ChapterPage(BookParam(st, bookParam).value.id, c.chapterNumber)
                  && (ParamToNat(verseParam).None? || forall v :: v in st.verses && v.chapterId == c.id ==> v.verseNumber != ParamToNat(verseParam).value)
    ensures r.Redirect? ==> r.alert in {BookNotFound, ChapterNotFound, VerseNotFound}
    ensures BookParam(st, bookParam).Some? && ParamToNat(chapterParam).Some?
            && Chapters.FindByNumber(st, BookParam(st, bookParam).value.id, ParamToNat(chapterParam).value).Some? ==>
      var b := BookParam(st, bookParam).value;
      var c := Chapters.FindByNumber(st, b.id, ParamToNat(chapterParam).value).value;
      && ((ParamToNat(verseParam).None? || forall v :: v in st.verses && v.chapterId == c.id ==> v.verseNumber != ParamToNat(verseParam).value)
          <==> r == Redirect(ChapterPage(b.id, c.chapterNumber), VerseNotFound))
      && (ParamToNat(verseParam).Some? && Verses.FindByNumber(st, c.id, ParamToNat(verseParam).value).Some? ==>
          r == Found(b, c, Verses.FindByNumber(st, c.id, ParamToNat(verseParam).value).value))
  {
    match BookParam(st, bookParam)
    case None => Redirect(Root, BookNotFound)
    case Some(b) =>
      var chapter := if ParamToNat(chapterParam).None? then None else Chapters.FindByNumber(st, b.id, ParamToNat(chapterParam).value);
      match chapter
      case None => Redirect(BookPage(b.id), ChapterNotFound)
      case Some(c) =>
        var verse := if ParamToNat(verseParam).None? then None else Verses.FindByNumber(st, c.id, ParamToNat(verseParam).value);
        match verse
        case None => Redirect(ChapterPage(b.id, c.chapterNumber), VerseNotFound)
        case Some(v) => Found(b, c, v)
  }

  /**
   * With unique numbering, the address of any stored verse resolves to that
   * very verse, book and chapter.
   */
  lemma ResolveVersePath(st: Store, b: Book, c: Chapter, v: Verse)
    requires IdsUnique(st) && NumbersUnique(st)
    requires b in st.books && c in st.chapters && v in st.verses
    requires c.bookId == b.id && v.chapterId == c.id
    requires c.chapterNumber >= 0 && v.verseNumber >= 0
    ensures ResolveVerse(st, NatToString(b.id), NatToString(c.chapterNumber), NatToString(v.verseNumber)) == Found(b, c, v)
  {
    ParamOfNatToString(b.id);
    ParamOfNatToString(c.chapterNumber);
    ParamOfNatToString(v.verseNumber);
    var b' := FindBook(st, b.id).value;
    var ib :| 0 <= ib < |st.books| && st.books[ib] == b;
    var ib' :| 0 <= ib' < |st.books| && st.books[ib'] == b';
    assert ib == ib';
    var c' := Chapters.FindByNumber(st, b.id, c.chapterNumber).value;
    Chapters.SameNumberSameChapter(st, c, c');
    var v' := Verses.FindByNumber(st, c.id, v.verseNumber).value;
    Verses.SameNumberSameVerse(st, v, v');
  }

  // ---------------------------------------------------------------------------
  // index

  datatype IndexOutcome = RedirectTo(to: Location) | EmptyState

  function ChapterId(c: Chapter): int { c.id }
  function VerseKey(v: Verse): int { v.id }

  /**
   * `book.chapters.first` on the preloaded, unordered chapters: the model
   * picks the book's chapter with the smallest id.
   */
  function FirstChapterOf(st: Store, b: Book): (r: Option<Chapter>)
    ensures r.None? <==> forall c :: c in st.chapters ==> c.bookId != b.id
    ensures r.Some? ==> r.value in st.chapters && r.value.bookId == b.id
    ensures r.Some? ==> forall c :: c in st.chapters && c.bookId == b.id ==> r.value.id <= c.id
  {
    var cs := Chapters.ChaptersOf(st, b.id);
    var r := MinBy(cs, ChapterId);
    assert forall c :: c in cs ==> exists i :: 0 <= i < |cs| && cs[i] == c;
    r
  }

  /** `chapter.verses.first`: the chapter's verse with the smallest id. */
  function FirstVerseOf(st: Store, c: Chapter): (r: Option<Verse>)
    ensures r.None? <==> forall v :: v in st.verses ==> v.chapterId != c.id
    ensures r.Some? ==> r.value in st.verses && r.value.chapterId == c.id
    ensures r.Some? ==> forall v :: v in st.verses && v.chapterId == c.id ==> r.value.id <= v.id
  {
    var vs := Verses.VersesOf(st, c.id);
    var r := MinBy(vs, VerseKey);
    assert forall v :: v in vs ==> exists i :: 0 <= i < |vs| && vs[i] == v;
    r
  }

  /**
   * `index`: the first verse of the first chapter of the first book, each
   * "first" by id; the empty state as soon as one of them is missing, even if
   * a later book has verses.
   */
  function Index(st: Store): (r: IndexOutcome)
    ensures st.books == [] ==> r.EmptyState?
    ensures r.RedirectTo? ==>
      && r.to.VersePage?
      && (forall b :: b in st.books ==> r.to.bookId <= b.id)
      && exists c, v :: c in st.chapters && v in st.verses && c.bookId == r.to.bookId && v.chapterId == c.id
                        && r.to.chapterNumber == c.chapterNumber && r.to.verseNumber == v.verseNumber
    ensures Books.First(st).Some? && (forall c :: c in st.chapters ==> c.bookId != Books.First(st).value.id) ==> r.EmptyState?
    ensures r.RedirectTo? <==>
      && Books.First(st).Some?
      && FirstChapterOf(st, Books.First(st).value).Some?
      && FirstVerseOf(st, FirstChapterOf(st, Books.First(st).value).value).Some?
    ensures r.RedirectTo? ==>
      var b := Books.First(st).value;
      var c := FirstChapterOf(st, b).value;
      r.to == VersePage(b.id, c.chapterNumber, FirstVerseOf(st, c).value.verseNumber)
  {
    match Books.First(st)
    case None => EmptyState
    case Some(b) =>
      match FirstChapterOf(st, b)
      case None => EmptyState
      case Some(c) =>
        match FirstVerseOf(st, c)
        case None => EmptyState
        case Some(v) => RedirectTo(VersePage(b.id, c.chapterNumber, v.verseNumber))
  }

  /**
   * The address `index` redirects to resolves, through the verse filters, to
   * the first book's first chapter and that chapter's first verse.
   */
  lemma IndexRedirectResolves(st: Store)
    requires IdsUnique(st) && NumbersUnique(st)
    requires forall c :: c in st.chapters ==> Chapters.ValidChapter(c)
    requires forall v :: v in st.verses ==> Verses.ValidVerse(v)
    requires Index(st).RedirectTo?
    ensures Index(st).to.chapterNumber >= 0 && Index(st).to.verseNumber >= 0
    ensures var to := Index(st).to;
            var b := Books.First(st).value;
            var c := FirstChapterOf(st, b).value;
            ResolveVerse(st, NatToString(to.bookId), NatToString(to.chapterNumber), NatToString(to.verseNumber))
              == Found(b, c, FirstVerseOf(st, c).value)
  {
    var b := Books.First(st).value;
    var c := FirstChapterOf(st, b).value;
    var v := FirstVerseOf(st, c).value;
    ResolveVersePath(st, b, c, v);
  }

  // ---------------------------------------------------------------------------
  // show_verse / slideshow navigation

  /** The neighbour links of a verse page. */
  datatype VerseNavigation = VerseNavigation(
    prevVerse: Option<Verse>, nextVerse: Option<Verse>,
    prevChapter: Option<Chapter>, nextChapter: Option<Chapter>)

  /**
   * The navigation fields of `show_verse` and `slideshow`: a neighbouring
   * chapter is looked up only on the side where the chapter has no further
   * verse, so each side links to a verse or to a chapter, never both.
   */
  function Navigation(st: Store, c: Chapter, v: Verse): (r: VerseNavigation)
    ensures r.prevVerse == Verses.PreviousVerse(st, v) && r.nextVerse == Verses.NextVerse(st, v)
    ensures r.prevVerse.Some? <==> exists x :: x in st.verses && x.chapterId == v.chapterId && x.verseNumber < v.verseNumber
    ensures r.nextVerse.Some? <==> exists x :: x in st.verses && x.chapterId == v.chapterId && x.verseNumber > v.verseNumber
    ensures r.prevVerse.Some? ==> r.prevChapter.None?
    ensures r.nextVerse.Some? ==> r.nextChapter.None?
    ensures r.prevVerse.None? ==> r.prevChapter == Chapters.PreviousChapter(st, c)
    ensures r.nextVerse.None? ==> r.nextChapter == Chapters.NextChapter(st, c)
    ensures r.prevChapter.Some? ==> r.prevChapter.value in st.chapters && r.prevChapter.value.bookId == c.bookId
                                    && r.prevChapter.value.chapterNumber < c.chapterNumber
    ensures r.nextChapter.Some? ==> r.nextChapter.value in st.chapters && r.nextChapter.value.bookId == c.bookId
                                    && r.nextChapter.value.chapterNumber > c.chapterNumber
  {
    var prevVerse := Verses.PreviousVerse(st, v);
    var nextVerse := Verses.NextVerse(st, v);
    VerseNavigation(
      prevVerse, nextVerse,
      if prevVerse.None? then Chapters.PreviousChapter(st, c) else None,
      if nextVerse.None? then Chapters.NextChapter(st, c) else None)
  }

  /** The first verse of a chapter with a previous chapter links back to that chapter's predecessor. */
  lemma FirstVerseLinksToPreviousChapter(st: Store, c: Chapter, v: Verse, p: Chapter)
    requires v in st.verses && v.chapterId == c.id
    requires forall x :: x in st.verses && x.chapterId == c.id ==> x.verseNumber >= v.verseNumber
    requires p in st.chapters && p.bookId == c.bookId && p.chapterNumber < c.chapterNumber
    ensures Navigation(st, c, v).prevVerse.None?
    ensures Navigation(st, c, v).prevChapter.Some?
    ensures p.chapterNumber <= Navigation(st, c, v).prevChapter.value.chapterNumber
  {
  }

  // ---------------------------------------------------------------------------
  // search

  const MinQueryLength: nat := 2
  const RowLimit: nat := 50

  /** The stripped query runs only when it is present and at least two characters long. */
  predicate Searchable(q: Option<string>) {
    q.Some? && !Blank(q.value) && |q.value| >= MinQueryLength
  }

  predicate SpanishMatch(v: Verse, q: string) {
    v.spanishText.Some? && Contains(v.spanishText.value, q)
  }

  predicate WordMatch(w: Word, q: string) {
    || (w.greekWord.Some? && Contains(w.greekWord.value, q))
    || (w.spanishTranslation.Some? && Contains(w.spanishTranslation.value, q))
  }

  predicate StrongMatch(s: Strong, q: string) {
    || (s.definition.Some? && Contains(s.definition.value, q))
    || (s.definition2.Some? && Contains(s.definition2.value, q))
  }

  /**
   * Verses whose text contains the query, among those whose chapter and book
   * exist (the inner joins), at most 50; when fewer than 50 come back, every
   * such verse is among them.
   */
  function SpanishResults(st: Store, q: string): (r: seq<Verse>)
    ensures |r| <= RowLimit
    ensures forall v :: v in r ==> v in st.verses && VerseLinked(st, v) && SpanishMatch(v, q)
    ensures |r| < RowLimit ==> forall v :: v in st.verses && VerseLinked(st, v) && SpanishMatch(v, q) ==> v in r
  {
    Take(Filter(st.verses, (v: Verse) => VerseLinked(st, v) && SpanishMatch(v, q)), RowLimit)
  }

  /** The word rows of the second lookup: matching words with a linked verse, at most 50. */
  function GreekRows(st: Store, q: string): (r: seq<Word>)
    ensures |r| <= RowLimit
    ensures forall w :: w in r ==> w in st.words && WordLinked(st, w) && WordMatch(w, q)
    ensures |r| < RowLimit ==> forall w :: w in st.words && WordLinked(st, w) && WordMatch(w, q) ==> w in r
  {
    Take(Filter(st.words, (w: Word) => WordLinked(st, w) && WordMatch(w, q)), RowLimit)
  }

  /** The verses of the matching word rows, each verse once. */
  function GreekResults(st: Store, q: string): (r: seq<Verse>)
    ensures |r| <= RowLimit
    ensures forall v :: v in r ==> v in st.verses && exists w :: w in GreekRows(st, q) && w.verseId == v.id
    ensures forall w :: w in GreekRows(st, q) ==> HasKey(r, Strongs.VerseId, w.verseId)
    ensures DistinctBy(r, Strongs.VerseId)
  {
    var rows := GreekRows(st, q);
    WordVersesKeyed(st, rows);
    VersesOfWordsLength(st, rows);
    DedupBy(Strongs.VersesOfWords(st, rows), Strongs.VerseId)
  }

  /** The verse of every linked word keeps its id after `uniq`. */
  lemma WordVersesKeyed(st: Store, rows: seq<Word>)
    requires forall w :: w in rows ==> WordLinked(st, w)
    ensures forall w :: w in rows ==>
              HasKey(DedupBy(Strongs.VersesOfWords(st, rows), Strongs.VerseId), Strongs.VerseId, w.verseId)
  {
    var verses := Strongs.VersesOfWords(st, rows);
    var r := DedupBy(verses, Strongs.VerseId);
    forall w | w in rows
      ensures HasKey(r, Strongs.VerseId, w.verseId)
    {
      var v := FindVerse(st, w.verseId).value;
      assert v in verses;
      var i :| 0 <= i < |verses| && verses[i] == v;
      assert HasKey(r, Strongs.VerseId, Strongs.VerseId(verses[i]));
    }
  }

  lemma VersesOfWordsLength(st: Store, ws: seq<Word>)
    ensures |Strongs.VersesOfWords(st, ws)| <= |ws|
  {
  }

  /** Some word of the entry has a verse, chapter and book: the inner join keeps the entry. */
  predicate HasLinkedWord(st: Store, s: Strong) {
    exists w :: w in st.words && s.strongNumber.Some? && w.strongNumber == s.strongNumber && WordLinked(st, w)
  }

  /**
   * The entry rows of the third lookup. The association is both joined and
   * included, so it is eager-loaded and `limit(50)` counts distinct entries:
   * at most 50 matching entries with a linked word; when fewer come back,
   * every such entry is among them.
   */
  function StrongRows(st: Store, q: string): (r: seq<Strong>)
    ensures |r| <= RowLimit
    ensures forall s :: s in r ==> s in st.strongs && StrongMatch(s, q) && HasLinkedWord(st, s)
    ensures |r| < RowLimit ==> forall s :: s in st.strongs && StrongMatch(s, q) && HasLinkedWord(st, s) ==> s in r
  {
    Take(Filter(st.strongs, (s: Strong) => StrongMatch(s, q) && HasLinkedWord(st, s)), RowLimit)
  }

  /** Every verse that carries a word of one of the entries in the rows, each once. */
  function StrongResults(st: Store, q: string): (r: seq<Verse>)
    ensures forall v :: v in r ==> exists s :: s in StrongRows(st, q) && v in Strongs.VersesWithThisWord(st, s)
    ensures forall s, v :: s in StrongRows(st, q) && v in Strongs.VersesWithThisWord(st, s) ==> HasKey(r, Strongs.VerseId, v.id)
    ensures DistinctBy(r, Strongs.VerseId)
  {
    var rows := StrongRows(st, q);
    var verses := FlatMap(rows, (s: Strong) => Strongs.VersesWithThisWord(st, s));
    DedupByMembers(verses, Strongs.VerseId);
    DedupBy(verses, Strongs.VerseId)
  }

  /** The name of a verse's book, "" for a verse whose chapter or book is missing. */
  function BookNameOf(st: Store, v: Verse): string {
    match FindChapter(st, v.chapterId)
    case None => ""
    case Some(c) =>
      match FindBook(st, c.bookId)
      case None => ""
      case Some(b) => b.name
  }

  /** The number of a verse's chapter, 0 for a verse whose chapter is missing. */
  function ChapterNumberOf(st: Store, v: Verse): int {
    match FindChapter(st, v.chapterId)
    case None => 0
    case Some(c) => c.chapterNumber
  }

  /** The `sort_by` key order: book name, then chapter number, then verse number. */
  predicate ResultLe(st: Store, a: Verse, b: Verse) {
    var na, nb := BookNameOf(st, a), BookNameOf(st, b);
    || (LexLe(na, nb) && na != nb)
    || (na == nb && ChapterNumberOf(st, a) < ChapterNumberOf(st, b))
    || (na == nb && ChapterNumberOf(st, a) == ChapterNumberOf(st, b) && a.verseNumber <= b.verseNumber)
  }

  lemma ResultLeTotalPreorder(st: Store)
    ensures TotalPreorder((a: Verse, b: Verse) => ResultLe(st, a, b))
  {
    forall a: Verse, b: Verse
      ensures ResultLe(st, a, b) || ResultLe(st, b, a)
    {
      LexLeTotal(BookNameOf(st, a), BookNameOf(st, b));
    }
    forall a: Verse, b: Verse, c: Verse | ResultLe(st, a, b) && ResultLe(st, b, c)
      ensures ResultLe(st, a, c)
    {
      var na, nb, nc := BookNameOf(st, a), BookNameOf(st, b), BookNameOf(st, c);
      if na != nb && nb != nc {
        LexLeTransitive(na, nb, nc);
        if na == nc {
          LexLeAntisymmetric(na, nb);
        }
      }
    }
  }

  /**
   * The union of the three lookups without repeated verses, sorted by book
   * name, chapter number and verse number. Every verse of the result came
   * from one of the lookups, and every verse any lookup found is in it.
   */
  function SearchResults(st: Store, q: string): (r: seq<Verse>)
    ensures DistinctBy(r, Strongs.VerseId)
    ensures SortedBy(r, (a: Verse, b: Verse) => ResultLe(st, a, b))
    ensures forall v :: v in r ==> v in SpanishResults(st, q) || v in GreekResults(st, q) || v in StrongResults(st, q)
    ensures forall v :: v in SpanishResults(st, q) + GreekResults(st, q) + StrongResults(st, q) ==> HasKey(r, Strongs.VerseId, v.id)
  {
    var union := SpanishResults(st, q) + GreekResults(st, q) + StrongResults(st, q);
    var unique := DedupBy(union, Strongs.VerseId);
    ResultLeTotalPreorder(st);
    var r := InsertionSort(unique, (a: Verse, b: Verse) => ResultLe(st, a, b));
    DistinctByPermutation(unique, r, Strongs.VerseId);
    DedupByMembers(union, Strongs.VerseId);
    PermutationKeepsMembers(unique, r);
    PermutationKeepsKeys(unique, r, Strongs.VerseId);
    r
  }

  datatype SearchPage = SearchPage(query: Option<string>, results: seq<Verse>, totalResults: nat)

  /**
   * `search`: the stripped query; results only for a searchable query, and a
   * count taken after de-duplication.
   */
  function SearchFor(st: Store, q: Option<string>): (r: SearchPage)
    ensures q.None? ==> r.query.None?
    ensures q.Some? ==> r.query == Some(Strip(q.value))
    ensures !Searchable(r.query) ==> r.results == []
    ensures Searchable(r.query) ==> r.results == SearchResults(st, r.query.value)
    ensures r.totalResults == |r.results|
    ensures DistinctBy(r.results, Strongs.VerseId)
  {
    var query := if q.Some? then Some(Strip(q.value)) else None;
    var results := if Searchable(query) then SearchResults(st, query.value) else [];
    SearchPage(query, results, |results|)
  }

  /** A query of fewer than two characters once stripped finds nothing, whatever the corpus. */
  lemma ShortQueryFindsNothing(st: Store, q: string)
    requires |Strip(q)| < MinQueryLength
    ensures SearchFor(st, Some(q)).results == [] && SearchFor(st, Some(q)).totalResults == 0
  {
  }

  /**
   * Only verse texts, word forms and translations, and lexicon definitions are
   * searched: a query found in none of them finds nothing, even when it is a
   * word's or an entry's Strong's number.
   */
  lemma {:induction false} UnmatchedQueryFindsNothing(st: Store, q: string)
    requires forall v :: v in st.verses ==> !SpanishMatch(v, q)
    requires forall w :: w in st.words ==> !WordMatch(w, q)
    requires forall s :: s in st.strongs ==> !StrongMatch(s, q)
    ensures SearchResults(st, q) == []
  {
  }

  // ---------------------------------------------------------------------------
  // interlinear (the filters called directly)

  /** Why a response failed instead of rendering or redirecting. */
  datatype Failure = NoMethodOnNil

  /**
   * `interlinear` calls the three filters directly instead of as before-actions,
   * so a filter's redirect does not stop it: the next step dereferences the
   * record that was not found and raises.
   */
  function InterlinearAsWritten(st: Store, bookParam: string, chapterParam: string, verseParam: string)
    : (r: Result<seq<(Word, Option<Strong>)>, Failure>)
    ensures ResolveVerse(st, bookParam, chapterParam, verseParam).Redirect? ==> r == Err(NoMethodOnNil)
    ensures ResolveVerse(st, bookParam, chapterParam, verseParam).Found? ==>
              r == Ok(Verses.WordsWithStrongs(st, ResolveVerse(st, bookParam, chapterParam, verseParam).verse))
  {
    match ResolveVerse(st, bookParam, chapterParam, verseParam)
    case Redirect(_, _) => Err(NoMethodOnNil)
    case Found(_, _, v) => Ok(Verses.WordsWithStrongs(st, v))
  }

  /** The words partial, or the redirect the filters chose. */
  datatype InterlinearResponse = Words(words: seq<(Word, Option<Strong>)>) | Redirected(to: Location, alert: string)

  /**
   * `interlinear` as the other verse actions behave: a missing record
   * redirects exactly as `show_verse` does, and never fails.
   */
  function Interlinear(st: Store, bookParam: string, chapterParam: string, verseParam: string): (r: InterlinearResponse)
    ensures r.Redirected? <==> ResolveVerse(st, bookParam, chapterParam, verseParam).Redirect?
    ensures r.Redirected? ==> Redirect(r.to, r.alert) == ResolveVerse(st, bookParam, chapterParam, verseParam)
    ensures r.Words? ==> r.words == Verses.WordsWithStrongs(st, ResolveVerse(st, bookParam, chapterParam, verseParam).verse)
  {
    match ResolveVerse(st, bookParam, chapterParam, verseParam)
    case Redirect(to, alert) => Redirected(to, alert)
    case Found(_, _, v) => Words(Verses.WordsWithStrongs(st, v))
  }

  /** An empty store and any address: `interlinear` as written fails where the fix redirects to the root. */
  lemma InterlinearFailsOnMissingBook(bookParam: string, chapterParam: string, verseParam: string)
    ensures InterlinearAsWritten(Store([], [], [], [], []), bookParam, chapterParam, verseParam) == Err(NoMethodOnNil)
    ensures Interlinear(Store([], [], [], [], []), bookParam, chapterParam, verseParam) == Redirected(Root, BookNotFound)
  {
  }

  // ---------------------------------------------------------------------------
  // load_word_display_settings

  /** The word display defaults of the verse page: Greek, Spanish, Strong's and grammar shown. */
  function WordDisplayDefaults(): (r: DisplaySettings)
    ensures r.Keys == {"show_greek", "show_spanish", "show_strongs", "show_grammar", "show_pronunciation", "show_word_order"}
    ensures "show_hebrew" !in r
  {
    map[
      "show_greek" := true,
      "show_spanish" := true,
      "show_strongs" := true,
      "show_grammar" := true,
      "show_pronunciation" := false,
      "show_word_order" := false]
  }

  /**
   * `load_word_display_settings`: a stored hash overrides the defaults key by
   * key (and may add keys); any other stored value is ignored.
   */
  function LoadWordDisplaySettings(stored: Stored): (r: DisplaySettings)
    ensures WordDisplayDefaults().Keys <= r.Keys
    ensures stored.HashValue? ==> r.Keys == WordDisplayDefaults().Keys + stored.h.Keys
    ensures stored.HashValue? ==> forall k :: k in stored.h ==> r[k] == stored.h[k]
    ensures forall k :: k in WordDisplayDefaults() && (!stored.HashValue? || k !in stored.h) ==> r[k] == WordDisplayDefaults()[k]
    ensures !stored.HashValue? ==> r == WordDisplayDefaults()
  {
    if stored.HashValue? then WordDisplayDefaults() + stored.h else WordDisplayDefaults()
  }

  // ---------------------------------------------------------------------------
  // The verse actions, field by field

  /** The instance variables the verse and search actions assign. */
  class BibleView {
    var words: seq<(Word, Option<Strong>)>
    var spanishText: Option<string>
    var navigation: VerseNavigation
    var slideshowMode: bool
    var wordDisplaySettings: DisplaySettings
    var query: Option<string>
    var results: seq<Verse>
    var totalResults: nat
    var allBooks: Option<seq<Book>>

    constructor ()
      ensures words == [] && spanishText.None? && query.None? && results == [] && totalResults == 0
      ensures navigation == VerseNavigation(None, None, None, None) && !slideshowMode
      ensures wordDisplaySettings == map[] && allBooks.None?
    {
      allBooks := None;
      wordDisplaySettings := map[];
      words := [];
      spanishText := None;
      navigation := VerseNavigation(None, None, None, None);
      slideshowMode := false;
      query := None;
      results := [];
      totalResults := 0;
    }

    /**
     * `show_verse` after the filters found the verse: its words by order with
     * their entries, its text, the neighbour links, every book in canonical
     * order, and slideshow mode exactly when the parameter is "true".
     */
    method ShowVerse(st: Store, c: Chapter, v: Verse, slideshowParam: Option<string>, session: Stored)
      modifies this`words, this`spanishText, this`navigation, this`allBooks, this`slideshowMode, this`wordDisplaySettings
      ensures words == Verses.WordsWithStrongs(st, v) && spanishText == v.spanishText
      ensures navigation == Navigation(st, c, v)
      ensures allBooks == Some(Books.ByName(st))
      ensures slideshowMode <==> slideshowParam == Some("true")
      ensures wordDisplaySettings == LoadWordDisplaySettings(session)
    {
      SetAllBooks(st);
      ghost var all := allBooks;
      LoadVerse(st, c, v);
      ghost var w, t, nav := words, spanishText, navigation;
      SetDisplayMode(slideshowParam, session);
      assert words == w && spanishText == t && navigation == nav && allBooks == all;
    }

    /** `@all_books`: every book in canonical order. */
    method SetAllBooks(st: Store)
      modifies this`allBooks
      ensures allBooks == Some(Books.ByName(st))
    {
      allBooks := Some(Books.ByName(st));
    }

    /** Slideshow mode from the parameter and the word display settings from the session. */
    method SetDisplayMode(slideshowParam: Option<string>, session: Stored)
      modifies this`slideshowMode, this`wordDisplaySettings
      ensures slideshowMode <==> slideshowParam == Some("true")
      ensures wordDisplaySettings == LoadWordDisplaySettings(session)
    {
      slideshowMode := slideshowParam == Some("true");
      wordDisplaySettings := LoadWordDisplaySettings(session);
    }

    /** `slideshow`: the same words, text and neighbour links as the verse page. */
    method Slideshow(st: Store, c: Chapter, v: Verse)
      modifies this`words, this`spanishText, this`navigation
      ensures words == Verses.WordsWithStrongs(st, v) && spanishText == v.spanishText
      ensures navigation == Navigation(st, c, v)
    {
      LoadVerse(st, c, v);
    }

    /** What `show_verse` and `slideshow` share: the words, the text, the neighbour links. */
    method LoadVerse(st: Store, c: Chapter, v: Verse)
      modifies this`words, this`spanishText, this`navigation
      ensures words == Verses.WordsWithStrongs(st, v) && spanishText == v.spanishText
      ensures navigation == Navigation(st, c, v)
    {
      SetWords(st, v);
      SetNavigation(st, c, v);
    }

    /** The verse's words by order, each with its lexicon entry, and its Spanish text. */
    method SetWords(st: Store, v: Verse)
      modifies this`words, this`spanishText
      ensures words == Verses.WordsWithStrongs(st, v) && spanishText == v.spanishText
    {
      words := Verses.WordsWithStrongs(st, v);
      spanishText := v.spanishText;
    }

    /**
     * The neighbour assignments shared by `show_verse` and `slideshow`: the
     * previous and next verse, then a neighbouring chapter only where the
     * verse on that side is missing.
     */
    method SetNavigation(st: Store, c: Chapter, v: Verse)
      modifies this`navigation
      ensures navigation == Navigation(st, c, v)
    {
      var prevVerse := Verses.PreviousVerse(st, v);
      var nextVerse := Verses.NextVerse(st, v);
      var prevChapter: Option<Chapter> := None;
      var nextChapter: Option<Chapter> := None;
      if prevVerse.None? {
        prevChapter := Chapters.PreviousChapter(st, c);
      }
      if nextVerse.None? {
        nextChapter := Chapters.NextChapter(st, c);
      }
      navigation := VerseNavigation(prevVerse, nextVerse, prevChapter, nextChapter);
      assert navigation == Navigation(st, c, v);
    }

    /** `search`, assigning the query, the results and their count in turn. */
    method Search(st: Store, q: Option<string>)
      modifies this`query, this`results, this`totalResults
      ensures query == SearchFor(st, q).query
      ensures results == SearchFor(st, q).results
      ensures totalResults == |results|
    {
      query := if q.Some? then Some(Strip(q.value)) else None;
      FindResults(st);
    }

    /** The results for the assigned query (none for one too short to search) and their count. */
    method FindResults(st: Store)
      modifies this`results, this`totalResults
      ensures !Searchable(query) ==> results == []
      ensures Searchable(query) ==> results == SearchResults(st, query.value)
      ensures totalResults == |results|
    {
      results := [];
      if Searchable(query) {
        results := SearchResults(st, query.value);
      }
      totalResults := |results|;
    }
  }
}
