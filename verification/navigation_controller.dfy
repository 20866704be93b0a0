/**
 * `NavigationController`: the book / chapter / verse picker. A filter loads
 * the picker's data from the request parameters before every action except
 * `close`; `select_book` and `select_chapter` then reload the book with a
 * fallback to the first book, and `update` either jumps to the slideshow or
 * shows the picker again.
 */
module NavigationController {
  import opened Wrappers
  import opened Text
  import opened Corpus
  import Books
  import Chapters
  import Verses
  import BibleController

  /** The picker's three parameters, each absent (nil) or its text. */
  datatype Params = Params(bookId: Option<string>, chapterNumber: Option<string>, verseNumber: Option<string>)

  /**
   * `@chapter_number`: the raw parameter, until `select_book` replaces it by
   * the integer number of the chapter it found.
   */
  datatype NumberField = Param(raw: Option<string>) | Number(n: int)

  // ---------------------------------------------------------------------------
  // Lookups with fallback

  /** `Book.find_by(id: param)`: nothing for a nil, empty or non-numeric parameter. */
  function FindBookParam(st: Store, param: Option<string>): (r: Option<Book>)
    ensures r.Some? ==> r.value in st.books && param.Some? && BibleController.ParamToNat(param.value) == Some(r.value.id)
    ensures r.None? ==> param.None? || BibleController.ParamToNat(param.value).None?
                        || forall b :: b in st.books ==> b.id != BibleController.ParamToNat(param.value).value
  {
    if param.None? then None else BibleController.BookParam(st, param.value)
  }

  /** `Book.find_by(id:)`, falling back to `Book.first` when nothing is found. */
  function BookOrFirst(st: Store, param: Option<string>): (r: Option<Book>)
    ensures r.None? <==> st.books == []
    ensures r.Some? ==> r.value in st.books
    ensures FindBookParam(st, param).Some? ==> r == FindBookParam(st, param)
    ensures FindBookParam(st, param).None? ==> r == Books.First(st)
  {
    match FindBookParam(st, param)
    case Some(b) => Some(b)
    case None => Books.First(st)
  }

  /** `book.chapters.find_by(chapter_number: param)`, the parameter cast to an integer. */
  function ChapterByParam(st: Store, book: Book, param: Option<string>): (r: Option<Chapter>)
    ensures r.Some? ==> r.value in st.chapters && r.value.bookId == book.id
                        && param.Some? && BibleController.ParamToNat(param.value) == Some(r.value.chapterNumber)
    ensures r.None? ==> param.None? || BibleController.ParamToNat(param.value).None?
                        || forall c :: c in st.chapters && c.bookId == book.id ==> c.chapterNumber != BibleController.ParamToNat(param.value).value
  {
    if param.None? then None
    else match BibleController.ParamToNat(param.value)
      case None => None
      case Some(n) => Chapters.FindByNumber(st, book.id, n)
  }

  /** `@chapter&.verses&.by_number || []`: the chapter's verses by number, or none without a chapter. */
  function VersesOrEmpty(st: Store, chapter: Option<Chapter>): (r: seq<Verse>)
    ensures chapter.None? ==> r == []
    ensures chapter.Some? ==> forall v :: v in r <==> v in st.verses && v.chapterId == chapter.value.id
    ensures forall i, j :: 0 <= i < j < |r| ==> r[i].verseNumber <= r[j].verseNumber
  {
    if chapter.None? then []
    else
      var r := Verses.VersesByNumber(st, chapter.value.id);
      assert forall v :: v in r <==> v in multiset(Verses.VersesOf(st, chapter.value.id));
      r
  }

  /** Whatever the parameter, a store with books yields a book, and a known id yields that book. */
  lemma {:induction false} BookFallback(st: Store, param: Option<string>, b: Book)
    requires b in st.books && IdsUnique(st)
    ensures BookOrFirst(st, param).Some?
    ensures param == Some(NatToString(b.id)) ==> BookOrFirst(st, param) == Some(b)
    ensures FindBookParam(st, param).None? ==> BookOrFirst(st, param).value.id <= b.id
  {
    if param == Some(NatToString(b.id)) {
      BibleController.ParamOfNatToString(b.id);
      var f := FindBookParam(st, param).value;
      var i :| 0 <= i < |st.books| && st.books[i] == b;
      var j :| 0 <= j < |st.books| && st.books[j] == f;
      assert i == j;
    }
  }

  // ---------------------------------------------------------------------------
  // update

  /** `params[:x] || params.dig(:navigation, :x)`: only a missing top-level value falls through. */
  function EitherParam(top: Option<string>, nested: Option<Params>, pick: Params -> Option<string>): (r: Option<string>)
    ensures top.Some? ==> r == top
    ensures top.None? && nested.Some? ==> r == pick(nested.value)
    ensures top.None? && nested.None? ==> r.None?
  {
    if top.Some? then top else if nested.Some? then pick(nested.value) else None
  }

  /** The three values `update` decides on. */
  function UpdateParams(top: Params, nested: Option<Params>): (r: Params)
    ensures top.bookId.Some? ==> r.bookId == top.bookId
    ensures top.chapterNumber.Some? ==> r.chapterNumber == top.chapterNumber
    ensures top.verseNumber.Some? ==> r.verseNumber == top.verseNumber
    ensures top.bookId.None? && nested.Some? ==> r.bookId == nested.value.bookId
    ensures top.chapterNumber.None? && nested.Some? ==> r.chapterNumber == nested.value.chapterNumber
    ensures top.verseNumber.None? && nested.Some? ==> r.verseNumber == nested.value.verseNumber
    ensures nested.None? ==> r == top
  {
    Params(
      EitherParam(top.bookId, nested, (p: Params) => p.bookId),
      EitherParam(top.chapterNumber, nested, (p: Params) => p.chapterNumber),
      EitherParam(top.verseNumber, nested, (p: Params) => p.verseNumber))
  }

  /** What `update` answers: the slideshow at the three values, or the picker again. */
  datatype UpdateOutcome =
    | SlideshowRedirect(bookId: string, chapterNumber: string, verseNumber: string)
    | RenderShow

  /** `update`'s decision: the slideshow exactly when all three values are present. */
  function Decide(top: Params, nested: Option<Params>): (r: UpdateOutcome)
    ensures var p := UpdateParams(top, nested);
      r.SlideshowRedirect? <==> Present(p.bookId) && Present(p.chapterNumber) && Present(p.verseNumber)
    ensures var p := UpdateParams(top, nested);
      r.SlideshowRedirect? ==> r == SlideshowRedirect(p.bookId.value, p.chapterNumber.value, p.verseNumber.value)
  {
    var p := UpdateParams(top, nested);
    if Present(p.bookId) && Present(p.chapterNumber) && Present(p.verseNumber) then
      SlideshowRedirect(p.bookId.value, p.chapterNumber.value, p.verseNumber.value)
    else RenderShow
  }

  /** The form's nested values are used only where the top level has none. */
  lemma NestedFormReachesSlideshow(b: string, c: string, n: string)
    requires !Blank(b) && !Blank(c) && !Blank(n)
    ensures Decide(Params(None, None, None), Some(Params(Some(b), Some(c), Some(n)))) == SlideshowRedirect(b, c, n)
  {
  }

  /** A blank top-level value is kept by `||` and hides the form's value: the picker is shown again. */
  lemma BlankTopLevelHidesNested(nested: Params)
    ensures Decide(Params(Some(""), None, None), Some(nested)) == RenderShow
  {
    assert UpdateParams(Params(Some(""), None, None), Some(nested)).bookId == Some("");
  }

  // ---------------------------------------------------------------------------
  // The controller's instance variables

  /** The instance variables one request's controller assigns. */
  class Picker {
    var bookId: Option<string>
    var chapterNumber: NumberField
    var verseNumber: Option<string>
    var allBooks: Option<seq<Book>>
    var book: Option<Book>
    var chapters: Option<seq<Chapter>>
    var chapter: Option<Chapter>
    var verses: Option<seq<Verse>>
    var navigationData: Option<Params>

    /** A controller is created for each request with no instance variable set. */
    ghost predicate Unset()
      reads this
    {
      && bookId.None? && chapterNumber == Param(None) && verseNumber.None? && allBooks.None?
      && book.None? && chapters.None? && chapter.None? && verses.None? && navigationData.None?
    }

    /** `@book_id`, `@chapter_number` and `@verse_number` hold the raw parameters. */
    ghost predicate Echoes(p: Params)
      reads this`bookId, this`chapterNumber, this`verseNumber
    {
      bookId == p.bookId && chapterNumber == Param(p.chapterNumber) && verseNumber == p.verseNumber
    }

    /** `@book` is the book the parameter names, else the first book, and there is one. */
    ghost predicate HasBook(st: Store, param: Option<string>)
      reads this`book
    {
      book == BookOrFirst(st, param) && book.Some?
    }

    /** `@chapters`: the book's chapters by number. */
    ghost predicate HasChapters(st: Store)
      reads this`book, this`chapters
    {
      book.Some? && chapters.Some? && chapters.value == Chapters.ChaptersByNumber(st, book.value.id)
    }

    /** `@verses`: the chapter's verses by number, or none without a chapter. */
    ghost predicate HasVerses(st: Store)
      reads this`chapter, this`verses
    {
      verses.Some? && verses.value == VersesOrEmpty(st, chapter)
    }

    /**
     * What `load_navigation_data` leaves in the book fields: nothing without a
     * book id; the book and its chapters with one; the chapter the number names
     * and its verses when a chapter number is present too.
     */
    ghost predicate Loaded(st: Store, p: Params)
      reads this`book, this`chapters, this`chapter, this`verses
    {
      if !Present(p.bookId) then book.None? && chapters.None? && chapter.None? && verses.None?
      else
        && HasBook(st, p.bookId) && HasChapters(st)
        && if !Present(p.chapterNumber) then chapter.None? && verses.None?
           else chapter == ChapterByParam(st, book.value, p.chapterNumber) && HasVerses(st)
    }

    constructor ()
      ensures Unset()
    {
      bookId := None;
      chapterNumber := Param(None);
      verseNumber := None;
      allBooks := None;
      book := None;
      chapters := None;
      chapter := None;
      verses := None;
      navigationData := None;
    }

    /**
     * `load_navigation_data`: the raw parameters, every book in canonical
     * order, the book fields as `Loaded` says, and the form data echoing the
     * raw parameters. With a book id but no book at all, `nil.chapters`
     * raises (`ok` false).
     */
    method LoadNavigationData(st: Store, p: Params) returns (ok: bool)
      requires Unset()
      modifies this
      ensures ok <==> !Present(p.bookId) || st.books != []
      ensures Echoes(p)
      ensures allBooks.Some? && allBooks.value == Books.ByName(st)
      ensures ok ==> navigationData.Some? && navigationData.value == p
      ensures ok ==> Loaded(st, p)
    {
      AssignParams(p);
      LoadAllBooks(st);
      ok := LoadBookFields(st, p);
    }

    /** `@all_books`: every book in canonical order. */
    method LoadAllBooks(st: Store)
      modifies this`allBooks
      ensures allBooks.Some? && allBooks.value == Books.ByName(st)
    {
      allBooks := Some(Books.ByName(st));
    }

    /** `@navigation_data`: the form's default values, the raw parameters. */
    method SetNavigationData(p: Params)
      modifies this`navigationData
      ensures navigationData.Some? && navigationData.value == p
    {
      navigationData := Some(p);
    }

    /** The first lines of `load_navigation_data`: the raw parameters. */
    method AssignParams(p: Params)
      modifies this`bookId, this`chapterNumber, this`verseNumber
      ensures Echoes(p)
    {
      bookId := p.bookId;
      chapterNumber := Param(p.chapterNumber);
      verseNumber := p.verseNumber;
    }

    /**
     * The rest of `load_navigation_data`: the `if @book_id.present?` block,
     * then the form data, which a raise in the block leaves unset.
     */
    method LoadBookFields(st: Store, p: Params) returns (ok: bool)
      requires book.None? && chapters.None? && chapter.None? && verses.None?
      modifies this`book, this`chapters, this`chapter, this`verses, this`navigationData
      ensures ok <==> !Present(p.bookId) || st.books != []
      ensures ok ==> navigationData.Some? && navigationData.value == p
      ensures ok ==> Loaded(st, p)
    {
      ok := LoadBook(st, p);
      if ok {
        SetNavigationData(p);
      }
    }

    /** The `if @book_id.present?` block of `load_navigation_data`. */
    method LoadBook(st: Store, p: Params) returns (ok: bool)
      requires book.None? && chapters.None? && chapter.None? && verses.None?
      modifies this`book, this`chapters, this`chapter, this`verses
      ensures ok <==> !Present(p.bookId) || st.books != []
      ensures ok ==> Loaded(st, p)
    {
      ok := true;
      if Present(p.bookId) {
        ok := FindBookOrFirst(st, p.bookId);
        if ok {
          LoadChapters(st);
          if Present(p.chapterNumber) {
            LoadChapter(st, p.chapterNumber);
          }
        }
      }
    }

    /** `Book.find_by(id:)`, else `Book.first`; `ok` is false when even that is nil. */
    method FindBookOrFirst(st: Store, param: Option<string>) returns (ok: bool)
      modifies this`book
      ensures ok <==> st.books != []
      ensures ok <==> HasBook(st, param)
      ensures book == BookOrFirst(st, param)
    {
      book := FindBookParam(st, param);
      if book.None? {
        book := Books.First(st);
      }
      ok := book.Some?;
    }

    /** `@chapters = @book.chapters.by_number`. */
    method LoadChapters(st: Store)
      requires book.Some?
      modifies this`chapters
      ensures HasChapters(st)
    {
      chapters := Some(Chapters.ChaptersByNumber(st, book.value.id));
    }

    /** `@chapter = @book.chapters.find_by(chapter_number:)` and its verses by number. */
    method LoadChapter(st: Store, param: Option<string>)
      requires book.Some?
      modifies this`chapter, this`verses
      ensures chapter == ChapterByParam(st, book.value, param)
      ensures HasVerses(st)
    {
      chapter := ChapterByParam(st, book.value, param);
      verses := Some(VersesOrEmpty(st, chapter));
    }

    /** `show`: the filter's data, nothing more. */
    method Show(st: Store, p: Params) returns (ok: bool)
      requires Unset()
      modifies this
      ensures ok <==> !Present(p.bookId) || st.books != []
      ensures Echoes(p)
      ensures allBooks.Some? && allBooks.value == Books.ByName(st)
      ensures ok ==> navigationData.Some? && navigationData.value == p && Loaded(st, p)
    {
      ok := LoadNavigationData(st, p);
    }

    /**
     * `update`: after the filter, the slideshow when the three values (top
     * level first, else the form's) are all present, the picker otherwise.
     */
    method Update(st: Store, top: Params, nested: Option<Params>) returns (ok: bool, outcome: UpdateOutcome)
      requires Unset()
      modifies this
      ensures ok <==> !Present(top.bookId) || st.books != []
      ensures Echoes(top)
      ensures allBooks.Some? && allBooks.value == Books.ByName(st)
      ensures ok ==> outcome == Decide(top, nested)
      ensures ok ==> navigationData.Some? && navigationData.value == top && Loaded(st, top)
    {
      outcome := RenderShow;
      ok := LoadNavigationData(st, top);
      if !ok {
        return;
      }
      var b := if top.bookId.Some? then top.bookId else if nested.Some? then nested.value.bookId else None;
      var c := if top.chapterNumber.Some? then top.chapterNumber else if nested.Some? then nested.value.chapterNumber else None;
      var n := if top.verseNumber.Some? then top.verseNumber else if nested.Some? then nested.value.verseNumber else None;
      if Present(b) && Present(c) && Present(n) {
        outcome := SlideshowRedirect(b.value, c.value, n.value);
      }
    }

    /**
     * What `select_book` leaves: the book (or the first book), its chapters,
     * its chapter 1 with that chapter's verses; without a chapter 1 the verses
     * are empty and `@chapter_number` keeps the raw parameter.
     */
    ghost predicate BookSelected(st: Store, p: Params)
      reads this`book, this`chapters, this`chapter, this`chapterNumber, this`verses
    {
      && HasBook(st, p.bookId) && HasChapters(st)
      && chapter == Chapters.FindByNumber(st, book.value.id, 1)
      && (chapter.Some? ==> chapterNumber == Number(1))
      && (chapter.None? ==> chapterNumber == Param(p.chapterNumber))
      && HasVerses(st)
    }

    /**
     * `select_book`, after the filter. With no book at all `nil.chapters`
     * raises (`ok` false); otherwise the book fields are as `BookSelected`
     * says, and the other fields as the filter left them.
     */
    method SelectBook(st: Store, p: Params) returns (ok: bool)
      requires Unset()
      modifies this
      ensures ok <==> st.books != []
      ensures ok ==> BookSelected(st, p)
      ensures ok ==> bookId == p.bookId && verseNumber == p.verseNumber
      ensures allBooks.Some? && allBooks.value == Books.ByName(st)
      ensures ok ==> navigationData.Some? && navigationData.value == p
    {
      ok := LoadNavigationData(st, p);
      if !ok {
        return;
      }
      assert chapterNumber == Param(p.chapterNumber);
      ok := ChooseBook(st, p);
    }

    /** `select_book`'s own lines. */
    method ChooseBook(st: Store, p: Params) returns (ok: bool)
      requires chapterNumber == Param(p.chapterNumber)
      modifies this`bookId, this`chapterNumber, this`book, this`chapters, this`chapter, this`verses
      ensures bookId == p.bookId
      ensures ok <==> st.books != []
      ensures ok ==> BookSelected(st, p)
    {
      ok := ReloadBook(st, p.bookId);
      if ok {
        LoadFirstChapter(st, p);
      }
    }

    /**
     * The opening lines of `select_book` and `select_chapter`: the book by id,
     * else the first book; with no book at all the next line's `nil.chapters`
     * raises (`ok` false).
     */
    method ReloadBook(st: Store, param: Option<string>) returns (ok: bool)
      modifies this`bookId, this`book
      ensures bookId == param
      ensures ok <==> st.books != []
      ensures ok <==> HasBook(st, param)
    {
      bookId := param;
      ok := FindBookOrFirst(st, param);
    }

    /** The rest of `select_book`: the book's chapters, its chapter 1 and that chapter's verses. */
    method LoadFirstChapter(st: Store, p: Params)
      requires HasBook(st, p.bookId) && chapterNumber == Param(p.chapterNumber)
      modifies this`chapters, this`chapter, this`chapterNumber, this`verses
      ensures BookSelected(st, p)
      ensures chapter.Some? ==> chapter.value in st.chapters && chapter.value.bookId == book.value.id
      ensures chapter.None? ==> verses.Some? && verses.value == []
    {
      LoadChapters(st);
      chapter := Chapters.FindByNumber(st, book.value.id, 1);
      if chapter.Some? {
        chapterNumber := Number(chapter.value.chapterNumber);
      }
      verses := Some(VersesOrEmpty(st, chapter));
    }

    /**
     * What `select_chapter` leaves: the book (or the first book), the chapter
     * the number parameter names in it, that chapter's verses (empty without
     * one), and the book's chapters.
     */
    ghost predicate ChapterSelected(st: Store, p: Params)
      reads this`book, this`chapters, this`chapter, this`verses
    {
      && HasBook(st, p.bookId)
      && chapter == ChapterByParam(st, book.value, p.chapterNumber)
      && HasVerses(st) && HasChapters(st)
    }

    /**
     * `select_chapter`, after the filter. With no book at all `nil.chapters`
     * raises (`ok` false); otherwise the book fields are as `ChapterSelected`
     * says, and the raw parameters and the form data stay.
     */
    method SelectChapter(st: Store, p: Params) returns (ok: bool)
      requires Unset()
      modifies this
      ensures ok <==> st.books != []
      ensures ok ==> ChapterSelected(st, p) && Echoes(p)
      ensures allBooks.Some? && allBooks.value == Books.ByName(st)
      ensures ok ==> navigationData.Some? && navigationData.value == p
    {
      ok := LoadNavigationData(st, p);
      if ok {
        ghost var data, all := navigationData, allBooks;
        ok := ChooseChapter(st, p);
        assert verseNumber == p.verseNumber && navigationData == data && allBooks == all;
      }
    }

    /** `select_chapter`'s own lines. */
    method ChooseChapter(st: Store, p: Params) returns (ok: bool)
      modifies this`bookId, this`chapterNumber, this`book, this`chapters, this`chapter, this`verses
      ensures bookId == p.bookId && chapterNumber == Param(p.chapterNumber)
      ensures ok <==> st.books != []
      ensures ok ==> ChapterSelected(st, p)
    {
      ReassignChapterNumber(p.chapterNumber);
      ok := ReloadBook(st, p.bookId);
      if ok {
        LoadChosenChapter(st, p);
      }
    }

    /** `@chapter_number = params[:chapter_number]` again. */
    method ReassignChapterNumber(param: Option<string>)
      modifies this`chapterNumber
      ensures chapterNumber == Param(param)
    {
      chapterNumber := Param(param);
    }

    /** The rest of `select_chapter`: the chapter the number names, its verses, the book's chapters. */
    method LoadChosenChapter(st: Store, p: Params)
      requires HasBook(st, p.bookId)
      modifies this`chapters, this`chapter, this`verses
      ensures ChapterSelected(st, p)
    {
      LoadChapter(st, p.chapterNumber);
      LoadChapters(st);
    }
  }
}
