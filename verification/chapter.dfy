/**
 * Chapters: validation, neighbour navigation inside a book (gaps in the
 * numbering allowed) and `full_reference`.
 */
module Chapters {
  import opened Wrappers
  import opened Seqs
  import opened Text
  import opened Corpus

  /** `chapter_number` present and positive (uniqueness per book is `Corpus.ChapterNumbersUnique`). */
  predicate ValidChapter(c: Chapter) {
    c.chapterNumber > 0
  }

  /** `book.chapters`: the chapters whose `book_id` is `bookId`, in store order. */
  function ChaptersOf(st: Store, bookId: nat): (r: seq<Chapter>)
    ensures forall x :: x in r <==> x in st.chapters && x.bookId == bookId
  {
    Filter(st.chapters, (x: Chapter) => x.bookId == bookId)
  }

  function Number(c: Chapter): int { c.chapterNumber }

  /**
   * `next_chapter`: the chapter of the same book with the smallest number
   * strictly greater than this one's, or None.
   */
  function NextChapter(st: Store, c: Chapter): (r: Option<Chapter>)
    ensures r.None? <==> forall x :: x in st.chapters && x.bookId == c.bookId ==> x.chapterNumber <= c.chapterNumber
    ensures r.Some? ==> r.value in st.chapters && r.value.bookId == c.bookId && r.value.chapterNumber > c.chapterNumber
    ensures r.Some? ==> forall x :: x in st.chapters && x.bookId == c.bookId && x.chapterNumber > c.chapterNumber
                                    ==> r.value.chapterNumber <= x.chapterNumber
  {
    var siblings := ChaptersOf(st, c.bookId);
    var r := LeastAbove(siblings, Number, c.chapterNumber);
    assert forall x :: x in siblings ==> exists i :: 0 <= i < |siblings| && siblings[i] == x;
    r
  }

  /**
   * `previous_chapter`: the chapter of the same book with the largest number
   * strictly smaller than this one's, or None.
   */
  function PreviousChapter(st: Store, c: Chapter): (r: Option<Chapter>)
    ensures r.None? <==> forall x :: x in st.chapters && x.bookId == c.bookId ==> x.chapterNumber >= c.chapterNumber
    ensures r.Some? ==> r.value in st.chapters && r.value.bookId == c.bookId && r.value.chapterNumber < c.chapterNumber
    ensures r.Some? ==> forall x :: x in st.chapters && x.bookId == c.bookId && x.chapterNumber < c.chapterNumber
                                    ==> x.chapterNumber <= r.value.chapterNumber
  {
    var siblings := ChaptersOf(st, c.bookId);
    var r := GreatestBelow(siblings, Number, c.chapterNumber);
    assert forall x :: x in siblings ==> exists i :: 0 <= i < |siblings| && siblings[i] == x;
    r
  }

  /** Two chapters of one book with the same number are the same chapter. */
  lemma SameNumberSameChapter(st: Store, a: Chapter, b: Chapter)
    requires ChapterNumbersUnique(st.chapters)
    requires a in st.chapters && b in st.chapters
    requires a.bookId == b.bookId && a.chapterNumber == b.chapterNumber
    ensures a == b
  {
    var i :| 0 <= i < |st.chapters| && st.chapters[i] == a;
    var j :| 0 <= j < |st.chapters| && st.chapters[j] == b;
  }

  /** Going forward then back returns to the same chapter, whatever the gaps. */
  lemma PreviousOfNext(st: Store, c: Chapter)
    requires ChapterNumbersUnique(st.chapters)
    requires c in st.chapters
    requires NextChapter(st, c).Some?
    ensures PreviousChapter(st, NextChapter(st, c).value) == Some(c)
  {
    var d := NextChapter(st, c).value;
    var p := PreviousChapter(st, d);
    assert p.Some?;
    var e := p.value;
    assert e.chapterNumber >= c.chapterNumber;
    SameNumberSameChapter(st, e, c);
  }

  /** Going back then forward returns to the same chapter, whatever the gaps. */
  lemma NextOfPrevious(st: Store, c: Chapter)
    requires ChapterNumbersUnique(st.chapters)
    requires c in st.chapters
    requires PreviousChapter(st, c).Some?
    ensures NextChapter(st, PreviousChapter(st, c).value) == Some(c)
  {
    var d := PreviousChapter(st, c).value;
    var n := NextChapter(st, d);
    assert n.Some?;
    var e := n.value;
    assert e.chapterNumber <= c.chapterNumber;
    SameNumberSameChapter(st, e, c);
  }

  function NumberLe(a: Chapter, b: Chapter): bool { a.chapterNumber <= b.chapterNumber }

  /** `book.chapters.by_number`: the book's chapters in ascending number order. */
  function ChaptersByNumber(st: Store, bookId: nat): (r: seq<Chapter>)
    ensures multiset(r) == multiset(ChaptersOf(st, bookId))
    ensures forall i, j :: 0 <= i < j < |r| ==> r[i].chapterNumber <= r[j].chapterNumber
  {
    InsertionSort(ChaptersOf(st, bookId), NumberLe)
  }

  /** `book.chapters.find_by(chapter_number:)`. */
  function FindByNumber(st: Store, bookId: nat, n: int): (r: Option<Chapter>)
    ensures r.Some? ==> r.value in st.chapters && r.value.bookId == bookId && r.value.chapterNumber == n
    ensures r.None? ==> forall x :: x in st.chapters && x.bookId == bookId ==> x.chapterNumber != n
  {
    FindNumberIn(st.chapters, bookId, n)
  }

  function FindNumberIn(cs: seq<Chapter>, bookId: nat, n: int): (r: Option<Chapter>)
    ensures r.Some? ==> r.value in cs && r.value.bookId == bookId && r.value.chapterNumber == n
    ensures r.None? ==> forall x :: x in cs && x.bookId == bookId ==> x.chapterNumber != n
  {
    if cs == [] then None
    else if cs[0].bookId == bookId && cs[0].chapterNumber == n then Some(cs[0])
    else FindNumberIn(cs[1..], bookId, n)
  }

  /** `full_reference`: the book's name, a space, the chapter number. */
  function FullReference(b: Book, c: Chapter): (r: string)
    requires c.bookId == b.id
    ensures |r| > |b.name| + 1 && r[..|b.name| + 1] == b.name + " "
    ensures r[|b.name| + 1..] == IntToString(c.chapterNumber)
  {
    b.name + " " + IntToString(c.chapterNumber)
  }

  /** Within one book, the reference tells chapters apart. */
  lemma FullReferenceInjective(b: Book, c1: Chapter, c2: Chapter)
    requires c1.bookId == b.id && c2.bookId == b.id
    requires FullReference(b, c1) == FullReference(b, c2)
    ensures c1.chapterNumber == c2.chapterNumber
  {
    var k := |b.name| + 1;
    assert FullReference(b, c1)[k..] == FullReference(b, c2)[k..];
    IntToStringInjective(c1.chapterNumber, c2.chapterNumber);
  }
}
