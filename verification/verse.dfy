/**
 * Verses: validation, neighbour navigation inside a chapter, the ordered words
 * of a verse, `full_reference`, and the `after_update` callback that touches
 * the parent chapter.
 */
module Verses {
  import opened Wrappers
  import opened Seqs
  import opened Text
  import opened Corpus
  import Chapters

  /** `verse_number` present and positive (uniqueness per chapter is `Corpus.VerseNumbersUnique`). */
  predicate ValidVerse(v: Verse) {
    v.verseNumber > 0
  }

  /** `chapter.verses`: the verses whose `chapter_id` is `chapterId`, in store order. */
  function VersesOf(st: Store, chapterId: nat): (r: seq<Verse>)
    ensures forall x :: x in r <==> x in st.verses && x.chapterId == chapterId
  {
    Filter(st.verses, (x: Verse) => x.chapterId == chapterId)
  }

  function Number(v: Verse): int { v.verseNumber }

  /**
   * `next_verse`: the verse of the same chapter with the smallest number
   * strictly greater than this one's, or None.
   */
  function NextVerse(st: Store, v: Verse): (r: Option<Verse>)
    ensures r.None? <==> forall x :: x in st.verses && x.chapterId == v.chapterId ==> x.verseNumber <= v.verseNumber
    ensures r.Some? ==> r.value in st.verses && r.value.chapterId == v.chapterId && r.value.verseNumber > v.verseNumber
    ensures r.Some? ==> forall x :: x in st.verses && x.chapterId == v.chapterId && x.verseNumber > v.verseNumber
                                    ==> r.value.verseNumber <= x.verseNumber
  {
    var siblings := VersesOf(st, v.chapterId);
    var r := LeastAbove(siblings, Number, v.verseNumber);
    assert forall x :: x in siblings ==> exists i :: 0 <= i < |siblings| && siblings[i] == x;
    r
  }

  /**
   * `previous_verse`: the verse of the same chapter with the largest number
   * strictly smaller than this one's, or None.
   */
  function PreviousVerse(st: Store, v: Verse): (r: Option<Verse>)
    ensures r.None? <==> forall x :: x in st.verses && x.chapterId == v.chapterId ==> x.verseNumber >= v.verseNumber
    ensures r.Some? ==> r.value in st.verses && r.value.chapterId == v.chapterId && r.value.verseNumber < v.verseNumber
    ensures r.Some? ==> forall x :: x in st.verses && x.chapterId == v.chapterId && x.verseNumber < v.verseNumber
                                    ==> x.verseNumber <= r.value.verseNumber
  {
    var siblings := VersesOf(st, v.chapterId);
    var r := GreatestBelow(siblings, Number, v.verseNumber);
    assert forall x :: x in siblings ==> exists i :: 0 <= i < |siblings| && siblings[i] == x;
    r
  }

  /** Two verses of one chapter with the same number are the same verse. */
  lemma SameNumberSameVerse(st: Store, a: Verse, b: Verse)
    requires VerseNumbersUnique(st.verses)
    requires a in st.verses && b in st.verses
    requires a.chapterId == b.chapterId && a.verseNumber == b.verseNumber
    ensures a == b
  {
    var i :| 0 <= i < |st.verses| && st.verses[i] == a;
    var j :| 0 <= j < |st.verses| && st.verses[j] == b;
  }

  /** Going forward then back returns to the same verse, whatever the gaps. */
  lemma PreviousOfNext(st: Store, v: Verse)
    requires VerseNumbersUnique(st.verses)
    requires v in st.verses
    requires NextVerse(st, v).Some?
    ensures PreviousVerse(st, NextVerse(st, v).value) == Some(v)
  {
    var w := NextVerse(st, v).value;
    var p := PreviousVerse(st, w);
    assert p.Some?;
    SameNumberSameVerse(st, p.value, v);
  }

  /** Going back then forward returns to the same verse, whatever the gaps. */
  lemma NextOfPrevious(st: Store, v: Verse)
    requires VerseNumbersUnique(st.verses)
    requires v in st.verses
    requires PreviousVerse(st, v).Some?
    ensures NextVerse(st, PreviousVerse(st, v).value) == Some(v)
  {
    var w := PreviousVerse(st, v).value;
    var n := NextVerse(st, w);
    assert n.Some?;
    SameNumberSameVerse(st, n.value, v);
  }

  function VerseNumberLe(a: Verse, b: Verse): bool { a.verseNumber <= b.verseNumber }

  /** `chapter.verses.by_number`: the chapter's verses in ascending number order. */
  function VersesByNumber(st: Store, chapterId: nat): (r: seq<Verse>)
    ensures multiset(r) == multiset(VersesOf(st, chapterId))
    ensures forall i, j :: 0 <= i < j < |r| ==> r[i].verseNumber <= r[j].verseNumber
  {
    InsertionSort(VersesOf(st, chapterId), VerseNumberLe)
  }

  /** `chapter.verses.find_by(verse_number:)`. */
  function FindByNumber(st: Store, chapterId: nat, n: int): (r: Option<Verse>)
    ensures r.Some? ==> r.value in st.verses && r.value.chapterId == chapterId && r.value.verseNumber == n
    ensures r.None? ==> forall x :: x in st.verses && x.chapterId == chapterId ==> x.verseNumber != n
  {
    FindNumberIn(st.verses, chapterId, n)
  }

  function FindNumberIn(vs: seq<Verse>, chapterId: nat, n: int): (r: Option<Verse>)
    ensures r.Some? ==> r.value in vs && r.value.chapterId == chapterId && r.value.verseNumber == n
    ensures r.None? ==> forall x :: x in vs && x.chapterId == chapterId ==> x.verseNumber != n
  {
    if vs == [] then None
    else if vs[0].chapterId == chapterId && vs[0].verseNumber == n then Some(vs[0])
    else FindNumberIn(vs[1..], chapterId, n)
  }

  function WordOrderLe(a: Word, b: Word): bool { a.wordOrder <= b.wordOrder }

  /** `words_by_order`: exactly the verse's words, in ascending `word_order`. */
  function WordsByOrder(st: Store, v: Verse): (r: seq<Word>)
    ensures multiset(r) == multiset(Filter(st.words, (w: Word) => w.verseId == v.id))
    ensures forall w :: w in r <==> w in st.words && w.verseId == v.id
    ensures forall i, j :: 0 <= i < j < |r| ==> r[i].wordOrder <= r[j].wordOrder
  {
    var mine := Filter(st.words, (w: Word) => w.verseId == v.id);
    var r := InsertionSort(mine, WordOrderLe);
    assert forall w :: w in r <==> w in multiset(mine);
    r
  }

  /**
   * `words_with_strongs`: the same words in the same order, each with the
   * lexicon entry it refers to (None when there is none).
   */
  function WordsWithStrongs(st: Store, v: Verse): (r: seq<(Word, Option<Strong>)>)
    ensures |r| == |WordsByOrder(st, v)|
    ensures forall i :: 0 <= i < |r| ==> r[i].0 == WordsByOrder(st, v)[i] && r[i].1 == StrongOf(st, r[i].0)
    ensures forall i, j :: 0 <= i < j < |r| ==> r[i].0.wordOrder <= r[j].0.wordOrder
  {
    Map(WordsByOrder(st, v), (w: Word) => (w, StrongOf(st, w)))
  }

  /** `full_reference`: the chapter's reference, a colon, the verse number. */
  function FullReference(b: Book, c: Chapter, v: Verse): (r: string)
    requires c.bookId == b.id && v.chapterId == c.id
    ensures var p := Chapters.FullReference(b, c);
            |r| > |p| && r[..|p| + 1] == p + ":" && r[|p| + 1..] == IntToString(v.verseNumber)
  {
    Chapters.FullReference(b, c) + ":" + IntToString(v.verseNumber)
  }

  /** Within one chapter, the reference tells verses apart. */
  lemma FullReferenceInjective(b: Book, c: Chapter, v1: Verse, v2: Verse)
    requires c.bookId == b.id && v1.chapterId == c.id && v2.chapterId == c.id
    requires FullReference(b, c, v1) == FullReference(b, c, v2)
    ensures v1.verseNumber == v2.verseNumber
  {
    var k := |Chapters.FullReference(b, c)| + 1;
    assert FullReference(b, c, v1)[k..] == FullReference(b, c, v2)[k..];
    IntToStringInjective(v1.verseNumber, v2.verseNumber);
  }

  /** `touch` on the chapters whose id is `chapterId`: their version grows by one. */
  function Touch(cs: seq<Chapter>, chapterId: nat): (r: seq<Chapter>)
    ensures |r| == |cs|
    ensures forall k :: 0 <= k < |cs| ==> r[k].id == cs[k].id && r[k].bookId == cs[k].bookId && r[k].chapterNumber == cs[k].chapterNumber
    ensures forall k :: 0 <= k < |cs| ==> if cs[k].id == chapterId then r[k].version > cs[k].version else r[k] == cs[k]
  {
    seq(|cs|, k requires 0 <= k < |cs| => if cs[k].id == chapterId then cs[k].(version := cs[k].version + 1) else cs[k])
  }

  /**
   * The chapter and verse tables as the `after_update :touch_chapter` callback
   * changes them: updating a verse bumps its chapter's version.
   */
  class VerseStore {
    var chapters: seq<Chapter>
    var verses: seq<Verse>

    /** Ids unique, verse numbers positive and unique per chapter. */
    ghost predicate Valid()
      reads this
    {
      && (forall i, j :: 0 <= i < j < |chapters| ==> chapters[i].id != chapters[j].id)
      && (forall i, j :: 0 <= i < j < |verses| ==> verses[i].id != verses[j].id)
      && VerseNumbersUnique(verses)
      && (forall k :: 0 <= k < |verses| ==> ValidVerse(verses[k]))
    }

    constructor (chapters: seq<Chapter>, verses: seq<Verse>)
      requires forall i, j :: 0 <= i < j < |chapters| ==> chapters[i].id != chapters[j].id
      requires forall i, j :: 0 <= i < j < |verses| ==> verses[i].id != verses[j].id
      requires VerseNumbersUnique(verses) && forall k :: 0 <= k < |verses| ==> ValidVerse(verses[k])
      ensures Valid() && this.chapters == chapters && this.verses == verses
    {
      this.chapters := chapters;
      this.verses := verses;
    }

    /**
     * `verse.update(spanish_text:)`: when the verse's chapter exists the save
     * succeeds, the text changes and the chapter is touched; otherwise the
     * `belongs_to` validation fails and nothing changes.
     */
    method UpdateSpanishText(i: nat, text: Option<string>) returns (ok: bool)
      requires Valid() && i < |verses|
      modifies this
      ensures Valid()
      ensures ok <==> FindChapterIn(old(chapters), old(verses)[i].chapterId).Some?
      ensures ok ==> verses == old(verses)[i := old(verses)[i].(spanishText := text)]
      ensures ok ==> chapters == Touch(old(chapters), old(verses)[i].chapterId)
      ensures !ok ==> verses == old(verses) && chapters == old(chapters)
    {
      var chapterId := verses[i].chapterId;
      ok := FindChapterIn(chapters, chapterId).Some?;
      if ok {
        verses := verses[i := verses[i].(spanishText := text)];
        chapters := Touch(chapters, chapterId);
      }
    }
  }
}
