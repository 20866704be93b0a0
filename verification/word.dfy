/**
 * Words: validation, the derived language tag, display helpers, the link to a
 * lexicon entry, `searchable_text` and `full_reference`.
 */
module Words {
  import opened Wrappers
  import opened Text
  import opened Corpus
  import Strongs
  import Verses

  /** `word_order` present and positive (uniqueness per verse is `Corpus.WordOrdersUnique`). */
  predicate ValidWord(w: Word) {
    w.wordOrder > 0
  }

  /**
   * `language`: "hebrew" whenever a Hebrew form is present, else "greek" when a
   * Greek form is present, else the stored column (which may be nil).
   */
  function Language(w: Word): (r: Option<string>)
    ensures Present(w.hebrewWord) ==> r == Some("hebrew")
    ensures !Present(w.hebrewWord) && Present(w.greekWord) ==> r == Some("greek")
    ensures !Present(w.hebrewWord) && !Present(w.greekWord) ==> r == w.language
  {
    if Present(w.hebrewWord) then Some("hebrew")
    else if Present(w.greekWord) then Some("greek")
    else w.language
  }

  /** The field when present, else "N/A": the display never comes out blank. */
  function DisplayOrNA(s: Option<string>): (r: string)
    ensures Present(s) ==> r == s.value
    ensures !Present(s) ==> r == "N/A"
    ensures !Blank(r)
  {
    if Present(s) then s.value else assert !IsSpace("N/A"[0]); "N/A"
  }

  /** `display_greek`. */
  function DisplayGreek(w: Word): (r: string)
    ensures Present(w.greekWord) ==> r == w.greekWord.value
    ensures !Present(w.greekWord) ==> r == "N/A"
    ensures !Blank(r)
  {
    DisplayOrNA(w.greekWord)
  }

  /** `display_hebrew`. */
  function DisplayHebrew(w: Word): (r: string)
    ensures Present(w.hebrewWord) ==> r == w.hebrewWord.value
    ensures !Present(w.hebrewWord) ==> r == "N/A"
    ensures !Blank(r)
  {
    DisplayOrNA(w.hebrewWord)
  }

  /** `display_spanish`. */
  function DisplaySpanish(w: Word): (r: string)
    ensures Present(w.spanishTranslation) ==> r == w.spanishTranslation.value
    ensures !Present(w.spanishTranslation) ==> r == "N/A"
    ensures !Blank(r)
  {
    DisplayOrNA(w.spanishTranslation)
  }

  /**
   * `display_strong`: "N/A" without a Strong's number; otherwise the number
   * behind "H" when a Hebrew form is present and behind "G" otherwise.
   */
  function DisplayStrong(w: Word): (r: string)
    ensures !Present(w.strongNumber) ==> r == "N/A"
    ensures Present(w.strongNumber) ==> |r| >= 1 && r[1..] == w.strongNumber.value
    ensures Present(w.strongNumber) ==> (r[0] == 'H' <==> Present(w.hebrewWord))
    ensures Present(w.strongNumber) ==> (r[0] == 'G' <==> !Present(w.hebrewWord))
  {
    if Present(w.strongNumber) then
      if Present(w.hebrewWord) then "H" + w.strongNumber.value else "G" + w.strongNumber.value
    else "N/A"
  }

  /**
   * For a word that has a source form, the Strong's prefix and the derived
   * language agree: "H" exactly when the language is "hebrew".
   */
  lemma DisplayStrongMatchesLanguage(w: Word)
    requires Present(w.strongNumber)
    requires Present(w.greekWord) || Present(w.hebrewWord)
    ensures DisplayStrong(w)[0] == 'H' <==> Language(w) == Some("hebrew")
  {
  }

  /** `has_strong_definition?`: the word's lexicon entry exists. */
  function HasStrongDefinition(st: Store, w: Word): (r: bool)
    ensures r <==> w.strongNumber.Some? && exists s :: s in st.strongs && s.strongNumber == w.strongNumber
  {
    StrongOf(st, w).Some?
  }

  /** `strong_definition`: the entry's `full_definition`, or nil when there is no entry. */
  function StrongDefinition(st: Store, w: Word): (r: Option<string>)
    ensures r.None? <==> !HasStrongDefinition(st, w)
    ensures r.Some? ==> exists s :: s in st.strongs && s.strongNumber == w.strongNumber && r.value == Strongs.FullDefinition(s)
  {
    match StrongOf(st, w)
    case None => None
    case Some(s) => Some(Strongs.FullDefinition(s))
  }

  /** The word fields `searchable_text` draws on, in its order. */
  function SearchFields(w: Word): seq<Option<string>> {
    [w.greekWord, w.hebrewWord, w.spanishTranslation, w.greekGrammar, w.hebrewGrammar, w.strongNumber]
  }

  /**
   * `searchable_text`: the non-nil fields, in a fixed order, joined by single
   * spaces (`Text.CompactJoinSnoc` gives the order field by field).
   */
  function SearchableText(w: Word): (r: string)
    ensures forall f :: f in SearchFields(w) && f.Some? ==> Contains(r, f.value)
    ensures (forall f :: f in SearchFields(w) ==> f.None?) ==> r == ""
  {
    var fields := SearchFields(w);
    var r := CompactJoin(fields, " ");
    assert forall f :: f in fields && f.Some? ==> Contains(r, f.value) by {
      forall f | f in fields && f.Some? ensures Contains(r, f.value) {
        var i :| 0 <= i < |fields| && fields[i] == f;
      }
    }
    r
  }

  /**
   * With every field present, the text is the six fields in their fixed order,
   * joined by single spaces.
   */
  lemma SearchableTextAllPresent(w: Word)
    requires forall f :: f in SearchFields(w) ==> f.Some?
    ensures SearchableText(w) == Join([w.greekWord.value, w.hebrewWord.value, w.spanishTranslation.value,
                                       w.greekGrammar.value, w.hebrewGrammar.value, w.strongNumber.value], " ")
  {
    var fields := SearchFields(w);
    assert fields[0] in fields && fields[1] in fields && fields[2] in fields;
    assert fields[3] in fields && fields[4] in fields && fields[5] in fields;
    CompactJoinOfPresent(fields, [w.greekWord.value, w.hebrewWord.value, w.spanishTranslation.value,
                                  w.greekGrammar.value, w.hebrewGrammar.value, w.strongNumber.value], " ");
  }

  /** `full_reference`: the verse's reference, a colon, the word's position. */
  function FullReference(b: Book, c: Chapter, v: Verse, w: Word): (r: string)
    requires c.bookId == b.id && v.chapterId == c.id && w.verseId == v.id
    ensures var p := Verses.FullReference(b, c, v);
            |r| > |p| && r[..|p| + 1] == p + ":" && r[|p| + 1..] == IntToString(w.wordOrder)
  {
    Verses.FullReference(b, c, v) + ":" + IntToString(w.wordOrder)
  }

  /** Within one verse, the reference tells words apart. */
  lemma FullReferenceInjective(b: Book, c: Chapter, v: Verse, w1: Word, w2: Word)
    requires c.bookId == b.id && v.chapterId == c.id && w1.verseId == v.id && w2.verseId == v.id
    requires FullReference(b, c, v, w1) == FullReference(b, c, v, w2)
    ensures w1.wordOrder == w2.wordOrder
  {
    var k := |Verses.FullReference(b, c, v)| + 1;
    assert FullReference(b, c, v, w1)[k..] == FullReference(b, c, v, w2)[k..];
    IntToStringInjective(w1.wordOrder, w2.wordOrder);
  }
}
