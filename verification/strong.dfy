/** Strong's lexicon entries: validation, display helpers and the verses that use an entry. */
module Strongs {
  import opened Wrappers
  import opened Seqs
  import opened Text
  import opened Corpus

  /** `strong_number` and `greek_word` present (uniqueness is `Corpus.StrongNumbersUnique`). */
  predicate ValidStrong(s: Strong)
    ensures ValidStrong(s) ==> |DisplayNumber(s)| >= 2
  {
    Present(s.strongNumber) && Present(s.greekWord)
  }

  /** `display_number`: always the Greek prefix "G" before the number, Hebrew entries included. */
  function DisplayNumber(s: Strong): (r: string)
    ensures |r| >= 1 && r[0] == 'G' && r[1..] == s.strongNumber.GetOr("")
  {
    "G" + s.strongNumber.GetOr("")
  }

  /** The definitions that are present, `definition` first. */
  function PresentDefinitions(s: Strong): seq<string> {
    (if Present(s.definition) then [s.definition.value] else [])
      + (if Present(s.definition2) then [s.definition2.value] else [])
  }

  /** `full_definition`: the present definitions joined by "; ", or "" when neither is present. */
  function FullDefinition(s: Strong): (r: string)
    ensures !Present(s.definition) && !Present(s.definition2) ==> r == ""
    ensures Present(s.definition) && !Present(s.definition2) ==> r == s.definition.value
    ensures !Present(s.definition) && Present(s.definition2) ==> r == s.definition2.value
    ensures Present(s.definition) && Present(s.definition2) ==> r == s.definition.value + "; " + s.definition2.value
  {
    var parts := PresentDefinitions(s);
    assert |parts| == 2 ==> parts[1..] == [parts[1]];
    Join(parts, "; ")
  }

  /** `full_definition` as the source writes it: a parts list grown step by step, then joined. */
  method BuildFullDefinition(s: Strong) returns (r: string)
    ensures r == FullDefinition(s)
  {
    var parts: seq<string> := [];
    if Present(s.definition) {
      parts := parts + [s.definition.value];
    }
    if Present(s.definition2) {
      parts := parts + [s.definition2.value];
    }
    r := Join(parts, "; ");
  }

  /** `words`: the words whose `strong_number` is this entry's (none when the entry has no number). */
  function WordsOf(st: Store, s: Strong): (r: seq<Word>)
    ensures forall w :: w in r <==> w in st.words && s.strongNumber.Some? && w.strongNumber == s.strongNumber
  {
    Filter(st.words, (w: Word) => s.strongNumber.Some? && w.strongNumber == s.strongNumber)
  }

  function VerseId(v: Verse): nat { v.id }

  /** The verse of each word that has one (`map(&:verse)`). */
  function VersesOfWords(st: Store, ws: seq<Word>): (r: seq<Verse>)
    ensures forall v :: v in r <==> exists w :: w in ws && FindVerse(st, w.verseId) == Some(v)
  {
    var found := Map(ws, (w: Word) => FindVerse(st, w.verseId));
    assert forall v :: Some(v) in found <==> exists w :: w in ws && FindVerse(st, w.verseId) == Some(v) by {
      forall v ensures Some(v) in found <==> exists w :: w in ws && FindVerse(st, w.verseId) == Some(v) {
        if Some(v) in found {
          var i :| 0 <= i < |found| && found[i] == Some(v);
          assert ws[i] in ws;
        }
        if exists w :: w in ws && FindVerse(st, w.verseId) == Some(v) {
          var w :| w in ws && FindVerse(st, w.verseId) == Some(v);
          var i :| 0 <= i < |ws| && ws[i] == w;
          assert found[i] == Some(v);
        }
      }
    }
    Somes(found)
  }

  /**
   * `verses_with_this_word`: every verse owning a word with this entry's
   * number, each verse once.
   */
  function VersesWithThisWord(st: Store, s: Strong): (r: seq<Verse>)
    ensures forall v :: v in r ==> v in st.verses && exists w :: w in WordsOf(st, s) && w.verseId == v.id
    ensures forall w :: w in WordsOf(st, s) && FindVerse(st, w.verseId).Some? ==> FindVerse(st, w.verseId).value in r
    ensures DistinctBy(r, VerseId)
  {
    var r := DedupBy(VersesOfWords(st, WordsOf(st, s)), VerseId);
    DedupedVersesCoverWords(st, WordsOf(st, s));
    r
  }

  /** Each word's verse survives `uniq`: the kept verse with its id is that very verse. */
  lemma DedupedVersesCoverWords(st: Store, ws: seq<Word>)
    ensures forall v :: v in DedupBy(VersesOfWords(st, ws), VerseId) ==> exists w :: w in ws && FindVerse(st, w.verseId) == Some(v)
    ensures forall w :: w in ws && FindVerse(st, w.verseId).Some? ==> FindVerse(st, w.verseId).value in DedupBy(VersesOfWords(st, ws), VerseId)
  {
    var all := VersesOfWords(st, ws);
    var r := DedupBy(all, VerseId);
    DedupByMembers(all, VerseId);
    forall w | w in ws && FindVerse(st, w.verseId).Some?
      ensures FindVerse(st, w.verseId).value in r
    {
      var v := FindVerse(st, w.verseId).value;
      assert HasKey(r, VerseId, VerseId(v));
      var j :| 0 <= j < |r| && VerseId(r[j]) == v.id;
      var w' :| w' in ws && FindVerse(st, w'.verseId) == Some(r[j]);
      assert w'.verseId == w.verseId;
    }
  }

  /** The lexicon fields `searchable_text` draws on, in its order. */
  function SearchFields(s: Strong): seq<Option<string>> {
    [s.greekWord, s.pronunciation, s.definition, s.definition2, s.partOfSpeech, s.derivation, s.rv1909Definition]
  }

  /**
   * `searchable_text`: the non-nil lexicon fields, in a fixed order, joined by
   * single spaces (`Text.CompactJoinSnoc` gives the order field by field).
   */
  function SearchableText(s: Strong): (r: string)
    ensures forall f :: f in SearchFields(s) && f.Some? ==> Contains(r, f.value)
    ensures (forall f :: f in SearchFields(s) ==> f.None?) ==> r == ""
  {
    var fields := SearchFields(s);
    var r := CompactJoin(fields, " ");
    assert forall f :: f in fields && f.Some? ==> Contains(r, f.value) by {
      forall f | f in fields && f.Some? ensures Contains(r, f.value) {
        var i :| 0 <= i < |fields| && fields[i] == f;
      }
    }
    r
  }

  /**
   * With every field present, the text is the seven fields in their fixed
   * order, joined by single spaces.
   */
  lemma SearchableTextAllPresent(s: Strong)
    requires forall f :: f in SearchFields(s) ==> f.Some?
    ensures SearchableText(s) == Join([s.greekWord.value, s.pronunciation.value, s.definition.value, s.definition2.value,
                                       s.partOfSpeech.value, s.derivation.value, s.rv1909Definition.value], " ")
  {
    var fields := SearchFields(s);
    assert fields[0] in fields && fields[1] in fields && fields[2] in fields && fields[3] in fields;
    assert fields[4] in fields && fields[5] in fields && fields[6] in fields;
    CompactJoinOfPresent(fields, [s.greekWord.value, s.pronunciation.value, s.definition.value, s.definition2.value,
                                  s.partOfSpeech.value, s.derivation.value, s.rv1909Definition.value], " ");
  }
}
