/** Books: validation, the testament scopes, canonical (`by_name`) order and `full_name`. */
module Books {
  import opened Wrappers
  import opened Seqs
  import opened Text
  import opened Corpus

  /** `name` and `abbreviation` present, `testament` one of "OT" and "NT". */
  predicate ValidBook(b: Book)
    ensures ValidBook(b) ==> IsNewTestament(b) != IsOldTestament(b)
  {
    && !Blank(b.name)
    && Present(b.abbreviation)
    && (b.testament == Some("OT") || b.testament == Some("NT"))
  }

  function IsNewTestament(b: Book): bool { b.testament == Some("NT") }
  function IsOldTestament(b: Book): bool { b.testament == Some("OT") }

  /** Scope `new_testament`. */
  function NewTestament(st: Store): (r: seq<Book>)
    ensures forall b :: b in r <==> b in st.books && b.testament == Some("NT")
  {
    Filter(st.books, IsNewTestament)
  }

  /** Scope `old_testament`. */
  function OldTestament(st: Store): (r: seq<Book>)
    ensures forall b :: b in r <==> b in st.books && b.testament == Some("OT")
  {
    Filter(st.books, IsOldTestament)
  }

  /** When every book is valid, the two testament scopes split the books between them. */
  lemma {:induction false} TestamentsPartition(bs: seq<Book>)
    requires forall b :: b in bs ==> ValidBook(b)
    ensures |Filter(bs, IsNewTestament)| + |Filter(bs, IsOldTestament)| == |bs|
  {
    if bs != [] {
      assert bs[0] in bs;
      assert forall b :: b in bs[1..] ==> b in bs;
      TestamentsPartition(bs[1..]);
    }
  }

  function IdLe(a: Book, b: Book): bool { a.id <= b.id }

  /**
   * Scope `by_name`: despite its name, books in id (load) order, which is the
   * canonical order of the corpus, not alphabetical order.
   */
  function ByName(st: Store): (r: seq<Book>)
    ensures multiset(r) == multiset(st.books)
    ensures forall i, j :: 0 <= i < j < |r| ==> r[i].id <= r[j].id
  {
    InsertionSort(st.books, IdLe)
  }

  /** `Book.first`: the book with the smallest id, if there is any book. */
  function First(st: Store): (r: Option<Book>)
    ensures r.None? <==> st.books == []
    ensures r.Some? ==> r.value in st.books && forall b :: b in st.books ==> r.value.id <= b.id
  {
    var sorted := ByName(st);
    if sorted == [] then None
    else
      assert sorted[0] in multiset(st.books);
      assert forall b :: b in st.books ==> sorted[0].id <= b.id by {
        forall b | b in st.books ensures sorted[0].id <= b.id {
          assert b in multiset(sorted);
          var k :| 0 <= k < |sorted| && sorted[k] == b;
        }
      }
      Some(sorted[0])
  }

  /** A name that sorts first alphabetically need not come first: load order wins. */
  lemma ByNameIsNotAlphabetical()
    ensures var st := Store([Book(1, "Genesis", Some("Gn"), Some("OT")), Book(2, "Exodo", Some("Ex"), Some("OT"))], [], [], [], []);
            ByName(st)[0].name == "Genesis"
  {
    var st := Store([Book(1, "Genesis", Some("Gn"), Some("OT")), Book(2, "Exodo", Some("Ex"), Some("OT"))], [], [], [], []);
    var r := ByName(st);
    assert r[0] in multiset(st.books);
    assert r[1] in multiset(st.books);
  }

  /** `full_name`: "name (abbreviation)"; a missing abbreviation interpolates as "". */
  function FullName(b: Book): (r: string)
    ensures |r| == |b.name| + |b.abbreviation.GetOr("")| + 3
    ensures r[..|b.name|] == b.name
    ensures r[|b.name|..|b.name| + 2] == " ("
    ensures r[|b.name| + 2..] == b.abbreviation.GetOr("") + ")"
  {
    b.name + " (" + b.abbreviation.GetOr("") + ")"
  }
}
