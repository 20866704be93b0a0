/**
 * `SettingsController`: the word-display settings kept in the session. The
 * `load_settings` filter merges the stored hash over the defaults, `update`
 * stores the permitted checkboxes coerced to booleans, `reset` stores the
 * defaults, and both re-render the current verse's words.
 */
module SettingsController {
  import opened Wrappers
  import opened Text
  import opened Corpus
  import Seqs
  import Verses
  import BibleController
  import opened SessionStore

  // ---------------------------------------------------------------------------
  // default_settings / load_settings

  /** The six settings the form shows and `update` permits. */
  const DisplayKeys: set<string> :=
    {"show_greek", "show_spanish", "show_strongs", "show_grammar", "show_pronunciation", "show_word_order"}

  /** The settings that are on until the reader turns them off. */
  const ShownByDefault: set<string> := {"show_greek", "show_spanish", "show_strongs", "show_grammar"}

  /** `default_settings`: every display key, on exactly for the first four. */
  function DefaultSettings(): (r: DisplaySettings)
    ensures r.Keys == DisplayKeys
    ensures forall k :: k in r ==> (r[k] <==> k in ShownByDefault)
    ensures "show_hebrew" !in r
  {
    map[
      "show_greek" := true,
      "show_spanish" := true,
      "show_strongs" := true,
      "show_grammar" := true,
      "show_pronunciation" := false,
      "show_word_order" := false]
  }

  /** The verse page and the settings modal start from the same defaults. */
  lemma DefaultsAgree()
    ensures DefaultSettings() == BibleController.WordDisplayDefaults()
  {
  }

  /**
   * `load_settings`: a stored hash overrides the defaults key by key and keeps
   * its own extra keys; anything else in the session yields the defaults.
   */
  function LoadSettings(stored: Stored): (r: DisplaySettings)
    ensures DisplayKeys <= r.Keys
    ensures stored.HashValue? ==> r.Keys == DisplayKeys + stored.h.Keys
    ensures stored.HashValue? ==> forall k :: k in stored.h ==> r[k] == stored.h[k]
    ensures forall k :: k in DisplayKeys && (!stored.HashValue? || k !in stored.h) ==> r[k] == (k in ShownByDefault)
    ensures !stored.HashValue? ==> r == DefaultSettings()
  {
    if stored.HashValue? then DefaultSettings() + stored.h else DefaultSettings()
  }

  /** The modal and the verse page read the session the same way. */
  lemma LoadAgrees(stored: Stored)
    ensures LoadSettings(stored) == BibleController.LoadWordDisplaySettings(stored)
  {
    DefaultsAgree();
  }

  /** Storing what was loaded and loading again changes nothing. */
  lemma LoadIdempotent(stored: Stored)
    ensures LoadSettings(HashValue(LoadSettings(stored))) == LoadSettings(stored)
  {
    var r := LoadSettings(stored);
    var r' := LoadSettings(HashValue(r));
    assert r'.Keys == r.Keys;
    forall k | k in r ensures r'[k] == r[k] {
    }
  }

  // ---------------------------------------------------------------------------
  // update

  /** Why an action raises instead of responding. */
  datatype Failure = ParameterMissing | RecordNotFound

  /** A checkbox value: on exactly for "1" or "true". */
  predicate Coerce(v: string) {
    v == "1" || v == "true"
  }

  /**
   * `permit(...).to_h.transform_values`: the display keys among the submitted
   * ones, each coerced; every other submitted key is dropped.
   */
  function PermittedSettings(submitted: map<string, string>): (r: DisplaySettings)
    ensures r.Keys == submitted.Keys * DisplayKeys
    ensures forall k :: k in r ==> (r[k] <==> submitted[k] == "1" || submitted[k] == "true")
  {
    map k | k in submitted.Keys * DisplayKeys :: Coerce(submitted[k])
  }

  /**
   * `params.require(:settings).permit(...)`: a missing or empty `settings`
   * hash raises `ParameterMissing`.
   */
  function UpdatedSettings(param: Option<map<string, string>>): (r: Result<DisplaySettings, Failure>)
    ensures r.Err? <==> param.None? || param.value == map[]
    ensures r.Err? ==> r.error == ParameterMissing
    ensures r.Ok? ==> r.value.Keys == param.value.Keys * DisplayKeys
    ensures r.Ok? ==> forall k :: k in r.value ==> (r.value[k] <==> param.value[k] == "1" || param.value[k] == "true")
    ensures r.Ok? ==> "show_hebrew" !in r.value
  {
    if param.None? || param.value == map[] then Err(ParameterMissing)
    else Ok(PermittedSettings(param.value))
  }

  /**
   * What the next request reads after a successful `update`: the submitted
   * checkboxes where they were sent, the defaults elsewhere, and no other key.
   */
  lemma {:induction false} LoadAfterUpdate(submitted: map<string, string>)
    requires submitted != map[]
    ensures var r := LoadSettings(HashValue(UpdatedSettings(Some(submitted)).value));
      && r.Keys == DisplayKeys
      && forall k :: k in DisplayKeys ==>
           (r[k] <==> if k in submitted then Coerce(submitted[k]) else k in ShownByDefault)
  {
    var p := UpdatedSettings(Some(submitted)).value;
    assert p == PermittedSettings(submitted);
    var r := LoadSettings(HashValue(p));
    forall k | k in DisplayKeys
      ensures r[k] <==> if k in submitted then Coerce(submitted[k]) else k in ShownByDefault
    {
      if k in submitted {
        assert k in p;
      }
    }
  }

  /** What the next request reads after `reset`: exactly the defaults. */
  lemma LoadAfterReset()
    ensures LoadSettings(HashValue(DefaultSettings())) == DefaultSettings()
  {
    var r := LoadSettings(HashValue(DefaultSettings()));
    assert r.Keys == DisplayKeys;
  }

  // ---------------------------------------------------------------------------
  // current_verse_words

  /** The digits at the start of `s`. */
  function DigitRun(s: string): (r: string)
    ensures |r| <= |s| && r == s[..|r|]
    ensures forall i :: 0 <= i < |r| ==> IsDigit(r[i])
    ensures |r| < |s| ==> !IsDigit(s[|r|])
  {
    s[..LeadingDigits(s)]
  }

  /** The rest of `s` after the literal `lit`, when `s` starts with it. */
  function AfterLiteral(s: string, lit: string): (r: Option<string>)
    ensures r.Some? <==> |lit| <= |s| && s[..|lit|] == lit
    ensures r.Some? ==> s == lit + r.value
  {
    if |lit| <= |s| && s[..|lit|] == lit then
      assert s == s[..|lit|] + s[|lit|..];
      Some(s[|lit|..])
    else None
  }

  /** `/verses\/(\d+)/` tried at the start of `s`: the captured digits. */
  function VerseNumberCapture(s: string): (r: Option<string>)
    ensures r.Some? ==> |r.value| >= 1 && 7 + |r.value| <= |s| && s[..7 + |r.value|] == "verses/" + r.value
    ensures r.Some? && 7 + |r.value| < |s| ==> !IsDigit(s[7 + |r.value|])
    ensures r.Some? ==> forall i :: 0 <= i < |r.value| ==> IsDigit(r.value[i])
    ensures r.Some? <==> |s| > 7 && s[..7] == "verses/" && IsDigit(s[7])
  {
    match AfterLiteral(s, "verses/")
    case None => None
    case Some(rest) =>
      var d := DigitRun(rest);
      if d == [] then None
      else
        assert rest == d + rest[|d|..];
        Some(d)
  }

  /** A non-empty run of decimal digits, what `\d+` matches. */
  predicate DigitString(d: string) {
    d != [] && forall i :: 0 <= i < |d| ==> IsDigit(d[i])
  }

  /**
   * `/books\/(\d+)\/chapters\/(\d+)\/verses\/(\d+)/` tried at the start of `s`:
   * the book id, chapter number and verse number as digit strings.
   */
  function VersePathCapture(s: string): (r: Option<(string, string, string)>)
    ensures s == [] || s[0] != 'b' ==> r.None?
  {
    match AfterLiteral(s, "books/")
    case None => None
    case Some(s1) =>
      var b := DigitRun(s1);
      if b == [] then None
      else match AfterLiteral(s1[|b|..], "/chapters/")
      case None => None
      case Some(s2) =>
        var c := DigitRun(s2);
        if c == [] then None
        else match AfterLiteral(s2[|c|..], "/verses/")
        case None => None
        case Some(s3) =>
          var n := DigitRun(s3);
          if n == [] then None else Some((b, c, n))
  }

  /**
   * What a verse-path match captures: `s` starts with the three literals
   * around three digit runs, and the last run is taken whole.
   */
  lemma VersePathCaptureSound(s: string)
    requires VersePathCapture(s).Some?
    ensures var (b, c, n) := VersePathCapture(s).value;
      var m := "books/" + (b + ("/chapters/" + (c + ("/verses/" + n))));
      && DigitString(b) && DigitString(c) && DigitString(n)
      && m <= s && (|m| < |s| ==> !IsDigit(s[|m|]))
  {
    var s1 := AfterLiteral(s, "books/").value;
    var b := DigitRun(s1);
    var s2 := AfterLiteral(s1[|b|..], "/chapters/").value;
    var c := DigitRun(s2);
    var s3 := AfterLiteral(s2[|c|..], "/verses/").value;
    var n := DigitRun(s3);
    var rest := s3[|n|..];
    LiteralThenDigits(s, "books/");
    LiteralThenDigits(s1[|b|..], "/chapters/");
    LiteralThenDigits(s2[|c|..], "/verses/");
    Regroup("books/", b, "/chapters/", c, "/verses/", n, rest);
  }

  /** After a literal, the text is the literal, its digit run, and what follows the run. */
  lemma LiteralThenDigits(s: string, lit: string)
    requires AfterLiteral(s, lit).Some?
    ensures var t := AfterLiteral(s, lit).value;
      s == lit + (DigitRun(t) + t[|DigitRun(t)|..])
  {
    var t := AfterLiteral(s, lit).value;
    assert t == DigitRun(t) + t[|DigitRun(t)|..];
  }

  /** Three literals around three runs, followed by more text: the match is a prefix. */
  lemma Regroup(l1: string, b: string, l2: string, c: string, l3: string, n: string, rest: string)
    ensures var m := l1 + (b + (l2 + (c + (l3 + n))));
      l1 + (b + (l2 + (c + (l3 + (n + rest))))) == m + rest
  {
  }

  /** `Verse.find(id).words.by_order`, raising `RecordNotFound` for an unknown id. */
  function WordsOfVerseId(st: Store, id: Option<nat>): (r: Result<seq<Word>, Failure>)
    ensures r.Err? <==> id.None? || FindVerse(st, id.value).None?
    ensures r.Ok? ==> r.value == Verses.WordsByOrder(st, FindVerse(st, id.value).value)
    ensures r.Err? ==> r.error == RecordNotFound
  {
    if id.None? then Err(RecordNotFound)
    else match FindVerse(st, id.value)
      case None => Err(RecordNotFound)
      case Some(v) => Ok(Verses.WordsByOrder(st, v))
  }

  /**
   * `current_verse_words` as written: a present `verse_id` parameter is an id;
   * otherwise the digits after the referer's first `verses/` are taken as an
   * id too, although in a verse page's address they are the verse NUMBER.
   */
  function CurrentVerseWordsAsWritten(st: Store, verseId: Option<string>, referer: Option<string>)
    : (r: Result<seq<Word>, Failure>)
    ensures Present(verseId) ==> r == WordsOfVerseId(st, BibleController.ParamToNat(verseId.value))
    ensures !Present(verseId) && (referer.None? || FirstMatch(referer.value, VerseNumberCapture).None?) ==> r == Ok([])
    ensures !Present(verseId) && referer.Some? && FirstMatch(referer.value, VerseNumberCapture).Some? ==>
      r == WordsOfVerseId(st, Some(ToI(FirstMatch(referer.value, VerseNumberCapture).value)))
    ensures r.Err? ==> r.error == RecordNotFound
  {
    if Present(verseId) then WordsOfVerseId(st, BibleController.ParamToNat(verseId.value))
    else if referer.Some? && FirstMatch(referer.value, VerseNumberCapture).Some? then
      WordsOfVerseId(st, Some(ToI(FirstMatch(referer.value, VerseNumberCapture).value)))
    else Ok([])
  }

  /**
   * `current_verse_words` corrected: the referer's book id, chapter number and
   * verse number are resolved the way the verse page resolved them.
   */
  function CurrentVerseWords(st: Store, verseId: Option<string>, referer: Option<string>)
    : (r: Result<seq<Word>, Failure>)
    ensures Present(verseId) ==> r == WordsOfVerseId(st, BibleController.ParamToNat(verseId.value))
    ensures !Present(verseId) && (referer.None? || FirstMatch(referer.value, VersePathCapture).None?) ==> r == Ok([])
    ensures r.Ok? && !Present(verseId) && r.value != [] ==>
      exists v :: v in st.verses && r.value == Verses.WordsByOrder(st, v)
    ensures !Present(verseId) && referer.Some? && FirstMatch(referer.value, VersePathCapture).Some? ==>
      var (b, c, n) := FirstMatch(referer.value, VersePathCapture).value;
      var res := BibleController.ResolveVerse(st, b, c, n);
      && (res.Found? ==> r == Ok(Verses.WordsByOrder(st, res.verse)))
      && (res.Redirect? ==> r == Err(RecordNotFound))
    ensures r.Err? ==> r.error == RecordNotFound
  {
    if Present(verseId) then WordsOfVerseId(st, BibleController.ParamToNat(verseId.value))
    else if referer.Some? && FirstMatch(referer.value, VersePathCapture).Some? then
      var (b, c, n) := FirstMatch(referer.value, VersePathCapture).value;
      match BibleController.ResolveVerse(st, b, c, n)
      case Found(_, _, v) => Ok(Verses.WordsByOrder(st, v))
      case Redirect(_, _) => Err(RecordNotFound)
    else Ok([])
  }

  /** A run of digits is read back whole, whatever non-digit text follows. */
  lemma DigitRunOfDigits(d: string, rest: string)
    requires forall i :: 0 <= i < |d| ==> IsDigit(d[i])
    requires rest == [] || !IsDigit(rest[0])
    ensures DigitRun(d + rest) == d
  {
    LeadingDigitsOfConcat(d, rest);
    assert (d + rest)[..|d|] == d;
  }

  /**
   * On a verse page `/books/B/chapters/C/verses/N` (behind any origin without
   * a 'v'), the as-written lookup asks for the verse whose id is the verse
   * number N.
   */
  lemma AsWrittenTakesVerseNumberAsId(st: Store, origin: string, bookId: nat, chapterNumber: nat, verseNumber: nat)
    requires 'v' !in origin
    ensures CurrentVerseWordsAsWritten(st, None, Some(origin + BibleController.VersePath(bookId, chapterNumber, verseNumber)))
            == WordsOfVerseId(st, Some(verseNumber))
  {
    var n := NatToString(verseNumber);
    var x := "/books/" + NatToString(bookId) + "/chapters/" + NatToString(chapterNumber);
    assert BibleController.VersePath(bookId, chapterNumber, verseNumber) == x + "/verses/" + n;
    assert origin + (x + "/verses/" + n) == (origin + x) + ("/verses/" + n);
    assert 'v' !in NatToString(bookId) && 'v' !in NatToString(chapterNumber);
    assert 'v' !in origin + x;
    FirstVerseNumberCapture(origin + x, n);
    ToIOfNatToString(verseNumber, []);
    assert n + [] == n;
  }

  /** Behind text without a 'v', the first `verses/(\d+)` match is the digits that follow. */
  lemma FirstVerseNumberCapture(p: string, n: string)
    requires 'v' !in p
    requires n != [] && forall i :: 0 <= i < |n| ==> IsDigit(n[i])
    ensures FirstMatch(p + ("/verses/" + n), VerseNumberCapture) == Some(n)
  {
    var t := "/verses/" + n;
    var q := p + t[..1];
    assert "/verses/"[1..] == "verses/";
    assert t[1..] == "verses/" + n;
    assert p + t == q + t[1..];
    assert 'v' !in q;
    forall i | 0 <= i < |q|
      ensures VerseNumberCapture(q[i..] + t[1..]).None?
    {
      assert (q[i..] + t[1..])[0] == q[i];
    }
    FirstMatchSkip(q, t[1..], VerseNumberCapture);
    AfterLiteralOfConcat("verses/", n);
    DigitRunOfDigits(n, []);
    assert n + [] == n;
  }

  /** A literal followed by anything is recognised, leaving the rest. */
  lemma AfterLiteralOfConcat(lit: string, rest: string)
    ensures AfterLiteral(lit + rest, lit) == Some(rest)
  {
    assert (lit + rest)[..|lit|] == lit;
  }

  /** A path written left to right, read from its second character on, regrouped to the right. */
  lemma RegroupPath(l1: string, b: string, l2: string, c: string, l3: string, n: string)
    requires |l1| >= 1
    ensures (l1 + b + l2 + c + l3 + n)[1..] == l1[1..] + (b + (l2 + (c + (l3 + n))))
  {
    assert l1 + b + l2 + c + l3 + n == l1 + (b + (l2 + (c + (l3 + n))));
    assert l1 == [l1[0]] + l1[1..];
  }

  /** The three captures of a path made of three digit runs are those runs. */
  lemma VersePathCaptureOfDigits(b: string, c: string, n: string)
    requires b != [] && forall i :: 0 <= i < |b| ==> IsDigit(b[i])
    requires c != [] && forall i :: 0 <= i < |c| ==> IsDigit(c[i])
    requires n != [] && forall i :: 0 <= i < |n| ==> IsDigit(n[i])
    ensures VersePathCapture("books/" + (b + ("/chapters/" + (c + ("/verses/" + n))))) == Some((b, c, n))
  {
    var s3 := "/verses/" + n;
    var s2 := c + s3;
    var s1 := b + ("/chapters/" + s2);
    AfterLiteralOfConcat("books/", s1);
    DigitRunOfDigits(b, "/chapters/" + s2);
    assert s1[|b|..] == "/chapters/" + s2;
    AfterLiteralOfConcat("/chapters/", s2);
    DigitRunOfDigits(c, s3);
    assert s2[|c|..] == s3;
    AfterLiteralOfConcat("/verses/", n);
    DigitRunOfDigits(n, []);
    assert n + [] == n;
  }

  /** The three captures of a verse page's own address are its three numbers. */
  lemma VersePathCaptureOfPath(bookId: nat, chapterNumber: nat, verseNumber: nat)
    ensures VersePathCapture(BibleController.VersePath(bookId, chapterNumber, verseNumber)[1..])
            == Some((NatToString(bookId), NatToString(chapterNumber), NatToString(verseNumber)))
  {
    var b := NatToString(bookId);
    var c := NatToString(chapterNumber);
    var n := NatToString(verseNumber);
    RegroupPath("/books/", b, "/chapters/", c, "/verses/", n);
    assert "/books/"[1..] == "books/";
    VersePathCaptureOfDigits(b, c, n);
  }

  /** Behind an origin without a 'b', the first verse-path match is the page's own address. */
  lemma FirstVersePathCapture(origin: string, bookId: nat, chapterNumber: nat, verseNumber: nat)
    requires 'b' !in origin
    ensures FirstMatch(origin + BibleController.VersePath(bookId, chapterNumber, verseNumber), VersePathCapture)
            == Some((NatToString(bookId), NatToString(chapterNumber), NatToString(verseNumber)))
  {
    var path := BibleController.VersePath(bookId, chapterNumber, verseNumber);
    var p := origin + "/";
    var t := path[1..];
    assert path[0] == '/';
    assert path == [path[0]] + t;
    assert origin + path == p + t;
    forall i | 0 <= i < |p|
      ensures VersePathCapture(p[i..] + t).None?
    {
      assert (p[i..] + t)[0] == p[i];
    }
    FirstMatchSkip(p, t, VersePathCapture);
    VersePathCaptureOfPath(bookId, chapterNumber, verseNumber);
  }

  /**
   * The corrected lookup on a verse page's address (behind any origin without
   * a 'b') returns that verse's words in order.
   */
  lemma CorrectedFindsTheViewedVerse(st: Store, origin: string, b: Book, c: Chapter, v: Verse)
    requires 'b' !in origin
    requires IdsUnique(st) && NumbersUnique(st)
    requires b in st.books && c in st.chapters && v in st.verses
    requires c.bookId == b.id && v.chapterId == c.id
    requires c.chapterNumber >= 0 && v.verseNumber >= 0
    ensures CurrentVerseWords(st, None, Some(origin + BibleController.VersePath(b.id, c.chapterNumber, v.verseNumber)))
            == Ok(Verses.WordsByOrder(st, v))
  {
    FirstVersePathCapture(origin, b.id, c.chapterNumber, v.verseNumber);
    BibleController.ResolveVersePath(st, b, c, v);
  }

  /** One book with two chapters, each holding a verse numbered 1; only the second verse has a word. */
  const SampleWord: Word := Word(1, 5, 1, Some("G3056"), Some("logos"), None, Some("verbo"), None, None, Some("greek"))
  const SampleStore: Store := Store(
    [Book(1, "Juan", None, None)],
    [Chapter(1, 1, 1, 0), Chapter(2, 1, 2, 0)],
    [Verse(1, 1, 1, None), Verse(5, 2, 1, None)],
    [SampleWord],
    [])

  /**
   * Viewing `/books/1/chapters/2/verses/1`, the as-written lookup returns the
   * words of the verse with id 1 (chapter 1, verse 1), which has none, while
   * the verse on screen has one word.
   */
  lemma AsWrittenShowsAnotherVersesWords()
    ensures CurrentVerseWordsAsWritten(SampleStore, None, Some(BibleController.VersePath(1, 2, 1))) == Ok([])
    ensures CurrentVerseWords(SampleStore, None, Some(BibleController.VersePath(1, 2, 1))) == Ok([SampleWord])
  {
    var st := SampleStore;
    var path := BibleController.VersePath(1, 2, 1);
    assert "" + path == path;
    AsWrittenTakesVerseNumberAsId(st, "", 1, 2, 1);
    assert FindVerse(st, 1) == Some(st.verses[0]);
    SampleWordsOf();
    SampleUnique();
    CorrectedFindsTheViewedVerse(st, "", st.books[0], st.chapters[1], st.verses[1]);
  }

  /** The sample's ids are unique, and so are its chapter numbers in the book and verse numbers in each chapter. */
  lemma SampleUnique()
    ensures IdsUnique(SampleStore) && NumbersUnique(SampleStore)
  {
  }

  /** In the sample, the verse with id 1 has no word and the verse with id 5 has the one word. */
  lemma SampleWordsOf()
    ensures Verses.WordsByOrder(SampleStore, SampleStore.verses[0]) == []
    ensures Verses.WordsByOrder(SampleStore, SampleStore.verses[1]) == [SampleWord]
  {
    var st := SampleStore;
    var one := Verses.WordsByOrder(st, st.verses[1]);
    assert SampleWord in one;
    assert |one| == |multiset(one)|;
    assert |multiset(one)| <= 1;
    assert one[0] in one;
  }

  // ---------------------------------------------------------------------------
  // The update and reset responses

  datatype Format = TurboStream | Html

  /** What an action reads from the request besides the settings form. */
  datatype Request = Request(format: Format, verseId: Option<string>, referer: Option<string>)

  /**
   * A Turbo Stream response re-renders the word list with some settings; an
   * HTML request is sent back where it came from; an action that raises
   * responds with neither.
   */
  datatype Response =
    | Streams(settings: DisplaySettings, words: seq<Word>)
    | RedirectBack
    | Raised(failure: Failure)

  /**
   * `update` as written: `@settings` was loaded by the filter before the
   * session was overwritten, so the stream renders the settings of the
   * previous request.
   */
  function UpdateResponseAsWritten(st: Store, before: Stored, param: Option<map<string, string>>, req: Request)
    : (r: Response)
    ensures r.Streams? ==> r.settings == LoadSettings(before)
    ensures r.Raised? <==> (UpdatedSettings(param).Err? ||
      (req.format.TurboStream? && CurrentVerseWordsAsWritten(st, req.verseId, req.referer).Err?))
    ensures r.Streams? ==> UpdatedSettings(param).Ok? && CurrentVerseWordsAsWritten(st, req.verseId, req.referer).Ok?
    ensures r.Streams? ==> r.words == CurrentVerseWordsAsWritten(st, req.verseId, req.referer).value
    ensures r == RedirectBack <==> UpdatedSettings(param).Ok? && req.format.Html?
    ensures UpdatedSettings(param).Err? ==> r == Raised(ParameterMissing)
    ensures UpdatedSettings(param).Ok? && r.Raised? ==> r == Raised(RecordNotFound)
  {
    match UpdatedSettings(param)
    case Err(e) => Raised(e)
    case Ok(_) =>
      if req.format.Html? then RedirectBack
      else match CurrentVerseWordsAsWritten(st, req.verseId, req.referer)
        case Err(e) => Raised(e)
        case Ok(ws) => Streams(LoadSettings(before), ws)
  }

  /** `update` corrected: the stream renders the settings just stored. */
  function UpdateResponse(st: Store, param: Option<map<string, string>>, req: Request): (r: Response)
    ensures r.Raised? <==> (UpdatedSettings(param).Err? ||
      (req.format.TurboStream? && CurrentVerseWords(st, req.verseId, req.referer).Err?))
    ensures r.Streams? ==> UpdatedSettings(param).Ok? && CurrentVerseWords(st, req.verseId, req.referer).Ok?
    ensures r.Streams? ==> r.words == CurrentVerseWords(st, req.verseId, req.referer).value
    ensures r == RedirectBack <==> UpdatedSettings(param).Ok? && req.format.Html?
    ensures UpdatedSettings(param).Err? ==> r == Raised(ParameterMissing)
    ensures UpdatedSettings(param).Ok? && r.Raised? ==> r == Raised(RecordNotFound)
  {
    match UpdatedSettings(param)
    case Err(e) => Raised(e)
    case Ok(n) =>
      if req.format.Html? then RedirectBack
      else match CurrentVerseWords(st, req.verseId, req.referer)
        case Err(e) => Raised(e)
        case Ok(ws) => Streams(LoadSettings(HashValue(n)), ws)
  }

  /**
   * The corrected `update` shows exactly the submitted checkboxes over the
   * defaults, whatever the session held before.
   */
  lemma {:induction false} UpdateRendersSubmitted(st: Store, submitted: map<string, string>, req: Request)
    requires submitted != map[]
    ensures var r := UpdateResponse(st, Some(submitted), req);
      r.Streams? ==>
        && r.settings.Keys == DisplayKeys
        && forall k :: k in DisplayKeys ==>
             (r.settings[k] <==> if k in submitted then Coerce(submitted[k]) else k in ShownByDefault)
  {
    LoadAfterUpdate(submitted);
  }

  /** Turning Greek off from a fresh session: the as-written stream still shows Greek. */
  lemma UpdateAsWrittenShowsStaleSettings(st: Store)
    ensures var req := Request(TurboStream, None, None);
      var submitted := map["show_greek" := "0"];
      && UpdateResponseAsWritten(st, Unset, Some(submitted), req).Streams?
      && UpdateResponseAsWritten(st, Unset, Some(submitted), req).settings["show_greek"]
      && !LoadSettings(HashValue(UpdatedSettings(Some(submitted)).value))["show_greek"]
  {
    var submitted := map["show_greek" := "0"];
    assert "show_greek" in PermittedSettings(submitted);
  }

  /** `reset` as written: the stream renders the settings loaded before the reset. */
  function ResetResponseAsWritten(st: Store, before: Stored, req: Request): (r: Response)
    ensures r.Streams? ==> r.settings == LoadSettings(before)
    ensures r.Raised? <==> req.format.TurboStream? && CurrentVerseWordsAsWritten(st, req.verseId, req.referer).Err?
    ensures r.Streams? ==> CurrentVerseWordsAsWritten(st, req.verseId, req.referer).Ok?
    ensures r.Streams? ==> r.words == CurrentVerseWordsAsWritten(st, req.verseId, req.referer).value
    ensures r == RedirectBack <==> req.format.Html?
  {
    if req.format.Html? then RedirectBack
    else match CurrentVerseWordsAsWritten(st, req.verseId, req.referer)
      case Err(e) => Raised(e)
      case Ok(ws) => Streams(LoadSettings(before), ws)
  }

  /** `reset` corrected: the form and the words are rendered with the defaults just stored. */
  function ResetResponse(st: Store, req: Request): (r: Response)
    ensures r.Raised? <==> req.format.TurboStream? && CurrentVerseWords(st, req.verseId, req.referer).Err?
    ensures r.Streams? ==> CurrentVerseWords(st, req.verseId, req.referer).Ok?
    ensures r.Streams? ==> r.words == CurrentVerseWords(st, req.verseId, req.referer).value
    ensures r == RedirectBack <==> req.format.Html?
  {
    if req.format.Html? then RedirectBack
    else match CurrentVerseWords(st, req.verseId, req.referer)
      case Err(e) => Raised(e)
      case Ok(ws) => Streams(LoadSettings(HashValue(DefaultSettings())), ws)
  }

  /** The corrected `reset` shows the defaults, which is also what the next request reads. */
  lemma ResetRendersDefaults(st: Store, req: Request)
    ensures var r := ResetResponse(st, req);
      r.Streams? ==> r.settings == DefaultSettings() && r.settings.Keys == DisplayKeys
  {
    LoadAfterReset();
  }

  /** Resetting with Greek turned off: the as-written form still shows Greek off. */
  lemma ResetAsWrittenShowsStaleSettings(st: Store)
    ensures var r := ResetResponseAsWritten(st, HashValue(map["show_greek" := false]), Request(TurboStream, None, None));
      r.Streams? && !r.settings["show_greek"] && DefaultSettings()["show_greek"]
  {
  }

  // ---------------------------------------------------------------------------
  // The session and the controller's instance variable

  /**
   * One visitor's cookie session value and the controller's `@settings`. The
   * session is written back only with a completed response: an action that
   * raises leaves it as it was.
   */
  class SettingsSession {
    var stored: Stored
    var settings: DisplaySettings

    /** `@settings` shows what the session holds. */
    ghost predicate Fresh()
      reads this
    {
      settings == LoadSettings(stored)
    }

    constructor (stored: Stored)
      ensures this.stored == stored && Fresh()
    {
      this.stored := stored;
      settings := LoadSettings(stored);
    }

    /** The `load_settings` filter that runs before every action; `show` renders its result. */
    method LoadSettingsFilter()
      modifies this`settings
      ensures settings == LoadSettings(stored)
    {
      if stored.HashValue? {
        settings := DefaultSettings() + stored.h;
      } else {
        settings := DefaultSettings();
      }
    }

    /** `update`, with `@settings` reloaded once the session holds the new values. */
    method Update(st: Store, param: Option<map<string, string>>, req: Request) returns (r: Response)
      modifies this
      ensures r == UpdateResponse(st, param, req)
      ensures stored == if r.Raised? then old(stored) else HashValue(UpdatedSettings(param).value)
      ensures Fresh()
    {
      var before := stored;
      LoadSettingsFilter();
      var updated := UpdatedSettings(param);
      if updated.Err? {
        return Raised(updated.error);
      }
      stored := HashValue(updated.value);
      LoadSettingsFilter();
      if req.format.Html? {
        return RedirectBack;
      }
      var words := CurrentVerseWords(st, req.verseId, req.referer);
      if words.Err? {
        stored := before;
        settings := LoadSettings(stored);
        return Raised(words.error);
      }
      r := Streams(settings, words.value);
    }

    /** `reset`, with `@settings` reloaded once the session holds the defaults. */
    method Reset(st: Store, req: Request) returns (r: Response)
      modifies this
      ensures r == ResetResponse(st, req)
      ensures stored == if r.Raised? then old(stored) else HashValue(DefaultSettings())
      ensures Fresh()
    {
      var before := stored;
      LoadSettingsFilter();
      stored := HashValue(DefaultSettings());
      LoadSettingsFilter();
      if req.format.Html? {
        return RedirectBack;
      }
      var words := CurrentVerseWords(st, req.verseId, req.referer);
      if words.Err? {
        stored := before;
        settings := LoadSettings(stored);
        return Raised(words.error);
      }
      r := Streams(settings, words.value);
    }
  }
}
