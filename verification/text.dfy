/**
 * The Ruby and ActiveSupport string behaviour the application depends on:
 * `blank?`/`present?`, `strip`, `Array#join`, integer interpolation
 * (`"#{n}"`), `String#to_i` and SQL `LIKE '%q%'` read as substring search.
 */
module Text {
  import opened Wrappers
  import Seqs

  /** The characters of the `[[:space:]]` class that `String#blank?` accepts. */
  predicate IsSpace(c: char) {
    || c == ' ' || c == '\t' || c == '\n' || c == '\U{000B}' || c == '\U{000C}' || c == '\r'
    || c == '\U{0085}' || c == '\U{00A0}' || c == '\U{1680}'
    || ('\U{2000}' <= c <= '\U{200A}')
    || c == '\U{2028}' || c == '\U{2029}' || c == '\U{202F}' || c == '\U{205F}' || c == '\U{3000}'
  }

  /** `String#blank?`: empty or whitespace only. */
  predicate Blank(s: string)
    ensures s == [] ==> Blank(s)
  {
    forall i :: 0 <= i < |s| ==> IsSpace(s[i])
  }

  /** `present?` on a nullable string column: not nil and not blank. */
  predicate Present(s: Option<string>)
    ensures Present(s) ==> s.Some? && |s.value| > 0
  {
    s.Some? && !Blank(s.value)
  }

  /** The characters `String#strip` removes from either end (NUL and ASCII whitespace). */
  predicate IsStripChar(c: char) {
    c == '\0' || c == '\t' || c == '\n' || c == '\U{000B}' || c == '\U{000C}' || c == '\r' || c == ' '
  }

  /** Number of leading characters `strip` removes. */
  function StripStart(s: string): (n: nat)
    ensures n <= |s|
    ensures forall k :: 0 <= k < n ==> IsStripChar(s[k])
    ensures n < |s| ==> !IsStripChar(s[n])
  {
    if s == [] || !IsStripChar(s[0]) then 0
    else
      var n := StripStart(s[1..]);
      assert forall k :: 1 <= k < 1 + n ==> s[k] == s[1..][k - 1];
      1 + n
  }

  /** End of what `strip` keeps, searching back from the end down to `lo`. */
  function StripEnd(s: string, lo: nat): (hi: nat)
    requires lo <= |s|
    ensures lo <= hi <= |s|
    ensures forall k :: hi <= k < |s| ==> IsStripChar(s[k])
    ensures hi > lo ==> !IsStripChar(s[hi - 1])
    decreases |s| - lo
  {
    if |s| == lo || !IsStripChar(s[|s| - 1]) then |s|
    else
      var t := s[..|s| - 1];
      var hi := StripEnd(t, lo);
      assert forall k :: hi <= k < |t| ==> s[k] == t[k];
      hi
  }

  /**
   * `String#strip`: the input without its leading and trailing NUL and ASCII
   * whitespace; what is kept is a contiguous slice of the input that neither
   * starts nor ends with such a character.
   */
  function Strip(s: string): (r: string)
    ensures |r| <= |s|
    ensures r == [] || (!IsStripChar(r[0]) && !IsStripChar(r[|r| - 1]))
    ensures exists lo, hi :: 0 <= lo <= hi <= |s| && r == s[lo..hi]
              && (forall k :: 0 <= k < lo ==> IsStripChar(s[k]))
              && (forall k :: hi <= k < |s| ==> IsStripChar(s[k]))
    ensures Contains(s, r)
    ensures |s| > 0 && !IsStripChar(s[0]) && !IsStripChar(s[|s| - 1]) ==> r == s
  {
    var lo := StripStart(s);
    var hi := StripEnd(s, lo);
    ContainsSlice(s, lo, hi);
    assert |s| > 0 && !IsStripChar(s[0]) ==> lo == 0;
    assert |s| > 0 && !IsStripChar(s[|s| - 1]) ==> hi == |s|;
    assert (forall k :: 0 <= k < lo ==> IsStripChar(s[k])) && (forall k :: hi <= k < |s| ==> IsStripChar(s[k]));
    var r := s[lo..hi];
    assert r != [] ==> r[0] == s[lo] && r[|r| - 1] == s[hi - 1];
    r
  }

  /** Any slice of a string is contained in it. */
  lemma ContainsSlice(s: string, lo: nat, hi: nat)
    requires lo <= hi <= |s|
    ensures Contains(s, s[lo..hi])
  {
    ContainsInfix(s[..lo], s[lo..hi], s[hi..]);
    assert s[..lo] + s[lo..hi] + s[hi..] == s;
  }

  /** Stripping twice is stripping once. */
  lemma StripIdempotent(s: string)
    ensures Strip(Strip(s)) == Strip(s)
  {
    var r := Strip(s);
    if r != [] {
      assert StripStart(r) == 0;
      assert StripEnd(r, 0) == |r|;
    }
  }

  /** `Array#join(sep)`. */
  function Join(parts: seq<string>, sep: string): (r: string)
    ensures parts == [] ==> r == ""
    ensures |parts| == 1 ==> r == parts[0]
  {
    if |parts| == 0 then ""
    else if |parts| == 1 then parts[0]
    else parts[0] + sep + Join(parts[1..], sep)
  }

  /** Joining one more part appends exactly one separator and the part. */
  lemma {:induction false} JoinSnoc(parts: seq<string>, x: string, sep: string)
    requires parts != []
    ensures Join(parts + [x], sep) == Join(parts, sep) + sep + x
  {
    if |parts| == 1 {
      assert (parts + [x])[1..] == [x];
    } else {
      assert (parts + [x])[1..] == parts[1..] + [x];
      JoinSnoc(parts[1..], x, sep);
    }
  }

  /** Joining a part in front of a non-empty list adds the part and one separator. */
  lemma JoinCons(x: string, parts: seq<string>, sep: string)
    requires parts != []
    ensures Join([x] + parts, sep) == x + sep + Join(parts, sep)
  {
    assert ([x] + parts)[1..] == parts;
  }

  /** `s` contains `q` as a contiguous substring (SQL `s LIKE '%q%'`). */
  predicate Contains(s: string, q: string)
    ensures q == [] ==> Contains(s, q)
    ensures Contains(s, q) ==> |q| <= |s|
  {
    q <= s || (|s| > 0 && Contains(s[1..], q))
  }

  /** A substring found at any position is contained. */
  lemma {:induction false} ContainsInfix(a: string, q: string, b: string)
    ensures Contains(a + q + b, q)
  {
    if a == [] {
      assert q <= a + q + b;
    } else {
      ContainsInfix(a[1..], q, b);
      assert (a + q + b)[1..] == a[1..] + q + b;
    }
  }

  /** Every part of a join can be found in the joined string. */
  lemma {:induction false} JoinContainsParts(parts: seq<string>, sep: string, i: nat)
    requires i < |parts|
    ensures Contains(Join(parts, sep), parts[i])
  {
    if |parts| == 1 {
      ContainsInfix("", parts[0], "");
      assert "" + parts[0] + "" == parts[0];
    } else if i == 0 {
      ContainsInfix("", parts[0], sep + Join(parts[1..], sep));
      assert "" + parts[0] + (sep + Join(parts[1..], sep)) == Join(parts, sep);
    } else {
      JoinContainsParts(parts[1..], sep, i - 1);
      ContainsSuffix(parts[0] + sep, Join(parts[1..], sep), parts[i]);
    }
  }

  /** Containment survives prepending text. */
  lemma {:induction false} ContainsSuffix(p: string, s: string, q: string)
    requires Contains(s, q)
    ensures Contains(p + s, q)
  {
    if p != [] {
      ContainsSuffix(p[1..], s, q);
      assert (p + s)[1..] == p[1..] + s;
      assert Contains((p + s)[1..], q);
    } else {
      assert p + s == s;
    }
  }

  /** A non-empty contained string's first character occurs in the text. */
  lemma {:induction false} ContainsFirstChar(s: string, q: string)
    requires q != [] && Contains(s, q)
    ensures q[0] in s
  {
    if !(q <= s) {
      ContainsFirstChar(s[1..], q);
    }
  }

  /** Ruby's `String#<=>`: lexicographic by character, a proper prefix first. */
  predicate LexLe(a: string, b: string) {
    a == [] || (b != [] && (a[0] < b[0] || (a[0] == b[0] && LexLe(a[1..], b[1..]))))
  }

  lemma {:induction false} LexLeTotal(a: string, b: string)
    ensures LexLe(a, b) || LexLe(b, a)
  {
    if a != [] && b != [] && a[0] == b[0] {
      LexLeTotal(a[1..], b[1..]);
    }
  }

  lemma {:induction false} LexLeTransitive(a: string, b: string, c: string)
    requires LexLe(a, b) && LexLe(b, c)
    ensures LexLe(a, c)
  {
    if a != [] && a[0] == b[0] && b[0] == c[0] {
      LexLeTransitive(a[1..], b[1..], c[1..]);
    }
  }

  lemma {:induction false} LexLeAntisymmetric(a: string, b: string)
    requires LexLe(a, b) && LexLe(b, a)
    ensures a == b
  {
    if a != [] {
      LexLeAntisymmetric(a[1..], b[1..]);
      assert a == [a[0]] + a[1..] && b == [b[0]] + b[1..];
    }
  }

  /**
   * A regular-expression search: the capture of the first position, scanning
   * left to right, at which `m` matches.
   */
  function FirstMatch<X(==)>(s: string, m: string -> Option<X>): (r: Option<X>)
    ensures r.Some? ==> exists i :: 0 <= i <= |s| && m(s[i..]) == r
  {
    if m(s).Some? then
      assert s[0..] == s;
      m(s)
    else if s == [] then None
    else
      var r := FirstMatch(s[1..], m);
      if r.Some? then
        var i :| 0 <= i <= |s[1..]| && m(s[1..][i..]) == r;
        assert s[1..][i..] == s[i + 1..];
        r
      else r
  }

  /** Text in which the pattern matches nowhere is skipped over. */
  lemma {:induction false} FirstMatchSkip<X>(s: string, t: string, m: string -> Option<X>)
    requires forall i :: 0 <= i < |s| ==> m(s[i..] + t).None?
    ensures FirstMatch(s + t, m) == FirstMatch(t, m)
  {
    if s != [] {
      assert s[0..] + t == s + t;
      assert (s + t)[1..] == s[1..] + t;
      forall i | 0 <= i < |s[1..]|
        ensures m(s[1..][i..] + t).None?
      {
        assert s[1..][i..] == s[i + 1..];
      }
      FirstMatchSkip(s[1..], t, m);
    } else {
      assert s + t == t;
    }
  }

  predicate IsDigit(c: char) { '0' <= c <= '9' }

  function DigitChar(d: nat): (c: char)
    requires d < 10
    ensures IsDigit(c)
  {
    ('0' as int + d) as char
  }

  function DigitValue(c: char): (d: nat)
    requires IsDigit(c)
    ensures d < 10 && DigitChar(d) == c
  {
    c as int - '0' as int
  }

  /** Decimal rendering of a natural number, as in `"#{n}"`. */
  function NatToString(n: nat): (r: string)
    ensures |r| >= 1
    ensures forall i :: 0 <= i < |r| ==> IsDigit(r[i])
  {
    if n < 10 then [DigitChar(n)]
    else NatToString(n / 10) + [DigitChar(n % 10)]
  }

  /** Decimal rendering of an integer, with a leading `-` when negative. */
  function IntToString(i: int): (r: string)
    ensures i >= 0 ==> r == NatToString(i)
    ensures i < 0 ==> r == "-" + NatToString(-i)
  {
    if i < 0 then "-" + NatToString(-i) else NatToString(i)
  }

  /** Value of a string of decimal digits. */
  function DigitsValue(s: string): nat
    requires forall i :: 0 <= i < |s| ==> IsDigit(s[i])
  {
    if s == [] then 0 else DigitsValue(s[..|s| - 1]) * 10 + DigitValue(s[|s| - 1])
  }

  /** Rendering a number and reading it back gives the number. */
  lemma {:induction false} DigitsOfNatToString(n: nat)
    ensures DigitsValue(NatToString(n)) == n
  {
    if n >= 10 {
      var s := NatToString(n);
      assert s[..|s| - 1] == NatToString(n / 10);
      DigitsOfNatToString(n / 10);
    }
  }

  /** Length of the run of decimal digits at the start of `s`. */
  function LeadingDigits(s: string): (n: nat)
    ensures n <= |s|
    ensures forall i :: 0 <= i < n ==> IsDigit(s[i])
    ensures n < |s| ==> !IsDigit(s[n])
  {
    if s == [] || !IsDigit(s[0]) then 0
    else
      var n := LeadingDigits(s[1..]);
      assert forall i :: 1 <= i < 1 + n ==> s[i] == s[1..][i - 1];
      1 + n
  }

  /** `String#to_i` on a string that starts with its digits: 0 when there are none. */
  function ToI(s: string): (r: nat)
    ensures s == [] || !IsDigit(s[0]) ==> r == 0
  {
    DigitsValue(s[..LeadingDigits(s)])
  }

  /** `to_i` reads back what `to_s` wrote, whatever non-digit text follows. */
  lemma ToIOfNatToString(n: nat, rest: string)
    requires rest == [] || !IsDigit(rest[0])
    ensures ToI(NatToString(n) + rest) == n
  {
    var d := NatToString(n);
    var s := d + rest;
    LeadingDigitsOfConcat(d, rest);
    assert s[..|d|] == d;
    DigitsOfNatToString(n);
  }

  lemma {:induction false} LeadingDigitsOfConcat(d: string, rest: string)
    requires forall i :: 0 <= i < |d| ==> IsDigit(d[i])
    requires rest == [] || !IsDigit(rest[0])
    ensures LeadingDigits(d + rest) == |d|
  {
    if d != [] {
      assert (d + rest)[1..] == d[1..] + rest;
      LeadingDigitsOfConcat(d[1..], rest);
    }
  }

  /** Rendering is injective. */
  lemma NatToStringInjective(m: nat, n: nat)
    requires NatToString(m) == NatToString(n)
    ensures m == n
  {
    DigitsOfNatToString(m);
    DigitsOfNatToString(n);
  }

  /** A rendered integer starts with `-` exactly when it is negative. */
  lemma IntToStringSign(i: int)
    ensures |IntToString(i)| > 0 && (IntToString(i)[0] == '-' <==> i < 0)
  {
    if i >= 0 {
      assert IsDigit(NatToString(i)[0]);
    }
  }

  /** Integer rendering is injective: the sign and the digits tell numbers apart. */
  lemma IntToStringInjective(m: int, n: int)
    requires IntToString(m) == IntToString(n)
    ensures m == n
  {
    IntToStringSign(m);
    IntToStringSign(n);
    if m < 0 {
      assert IntToString(m)[1..] == NatToString(-m);
      assert IntToString(n)[1..] == NatToString(-n);
      NatToStringInjective(-m, -n);
    } else {
      NatToStringInjective(m, n);
    }
  }

  /**
   * `[a, b, ...].compact.join(sep)`: the non-nil fields in order, separated by
   * `sep` (empty strings are kept; only nil is dropped). Every non-nil field can
   * be found in the result.
   */
  function CompactJoin(fields: seq<Option<string>>, sep: string): (r: string)
    ensures forall i :: 0 <= i < |fields| && fields[i].Some? ==> Contains(r, fields[i].value)
    ensures (forall i :: 0 <= i < |fields| ==> fields[i].None?) ==> r == ""
  {
    var parts := Seqs.Somes(fields);
    assert forall i :: 0 <= i < |fields| && fields[i].Some? ==> Contains(Join(parts, sep), fields[i].value) by {
      forall i | 0 <= i < |fields| && fields[i].Some? ensures Contains(Join(parts, sep), fields[i].value) {
        assert fields[i] in fields;
        assert fields[i].value in parts;
        var k :| 0 <= k < |parts| && parts[k] == fields[i].value;
        JoinContainsParts(parts, sep, k);
      }
    }
    assert (forall i :: 0 <= i < |fields| ==> fields[i].None?) ==> parts == [] by {
      if parts != [] {
        assert parts[0] in parts;
        assert Some(parts[0]) in fields;
      }
    }
    Join(parts, sep)
  }

  /** With no nil field, `compact.join` is the plain join of the values. */
  lemma CompactJoinOfPresent(fields: seq<Option<string>>, values: seq<string>, sep: string)
    requires |fields| == |values|
    requires forall i :: 0 <= i < |fields| ==> fields[i] == Some(values[i])
    ensures CompactJoin(fields, sep) == Join(values, sep)
  {
    Seqs.SomesAllPresent(fields);
    assert Seqs.Somes(fields) == values;
  }

  /**
   * `compact.join` read left to right: a nil field adds nothing; a present
   * field is appended after one separator, or alone when no earlier field was
   * present. So the result is the present fields in order, single-separated.
   */
  lemma CompactJoinSnoc(fields: seq<Option<string>>, o: Option<string>, sep: string)
    ensures o.None? ==> CompactJoin(fields + [o], sep) == CompactJoin(fields, sep)
    ensures o.Some? && (forall i :: 0 <= i < |fields| ==> fields[i].None?) ==> CompactJoin(fields + [o], sep) == o.value
    ensures o.Some? && (exists i :: 0 <= i < |fields| && fields[i].Some?) ==>
              CompactJoin(fields + [o], sep) == CompactJoin(fields, sep) + sep + o.value
  {
    Seqs.SomesSnoc(fields, o);
    var parts := Seqs.Somes(fields);
    if o.Some? {
      if exists i :: 0 <= i < |fields| && fields[i].Some? {
        var i :| 0 <= i < |fields| && fields[i].Some?;
        assert fields[i] in fields;
        assert fields[i].value in parts;
        JoinSnoc(parts, o.value, sep);
      } else {
        assert parts + [o.value] == [o.value];
      }
    } else {
      assert parts + [] == parts;
    }
  }
}
