/** The two input validators of `add_contact`: `validate_email` and
    `validate_phone_number`. Each regular expression is checked by a
    hand-written scanner, and each scanner is proved to accept exactly the
    language of its regular expression, written out as a decomposition of the
    input into the pieces the expression names. */
module Validation {
  import opened Text

  /** `[a-z0-9]*`. */
  predicate LowerAlnumRun(s: string) { forall i :: 0 <= i < |s| ==> IsLowerAlnum(s[i]) }

  /** `\w*`. */
  predicate WordRun(s: string) { forall i :: 0 <= i < |s| ==> IsWordChar(s[i]) }

  /** `[a-z0-9]+[\._]?[a-z0-9]+`: one run of lower-case letters and digits of
      length at least two, or two non-empty runs joined by one `.` or `_`. */
  predicate ValidLocalPart(l: string)
  {
    var k := Span(l, IsLowerAlnum);
    if k == |l| then 2 <= |l|
    else 1 <= k && (l[k] == '.' || l[k] == '_') && k + 1 < |l| && LowerAlnumRun(l[k + 1..])
  }

  /** `\w+[.]\w+`: word characters, exactly one dot, word characters. */
  predicate ValidDomain(d: string)
  {
    var k := IndexOf(d, '.');
    1 <= k && k + 1 < |d| && WordRun(d[..k]) && WordRun(d[k + 1..])
  }

  /** `validate_email`: the local part ends at the first `@`, which neither
      the local part nor the domain may contain. */
  predicate ValidEmail(e: string)
  {
    var at := IndexOf(e, '@');
    at < |e| && ValidLocalPart(e[..at]) && ValidDomain(e[at + 1..])
  }

  /** `e` splits as `^[a-z0-9]+[\._]?[a-z0-9]+[@]\w+[.]\w+$` reads it:
      e[..p] is the first run, e[p..q] the optional separator, e[q..at] the
      second run, e[at] the `@`, e[at+1..dot] and e[dot+1..] the two word
      runs around the dot e[dot]. */
  ghost predicate EmailSplit(e: string, p: int, q: int, at: int, dot: int)
  {
    && 0 < p <= q <= p + 1 && q < at && at + 1 < dot && dot + 1 < |e|
    && (q == p + 1 ==> e[p] == '.' || e[p] == '_')
    && e[at] == '@' && e[dot] == '.'
    && LowerAlnumRun(e[..p]) && LowerAlnumRun(e[q..at])
    && WordRun(e[at + 1..dot]) && WordRun(e[dot + 1..])
  }

  ghost predicate MatchesEmailPattern(e: string)
  {
    exists p, q, at, dot :: EmailSplit(e, p, q, at, dot)
  }

  /** Every string the scanner accepts has the shape of the expression. */
  lemma EmailScannerSound(e: string)
    requires ValidEmail(e)
    ensures MatchesEmailPattern(e)
  {
    var at := IndexOf(e, '@');
    var local, domain := e[..at], e[at + 1..];
    var k := Span(local, IsLowerAlnum);
    var d := IndexOf(domain, '.');
    var dot := at + 1 + d;
    assert domain[..d] == e[at + 1..dot];
    assert domain[d + 1..] == e[dot + 1..];
    if k == |local| {
      assert local[..1] == e[..1] && local[1..] == e[1..at];
      assert EmailSplit(e, 1, 1, at, dot);
    } else {
      assert local[..k] == e[..k] && local[k + 1..] == e[k + 1..at];
      assert EmailSplit(e, k, k + 1, at, dot);
    }
  }

  /** The local part of a string of the expression's shape passes. */
  lemma LocalPartOfSplit(e: string, p: int, q: int, at: int, dot: int)
    requires EmailSplit(e, p, q, at, dot)
    ensures ValidLocalPart(e[..at])
  {
    var local := e[..at];
    assert forall i :: 0 <= i < p ==> local[i] == e[..p][i];
    if q == p {
      assert forall i :: q <= i < at ==> local[i] == e[q..at][i - q];
      assert Span(local, IsLowerAlnum) == |local|;
    } else {
      assert local[p] == e[p];
      assert Span(local, IsLowerAlnum) == p;
      assert local[p + 1..] == e[q..at];
    }
  }

  /** The domain of a string of the expression's shape passes. */
  lemma DomainOfSplit(e: string, p: int, q: int, at: int, dot: int)
    requires EmailSplit(e, p, q, at, dot)
    ensures ValidDomain(e[at + 1..])
  {
    var domain := e[at + 1..];
    var d := dot - at - 1;
    assert domain[..d] == e[at + 1..dot];
    assert domain[d + 1..] == e[dot + 1..];
    assert forall i :: 0 <= i < d ==> domain[i] == e[at + 1..dot][i];
    assert IndexOf(domain, '.') == d;
  }

  /** In a string of the expression's shape the `@` is the first one. */
  lemma AtOfSplit(e: string, p: int, q: int, at: int, dot: int)
    requires EmailSplit(e, p, q, at, dot)
    ensures IndexOf(e, '@') == at
  {
    assert forall i :: 0 <= i < p ==> e[i] == e[..p][i];
    assert forall i :: q <= i < at ==> e[i] == e[q..at][i - q];
  }

  /** Every string of the expression's shape is accepted by the scanner. */
  lemma EmailScannerComplete(e: string, p: int, q: int, at: int, dot: int)
    requires EmailSplit(e, p, q, at, dot)
    ensures ValidEmail(e)
  {
    AtOfSplit(e, p, q, at, dot);
    LocalPartOfSplit(e, p, q, at, dot);
    DomainOfSplit(e, p, q, at, dot);
  }

  /** The scanner accepts exactly the language of the email expression. */
  lemma EmailScannerIsPattern(e: string)
    ensures ValidEmail(e) <==> MatchesEmailPattern(e)
  {
    if ValidEmail(e) {
      EmailScannerSound(e);
    }
    if MatchesEmailPattern(e) {
      var p, q, at, dot :| EmailSplit(e, p, q, at, dot);
      EmailScannerComplete(e, p, q, at, dot);
    }
  }

  /** `[\d\s]`. */
  predicate IsPhoneChar(c: char) { IsDigit(c) || IsSpace(c) }

  /** `[\d\s]*`. */
  predicate PhoneRun(s: string) { forall i :: 0 <= i < |s| ==> IsPhoneChar(s[i]) }

  /** `validate_phone_number`: an optional leading `+`, then at least one
      digit or whitespace character and nothing else. */
  predicate ValidPhone(p: string)
  {
    var body := if |p| > 0 && p[0] == '+' then p[1..] else p;
    |body| > 0 && PhoneRun(body)
  }

  /** `p` splits as `^\+?[\d\s]+$` reads it: p[..s] is the optional `+`. */
  ghost predicate PhoneSplit(p: string, s: int)
  {
    && (s == 0 || (s == 1 && |p| > 0 && p[0] == '+'))
    && s < |p|
    && PhoneRun(p[s..])
  }

  ghost predicate MatchesPhonePattern(p: string)
  {
    exists s :: PhoneSplit(p, s)
  }

  /** The scanner accepts exactly the language of the phone expression; in
      particular a leading `+` that the expression leaves unconsumed can never
      be matched by `[\d\s]`, so the scanner need not backtrack. */
  lemma PhoneScannerIsPattern(p: string)
    ensures ValidPhone(p) <==> MatchesPhonePattern(p)
  {
    if ValidPhone(p) {
      if |p| > 0 && p[0] == '+' {
        assert PhoneSplit(p, 1);
      } else {
        assert p[0..] == p;
        assert PhoneSplit(p, 0);
      }
    }
    if MatchesPhonePattern(p) {
      var s :| PhoneSplit(p, s);
      if |p| > 0 && p[0] == '+' {
        assert s == 1;
      }
    }
  }

  /** A local part without a separator is accepted. */
  lemma EmailAcceptsPlainLocalPart()
    ensures ValidEmail("bob@mail.com")
  {
    var e := "bob@mail.com";
    assert e[..1] == "b" && e[1..3] == "ob" && e[4..8] == "mail" && e[9..] == "com";
    EmailScannerComplete(e, 1, 1, 3, 8);
  }

  /** A local part with one `.` separator is accepted. */
  lemma EmailAcceptsSeparatedLocalPart()
    ensures ValidEmail("jo.ann@mail.org")
  {
    var e := "jo.ann@mail.org";
    assert e[..2] == "jo" && e[3..6] == "ann" && e[7..11] == "mail" && e[12..] == "org";
    EmailScannerComplete(e, 2, 3, 6, 11);
  }

  /** A doubled `@` is rejected. */
  lemma EmailRejectsDoubledAt()
    ensures !ValidEmail("bob@@x")
  {
    assert IndexOf("bob@@x", '@') == 3;
    assert "bob@@x"[4..] == "@x";
    assert IndexOf("@x", '.') == 2;
  }

  /** An upper-case local part is rejected. */
  lemma EmailRejectsUpperCase()
    ensures !ValidEmail("Bob@x.com")
  {
    var local := "Bob";
    assert IndexOf("Bob@x.com", '@') == 3;
    assert "Bob@x.com"[..3] == local;
    assert !IsLowerAlnum(local[0]);
    assert Span(local, IsLowerAlnum) == 0;
  }

  /** A second dot in the domain is rejected, and so is a one-character local
      part, which the two `+` runs of the expression exclude. */
  lemma EmailRejectsBadDomain()
    ensures !ValidEmail("a@b.c.d")
    ensures !ValidEmail("a@b.c")
  {
    assert IndexOf("a@b.c.d", '@') == 1;
    assert "a@b.c.d"[2..] == "b.c.d";
    assert IndexOf("b.c.d", '.') == 1;
    assert "b.c.d"[2..][1] == '.';
    assert IndexOf("a@b.c", '@') == 1;
    assert "a@b.c"[..1] == "a";
  }

  lemma PhoneExamples()
    ensures ValidPhone("+1 555 123")
    ensures !ValidPhone("abc123")
    ensures !ValidPhone("+")
    ensures !ValidPhone("")
  {
  }
}
