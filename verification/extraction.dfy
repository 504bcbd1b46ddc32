/**
  The page extractor: the page text is scanned with the loose pattern,
  every match is stripped to its digits, checked once more, and gathered
  into an insertion-ordered set; raw e-mail matches are deduplicated and
  capped.
*/
module Extraction {
  import opened Optional
  import opened Chars
  import opened LoosePattern
  import opened Scanner
  import opened InsertionSet

  /** At most this many distinct e-mail addresses are reported per page. */
  const EmailCap: nat := 3

  /** What the extractor hands back to the popup. */
  datatype PageData = PageData(whatsapp: seq<string>, emails: seq<string>, domain: string)

  /** The text the extractor searches: the visible text, one space, then the markup. */
  function PageContent(innerText: string, innerHTML: string): string {
    innerText + " " + innerHTML
  }

  /** The strict validation applied after cleaning: prefix `55`, 12 or 13 digits. */
  predicate PassesStrictCheck(n: string) {
    |n| >= 2 && n[..2] == "55" && 12 <= |n| <= 13
  }

  /**
    A Brazilian WhatsApp number as the extractor produces it: digits only,
    country code 55, a two-digit area code, and an eight-digit subscriber
    number or a nine-digit one starting with 9.
  */
  predicate IsNormalizedNumber(n: string) {
    && AllDigits(n)
    && (|n| == 12 || |n| == 13)
    && n[..2] == "55"
    && (|n| == 13 ==> n[4] == '9')
  }

  /** The digits a well-formed candidate leaves behind once everything else is stripped. */
  function CandidateDigits(c: Candidate): string {
    "55" + c.area + (if c.sub.nine then "9" else "") + c.sub.head + c.sub.tail
  }

  lemma SubscriberDigits(x: Subscriber)
    requires WellFormedSubscriber(x)
    ensures Digits(SubscriberText(x)) == (if x.nine then "9" else "") + x.head + x.tail
  {
    var nine: string := if x.nine then "9" else "";
    DigitsAppend(nine, x.head + (x.gap + x.tail));
    DigitsAppend(x.head, x.gap + x.tail);
    DigitsAppend(x.gap, x.tail);
    DigitsIdentity(nine);
    DigitsIdentity(x.head);
    DigitsIdentity(x.tail);
    DigitsOfSeparators(x.gap);
  }

  /** What follows the country code strips to the area code, the optional 9 and the eight subscriber digits. */
  lemma DigitsAfterCode(c: Candidate)
    requires WellFormed(c)
    ensures Digits(c.sep1 + (c.area + (c.sep2 + SubscriberText(c.sub))))
      == c.area + ((if c.sub.nine then "9" else "") + c.sub.head + c.sub.tail)
  {
    var sub := SubscriberText(c.sub);
    var t4 := c.sep2 + sub;
    var t3 := c.area + t4;
    assert Digits(sub) == (if c.sub.nine then "9" else "") + c.sub.head + c.sub.tail by {
      SubscriberDigits(c.sub);
    }
    assert Digits(t4) == Digits(sub) by {
      DigitsAppend(c.sep2, sub);
      DigitsOfSeparators(c.sep2);
    }
    assert Digits(t3) == c.area + Digits(t4) by {
      DigitsAppend(c.area, t4);
      DigitsIdentity(c.area);
    }
    assert Digits(c.sep1 + t3) == Digits(t3) by {
      DigitsAppend(c.sep1, t3);
      DigitsOfSeparators(c.sep1);
    }
  }

  /** Stripping a match keeps exactly the country code, the area code, the optional 9 and the eight subscriber digits. */
  lemma DigitsOfMatch(c: Candidate)
    requires WellFormed(c)
    ensures Digits(Text(c)) == CandidateDigits(c)
  {
    var t2 := c.sep1 + (c.area + (c.sep2 + SubscriberText(c.sub)));
    var t1 := "55" + t2;
    DigitsAfterCode(c);
    assert Digits(t1) == "55" + Digits(t2) by {
      DigitsAppend("55", t2);
      DigitsIdentity("55");
    }
    assert Digits(Text(c)) == Digits(t1) by {
      assert Text(c) == (if c.plus then "+" else "") + t1;
      DigitsOfPlus(c.plus, t1);
    }
  }

  /** The optional `+` of the country code is dropped by the stripping. */
  lemma DigitsOfPlus(plus: bool, t: string)
    ensures Digits((if plus then "+" else "") + t) == Digits(t)
  {
    if plus {
      DigitsAppend("+", t);
      DigitsOfNonDigits("+");
    } else {
      assert "" + t == t;
    }
  }

  /** Every string the loose pattern accepts is already a normalized number once stripped. */
  lemma MatchIsNormalized(c: Candidate)
    requires WellFormed(c)
    ensures IsNormalizedNumber(Digits(Text(c)))
  {
    DigitsOfMatch(c);
    var n := CandidateDigits(c);
    assert n[..2] == "55";
    assert c.sub.nine ==> n[4] == '9';
  }

  /** The strict validation never rejects a match of the loose pattern: it is redundant. */
  lemma StrictCheckRedundant(c: Candidate)
    requires WellFormed(c)
    ensures PassesStrictCheck(Digits(Text(c)))
  {
    MatchIsNormalized(c);
  }

  /** `match.replace(/\D/g, '')` for each match, in order. */
  function Cleaned(hits: seq<Hit<Candidate>>): (r: seq<string>)
    ensures |r| == |hits|
    ensures forall k :: 0 <= k < |hits| ==> r[k] == Digits(Text(hits[k].item))
  {
    if |hits| == 0 then [] else [Digits(Text(hits[0].item))] + Cleaned(hits[1..])
  }

  /** The strings that survive the strict validation, in their original order. */
  function KeepValid(ns: seq<string>): (r: seq<string>)
    ensures |r| <= |ns|
    ensures forall k :: 0 <= k < |r| ==> PassesStrictCheck(r[k]) && r[k] in ns
    ensures forall k :: 0 <= k < |ns| && PassesStrictCheck(ns[k]) ==> ns[k] in r
  {
    if |ns| == 0 then []
    else (if PassesStrictCheck(ns[0]) then [ns[0]] else []) + KeepValid(ns[1..])
  }

  /**
    The filter works piece by piece, so kept strings stay in input order
    with their repeats; with the bound on a single string's result, this
    pins the filter down completely.
  */
  lemma {:induction false} KeepValidAppend(a: seq<string>, b: seq<string>)
    ensures KeepValid(a + b) == KeepValid(a) + KeepValid(b)
    decreases |a|
  {
    if |a| == 0 {
      assert a + b == b;
    } else {
      assert (a + b)[0] == a[0];
      assert (a + b)[1..] == a[1..] + b;
      KeepValidAppend(a[1..], b);
    }
  }

  /** A filter that every element passes returns its input unchanged. */
  lemma {:induction false} KeepValidAll(ns: seq<string>)
    requires forall k :: 0 <= k < |ns| ==> PassesStrictCheck(ns[k])
    ensures KeepValid(ns) == ns
    decreases |ns|
  {
    if |ns| != 0 {
      KeepValidAll(ns[1..]);
      assert ns == [ns[0]] + ns[1..];
    }
  }

  /** The numbers of a page: the cleaned matches that pass validation, each once, in first-seen order. */
  function ExtractNumbers(content: string): (r: seq<string>)
    ensures NoDup(r)
    ensures forall k :: 0 <= k < |r| ==> IsNormalizedNumber(r[k])
  {
    var hits := Scan(content);
    var cleaned := Cleaned(hits);
    forall k | 0 <= k < |hits|
      ensures IsNormalizedNumber(cleaned[k])
    {
      MatchIsNormalized(hits[k].item);
    }
    var kept := KeepValid(cleaned);
    SetOrder(kept)
  }

  /** The validation filter drops nothing: the numbers are exactly the cleaned matches, deduplicated. */
  lemma ExtractNumbersSkipsNothing(content: string)
    ensures ExtractNumbers(content) == SetOrder(Cleaned(Scan(content)))
  {
    var hits := Scan(content);
    var cleaned := Cleaned(hits);
    forall k | 0 <= k < |cleaned|
      ensures PassesStrictCheck(cleaned[k])
    {
      StrictCheckRedundant(hits[k].item);
    }
    KeepValidAll(cleaned);
  }

  /** A string is among the cleaned matches exactly when some match strips down to it. */
  lemma CleanedMembers(hits: seq<Hit<Candidate>>, n: string)
    ensures n in Cleaned(hits) <==> exists k :: 0 <= k < |hits| && Digits(Text(hits[k].item)) == n
  {
    var cleaned := Cleaned(hits);
    if n in cleaned {
      var k :| 0 <= k < |cleaned| && cleaned[k] == n;
      assert Digits(Text(hits[k].item)) == n;
    }
  }

  /** A number is reported exactly when some match of the page strips down to it. */
  lemma ExtractNumbersMembership(content: string, n: string)
    ensures var hits := Scan(content);
      n in ExtractNumbers(content) <==>
        exists k :: 0 <= k < |hits| && Digits(Text(hits[k].item)) == n
  {
    var hits := Scan(content);
    ExtractNumbersSkipsNothing(content);
    SetOrderMembers(Cleaned(hits), n);
    CleanedMembers(hits, n);
  }

  /** Numbers come out in the order their first match appears on the page. */
  lemma ExtractNumbersFirstSeen(content: string)
    ensures InFirstSeenOrder(Cleaned(Scan(content)), ExtractNumbers(content))
  {
    ExtractNumbersSkipsNothing(content);
    SetOrderFirstSeen(Cleaned(Scan(content)));
  }

  /** `[...new Set(emails)].slice(0, 3)` over the raw e-mail matches. */
  function ShapeEmails(rawEmails: seq<string>): (r: seq<string>)
    ensures |r| <= EmailCap && NoDup(r)
    ensures forall k :: 0 <= k < |r| ==> r[k] in rawEmails
    ensures forall k :: 0 <= k < |rawEmails| && rawEmails[k] !in r ==> |r| == EmailCap
  {
    FirstDistinct(rawEmails, EmailCap)
  }

  /** `extractWhatsAppFromPage`, with the page text, the e-mail matches and the host name as inputs. */
  function ExtractFromPage(innerText: string, innerHTML: string, rawEmails: seq<string>, hostname: string): (d: PageData)
    ensures NoDup(d.whatsapp)
    ensures forall k :: 0 <= k < |d.whatsapp| ==> IsNormalizedNumber(d.whatsapp[k])
    ensures |d.emails| <= EmailCap && NoDup(d.emails)
    ensures forall k :: 0 <= k < |d.emails| ==> d.emails[k] in rawEmails
    ensures forall n :: n in d.whatsapp <==> HasMatchFor(PageContent(innerText, innerHTML), n)
    ensures forall k :: 0 <= k < |rawEmails| && rawEmails[k] !in d.emails ==> |d.emails| == EmailCap
    ensures d.domain == hostname
  {
    var content := PageContent(innerText, innerHTML);
    forall n
      ensures n in ExtractNumbers(content) <==> HasMatchFor(content, n)
    {
      ExtractNumbersMembership(content, n);
    }
    PageData(ExtractNumbers(content), ShapeEmails(rawEmails), hostname)
  }

  /** Some match of the loose pattern in `content` strips down to `n`. */
  predicate HasMatchFor(content: string, n: string) {
    var hits := Scan(content);
    exists k :: 0 <= k < |hits| && Digits(Text(hits[k].item)) == n
  }

  /**
    A landline-style number whose subscriber part starts with 9: the
    optional `9` cannot be taken (a separator follows three digits later),
    so the pattern falls back to reading `9888` as the first group of four.
  */
  const NineFallbackText: string := "Tel 55 11 9888-7777."

  /** Where the pattern cuts the sample: no `+`, `55` at 4, area at 7, subscriber at 10 without the 9, tail at 15. */
  const NineFallbackCuts: Cuts := Cuts(false, 4, 7, 10, false, 10, 15)

  lemma NineFallbackCutsHold()
    ensures CutsAt(NineFallbackText, 4, NineFallbackCuts)
  {
    assert SubscriberCutsAt(NineFallbackText, 10, false, 10, 15);
  }

  lemma NineFallbackParse()
    ensures ParseAt(NineFallbackText, 4) == Some(Assemble(NineFallbackText, NineFallbackCuts))
  {
    NineFallbackCutsHold();
    ParseCutsComplete(NineFallbackText, 4, NineFallbackCuts);
  }

  /** The match the pattern reports for the sample. */
  const NineFallbackMatch: Candidate := Candidate(false, " ", "11", " ", Subscriber(false, "9888", "-", "7777"))

  lemma NineFallbackParts()
    ensures Assemble(NineFallbackText, NineFallbackCuts) == NineFallbackMatch
  {
  }

  lemma NineFallbackDigits()
    ensures Digits(Text(NineFallbackMatch)) == "551198887777"
  {
    DigitsOfMatch(NineFallbackMatch);
    assert CandidateDigits(NineFallbackMatch) == "55" + "11" + "" + "9888" + "7777";
  }

  /** The match found at position 4, and the twelve-digit number it cleans to: the 9 is kept as a subscriber digit. */
  lemma NineFallbackExample()
    ensures ParseAt(NineFallbackText, 4) == Some(NineFallbackMatch)
    ensures Digits(Text(ParseAt(NineFallbackText, 4).value)) == "551198887777"
  {
    NineFallbackParse();
    NineFallbackParts();
    NineFallbackDigits();
  }
}
