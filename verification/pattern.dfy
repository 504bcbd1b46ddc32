/**
  The loose Brazilian phone pattern of the extractor,
  `(?<!\d)(?:\+?55[\s().-]*)\d{2}[\s().-]*9?\d{4}[\s().-]*\d{4}(?!\d)`,
  as a hand-written parser that follows the regular-expression engine's
  backtracking order, together with a declarative description of the
  strings the pattern accepts.
*/
module LoosePattern {
  import opened Chars
  import opened Optional

  /** The subscriber part `9?\d{4}[\s().-]*\d{4}`: optional mobile prefix, two groups of four digits and the gap between them. */
  datatype Subscriber = Subscriber(nine: bool, head: string, gap: string, tail: string)

  /** One match of the whole pattern, split at its groups. */
  datatype Candidate = Candidate(plus: bool, sep1: string, area: string, sep2: string, sub: Subscriber)

  function SubscriberText(x: Subscriber): string {
    (if x.nine then "9" else "") + (x.head + (x.gap + x.tail))
  }

  /** The text a candidate spans in the page. */
  function Text(c: Candidate): string {
    (if c.plus then "+" else "") + ("55" + (c.sep1 + (c.area + (c.sep2 + SubscriberText(c.sub)))))
  }

  /** The number of characters a candidate spans, counted part by part. */
  function Width(c: Candidate): nat {
    (if c.plus then 1 else 0) + 2 + |c.sep1| + |c.area| + |c.sep2|
      + (if c.sub.nine then 1 else 0) + |c.sub.head| + |c.sub.gap| + |c.sub.tail|
  }

  lemma WidthIsTextLength(c: Candidate)
    ensures |Text(c)| == Width(c)
  {
  }

  predicate WellFormedSubscriber(x: Subscriber) {
    && |x.head| == 4 && AllDigits(x.head)
    && AllSeparators(x.gap)
    && |x.tail| == 4 && AllDigits(x.tail)
  }

  /** The parts have the shapes the pattern's groups demand. */
  predicate WellFormed(c: Candidate) {
    && AllSeparators(c.sep1)
    && |c.area| == 2 && AllDigits(c.area)
    && AllSeparators(c.sep2)
    && WellFormedSubscriber(c.sub)
  }

  /** `(?<!\d)` at position `i`. */
  predicate NoDigitBefore(s: string, i: nat)
    requires i <= |s|
  {
    i == 0 || !IsDigit(s[i - 1])
  }

  /** `(?!\d)` at position `i`. */
  predicate NoDigitAt(s: string, i: nat)
    requires i <= |s|
  {
    i == |s| || !IsDigit(s[i])
  }

  /** The pattern matches `s` at `i` with exactly the text of `c`, lookbehind and lookahead included. */
  predicate MatchesAt(s: string, i: nat, c: Candidate) {
    && i + |Text(c)| <= |s|
    && s[i..i + |Text(c)|] == Text(c)
    && NoDigitBefore(s, i)
    && NoDigitAt(s, i + |Text(c)|)
  }

  /** Positions `i` up to `j` of `s` hold digits, checked from the left. */
  predicate DigitsIn(s: string, i: nat, j: nat)
    decreases j - i
  {
    i <= j <= |s| && (i == j || (IsDigit(s[i]) && DigitsIn(s, i + 1, j)))
  }

  /** Positions `i` up to `j` of `s` hold separators, checked from the left. */
  predicate SepsIn(s: string, i: nat, j: nat)
    decreases j - i
  {
    i <= j <= |s| && (i == j || (IsSeparator(s[i]) && SepsIn(s, i + 1, j)))
  }

  /**
    Where a match starting at `i` is cut into its parts: whether it opens
    with `+`, where `55`, the area code, the subscriber part, its first and
    its last four digits start, and whether the subscriber part opens with
    the mobile `9`.
  */
  datatype Cuts = Cuts(plus: bool, code: nat, area: nat, sub: nat, nine: bool, head: nat, tail: nat)

  /** `9?\d{4}[\s().-]*\d{4}(?!\d)` at `p`, taking the `9` when `nine` holds, with the groups of four digits at `d` and `t`. */
  predicate SubscriberCutsAt(s: string, p: nat, nine: bool, d: nat, t: nat) {
    && d == (if nine then p + 1 else p)
    && (nine ==> p < |s| && s[p] == '9')
    && DigitsIn(s, d, d + 4) && SepsIn(s, d + 4, t) && DigitsIn(s, t, t + 4) && NoDigitAt(s, t + 4)
  }

  /** The whole pattern matches at `i`, cut at `k`. */
  predicate CutsAt(s: string, i: nat, k: Cuts) {
    && i <= |s| && NoDigitBefore(s, i)
    && k.code == (if k.plus then i + 1 else i)
    && (k.plus ==> i < |s| && s[i] == '+')
    && k.code + 2 <= k.area && k.area + 2 <= k.sub <= |s|
    && s[k.code] == '5' && s[k.code + 1] == '5'
    && SepsIn(s, k.code + 2, k.area) && DigitsIn(s, k.area, k.area + 2) && SepsIn(s, k.area + 2, k.sub)
    && SubscriberCutsAt(s, k.sub, k.nine, k.head, k.tail)
  }

  /** The cuts lie in order inside `s`, leaving room for the fixed-length groups. */
  predicate CutsFit(s: string, k: Cuts) {
    k.code + 2 <= k.area && k.area + 2 <= k.sub <= k.head && k.head + 4 <= k.tail && k.tail + 4 <= |s|
  }

  /** Position just past the greedy `[\s().-]*` that starts at `i`. */
  function SepRun(s: string, i: nat): (j: nat)
    requires i <= |s|
    ensures SepsIn(s, i, j)
    ensures j == |s| || !IsSeparator(s[j])
    decreases |s| - i
  {
    if i < |s| && IsSeparator(s[i]) then SepRun(s, i + 1) else i
  }

  /** One branch of `9?` at `p`: with `nine` the prefix digit is consumed, without it the `9` (if any) belongs to the first group. */
  function TrySubscriber(s: string, p: nat, nine: bool): (r: Option<nat>)
    requires p <= |s|
    ensures r.Some? ==> SubscriberCutsAt(s, p, nine, if nine then p + 1 else p, r.value)
  {
    var d := if nine then p + 1 else p;
    if nine && !(p < |s| && s[p] == '9') then None
    else if !DigitsIn(s, d, d + 4) then None
    else
      var t := SepRun(s, d + 4);
      if DigitsIn(s, t, t + 4) && NoDigitAt(s, t + 4) then Some(t) else None
  }

  /** The greedy `9?`: the branch that takes the prefix is tried first. */
  function SubscriberAt(s: string, p: nat): (r: Option<(bool, nat)>)
    requires p <= |s|
    ensures r.Some? ==> SubscriberCutsAt(s, p, r.value.0, if r.value.0 then p + 1 else p, r.value.1)
  {
    match TrySubscriber(s, p, true)
    case Some(t) => Some((true, t))
    case None =>
      match TrySubscriber(s, p, false)
      case Some(t) => Some((false, t))
      case None => None
  }

  /** The rest of an attempt once the area code has been read at `b`. */
  function ParseAfterArea(s: string, plus: bool, a: nat, b: nat): (r: Option<Cuts>)
    requires a + 2 <= b && b + 2 <= |s|
    ensures r.Some? ==> var k := r.value;
      && k.plus == plus && k.code == a && k.area == b
      && b + 2 <= k.sub <= |s| && SepsIn(s, b + 2, k.sub)
      && SubscriberCutsAt(s, k.sub, k.nine, k.head, k.tail)
  {
    var p := SepRun(s, b + 2);
    match SubscriberAt(s, p)
    case None => None
    case Some((nine, t)) => Some(Cuts(plus, a, b, p, nine, if nine then p + 1 else p, t))
  }

  /** The rest of an attempt once `+?55` has been read, with `55` at `a`. */
  function ParseAfterCode(s: string, plus: bool, a: nat): (r: Option<Cuts>)
    requires a + 2 <= |s|
    ensures r.Some? ==> var k := r.value;
      && k.plus == plus && k.code == a
      && a + 2 <= k.area && k.area + 2 <= k.sub <= |s|
      && SepsIn(s, a + 2, k.area) && DigitsIn(s, k.area, k.area + 2) && SepsIn(s, k.area + 2, k.sub)
      && SubscriberCutsAt(s, k.sub, k.nine, k.head, k.tail)
  {
    var b := SepRun(s, a + 2);
    if !DigitsIn(s, b, b + 2) then None else ParseAfterArea(s, plus, a, b)
  }

  /** One attempt of the engine at `i`, reporting where the match is cut. */
  function ParseCuts(s: string, i: nat): (r: Option<Cuts>)
    requires i <= |s|
    ensures r.Some? ==> CutsAt(s, i, r.value)
  {
    var plus := i < |s| && s[i] == '+';
    var a := if plus then i + 1 else i;
    if !NoDigitBefore(s, i) || !(a + 2 <= |s| && s[a] == '5' && s[a + 1] == '5') then None
    else ParseAfterCode(s, plus, a)
  }

  /** The candidate whose parts are the pieces of `s` between the cuts. */
  function Assemble(s: string, k: Cuts): Candidate
    requires CutsFit(s, k)
  {
    Candidate(k.plus, s[k.code + 2..k.area], s[k.area..k.area + 2], s[k.area + 2..k.sub],
      Subscriber(k.nine, s[k.head..k.head + 4], s[k.head + 4..k.tail], s[k.tail..k.tail + 4]))
  }

  /** One attempt of the regular-expression engine at position `i`. */
  function ParseAt(s: string, i: nat): (r: Option<Candidate>)
    requires i <= |s|
    ensures r.Some? ==> WellFormed(r.value) && MatchesAt(s, i, r.value)
  {
    match ParseCuts(s, i)
    case None => None
    case Some(k) =>
      AssembleMatches(s, i, k);
      Some(Assemble(s, k))
  }

  /** The cuts a candidate written at `i` implies. */
  function CutsOf(i: nat, c: Candidate): Cuts {
    var a := if c.plus then i + 1 else i;
    var area := a + 2 + |c.sep1|;
    var sub := area + 2 + |c.sep2|;
    var d := if c.sub.nine then sub + 1 else sub;
    Cuts(c.plus, a, area, sub, c.sub.nine, d, d + 4 + |c.sub.gap|)
  }

  // Slices of one string, joined and split again.

  lemma SliceJoin(s: string, i: nat, j: nat, k: nat)
    requires i <= j <= k <= |s|
    ensures s[i..j] + s[j..k] == s[i..k]
  {
  }

  lemma JoinSlices4(s: string, x0: nat, x1: nat, x2: nat, x3: nat, x4: nat)
    requires x0 <= x1 <= x2 <= x3 <= x4 <= |s|
    ensures s[x0..x1] + (s[x1..x2] + (s[x2..x3] + s[x3..x4])) == s[x0..x4]
  {
    SliceJoin(s, x2, x3, x4);
    SliceJoin(s, x1, x2, x4);
    SliceJoin(s, x0, x1, x4);
  }

  lemma JoinSlices6(s: string, x0: nat, x1: nat, x2: nat, x3: nat, x4: nat, x5: nat, x6: nat)
    requires x0 <= x1 <= x2 <= x3 <= x4 <= x5 <= x6 <= |s|
    ensures s[x0..x1] + (s[x1..x2] + (s[x2..x3] + (s[x3..x4] + (s[x4..x5] + s[x5..x6])))) == s[x0..x6]
  {
    JoinSlices4(s, x2, x3, x4, x5, x6);
    SliceJoin(s, x1, x2, x6);
    SliceJoin(s, x0, x1, x6);
  }

  /** If `s` holds `a + b` at `i`, it holds `a` at `i` and `b` right after it. */
  lemma Peel(s: string, i: nat, a: string, b: string)
    requires i + |a + b| <= |s| && s[i..i + |a + b|] == a + b
    ensures s[i..i + |a|] == a
    ensures s[i + |a|..i + |a| + |b|] == b
  {
    assert s[i..i + |a|] == s[i..i + |a + b|][..|a|];
    assert s[i + |a|..i + |a| + |b|] == s[i..i + |a + b|][|a|..];
  }

  lemma SplitSlices4(s: string, x0: nat, t0: string, t1: string, t2: string, t3: string)
    requires x0 + |t0 + (t1 + (t2 + t3))| <= |s| && s[x0..x0 + |t0 + (t1 + (t2 + t3))|] == t0 + (t1 + (t2 + t3))
    ensures var x1 := x0 + |t0|; var x2 := x1 + |t1|; var x3 := x2 + |t2|;
      && s[x0..x1] == t0 && s[x1..x2] == t1 && s[x2..x3] == t2 && s[x3..x3 + |t3|] == t3
  {
    Peel(s, x0, t0, t1 + (t2 + t3));
    Peel(s, x0 + |t0|, t1, t2 + t3);
    Peel(s, x0 + |t0| + |t1|, t2, t3);
  }

  lemma SplitSlices6(s: string, x0: nat, t0: string, t1: string, t2: string, t3: string, t4: string, t5: string)
    requires var t := t0 + (t1 + (t2 + (t3 + (t4 + t5))));
      x0 + |t| <= |s| && s[x0..x0 + |t|] == t
    ensures var x1 := x0 + |t0|; var x2 := x1 + |t1|; var x3 := x2 + |t2|; var x4 := x3 + |t3|; var x5 := x4 + |t4|;
      && s[x0..x1] == t0 && s[x1..x2] == t1 && s[x2..x3] == t2 && s[x3..x4] == t3 && s[x4..x5] == t4
      && s[x5..x5 + |t5|] == t5
  {
    Peel(s, x0, t0, t1 + (t2 + (t3 + (t4 + t5))));
    Peel(s, x0 + |t0|, t1, t2 + (t3 + (t4 + t5)));
    SplitSlices4(s, x0 + |t0| + |t1|, t2, t3, t4, t5);
  }

  lemma {:induction false} DigitsInAt(s: string, i: nat, j: nat, k: nat)
    requires DigitsIn(s, i, j) && i <= k < j
    ensures IsDigit(s[k])
    decreases j - i
  {
    if i < k {
      DigitsInAt(s, i + 1, j, k);
    }
  }

  lemma {:induction false} SepsInAt(s: string, i: nat, j: nat, k: nat)
    requires SepsIn(s, i, j) && i <= k < j
    ensures IsSeparator(s[k])
    decreases j - i
  {
    if i < k {
      SepsInAt(s, i + 1, j, k);
    }
  }

  /** One position without a digit spoils every run of digits over it. */
  lemma NotDigitsIn(s: string, i: nat, j: nat, k: nat)
    requires i <= k < j && k < |s| && !IsDigit(s[k])
    ensures !DigitsIn(s, i, j)
  {
    if DigitsIn(s, i, j) {
      DigitsInAt(s, i, j, k);
    }
  }

  lemma {:induction false} DigitsSlice(s: string, i: nat, j: nat)
    requires i <= j <= |s|
    ensures DigitsIn(s, i, j) <==> AllDigits(s[i..j])
    decreases j - i
  {
    if i < j {
      DigitsSlice(s, i + 1, j);
      assert s[i..j] == [s[i]] + s[i + 1..j];
    }
  }

  lemma {:induction false} SepsSlice(s: string, i: nat, j: nat)
    requires i <= j <= |s|
    ensures SepsIn(s, i, j) <==> AllSeparators(s[i..j])
    decreases j - i
  {
    if i < j {
      SepsSlice(s, i + 1, j);
      assert s[i..j] == [s[i]] + s[i + 1..j];
    }
  }

  // Soundness: the candidate assembled from valid cuts is a match.

  /** An optional one-character prefix written as a slice. */
  lemma OptionalPrefix(s: string, x0: nat, x1: nat, present: bool, ch: char)
    requires x0 <= x1 <= |s|
    requires present ==> x1 == x0 + 1 && s[x0] == ch
    requires !present ==> x1 == x0
    ensures (if present then [ch] else []) == s[x0..x1]
  {
    if present {
      assert s[x0..x1] == [s[x0]];
    }
  }

  lemma JoinSubscriber(s: string, x0: nat, x1: nat, x2: nat, x3: nat, x4: nat, x: Subscriber)
    requires x0 <= x1 <= x2 <= x3 <= x4 <= |s|
    requires x.nine ==> x1 == x0 + 1 && s[x0] == '9'
    requires !x.nine ==> x1 == x0
    requires x.head == s[x1..x2] && x.gap == s[x2..x3] && x.tail == s[x3..x4]
    ensures SubscriberText(x) == s[x0..x4]
  {
    OptionalPrefix(s, x0, x1, x.nine, '9');
    JoinSlices4(s, x0, x1, x2, x3, x4);
  }

  lemma JoinCandidate(s: string, x0: nat, x1: nat, x2: nat, x3: nat, x4: nat, x5: nat, x6: nat, c: Candidate)
    requires x0 <= x1 <= x2 <= x3 <= x4 <= x5 <= x6 <= |s|
    requires c.plus ==> x1 == x0 + 1 && s[x0] == '+'
    requires !c.plus ==> x1 == x0
    requires x2 == x1 + 2 && s[x1] == '5' && s[x1 + 1] == '5'
    requires c.sep1 == s[x2..x3] && c.area == s[x3..x4] && c.sep2 == s[x4..x5]
    requires SubscriberText(c.sub) == s[x5..x6]
    requires NoDigitBefore(s, x0) && NoDigitAt(s, x6)
    ensures MatchesAt(s, x0, c)
  {
    OptionalPrefix(s, x0, x1, c.plus, '+');
    assert "55" == s[x1..x2];
    JoinSlices6(s, x0, x1, x2, x3, x4, x5, x6);
  }

  /** The parts of a well-formed candidate, found in `s`, are runs of the right classes there. */
  lemma AssembledLeading(s: string, k: Cuts)
    requires CutsFit(s, k)
    requires SepsIn(s, k.code + 2, k.area) && DigitsIn(s, k.area, k.area + 2) && SepsIn(s, k.area + 2, k.sub)
    ensures var c := Assemble(s, k);
      AllSeparators(c.sep1) && |c.area| == 2 && AllDigits(c.area) && AllSeparators(c.sep2)
  {
    SepsSlice(s, k.code + 2, k.area);
    DigitsSlice(s, k.area, k.area + 2);
    SepsSlice(s, k.area + 2, k.sub);
  }

  lemma AssembledTrailing(s: string, k: Cuts)
    requires CutsFit(s, k)
    requires DigitsIn(s, k.head, k.head + 4) && SepsIn(s, k.head + 4, k.tail) && DigitsIn(s, k.tail, k.tail + 4)
    ensures WellFormedSubscriber(Assemble(s, k).sub)
  {
    DigitsSlice(s, k.head, k.head + 4);
    SepsSlice(s, k.head + 4, k.tail);
    DigitsSlice(s, k.tail, k.tail + 4);
  }

  lemma AssembledShapes(s: string, k: Cuts)
    requires CutsFit(s, k)
    requires SepsIn(s, k.code + 2, k.area) && DigitsIn(s, k.area, k.area + 2) && SepsIn(s, k.area + 2, k.sub)
    requires DigitsIn(s, k.head, k.head + 4) && SepsIn(s, k.head + 4, k.tail) && DigitsIn(s, k.tail, k.tail + 4)
    ensures WellFormed(Assemble(s, k))
  {
    AssembledLeading(s, k);
    AssembledTrailing(s, k);
  }

  lemma AssembledSubscriberText(s: string, k: Cuts)
    requires CutsFit(s, k)
    requires k.head == (if k.nine then k.sub + 1 else k.sub) && (k.nine ==> s[k.sub] == '9')
    ensures SubscriberText(Assemble(s, k).sub) == s[k.sub..k.tail + 4]
  {
    JoinSubscriber(s, k.sub, k.head, k.head + 4, k.tail, k.tail + 4, Assemble(s, k).sub);
  }

  lemma AssembledMatch(s: string, i: nat, k: Cuts)
    requires CutsFit(s, k)
    requires k.code == (if k.plus then i + 1 else i) && (k.plus ==> s[i] == '+')
    requires s[k.code] == '5' && s[k.code + 1] == '5'
    requires k.head == (if k.nine then k.sub + 1 else k.sub) && (k.nine ==> s[k.sub] == '9')
    requires NoDigitBefore(s, i) && NoDigitAt(s, k.tail + 4)
    ensures MatchesAt(s, i, Assemble(s, k))
  {
    AssembledSubscriberText(s, k);
    JoinCandidate(s, i, k.code, k.code + 2, k.area, k.area + 2, k.sub, k.tail + 4, Assemble(s, k));
  }

  /** The candidate assembled from the cuts of a match is a well-formed match at the same place. */
  lemma AssembleMatches(s: string, i: nat, k: Cuts)
    requires CutsAt(s, i, k)
    ensures WellFormed(Assemble(s, k)) && MatchesAt(s, i, Assemble(s, k))
  {
    AssembledShapes(s, k);
    AssembledMatch(s, i, k);
  }

  // Completeness: every match has cuts, and the parser finds them.

  /** The pieces of `s` up to the subscriber cut of `CutsOf(i, c)` spell out the leading parts of `c`. */
  predicate LeadingPartsAt(s: string, i: nat, c: Candidate) {
    var k := CutsOf(i, c);
    && k.sub <= |s|
    && (c.plus ==> s[i] == '+') && s[k.code] == '5' && s[k.code + 1] == '5'
    && s[k.code + 2..k.area] == c.sep1 && s[k.area..k.area + 2] == c.area && s[k.area + 2..k.sub] == c.sep2
  }

  /** The pieces of `s` from the subscriber cut of `CutsOf(i, c)` on spell out the subscriber part of `c`. */
  predicate SubscriberPartsAt(s: string, i: nat, c: Candidate) {
    var k := CutsOf(i, c);
    && k.tail + 4 <= |s|
    && (c.sub.nine ==> s[k.sub] == '9')
    && s[k.head..k.head + 4] == c.sub.head && s[k.head + 4..k.tail] == c.sub.gap && s[k.tail..k.tail + 4] == c.sub.tail
  }

  predicate PartsAt(s: string, i: nat, c: Candidate) {
    LeadingPartsAt(s, i, c) && SubscriberPartsAt(s, i, c)
  }

  /** Where the text of a candidate with groups of the right lengths ends. */
  lemma CutsOfEnd(i: nat, c: Candidate)
    requires |c.area| == 2 && |c.sub.head| == 4 && |c.sub.tail| == 4
    ensures CutsOf(i, c).tail + 4 == i + |Text(c)|
  {
    WidthIsTextLength(c);
  }

  /** The pieces of a subscriber part's text, cut out again at the positions its lengths give. */
  lemma SplitSubscriber(s: string, p: nat, d: nat, t: nat, x: Subscriber)
    requires |x.head| == 4 && |x.tail| == 4
    requires d == (if x.nine then p + 1 else p) && t == d + 4 + |x.gap|
    requires p + |SubscriberText(x)| <= |s| && s[p..p + |SubscriberText(x)|] == SubscriberText(x)
    ensures x.nine ==> s[p] == '9'
    ensures s[d..d + 4] == x.head && s[d + 4..t] == x.gap && s[t..t + 4] == x.tail
  {
    SplitSlices4(s, p, if x.nine then "9" else "", x.head, x.gap, x.tail);
    assert x.nine ==> s[p] == s[p..d][0];
  }

  /** The pieces of a text made of a prefix of at most one character, `55` and four more parts, cut out again. */
  lemma SplitOuter(s: string, i: nat, a: nat, b: nat, p: nat,
                   pre: string, sep1: string, area: string, sep2: string, rest: string)
    requires |pre| <= 1 && |area| == 2
    requires a == i + |pre| && b == a + 2 + |sep1| && p == b + 2 + |sep2|
    requires var t := pre + ("55" + (sep1 + (area + (sep2 + rest))));
      i + |t| <= |s| && s[i..i + |t|] == t
    ensures |pre| == 1 ==> s[i] == pre[0]
    ensures s[a] == '5' && s[a + 1] == '5'
    ensures s[a + 2..b] == sep1 && s[b..b + 2] == area && s[b + 2..p] == sep2
    ensures p + |rest| <= |s| && s[p..p + |rest|] == rest
  {
    SplitSlices6(s, i, pre, "55", sep1, area, sep2, rest);
    assert |pre| == 1 ==> s[i] == s[i..a][0];
    assert s[a] == s[a..a + 2][0] && s[a + 1] == s[a..a + 2][1];
  }

  lemma SplitLeading(s: string, i: nat, c: Candidate)
    requires |c.area| == 2
    requires i + |Text(c)| <= |s| && s[i..i + |Text(c)|] == Text(c)
    ensures LeadingPartsAt(s, i, c)
    ensures var p := CutsOf(i, c).sub;
      p + |SubscriberText(c.sub)| <= |s| && s[p..p + |SubscriberText(c.sub)|] == SubscriberText(c.sub)
  {
    var k := CutsOf(i, c);
    SplitOuter(s, i, k.code, k.area, k.sub,
      if c.plus then "+" else "", c.sep1, c.area, c.sep2, SubscriberText(c.sub));
  }

  lemma SplitTrailing(s: string, i: nat, c: Candidate)
    requires |c.sub.head| == 4 && |c.sub.tail| == 4
    requires var p := CutsOf(i, c).sub;
      p + |SubscriberText(c.sub)| <= |s| && s[p..p + |SubscriberText(c.sub)|] == SubscriberText(c.sub)
    ensures SubscriberPartsAt(s, i, c)
  {
    var k := CutsOf(i, c);
    SplitSubscriber(s, k.sub, k.head, k.tail, c.sub);
  }

  lemma PartsAssemble(s: string, i: nat, c: Candidate)
    requires CutsFit(s, CutsOf(i, c)) && PartsAt(s, i, c)
    ensures Assemble(s, CutsOf(i, c)) == c
  {
  }

  lemma LeadingRuns(s: string, i: nat, c: Candidate)
    requires WellFormed(c) && LeadingPartsAt(s, i, c)
    ensures var k := CutsOf(i, c);
      SepsIn(s, k.code + 2, k.area) && DigitsIn(s, k.area, k.area + 2) && SepsIn(s, k.area + 2, k.sub)
  {
    var k := CutsOf(i, c);
    SepsSlice(s, k.code + 2, k.area);
    DigitsSlice(s, k.area, k.area + 2);
    SepsSlice(s, k.area + 2, k.sub);
  }

  lemma TrailingRuns(s: string, i: nat, c: Candidate)
    requires WellFormedSubscriber(c.sub) && SubscriberPartsAt(s, i, c)
    ensures var k := CutsOf(i, c);
      DigitsIn(s, k.head, k.head + 4) && SepsIn(s, k.head + 4, k.tail) && DigitsIn(s, k.tail, k.tail + 4)
  {
    var k := CutsOf(i, c);
    DigitsSlice(s, k.head, k.head + 4);
    SepsSlice(s, k.head + 4, k.tail);
    DigitsSlice(s, k.tail, k.tail + 4);
  }

  lemma PartsCuts(s: string, i: nat, c: Candidate)
    requires WellFormed(c) && PartsAt(s, i, c)
    requires NoDigitBefore(s, i) && NoDigitAt(s, CutsOf(i, c).tail + 4)
    ensures CutsAt(s, i, CutsOf(i, c))
  {
    LeadingRuns(s, i, c);
    TrailingRuns(s, i, c);
  }

  /** A match has cuts, and the pieces between them are its parts. */
  lemma MatchCuts(s: string, i: nat, c: Candidate)
    requires WellFormed(c) && MatchesAt(s, i, c)
    ensures CutsAt(s, i, CutsOf(i, c)) && Assemble(s, CutsOf(i, c)) == c
  {
    CutsOfEnd(i, c);
    SplitLeading(s, i, c);
    SplitTrailing(s, i, c);
    PartsCuts(s, i, c);
    PartsAssemble(s, i, c);
  }

  /** A maximal separator run is the one `SepRun` finds. */
  lemma {:induction false} SepRunExact(s: string, i: nat, j: nat)
    requires SepsIn(s, i, j)
    requires j == |s| || !IsSeparator(s[j])
    ensures SepRun(s, i) == j
    decreases j - i
  {
    if i < j {
      SepRunExact(s, i + 1, j);
    }
  }

  /** The branch of `9?` that the cuts were taken with succeeds with the same cuts. */
  lemma TrySubscriberComplete(s: string, p: nat, nine: bool, d: nat, t: nat)
    requires p <= |s| && SubscriberCutsAt(s, p, nine, d, t)
    ensures TrySubscriber(s, p, nine) == Some(t)
  {
    SepRunExact(s, d + 4, t);
  }

  /**
    When the subscriber part was written without the mobile prefix, the
    branch that takes a `9` first cannot succeed: it would need one digit
    more than the text has before the lookahead.
  */
  lemma TryNineFails(s: string, p: nat, t: nat)
    requires p <= |s| && SubscriberCutsAt(s, p, false, p, t)
    ensures TrySubscriber(s, p, true) == None
  {
    if t > p + 4 {
      SepsInAt(s, p + 4, t, p + 4);
      DigitIsNoSeparator(s[p + 4]);
      NotDigitsIn(s, p + 1, p + 5, p + 4);
    } else {
      DigitsInAt(s, t, t + 4, p + 5);
      DigitIsNoSeparator(s[p + 5]);
      SepRunExact(s, p + 5, p + 5);
      if p + 8 < |s| {
        NotDigitsIn(s, p + 5, p + 9, p + 8);
      }
    }
  }

  lemma SubscriberAtComplete(s: string, p: nat, nine: bool, d: nat, t: nat)
    requires p <= |s| && SubscriberCutsAt(s, p, nine, d, t)
    ensures SubscriberAt(s, p) == Some((nine, t))
  {
    TrySubscriberComplete(s, p, nine, d, t);
    if !nine {
      TryNineFails(s, p, t);
    }
  }

  lemma AfterAreaComplete(s: string, k: Cuts)
    requires k.code + 2 <= k.area && k.area + 2 <= k.sub <= |s|
    requires SepsIn(s, k.area + 2, k.sub) && SubscriberCutsAt(s, k.sub, k.nine, k.head, k.tail)
    ensures ParseAfterArea(s, k.plus, k.code, k.area) == Some(k)
  {
    SepRunExact(s, k.area + 2, k.sub);
    SubscriberAtComplete(s, k.sub, k.nine, k.head, k.tail);
  }

  lemma AfterCodeComplete(s: string, k: Cuts)
    requires k.code + 2 <= k.area && k.area + 2 <= k.sub <= |s|
    requires SepsIn(s, k.code + 2, k.area) && DigitsIn(s, k.area, k.area + 2) && SepsIn(s, k.area + 2, k.sub)
    requires SubscriberCutsAt(s, k.sub, k.nine, k.head, k.tail)
    ensures ParseAfterCode(s, k.plus, k.code) == Some(k)
  {
    SepRunExact(s, k.code + 2, k.area);
    AfterAreaComplete(s, k);
  }

  /** Whatever the cuts of a match, the engine's attempt finds exactly them: a match has only one way to be cut. */
  lemma ParseCutsComplete(s: string, i: nat, k: Cuts)
    requires CutsAt(s, i, k)
    ensures ParseCuts(s, i) == Some(k)
  {
    AfterCodeComplete(s, k);
  }

  /** The parser is complete for the pattern: any match at `i` is what the attempt at `i` returns. */
  lemma ParseAtComplete(s: string, i: nat, c: Candidate)
    requires WellFormed(c) && MatchesAt(s, i, c)
    ensures ParseAt(s, i) == Some(c)
  {
    MatchCuts(s, i, c);
    ParseCutsComplete(s, i, CutsOf(i, c));
  }

  /** The attempt at `i` succeeds with `c` exactly when the pattern matches `c` there. */
  lemma ParseAtIff(s: string, i: nat, c: Candidate)
    requires i <= |s|
    ensures ParseAt(s, i) == Some(c) <==> WellFormed(c) && MatchesAt(s, i, c)
  {
    if WellFormed(c) && MatchesAt(s, i, c) {
      ParseAtComplete(s, i, c);
    }
  }
}
