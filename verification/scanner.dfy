/**
  `content.match(loosePattern)` with the global flag: the engine tries the
  pattern at every position from left to right and, after a match, resumes
  right after it. The scan is stated over the table of the engine's attempts
  at each position, so that its properties do not depend on how one attempt
  is made or on what it returns.
*/
module Scanner {
  import opened Optional
  import opened LoosePattern

  /** A successful attempt: how many characters it spans and what it matched. */
  datatype Found<T> = Found(width: nat, item: T)

  /** A match found at `start`. */
  datatype Hit<T> = Hit(start: nat, width: nat, item: T)

  function End<T>(h: Hit<T>): nat {
    h.start + h.width
  }

  /** Every successful attempt spans at least one character and ends inside the text. */
  predicate Fits<T>(table: seq<Option<Found<T>>>) {
    forall i :: 0 <= i < |table| && table[i].Some? ==>
      0 < table[i].value.width && i + table[i].value.width <= |table|
  }

  /** The hits come in text order and do not overlap. */
  predicate Ordered<T>(hits: seq<Hit<T>>) {
    forall j, k :: 0 <= j < k < |hits| ==> End(hits[j]) <= hits[k].start
  }

  /** Position `p` lies inside one of the hits. */
  predicate Covers<T>(hits: seq<Hit<T>>, p: nat) {
    exists k :: 0 <= k < |hits| && hits[k].start <= p < End(hits[k])
  }

  /** The hit records the attempt the table holds at its start. */
  predicate FromTable<T(==)>(table: seq<Option<Found<T>>>, h: Hit<T>) {
    h.start < |table| && table[h.start] == Some(Found(h.width, h.item))
  }

  /**
    What a global match returns, stated without saying how it is found:
    every hit is a successful attempt at or after `from`, the hits come in
    text order without overlapping, and every position at or after `from`
    where an attempt succeeds lies inside some hit.
  */
  predicate IsMatchListIn<T(==)>(table: seq<Option<Found<T>>>, from: nat, hits: seq<Hit<T>>) {
    && (forall k :: 0 <= k < |hits| ==> from <= hits[k].start && FromTable(table, hits[k]))
    && Ordered(hits)
    && (forall p :: from <= p < |table| && table[p].Some? ==> Covers(hits, p))
  }

  /** The engine's scan from position `from` on. */
  function ScanFrom<T(==)>(table: seq<Option<Found<T>>>, from: nat): (hits: seq<Hit<T>>)
    requires Fits(table) && from <= |table|
    ensures forall k :: 0 <= k < |hits| ==>
      from <= hits[k].start && End(hits[k]) <= |table| && FromTable(table, hits[k])
    decreases |table| - from
  {
    if from == |table| then []
    else
      match table[from]
      case None => ScanFrom(table, from + 1)
      case Some(f) => [Hit(from, f.width, f.item)] + ScanFrom(table, from + f.width)
  }

  /** The scan's hits come in text order and do not overlap. */
  lemma {:induction false} ScanOrdered<T>(table: seq<Option<Found<T>>>, from: nat)
    requires Fits(table) && from <= |table|
    ensures Ordered(ScanFrom(table, from))
    decreases |table| - from
  {
    if from < |table| {
      match table[from]
      case None =>
        ScanOrdered(table, from + 1);
      case Some(f) =>
        ScanOrdered(table, from + f.width);
        var rest := ScanFrom(table, from + f.width);
        var hits := [Hit(from, f.width, f.item)] + rest;
        assert ScanFrom(table, from) == hits;
        forall j, k | 0 <= j < k < |hits|
          ensures End(hits[j]) <= hits[k].start
        {
          assert hits[k] == rest[k - 1];
          if j > 0 {
            assert hits[j] == rest[j - 1];
          }
        }
    }
  }

  /** Every position the scan passes over where an attempt succeeds lies inside a hit. */
  lemma {:induction false} ScanCovers<T>(table: seq<Option<Found<T>>>, from: nat, p: nat)
    requires Fits(table) && from <= p < |table| && table[p].Some?
    ensures Covers(ScanFrom(table, from), p)
    decreases |table| - from
  {
    var hits := ScanFrom(table, from);
    match table[from]
    case None =>
      ScanCovers(table, from + 1, p);
    case Some(f) =>
      if p < from + f.width {
        assert hits[0].start == from && End(hits[0]) == from + f.width;
      } else {
        ScanCovers(table, from + f.width, p);
        var rest := ScanFrom(table, from + f.width);
        var k :| 0 <= k < |rest| && rest[k].start <= p < End(rest[k]);
        assert hits[k + 1] == rest[k];
      }
  }

  /** A match list whose first hit lies beyond `from` is also a match list from `from + 1`, and no attempt succeeds at `from`. */
  lemma MatchListSkip<T>(table: seq<Option<Found<T>>>, from: nat, hits: seq<Hit<T>>)
    requires from < |table| && IsMatchListIn(table, from, hits)
    requires |hits| == 0 || from < hits[0].start
    ensures table[from].None?
    ensures IsMatchListIn(table, from + 1, hits)
  {
    forall k | 0 <= k < |hits|
      ensures from < hits[k].start
    {
      if k > 0 {
        assert End(hits[0]) <= hits[k].start;
      }
    }
  }

  lemma OrderedTail<T>(hits: seq<Hit<T>>)
    requires |hits| > 0 && Ordered(hits)
    ensures Ordered(hits[1..])
    ensures forall k :: 0 <= k < |hits| - 1 ==> End(hits[0]) <= hits[1..][k].start
  {
    var rest := hits[1..];
    forall j, k | 0 <= j < k < |rest|
      ensures End(rest[j]) <= rest[k].start
    {
      assert rest[j] == hits[j + 1] && rest[k] == hits[k + 1];
    }
    forall k | 0 <= k < |rest|
      ensures End(hits[0]) <= rest[k].start
    {
      assert rest[k] == hits[k + 1];
    }
  }

  /** A position past the end of the first hit that lies inside a hit lies inside one of the others. */
  lemma CoversTail<T>(hits: seq<Hit<T>>, p: nat)
    requires |hits| > 0 && Covers(hits, p) && End(hits[0]) <= p
    ensures Covers(hits[1..], p)
  {
    var k :| 0 <= k < |hits| && hits[k].start <= p < End(hits[k]);
    assert hits[1..][k - 1] == hits[k];
  }

  /** Dropping the first hit of a match list that starts at `from` leaves a match list from its end. */
  lemma MatchListTail<T>(table: seq<Option<Found<T>>>, from: nat, hits: seq<Hit<T>>)
    requires IsMatchListIn(table, from, hits)
    requires |hits| > 0 && hits[0].start == from
    ensures IsMatchListIn(table, End(hits[0]), hits[1..])
  {
    var rest := hits[1..];
    OrderedTail(hits);
    forall k | 0 <= k < |rest|
      ensures FromTable(table, rest[k])
    {
      assert rest[k] == hits[k + 1];
    }
    forall p | End(hits[0]) <= p < |table| && table[p].Some?
      ensures Covers(rest, p)
    {
      CoversTail(hits, p);
    }
  }

  lemma ScanFromSkip<T>(table: seq<Option<Found<T>>>, from: nat)
    requires Fits(table) && from < |table| && table[from].None?
    ensures ScanFrom(table, from) == ScanFrom(table, from + 1)
  {
  }

  lemma ScanFromTake<T>(table: seq<Option<Found<T>>>, h: Hit<T>)
    requires Fits(table) && FromTable(table, h)
    ensures ScanFrom(table, h.start) == [h] + ScanFrom(table, End(h))
  {
  }

  /** A list whose first hit is an attempt of the table and whose other hits are the scan from its end is the scan from its start. */
  lemma ScanRebuild<T>(table: seq<Option<Found<T>>>, hits: seq<Hit<T>>)
    requires Fits(table) && |hits| > 0 && FromTable(table, hits[0])
    requires End(hits[0]) <= |table| && hits[1..] == ScanFrom(table, End(hits[0]))
    ensures hits == ScanFrom(table, hits[0].start)
  {
    ScanFromTake(table, hits[0]);
    assert hits == [hits[0]] + hits[1..];
  }

  /** Any list with the properties of a match list is the scan's result. */
  lemma {:induction false} MatchListUnique<T>(table: seq<Option<Found<T>>>, from: nat, hits: seq<Hit<T>>)
    requires Fits(table) && from <= |table| && IsMatchListIn(table, from, hits)
    ensures hits == ScanFrom(table, from)
    decreases |table| - from
  {
    if from < |table| {
      if |hits| == 0 || from < hits[0].start {
        MatchListSkip(table, from, hits);
        MatchListUnique(table, from + 1, hits);
        ScanFromSkip(table, from);
      } else {
        MatchListTail(table, from, hits);
        MatchListUnique(table, End(hits[0]), hits[1..]);
        ScanRebuild(table, hits);
      }
    }
  }

  /** The scan is the one match list there is. */
  lemma ScanIsMatchList<T>(table: seq<Option<Found<T>>>, hits: seq<Hit<T>>)
    requires Fits(table)
    ensures hits == ScanFrom(table, 0) <==> IsMatchListIn(table, 0, hits)
  {
    ScanOrdered(table, 0);
    forall p | 0 <= p < |table| && table[p].Some?
      ensures Covers(ScanFrom(table, 0), p)
    {
      ScanCovers(table, 0, p);
    }
    if IsMatchListIn(table, 0, hits) {
      MatchListUnique(table, 0, hits);
    }
  }

  /** The engine's attempt at position `i` of `s`, with the width of what it matched. */
  function Attempt(s: string, i: nat): (r: Option<Found<Candidate>>)
    requires i <= |s|
    ensures r.Some? ==> r.value.width == Width(r.value.item)
  {
    match ParseAt(s, i)
    case None => None
    case Some(c) => Some(Found(Width(c), c))
  }

  /** `table[i]` is the engine's attempt at position `i` of `s`. */
  function Attempts(s: string): (table: seq<Option<Found<Candidate>>>)
    ensures |table| == |s|
  {
    seq(|s|, i requires 0 <= i < |s| => Attempt(s, i))
  }

  /** `h` is a match of the loose pattern in `s`, with its width and parts. */
  predicate IsPatternMatch(s: string, h: Hit<Candidate>) {
    WellFormed(h.item) && h.width == Width(h.item) && MatchesAt(s, h.start, h.item)
  }

  /** What the table holds at `i` is a match of the pattern there, and fits in the text. */
  lemma AttemptSound(s: string, i: nat)
    requires i < |s| && Attempts(s)[i].Some?
    ensures var f := Attempts(s)[i].value;
      0 < f.width && i + f.width <= |s| && IsPatternMatch(s, Hit(i, f.width, f.item))
  {
    assert Attempts(s)[i] == Attempt(s, i);
    WidthIsTextLength(Attempts(s)[i].value.item);
  }

  /** Every match of the pattern is in the table. */
  lemma AttemptComplete(s: string, h: Hit<Candidate>)
    requires IsPatternMatch(s, h)
    ensures FromTable(Attempts(s), h)
  {
    WidthIsTextLength(h.item);
    ParseAtComplete(s, h.start, h.item);
    assert Attempts(s)[h.start] == Attempt(s, h.start);
  }

  /** The table holds exactly the pattern's matches, each of which fits in the text. */
  lemma AttemptsSpec(s: string)
    ensures Fits(Attempts(s))
    ensures forall h :: FromTable(Attempts(s), h) ==> IsPatternMatch(s, h)
    ensures forall h :: IsPatternMatch(s, h) ==> FromTable(Attempts(s), h)
  {
    forall i | 0 <= i < |s| && Attempts(s)[i].Some?
      ensures var f := Attempts(s)[i].value;
        0 < f.width && i + f.width <= |s| && IsPatternMatch(s, Hit(i, f.width, f.item))
    {
      AttemptSound(s, i);
    }
    forall h | IsPatternMatch(s, h)
      ensures FromTable(Attempts(s), h)
    {
      AttemptComplete(s, h);
    }
  }

  /** `content.match(loosePattern) || []`, each match kept with its position, width and parts. */
  function Scan(s: string): (hits: seq<Hit<Candidate>>)
    ensures forall k :: 0 <= k < |hits| ==> IsPatternMatch(s, hits[k])
    ensures Ordered(hits)
  {
    AttemptsSpec(s);
    ScanOrdered(Attempts(s), 0);
    ScanFrom(Attempts(s), 0)
  }

  /**
    What a global match returns, stated without the engine: the hits are
    matches of the pattern in text order without overlap, and every
    position where the pattern matches lies inside a hit.
  */
  ghost predicate IsMatchList(s: string, hits: seq<Hit<Candidate>>) {
    && (forall k :: 0 <= k < |hits| ==> IsPatternMatch(s, hits[k]))
    && Ordered(hits)
    && (forall p: nat, c :: WellFormed(c) && MatchesAt(s, p, c) ==> Covers(hits, p))
  }

  /** The scan returns exactly the one list that fits the description. */
  lemma ScanIff(s: string, hits: seq<Hit<Candidate>>)
    ensures hits == Scan(s) <==> IsMatchList(s, hits)
  {
    var table := Attempts(s);
    AttemptsSpec(s);
    assert IsMatchList(s, hits) <==> IsMatchListIn(table, 0, hits) by {
      if IsMatchList(s, hits) {
        forall p | 0 <= p < |table| && table[p].Some?
          ensures Covers(hits, p)
        {
          var f := table[p].value;
          assert FromTable(table, Hit(p, f.width, f.item));
        }
      }
      if IsMatchListIn(table, 0, hits) {
        forall p: nat, c | WellFormed(c) && MatchesAt(s, p, c)
          ensures Covers(hits, p)
        {
          assert IsPatternMatch(s, Hit(p, Width(c), c));
        }
      }
    }
    ScanIsMatchList(table, hits);
  }
}
