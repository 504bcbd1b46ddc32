/**
  The extract button's save loop: every extracted number that no stored
  record carries yet is added as a new contact, and the popup counts the
  numbers saved and the numbers already present.
*/
module SaveLoop {
  import opened Optional
  import opened ContactStore
  import opened Extraction

  /** What a click reports: an early return when the page had no numbers, or the two counters. */
  datatype Report = NoNumbers | Counts(saved: nat, duplicates: nat)

  /** The store and the two counters part-way through the loop. */
  datatype Progress = Progress(store: Store, saved: nat, duplicates: nat)

  /** `data.emails[0] || null`: the first e-mail, unless the list is empty or it is the empty string. */
  function NewContactEmail(emails: seq<string>): (r: Option<string>)
    ensures r.Some? <==> |emails| > 0 && emails[0] != ""
    ensures r.Some? ==> r.value == emails[0]
  {
    if |emails| > 0 && emails[0] != "" then Some(emails[0]) else None
  }

  /**
    One turn of the loop for `number`: a number already stored counts as a
    duplicate; otherwise a contact stamped `now` is added and counted as
    saved, unless the add fails, which is logged and skipped.
  */
  function SaveStep(p: Progress, number: string, domain: string, email: Option<string>, now: int, addFails: bool): Progress
  {
    if HasNumber(p.store.contacts, number) then p.(duplicates := p.duplicates + 1)
    else if addFails then p
    else Progress(Add(p.store, domain, number, email, now, false), p.saved + 1, p.duplicates)
  }

  /**
    One turn counts its number at most once, and exactly once unless the
    add fails; it counts a duplicate exactly when the number is already
    stored, and then leaves the store alone; a new number whose add fails
    is skipped, leaving store and counters as they were; it only appends,
    one record per number saved; and once it ends, the number is stored
    unless its add failed.
  */
  lemma SaveStepSpec(p: Progress, number: string, domain: string, email: Option<string>, now: int, addFails: bool)
    ensures var q := SaveStep(p, number, domain, email, now, addFails);
      && (Valid(p.store) ==> Valid(q.store))
      && (HasNumber(p.store.contacts, number) ==> q == p.(duplicates := p.duplicates + 1))
      && (addFails && !HasNumber(p.store.contacts, number) ==> q == p)
      && p.saved <= q.saved <= p.saved + 1 && p.duplicates <= q.duplicates
      && q.saved + q.duplicates <= p.saved + p.duplicates + 1
      && (!addFails ==> q.saved + q.duplicates == p.saved + p.duplicates + 1)
      && (q.duplicates > p.duplicates <==> HasNumber(p.store.contacts, number))
      && |q.store.contacts| == |p.store.contacts| + (q.saved - p.saved)
      && q.store.contacts[..|p.store.contacts|] == p.store.contacts
      && (!addFails ==> HasNumber(q.store.contacts, number))
      && (q.saved > p.saved ==>
            q.store.contacts[|p.store.contacts|] == Contact(p.store.nextId, domain, number, email, now, false))
  {
    AddKeepsNumbers(p.store, domain, number, email, now, false);
  }

  /**
    The loop from position `k` on. `clock(j)` is what `Date.now()` returns
    in turn `j`, and `addFails(j)` says whether that turn's `add` fails.
  */
  function SaveFrom(p: Progress, numbers: seq<string>, k: nat, domain: string, email: Option<string>,
                    clock: nat -> int, addFails: nat -> bool): (q: Progress)
    requires k <= |numbers|
    ensures Valid(p.store) ==> Valid(q.store)
    ensures p.saved <= q.saved && p.duplicates <= q.duplicates
    ensures |q.store.contacts| == |p.store.contacts| + (q.saved - p.saved)
    ensures q.store.contacts[..|p.store.contacts|] == p.store.contacts
    ensures (q.saved - p.saved) + (q.duplicates - p.duplicates) <= |numbers| - k
    decreases |numbers| - k
  {
    if k == |numbers| then p
    else
      var p' := SaveStep(p, numbers[k], domain, email, clock(k), addFails(k));
      SaveFrom(p', numbers, k + 1, domain, email, clock, addFails)
  }

  /** The whole loop, starting from the store as it is and both counters at zero. */
  function RunSave(st: Store, numbers: seq<string>, domain: string, email: Option<string>,
                   clock: nat -> int, addFails: nat -> bool): Progress
  {
    SaveFrom(Progress(st, 0, 0), numbers, 0, domain, email, clock, addFails)
  }

  /** Every record past `before` carries the page's domain and e-mail, one of the listed numbers, and is not sent. */
  predicate AppendsNew(before: seq<Contact>, after: seq<Contact>, numbers: seq<string>, domain: string, email: Option<string>) {
    forall j :: |before| <= j < |after| ==>
      && after[j].domain == domain && after[j].email == email
      && after[j].whatsapp in numbers && !after[j].sent
  }

  /** The records the loop appends are the new contacts it built: domain, first e-mail, a listed number, not sent. */
  lemma {:induction false} SaveFromAppends(p: Progress, numbers: seq<string>, k: nat, domain: string, email: Option<string>,
                                           clock: nat -> int, addFails: nat -> bool)
    requires k <= |numbers|
    ensures AppendsNew(p.store.contacts, SaveFrom(p, numbers, k, domain, email, clock, addFails).store.contacts,
                       numbers, domain, email)
    decreases |numbers| - k
  {
    if k < |numbers| {
      var p' := SaveStep(p, numbers[k], domain, email, clock(k), addFails(k));
      var q := SaveFrom(p', numbers, k + 1, domain, email, clock, addFails);
      assert q == SaveFrom(p, numbers, k, domain, email, clock, addFails);
      SaveStepSpec(p, numbers[k], domain, email, clock(k), addFails(k));
      SaveFromAppends(p', numbers, k + 1, domain, email, clock, addFails);
      var n := |p.store.contacts|;
      forall j | n <= j < |q.store.contacts|
        ensures q.store.contacts[j].domain == domain && q.store.contacts[j].email == email
        ensures q.store.contacts[j].whatsapp in numbers && !q.store.contacts[j].sent
      {
        if j < |p'.store.contacts| {
          assert j == n && p'.saved > p.saved;
          assert q.store.contacts[..|p'.store.contacts|] == p'.store.contacts;
          assert q.store.contacts[j] == p'.store.contacts[j];
        }
      }
    }
  }

  /** Every turn counts its number once when no add fails. */
  lemma {:induction false} SaveFromCountsAll(p: Progress, numbers: seq<string>, k: nat, domain: string, email: Option<string>,
                                             clock: nat -> int, addFails: nat -> bool)
    requires k <= |numbers|
    requires forall j :: k <= j < |numbers| ==> !addFails(j)
    ensures var q := SaveFrom(p, numbers, k, domain, email, clock, addFails);
      (q.saved - p.saved) + (q.duplicates - p.duplicates) == |numbers| - k
    decreases |numbers| - k
  {
    if k < |numbers| {
      var p' := SaveStep(p, numbers[k], domain, email, clock(k), addFails(k));
      SaveFromCountsAll(p', numbers, k + 1, domain, email, clock, addFails);
    }
  }

  /** A store whose numbers are distinct keeps them distinct, whatever the list and whichever adds fail. */
  lemma {:induction false} SaveFromKeepsUnique(p: Progress, numbers: seq<string>, k: nat, domain: string, email: Option<string>,
                                               clock: nat -> int, addFails: nat -> bool)
    requires k <= |numbers|
    requires UniqueNumbers(p.store.contacts)
    ensures UniqueNumbers(SaveFrom(p, numbers, k, domain, email, clock, addFails).store.contacts)
    decreases |numbers| - k
  {
    if k < |numbers| {
      var p' := SaveStep(p, numbers[k], domain, email, clock(k), addFails(k));
      AddKeepsNumbers(p.store, domain, numbers[k], email, clock(k), false);
      SaveFromKeepsUnique(p', numbers, k + 1, domain, email, clock, addFails);
    }
  }

  /** A number stored before the loop is still stored after it, whichever adds fail. */
  lemma {:induction false} SaveFromKeepsStored(p: Progress, numbers: seq<string>, k: nat, domain: string, email: Option<string>,
                                               clock: nat -> int, addFails: nat -> bool, n: string)
    requires k <= |numbers| && HasNumber(p.store.contacts, n)
    ensures HasNumber(SaveFrom(p, numbers, k, domain, email, clock, addFails).store.contacts, n)
    decreases |numbers| - k
  {
    if k < |numbers| {
      var p' := SaveStep(p, numbers[k], domain, email, clock(k), addFails(k));
      AddKeepsNumbers(p.store, domain, numbers[k], email, clock(k), false);
      SaveFromKeepsStored(p', numbers, k + 1, domain, email, clock, addFails, n);
    }
  }

  /** Every turn whose add does not fail leaves its number stored at the end, whichever other adds fail: a failed add is skipped and the loop goes on. */
  lemma {:induction false} SaveFromStoresList(p: Progress, numbers: seq<string>, k: nat, domain: string, email: Option<string>,
                                              clock: nat -> int, addFails: nat -> bool)
    requires k <= |numbers|
    ensures var q := SaveFrom(p, numbers, k, domain, email, clock, addFails);
      forall j :: k <= j < |numbers| && !addFails(j) ==> HasNumber(q.store.contacts, numbers[j])
    decreases |numbers| - k
  {
    if k < |numbers| {
      var p' := SaveStep(p, numbers[k], domain, email, clock(k), addFails(k));
      var q := SaveFrom(p', numbers, k + 1, domain, email, clock, addFails);
      forall j | k <= j < |numbers| && !addFails(j)
        ensures HasNumber(q.store.contacts, numbers[j])
      {
        if j == k {
          assert HasNumber(p'.store.contacts, numbers[k]) by {
            AddKeepsNumbers(p.store, domain, numbers[k], email, clock(k), false);
          }
          SaveFromKeepsStored(p', numbers, k + 1, domain, email, clock, addFails, numbers[k]);
        } else {
          SaveFromStoresList(p', numbers, k + 1, domain, email, clock, addFails);
        }
      }
    }
  }

  /** Numbers stored before the loop stay stored; when no add fails, every number of the list is stored afterwards. */
  lemma SaveFromStoresAll(p: Progress, numbers: seq<string>, k: nat, domain: string, email: Option<string>,
                          clock: nat -> int, addFails: nat -> bool)
    requires k <= |numbers|
    ensures var q := SaveFrom(p, numbers, k, domain, email, clock, addFails);
      && (forall n :: HasNumber(p.store.contacts, n) ==> HasNumber(q.store.contacts, n))
      && ((forall j :: k <= j < |numbers| ==> !addFails(j)) ==>
            forall j :: k <= j < |numbers| ==> HasNumber(q.store.contacts, numbers[j]))
  {
    forall n | HasNumber(p.store.contacts, n)
      ensures HasNumber(SaveFrom(p, numbers, k, domain, email, clock, addFails).store.contacts, n)
    {
      SaveFromKeepsStored(p, numbers, k, domain, email, clock, addFails, n);
    }
    if forall j :: k <= j < |numbers| ==> !addFails(j) {
      SaveFromStoresList(p, numbers, k, domain, email, clock, addFails);
    }
  }

  /** Against a store that already holds every number of the list, the loop saves nothing and counts every number as a duplicate. */
  lemma {:induction false} SaveFromAllPresent(p: Progress, numbers: seq<string>, k: nat, domain: string, email: Option<string>,
                                              clock: nat -> int, addFails: nat -> bool)
    requires k <= |numbers|
    requires forall j :: k <= j < |numbers| ==> HasNumber(p.store.contacts, numbers[j])
    ensures SaveFrom(p, numbers, k, domain, email, clock, addFails)
      == p.(duplicates := p.duplicates + (|numbers| - k))
    decreases |numbers| - k
  {
    if k < |numbers| {
      var p' := SaveStep(p, numbers[k], domain, email, clock(k), addFails(k));
      SaveFromAllPresent(p', numbers, k + 1, domain, email, clock, addFails);
    }
  }

  /**
    Running the loop a second time with the same numbers against the store
    the first run left behind saves nothing, counts every number as a
    duplicate and leaves the store as it is, provided no add of the first
    run failed.
  */
  lemma SaveIdempotent(st: Store, numbers: seq<string>, domain: string, email: Option<string>,
                       clock: nat -> int, addFails: nat -> bool,
                       domain2: string, email2: Option<string>, clock2: nat -> int, addFails2: nat -> bool)
    requires forall j :: 0 <= j < |numbers| ==> !addFails(j)
    ensures var first := RunSave(st, numbers, domain, email, clock, addFails);
      RunSave(first.store, numbers, domain2, email2, clock2, addFails2) == Progress(first.store, 0, |numbers|)
  {
    var first := RunSave(st, numbers, domain, email, clock, addFails);
    SaveFromStoresAll(Progress(st, 0, 0), numbers, 0, domain, email, clock, addFails);
    SaveFromAllPresent(Progress(first.store, 0, 0), numbers, 0, domain2, email2, clock2, addFails2);
  }

  /**
    The extract button's handler after the page data arrives: return at
    once when there are no numbers, otherwise run the loop, asking
    `whatsappExists` for each number in turn.
  */
  method SaveExtracted(st: Store, data: PageData, clock: nat -> int, addFails: nat -> bool)
    returns (st': Store, report: Report)
    ensures |data.whatsapp| == 0 ==> st' == st && report == NoNumbers
    ensures |data.whatsapp| > 0 ==>
      var q := RunSave(st, data.whatsapp, data.domain, NewContactEmail(data.emails), clock, addFails);
      st' == q.store && report == Counts(q.saved, q.duplicates)
    ensures Valid(st) ==> Valid(st')
    ensures report.Counts? ==> report.saved + report.duplicates <= |data.whatsapp|
    ensures report.Counts? ==> |st'.contacts| == |st.contacts| + report.saved
    ensures (forall j :: 0 <= j < |data.whatsapp| ==> !addFails(j)) && report.Counts? ==>
      report.saved + report.duplicates == |data.whatsapp|
    ensures UniqueNumbers(st.contacts) ==> UniqueNumbers(st'.contacts)
    ensures AppendsNew(st.contacts, st'.contacts, data.whatsapp, data.domain, NewContactEmail(data.emails))
  {
    var numbers := data.whatsapp;
    if |numbers| == 0 {
      return st, NoNumbers;
    }
    var email := NewContactEmail(data.emails);
    var q := SaveEach(st, numbers, data.domain, email, clock, addFails);
    st', report := q.store, Counts(q.saved, q.duplicates);
    if forall j :: 0 <= j < |numbers| ==> !addFails(j) {
      SaveFromCountsAll(Progress(st, 0, 0), numbers, 0, data.domain, email, clock, addFails);
    }
    if UniqueNumbers(st.contacts) {
      SaveFromKeepsUnique(Progress(st, 0, 0), numbers, 0, data.domain, email, clock, addFails);
    }
    SaveFromAppends(Progress(st, 0, 0), numbers, 0, data.domain, email, clock, addFails);
  }

  /**
    The `for … of` loop itself: ask `whatsappExists` for each number, then
    add it or count it as a duplicate. It ends where the recursive
    description of the loop ends.
  */
  method SaveEach(st: Store, numbers: seq<string>, domain: string, email: Option<string>,
                  clock: nat -> int, addFails: nat -> bool)
    returns (q: Progress)
    ensures q == RunSave(st, numbers, domain, email, clock, addFails)
  {
    var cur := st;
    var saved, duplicates := 0, 0;
    var i := 0;
    while i < |numbers|
      invariant 0 <= i <= |numbers|
      invariant SaveFrom(Progress(cur, saved, duplicates), numbers, i, domain, email, clock, addFails)
        == RunSave(st, numbers, domain, email, clock, addFails)
    {
      var number := numbers[i];
      ghost var before := Progress(cur, saved, duplicates);
      var known := WhatsappExists(cur, number);
      if !known {
        if !addFails(i) {
          cur := Add(cur, domain, number, email, clock(i), false);
          saved := saved + 1;
        }
      } else {
        duplicates := duplicates + 1;
      }
      assert Progress(cur, saved, duplicates) == SaveStep(before, number, domain, email, clock(i), addFails(i));
      i := i + 1;
    }
    q := Progress(cur, saved, duplicates);
  }
}
