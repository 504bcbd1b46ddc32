/**
  The `contacts` object store of the extension's IndexedDB database, seen
  as the sequence of its records in key order together with the next key
  its auto-increment generator hands out.
*/
module ContactStore {
  import opened Optional

  /** A stored contact. New records carry no `sent` field, which the popup reads as not sent. */
  datatype Contact = Contact(id: nat, domain: string, whatsapp: string, email: Option<string>, timestamp: int, sent: bool)

  /** The records in ascending key order, and the key generator's current number. */
  datatype Store = Store(contacts: seq<Contact>, nextId: nat)

  /** The key generator of a fresh auto-increment store starts at 1. */
  const FirstKey: nat := 1

  /** The store as `openDB` creates it: no records, keys starting at 1. */
  function EmptyStore(): (r: Store)
    ensures Valid(r) && |r.contacts| == 0
  {
    Store([], FirstKey)
  }

  /** Keys are positive, strictly increasing in store order, and below the generator's next key. */
  predicate Valid(st: Store) {
    && FirstKey <= st.nextId
    && (forall i :: 0 <= i < |st.contacts| ==> FirstKey <= st.contacts[i].id < st.nextId)
    && (forall i, j :: 0 <= i < j < |st.contacts| ==> st.contacts[i].id < st.contacts[j].id)
  }

  /** No two records carry the same number. */
  predicate UniqueNumbers(contacts: seq<Contact>) {
    forall i, j :: 0 <= i < j < |contacts| ==> contacts[i].whatsapp != contacts[j].whatsapp
  }

  /** Some record carries the number `n`. */
  predicate HasNumber(contacts: seq<Contact>, n: string) {
    exists i :: 0 <= i < |contacts| && contacts[i].whatsapp == n
  }

  /** `whatsappExists`: `getAll()` followed by `some` on the `whatsapp` field, stopping at the first hit. */
  method WhatsappExists(st: Store, n: string) returns (found: bool)
    ensures found <==> HasNumber(st.contacts, n)
  {
    var contacts := st.contacts;
    found := false;
    var i := 0;
    while i < |contacts| && !found
      invariant 0 <= i <= |contacts|
      invariant found <==> exists j :: 0 <= j < i && contacts[j].whatsapp == n
    {
      found := contacts[i].whatsapp == n;
      i := i + 1;
    }
  }

  /**
    `saveContact`: `add` the record under the generator's next key. A
    record without `sent` is stored as not sent. A failed `add` aborts its
    transaction, which leaves both the records and the generator as they were.
  */
  function Add(st: Store, domain: string, whatsapp: string, email: Option<string>, timestamp: int, fails: bool): (r: Store)
    ensures Valid(st) ==> Valid(r)
    ensures fails ==> r == st
    ensures !fails ==> |r.contacts| == |st.contacts| + 1 && r.contacts[..|st.contacts|] == st.contacts
    ensures !fails ==> r.contacts[|st.contacts|] == Contact(st.nextId, domain, whatsapp, email, timestamp, false)
    ensures !fails ==> r.nextId == st.nextId + 1
  {
    if fails then st
    else Store(st.contacts + [Contact(st.nextId, domain, whatsapp, email, timestamp, false)], st.nextId + 1)
  }

  /** Adding a record with a fresh number keeps the numbers distinct; adding any record keeps every number already there. */
  lemma AddKeepsNumbers(st: Store, domain: string, whatsapp: string, email: Option<string>, timestamp: int, fails: bool)
    ensures var r := Add(st, domain, whatsapp, email, timestamp, fails);
      && (UniqueNumbers(st.contacts) && !HasNumber(st.contacts, whatsapp) ==> UniqueNumbers(r.contacts))
      && (forall n :: HasNumber(st.contacts, n) ==> HasNumber(r.contacts, n))
      && (!fails ==> HasNumber(r.contacts, whatsapp))
  {
    var r := Add(st, domain, whatsapp, email, timestamp, fails);
    forall n | HasNumber(st.contacts, n)
      ensures HasNumber(r.contacts, n)
    {
      var i :| 0 <= i < |st.contacts| && st.contacts[i].whatsapp == n;
      assert r.contacts[i] == st.contacts[i];
    }
    if !fails {
      assert r.contacts[|st.contacts|].whatsapp == whatsapp;
    }
  }

  /** `clearDatabase`: every record goes; the key generator is not reset. */
  function Clear(st: Store): (r: Store)
    ensures Valid(st) ==> Valid(r)
    ensures |r.contacts| == 0 && r.nextId == st.nextId
  {
    Store([], st.nextId)
  }

  /** The fields an `updateContact` call may merge into a record with `Object.assign`; `None` leaves a field alone. */
  datatype Patch = Patch(
    domain: Option<string>,
    whatsapp: Option<string>,
    email: Option<Option<string>>,
    timestamp: Option<int>,
    sent: Option<bool>)

  /** The patch `{ sent: true }` of the send-next button. */
  const MarkSent: Patch := Patch(None, None, None, None, Some(true))

  function Pick<T>(o: Option<T>, keep: T): T {
    if o.Some? then o.value else keep
  }

  /** `Object.assign(contact, patch)`: patched fields take the patch's value, the others and the key stay. */
  function Apply(c: Contact, p: Patch): (r: Contact)
    ensures r.id == c.id
    ensures r.domain == (if p.domain.Some? then p.domain.value else c.domain)
    ensures r.whatsapp == (if p.whatsapp.Some? then p.whatsapp.value else c.whatsapp)
    ensures r.email == (if p.email.Some? then p.email.value else c.email)
    ensures r.timestamp == (if p.timestamp.Some? then p.timestamp.value else c.timestamp)
    ensures r.sent == (if p.sent.Some? then p.sent.value else c.sent)
  {
    Contact(c.id, Pick(p.domain, c.domain), Pick(p.whatsapp, c.whatsapp), Pick(p.email, c.email),
      Pick(p.timestamp, c.timestamp), Pick(p.sent, c.sent))
  }

  /** The position of the record stored under key `id`, if any. */
  function IndexOfId(contacts: seq<Contact>, id: nat): (r: Option<nat>)
    ensures r.Some? ==> r.value < |contacts| && contacts[r.value].id == id
    ensures r.None? <==> forall i :: 0 <= i < |contacts| ==> contacts[i].id != id
  {
    if |contacts| == 0 then None
    else if contacts[0].id == id then Some(0)
    else
      var rest := IndexOfId(contacts[1..], id);
      if rest.Some? then Some(rest.value + 1) else None
  }

  datatype UpdateOutcome = NotFound | WriteFailed | Updated

  /**
    `updateContact(id, patch)`: `get` the record, reject when there is none,
    merge the patch and `put` it back. The `put` can fail, in which case the
    transaction aborts and the store stays as it was.
  */
  function UpdateContact(st: Store, id: nat, patch: Patch, putFails: bool): (r: (Store, UpdateOutcome))
    ensures r.1 == NotFound <==> forall i :: 0 <= i < |st.contacts| ==> st.contacts[i].id != id
    ensures r.1 != Updated ==> r.0 == st
    ensures r.1 == Updated ==> exists k :: 0 <= k < |st.contacts| && st.contacts[k].id == id && Changed(st, r.0, k, patch)
    ensures Valid(st) ==> Valid(r.0)
  {
    match IndexOfId(st.contacts, id)
    case None => (st, NotFound)
    case Some(k) =>
      if putFails then (st, WriteFailed)
      else
        var r := Store(st.contacts[k := Apply(st.contacts[k], patch)], st.nextId);
        assert Changed(st, r, k, patch);
        (r, Updated)
  }

  /** `after` is `before` with the patch merged into record `k` and nothing else changed. */
  predicate Changed(before: Store, after: Store, k: nat, patch: Patch)
    requires k < |before.contacts|
  {
    && after.nextId == before.nextId
    && |after.contacts| == |before.contacts|
    && after.contacts[k] == Apply(before.contacts[k], patch)
    && (forall j :: 0 <= j < |before.contacts| && j != k ==> after.contacts[j] == before.contacts[j])
  }

  /** In a valid store a key names one record only, so the update lands on the record stored under `id`. */
  lemma UpdateContactTarget(st: Store, id: nat, patch: Patch, k: nat)
    requires Valid(st) && k < |st.contacts| && st.contacts[k].id == id
    ensures var r := UpdateContact(st, id, patch, false);
      r.1 == Updated && Changed(st, r.0, k, patch)
  {
    var j := IndexOfId(st.contacts, id).value;
  }

  /** `xs` in reverse order. */
  function Reverse<T>(xs: seq<T>): (r: seq<T>)
    ensures |r| == |xs|
    ensures forall i :: 0 <= i < |xs| ==> r[i] == xs[|xs| - 1 - i]
  {
    if |xs| == 0 then [] else Reverse(xs[1..]) + [xs[0]]
  }

  /**
    Where `Array.prototype.slice` starts for the relative index `rel` on a
    sequence of length `len`: a negative index keeps the last `-rel`
    elements (all of them when there are fewer), a non-negative one skips
    the first `rel` (all of them when there are fewer).
  */
  function SliceStart(len: nat, rel: int): (start: nat)
    ensures start <= len
    ensures rel < 0 ==> len - start == if -rel < len then -rel else len
    ensures rel >= 0 ==> start == if rel < len then rel else len
  {
    if rel < 0 then (if len + rel < 0 then 0 else len + rel)
    else if rel < len then rel else len
  }

  /** `getLastContacts(limit)` as written: `contacts.slice(-limit).reverse()`. */
  function LastContactsAsWritten(contacts: seq<Contact>, limit: int): (r: seq<Contact>)
    ensures |r| <= |contacts|
  {
    Reverse(contacts[SliceStart(|contacts|, -limit)..])
  }

  /** The last `limit` records, newest first. */
  function LastContacts(contacts: seq<Contact>, limit: nat): (r: seq<Contact>)
    ensures |r| == if limit < |contacts| then limit else |contacts|
    ensures forall j :: 0 <= j < |r| ==> r[j] == contacts[|contacts| - 1 - j]
  {
    var n := if limit < |contacts| then limit else |contacts|;
    Reverse(contacts[|contacts| - n..])
  }

  /** For every positive limit, the code as written returns the last `limit` records, newest first. */
  lemma LastContactsAgree(contacts: seq<Contact>, limit: nat)
    requires limit > 0
    ensures LastContactsAsWritten(contacts, limit) == LastContacts(contacts, limit)
  {
  }

  /** A limit of 0 returns every record instead of none, because `slice(-0)` is `slice(0)`. */
  lemma LastContactsZeroReturnsAll(contacts: seq<Contact>)
    requires |contacts| > 0
    ensures LastContactsAsWritten(contacts, 0) == Reverse(contacts)
    ensures |LastContactsAsWritten(contacts, 0)| == |contacts| != |LastContacts(contacts, 0)|
  {
    assert contacts[0..] == contacts;
  }
}
