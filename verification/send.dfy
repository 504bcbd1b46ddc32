/**
  The send-next button: find the first contact not yet sent, mark it sent
  through `updateContact`, and open WhatsApp Web on its number.
*/
module SendQueue {
  import opened Optional
  import opened ContactStore

  /** How a click ends: nothing left to send, the chat of `contact` opened, or the mark rejected. */
  datatype SendOutcome = Exhausted | Opened(contact: Contact) | MarkFailed

  /** `contacts.find(c => !c.sent)`, as a position in store order. */
  function FirstUnsent(contacts: seq<Contact>): (r: Option<nat>)
    ensures r.None? <==> forall i :: 0 <= i < |contacts| ==> contacts[i].sent
    ensures r.Some? ==> r.value < |contacts| && !contacts[r.value].sent
    ensures r.Some? ==> forall j :: 0 <= j < r.value ==> contacts[j].sent
  {
    if |contacts| == 0 then None
    else if !contacts[0].sent then Some(0)
    else
      var rest := FirstUnsent(contacts[1..]);
      if rest.Some? then Some(rest.value + 1) else None
  }

  /**
    One click of the send-next button. `putFails` says whether the `put`
    inside `updateContact` fails; the chat opens only once the mark has
    been stored.
  */
  function SendNext(st: Store, putFails: bool): (r: (Store, SendOutcome))
    ensures r.1 == Exhausted <==> forall i :: 0 <= i < |st.contacts| ==> st.contacts[i].sent
    ensures !r.1.Opened? ==> r.0 == st
    ensures Valid(st) ==> Valid(r.0)
    ensures r.1.Opened? ==> !r.1.contact.sent && r.1.contact in st.contacts
  {
    match FirstUnsent(st.contacts)
    case None => (st, Exhausted)
    case Some(k) =>
      var next := st.contacts[k];
      var (after, outcome) := UpdateContact(st, next.id, MarkSent, putFails);
      if outcome == Updated then (after, Opened(next)) else (after, MarkFailed)
  }

  /**
    In a valid store the click opens the first unsent contact, marks that
    record sent and changes nothing else; it fails only when the `put` fails.
  */
  lemma SendNextMarksFirst(st: Store, putFails: bool)
    requires Valid(st)
    ensures var (after, outcome) := SendNext(st, putFails);
      match FirstUnsent(st.contacts)
      case None => outcome == Exhausted
      case Some(k) =>
        && (outcome == MarkFailed <==> putFails)
        && (outcome.Opened? ==>
              && outcome.contact == st.contacts[k]
              && after == Store(st.contacts[k := st.contacts[k].(sent := true)], st.nextId))
  {
    match FirstUnsent(st.contacts)
    case None =>
    case Some(k) =>
      UpdateContactTarget(st, st.contacts[k].id, MarkSent, k);
      var after := SendNext(st, putFails).0;
      if !putFails {
        assert after.contacts == st.contacts[k := st.contacts[k].(sent := true)];
      }
  }

  /** A contact once sent stays sent, and the number of unsent contacts drops by one with every chat opened. */
  lemma SendNextProgress(st: Store, putFails: bool)
    requires Valid(st)
    ensures var (after, outcome) := SendNext(st, putFails);
      && |after.contacts| == |st.contacts|
      && (forall i :: 0 <= i < |st.contacts| && st.contacts[i].sent ==> after.contacts[i].sent)
      && (outcome.Opened? ==> UnsentCount(after.contacts) + 1 == UnsentCount(st.contacts))
  {
    SendNextMarksFirst(st, putFails);
    if FirstUnsent(st.contacts).Some? {
      MarkOneSent(st.contacts, FirstUnsent(st.contacts).value);
    }
  }

  /** How many contacts are not sent yet. */
  function UnsentCount(contacts: seq<Contact>): (n: nat)
    ensures n <= |contacts|
    ensures n == 0 <==> forall i :: 0 <= i < |contacts| ==> contacts[i].sent
  {
    if |contacts| == 0 then 0
    else (if contacts[0].sent then 0 else 1) + UnsentCount(contacts[1..])
  }

  /** Marking one unsent contact sent removes exactly one from the count. */
  lemma {:induction false} MarkOneSent(contacts: seq<Contact>, k: nat)
    requires k < |contacts| && !contacts[k].sent
    ensures UnsentCount(contacts[k := contacts[k].(sent := true)]) + 1 == UnsentCount(contacts)
    decreases |contacts|
  {
    var marked := contacts[k := contacts[k].(sent := true)];
    if k > 0 {
      MarkOneSent(contacts[1..], k - 1);
      assert marked[1..] == contacts[1..][k - 1 := contacts[k].(sent := true)];
    } else {
      assert marked[1..] == contacts[1..];
    }
  }
}
