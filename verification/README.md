# WhatsApp contact extractor — a Dafny model of the popup's logic

The browser extension's popup scans the current page for Brazilian phone
numbers. It stores each new number as a contact in an IndexedDB object store
and opens WhatsApp Web on the next contact not yet messaged. This project
models that logic as pure Dafny functions over immutable data and proves
what it promises.

- **The loose phone pattern** (module `LoosePattern`) is
  `(?<!\d)(?:\+?55[\s().-]*)\d{2}[\s().-]*9?\d{4}[\s().-]*\d{4}(?!\d)`.
  It is a parser, `ParseAt`, that follows the regular-expression engine's
  backtracking order:
  - separator runs are taken greedily;
  - the optional `9` is tried first, and left out only when the rest
    cannot match with it.
  
  The partner is a declarative description: a `Candidate` whose parts have
  the shapes of the pattern's groups (`WellFormed`) and that sits at a position
  with no digit before or after it (`MatchesAt`). `ParseAtIff` proves that the
  parser returns exactly that candidate.
- **The global match** `content.match(loosePattern)` (module `Scanner`)
  works over the table of per-position attempts. It finds the leftmost
  match, then resumes after its end. `ScanIff` proves the scan is the only
  list of matches that is in text order, does not overlap, and leaves no
  match position uncovered.
- **Cleaning and validation** (module `Extraction`): `/\D/g` is `Chars.Digits`.
  Every match of the pattern strips to `55`, two area digits, an optional
  `9` and eight subscriber digits. So the strict length and prefix check
  that follows in the code never rejects anything (`StrictCheckRedundant`).
  The number set is a JavaScript `Set`, spread in insertion order
  (`InsertionSet.SetOrder`). The e-mail list is the raw matches,
  deduplicated and capped at three (`FirstDistinct`).
- **The contact store** (module `ContactStore`) is the records in key order
  plus the auto-increment key generator. It covers `whatsappExists`,
  `saveContact` as `Add`, `clearDatabase`, `updateContact` and
  `getLastContacts`. A failing `add` or `put` is an input flag, and a failed
  request aborts its transaction, so the store stays as it was.
- **The extract button's save loop** (module `SaveLoop`) checks each number
  against the store, then either adds it or counts it as a duplicate. It
  proves:
  - the counter bounds;
  - that distinct numbers stay distinct;
  - that a second run saves nothing.
  
  `Date.now()` is a clock function indexed by loop turn. Whether each `add`
  fails is an oracle.
- **The send-next button** (module `SendQueue`) picks the first unsent
  contact, marks it sent through `updateContact`, and opens its chat.

## Model

| member | source | states |
|---|---|---|
| Chars.Digits | popup.js:109 | the result of stripping every non-digit holds only digits and is no longer than its input |
| Chars.DigitsAppend | popup.js:109 | stripping non-digits distributes over concatenation |
| Chars.DigitsIdentity | popup.js:109 | a string of digits is left unchanged by the stripping |
| Chars.DigitsOfSeparators | popup.js:109 | a run of separators strips to nothing |
| Chars.DigitsOfNonDigits | popup.js:108-109 | every character that is not a digit (a `+`, a letter, a separator) is dropped: a string without digits strips to nothing; with DigitsAppend and DigitsIdentity this fixes the filter on every string |
| LoosePattern.ParseAt | popup.js:101-102 | a match the engine reports at position i is a well-formed candidate whose text sits at i, with no digit just before it or just after it |
| LoosePattern.ParseAtComplete | popup.js:101-102 | every well-formed candidate matching at i (lookbehind and lookahead included) is exactly what the engine reports at i; the backtracking order cannot pick a different split |
| LoosePattern.ParseAtIff | popup.js:101-102 | the engine reports candidate c at i if and only if c is well formed and matches at i |
| Scanner.ScanOrdered | popup.js:104 | the hits of a global match come in increasing text order and do not overlap |
| Scanner.ScanCovers | popup.js:104 | every position where the attempt succeeds lies inside some hit of the global match |
| Scanner.MatchListUnique | popup.js:104 | only one list of hits is ordered, drawn from the attempts and covers every successful position |
| Scanner.AttemptsSpec | popup.js:101-104 | the per-position attempts are exactly the pattern's matches, each fitting inside the text |
| Scanner.Scan | popup.js:104 | every hit of `content.match` is a match of the pattern at its position, with no digit just before or just after it; hits are ordered and disjoint |
| Scanner.ScanIff | popup.js:104 | a list of hits is the global match result if and only if it consists of matches, is ordered and disjoint, and covers every position where the pattern matches |
| Extraction.DigitsOfPlus | popup.js:109 | the optional `+` in front of the country code is dropped by the stripping |
| Extraction.DigitsAfterCode | popup.js:101-109 | the part of a match after the country code strips to the area code, the optional 9 and the eight subscriber digits |
| Extraction.DigitsOfMatch | popup.js:101-109 | a match strips to "55", its two area digits, the optional 9, and its two groups of four |
| Extraction.MatchIsNormalized | popup.js:101-117 | a stripped match is all digits, starts with "55", has 12 or 13 digits, and its fifth digit is 9 when it has 13 |
| Extraction.StrictCheckRedundant | popup.js:101-116 | no stripped match fails the prefix-and-length validation |
| Extraction.Cleaned | popup.js:107-109 | one stripped string per match, in match order |
| Extraction.KeepValid | popup.js:112-117 | the kept strings are exactly those of the input that pass the validation, and there are no more of them than inputs |
| Extraction.KeepValidAppend | popup.js:107-117 | the validation filters piece by piece, so kept strings keep their input order and repeats |
| Extraction.KeepValidAll | popup.js:112-117 | a validation every input passes keeps the list unchanged |
| Extraction.ExtractNumbers | popup.js:104-130 | the returned numbers have no repeats and each is a normalized Brazilian number |
| Extraction.ExtractNumbersSkipsNothing | popup.js:104-130 | the numbers are exactly the deduplicated stripped matches; validation drops none |
| Extraction.ExtractNumbersMembership | popup.js:104-130 | a number is returned if and only if some match of the page strips to it |
| Extraction.ExtractNumbersFirstSeen | popup.js:105-130 | numbers come out in the order of their first match in the page |
| Extraction.ShapeEmails | popup.js:125-131 | at most three e-mails, no repeats, each from the raw matches; a raw match is missing only when three are already kept |
| Extraction.ExtractFromPage | popup.js:91-134 | the page data carries distinct normalized numbers, exactly those that some match of the page text strips to; at most three distinct e-mails drawn from the matches, with a raw e-mail missing only when three are kept; and the host name |
| Extraction.NineFallbackExample | popup.js:101-102 | in "Tel 55 11 9888-7777." the optional 9 cannot be taken, so `9888` is the first group of four and the number is 551198887777 |
| InsertionSet.SetOrder | popup.js:105-130 | spreading a Set gives each element once, and exactly the elements that were added |
| InsertionSet.SetOrderMembers | popup.js:105-130 | an element is in the spread Set if and only if it was added |
| InsertionSet.SetOrderFirstSeen | popup.js:105-130 | spreading a Set lists its elements in the order of their first addition |
| InsertionSet.FirstDistinct | popup.js:131 | at most cap elements with no repeats, each from the input; an input element is dropped only once cap elements are kept |
| InsertionSet.FirstDistinctKeepsEarliest | popup.js:131 | the capped list keeps first-seen order, and every kept element was seen before every dropped one |
| ContactStore.EmptyStore | popup.js:13-20 | a freshly created store has no records and satisfies the key invariant the send-next lemmas require |
| ContactStore.WhatsappExists | popup.js:74-77 | the answer is true if and only if some stored record carries the number |
| ContactStore.Add | popup.js:45-55 | a successful add appends one record under the generator's next key with `sent` false and advances the generator; a failed add changes nothing; keys stay valid |
| ContactStore.AddKeepsNumbers | popup.js:45-55 | an add keeps every stored number, stores its own number when it succeeds, and keeps numbers distinct when the number is new |
| ContactStore.Clear | popup.js:79-89 | clearing removes every record and keeps the key generator |
| ContactStore.Apply | popup.js:35 | merging a patch sets exactly the patched fields and keeps the key and every other field |
| ContactStore.IndexOfId | popup.js:31-34 | the lookup finds a record with the key, or reports none exactly when no record has it |
| ContactStore.UpdateContact | popup.js:26-41 | a missing key is rejected; a rejected or failed update leaves the store unchanged; a successful one merges the patch into a record with that key and changes nothing else |
| ContactStore.UpdateContactTarget | popup.js:26-41 | in a valid store, an update whose put succeeds changes the record stored under the key and nothing else |
| ContactStore.Reverse | popup.js:71 | reversal keeps the length and mirrors every position |
| ContactStore.SliceStart | popup.js:71 | `slice` with a negative start keeps the last -rel elements (all of them when there are fewer); a non-negative start skips the first rel |
| ContactStore.LastContactsAsWritten | popup.js:69-72 | the code as written returns no more records than are stored |
| ContactStore.LastContacts | popup.js:69-72 | min(limit, number of records) records, which are the stored records read from the last one backwards |
| ContactStore.LastContactsAgree | popup.js:69-72 | for every positive limit the code as written returns the last `limit` records, newest first |
| ContactStore.LastContactsZeroReturnsAll | popup.js:69-72 | a limit of 0 returns every record, reversed, instead of none |
| SaveLoop.NewContactEmail | popup.js:248 | the new contact's e-mail is the first e-mail unless the list is empty or that e-mail is the empty string |
| SaveLoop.SaveStepSpec | popup.js:241-261 | a stored number counts one duplicate and leaves the store alone; a new number whose add fails is skipped with store and counters unchanged; otherwise one turn counts its number once, appends exactly the contact built from the domain, the number, the e-mail and the turn's clock, under the next key and not sent, and leaves the number stored |
| SaveLoop.SaveFrom | popup.js:240-262 | the loop keeps keys valid, only appends records (one per saved number), and saves plus duplicates never exceed the numbers; what the appended records hold is stated by SaveFromAppends; a failed add is skipped without stopping the loop (SaveFromStoresList) |
| SaveLoop.SaveFromCountsAll | popup.js:240-262 | when no add fails, saved plus duplicates equals the number of numbers |
| SaveLoop.SaveFromKeepsUnique | popup.js:240-262 | a store whose numbers are distinct keeps them distinct |
| SaveLoop.SaveFromKeepsStored | popup.js:240-262 | a number stored before the loop is still stored after it, whichever adds fail |
| SaveLoop.SaveFromStoresList | popup.js:240-262 | every turn whose add does not fail leaves its number stored at the end, whichever other adds fail: a failed add is skipped and the later turns still run |
| SaveLoop.SaveFromAppends | popup.js:240-262 | every record the loop appends carries the page's domain, the first e-mail or none, one of the listed numbers, and is not sent |
| SaveLoop.SaveFromStoresAll | popup.js:240-262 | numbers already stored stay stored; when no add fails, every number of the list is stored afterwards |
| SaveLoop.SaveFromAllPresent | popup.js:241-260 | against a store that holds every number, the loop changes nothing and counts each number as a duplicate |
| SaveLoop.SaveIdempotent | popup.js:240-262 | a second run with the same numbers saves nothing, counts every number as a duplicate and leaves the store as it is, provided no add of the first run failed |
| SaveLoop.SaveEach | popup.js:240-262 | the loop, asking `whatsappExists` each turn, ends in the state the recursive description of the loop gives |
| SaveLoop.SaveExtracted | popup.js:224-262 | an empty list returns before touching the store; otherwise the handler's counters and store are those of the loop, with the bounds, valid keys and distinct numbers above; every appended record holds the domain, `emails[0] || null`, a listed number and is not sent |
| SendQueue.FirstUnsent | popup.js:179 | the first position whose record is not sent, or none exactly when every record is sent |
| SendQueue.SendNext | popup.js:177-189 | exhausted exactly when every record is sent; only an opened chat changes the store; the opened contact was stored and unsent |
| SendQueue.SendNextMarksFirst | popup.js:177-185 | in a valid store the click opens the first unsent record and sets only its `sent` to true; it fails exactly when the put fails |
| SendQueue.UnsentCount | popup.js:179 | the unsent count is zero exactly when every record is sent |
| SendQueue.MarkOneSent | popup.js:185 | marking one unsent record sent lowers the unsent count by one |
| SendQueue.SendNextProgress | popup.js:177-185 | a sent record stays sent, and each opened chat lowers the unsent count by one |

## Left out

- content.js is not part of this model. It is the page widget and its message listener.
- DOM access and rendering are left out: `document.body`, `updateTotalCount`, `displayLastRecords` (popup.js:92, 137-172). The page text and markup are inputs of `Extraction.PageContent`.
- The e-mail regular expression (popup.js:123-124) is left out. Its raw matches are an input.
- Chrome extension APIs, `window.open` and the chat URL, `alert` and `confirm`, and console logging are left out (popup.js:187-188, 194, 207-222, 264-304).
- `openDB`, and failures of `getAll`, `get` or `clear`, are left out. Only the failure of `add` and of `put` is modelled, as a flag.
- The check-then-write race of the asynchronous loop is left out. The loop is modelled sequentially, each turn seeing the store the previous turn left.
- `window.location.hostname` and `Date.now()` are inputs.
- The key generator's upper limit (2^53) is not modelled.
- Strings are sequences of Unicode code points, not UTF-16 code units. Every character a match contains lies in the Basic Multilingual Plane. A character outside it, or either of its surrogates in UTF-16, is neither a digit nor a separator, so both views find the same matches. `match` returns strings, not positions.
- SaveExtracted: the `!data.whatsapp` test for a missing list is not modelled, because the extractor always returns a list.
- ContactStore.UpdateContact: a patch cannot carry an `id` or fields a contact does not have. The only caller passes `{ sent: true }`.
- ContactStore.LastContacts: takes a natural-number limit. A negative limit (`slice` from a positive start) is covered only by `LastContactsAsWritten`.
- ContactStore.Contact: a record created without `sent` is stored with `sent` false. `!c.sent` reads a missing field and `false` the same way.

## Findings

| source | as written | input that shows it | evidently intended | confidence | as-written member | corrected member |
|---|---|---|---|---|---|---|
| popup.js:69-72 | `contacts.slice(-limit).reverse()` | `getLastContacts(0)` on a non-empty store: `-0` is `0`, so `slice(0)` returns every record | no records for a limit of 0 | low; not executed; the only caller passes 10 | ContactStore.LastContactsAsWritten (shown by ContactStore.LastContactsZeroReturnsAll) | ContactStore.LastContacts (agreement for positive limits: ContactStore.LastContactsAgree) |
