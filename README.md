# Contact book model

A Dafny model of `core_homework_06/bot_helper.py`, a small in-memory contact
book. It has one validated value (`Phone`: ten decimal digits), one
normalised value (`Name`: the input with surrounding whitespace stripped),
a `Record` that owns a name and an ordered list of phones, and an
`AddressBook` that maps a name to its record in insertion order.

Files and modules:

- `fields.dfy`, module `Fields`: `Name`'s `strip()` and `Phone._validate_phone`,
  plus the error kinds (`Error`) and the `Outcome` of an operation that may raise.
- `seqs.dfy`, module `Seqs`: the first-match scan every phone operation
  repeats, removal of the first match (`list.remove`), and `str.join`.
- `record.dfy`, module `Records`: class `Record` (phones as a `seq<string>`
  field the methods reassign) and its rendering `RecordText`.
- `address_book.dfy`, module `AddressBooks`: class `AddressBook` with the
  dict's key order `order` and the dict itself `data: map<string, Record>`,
  and its rendering.
- `scenario.dfy`, module `Scenario`: the commented-out usage example at the
  end of the source file, as a client whose outputs are proved.
- `wrappers.dfy`, module `Wrappers`: `Option`, standing for `None` or a value.

Modelling choices:

- Every Python `Phone` object belongs to exactly one record, so a record
  keeps its phones' values. `edit_phone` changing `Phone.value` in place is an
  update of one position of the sequence.
- The book stores references to `Record` objects. `find` returns the stored
  object itself, so editing it changes what the book lists. `Scenario` shows
  this.
- A record's name is a `const`: no operation renames a record. So the book's
  invariant "every record is stored under its own name" does not depend on
  what happens to the records later.
- Python's raised exceptions become an `Outcome` value (`Pass` or
  `Fail(error)`). `find` and `find_phone` return an `Option` and never fail,
  as in the source.
- `edit_phone` repeats the digit and length checks of `_validate_phone`
  inline (lines 56-59). The checks and their messages are the same, so the
  model calls `ValidatePhone` there.
- `remove_phone` and `edit_phone` test `if phone_to_remove:` on a `Phone`
  object. Such an object is always truthy, so this is the same as "a match
  was found". `list.remove` compares by identity (`Phone` has no `__eq__`),
  so it removes the object the scan found, which is at the first-match index.
- `edit_phone(old, old)` on a record without `old` fails with not-found,
  not with the same-value error, because the presence check
  (bot_helper.py:49-53) runs before the comparison (line 54).
- After `edit_phone(old, new)`, `find_phone(old)` still succeeds when `old`
  occurred more than once, since only the first match is rewritten.
  `ReplaceFirstSpec` states the exact condition.

## Model

| member | source | states |
|---|---|---|
| Fields.IsSpace | core_homework_06/bot_helper.py:12 | the characters `strip()` removes: the ASCII whitespace and separator controls and the Unicode space and line/paragraph separators that `str.isspace()` accepts |
| Fields.TrimStart | core_homework_06/bot_helper.py:12 | leading whitespace is dropped: the result is a suffix of the input, everything before it is whitespace, and it does not start with whitespace |
| Fields.TrimEnd | core_homework_06/bot_helper.py:12 | trailing whitespace is dropped: the result is a prefix of the input, everything after it is whitespace, and it does not end with whitespace |
| Fields.Strip | core_homework_06/bot_helper.py:10-12 | the stored name is a segment of the input with only whitespace around it, no longer than the input, and neither starts nor ends with whitespace |
| Fields.StripPadded | core_homework_06/bot_helper.py:10-12 | whitespace of any length around a name without whitespace at its ends is exactly what `strip()` removes; an all-whitespace input gives the empty name |
| Fields.StripIdempotent | core_homework_06/bot_helper.py:12 | stripping a stripped name changes nothing |
| Fields.IsDigits | core_homework_06/bot_helper.py:23 | `isdigit()` holds iff the string is non-empty and every character is a digit |
| Fields.ValidatePhone | core_homework_06/bot_helper.py:22-26 | a phone is accepted iff it has exactly ten characters, all digits; the digit error comes first, so a string that breaks both rules and the empty string get it; the length error only for all-digit strings of another length; no other outcome |
| Seqs.FirstIndexOf | core_homework_06/bot_helper.py:38-41 | the scan with early `break` finds something iff the value occurs; the index it stops at holds the value and no earlier index does |
| Seqs.FirstIndexOfAppend | core_homework_06/bot_helper.py:33-34 | after appending a phone, `find_phone` of it succeeds; an earlier copy is still the one found, and searches for other phones are unaffected |
| Seqs.RemoveFirstShape | core_homework_06/bot_helper.py:36-45 | removal deletes exactly the first match: the old list is the new one with the phone put back at that index, nothing before it matches, and all other entries keep their order; without a match nothing changes |
| Seqs.RemoveFirstCount | core_homework_06/bot_helper.py:36-45 | removal takes exactly one copy out of the multiset of phones; the phone is still present afterwards iff it occurred at least twice |
| Seqs.ReplaceFirstSpec | core_homework_06/bot_helper.py:47-62 | rewriting the first match keeps the length and the position; the new value is then found no later than that position; one copy of the old value is exchanged for the new one; the old value is still found iff it occurred twice or more |
| Seqs.RemoveFirstDistinct | core_homework_06/bot_helper.py:80-82 | deleting a key from a duplicate-free key order keeps it duplicate-free and removes that key and nothing else |
| Seqs.RemoveFirst | core_homework_06/bot_helper.py:43 | `list.remove` of the object the scan found: the list without its first entry equal to the value, or the list itself when there is none |
| Seqs.Join | core_homework_06/bot_helper.py:71 | `sep.join(parts)`: the parts in order with the separator between neighbours, empty for no parts |
| Seqs.JoinAppend | core_homework_06/bot_helper.py:95 | joining one more part appends the separator and that part |
| Seqs.ChunksOfJoin | core_homework_06/bot_helper.py:71 | parts of one fixed width are recovered, in order, from their join with any separator |
| Records.RecordText | core_homework_06/bot_helper.py:70-71 | a record's rendering: "Contact name: ", the name, ", phones: ", then the phones joined by "; " (nothing after the colon for no phones) |
| Records.Record.Text | core_homework_06/bot_helper.py:70-71 | `Record.__str__` of this record: `RecordText` of its current name and phones |
| Records.RecordTextPhones | core_homework_06/bot_helper.py:70-71 | a record's rendering determines its phone list: the valid phones are read back, in order, from the text after "Contact name: <name>, phones: " |
| Records.Record.constructor | core_homework_06/bot_helper.py:29-31 | a new record's name is the stripped input and its phone list is empty (so every phone is valid) |
| Records.Record.IndexOf | core_homework_06/bot_helper.py:38-41 | the loop returns the first index holding the phone, or `None` when there is none |
| Records.Record.AddPhone | core_homework_06/bot_helper.py:33-34 | the outcome is the phone's validation; on success the list is the old one with the phone appended (duplicates allowed); on a rejection it is unchanged; all-valid lists stay all-valid |
| Records.Record.RemovePhone | core_homework_06/bot_helper.py:36-45 | succeeds iff the phone occurs, else fails with not-found; the new list is the old one with its first match removed (unchanged on failure); validity is kept |
| Records.Record.EditPhone | core_homework_06/bot_helper.py:47-62 | not-found when the old phone is absent, else a same-value error when new equals old, else the digit and length rules on the new phone; on success only the first match's position changes, to the new phone; on any error nothing changes; validity is kept |
| Records.Record.FindPhone | core_homework_06/bot_helper.py:64-68 | returns a phone iff one equals the query, and what it returns equals the query; changes nothing |
| AddressBooks.BookLine | core_homework_06/bot_helper.py:92-93 | one listing line: "Name: ", the name, ", Phones: ", then the phones joined by ", ", or "No phones" when there are none |
| AddressBooks.BookText | core_homework_06/bot_helper.py:87-95 | the listing: exactly "Address Book is empty." for no lines, otherwise the lines joined by newlines |
| AddressBooks.AddressBook.Lines | core_homework_06/bot_helper.py:91-93 | the book's lines: `LinesOf` its key order and its records, one line per record in insertion order |
| AddressBooks.LinesOf | core_homework_06/bot_helper.py:91-93 | one listing line per key, in key order; line i is "Name: <name>, Phones: ..." of the record under key i |
| AddressBooks.LinesOfStore | core_homework_06/bot_helper.py:74-75 | storing a record under a name already listed replaces its line where it stands; under a new name its line is added after all the others |
| AddressBooks.BookTextNonEmpty | core_homework_06/bot_helper.py:86-93 | a book with at least one record never renders as "Address Book is empty." |
| AddressBooks.BookTextAppend | core_homework_06/bot_helper.py:90-95 | one more record line adds a newline and that line at the end of the listing, or is the whole listing when it is the first |
| AddressBooks.AddressBook.constructor | core_homework_06/bot_helper.py:73 | a new book is empty and satisfies the book invariant |
| AddressBooks.AddressBook.AddRecord | core_homework_06/bot_helper.py:74-75 | the record is stored under its name, replacing any earlier one; `find` of that name returns it and every other name keeps its record; an existing name keeps its place in the order, a new one goes last; the invariant is kept |
| AddressBooks.AddressBook.Find | core_homework_06/bot_helper.py:77-78 | returns a record iff the name is a key, namely the one stored there, whose name is that name; never fails and reads only |
| AddressBooks.AddressBook.Delete | core_homework_06/bot_helper.py:80-84 | succeeds iff the name is a key, else fails with not-found and changes nothing; on success only that key leaves the map and the order; the invariant is kept |
| AddressBooks.AddressBook.ToString | core_homework_06/bot_helper.py:86-95 | the text is "Address Book is empty." exactly when the book has no records, else the records' lines in insertion order joined by newlines |
| Scenario.Contact | core_homework_06/bot_helper.py:100-102 | `Record(name)` followed by one `add_phone` per given valid phone yields a fresh record with that name and exactly those phones, in order |
| Scenario.Build | core_homework_06/bot_helper.py:98-110 | after the example's calls the book lists John then Jane, with the phones they were given |
| Scenario.ListBoth | core_homework_06/bot_helper.py:114 | the example's first listing is "Name: John, Phones: 1234567890, 5555555555" and "Name: Jane, Phones: 9876543210" on two lines |
| Scenario.EditThroughFind | core_homework_06/bot_helper.py:117-118 | editing the record `find` returned edits the record stored in the book |
| Scenario.Inspect | core_homework_06/bot_helper.py:120-124 | the edited record renders as "Contact name: John, phones: 1112223333; 5555555555" and `find_phone("5555555555")` finds it |
| Scenario.DeleteJane | core_homework_06/bot_helper.py:127 | after deleting Jane, `find("Jane")` gives `None` and the listing shows only John's line |
| Scenario.Demo | core_homework_06/bot_helper.py:98-127 | the whole example end to end, with each output stated as a literal |

## Left out

- Fields.IsDigits: Python's `str.isdigit()` also accepts non-ASCII digits (for example Arabic-Indic digits and superscripts); the model accepts only `'0'..'9'`, so it rejects some strings Python would accept.
- Fields.ValidatePhone: inherits the ASCII-only digit rule of `IsDigits` for the same reason.
- Fields.IsSpace uses the whitespace characters of current Python versions' `str.isspace()`; it does not follow changes to the Unicode database between versions.
- Exception classes and message texts (`ValueError`, `KeyError`, the f-strings): the model keeps the kind of error and the offending string only.
- `Field.__str__` and the `print` calls of the example (line 124, `print(f"{john.name}: {found_phone}")`, formats both operands through it): printing is output, not modelled.
- The `Name.value` method (lines 14-15) is unreachable: the instance attribute set on line 12 shadows it.
- The rest of the `UserDict` interface (`__setitem__`, iteration, `len`, and so on): only `add_record`, `find`, `delete` and `__str__` are modelled.
- `find_phone` returns the `Phone` object; the model returns its value, because phone objects are not shared between records and nothing else identifies them.
