# Personal Assistant: a verified model of its data layer

The Personal Assistant is a single-user contact and note manager. A
`PersonalAssistant` object holds two ordered lists, `contacts` (name, address,
phone, email, birthday) and `notes` (text and a list of tags), rewrites the
matching JSON file after every change, and offers: adding a contact after
checking its email and phone, searching contacts by name, editing the first
contact with a given name, deleting every contact with a given name, adding
notes, searching notes by text or by tag, editing or deleting a note by
position, and listing the contacts whose birthday is coming up.

This project models that layer in Dafny and proves what each operation does.

- `wrappers.dfy` (`Wrappers`): `Option` and `Result`.
- `text.dfy` (`Text`): the character classes `\d`, `\s`, `\w`, `[a-z0-9]`, `str.lower()` and substring search.
- `seqs.dfy` (`Seqs`): the order-preserving filter behind every list comprehension, specified as the unique subsequence that keeps every occurrence of every kept value.
- `validation.dfy` (`Validation`): `validate_email` and `validate_phone_number`. Each is a hand-written scanner, proved to accept exactly the language of the regular expression.
- `calendar.dfy` (`Calendar`): dates, `toordinal`, `strptime(s, "%Y-%m-%d")` with the grammar strptime really uses, and the `.days` of a datetime difference.
- `records.dfy` (`Records`): the contact and note records, the partial update `edit_contact` merges, and the result messages.
- `birthdays.dfy` (`Birthdays`): the specification of `display_upcoming_birthdays`.
- `tags.dfy` (`Tags`): the comma-separated tag parsing of the note workflow.
- `assistant.dfy` (`Assistant`): the class `PersonalAssistant`, with one method or function per operation.

The class keeps `contacts` and `notes` as `seq` fields that its methods reassign.
`save_data` is modelled by two ghost fields holding what each JSON file contains and two ghost counters of file rewrites.
`Valid()` states that each file holds exactly the list in memory.
Every method keeps `Valid()`, bumps a counter on each successful change, and leaves the counters alone on every failure path.

Where the design description and the code disagree, the model follows the code:

- The birthday window. The design describes the window as `[0, days)` calendar days from today. The code compares the `.days` of `this_year_birthday - datetime.now()`. `now()` carries a time of day, so `.days` is floored one below the calendar distance. A contact is therefore listed when its birthday falls 1 to `days` days ahead. A birthday today is not listed, unless the clock reads exactly midnight, when the window is 0 to `days - 1` (`Birthdays.DueWindow`).
- Leap days. The design leaves 29 February in a common year open. The code raises `ValueError` from `replace(year=...)`. The model returns that as `Failure(NoLeapDay(...))`, and the whole listing fails, as the exception does.
- Malformed birthdays. `add_contact` stores the birthday unchecked. A birthday that strptime refuses makes the listing fail with `Failure(MalformedBirthday(...))`. strptime's `%m` and `%d` also accept one-digit months and days and a space-padded day, and the model accepts them too.

## Model

| member | source | states |
|---|---|---|
| Validation.EmailScannerIsPattern | Personal_Assistant.py:40-42 | the email check accepts a string iff it splits as `[a-z0-9]+[._]?[a-z0-9]+ @ \w+ . \w+` |
| Validation.EmailScannerSound | Personal_Assistant.py:40-42 | every accepted email has that decomposition |
| Validation.EmailScannerComplete | Personal_Assistant.py:40-42 | every string with that decomposition is accepted |
| Validation.EmailAcceptsPlainLocalPart | Personal_Assistant.py:40-42 | `bob@mail.com` is accepted |
| Validation.EmailAcceptsSeparatedLocalPart | Personal_Assistant.py:40-42 | `jo.ann@mail.org` is accepted |
| Validation.EmailRejectsDoubledAt | Personal_Assistant.py:40-42 | `bob@@x` is rejected |
| Validation.EmailRejectsUpperCase | Personal_Assistant.py:40-42 | `Bob@x.com` is rejected: the local part is lower-case only |
| Validation.EmailRejectsBadDomain | Personal_Assistant.py:40-42 | `a@b.c.d` and the one-character local part of `a@b.c` are rejected |
| Validation.PhoneScannerIsPattern | Personal_Assistant.py:44-46 | the phone check accepts a string iff it is an optional `+` followed by one or more digits or whitespace characters |
| Validation.PhoneExamples | Personal_Assistant.py:44-46 | `+1 555 123` is accepted; `abc123`, `+` and the empty string are rejected |
| Seqs.FilterMembers | Personal_Assistant.py:49 | a list comprehension's result holds exactly the input elements that pass its test |
| Seqs.FilterIsSubsequence | Personal_Assistant.py:49 | a list comprehension's result is a subsequence of its input |
| Seqs.FilterCounts | Personal_Assistant.py:49 | a list comprehension keeps every occurrence of every kept value and none of any other |
| Seqs.FilterShrinksIff | Personal_Assistant.py:61-63 | the comprehension's result is shorter than its input iff some element is dropped |
| Seqs.FilterKeepsAll | Personal_Assistant.py:61-62 | a comprehension that keeps every element returns its input |
| Seqs.FilterAppend | Personal_Assistant.py:99-103 | filtering a concatenation is concatenating the filtered parts, so kept elements stay in input order |
| Seqs.FilterSnoc | Personal_Assistant.py:99-103 | filtering one more element appends it exactly when it passes the test |
| Calendar.OrdinalFollowsCalendarOrder | Personal_Assistant.py:102 | within one year, a date earlier by month then day has a smaller ordinal |
| Calendar.DaysFromFloors | Personal_Assistant.py:97-102 | `(birthday - now).days` equals the calendar distance at midnight and is one less at any later time of day |
| Calendar.ParseIsoDate | Personal_Assistant.py:100 | whatever strptime accepts is a representable date |
| Calendar.ParseFormatRoundTrip | Personal_Assistant.py:100 | strptime reads back every date written as zero-padded `YYYY-MM-DD` |
| Calendar.ParseIsoDateOneDigitFields | Personal_Assistant.py:100 | `1990-7-4` is read as 4 July 1990, as strptime reads one-digit fields |
| Calendar.ParseIsoDateSpacePaddedDay | Personal_Assistant.py:100 | `1990-07- 4` is read as 4 July 1990, as strptime reads a space-padded day |
| Calendar.ParseIsoDateRejectsDayPastMonthEnd | Personal_Assistant.py:100 | 31 April raises |
| Calendar.ParseIsoDateRejectsCommonYearLeapDay | Personal_Assistant.py:100 | 29 February of a common year raises |
| Calendar.ParseIsoDateRejectsYearZero | Personal_Assistant.py:100 | year 0 raises |
| Calendar.ParseIsoDateRejectsTrailingText | Personal_Assistant.py:100 | text after the day raises |
| Records.MergeLaws | Personal_Assistant.py:54 | `update` with nothing is the identity, is idempotent, and two updates compose with the later value winning |
| Records.MergeAddressOnly | Personal_Assistant.py:54 | an update supplying only an address changes only the address |
| Birthdays.BirthdayIn | Personal_Assistant.py:100-101 | a birthday moved to the current year is a valid date in that year |
| Birthdays.BirthdayInMovesYear | Personal_Assistant.py:100-101 | `replace(year=...)` keeps the parsed month and day, succeeds iff that day exists in the year, and can only fail on 29 February |
| Birthdays.UpcomingFailurePersists | Personal_Assistant.py:99-103 | once the loop has raised, later contacts do not change the outcome |
| Birthdays.UpcomingSnoc | Personal_Assistant.py:99-103 | one more iteration of a completing loop appends the contact exactly when it is due |
| Birthdays.UpcomingSucceedsIff | Personal_Assistant.py:99-103 | the listing completes iff every stored birthday parses and exists in the current year |
| Birthdays.UpcomingRaisesFirstError | Personal_Assistant.py:99-103 | a failed listing carries the error of the first contact whose birthday cannot be placed |
| Birthdays.UpcomingIsFilter | Personal_Assistant.py:99-103 | a completed listing is exactly the due contacts, in contact order |
| Birthdays.DueWindow | Personal_Assistant.py:97-102 | a contact is due iff its birthday is 1 to `days` days ahead, or 0 to `days - 1` days ahead at exactly midnight |
| Birthdays.PastBirthdayNotDue | Personal_Assistant.py:101-102 | a birthday earlier this year is never due, nor one today unless at exactly midnight |
| Birthdays.NothingDueWithoutDays | Personal_Assistant.py:102 | with `days <= 0` a completed listing is empty |
| Tags.Split | Personal_Assistant.py:199 | `split(',')` yields at least one piece and no piece contains a comma |
| Tags.JoinSplit | Personal_Assistant.py:199 | joining the pieces with commas gives the line back |
| Tags.SplitJoin | Personal_Assistant.py:199 | comma-free pieces are recovered by splitting their join |
| Tags.StripLeft | Personal_Assistant.py:200-201 | `lstrip` removes exactly the leading whitespace |
| Tags.StripRight | Personal_Assistant.py:200-201 | `rstrip` removes exactly the trailing whitespace |
| Tags.Strip | Personal_Assistant.py:200-201 | `strip` leaves no whitespace at either end, uses only characters of its input, and leaves a trimmed string alone |
| Tags.StripRemovesOnlyOuterSpace | Personal_Assistant.py:200-201 | `strip` returns a slice of its input, and everything cut off before and after that slice is whitespace |
| Tags.ParseTags | Personal_Assistant.py:199-201 | every parsed tag is non-empty, trimmed and comma-free |
| Tags.ParseJoinedTags | Personal_Assistant.py:199-201 | well-formed tags written as one comma-separated line parse back to the same list |
| Assistant.NamedIsFound | Personal_Assistant.py:49-53 | a contact matched by name for edit or delete is also found by searching for that name |
| Assistant.NameVariantIsFound | Personal_Assistant.py:48-49 | a contact is found by searching for any substring of any case variant of its name |
| Assistant.DeleteShiftsLaterNotes | Personal_Assistant.py:91 | deleting a note keeps earlier positions and moves every later note down by one |
| Assistant.FirstNamed | Personal_Assistant.py:52-53 | the edit loop stops at the first contact whose name equals the given one ignoring case, or finds none iff no contact has it |
| Assistant.WithoutNamed | Personal_Assistant.py:61-63 | delete keeps exactly the contacts with another name, in order; the list shrinks iff some contact had the name, and is otherwise unchanged |
| Assistant.PersonalAssistant.constructor | Personal_Assistant.py:15-16 | after loading, the lists equal the stored ones and the files are in sync |
| Assistant.PersonalAssistant.SaveContacts | Personal_Assistant.py:25-27 | saving makes the contacts file hold the contacts list |
| Assistant.PersonalAssistant.SaveNotes | Personal_Assistant.py:25-27 | saving makes the notes file hold the notes list |
| Assistant.PersonalAssistant.AddContact | Personal_Assistant.py:29-38 | an invalid email is reported first, then an invalid phone, both changing nothing; otherwise the contact is appended and saved |
| Assistant.PersonalAssistant.SearchContacts | Personal_Assistant.py:48-49 | returns exactly the contacts whose name contains the query ignoring case, in order, changing nothing |
| Assistant.PersonalAssistant.EditContact | Personal_Assistant.py:51-57 | merges the update into the first contact with the name only and saves; reports not found and changes nothing otherwise |
| Assistant.PersonalAssistant.DeleteContact | Personal_Assistant.py:59-66 | removes every contact with the name; reports a deletion and saves iff one existed, else changes nothing |
| Assistant.PersonalAssistant.AddNote | Personal_Assistant.py:68-72 | appends a note with the given tags, or none when none are given, and saves |
| Assistant.PersonalAssistant.SearchNotesByText | Personal_Assistant.py:74-75 | returns exactly the notes whose text contains the query ignoring case, in order |
| Assistant.PersonalAssistant.SearchNotesByTags | Personal_Assistant.py:77-78 | returns exactly the notes with a tag equal to the query ignoring case, in order |
| Assistant.PersonalAssistant.EditNote | Personal_Assistant.py:80-87 | in range: replaces the text, and the tags only when non-empty ones are given, and saves; out of range, negatives included: changes nothing |
| Assistant.PersonalAssistant.DeleteNote | Personal_Assistant.py:89-94 | in range: the list becomes `old[..i] + old[i+1..]` and is saved; out of range: changes nothing |
| Assistant.PersonalAssistant.UpcomingBirthdays | Personal_Assistant.py:96-104 | the loop returns what the birthday specification gives for the stored contacts |

## Left out

- File I/O (`load_data`, `save_data`, `os.makedirs`, the JSON encoding, lines 8-27). The constructor receives the lists already loaded; an absent file is the empty list. Each file is a ghost field that saving overwrites. A failure while writing, and the non-atomic rewrite, are not modelled.
- The console front end (`interact`, `process_input`, `handle_choice` and the `*_workflow` methods, lines 106-278). It only prompts and prints. The one exception is the tag parsing of `add_note_workflow`, which is modelled in `Tags`. The edit-note workflow's selection by text and its `if new_tags[0]` test are not part of this model.
- `datetime.now()` is the parameter `now` of `UpcomingBirthdays`: a date and the microseconds since its midnight. Time zones and clock changes are not modelled.
- Unicode. `\d`, `\s`, `\w`, `str.lower()`, `str.strip()` and strptime's digits take their ASCII meaning only.
- `$` in `re.match` also matches before one final line feed, so Python accepts `bob@mail.com\n` as an email. The model rejects it. (For phones, `\s` already covers the line feed, so nothing differs.)
- Aliasing. Search results share dictionaries with the stored lists, and `add_note` stores the caller's tag list itself. The model has value semantics throughout.
- `contact.update(new_data)` can add keys other than the five fields. `ContactUpdate` allows only the five fields.
- The return value of `display_upcoming_birthdays` when an exception escapes is modelled as `Failure`. The exception's message is not.
