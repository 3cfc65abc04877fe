/** The `PersonalAssistant` object: its two lists, `contacts` and `notes`,
    and the operations that add to, search, edit and delete from them.
    `save_data` is modelled by ghost copies of what each JSON file holds and a
    count of how often each file was rewritten. */
module Assistant {
  import opened Wrappers
  import opened Text
  import opened Seqs
  import opened Validation
  import opened Calendar
  import opened Records
  import opened Birthdays

  /** `contact['name'].lower() == name.lower()`. */
  predicate NameIs(c: Contact, name: string)
  {
    EqualIgnoringCase(c.name, name)
  }

  /** `query.lower() in contact['name'].lower()`. */
  predicate NameContains(c: Contact, query: string)
  {
    ContainsIgnoringCase(query, c.name)
  }

  /** `query.lower() in note['text'].lower()`. */
  predicate TextContains(n: Note, query: string)
  {
    ContainsIgnoringCase(query, n.text)
  }

  /** `tag_query.lower() in (tag.lower() for tag in note['tags'])`. */
  predicate HasTag(n: Note, tagQuery: string)
  {
    exists i | 0 <= i < |n.tags| :: EqualIgnoringCase(n.tags[i], tagQuery)
  }

  /** Every contact that `edit_contact` or `delete_contact` matches by a name
      is also found by `search_contacts` for that name. */
  lemma NamedIsFound(c: Contact, name: string)
    requires NameIs(c, name)
    ensures NameContains(c, name)
  {
    var n := LowerStr(name);
    assert OccursAt(n, LowerStr(c.name), 0);
  }

  /** A contact is found by searching for any piece of any case variant of
      its name. */
  lemma NameVariantIsFound(c: Contact, v: string, q: string)
    requires EqualIgnoringCase(v, c.name) && Contains(q, v)
    ensures NameContains(c, q)
  {
    var i :| 0 <= i <= |v| - |q| && OccursAt(q, v, i);
    assert LowerStr(c.name)[i..i + |q|] == LowerStr(q);
    assert OccursAt(LowerStr(q), LowerStr(c.name), i);
  }

  /** `del notes[index]`: the notes before `index` keep their positions and
      every later note moves down by one. */
  lemma DeleteShiftsLaterNotes(s: seq<Note>, index: int)
    requires 0 <= index < |s|
    ensures var r := s[..index] + s[index + 1..];
            |r| == |s| - 1 && forall j :: 0 <= j < |r| ==> r[j] == if j < index then s[j] else s[j + 1]
  {
  }

  /** The position of the contact the loop of `edit_contact` stops at: the
      first one named `name`, ignoring case. */
  function FirstNamed(cs: seq<Contact>, name: string): (r: Option<nat>)
    ensures r.Some? ==> r.value < |cs| && NameIs(cs[r.value], name)
    ensures r.Some? ==> forall j :: 0 <= j < r.value ==> !NameIs(cs[j], name)
    ensures r.None? <==> forall j :: 0 <= j < |cs| ==> !NameIs(cs[j], name)
  {
    if cs == [] then None
    else if NameIs(cs[0], name) then Some(0)
    else
      match FirstNamed(cs[1..], name)
      case None => None
      case Some(i) => Some(i + 1)
  }

  /** The list comprehension of `delete_contact`: the contacts not named
      `name`, ignoring case, in their order. It is shorter than `cs` exactly
      when some contact had that name, and otherwise it is `cs` itself. */
  function WithoutNamed(cs: seq<Contact>, name: string): (r: seq<Contact>)
    ensures IsSubsequence(r, cs)
    ensures forall c :: multiset(r)[c] == if NameIs(c, name) then 0 else multiset(cs)[c]
    ensures forall c :: c in r <==> c in cs && !NameIs(c, name)
    ensures |r| < |cs| <==> exists i :: 0 <= i < |cs| && NameIs(cs[i], name)
    ensures |r| == |cs| ==> r == cs
  {
    var keep := c => !NameIs(c, name);
    FilterMembers(cs, keep);
    FilterIsSubsequence(cs, keep);
    FilterCounts(cs, keep);
    FilterShrinksIff(cs, keep);
    if |Filter(cs, keep)| == |cs| then FilterSameLength(cs, keep); Filter(cs, keep)
    else Filter(cs, keep)
  }

  class PersonalAssistant {
    var contacts: seq<Contact>
    var notes: seq<Note>

    /** What `contacts.json` and `notes.json` hold. */
    ghost var contactsFile: seq<Contact>
    ghost var notesFile: seq<Note>

    /** How many times each file has been rewritten. */
    ghost var contactsSaves: nat
    ghost var notesSaves: nat

    /** Each file holds exactly the list in memory. */
    ghost predicate Valid()
      reads this
    {
      contactsFile == contacts && notesFile == notes
    }

    /** The object after `__init__` has loaded both files (an absent file
        loads as the empty list). */
    constructor (storedContacts: seq<Contact>, storedNotes: seq<Note>)
      ensures Valid()
      ensures contacts == storedContacts && notes == storedNotes
      ensures contactsSaves == 0 && notesSaves == 0
    {
      contacts, notes := storedContacts, storedNotes;
      contactsFile, notesFile := storedContacts, storedNotes;
      contactsSaves, notesSaves := 0, 0;
    }

    /** `save_data(self.contacts, self.contacts_file)`. */
    method SaveContacts()
      modifies this`contactsFile, this`contactsSaves
      ensures contactsFile == contacts && contactsSaves == old(contactsSaves) + 1
    {
      contactsFile, contactsSaves := contacts, contactsSaves + 1;
    }

    /** `save_data(self.notes, self.notes_file)`. */
    method SaveNotes()
      modifies this`notesFile, this`notesSaves
      ensures notesFile == notes && notesSaves == old(notesSaves) + 1
    {
      notesFile, notesSaves := notes, notesSaves + 1;
    }

    /** `add_contact`: the email is checked first, then the phone; only a
        contact that passes both is appended and saved. */
    method AddContact(name: string, address: string, phone: string, email: string, birthday: string)
      returns (status: Status)
      requires Valid()
      modifies this
      ensures Valid()
      ensures notes == old(notes) && notesSaves == old(notesSaves)
      ensures !ValidEmail(email) ==>
        status == InvalidEmail && contacts == old(contacts) && contactsSaves == old(contactsSaves)
      ensures ValidEmail(email) && !ValidPhone(phone) ==>
        status == InvalidPhone && contacts == old(contacts) && contactsSaves == old(contactsSaves)
      ensures ValidEmail(email) && ValidPhone(phone) ==>
        status == ContactAdded && contacts == old(contacts) + [Contact(name, address, phone, email, birthday)] &&
        contactsSaves == old(contactsSaves) + 1
    {
      if !ValidEmail(email) {
        return InvalidEmail;
      }
      if !ValidPhone(phone) {
        return InvalidPhone;
      }
      contacts := contacts + [Contact(name, address, phone, email, birthday)];
      SaveContacts();
      return ContactAdded;
    }

    /** `search_contacts`: the contacts whose name contains the query,
        ignoring case, in stored order and with their repetitions. */
    function SearchContacts(query: string): (r: seq<Contact>)
      reads this
      ensures IsSubsequence(r, contacts)
      ensures forall c :: multiset(r)[c] == if NameContains(c, query) then multiset(contacts)[c] else 0
      ensures forall c :: c in r <==> c in contacts && NameContains(c, query)
    {
      var keep := c => NameContains(c, query);
      FilterMembers(contacts, keep);
      FilterIsSubsequence(contacts, keep);
      FilterCounts(contacts, keep);
      Filter(contacts, keep)
    }

    /** `edit_contact`: merges `update` into the first contact named `name`,
        ignoring case, and saves; the other contacts are untouched. */
    method EditContact(name: string, update: ContactUpdate) returns (status: Status)
      requires Valid()
      modifies this
      ensures Valid()
      ensures notes == old(notes) && notesSaves == old(notesSaves)
      ensures FirstNamed(old(contacts), name).None? ==>
        status == ContactNotFound && contacts == old(contacts) && contactsSaves == old(contactsSaves)
      ensures FirstNamed(old(contacts), name).Some? ==>
        var i := FirstNamed(old(contacts), name).value;
        status == ContactUpdated && contactsSaves == old(contactsSaves) + 1 &&
        contacts == old(contacts)[i := Merge(old(contacts)[i], update)]
    {
      var i := 0;
      while i < |contacts|
        invariant 0 <= i <= |contacts|
        invariant unchanged(this)
        invariant forall j :: 0 <= j < i ==> !NameIs(contacts[j], name)
      {
        if NameIs(contacts[i], name) {
          contacts := contacts[i := Merge(contacts[i], update)];
          SaveContacts();
          return ContactUpdated;
        }
        i := i + 1;
      }
      return ContactNotFound;
    }

    /** `delete_contact`: keeps the contacts not named `name`, ignoring case;
        reports a deletion, and saves, exactly when the list got shorter. */
    method DeleteContact(name: string) returns (status: Status)
      requires Valid()
      modifies this
      ensures Valid()
      ensures notes == old(notes) && notesSaves == old(notesSaves)
      ensures contacts == WithoutNamed(old(contacts), name)
      ensures status == ContactDeleted || status == ContactNotFound
      ensures status == ContactDeleted <==> exists i :: 0 <= i < |old(contacts)| && NameIs(old(contacts)[i], name)
      ensures status == ContactDeleted ==> contactsSaves == old(contactsSaves) + 1
      ensures status == ContactNotFound ==> contacts == old(contacts) && contactsSaves == old(contactsSaves)
    {
      var originalLength := |contacts|;
      contacts := WithoutNamed(contacts, name);
      if |contacts| < originalLength {
        SaveContacts();
        return ContactDeleted;
      }
      return ContactNotFound;
    }

    /** `add_note`: appends a note whose tags are the given ones, or none
        when no tags are given, and saves. */
    method AddNote(text: string, tags: Option<seq<string>>) returns (status: Status)
      requires Valid()
      modifies this
      ensures Valid()
      ensures contacts == old(contacts) && contactsSaves == old(contactsSaves)
      ensures status == NoteAdded
      ensures notes == old(notes) + [Note(text, if tags.Some? then tags.value else [])]
      ensures notesSaves == old(notesSaves) + 1
    {
      var noteTags := if tags.Some? && tags.value != [] then tags.value else [];
      notes := notes + [Note(text, noteTags)];
      SaveNotes();
      return NoteAdded;
    }

    /** `search_notes_by_text`: the notes whose text contains the query,
        ignoring case, in stored order. */
    function SearchNotesByText(query: string): (r: seq<Note>)
      reads this
      ensures IsSubsequence(r, notes)
      ensures forall n :: multiset(r)[n] == if TextContains(n, query) then multiset(notes)[n] else 0
      ensures forall n :: n in r <==> n in notes && TextContains(n, query)
    {
      var keep := n => TextContains(n, query);
      FilterMembers(notes, keep);
      FilterIsSubsequence(notes, keep);
      FilterCounts(notes, keep);
      Filter(notes, keep)
    }

    /** `search_notes_by_tags`: the notes carrying a tag equal to the query,
        ignoring case, in stored order. */
    function SearchNotesByTags(tagQuery: string): (r: seq<Note>)
      reads this
      ensures IsSubsequence(r, notes)
      ensures forall n :: multiset(r)[n] == if HasTag(n, tagQuery) then multiset(notes)[n] else 0
      ensures forall n :: n in r <==> n in notes && HasTag(n, tagQuery)
    {
      var keep := n => HasTag(n, tagQuery);
      FilterMembers(notes, keep);
      FilterIsSubsequence(notes, keep);
      FilterCounts(notes, keep);
      Filter(notes, keep)
    }

    /** `edit_note`: for an index inside the list, replaces the text, and the
        tags only when non-empty new tags are given, then saves; any other
        index, negative ones included, changes nothing. */
    method EditNote(index: int, newText: string, newTags: Option<seq<string>>) returns (status: Status)
      requires Valid()
      modifies this
      ensures Valid()
      ensures contacts == old(contacts) && contactsSaves == old(contactsSaves)
      ensures !(0 <= index < |old(notes)|) ==>
        status == NoteIndexOutOfRange && notes == old(notes) && notesSaves == old(notesSaves)
      ensures 0 <= index < |old(notes)| ==>
        var tags := if newTags.Some? && newTags.value != [] then newTags.value else old(notes)[index].tags;
        status == NoteUpdated && notes == old(notes)[index := Note(newText, tags)] &&
        notesSaves == old(notesSaves) + 1
    {
      if 0 <= index < |notes| {
        notes := notes[index := notes[index].(text := newText)];
        if newTags.Some? && newTags.value != [] {
          notes := notes[index := notes[index].(tags := newTags.value)];
        }
        SaveNotes();
        return NoteUpdated;
      }
      return NoteIndexOutOfRange;
    }

    /** `delete_note`: for an index inside the list, removes that note,
        shifting the later ones down, and saves; any other index changes
        nothing. */
    method DeleteNote(index: int) returns (status: Status)
      requires Valid()
      modifies this
      ensures Valid()
      ensures contacts == old(contacts) && contactsSaves == old(contactsSaves)
      ensures !(0 <= index < |old(notes)|) ==>
        status == NoteIndexOutOfRange && notes == old(notes) && notesSaves == old(notesSaves)
      ensures 0 <= index < |old(notes)| ==>
        status == NoteDeleted && notes == old(notes)[..index] + old(notes)[index + 1..] &&
        notesSaves == old(notesSaves) + 1
    {
      if 0 <= index < |notes| {
        notes := notes[..index] + notes[index + 1..];
        SaveNotes();
        return NoteDeleted;
      }
      return NoteIndexOutOfRange;
    }

    /** `display_upcoming_birthdays`, with `datetime.now()` passed in as
        `now`: walks the contacts in order, collecting the due ones, and
        stops with the error of the first birthday it cannot place. */
    method UpcomingBirthdays(days: int, now: Instant) returns (r: Result<seq<Contact>, BirthdayError>)
      requires ValidInstant(now)
      ensures r == Upcoming(contacts, now, days)
    {
      var found := [];
      var i := 0;
      while i < |contacts|
        invariant 0 <= i <= |contacts|
        invariant Upcoming(contacts[..i], now, days) == Success(found)
      {
        var c := contacts[i];
        assert contacts[..i + 1][..i] == contacts[..i];
        match BirthdayIn(c.birthday, now.date.year)
        case Failure(e) =>
          UpcomingFailurePersists(contacts, now, days, i + 1);
          return Failure(e);
        case Success(thisYear) =>
          if 0 <= DaysFrom(now, thisYear) < days {
            found := found + [c];
          }
        i := i + 1;
      }
      assert contacts[..i] == contacts;
      return Success(found);
    }
  }
}
