/** The two kinds of record the assistant stores, the partial record that
    `edit_contact` merges over a contact, and the messages its operations
    return. */
module Records {
  import opened Wrappers

  /** One entry of `contacts`: the dictionary `add_contact` builds. The
      birthday is kept as the text the user typed; it is only parsed when
      birthdays are listed. */
  datatype Contact = Contact(name: string, address: string, phone: string, email: string, birthday: string)

  /** One entry of `notes`. */
  datatype Note = Note(text: string, tags: seq<string>)

  /** The `new_data` of `edit_contact`: each field it supplies replaces the
      contact's, each field it leaves out keeps its value. */
  datatype ContactUpdate = ContactUpdate(
    name: Option<string>, address: Option<string>, phone: Option<string>,
    email: Option<string>, birthday: Option<string>)

  /** A `new_data` that supplies nothing. */
  const NoChange := ContactUpdate(None, None, None, None, None)

  function Pick(supplied: Option<string>, current: string): (r: string)
  {
    match supplied
    case Some(v) => v
    case None => current
  }

  /** `contact.update(new_data)`. */
  function Merge(c: Contact, u: ContactUpdate): (r: Contact)
  {
    Contact(Pick(u.name, c.name), Pick(u.address, c.address), Pick(u.phone, c.phone),
            Pick(u.email, c.email), Pick(u.birthday, c.birthday))
  }

  /** `new_data` followed by `later`: the later value wins on every field both
      supply, as with two successive `dict.update` calls. */
  function Then(u: ContactUpdate, later: ContactUpdate): (r: ContactUpdate)
  {
    ContactUpdate(
      if later.name.Some? then later.name else u.name,
      if later.address.Some? then later.address else u.address,
      if later.phone.Some? then later.phone else u.phone,
      if later.email.Some? then later.email else u.email,
      if later.birthday.Some? then later.birthday else u.birthday)
  }

  /** Merging nothing changes nothing, merging twice is merging once, and two
      merges in a row are one merge of the combined update. */
  lemma MergeLaws(c: Contact, u: ContactUpdate, later: ContactUpdate)
    ensures Merge(c, NoChange) == c
    ensures Merge(Merge(c, u), u) == Merge(c, u)
    ensures Merge(Merge(c, u), later) == Merge(c, Then(u, later))
  {
  }

  /** An update that supplies only an address changes only the address. */
  lemma MergeAddressOnly(c: Contact, address: string)
    ensures Merge(c, NoChange.(address := Some(address))) == c.(address := address)
  {
  }

  /** The result strings of the operations. */
  datatype Status =
    | ContactAdded | InvalidEmail | InvalidPhone
    | ContactUpdated | ContactDeleted | ContactNotFound
    | NoteAdded | NoteUpdated | NoteDeleted | NoteIndexOutOfRange

  function Message(s: Status): (r: string)
  {
    match s
    case ContactAdded => "Contact added successfully."
    case InvalidEmail => "Invalid email format."
    case InvalidPhone => "Invalid phone number format."
    case ContactUpdated => "Contact updated."
    case ContactDeleted => "Contact deleted."
    case ContactNotFound => "Contact not found."
    case NoteAdded => "Note added with tags."
    case NoteUpdated => "Note updated."
    case NoteDeleted => "Note deleted."
    case NoteIndexOutOfRange => "Note index out of range."
  }
}
