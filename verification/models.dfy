/** The persisted records (`Tag`, `Note`, the owning user) and the store
    that holds them, with the field bounds and relational invariants the
    database schema and the views maintain. */
module Models {
  import opened Wrappers
  import opened Calendar

  const TagNameMaxLength: int := 25
  const NoteNameMaxLength: int := 50
  const NoteDescriptionMaxLength: int := 150

  /** A user with the `is_confirmed` flag of their profile. An empty email
      stands for "no email address". */
  datatype User = User(username: string, email: string, firstName: string,
                       lastName: string, isConfirmed: bool)

  datatype Tag = Tag(name: string, owner: int)

  /** A note; `tags` holds ids of `Tag` rows (the many-to-many relation). */
  datatype Note = Note(name: string, description: string, done: bool,
                       isTodo: bool, deadline: Option<Instant>,
                       createdAt: Instant, tags: set<int>, owner: int)

  /** The tables, keyed by primary key, and the next key each table's
      sequence hands out. */
  datatype Store = Store(users: map<int, User>, tags: map<int, Tag>,
                         notes: map<int, Note>, nextUserId: int,
                         nextTagId: int, nextNoteId: int)

  /** The deadline rule: a note that is not a to-do carries no deadline. */
  predicate TodoConsistent(n: Note) {
    !n.isTodo ==> n.deadline.None?
  }

  predicate TagWithinBounds(t: Tag) {
    |t.name| <= TagNameMaxLength
  }

  predicate NoteWithinBounds(n: Note) {
    |n.name| <= NoteNameMaxLength && |n.description| <= NoteDescriptionMaxLength
  }

  /** The `(name, user)` unique constraint on tags. */
  predicate UniqueTagNames(tags: map<int, Tag>) {
    forall a, b :: a in tags && b in tags && a != b ==> tags[a] != tags[b]
  }

  /** A note's tags exist and belong to the note's owner. */
  predicate TagsOwnedByNoteOwner(s: Store) {
    forall id, t :: id in s.notes && t in s.notes[id].tags ==>
      t in s.tags && s.tags[t].owner == s.notes[id].owner
  }

  /** Foreign keys to users point at existing users. */
  predicate OwnersExist(s: Store) {
    && (forall id :: id in s.tags ==> s.tags[id].owner in s.users)
    && (forall id :: id in s.notes ==> s.notes[id].owner in s.users)
  }

  predicate KeysBelowSequences(s: Store) {
    && (forall id :: id in s.users ==> id < s.nextUserId)
    && (forall id :: id in s.tags ==> id < s.nextTagId)
    && (forall id :: id in s.notes ==> id < s.nextNoteId)
  }

  predicate ValidStore(s: Store) {
    && (forall id :: id in s.tags ==> TagWithinBounds(s.tags[id]))
    && (forall id :: id in s.notes ==> NoteWithinBounds(s.notes[id]))
    && (forall id :: id in s.notes ==> TodoConsistent(s.notes[id]))
    && UniqueTagNames(s.tags)
    && TagsOwnedByNoteOwner(s)
    && OwnersExist(s)
    && KeysBelowSequences(s)
  }

  /** A freshly created note: not done, not a to-do, stamped once with `now`. */
  function NewNote(name: string, description: string, tags: set<int>,
                   owner: int, now: Instant): (n: Note)
    ensures !n.done && !n.isTodo && n.deadline.None? && n.createdAt == now
    ensures n.name == name && n.description == description
    ensures n.tags == tags && n.owner == owner
  {
    Note(name, description, false, false, None, now, tags, owner)
  }

  /** The note with key `id`, but only if `user` owns it: every note lookup
      of the views is scoped this way. */
  function OwnedNote(s: Store, user: int, id: int): (r: Option<Note>)
    ensures r.Some? <==> id in s.notes && s.notes[id].owner == user
    ensures r.Some? ==> r.value == s.notes[id]
  {
    if id in s.notes && s.notes[id].owner == user then Some(s.notes[id]) else None
  }

  function OwnedTag(s: Store, user: int, id: int): (r: Option<Tag>)
    ensures r.Some? <==> id in s.tags && s.tags[id].owner == user
    ensures r.Some? ==> r.value == s.tags[id]
  {
    if id in s.tags && s.tags[id].owner == user then Some(s.tags[id]) else None
  }

  /** Keys of the tags `user` owns. */
  function TagsOf(s: Store, user: int): (r: set<int>)
    ensures forall id :: id in r <==> id in s.tags && s.tags[id].owner == user
  {
    set id | id in s.tags && s.tags[id].owner == user
  }

  /** Deleting a user: `on_delete=CASCADE` removes their tags and notes, and
      the many-to-many rows pointing at removed tags. */
  function DeleteUser(s: Store, user: int): (r: Store)
    ensures r.users.Keys == s.users.Keys - {user}
    ensures forall id :: id in r.tags <==> id in s.tags && s.tags[id].owner != user
    ensures forall id :: id in r.notes <==> id in s.notes && s.notes[id].owner != user
    ensures forall id :: id in r.tags ==> r.tags[id] == s.tags[id]
    ensures forall id :: id in r.notes ==>
      r.notes[id] == s.notes[id].(tags := s.notes[id].tags * r.tags.Keys)
  {
    var tags := map id | id in s.tags && s.tags[id].owner != user :: s.tags[id];
    var notes := map id | id in s.notes && s.notes[id].owner != user
                   :: s.notes[id].(tags := s.notes[id].tags * tags.Keys);
    s.(users := s.users - {user}, tags := tags, notes := notes)
  }

  /** Under the store invariant the cascade only drops rows: the surviving
      notes keep all their tags, and the store stays valid. */
  lemma DeleteUserPreservesStore(s: Store, user: int)
    requires ValidStore(s)
    ensures ValidStore(DeleteUser(s, user))
    ensures forall id :: id in DeleteUser(s, user).notes ==> DeleteUser(s, user).notes[id] == s.notes[id]
  {
    var r := DeleteUser(s, user);
    forall id | id in r.notes
      ensures r.notes[id] == s.notes[id]
    {
      forall t | t in s.notes[id].tags
        ensures t in r.tags
      {
        assert s.tags[t].owner == s.notes[id].owner;
      }
      assert s.notes[id].tags * r.tags.Keys == s.notes[id].tags;
    }
  }
}
