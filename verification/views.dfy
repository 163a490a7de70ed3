/** The note application's views as transitions on the store. Every view
    acts for one logged-in user, passed explicitly, and every lookup is
    scoped to that user's rows. `isPost` says whether the request method
    is POST; the clock is the parameter `now`. */
module Views {
  import opened Wrappers
  import opened Text
  import opened Calendar
  import opened Models
  import opened Http
  import opened Decorators
  import opened NoteForms
  import opened Fields
  import opened Collections

  const PageSize: int := 9
  const DuplicateTagError: string := "You already have a tag with this name."

  // ---------------------------------------------------------------------
  // Tags
  // ---------------------------------------------------------------------

  /** `tag_list`: the requesting user's tags, nothing else. */
  function TagList(s: Store, user: int): (r: Reply)
    ensures r.store == s && r.page.Render? && r.page.template.TagListPage?
    ensures forall id :: id in r.page.template.tags <==> OwnedTag(s, user, id).Some?
  {
    Reply(s, Render(TagListPage(TagsOf(s, user))), [])
  }

  /** The submitted tag form: the name and which submit button was used. */
  datatype TagSubmission = TagSubmission(name: string, save: bool, saveAndAdd: bool)

  predicate HasTagNamed(s: Store, user: int, name: string) {
    exists id :: id in s.tags && s.tags[id] == Tag(name, user)
  }

  /** The store after inserting tag `(name, user)` under the next key. */
  function InsertTag(s: Store, name: string, user: int): Store {
    s.(tags := s.tags[s.nextTagId := Tag(name, user)], nextTagId := s.nextTagId + 1)
  }

  /** The body of `tag_create`. An `IntegrityError` from the `(name, user)`
      constraint is answered with a form error and no new row. A valid,
      new name is saved whichever button was used; only the redirect
      depends on the button. */
  function TagCreateView(s: Store, user: int, isPost: bool, form: TagSubmission): (r: Reply)
    ensures !isPost ==> r == Reply(s, Render(TagCreatePage({})), [])
    ensures isPost && CleanTagName(form.name).Failure? ==>
      r == Reply(s, Render(TagCreatePage(CleanTagName(form.name).error)), [])
    ensures isPost && CleanTagName(form.name).Success? && HasTagNamed(s, user, Strip(form.name))
      ==> r == Reply(s, Render(TagCreatePage({Added(DuplicateTagError)})), [])
    ensures isPost && CleanTagName(form.name).Success? && !HasTagNamed(s, user, Strip(form.name)) ==>
      && r.store == InsertTag(s, Strip(form.name), user)
      && r.page == (if form.save then Redirect(TagListRoute)
                    else if form.saveAndAdd then Redirect(TagCreateRoute)
                    else Render(TagCreatePage({})))
  {
    if !isPost then Reply(s, Render(TagCreatePage({})), [])
    else match CleanTagName(form.name)
      case Failure(errs) => Reply(s, Render(TagCreatePage(errs)), [])
      case Success(name) =>
        if HasTagNamed(s, user, name) then Reply(s, Render(TagCreatePage({Added(DuplicateTagError)})), [])
        else
          var s' := InsertTag(s, name, user);
          if form.save then
            Reply(s', Redirect(TagListRoute), [Message(Level.Success, "Tag was successfully created")])
          else if form.saveAndAdd then
            Reply(s', Redirect(TagCreateRoute), [Message(Level.Success, "Tag was saved. Now you can add another one")])
          else Reply(s', Render(TagCreatePage({})), [])
  }

  /** `tag_create`, behind `profile_confirmed_required`. */
  function TagCreate(s: Store, user: int, isPost: bool, form: TagSubmission): (r: Reply)
    ensures !IsConfirmed(s, user) ==> r.store == s && r.page == Redirect(ProfileRoute)
    ensures IsConfirmed(s, user) ==> r == TagCreateView(s, user, isPost, form)
  {
    ProfileConfirmedRequired((s0: Store, u: int) => TagCreateView(s0, u, isPost, form), s, user)
  }

  /** Some note uses tag `tagId`. */
  predicate TagInUse(s: Store, tagId: int) {
    exists id :: id in s.notes && tagId in s.notes[id].tags
  }

  /** `tag_delete`: only on POST, only the requester's own tag, and never a
      tag some note still uses. */
  function TagDelete(s: Store, user: int, isPost: bool, tagId: int): (r: Reply)
    ensures !isPost ==> r == Reply(s, Redirect(TagListRoute), [])
    ensures isPost && OwnedTag(s, user, tagId).None? ==> r == Reply(s, NotFound, [])
    ensures TagInUse(s, tagId) ==> r.store == s
    ensures isPost && OwnedTag(s, user, tagId).Some? ==> r.page == Redirect(TagListRoute)
    ensures isPost && OwnedTag(s, user, tagId).Some? && !TagInUse(s, tagId) ==>
      r.store == s.(tags := s.tags - {tagId})
  {
    if !isPost then Reply(s, Redirect(TagListRoute), [])
    else if OwnedTag(s, user, tagId).None? then Reply(s, NotFound, [])
    else if TagInUse(s, tagId) then
      Reply(s, Redirect(TagListRoute), [Message(Error, "Cannot delete tag: it's used by at least one note.")])
    else Reply(s.(tags := s.tags - {tagId}), Redirect(TagListRoute), [Message(Level.Success, "Tag was deleted")])
  }

  // ---------------------------------------------------------------------
  // Notes
  // ---------------------------------------------------------------------

  predicate StrictlyDecreasing(ids: seq<int>) {
    forall i, j :: 0 <= i < j < |ids| ==> ids[i] > ids[j]
  }

  /** `Note.objects.filter(user=user).order_by("-id")`. */
  method OwnedNotesNewestFirst(s: Store, user: int) returns (ids: seq<int>)
    ensures StrictlyDecreasing(ids)
    ensures forall id :: id in ids <==> OwnedNote(s, user, id).Some?
  {
    var owned := set id | id in s.notes && s.notes[id].owner == user;
    var rest := owned;
    ids := [];
    while rest != {}
      invariant rest <= owned
      invariant forall id :: id in ids <==> id in owned && id !in rest
      invariant StrictlyDecreasing(ids)
      invariant forall i, x :: 0 <= i < |ids| && x in rest ==> x < ids[i]
      decreases rest
    {
      var _ := MaxExists(rest);
      var m :| m in rest && forall x :: x in rest ==> x <= m;
      ids := ids + [m];
      rest := rest - {m};
    }
  }

  /** The head of a strictly decreasing list is its greatest element, and
      the tail holds exactly the other elements. */
  lemma HeadIsMax(a: seq<int>)
    requires StrictlyDecreasing(a) && a != []
    ensures a[0] in a
    ensures forall x :: x in a ==> x <= a[0]
    ensures forall x :: x in a[1..] <==> x in a && x != a[0]
  {
    assert a == [a[0]] + a[1..];
    forall x | x in a[1..]
      ensures x < a[0]
    {
      var i :| 0 <= i < |a[1..]| && a[1..][i] == x;
      assert a[i + 1] == x;
    }
  }

  /** A strictly decreasing list is fixed by its elements: the newest-first
      listing of a set of ids is unique. */
  lemma {:induction false} DecreasingUnique(a: seq<int>, b: seq<int>)
    requires StrictlyDecreasing(a) && StrictlyDecreasing(b)
    requires forall x :: x in a <==> x in b
    ensures a == b
    decreases |a|
  {
    if a == [] {
      if b != [] {
        HeadIsMax(b);
        assert false;
      }
    } else if b == [] {
      HeadIsMax(a);
      assert false;
    } else {
      HeadIsMax(a);
      HeadIsMax(b);
      assert a[0] == b[0];
      DecreasingUnique(a[1..], b[1..]);
      assert a == [a[0]] + a[1..] && b == [b[0]] + b[1..];
    }
  }

  function Min(a: int, b: int): int {
    if a < b then a else b
  }

  /** The number of pages `Paginator` makes of `n` items; an empty list
      still has one (empty) page. */
  function PageCount(n: nat): (c: int)
    ensures c >= 1
    ensures (c - 1) * PageSize <= n
    ensures n <= c * PageSize
  {
    if n == 0 then 1 else (n + PageSize - 1) / PageSize
  }

  /** `Paginator(notes, 9).get_page(number)`: a missing or non-numeric page
      number means page 1; a number outside `1..num_pages` means the last
      page. Page `k` is the `k`-th run of 9 ids, every page but the last is
      full. */
  function PageOf(ids: seq<int>, number: Option<int>): (r: seq<int>)
    ensures |r| <= PageSize
    ensures exists start :: 0 <= start && start + |r| <= |ids| && start % PageSize == 0
                            && r == ids[start..start + |r|]
    ensures forall x :: x in r ==> x in ids
    ensures StrictlyDecreasing(ids) ==> StrictlyDecreasing(r)
    ensures ids != [] ==> r != []
    ensures number.None? || number == Some(1) ==> r == ids[..Min(|ids|, PageSize)]
    ensures number.Some? && 1 <= number.value <= PageCount(|ids|) ==>
      r == ids[(number.value - 1) * PageSize..Min(number.value * PageSize, |ids|)]
    ensures number.Some? && 1 <= number.value < PageCount(|ids|) ==> |r| == PageSize
    ensures number.Some? && !(1 <= number.value <= PageCount(|ids|)) ==>
      r == ids[(PageCount(|ids|) - 1) * PageSize..]
  {
    var pages := PageCount(|ids|);
    var k := if number.None? then 1
             else if number.value < 1 || number.value > pages then pages
             else number.value;
    var start := (k - 1) * PageSize;
    var stop := Min(start + PageSize, |ids|);
    assert start % PageSize == 0;
    ids[start..stop]
  }

  /** `note_list`: the page of the user's notes, newest first. */
  method NoteList(s: Store, user: int, number: Option<int>) returns (r: Reply)
    ensures r.store == s && r.page.Render? && r.page.template.NoteListPage?
    ensures |r.page.template.noteIds| <= PageSize
    ensures StrictlyDecreasing(r.page.template.noteIds)
    ensures forall id :: id in r.page.template.noteIds ==> OwnedNote(s, user, id).Some?
    ensures forall id :: OwnedNote(s, user, id).Some? ==> r.page.template.noteIds != []
    ensures forall ordered :: StrictlyDecreasing(ordered)
                              && (forall id :: id in ordered <==> OwnedNote(s, user, id).Some?)
                              ==> r.page.template.noteIds == PageOf(ordered, number)
  {
    var all := OwnedNotesNewestFirst(s, user);
    var page := PageOf(all, number);
    forall ordered | StrictlyDecreasing(ordered)
                     && (forall id :: id in ordered <==> OwnedNote(s, user, id).Some?)
      ensures page == PageOf(ordered, number)
    {
      DecreasingUnique(all, ordered);
    }
    forall id | OwnedNote(s, user, id).Some?
      ensures page != []
    {
      assert id in all;
    }
    r := Reply(s, Render(NoteListPage(page)), []);
  }

  /** `note_detail`. */
  function NoteDetail(s: Store, user: int, id: int): (r: Reply)
    ensures r.store == s
    ensures r.page == NotFound <==> OwnedNote(s, user, id).None?
  {
    if OwnedNote(s, user, id).None? then Reply(s, NotFound, [])
    else Reply(s, Render(NoteDetailPage(id)), [])
  }

  /** The store with note `id` replaced by `n`. */
  function UpdateNote(s: Store, id: int, n: Note): Store {
    s.(notes := s.notes[id := n])
  }

  /** `note_toggle_status`: on POST flips `done`, and a to-do note stops being
      one and loses its deadline; nothing else of the note changes. */
  function NoteToggleStatus(s: Store, user: int, id: int, isPost: bool): (r: Reply)
    ensures OwnedNote(s, user, id).None? ==> r == Reply(s, NotFound, [])
    ensures OwnedNote(s, user, id).Some? && !isPost ==> r.store == s && r.page == Redirect(NoteDetailRoute(id))
    ensures OwnedNote(s, user, id).Some? && isPost ==>
      var n := s.notes[id];
      && r.page == Redirect(NoteListRoute)
      && r.store.notes.Keys == s.notes.Keys
      && r.store == UpdateNote(s, id, r.store.notes[id])
      && r.store.notes[id].done == !n.done
      && (n.isTodo ==> !r.store.notes[id].isTodo && r.store.notes[id].deadline.None?)
      && (!n.isTodo ==> r.store.notes[id].deadline == n.deadline && !r.store.notes[id].isTodo)
      && r.store.notes[id] == n.(done := r.store.notes[id].done, isTodo := r.store.notes[id].isTodo,
                                 deadline := r.store.notes[id].deadline)
  {
    match OwnedNote(s, user, id)
    case None => Reply(s, NotFound, [])
    case Some(n) =>
      if isPost then
        var flipped := n.(done := !n.done);
        var n' := if n.isTodo then flipped.(isTodo := false, deadline := None) else flipped;
        Reply(UpdateNote(s, id, n'), Redirect(NoteListRoute), [Message(Level.Success, "Note status was changed")])
      else
        Reply(s, Redirect(NoteDetailRoute(id)), [Message(Info, "Status change allowed only via POST")])
  }

  /** The requester's tags whose names were selected: `Tag.objects.filter(
      name__in=names, user=user)`. */
  function ChosenTags(s: Store, user: int, names: seq<string>): (r: set<int>)
    ensures r <= TagsOf(s, user)
    ensures forall id :: id in r <==> id in s.tags && s.tags[id].owner == user && s.tags[id].name in names
  {
    set id | id in s.tags && s.tags[id].owner == user && s.tags[id].name in names
  }

  /** The body of `note_create`: refused while the user owns no tag; the new
      note's tags are only the requester's own selected tags. */
  function NoteCreateView(s: Store, user: int, isPost: bool, form: NoteSubmission, now: Instant): (r: Reply)
    ensures TagsOf(s, user) == {} ==> r.store == s && r.page == Redirect(TagCreateRoute)
    ensures !isPost || CleanNote(form).None? ==> r.store == s
    ensures TagsOf(s, user) != {} && isPost && CleanNote(form).Some? ==>
      && r.store == s.(notes := s.notes[s.nextNoteId := NewNote(CleanNote(form).value.0, CleanNote(form).value.1,
                                                               ChosenTags(s, user, form.tagNames), user, now)],
                       nextNoteId := s.nextNoteId + 1)
      && r.store.notes[s.nextNoteId].tags <= TagsOf(s, user)
      && r.page == Redirect(NoteListRoute)
  {
    if TagsOf(s, user) == {} then
      Reply(s, Redirect(TagCreateRoute),
            [Message(Warning, "You must create at least one tag before creating a note. Please create a tag now.")])
    else if !isPost then Reply(s, Render(NoteFormPage(false)), [])
    else match CleanNote(form)
      case None => Reply(s, Render(NoteFormPage(false)), [])
      case Some((name, description)) =>
        var n := NewNote(name, description, ChosenTags(s, user, form.tagNames), user, now);
        var s' := s.(notes := s.notes[s.nextNoteId := n], nextNoteId := s.nextNoteId + 1);
        assert s'.nextNoteId != s.nextNoteId;
        Reply(s', Redirect(NoteListRoute), [Message(Level.Success, "Note was created!")])
  }

  /** `note_create`, behind `profile_confirmed_required`. */
  function NoteCreate(s: Store, user: int, isPost: bool, form: NoteSubmission, now: Instant): (r: Reply)
    ensures !IsConfirmed(s, user) ==> r.store == s && r.page == Redirect(ProfileRoute)
    ensures IsConfirmed(s, user) ==> r == NoteCreateView(s, user, isPost, form, now)
  {
    ProfileConfirmedRequired((s0: Store, u: int) => NoteCreateView(s0, u, isPost, form, now), s, user)
  }

  /** `note_edit`: replaces name, description and tags of the requester's own
      note; the tags kept are only the requester's own selected tags, and
      `done`, the to-do state and `created_at` are left alone. */
  function NoteEdit(s: Store, user: int, id: int, isPost: bool, form: NoteSubmission): (r: Reply)
    ensures OwnedNote(s, user, id).None? ==> r == Reply(s, NotFound, [])
    ensures !isPost || CleanNote(form).None? ==> r.store == s
    ensures OwnedNote(s, user, id).Some? && isPost && CleanNote(form).Some? ==>
      && r.store == UpdateNote(s, id, s.notes[id].(name := CleanNote(form).value.0,
                                                   description := CleanNote(form).value.1,
                                                   tags := ChosenTags(s, user, form.tagNames)))
      && r.store.notes[id].tags <= TagsOf(s, user)
      && r.page == Redirect(NoteListRoute)
  {
    match OwnedNote(s, user, id)
    case None => Reply(s, NotFound, [])
    case Some(n) =>
      if !isPost then Reply(s, Render(NoteFormPage(true)), [])
      else match CleanNote(form)
        case None => Reply(s, Render(NoteFormPage(true)), [])
        case Some((name, description)) =>
          var n' := n.(name := name, description := description, tags := ChosenTags(s, user, form.tagNames));
          Reply(UpdateNote(s, id, n'), Redirect(NoteListRoute), [Message(Level.Success, "Note was edited!")])
  }

  /** `note_delete`: only on POST, only the requester's own note. */
  function NoteDelete(s: Store, user: int, id: int, isPost: bool): (r: Reply)
    ensures !isPost ==> r == Reply(s, Redirect(NoteListRoute), [])
    ensures isPost && OwnedNote(s, user, id).None? ==> r == Reply(s, NotFound, [])
    ensures isPost && OwnedNote(s, user, id).Some? ==>
      r.store == s.(notes := s.notes - {id}) && r.page == Redirect(NoteListRoute)
  {
    if !isPost then Reply(s, Redirect(NoteListRoute), [])
    else if OwnedNote(s, user, id).None? then Reply(s, NotFound, [])
    else Reply(s.(notes := s.notes - {id}), Redirect(NoteListRoute), [Message(Level.Success, "Note was deleted!")])
  }

  /** `note_toggle_todo`: a note that is not a to-do is sent to the deadline
      form untouched; a to-do note stops being one, and loses its deadline,
      only on POST. */
  function NoteToggleTodo(s: Store, user: int, id: int, isPost: bool): (r: Reply)
    ensures OwnedNote(s, user, id).None? ==> r == Reply(s, NotFound, [])
    ensures OwnedNote(s, user, id).Some? && !s.notes[id].isTodo ==>
      r == Reply(s, Redirect(NoteSetDeadlineRoute(id)), [])
    ensures OwnedNote(s, user, id).Some? && s.notes[id].isTodo && !isPost ==>
      r.store == s && r.page == Redirect(NoteListRoute)
    ensures OwnedNote(s, user, id).Some? && s.notes[id].isTodo && isPost ==>
      r.store == UpdateNote(s, id, s.notes[id].(isTodo := false, deadline := None))
      && r.page == Redirect(NoteListRoute)
  {
    match OwnedNote(s, user, id)
    case None => Reply(s, NotFound, [])
    case Some(n) =>
      if !n.isTodo then Reply(s, Redirect(NoteSetDeadlineRoute(id)), [])
      else if isPost then
        Reply(UpdateNote(s, id, n.(isTodo := false, deadline := None)), Redirect(NoteListRoute),
              [Message(Level.Success, "Note is no longer in To-Do mode")])
      else
        Reply(s, Redirect(NoteListRoute), [Message(Error, "ToDo mode can be disabled only via POST request.")])
  }

  /** `note_set_deadline`. `submitted` is the deadline field of the posted
      form, `None` when the form does not validate. A deadline before `now`
      is refused and changes nothing; otherwise the note becomes a not-done
      to-do with that deadline. */
  function NoteSetDeadline(s: Store, user: int, id: int, isPost: bool,
                           submitted: Option<Instant>, now: Instant): (r: Reply)
    ensures OwnedNote(s, user, id).None? ==> r == Reply(s, NotFound, [])
    ensures !isPost || submitted.None? ==> r.store == s
    ensures submitted.Some? && submitted.value < now ==> r.store == s
    ensures OwnedNote(s, user, id).Some? && isPost && submitted.Some? && submitted.value < now ==>
      r.page == Redirect(NoteSetDeadlineRoute(id))
    ensures OwnedNote(s, user, id).Some? && isPost && submitted.Some? && now <= submitted.value ==>
      r.store == UpdateNote(s, id, s.notes[id].(deadline := submitted, isTodo := true, done := false))
      && r.page == Redirect(NoteListRoute)
  {
    match OwnedNote(s, user, id)
    case None => Reply(s, NotFound, [])
    case Some(n) =>
      if !isPost then Reply(s, Render(SetDeadlinePage(id)), [])
      else match submitted
        case None => Reply(s, Render(SetDeadlinePage(id)), [Message(Error, "Please choose a valid date and time.")])
        case Some(deadline) =>
          if deadline < now then
            Reply(s, Redirect(NoteSetDeadlineRoute(id)), [Message(Warning, "Choose datetime in the future.")])
          else
            var n' := n.(deadline := Some(deadline), isTodo := true, done := false);
            Reply(UpdateNote(s, id, n'), Redirect(NoteListRoute),
                  [Message(Level.Success, "\"" + n.name + "\" is now a To-Do with deadline set!")])
  }

  // ---------------------------------------------------------------------
  // The store invariant, including "not a to-do => no deadline", holds
  // after every view.
  // ---------------------------------------------------------------------

  lemma UpdateNoteKeepsStore(s: Store, id: int, n: Note)
    requires ValidStore(s) && id in s.notes
    requires n.owner == s.notes[id].owner
    requires NoteWithinBounds(n) && TodoConsistent(n)
    requires forall t :: t in n.tags ==> t in s.tags && s.tags[t].owner == n.owner
    ensures ValidStore(UpdateNote(s, id, n))
  {
  }

  lemma TagCreatePreservesStore(s: Store, user: int, isPost: bool, form: TagSubmission)
    requires ValidStore(s)
    ensures ValidStore(TagCreate(s, user, isPost, form).store)
  {
    var r := TagCreate(s, user, isPost, form);
    if r.store != s {
      var name := Strip(form.name);
      assert r.store == InsertTag(s, name, user);
      forall a, b | a in r.store.tags && b in r.store.tags && a != b
        ensures r.store.tags[a] != r.store.tags[b]
      {
        if a == s.nextTagId || b == s.nextTagId {
          var other := if a == s.nextTagId then b else a;
          assert other in s.tags;
          assert s.tags[other] != Tag(name, user);
        }
      }
    }
  }

  lemma TagDeletePreservesStore(s: Store, user: int, isPost: bool, tagId: int)
    requires ValidStore(s)
    ensures ValidStore(TagDelete(s, user, isPost, tagId).store)
  {
    var r := TagDelete(s, user, isPost, tagId);
    if r.store != s {
      forall id, t | id in r.store.notes && t in r.store.notes[id].tags
        ensures t in r.store.tags
      {
        assert t != tagId;
      }
    }
  }

  lemma NoteCreatePreservesStore(s: Store, user: int, isPost: bool, form: NoteSubmission, now: Instant)
    requires ValidStore(s)
    ensures ValidStore(NoteCreate(s, user, isPost, form, now).store)
  {
    var r := NoteCreate(s, user, isPost, form, now);
    if r.store != s {
      assert r == NoteCreateView(s, user, isPost, form, now);
      var n := r.store.notes[s.nextNoteId];
      assert n.owner == user && TodoConsistent(n) && NoteWithinBounds(n);
      assert forall t :: t in n.tags ==> t in s.tags && s.tags[t].owner == user;
    }
  }

  lemma NoteEditPreservesStore(s: Store, user: int, id: int, isPost: bool, form: NoteSubmission)
    requires ValidStore(s)
    ensures ValidStore(NoteEdit(s, user, id, isPost, form).store)
  {
    var r := NoteEdit(s, user, id, isPost, form);
    if r.store != s {
      UpdateNoteKeepsStore(s, id, r.store.notes[id]);
    }
  }

  lemma NoteDeletePreservesStore(s: Store, user: int, id: int, isPost: bool)
    requires ValidStore(s)
    ensures ValidStore(NoteDelete(s, user, id, isPost).store)
  {
  }

  lemma NoteToggleStatusPreservesStore(s: Store, user: int, id: int, isPost: bool)
    requires ValidStore(s)
    ensures ValidStore(NoteToggleStatus(s, user, id, isPost).store)
  {
    var r := NoteToggleStatus(s, user, id, isPost);
    if r.store != s {
      UpdateNoteKeepsStore(s, id, r.store.notes[id]);
    }
  }

  lemma NoteToggleTodoPreservesStore(s: Store, user: int, id: int, isPost: bool)
    requires ValidStore(s)
    ensures ValidStore(NoteToggleTodo(s, user, id, isPost).store)
  {
    var r := NoteToggleTodo(s, user, id, isPost);
    if r.store != s {
      UpdateNoteKeepsStore(s, id, r.store.notes[id]);
    }
  }

  lemma NoteSetDeadlinePreservesStore(s: Store, user: int, id: int, isPost: bool,
                                      submitted: Option<Instant>, now: Instant)
    requires ValidStore(s)
    ensures ValidStore(NoteSetDeadline(s, user, id, isPost, submitted, now).store)
  {
    var r := NoteSetDeadline(s, user, id, isPost, submitted, now);
    if r.store != s {
      UpdateNoteKeepsStore(s, id, r.store.notes[id]);
    }
  }
}
