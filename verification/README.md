# Smart notes: deadlines, reminders and note/tag rules in Dafny

A model of the logic core of a small multi-tenant note-taking application.
Users own tags and notes. A note can be switched into to-do mode with a
deadline. A periodic job scans the to-do notes. It archives those whose
deadline has passed and enqueues one reminder job per note due within a day.
Each reminder job mails the owner once, or asks the queue for a retry when
the mail transport fails.

The model is functional. Users, tags and notes are immutable records held
in finite maps keyed by primary key (`Models.Store`). Every view is a pure
transition on the store for one explicitly passed user, returning the new
store, the page (redirect target, rendered template, or 404) and the queued
flash messages (`Http.Reply`). The clock (`now`), the transport's answer and
the queue's retry count are parameters.

Modules, one per source file or component:

- `Calendar`: datetimes as whole seconds (`Instant`), CPython's proleptic
  Gregorian day arithmetic, and the `YYYY-MM-DD HH:MM` rendering with its
  parser.
- `Text`: Python's `str()` of integers, zero padding, `str.strip()`.
- `Models`: `User`, `Tag`, `Note`, `Store`, the field bounds, the
  `(name, user)` uniqueness and the invariant "not a to-do ⇒ no deadline".
- `Tasks`: the deadline scan and the reminder job.
- `Views`, `Http`, `Decorators`, `NoteForms`: the note application's views,
  their replies, the confirmation gate and the forms.
- `Fields`: how Django's required `CharField` cleans a value and which
  errors it reports.
- `UserForms`: the sign-up form. `Tokens`: the activation-token hash input.
- `CustomFilters`: the `extract_tags` template filter.
- `Scenarios`: properties that span the scan, the views and the job.
- `Collections`, `Wrappers`: generic helpers.

Timestamps are seconds since 0001-01-01 00:00 UTC, bounded by year 9999 as
Python's `datetime` is. "One day" is the constant 86400.

## Model

| member | source | states |
|---|---|---|
| Tasks.CheckDeadlines | notes_app/tasks.py:22-48 | Archives exactly the to-do notes whose deadline is at or before `now`. Enqueues each note due in `(now, now+1 day]` exactly once and leaves it unmodified. Touches nothing beyond a day. With no candidates it changes nothing and enqueues nothing. |
| Tasks.ArchiveSet | notes_app/tasks.py:25-37 | A note is archived iff it is a to-do, has a deadline, and the deadline is at or before `now`. |
| Tasks.NotifySet | notes_app/tasks.py:25-39 | A note gets a reminder iff it is a to-do with a deadline in `(now, now + 1 day]`. |
| Tasks.BulkArchive | notes_app/tasks.py:41-42 | The bulk update keeps the set of notes. It clears `is_todo` and `deadline` on the listed notes only, and leaves every other field and note unchanged. |
| Tasks.ScanTwice | notes_app/tasks.py:25-42 | A second scan at the same `now` archives nothing, because archived notes no longer match the query. It enqueues the same reminders again (at-least-once delivery). |
| Tasks.BulkArchivePreservesStore | notes_app/tasks.py:42 | The bulk archive keeps every store invariant, including "not a to-do ⇒ no deadline". |
| Tasks.ReminderBody | notes_app/tasks.py:70-78 | The reminder text contains the username, then the note title, then the deadline as `YYYY-MM-DD HH:MM`, each at a stated position. The deadline text parses back to the deadline's calendar minute. |
| Tasks.ReminderMail | notes_app/tasks.py:67-88 | The mail goes to exactly `[owner.email]`, with the fixed subject and the configured sender. Its body is the reminder text for the owner's username, the note's name and its deadline. |
| Tasks.Deliver | notes_app/tasks.py:51 | Delivered means sent. A transport failure means a retry carrying the original error after 120 units, while fewer than 3 retries were made. After that the original error is re-raised. |
| Tasks.SendNotification | notes_app/tasks.py:52-92 | A missing note, or an owner missing or without email, ends the job without mail and without retry. So does a note without a deadline. Otherwise the job makes one delivery attempt of the reminder mail and never crashes. |
| Tasks.SendNotificationAsWritten | notes_app/tasks.py:57-78 | As written, a note that exists, whose owner has an email, but that has no deadline, makes the job crash. Every other case behaves like the guarded job. |
| Tasks.NoReminderAfterArchive | notes_app/tasks.py:57-65 | In a valid store, the job never mails or retries for a note that is no longer a to-do. |
| Scenarios.ReminderAfterToDoSwitchedOff | notes_app/tasks.py:74 | Suppose the scan enqueues a reminder and the owner then switches to-do mode off. The job as written crashes. The guarded job skips the note. |
| Scenarios.ReminderAfterMarkedDone | notes_app/tasks.py:74 | Suppose the scan enqueues a reminder and the owner then marks the note done. The job as written crashes. The guarded job skips the note. |
| Scenarios.ScanExample | notes_app/tasks.py:35-39 | At 2024-01-01 12:00, the note due at 11:00 is archived and the note due at 18:00 is reminded. The note due four days later and the non-to-do note are neither. |
| Calendar.FromInstant | notes_app/tasks.py:74 | Every instant reads as a valid calendar datetime, and that datetime converts back to the same instant. |
| Calendar.FromToInstant | notes_app/tasks.py:74 | Every valid calendar datetime converts to an instant that reads back as the same datetime. |
| Calendar.ParseFormat | notes_app/tasks.py:74 | The `%Y-%m-%d %H:%M` rendering parses back to the datetime's fields, with the seconds dropped. |
| Calendar.FormatDeterminesMinute | notes_app/tasks.py:74 | Two deadlines render to the same text iff they fall in the same minute. |
| Text.Pad | notes_app/tasks.py:74 | Zero padding yields exactly `width` digits that denote the number. |
| Models.NewNote | notes_app/models.py:24-25 | A new note is not done, not a to-do, has no deadline, and is stamped with the creation time. |
| Models.OwnedNote | notes_app/views.py:118 | A note lookup succeeds iff the note exists and the requester owns it. Another user's id behaves as not found. |
| Models.OwnedTag | notes_app/views.py:75 | A tag lookup succeeds iff the tag exists and the requester owns it. |
| Models.DeleteUser | notes_app/models.py:6-27 | Deleting a user removes that user and exactly their tags and notes, and drops links to removed tags. |
| Models.DeleteUserPreservesStore | notes_app/models.py:13-27 | The cascade keeps the store valid, and every surviving note is unchanged. |
| Views.TagList | notes_app/views.py:16-22 | The tag list shows exactly the requester's own tags. |
| Views.TagCreateView | notes_app/views.py:42-66 | Without POST nothing is created and an empty form is shown. An invalid name creates nothing and the form shows the field's errors. A `(name, user)` that already exists creates nothing and becomes the form's only error. Otherwise the tag (stripped name, requester) is inserted under the next tag key. The submit button then decides the redirect: `save` goes to the tag list, `save_and_add` back to the form, and neither re-renders the submitted form with no errors. |
| Views.TagCreate | notes_app/views.py:25-27 | For an unconfirmed user nothing is created and the reply is a redirect to the profile. Otherwise the reply is the view's reply. |
| Views.TagDelete | notes_app/views.py:69-86 | Without POST nothing changes. Another user's tag is not found. A tag used by any note is never removed. On POST the requester's unused tag is removed. A POST on the requester's own tag always redirects to the tag list. |
| Views.OwnedNotesNewestFirst | notes_app/views.py:100 | Lists exactly the requester's notes, in strictly decreasing id order. |
| Views.PageOf | notes_app/views.py:102-104 | Page `k` of `1..num_pages` is the `k`-th run of 9 ids, and every page before the last is full. A missing page number gives page 1. A number outside `1..num_pages` gives the last page. A page is non-empty when the list is. |
| Views.DecreasingUnique | notes_app/views.py:100 | Two strictly decreasing lists with the same elements are equal, so the newest-first listing of the requester's notes is unique. |
| Views.NoteList | notes_app/views.py:92-106 | The list page is the requested page of the requester's notes in newest-first order. It is non-empty when the requester owns a note, and it changes nothing. |
| Views.NoteDetail | notes_app/views.py:109-119 | The detail page is a 404 iff the note is not the requester's. It changes nothing. |
| Views.NoteToggleStatus | notes_app/views.py:122-148 | On POST, `done` is negated. A to-do note also stops being a to-do and loses its deadline. Name, description, tags, owner and creation time are unchanged. Without POST nothing changes. Another user's note is not found. |
| Views.ChosenTags | notes_app/views.py:184-186 | The selected tags are exactly those of the requester's tags whose names were submitted. |
| Views.NoteCreateView | notes_app/views.py:169-200 | A user with no tags is sent to tag creation and nothing changes. Without POST, or with an invalid form, nothing changes. Otherwise the note is inserted under the next note key with the fresh-note defaults and the chosen tags, which are the requester's own. The reply redirects to the list. |
| Views.NoteCreate | notes_app/views.py:151-153 | For an unconfirmed user nothing is created. Otherwise the reply is the view's reply. |
| Views.NoteEdit | notes_app/views.py:203-241 | On a valid POST, the note's name and description become the cleaned values and its tags become the chosen tags, which are the requester's own. Done, to-do state, deadline and creation time are kept. Without POST, or with an invalid form, nothing changes. Another user's note is not found. |
| Views.NoteDelete | notes_app/views.py:244-258 | Only a POST removes a note, and only the requester's own. |
| Views.NoteToggleTodo | notes_app/views.py:261-283 | A note that is not a to-do is unchanged and redirected to the deadline form. A to-do note loses to-do mode and its deadline on POST only. |
| Views.NoteSetDeadline | notes_app/views.py:286-322 | A deadline earlier than `now` is refused and changes nothing. Otherwise, on POST, the note gets that deadline, becomes a to-do and is marked not done. |
| Views.TagCreatePreservesStore | notes_app/views.py:44-61 | Tag creation keeps the store valid, including `(name, user)` uniqueness and the 25-character bound. |
| Views.TagDeletePreservesStore | notes_app/views.py:74-84 | Tag deletion keeps every note's tags existing and owned by the note's owner. |
| Views.NoteCreatePreservesStore | notes_app/views.py:180-189 | Note creation keeps the store valid. |
| Views.NoteEditPreservesStore | notes_app/views.py:224-231 | Note editing keeps the store valid. |
| Views.NoteDeletePreservesStore | notes_app/views.py:252-254 | Note deletion keeps the store valid. |
| Views.NoteToggleStatusPreservesStore | notes_app/views.py:138-143 | Toggling the status keeps "not a to-do ⇒ no deadline" and the rest of the invariant. |
| Views.NoteToggleTodoPreservesStore | notes_app/views.py:274-277 | Leaving to-do mode keeps "not a to-do ⇒ no deadline" and the rest of the invariant. |
| Views.NoteSetDeadlinePreservesStore | notes_app/views.py:304-313 | Setting a deadline keeps "not a to-do ⇒ no deadline" and the rest of the invariant. |
| Decorators.ProfileConfirmedRequired | notes_app/decorators.py:7-21 | For a confirmed profile, the wrapped view runs on the same arguments and its reply is returned unchanged. Otherwise the view does not run and the store is unchanged. The reply is then a redirect to the profile with exactly one info message. |
| Fields.CharFieldErrors | notes_app/forms.py:7 | A required `CharField` strips the value. An empty value gets only "required". Otherwise it gets "too short", "too long" and "null character" exactly when each applies. There are no errors iff the stripped value is in bounds and holds no null character. |
| NoteForms.CleanTagName | notes_app/forms.py:6-11 | The name is accepted iff its stripped length is 3 to 25 and it holds no null character. A refused name reports each failed rule. An accepted name is the stripped input and fits the model's 25-character column. Only the name comes from the form. |
| NoteForms.CleanNote | notes_app/models.py:22-23 | The note form is accepted iff the stripped name is 1 to 50 characters, the stripped description is 1 to 150, and neither holds a null character. |
| CustomFilters.ShortNames | notes_app/templatetags/custom_filters.py:7 | The filtered list is an order-preserving subsequence of the input. It holds each name of at most 10 characters exactly as often as the input does, and no other name. |
| CustomFilters.ExtractTags | notes_app/templatetags/custom_filters.py:7 | The result is at most 5 names, each at most 10 characters, and an order-preserving subsequence of the input. It is exactly the first 5 short names, or all of them when there are at most 5. |
| CustomFilters.ExtractTagsIdempotent | notes_app/templatetags/custom_filters.py:7 | Applying the filter to its own result changes nothing. |
| UserForms.SignUpErrors | users_app/forms.py:7-43 | After stripping, first and last name must be 2 to 150 characters, the email 1 to 254 and valid, and both passwords 1 to 50. No field may hold a null character. Mismatched or rejected passwords are an error on `password2`. |
| UserForms.CleanSignUp | users_app/forms.py:6-47 | The form is valid iff no field has an error. Its cleaned values are then the stripped inputs, they respect every bound, and the two passwords agree. |
| UserForms.NormalizeEmail | users_app/forms.py:45-47 | The email normalization the form's model validation applies: an address without `@` is kept as it is; otherwise the stripped address keeps everything up to its last `@` and the rest is lowercased, with the same length. |
| UserForms.NormalizesTo | users_app/forms.py:45-47 | An unpadded `local@domain` with no `@` in the domain normalizes to `local@` followed by the lowercased domain, so the local part is kept exactly. |
| UserForms.DomainCaseIgnored | users_app/forms.py:45-47 | Two unpadded addresses with the same local part whose domains differ only in letter case normalize to the same address. |
| UserForms.SaveSignUp | users_app/forms.py:49-54 | The saved user's username and email are the normalized email, and its names are the submitted ones. Without commit nothing is stored. With commit the user is inserted under the next key, and the save is refused exactly when a user already has that normalized address as username. |
| UserForms.SecondSignUpRefused | users_app/forms.py:49-54 | After one sign-up is saved with commit, any sign-up whose email normalizes to the same address (for instance one differing only in domain case) is refused, because the first took the username. |
| UserForms.SignUpUsernameIsEmail | users_app/forms.py:51 | For a valid form, the saved user's username is the submitted email, stripped and with its domain lowercased. |
| UserForms.ShortFirstNameRefused | users_app/tests/test_forms.py:77 | A first name shorter than 2 characters, like "J", is refused. |
| UserForms.ShortLastNameRefused | users_app/tests/test_forms.py:78 | A last name shorter than 2 characters, like "D", is refused. |
| UserForms.PasswordMismatchRefused | users_app/tests/test_forms.py:80 | Two different well-formed passwords are refused on `password2`. |
| UserForms.WellFormedSignUpAccepted | users_app/tests/test_forms.py:76 | A row with in-bounds fields without surrounding whitespace or null characters, matching passwords, and an email and password the validators accept has no errors. |
| Tokens.HashValue | users_app/tokens.py:5-6 | The hash input starts with `str(pk)`, followed by the timestamp's digits, which read back as the timestamp. It ends in "True" or "False" according to the confirmation flag, and nothing lies between the three parts. |
| Tokens.HashValueTracksConfirmation | users_app/tokens.py:6 | Two hash inputs with the same key and timestamp are equal iff the flags are equal. A token issued before confirmation stops matching after it. |
| Tokens.HashValueHasNoSeparator | users_app/tokens.py:6 | The pairs (1, 23) and (12, 3) give the same hash input, because the fields are joined without a separator. |
| Text.IntToString | users_app/tokens.py:6 | `str()` of an integer starts with `-` iff the integer is negative, and parses back to it. |

`HashValue` is a function, so equal inputs give equal strings by construction.

## Findings

| source | as written | input that shows it | evidently intended | confidence | as-written member | corrected member |
|---|---|---|---|---|---|---|
| notes_app/tasks.py:74 | The reminder job calls `note.deadline.strftime(...)` without checking the deadline. | The scan enqueues note `id` as due within a day. The owner then POSTs `note_toggle_todo` or `note_toggle_status` for it, which sets `deadline = None`. The job then raises `AttributeError` on `None`. | Skip the note like a vanished note: no mail and no retry. | medium, not executed | Tasks.SendNotificationAsWritten | Tasks.SendNotification |

The rest of the model uses `Tasks.SendNotification`. The lemmas
`Scenarios.ReminderAfterToDoSwitchedOff` and `Scenarios.ReminderAfterMarkedDone`
show the crash for the as-written job and the skip for the guarded job.

Where the code and its description differ, the model follows the code:

- `notes_app/models.py:21-27` declares no `is_todo` or `deadline` field on
  `Note`. `views.py` and `tasks.py` read and write both, so `Models.Note`
  carries them.
- `views.py` imports `NoteForm` and `NoteTodoForm` from `notes_app/forms.py`,
  but that file defines only `TagForm`. Those two forms are not part of this
  model. `NoteForms.CleanNote` takes the model's column bounds as the note
  form's rules. The deadline form is represented only by whether it yields a
  deadline.
- `tag_create` saves the tag even when neither `save` nor `save_and_add` was
  submitted. In that case it re-renders the submitted form, with no errors,
  and the model does the same.
- `note_set_deadline` refuses only deadlines strictly before `now`, so a
  deadline equal to `now` is accepted. The next scan then archives it.

## Left out

- Mail transport, Celery wiring and `.delay`. The transport's answer is the
  parameter `MailOutcome`, the enqueued jobs are the returned id sequence,
  and the queue's retry count is a parameter.
- Concurrent reminder workers. They share no state, and duplicate reminders
  are accepted.
- Logging and the messages framework beyond the message level and text.
  Templates and URL routing are reduced to the template or route name.
- The clock and time zones. `now` is an injected `Instant`, and deadlines
  are rendered in UTC.
- Sub-second precision of `datetime`. Instants are whole seconds.
- Calendar.Format: pads years below 1000 to four digits. `strftime('%Y')`
  does not do so on every platform.
- Text.Strip: strips the ASCII characters Python's `str.strip()` removes
  (tab to carriage return, 0x1C-0x1F, space), but not the non-ASCII
  whitespace it also removes, such as U+0085, U+00A0 and U+2028.
- UserForms.SignUpErrors: email syntax and password strength are
  parameters. Their validators live in framework settings that are not part
  of this model. The password validators also see the user instance, which
  is not modelled.
- UserForms.SaveSignUp: always inserts an email of 151 to 254 characters,
  although `save` copies it into the 150-character `username` column. Some
  database backends refuse such a row and others store it, and the backend
  is configuration outside this model.
- UserForms.NormalizeEmail: lowercases only the ASCII letters of the
  domain. Python's `str.lower()` also lowercases non-ASCII letters, so two
  domains that differ only in the case of a non-ASCII letter are told apart
  here.
- Views.TagCreateView: pages carry only the field's error set, not the
  values of a bound form. Re-rendering the submitted form and showing an
  empty one both appear as a page with no errors.
- UserForms.SaveSignUp: does not model password hashing or the profile
  created by the post-save signal. The new user's profile is taken as not
  confirmed.
- Avatar resizing, the user views, and the account e-mail tasks and token
  HMAC internals (`users_app/tasks.py`, `users_app/emails.py`). Those are
  image, site and cryptographic plumbing.
- `Paginator` internals other than page size 9, the page-number fallback
  and id-descending order.
- Anonymous requests. `login_required` is modelled by always passing a
  logged-in user id.
