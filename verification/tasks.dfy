/** The background jobs: the periodic deadline scan, which archives expired
    to-do notes and enqueues one reminder job per note due within a day,
    and the reminder job itself. The clock and the mail transport's answer
    are parameters. */
module Tasks {
  import opened Wrappers
  import opened Text
  import opened Calendar
  import opened Models
  import opened Collections

  /** `timedelta(days=1)`. */
  const ReminderWindow: int := SecondsPerDay
  /** `max_retries` and `default_retry_delay` of the reminder job. */
  const MaxRetries: int := 3
  const RetryDelay: int := 120

  // ---------------------------------------------------------------------
  // Deadline scan
  // ---------------------------------------------------------------------

  /** The scan's query: `is_todo=True, deadline__isnull=False`. */
  predicate IsCandidate(n: Note) {
    n.isTodo && n.deadline.Some?
  }

  datatype Action = Archive | Notify | Ignore

  /** What one pass of the scan's loop does with a note. */
  function Classify(n: Note, now: int): Action {
    if !IsCandidate(n) then Ignore
    else if n.deadline.value <= now then Archive
    else if n.deadline.value <= now + ReminderWindow then Notify
    else Ignore
  }

  function Candidates(notes: map<int, Note>): set<int> {
    set id | id in notes && IsCandidate(notes[id])
  }

  /** The notes the scan archives: to-do notes whose deadline has passed. */
  function ArchiveSet(notes: map<int, Note>, now: int): (r: set<int>)
    ensures forall id :: id in r <==>
      id in notes && notes[id].isTodo && notes[id].deadline.Some? && notes[id].deadline.value <= now
  {
    set id | id in notes && Classify(notes[id], now) == Archive
  }

  /** The notes the scan sends reminders for: to-do notes due within a day. */
  function NotifySet(notes: map<int, Note>, now: int): (r: set<int>)
    ensures forall id :: id in r <==>
      id in notes && notes[id].isTodo && notes[id].deadline.Some?
      && now < notes[id].deadline.value <= now + ReminderWindow
  {
    set id | id in notes && Classify(notes[id], now) == Notify
  }

  /** `Note.objects.filter(pk__in=ids).update(is_todo=False, deadline=None)`. */
  function BulkArchive(notes: map<int, Note>, ids: set<int>): (r: map<int, Note>)
    ensures r.Keys == notes.Keys
    ensures forall id :: id in notes && id in ids ==>
      !r[id].isTodo && r[id].deadline.None?
      && r[id] == notes[id].(isTodo := r[id].isTodo, deadline := r[id].deadline)
    ensures forall id :: id in notes && id !in ids ==> r[id] == notes[id]
  {
    map id | id in notes :: if id in ids then notes[id].(isTodo := false, deadline := None) else notes[id]
  }

  predicate NoDuplicates(s: seq<int>) {
    forall i, j :: 0 <= i < j < |s| ==> s[i] != s[j]
  }

  /** `check_deadlines_task`: walks the query's rows in whatever order the
      database yields them, archives the expired ones in one bulk update and
      returns the ids of the reminder jobs it enqueues, in enqueue order. */
  method CheckDeadlines(notes: map<int, Note>, now: int)
    returns (updated: map<int, Note>, jobs: seq<int>)
    ensures updated == BulkArchive(notes, ArchiveSet(notes, now))
    ensures forall id :: id in jobs <==> id in NotifySet(notes, now)
    ensures NoDuplicates(jobs)
    ensures forall id :: id in jobs ==> updated[id] == notes[id]
    ensures forall id ::
      (id in notes && IsCandidate(notes[id]) && notes[id].deadline.value > now + ReminderWindow)
      ==> updated[id] == notes[id] && id !in jobs
    ensures Candidates(notes) == {} ==> updated == notes && jobs == []
  {
    var rows := Candidates(notes);
    if rows == {} {
      forall id | id in notes
        ensures Classify(notes[id], now) == Ignore
      {
        assert id !in rows;
      }
      assert ArchiveSet(notes, now) == {};
      assert BulkArchive(notes, {}) == notes;
      return notes, [];
    }
    var toArchive: set<int> := {};
    var toNotify: seq<int> := [];
    var pending := rows;
    while pending != {}
      invariant pending <= rows
      invariant forall id :: id in toArchive <==>
        id in rows && id !in pending && Classify(notes[id], now) == Archive
      invariant forall id :: id in toNotify <==>
        id in rows && id !in pending && Classify(notes[id], now) == Notify
      invariant NoDuplicates(toNotify)
      decreases pending
    {
      NonEmptyHasMember(pending);
      var id :| id in pending;
      var deadline := notes[id].deadline.value;
      if deadline <= now {
        toArchive := toArchive + {id};
      } else if deadline <= now + ReminderWindow {
        toNotify := toNotify + [id];
      }
      pending := pending - {id};
    }
    forall id | id in notes && Classify(notes[id], now) == Archive
      ensures id in toArchive
    {
      assert id in rows;
    }
    forall id | id in toArchive
      ensures id in ArchiveSet(notes, now)
    {
      assert id in rows;
    }
    assert toArchive == ArchiveSet(notes, now);
    updated := notes;
    if toArchive != {} {
      updated := BulkArchive(notes, toArchive);
    } else {
      assert BulkArchive(notes, {}) == notes;
    }
    jobs := toNotify;
  }

  /** The scan's result on the note table. */
  function Scan(notes: map<int, Note>, now: int): map<int, Note> {
    BulkArchive(notes, ArchiveSet(notes, now))
  }

  /** A second scan at the same `now` archives nothing new and enqueues the
      same reminders again (at-least-once delivery). */
  lemma ScanTwice(notes: map<int, Note>, now: int)
    ensures ArchiveSet(Scan(notes, now), now) == {}
    ensures NotifySet(Scan(notes, now), now) == NotifySet(notes, now)
    ensures Scan(Scan(notes, now), now) == Scan(notes, now)
  {
    var once := Scan(notes, now);
    forall id | id in once
      ensures Classify(once[id], now) != Archive
      ensures Classify(once[id], now) == Notify <==> Classify(notes[id], now) == Notify
    {
    }
    assert ArchiveSet(once, now) == {};
    assert BulkArchive(once, {}) == once;
  }

  /** The bulk archive keeps every store invariant, whatever the id set. */
  lemma BulkArchivePreservesStore(s: Store, ids: set<int>)
    requires ValidStore(s)
    ensures ValidStore(s.(notes := BulkArchive(s.notes, ids)))
  {
    var t := s.(notes := BulkArchive(s.notes, ids));
    assert forall id :: id in t.notes ==> t.notes[id].tags == s.notes[id].tags && t.notes[id].owner == s.notes[id].owner;
  }

  // ---------------------------------------------------------------------
  // Reminder job
  // ---------------------------------------------------------------------

  const MailSubject: string := "Reminder: Don't forget about your note"
  const Greeting: string := "Hello "
  const Intro: string := ",\n\nYou have a note that is due soon:\n\nTitle: "
  const DeadlineLabel: string := "\nDeadline: "
  const Closing: string := "\n\nDon't forget to complete it on time!\n\nBest regards,\nYour Notes App"

  /** The reminder text; the deadline is rendered as `YYYY-MM-DD HH:MM`. */
  function ReminderBody(username: string, title: string, deadline: Instant): (body: string)
    ensures OccursAt(username, body, |Greeting|)
    ensures OccursAt(title, body, |Greeting| + |username| + |Intro|)
    ensures var at := |Greeting| + |username| + |Intro| + |title| + |DeadlineLabel|;
      OccursAt(FormatInstant(deadline), body, at)
      && Parse(body[at..at + 16]) == Some(FromInstant(deadline).(second := 0))
  {
    var date := FormatInstant(deadline);
    var head := Greeting + username;
    OccursAtEnd(Greeting, username);
    var withTitle := head + Intro + title;
    OccursAtEnd(head + Intro, title);
    var withDate := withTitle + DeadlineLabel + date;
    OccursAtEnd(withTitle + DeadlineLabel, date);
    var body := withDate + Closing;
    OccursExtends(username, head, Intro);
    OccursExtends(username, head + Intro, title);
    OccursExtends(username, withTitle, DeadlineLabel);
    OccursExtends(username, withTitle + DeadlineLabel, date);
    OccursExtends(username, withDate, Closing);
    OccursExtends(title, withTitle, DeadlineLabel);
    OccursExtends(title, withTitle + DeadlineLabel, date);
    OccursExtends(title, withDate, Closing);
    OccursExtends(date, withDate, Closing);
    ParseFormat(FromInstant(deadline));
    body
  }

  lemma OccursAtEnd(a: string, x: string)
    ensures OccursAt(x, a + x, |a|)
  {
    assert (a + x)[|a|..|a| + |x|] == x;
  }

  lemma OccursExtends(x: string, s: string, t: string)
    ensures forall i :: OccursAt(x, s, i) ==> OccursAt(x, s + t, i)
  {
    forall i | OccursAt(x, s, i)
      ensures OccursAt(x, s + t, i)
    {
      assert (s + t)[i..i + |x|] == s[i..i + |x|];
    }
  }

  datatype Mail = Mail(subject: string, body: string, sender: string, recipients: seq<string>)

  /** What the transport did with the one `send_mail` call. */
  datatype MailOutcome = Delivered | TransportFailure(error: string)

  datatype SkipReason = NoteNotFound | MissingUserOrEmail | NoDeadline

  /** How a run of the reminder job ends. `Retry` is the `self.retry(exc=e)`
      signal; `GaveUp` is the queue re-raising `e` once the retries are spent;
      `Crashed` is an exception escaping the job. */
  datatype Dispatch =
    | Skipped(reason: SkipReason)
    | Sent(mail: Mail)
    | Retry(mail: Mail, error: string, countdown: int)
    | GaveUp(mail: Mail, error: string)
    | Crashed(error: string)

  /** `not note.user or not note.user.email`, negated. */
  predicate HasContact(s: Store, user: int) {
    user in s.users && s.users[user].email != []
  }

  /** The note exists, its owner has an email address, and it has a deadline. */
  predicate ReminderDue(s: Store, id: int) {
    id in s.notes && HasContact(s, s.notes[id].owner) && s.notes[id].deadline.Some?
  }

  function ReminderMail(s: Store, id: int, sender: string): (m: Mail)
    requires ReminderDue(s, id)
    ensures m.recipients == [s.users[s.notes[id].owner].email]
    ensures m.subject == MailSubject && m.sender == sender
    ensures m.body == ReminderBody(s.users[s.notes[id].owner].username, s.notes[id].name,
                                   s.notes[id].deadline.value)
  {
    var note := s.notes[id];
    var user := s.users[note.owner];
    Mail(MailSubject, ReminderBody(user.username, note.name, note.deadline.value), sender, [user.email])
  }

  /** The transport's answer turned into the job's end state: a failure asks
      for a retry after `RetryDelay` while fewer than `MaxRetries` retries
      were made (`retries` is the queue's count for this job). */
  function Deliver(mail: Mail, retries: nat, transport: MailOutcome): (r: Dispatch)
    ensures r.Sent? <==> transport.Delivered?
    ensures r.Retry? <==> transport.TransportFailure? && retries < MaxRetries
    ensures r.GaveUp? <==> transport.TransportFailure? && retries >= MaxRetries
    ensures (r.Sent? || r.Retry? || r.GaveUp?) && r.mail == mail
    ensures r.Retry? ==> r.error == transport.error && r.countdown == RetryDelay
    ensures r.GaveUp? ==> r.error == transport.error
  {
    match transport
    case Delivered => Sent(mail)
    case TransportFailure(e) => if retries < MaxRetries then Retry(mail, e, RetryDelay) else GaveUp(mail, e)
  }

  /** `send_notification_task`, with the deadline guard its message
      construction needs: a note whose deadline was cleared after the job was
      enqueued is skipped like a vanished note. */
  function SendNotification(s: Store, id: int, sender: string, retries: nat,
                            transport: MailOutcome): (r: Dispatch)
    ensures id !in s.notes ==> r == Skipped(NoteNotFound)
    ensures id in s.notes && !HasContact(s, s.notes[id].owner) ==> r == Skipped(MissingUserOrEmail)
    ensures r.Skipped? <==> !ReminderDue(s, id)
    ensures !r.Crashed?
    ensures ReminderDue(s, id) ==> r == Deliver(ReminderMail(s, id, sender), retries, transport)
  {
    if id !in s.notes then Skipped(NoteNotFound)
    else if !HasContact(s, s.notes[id].owner) then Skipped(MissingUserOrEmail)
    else if s.notes[id].deadline.None? then Skipped(NoDeadline)
    else Deliver(ReminderMail(s, id, sender), retries, transport)
  }

  /** `send_notification_task` exactly as written: `note.deadline.strftime`
      is evaluated without a check, so a note with no deadline raises. */
  function SendNotificationAsWritten(s: Store, id: int, sender: string, retries: nat,
                                     transport: MailOutcome): (r: Dispatch)
    ensures id in s.notes && HasContact(s, s.notes[id].owner) && s.notes[id].deadline.None?
      ==> r.Crashed?
    ensures !(id in s.notes && HasContact(s, s.notes[id].owner) && s.notes[id].deadline.None?)
      ==> r == SendNotification(s, id, sender, retries, transport)
  {
    if id !in s.notes then Skipped(NoteNotFound)
    else if !HasContact(s, s.notes[id].owner) then Skipped(MissingUserOrEmail)
    else if s.notes[id].deadline.None? then Crashed("AttributeError: 'NoneType' object has no attribute 'strftime'")
    else Deliver(ReminderMail(s, id, sender), retries, transport)
  }

  /** In a valid store the reminder for a note that is no longer a to-do is
      never sent: the job ends without mail and without a retry. */
  lemma NoReminderAfterArchive(s: Store, id: int, sender: string, retries: nat, transport: MailOutcome)
    requires ValidStore(s)
    requires id in s.notes && !s.notes[id].isTodo
    ensures SendNotification(s, id, sender, retries, transport).Skipped?
  {
    assert TodoConsistent(s.notes[id]);
  }
}
