/** Properties that span the scan, the views and the reminder job. */
module Scenarios {
  import opened Wrappers
  import opened Calendar
  import opened Models
  import opened Tasks
  import opened Views

  /** A reminder job enqueued for a to-do note whose owner then switches
      to-do mode off (`note_toggle_todo` on POST) runs against a note with
      no deadline: the job as written raises on `None.strftime`, while the
      guarded job skips it without mail and without a retry. */
  lemma ReminderAfterToDoSwitchedOff(s: Store, id: int, now: int, sender: string,
                                     retries: nat, transport: MailOutcome)
    requires id in NotifySet(s.notes, now)
    requires HasContact(s, s.notes[id].owner)
    ensures var after := NoteToggleTodo(s, s.notes[id].owner, id, true).store;
      && SendNotificationAsWritten(after, id, sender, retries, transport).Crashed?
      && SendNotification(after, id, sender, retries, transport) == Skipped(NoDeadline)
  {
    var after := NoteToggleTodo(s, s.notes[id].owner, id, true).store;
    assert after.notes[id].deadline.None?;
    assert after.users == s.users;
  }

  /** The same race through `note_toggle_status`. */
  lemma ReminderAfterMarkedDone(s: Store, id: int, now: int, sender: string,
                                retries: nat, transport: MailOutcome)
    requires id in NotifySet(s.notes, now)
    requires HasContact(s, s.notes[id].owner)
    ensures var after := NoteToggleStatus(s, s.notes[id].owner, id, true).store;
      && SendNotificationAsWritten(after, id, sender, retries, transport).Crashed?
      && SendNotification(after, id, sender, retries, transport) == Skipped(NoDeadline)
  {
    var after := NoteToggleStatus(s, s.notes[id].owner, id, true).store;
    assert after.notes[id].deadline.None?;
    assert after.users == s.users;
  }

  /** The scan's worked example: at 2024-01-01 12:00, a to-do due at 11:00
      is archived, one due at 18:00 is reminded of, one due four days later
      and a plain note are left alone. */
  lemma ScanExample(created: Instant)
    ensures var now := ToInstant(DateTime(2024, 1, 1, 12, 0, 0));
      var a := ToInstant(DateTime(2024, 1, 1, 11, 0, 0));
      var b := ToInstant(DateTime(2024, 1, 1, 18, 0, 0));
      var c := ToInstant(DateTime(2024, 1, 5, 12, 0, 0));
      var notes := map[1 := Note("A", "", false, true, Some(a), created, {}, 1),
                       2 := Note("B", "", false, true, Some(b), created, {}, 1),
                       3 := Note("C", "", false, true, Some(c), created, {}, 1),
                       4 := Note("D", "", false, false, None, created, {}, 1)];
      ArchiveSet(notes, now) == {1} && NotifySet(notes, now) == {2}
  {
    var now := ToInstant(DateTime(2024, 1, 1, 12, 0, 0));
    var a := ToInstant(DateTime(2024, 1, 1, 11, 0, 0));
    var b := ToInstant(DateTime(2024, 1, 1, 18, 0, 0));
    var c := ToInstant(DateTime(2024, 1, 5, 12, 0, 0));
    assert a == now - 3600 && b == now + 6 * 3600 && c == now + 4 * SecondsPerDay;
  }
}
