/**
 * Model of retention.py: which reminder goes to which inactive user.
 * The inactive-user query is a parameter (a function from the threshold in
 * days to the rows it returns); Database.InactiveUsers is the filter it
 * stands for. A reminder is identified by its MESSAGES entry (threshold and
 * language) rather than by its literal text and call to action.
 */
module Retention {
  import Database

  /** The thresholds in days, in the order they are processed. */
  const THRESHOLDS: seq<int> := [1, 3, 7]
  /** From this threshold on a reminder carries a bonus. */
  const BONUS_FROM_DAYS: int := 3

  /** MESSAGES has Russian and English texts only. */
  datatype Language = Russian | English

  /** A MESSAGES entry: its threshold and the language of its text and call to action. */
  datatype Message = Message(days: int, language: Language)

  /** A planned reminder (one dictionary of `users_to_message`). */
  datatype Entry = Entry(userId: int, days: int, message: Message, bonus: bool)

  /** The MESSAGES entry for a threshold: Russian for "ru", English for any other language. */
  function MessageFor(days: int, lang: string): (m: Message)
    requires days in THRESHOLDS
    ensures m.days == days
    ensures m.language == Russian <==> lang == "ru"
  {
    Message(days, if lang == "ru" then Russian else English)
  }

  /** _was_message_sent_recently: a stub that never reports a reminder as sent. */
  function WasMessageSentRecently(userId: int, days: int): (sent: bool)
    ensures !sent
  {
    false
  }

  /** The reminder planned for one row of threshold `days`. */
  function EntryFor(days: int, row: Database.InactiveRow): Entry
    requires days in THRESHOLDS
  {
    Entry(row.userId, days, MessageFor(days, row.language), days >= BONUS_FROM_DAYS)
  }

  /** The reminders of one threshold: one per returned row, in query order. */
  function EntriesFor(days: int, rows: seq<Database.InactiveRow>): (es: seq<Entry>)
    requires days in THRESHOLDS
    ensures |es| == |rows|
    ensures forall i :: 0 <= i < |rows| ==> es[i] == EntryFor(days, rows[i])
  {
    if rows == [] then []
    else
      var last := rows[|rows| - 1];
      EntriesFor(days, rows[..|rows| - 1]) + (if WasMessageSentRecently(last.userId, days) then [] else [EntryFor(days, last)])
  }

  /** The reminders of the thresholds `ts`, threshold after threshold. */
  function Planned(query: int -> seq<Database.InactiveRow>, ts: seq<int>): seq<Entry>
    requires forall d :: d in ts ==> d in THRESHOLDS
  {
    if ts == [] then []
    else Planned(query, ts[..|ts| - 1]) + EntriesFor(ts[|ts| - 1], query(ts[|ts| - 1]))
  }

  /**
   * get_inactive_users_for_retention: for each threshold in turn, one
   * reminder per inactive row, in query order.
   */
  method InactiveUsersForRetention(query: int -> seq<Database.InactiveRow>) returns (entries: seq<Entry>)
    ensures entries == Planned(query, THRESHOLDS)
    ensures entries == EntriesFor(1, query(1)) + EntriesFor(3, query(3)) + EntriesFor(7, query(7))
  {
    entries := [];
    for t := 0 to |THRESHOLDS|
      invariant entries == Planned(query, THRESHOLDS[..t])
    {
      var days := THRESHOLDS[t];
      var inactive := query(days);
      for i := 0 to |inactive|
        invariant entries == Planned(query, THRESHOLDS[..t]) + EntriesFor(days, inactive[..i])
      {
        assert inactive[..i + 1][..i] == inactive[..i];
        var row := inactive[i];
        if !WasMessageSentRecently(row.userId, days) {
          entries := entries + [EntryFor(days, row)];
        }
      }
      assert inactive[..|inactive|] == inactive;
      assert THRESHOLDS[..t + 1][..t] == THRESHOLDS[..t];
    }
    assert THRESHOLDS[..|THRESHOLDS|] == THRESHOLDS;
  }

  /** The plan is the reminders of 1 day, then those of 3 days, then those of 7 days. */
  lemma PlannedInThresholdOrder(query: int -> seq<Database.InactiveRow>)
    ensures Planned(query, THRESHOLDS) == EntriesFor(1, query(1)) + EntriesFor(3, query(3)) + EntriesFor(7, query(7))
  {
    assert THRESHOLDS[..2] == [1, 3] && THRESHOLDS[..2][..1] == [1] && [1][..0] == [];
  }

  /** Every planned reminder belongs to a threshold and carries a bonus exactly from three days on. */
  lemma BonusFromThreeDays(query: int -> seq<Database.InactiveRow>, e: Entry)
    requires e in Planned(query, THRESHOLDS)
    ensures e.days in THRESHOLDS
    ensures e.bonus <==> e.days >= 3
    ensures e.message.days == e.days
  {
    PlannedInThresholdOrder(query);
  }

  /** Every row the query returns for a threshold gets a reminder for that threshold. */
  lemma EveryRowReminded(query: int -> seq<Database.InactiveRow>, d: int, r: Database.InactiveRow)
    requires d in THRESHOLDS && r in query(d)
    ensures var plan := Planned(query, THRESHOLDS);
            exists i :: 0 <= i < |plan| && plan[i].userId == r.userId && plan[i].days == d
  {
    PlannedInThresholdOrder(query);
    var i := ReminderIndex(query, d, r);
  }

  /** Where the reminder of a row sits in the plan of the three thresholds. */
  lemma {:induction false} ReminderIndex(query: int -> seq<Database.InactiveRow>, d: int, r: Database.InactiveRow)
    returns (i: nat)
    requires d in THRESHOLDS && r in query(d)
    ensures var plan := EntriesFor(1, query(1)) + EntriesFor(3, query(3)) + EntriesFor(7, query(7));
            i < |plan| && plan[i].userId == r.userId && plan[i].days == d
  {
    var rows := query(d);
    var j :| 0 <= j < |rows| && rows[j] == r;
    var e1, e3, e7 := EntriesFor(1, query(1)), EntriesFor(3, query(3)), EntriesFor(7, query(7));
    if d == 1 {
      i := j;
      assert e1[j] == EntryFor(1, r);
      assert (e1 + e3 + e7)[i] == e1[j];
    } else if d == 3 {
      i := |e1| + j;
      assert e3[j] == EntryFor(3, r);
      assert (e1 + e3 + e7)[i] == e3[j];
    } else {
      assert d == 7;
      i := |e1| + |e3| + j;
      assert e7[j] == EntryFor(7, r);
      assert (e1 + e3 + e7)[i] == e7[j];
    }
  }

  /**
   * With the real query, a user inactive for more than seven days and not
   * blocked is reminded under every threshold: 1, 3 and 7.
   */
  lemma LongInactiveGetsEveryReminder(users: map<int, Database.User>, order: seq<int>, now: int, u: int)
    requires u in order && u in users
    requires Database.InactiveSince(users[u], now, 7)
    ensures var plan := Planned((d: int) => Database.InactiveUsers(users, order, now, d), THRESHOLDS);
            forall d :: d in THRESHOLDS ==> exists i :: 0 <= i < |plan| && plan[i].userId == u && plan[i].days == d
  {
    var query := (d: int) => Database.InactiveUsers(users, order, now, d);
    forall d | d in THRESHOLDS
      ensures exists i :: 0 <= i < |Planned(query, THRESHOLDS)| && Planned(query, THRESHOLDS)[i].userId == u
                          && Planned(query, THRESHOLDS)[i].days == d
    {
      assert Database.InactiveSince(users[u], now, d);
      EveryRowReminded(query, d, Database.RowOf(users, u));
    }
  }
}
