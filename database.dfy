/**
 * Model of database.py: the `users`, `referrals`, `sessions` and
 * `conversations` tables as maps and a sequence held by one object, the
 * row updates as methods on it and the read-only queries as functions.
 *
 * Timestamps are integers (seconds) and calendar days are day numbers; the
 * current instant and day are parameters wherever the source reads the clock.
 */
module Database {
  import opened Wrappers

  const DAY: int := 86400
  const TRIAL_DAYS: int := 3
  /** The planned length of a session row (`end_time`), in seconds. */
  const SESSION_SECONDS: int := 40 * 60
  /** Bonus messages a referrer receives when a referred user converts. */
  const CONVERSION_BONUS: int := 5

  /** A row of `users`; a nullable column is an Option. */
  datatype User = User(
    username: Option<string>,
    language: string,
    premiumUntil: Option<int>,
    isPremium: bool,
    createdAt: int,
    nightCount: int,
    lastNightDate: Option<int>,
    lastActive: int,
    totalMessages: int,
    referrer: Option<int>,
    referralCount: int,
    bonus: Option<int>,
    isBlocked: bool,
    trialUntil: Option<int>,
    trialUsed: bool)

  datatype ReferralStatus = Pending | Converted

  /** A row of `referrals`, stored under the id of the referred user. */
  datatype Referral = Referral(referrer: int, status: ReferralStatus, convertedAt: Option<int>)

  datatype SessionRow = SessionRow(userId: int, isConfessional: bool, startTime: int, endTime: int, isActive: bool)

  datatype ConversationRow = ConversationRow(userId: int, sessionId: int, content: string, isUser: bool, isConfessional: bool)

  datatype ReferralStats = ReferralStats(total: nat, converted: nat)

  /** `bonus or 0` */
  function BonusOrZero(bonus: Option<int>): int {
    bonus.GetOr(0)
  }

  /** SQL `bonus_messages + k`: NULL stays NULL. */
  function AddToNullable(bonus: Option<int>, k: int): Option<int> {
    match bonus
    case None => None
    case Some(b) => Some(b + k)
  }

  /** Python's `if referrer_id and referrer_id != user_id`: 0 and None are false. */
  predicate RecordsReferral(userId: int, referrer: Option<int>) {
    referrer.Some? && referrer.value != 0 && referrer.value != userId
  }

  /** The row add_user inserts: column defaults plus a trial of three days from now. */
  function NewUser(username: Option<string>, lang: string, referrer: Option<int>, now: int): User {
    User(username, lang, None, false, now, 0, None, now, 0, referrer, 0, Some(0), false,
         Some(now + TRIAL_DAYS * DAY), false)
  }

  /**
   * check_and_reset_night_counter on an existing row: the row afterwards and
   * the effective count returned. On a new day the counter restarts at 0; on
   * the same day the count minus the bonus is returned, unclamped.
   */
  function NightCheck(row: User, today: int): (User, int) {
    if row.lastNightDate != Some(today) then
      (row.(nightCount := 0, lastNightDate := Some(today)), 0)
    else
      (row, row.nightCount - BonusOrZero(row.bonus))
  }

  /** The premium expiry add_premium writes: extended while unexpired, else counted from now. */
  function ExtendedPremium(row: User, days: int, now: int): int {
    if row.premiumUntil.Some? && row.premiumUntil.value > now then row.premiumUntil.value + days * DAY
    else now + days * DAY
  }

  /** Facts no update ever undoes: rows are never deleted, trial_used and a conversion are one-way. */
  ghost predicate Evolves(users: map<int, User>, users': map<int, User>,
                          referrals: map<int, Referral>, referrals': map<int, Referral>)
  {
    && users.Keys <= users'.Keys
    && (forall u :: u in users && users[u].trialUsed ==> users'[u].trialUsed)
    && referrals.Keys <= referrals'.Keys
    && (forall r :: r in referrals ==> referrals'[r].referrer == referrals[r].referrer)
    && (forall r :: r in referrals && referrals[r].status == Converted ==> referrals'[r].status == Converted)
  }

  class Database {
    var users: map<int, User>
    /** `referrals`, keyed by referred user: add_user inserts at most one edge per new user. */
    var referrals: map<int, Referral>
    var sessions: map<int, SessionRow>
    /** The next AUTOINCREMENT id of `sessions`; ids start at 1. */
    var nextSessionId: int
    var conversations: seq<ConversationRow>

    ghost predicate Valid()
      reads this
    {
      && referrals.Keys <= users.Keys
      && (forall v :: v in referrals ==> RecordsReferral(v, Some(referrals[v].referrer)))
      && nextSessionId >= 1
      && (forall id :: id in sessions ==> 1 <= id < nextSessionId)
    }

    constructor ()
      ensures Valid()
      ensures users == map[] && referrals == map[] && sessions == map[] && conversations == []
    {
      users := map[];
      referrals := map[];
      sessions := map[];
      nextSessionId := 1;
      conversations := [];
    }

    // -------------------------------------------------------------------
    // Queries
    // -------------------------------------------------------------------

    /** get_language: the stored language, "en" for an unknown user. */
    function GetLanguage(u: int): (lang: string)
      reads this
      ensures u in users ==> lang == users[u].language
      ensures u !in users ==> lang == "en"
    {
      if u in users then users[u].language else "en"
    }

    /** is_blocked: false for an unknown user. */
    function IsBlocked(u: int): (b: bool)
      reads this
      ensures b <==> u in users && users[u].isBlocked
    {
      u in users && users[u].isBlocked
    }

    /** is_premium: the flag is set and the expiry is strictly after now. */
    function IsPremium(u: int, now: int): (b: bool)
      reads this
      ensures b ==> u in users && users[u].isPremium
      ensures b <==> u in users && users[u].isPremium && users[u].premiumUntil.Some? && users[u].premiumUntil.value > now
    {
      if u !in users || !users[u].isPremium then false
      else if users[u].premiumUntil.Some? then users[u].premiumUntil.value > now
      else false
    }

    /** is_trial_active: never once trial_used is set; otherwise the trial expiry is strictly after now. */
    function IsTrialActive(u: int, now: int): (b: bool)
      reads this
      ensures u in users && users[u].trialUsed ==> !b
      ensures u in users && !users[u].trialUsed ==> (b <==> users[u].trialUntil.Some? && users[u].trialUntil.value > now)
      ensures u !in users ==> !b
    {
      if u !in users || users[u].trialUsed then false
      else if users[u].trialUntil.Some? then users[u].trialUntil.value > now
      else false
    }

    /** The referred users whose edge names `u` as referrer. */
    ghost function ReferredBy(u: int): set<int>
      reads this
    {
      set v | v in referrals && referrals[v].referrer == u
    }

    /** get_referral_stats: all edges of `u` as referrer, and the converted ones among them. */
    function GetReferralStats(u: int): (stats: ReferralStats)
      reads this
      ensures stats.total == |ReferredBy(u)|
      ensures stats.converted <= stats.total
      ensures stats.converted == |set v | v in ReferredBy(u) && referrals[v].status == Converted|
    {
      var all := set v | v in referrals && referrals[v].referrer == u;
      var converted := set v | v in all && referrals[v].status == Converted;
      SubsetCard(converted, all);
      ReferralStats(|all|, |converted|)
    }

    // -------------------------------------------------------------------
    // Updates
    // -------------------------------------------------------------------

    /**
     * add_user: inserts a row with a three-day trial and, when the referrer is
     * neither missing, 0 nor the user, a pending referral edge; an existing id
     * is an IntegrityError, reported as false with nothing changed.
     */
    method AddUser(u: int, username: Option<string>, lang: string, referrer: Option<int>, now: int)
      returns (added: bool)
      requires Valid()
      modifies this`users, this`referrals
      ensures Valid()
      ensures added <==> u !in old(users)
      ensures !added ==> users == old(users) && referrals == old(referrals)
      ensures added ==> users == old(users)[u := NewUser(username, lang, referrer, now)]
      ensures added ==> users[u].trialUntil == Some(now + TRIAL_DAYS * DAY) && !users[u].trialUsed
      ensures added && RecordsReferral(u, referrer) ==>
                referrals == old(referrals)[u := Referral(referrer.value, Pending, None)]
      ensures added && !RecordsReferral(u, referrer) ==> referrals == old(referrals)
      ensures sessions == old(sessions) && nextSessionId == old(nextSessionId) && conversations == old(conversations)
      ensures Evolves(old(users), users, old(referrals), referrals)
    {
      if u in users {
        return false;
      }
      users := users[u := NewUser(username, lang, referrer, now)];
      if RecordsReferral(u, referrer) {
        referrals := referrals[u := Referral(referrer.value, Pending, None)];
      }
      return true;
    }

    /** update_last_active: stamps the activity time and counts one more message. */
    method UpdateLastActive(u: int, now: int)
      requires Valid()
      modifies this`users
      ensures Valid()
      ensures u in old(users) ==> users == old(users)[u := old(users)[u].(lastActive := now, totalMessages := old(users)[u].totalMessages + 1)]
      ensures u !in old(users) ==> users == old(users)
      ensures Evolves(old(users), users, referrals, referrals)
    {
      if u in users {
        users := users[u := users[u].(lastActive := now, totalMessages := users[u].totalMessages + 1)];
      }
    }

    /** block_user: sets (or clears) the block flag. */
    method BlockUser(u: int, blocked: bool)
      requires Valid()
      modifies this`users
      ensures Valid()
      ensures u in old(users) ==> users == old(users)[u := old(users)[u].(isBlocked := blocked)]
      ensures u !in old(users) ==> users == old(users)
      ensures IsBlocked(u) <==> u in users && blocked
      ensures Evolves(old(users), users, referrals, referrals)
    {
      if u in users {
        users := users[u := users[u].(isBlocked := blocked)];
      }
    }

    /**
     * check_and_reset_night_counter: on a day other than the stored one the
     * counter becomes 0, the day becomes today and 0 is returned; on the same
     * day nothing changes and count - bonus is returned, NULL bonus as 0 and
     * without clamping. An unknown user gives 0 and changes nothing.
     */
    method CheckAndResetNightCounter(u: int, today: int) returns (effective: int)
      requires Valid()
      modifies this`users
      ensures Valid()
      ensures u !in old(users) ==> effective == 0 && users == old(users)
      ensures u in old(users) ==>
                users == old(users)[u := NightCheck(old(users)[u], today).0] &&
                effective == NightCheck(old(users)[u], today).1
      ensures u in old(users) && old(users)[u].lastNightDate != Some(today) ==>
                effective == 0 && users[u].nightCount == 0 && users[u].lastNightDate == Some(today)
      ensures u in old(users) && old(users)[u].lastNightDate == Some(today) ==>
                users == old(users) && effective == old(users)[u].nightCount - BonusOrZero(old(users)[u].bonus)
      ensures Evolves(old(users), users, referrals, referrals)
    {
      if u !in users {
        return 0;
      }
      var row := users[u];
      if row.lastNightDate != Some(today) {
        users := users[u := row.(nightCount := 0, lastNightDate := Some(today))];
        return 0;
      }
      return row.nightCount - BonusOrZero(row.bonus);
    }

    /** increment_night_counter: the night counter, and nothing else, goes up by one. */
    method IncrementNightCounter(u: int)
      requires Valid()
      modifies this`users
      ensures Valid()
      ensures u in old(users) ==> users == old(users)[u := old(users)[u].(nightCount := old(users)[u].nightCount + 1)]
      ensures u !in old(users) ==> users == old(users)
      ensures Evolves(old(users), users, referrals, referrals)
    {
      if u in users {
        users := users[u := users[u].(nightCount := users[u].nightCount + 1)];
      }
    }

    /** add_bonus_messages: the bonus, and nothing else, goes up by `count` (a NULL bonus stays NULL). */
    method AddBonusMessages(u: int, count: int)
      requires Valid()
      modifies this`users
      ensures Valid()
      ensures u in old(users) ==> users == old(users)[u := old(users)[u].(bonus := AddToNullable(old(users)[u].bonus, count))]
      ensures u !in old(users) ==> users == old(users)
      ensures Evolves(old(users), users, referrals, referrals)
    {
      if u in users {
        users := users[u := users[u].(bonus := AddToNullable(users[u].bonus, count))];
      }
    }

    /** end_trial: sets trial_used, after which the trial is never active again. */
    method EndTrial(u: int)
      requires Valid()
      modifies this`users
      ensures Valid()
      ensures u in old(users) ==> users == old(users)[u := old(users)[u].(trialUsed := true)]
      ensures u !in old(users) ==> users == old(users)
      ensures forall now :: !IsTrialActive(u, now)
      ensures Evolves(old(users), users, referrals, referrals)
    {
      if u in users {
        users := users[u := users[u].(trialUsed := true)];
      }
    }

    /**
     * add_premium: sets the flag and an expiry `days` later than the current
     * expiry while that is still in the future, otherwise `days` after now.
     */
    method AddPremium(u: int, days: int, now: int)
      requires Valid()
      modifies this`users
      ensures Valid()
      ensures u in old(users) ==>
                users == old(users)[u := old(users)[u].(premiumUntil := Some(ExtendedPremium(old(users)[u], days, now)), isPremium := true)]
      ensures u !in old(users) ==> users == old(users)
      ensures u in old(users) && old(users)[u].premiumUntil.Some? && old(users)[u].premiumUntil.value > now ==>
                users[u].premiumUntil.value - now == (old(users)[u].premiumUntil.value - now) + days * DAY
      ensures u in old(users) && !(old(users)[u].premiumUntil.Some? && old(users)[u].premiumUntil.value > now) ==>
                users[u].premiumUntil == Some(now + days * DAY)
      ensures u in old(users) && days > 0 ==> IsPremium(u, now)
      ensures Evolves(old(users), users, referrals, referrals)
    {
      if u in users {
        var row := users[u];
        users := users[u := row.(premiumUntil := Some(ExtendedPremium(row, days, now)), isPremium := true)];
      }
    }

    /** remove_premium: clears the flag and the expiry. */
    method RemovePremium(u: int)
      requires Valid()
      modifies this`users
      ensures Valid()
      ensures u in old(users) ==> users == old(users)[u := old(users)[u].(isPremium := false, premiumUntil := None)]
      ensures u !in old(users) ==> users == old(users)
      ensures forall now :: !IsPremium(u, now)
      ensures Evolves(old(users), users, referrals, referrals)
    {
      if u in users {
        users := users[u := users[u].(isPremium := false, premiumUntil := None)];
      }
    }

    /**
     * start_session: inserts an active row with a planned end 40 minutes
     * from now and returns its fresh id. Nothing ever reads `end_time`.
     */
    method StartSession(u: int, isConfessional: bool, now: int) returns (id: int)
      requires Valid()
      modifies this`sessions, this`nextSessionId
      ensures Valid()
      ensures id == old(nextSessionId) && id >= 1 && id !in old(sessions)
      ensures sessions == old(sessions)[id := SessionRow(u, isConfessional, now, now + SESSION_SECONDS, true)]
      ensures nextSessionId == old(nextSessionId) + 1
    {
      id := nextSessionId;
      sessions := sessions[id := SessionRow(u, isConfessional, now, now + SESSION_SECONDS, true)];
      nextSessionId := nextSessionId + 1;
    }

    /** end_session: marks the session row inactive; an unknown id changes nothing. */
    method EndSession(id: int)
      requires Valid()
      modifies this`sessions
      ensures Valid()
      ensures id in old(sessions) ==> sessions == old(sessions)[id := old(sessions)[id].(isActive := false)]
      ensures id !in old(sessions) ==> sessions == old(sessions)
    {
      if id in sessions {
        sessions := sessions[id := sessions[id].(isActive := false)];
      }
    }

    /** add_message: appends a conversation row, except in confessional mode, which stores nothing. */
    method AddMessage(u: int, sessionId: int, content: string, isUser: bool, isConfessional: bool)
      requires Valid()
      modifies this`conversations
      ensures Valid()
      ensures isConfessional ==> conversations == old(conversations)
      ensures !isConfessional ==> conversations == old(conversations) + [ConversationRow(u, sessionId, content, isUser, false)]
    {
      if isConfessional {
        return;
      }
      conversations := conversations + [ConversationRow(u, sessionId, content, isUser, isConfessional)];
    }

    /**
     * process_referral_conversion: a pending edge of `u` becomes converted and
     * its referrer gets one more referral and five more bonus messages; the
     * referrer is returned. Without a pending edge nothing changes and None is
     * returned, so a second conversion never pays twice.
     */
    method ProcessReferralConversion(u: int, now: int) returns (referrer: Option<int>)
      requires Valid()
      modifies this`users, this`referrals
      ensures Valid()
      ensures referrer.Some? <==> u in old(referrals) && old(referrals)[u].status == Pending
      ensures referrer.None? ==> users == old(users) && referrals == old(referrals)
      ensures referrer.Some? ==>
                && referrer.value == old(referrals)[u].referrer
                && referrals == old(referrals)[u := Referral(referrer.value, Converted, Some(now))]
      ensures referrer.Some? && referrer.value in old(users) ==>
                var r := referrer.value;
                users == old(users)[r := old(users)[r].(referralCount := old(users)[r].referralCount + 1,
                                                        bonus := AddToNullable(old(users)[r].bonus, CONVERSION_BONUS))]
      ensures referrer.Some? && referrer.value !in old(users) ==> users == old(users)
      ensures u in referrals && referrals[u].status == Converted
              ==> referrals[u].referrer == old(referrals)[u].referrer
      ensures Evolves(old(users), users, old(referrals), referrals)
    {
      if u !in referrals || referrals[u].status != Pending {
        return None;
      }
      var r := referrals[u].referrer;
      referrals := referrals[u := Referral(r, Converted, Some(now))];
      if r in users {
        var row := users[r];
        users := users[r := row.(referralCount := row.referralCount + 1, bonus := AddToNullable(row.bonus, 5))];
      }
      return Some(r);
    }
  }

  /** A row of get_inactive_users: id, username, language and last activity. */
  datatype InactiveRow = InactiveRow(userId: int, username: Option<string>, language: string, lastActive: int)

  /** The filter of get_inactive_users: last active strictly before `days` days ago, and not blocked. */
  predicate InactiveSince(row: User, now: int, days: int) {
    row.lastActive < now - days * DAY && !row.isBlocked
  }

  function RowOf(users: map<int, User>, u: int): InactiveRow
    requires u in users
  {
    InactiveRow(u, users[u].username, users[u].language, users[u].lastActive)
  }

  /**
   * get_inactive_users over the table read in scan order `order`: exactly
   * the inactive, unblocked users. `order` stands for the table's scan, so it
   * lists each user id at most once (user_id is the primary key); a repeated
   * id would be returned twice.
   */
  function InactiveUsers(users: map<int, User>, order: seq<int>, now: int, days: int): (rows: seq<InactiveRow>)
    ensures |rows| <= |order|
    ensures forall r :: r in rows ==> r.userId in users && InactiveSince(users[r.userId], now, days) && r == RowOf(users, r.userId)
    ensures forall u :: u in order && u in users && InactiveSince(users[u], now, days) ==> RowOf(users, u) in rows
  {
    if order == [] then []
    else
      var rest := InactiveUsers(users, order[1..], now, days);
      if order[0] in users && InactiveSince(users[order[0]], now, days) then [RowOf(users, order[0])] + rest else rest
  }

  lemma SubsetCard<T>(a: set<T>, b: set<T>)
    requires a <= b
    ensures |a| <= |b|
  {
    assert b == a + (b - a);
  }
}
