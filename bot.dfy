/**
 * Model of main.py: the in-memory session, daily-limit and confessional
 * message maps, the access decisions, and the handlers' decision logic.
 *
 * Transport effects become values: a handler returns what it would send
 * (as a datatype naming the reply and the menu's buttons) and the message ids
 * it would try to delete. The reply collaborator is a parameter, `reply`;
 * whether the transport delivered a message and which ids it could delete are
 * parameters too (`sent`, `deleteOk`).
 */
module Bot {
  import opened Wrappers
  import Database
  import Referral

  /** Free general messages per day. */
  const FREE_MESSAGES: int := 3
  /** Free confessional sessions per day. */
  const FREE_CONFESSIONALS: int := 1
  /** A confessional session older than this is closed on the next message. */
  const CONFESSIONAL_SECONDS: int := 40 * 60
  /** Turns kept in a session's history after a reply. */
  const HISTORY_TURNS: nat := 10
  /** Bonus messages credited to the referrer when a referred user first starts the bot. */
  const SIGNUP_BONUS: int := 5
  const PREMIUM_DAYS: int := 30
  /** Languages cmd_start keeps; any other code becomes "ru". */
  const START_LANGS: seq<string> := ["ru", "en", "es", "de"]

  datatype Role = UserRole | AssistantRole
  datatype Turn = Turn(role: Role, content: string)

  /** An entry of `user_sessions`. */
  datatype Session = Session(id: int, confessional: bool, messages: seq<Turn>, startTime: int, premiumTemp: bool)

  /** An entry of `user_limits`. */
  datatype Limits = Limits(date: int, storyUsed: bool, confessionalCount: int)

  /** The four labels of get_access_status; the trial label shows its expiry. */
  datatype Access = PremiumAccess | TrialAccess(until: int) | TemporarySession | FreeAccess

  /** An inline button: the TEXTS key of its label and its callback data. */
  datatype Button = Button(labelKey: string, callback: string)

  // -----------------------------------------------------------------------
  // Pure helpers
  // -----------------------------------------------------------------------

  /** The TEXTS table (language -> key -> text); its literal strings are not reproduced. */
  type Texts = map<string, map<string, string>>
  /** Python's `str.format(**kwargs)`, not spelled out. */
  type Formatter = (string, map<string, string>) -> string

  /**
   * get_text: the table of `lang`, or the Russian one for any other language;
   * the key itself when the table lacks it; formatted only when keyword
   * arguments are given.
   */
  function GetText(texts: Texts, key: string, lang: string, kwargs: map<string, string>, format: Formatter): (text: string)
    requires "ru" in texts
    ensures kwargs == map[] && lang in texts && key in texts[lang] ==> text == texts[lang][key]
    ensures kwargs == map[] && lang !in texts && key in texts["ru"] ==> text == texts["ru"][key]
    ensures kwargs == map[] && lang in texts && key !in texts[lang] ==> text == key
    ensures kwargs == map[] && lang !in texts && key !in texts["ru"] ==> text == key
    ensures kwargs != map[] ==> text == format(GetText(texts, key, lang, map[], format), kwargs)
  {
    var table := if lang in texts then texts[lang] else texts["ru"];
    var raw := if key in table then table[key] else key;
    if kwargs != map[] then format(raw, kwargs) else raw
  }

  /** get_night_greeting_key with the hour as a parameter. */
  function NightGreetingKey(hour: int): (key: string)
    requires 0 <= hour < 24
    ensures key == "night_greeting_22" <==> 22 <= hour
    ensures key == "night_greeting_0" <==> hour < 4
    ensures key == "night_greeting_5" <==> 4 <= hour < 22
  {
    if 22 <= hour <= 23 then "night_greeting_22"
    else if 0 <= hour < 4 then "night_greeting_0"
    else "night_greeting_5"
  }

  function Callbacks(buttons: seq<Button>): (cs: seq<string>)
    ensures |cs| == |buttons|
    ensures forall i :: 0 <= i < |buttons| ==> cs[i] == buttons[i].callback
  {
    if buttons == [] then [] else [buttons[0].callback] + Callbacks(buttons[1..])
  }

  /**
   * get_main_menu, its buttons only: in a session just the end button;
   * otherwise the modes, the referral screen, the two purchases unless the
   * user has full access, and the language settings last.
   */
  function MainMenu(isPremium: bool, inSession: bool): (buttons: seq<Button>)
    ensures inSession ==> buttons == [Button("end", "end_session")]
    ensures !inSession ==> |buttons| == (if isPremium then 5 else 7) && buttons[|buttons| - 1] == Button("settings", "settings")
    ensures !inSession ==> buttons[..4] == [Button("start_chat", "start_chat"), Button("confessional", "confessional"),
                                            Button("sleep_story", "sleep_story"), Button("referral", "referral")]
  {
    if inSession then [Button("end", "end_session")]
    else
      var modes := [Button("start_chat", "start_chat"), Button("confessional", "confessional"),
                    Button("sleep_story", "sleep_story"), Button("referral", "referral")];
      var purchases := if isPremium then [] else [Button("buy_premium", "buy_premium"), Button("buy_session", "buy_session")];
      modes + purchases + [Button("settings", "settings")]
  }

  /** The two purchase buttons appear exactly in the main menu of a user without full access. */
  lemma BuyButtonsIffNoFullAccess(isPremium: bool, inSession: bool)
    ensures ("buy_premium" in Callbacks(MainMenu(isPremium, inSession))) <==> !inSession && !isPremium
    ensures ("buy_session" in Callbacks(MainMenu(isPremium, inSession))) <==> !inSession && !isPremium
  {
    var cs := Callbacks(MainMenu(isPremium, inSession));
    if inSession {
      assert cs == ["end_session"];
    } else if isPremium {
      assert cs == ["start_chat", "confessional", "sleep_story", "referral", "settings"];
    } else {
      assert cs == ["start_chat", "confessional", "sleep_story", "referral", "buy_premium", "buy_session", "settings"];
    }
  }

  /** The record check_and_init_limits installs on a new day. */
  function FreshLimits(today: int): Limits {
    Limits(today, false, 0)
  }

  /**
   * `user_limits` after check_and_init_limits: a missing record, or one dated
   * another day, is replaced by a fresh one; today's record is kept as it is.
   */
  function InitLimits(limits: map<int, Limits>, u: int, today: int): (r: map<int, Limits>)
    ensures u in r && r[u].date == today
    ensures u in limits && limits[u].date == today ==> r == limits
    ensures !(u in limits && limits[u].date == today) ==> r == limits[u := FreshLimits(today)]
  {
    if u !in limits || limits[u].date != today then limits[u := FreshLimits(today)] else limits
  }

  /** Within one day, initialising the limits twice is initialising them once. */
  lemma InitLimitsIdempotent(limits: map<int, Limits>, u: int, today: int)
    ensures InitLimits(InitLimits(limits, u, today), u, today) == InitLimits(limits, u, today)
  {
  }

  /**
   * The last n turns, or all of them when there are fewer: Python's
   * `history[-n:]` for n > 0 (the source only uses n = 10).
   */
  function LastTurns(history: seq<Turn>, n: nat): (r: seq<Turn>)
    ensures |r| == if |history| <= n then |history| else n
    ensures r == history[|history| - |r|..]
  {
    if |history| <= n then history else history[|history| - n..]
  }

  /** After a reply the history keeps at most ten turns and ends with the exchange just made. */
  lemma {:induction false} ReplyKeepsLatestExchange(history: seq<Turn>, question: string, answer: string)
    ensures var r := LastTurns(history + [Turn(UserRole, question), Turn(AssistantRole, answer)], HISTORY_TURNS);
            |r| <= HISTORY_TURNS && |r| >= 2 && r[|r| - 2..] == [Turn(UserRole, question), Turn(AssistantRole, answer)]
  {
    var h := history + [Turn(UserRole, question), Turn(AssistantRole, answer)];
    var r := LastTurns(h, HISTORY_TURNS);
    assert r[|r| - 2..] == h[|h| - 2..];
  }

  /** Confessional counts start at zero and only go up. */
  predicate CountsNonNegative(limits: map<int, Limits>) {
    forall v :: v in limits ==> limits[v].confessionalCount >= 0
  }

  /**
   * The free-tier confessional gate on `user_limits`: after the day's
   * initialisation, a user who already had FREE_CONFESSIONALS confessionals
   * today is refused (false); otherwise the count goes up by one (true).
   */
  function FreeConfessional(limits: map<int, Limits>, u: int, today: int): (r: (map<int, Limits>, bool))
    ensures u in r.0 && r.0[u].date == today
    ensures r.1 <==> InitLimits(limits, u, today)[u].confessionalCount < FREE_CONFESSIONALS
    ensures !r.1 ==> r.0 == InitLimits(limits, u, today)
    ensures r.1 ==> r.0[u].confessionalCount == InitLimits(limits, u, today)[u].confessionalCount + 1
    ensures forall v :: v != u ==> (v in r.0 <==> v in limits) && (v in limits ==> r.0[v] == limits[v])
  {
    var initialised := InitLimits(limits, u, today);
    var lim := initialised[u];
    if lim.confessionalCount >= FREE_CONFESSIONALS then (initialised, false)
    else (initialised[u := lim.(confessionalCount := lim.confessionalCount + 1)], true)
  }

  /** A free user gets at most one confessional a night: right after one is granted, the next is refused. */
  lemma OneFreeConfessionalPerNight(limits: map<int, Limits>, u: int, today: int)
    requires CountsNonNegative(limits)
    requires FreeConfessional(limits, u, today).1
    ensures !FreeConfessional(FreeConfessional(limits, u, today).0, u, today).1
  {
    var after := FreeConfessional(limits, u, today).0;
    assert InitLimits(after, u, today) == after;
    assert InitLimits(limits, u, today)[u].confessionalCount >= 0 ==> after[u].confessionalCount >= 1;
  }

  /** The ids, in order, whose deletion succeeds. */
  function Deleted(ids: seq<int>, deleteOk: int -> bool): (r: seq<int>)
    ensures |r| <= |ids|
    ensures forall x :: x in r ==> x in ids && deleteOk(x)
    ensures forall x :: x in ids && deleteOk(x) ==> x in r
  {
    if ids == [] then []
    else Deleted(ids[..|ids| - 1], deleteOk) + (if deleteOk(ids[|ids| - 1]) then [ids[|ids| - 1]] else [])
  }

  /**
   * The retraction loop of end_session / end_session_manual: one delete
   * request per recorded id, in order, a failure swallowed; returns the
   * requests made and how many succeeded.
   */
  method Retract(ids: seq<int>, deleteOk: int -> bool) returns (attempts: seq<int>, deleted: nat)
    ensures attempts == ids
    ensures deleted == |Deleted(ids, deleteOk)| && deleted <= |ids|
  {
    attempts, deleted := [], 0;
    for i := 0 to |ids|
      invariant attempts == ids[..i]
      invariant deleted == |Deleted(ids[..i], deleteOk)|
    {
      assert ids[..i + 1][..i] == ids[..i];
      attempts := attempts + [ids[i]];
      if deleteOk(ids[i]) {
        deleted := deleted + 1;
      }
    }
    assert ids[..|ids|] == ids;
  }

  // -----------------------------------------------------------------------
  // The free-tier message quota, on one user's row
  // -----------------------------------------------------------------------

  /**
   * The quota gate of process_message for a free user outside confessional
   * mode: check_and_reset_night_counter, then rejection when the effective
   * count is 3 or more, else increment_night_counter.
   */
  function FreeMessageGate(row: Database.User, today: int): (Database.User, bool) {
    var (checked, effective) := Database.NightCheck(row, today);
    if effective >= FREE_MESSAGES then (checked, false)
    else (checked.(nightCount := checked.nightCount + 1), true)
  }

  /** The gate looks only at the counter, the day and the bonus: the activity stamp passes through it. */
  lemma GateIgnoresActivity(row: Database.User, today: int, lastActive: int, totalMessages: int)
    ensures var (checked, accepted) := FreeMessageGate(row, today);
            FreeMessageGate(row.(lastActive := lastActive, totalMessages := totalMessages), today)
              == (checked.(lastActive := lastActive, totalMessages := totalMessages), accepted)
  {
  }

  /** `k` consecutive free messages on `today`: how many are accepted, and the row afterwards. */
  function SendFree(row: Database.User, today: int, k: nat): (r: (nat, Database.User))
    ensures r.0 <= k
    decreases k
  {
    if k == 0 then (0, row)
    else
      var (row1, accepted) := FreeMessageGate(row, today);
      var (n, last) := SendFree(row1, today, k - 1);
      ((if accepted then 1 else 0) + n, last)
  }

  function Min(a: int, b: int): int { if a <= b then a else b }
  function Max(a: int, b: int): int { if a <= b then b else a }

  /** The counter a day starts from: the stored one on the same day, 0 on a new day. */
  function StartCount(row: Database.User, today: int): int {
    if row.lastNightDate == Some(today) then row.nightCount else 0
  }

  /**
   * How many free messages are left today: 3 + bonus - counted on the same
   * day; on a new day the first message always passes, since the reset
   * reports 0 before the bonus is taken into account.
   */
  function Allowance(row: Database.User, today: int): int {
    var room := FREE_MESSAGES + Database.BonusOrZero(row.bonus) - StartCount(row, today);
    if row.lastNightDate == Some(today) then Max(0, room) else Max(1, room)
  }

  /**
   * Within one day a free user gets exactly the allowance of accepted
   * messages, whatever the number sent, and only accepted messages are
   * counted.
   */
  lemma {:induction false} FreeQuotaPerDay(row: Database.User, today: int, k: nat)
    ensures SendFree(row, today, k).0 == Min(k, Allowance(row, today))
    ensures k > 0 ==> SendFree(row, today, k).1.nightCount == StartCount(row, today) + SendFree(row, today, k).0
    ensures k > 0 ==> SendFree(row, today, k).1.lastNightDate == Some(today)
    decreases k
  {
    if k > 0 {
      var (row1, accepted) := FreeMessageGate(row, today);
      assert row1.lastNightDate == Some(today) && row1.bonus == row.bonus;
      assert StartCount(row1, today) == StartCount(row, today) + (if accepted then 1 else 0);
      assert accepted <==> Allowance(row, today) > 0;
      FreeQuotaPerDay(row1, today, k - 1);
    }
  }

  /** Exactly three messages pass on a fresh day without bonus: the fourth is rejected and not counted. */
  lemma ThreeFreeMessagesADay(row: Database.User, today: int)
    requires row.lastNightDate != Some(today)
    requires Database.BonusOrZero(row.bonus) == 0
    ensures SendFree(row, today, 3).0 == 3
    ensures SendFree(row, today, 4).0 == 3
    ensures SendFree(row, today, 4).1.nightCount == 3
  {
    FreeQuotaPerDay(row, today, 3);
    FreeQuotaPerDay(row, today, 4);
  }

  /** A new day starts over: whatever was counted before, the next message passes and the counter reads 1. */
  lemma NewDayStartsOver(row: Database.User, today: int)
    requires row.lastNightDate != Some(today)
    ensures FreeMessageGate(row, today) == (row.(nightCount := 1, lastNightDate := Some(today)), true)
  {
  }

  /** A bonus offsets the counter: with bonus b the day's counter may reach 3 + b, and beyond 3 the stored count is not clamped. */
  lemma BonusOffsetsCounter(row: Database.User, today: int)
    requires row.lastNightDate == Some(today)
    requires row.bonus == Some(5) && row.nightCount == 5
    ensures FreeMessageGate(row, today) == (row.(nightCount := 6), true)
  {
  }

  // -----------------------------------------------------------------------
  // Handler results
  // -----------------------------------------------------------------------

  /** What cmd_start / back_to_menu say about the trial. */
  datatype TrialNote = NoTrialNote | TrialGranted | TrialEnded | TrialUntil(until: int)

  datatype Welcome = Ignored | Welcome(greetingKey: string, trial: TrialNote, status: Access, menu: seq<Button>)

  datatype EndReply =
    | ConfessionEnded(deleted: nat, attempts: seq<int>)
    | DialogueEnded(menu: seq<Button>)
    | NoActiveDialogue(menu: seq<Button>)

  datatype ConfessionalReply = ConfessionalRefused(status: Access) | ConfessionalStarted | ConfessionalAborted

  datatype StoryReply = StoryRefused(status: Access) | StoryDelivered | StoryError

  datatype MessageReply =
    | ChooseMode(menu: seq<Button>)
    | SessionExpired(attempts: seq<int>)
    | LimitReached
    | Answered(text: string)
    | FallbackSent

  /** A confessional session past its forty minutes (strictly). */
  predicate Expired(s: Session, now: int) {
    s.confessional && now - s.startTime > CONFESSIONAL_SECONDS
  }

  /** The row after the trial close-out: an unused trial that lapsed strictly before now is marked used. */
  function ClosedOutTrial(row: Database.User, now: int): Database.User {
    row.(trialUsed := row.trialUsed || (row.trialUntil.Some? && row.trialUntil.value < now))
  }

  /** What the trial close-out reports: ended, running until its expiry, or nothing for a used or absent trial. */
  function TrialNoteFor(row: Database.User, now: int): TrialNote {
    if row.trialUntil.None? || row.trialUsed then NoTrialNote
    else if row.trialUntil.value < now then TrialEnded
    else TrialUntil(row.trialUntil.value)
  }

  /**
   * The tables after /start admits a user who is not blocked. A new user gets a fresh row with a
   * trial, and a valid referral start records a pending edge and credits a known referrer with
   * SIGNUP_BONUS messages. A returning user is stamped active, and a lapsed trial is closed out.
   */
  ghost predicate Admitted(users0: map<int, Database.User>, referrals0: map<int, Database.Referral>,
                           users1: map<int, Database.User>, referrals1: map<int, Database.Referral>,
                           u: int, username: Option<string>, languageCode: Option<string>,
                           startParam: Option<string>, now: int, note: TrialNote)
  {
    if u !in users0 then
      var referrer := Referral.ParseReferralStart(startParam);
      var added := users0[u := Database.NewUser(username, Bot.StartLanguage(languageCode), referrer, now)];
      && note == TrialGranted
      && users1 == (if Database.RecordsReferral(u, referrer) && referrer.value in users0
                    then added[referrer.value := added[referrer.value].(bonus :=
                           Database.AddToNullable(added[referrer.value].bonus, SIGNUP_BONUS))]
                    else added)
      && referrals1 == (if Database.RecordsReferral(u, referrer)
                        then referrals0[u := Database.Referral(referrer.value, Database.Pending, None)]
                        else referrals0)
    else
      var row := users0[u];
      && referrals1 == referrals0
      && users1 == users0[u := ClosedOutTrial(row.(lastActive := now, totalMessages := row.totalMessages + 1), now)]
      && note == TrialNoteFor(row, now)
  }

  /**
   * The tables after a monthly premium purchase: the buyer (when known) gets
   * PREMIUM_DAYS more premium days, then a pending referral of the buyer is
   * converted and a known referrer is credited one referral and
   * CONVERSION_BONUS messages.
   */
  function PremiumPurchase(users: map<int, Database.User>, referrals: map<int, Database.Referral>, u: int, now: int)
    : (r: (map<int, Database.User>, map<int, Database.Referral>))
    ensures r.0.Keys == users.Keys && r.1.Keys == referrals.Keys
    ensures u in users ==> r.0[u].isPremium && r.0[u].premiumUntil.Some? && r.0[u].premiumUntil.value > now
    ensures u in referrals ==> r.1[u].status == Database.Converted && r.1[u].referrer == referrals[u].referrer
    ensures forall v :: v in referrals && v != u ==> r.1[v] == referrals[v]
  {
    var bought := if u in users
      then users[u := users[u].(premiumUntil := Some(Database.ExtendedPremium(users[u], PREMIUM_DAYS, now)), isPremium := true)]
      else users;
    if u in referrals && referrals[u].status == Database.Pending then
      var referrer := referrals[u].referrer;
      var credited := if referrer in bought
        then bought[referrer := bought[referrer].(referralCount := bought[referrer].referralCount + 1,
                                                  bonus := Database.AddToNullable(bought[referrer].bonus, Database.CONVERSION_BONUS))]
        else bought;
      (credited, referrals[u := Database.Referral(referrer, Database.Converted, Some(now))])
    else
      assert u in referrals ==> referrals[u].status.Converted?;
      (bought, referrals)
  }

  function OptionToSeq(o: Option<int>): seq<int> {
    if o.Some? then [o.value] else []
  }

  class Bot {
    const db: Database.Database
    /** `user_sessions` */
    var sessions: map<int, Session>
    /** `user_limits` */
    var limits: map<int, Limits>
    /** `confessional_messages` */
    var confessionalMessages: map<int, seq<int>>

    /** Every confessional session has a message-id list, and is never a paid temporary one. */
    ghost predicate Valid()
      reads this, db
    {
      && db.Valid()
      && (forall v :: v in sessions && sessions[v].confessional ==> v in confessionalMessages && !sessions[v].premiumTemp)
      && CountsNonNegative(limits)
    }

    constructor (db: Database.Database)
      requires db.Valid()
      ensures Valid() && this.db == db
      ensures sessions == map[] && limits == map[] && confessionalMessages == map[]
    {
      this.db := db;
      sessions := map[];
      limits := map[];
      confessionalMessages := map[];
    }

    /** The recorded confessional message ids (`confessional_messages.get(u, [])`). */
    function RecordedIds(u: int): seq<int>
      reads this
    {
      if u in confessionalMessages then confessionalMessages[u] else []
    }

    /** has_full_access: premium, or an active trial, or a paid temporary session. */
    function HasFullAccess(u: int, now: int): (full: bool)
      reads this, db
      ensures full <==> db.IsPremium(u, now) || db.IsTrialActive(u, now) || (u in sessions && sessions[u].premiumTemp)
    {
      db.IsPremium(u, now) || db.IsTrialActive(u, now) || (u in sessions && sessions[u].premiumTemp)
    }

    /**
     * get_access_status: the first that applies of premium, trial, temporary
     * session; free otherwise. Free exactly when there is no full access.
     */
    function AccessStatus(u: int, now: int): (a: Access)
      reads this, db
      ensures a == FreeAccess <==> !HasFullAccess(u, now)
      ensures a == PremiumAccess <==> db.IsPremium(u, now)
      ensures a.TrialAccess? <==> !db.IsPremium(u, now) && db.IsTrialActive(u, now)
      ensures a.TrialAccess? ==> a.until == db.users[u].trialUntil.value && a.until > now
      ensures a == TemporarySession <==>
                !db.IsPremium(u, now) && !db.IsTrialActive(u, now) && u in sessions && sessions[u].premiumTemp
    {
      if db.IsPremium(u, now) then PremiumAccess
      else if db.IsTrialActive(u, now) then TrialAccess(db.users[u].trialUntil.value)
      else if u in sessions && sessions[u].premiumTemp then TemporarySession
      else FreeAccess
    }

    /** check_and_init_limits: today's record for `u`, installed fresh on a new day. */
    method CheckAndInitLimits(u: int, today: int) returns (lim: Limits)
      requires Valid()
      modifies this`limits
      ensures Valid()
      ensures limits == InitLimits(old(limits), u, today)
      ensures lim == limits[u] && lim.date == today
    {
      if u !in limits || limits[u].date != today {
        limits := limits[u := FreshLimits(today)];
      }
      lim := limits[u];
    }

    /**
     * The trial close-out of cmd_start and back_to_menu: an unused trial whose
     * expiry is strictly before now is ended; an unused one still running is
     * reported with its expiry.
     */
    method CloseOutTrial(u: int, now: int) returns (note: TrialNote)
      requires Valid()
      requires u in db.users
      modifies db`users
      ensures Valid()
      ensures var row := old(db.users[u]);
              && (row.trialUntil.Some? && !row.trialUsed && row.trialUntil.value < now ==>
                    note == TrialEnded && db.users == old(db.users)[u := row.(trialUsed := true)])
              && (row.trialUntil.Some? && !row.trialUsed && row.trialUntil.value >= now ==>
                    note == TrialUntil(row.trialUntil.value) && db.users == old(db.users))
              && (row.trialUntil.None? || row.trialUsed ==> note == NoTrialNote && db.users == old(db.users))
      ensures db.users == old(db.users)[u := ClosedOutTrial(old(db.users)[u], now)]
      ensures note == TrialNoteFor(old(db.users)[u], now)
      ensures Database.Evolves(old(db.users), db.users, db.referrals, db.referrals)
    {
      var row := db.users[u];
      note := NoTrialNote;
      if row.trialUntil.Some? && !row.trialUsed {
        if row.trialUntil.value < now {
          db.EndTrial(u);
          note := TrialEnded;
        } else {
          note := TrialUntil(row.trialUntil.value);
        }
      }
    }

    /** cmd_start's language: the client's code or "ru", and "ru" for any code outside ru/en/es/de. */
    static function StartLanguage(languageCode: Option<string>): (lang: string)
      ensures lang in START_LANGS
      ensures languageCode.Some? && languageCode.value in START_LANGS ==> lang == languageCode.value
      ensures !(languageCode.Some? && languageCode.value in START_LANGS) ==> lang == "ru"
    {
      var code := if languageCode.None? || languageCode.value == "" then "ru" else languageCode.value;
      if code in START_LANGS then code else "ru"
    }

    /**
     * The registration branch of cmd_start: add_user, then five bonus
     * messages for a referrer that is present, non-zero and not the user.
     */
    method Register(u: int, username: Option<string>, lang: string, referrer: Option<int>, now: int)
      requires Valid()
      requires u !in db.users
      modifies db`users, db`referrals
      ensures Valid()
      ensures var added := old(db.users)[u := Database.NewUser(username, lang, referrer, now)];
              db.users == (if Database.RecordsReferral(u, referrer) && referrer.value in old(db.users)
                           then added[referrer.value := added[referrer.value].(bonus :=
                                  Database.AddToNullable(added[referrer.value].bonus, SIGNUP_BONUS))]
                           else added)
      ensures db.referrals == (if Database.RecordsReferral(u, referrer)
                               then old(db.referrals)[u := Database.Referral(referrer.value, Database.Pending, None)]
                               else old(db.referrals))
      ensures Database.Evolves(old(db.users), db.users, old(db.referrals), db.referrals)
    {
      var _ := db.AddUser(u, username, lang, referrer, now);
      if Database.RecordsReferral(u, referrer) {
        db.AddBonusMessages(referrer.value, SIGNUP_BONUS);
      }
    }

    /** The returning-user branch of cmd_start: the activity stamp, then the trial close-out. */
    method WelcomeBack(u: int, now: int) returns (note: TrialNote)
      requires Valid()
      requires u in db.users
      modifies db`users
      ensures Valid()
      ensures var row := old(db.users)[u];
              && db.users == old(db.users)[u := ClosedOutTrial(row.(lastActive := now, totalMessages := row.totalMessages + 1), now)]
              && note == TrialNoteFor(row, now)
      ensures Database.Evolves(old(db.users), db.users, db.referrals, db.referrals)
    {
      ghost var row := db.users[u];
      db.UpdateLastActive(u, now);
      ghost var stamped := db.users[u];
      assert stamped == row.(lastActive := now, totalMessages := row.totalMessages + 1);
      note := CloseOutTrial(u, now);
      assert TrialNoteFor(stamped, now) == TrialNoteFor(row, now);
    }

    /**
     * cmd_start: ignores a blocked user; otherwise initialises the daily
     * limits, registers a new user (crediting a referrer other than the user
     * with five bonus messages) or stamps a returning one and closes out a
     * lapsed trial, and answers with the greeting, the status and the menu.
     */
    method CmdStart(u: int, username: Option<string>, languageCode: Option<string>, startParam: Option<string>,
                    now: int, today: int, hour: int) returns (welcome: Welcome)
      requires Valid()
      requires 0 <= hour < 24
      modifies this`limits, db`users, db`referrals
      ensures Valid()
      ensures old(db.IsBlocked(u)) ==>
                welcome == Ignored && limits == old(limits) && db.users == old(db.users) && db.referrals == old(db.referrals)
      ensures !old(db.IsBlocked(u)) ==> limits == InitLimits(old(limits), u, today) && welcome.Welcome?
      ensures !old(db.IsBlocked(u)) ==>
                Admitted(old(db.users), old(db.referrals), db.users, db.referrals,
                         u, username, languageCode, startParam, now, welcome.trial)
      ensures welcome.Welcome? ==>
                && welcome.greetingKey == NightGreetingKey(hour)
                && welcome.status == AccessStatus(u, now)
                && welcome.menu == MainMenu(HasFullAccess(u, now), false)
      ensures Database.Evolves(old(db.users), db.users, old(db.referrals), db.referrals)
    {
      if db.IsBlocked(u) {
        return Ignored;
      }
      var _ := CheckAndInitLimits(u, today);
      assert db.users == old(db.users) && db.referrals == old(db.referrals);
      var note := Admit(u, username, languageCode, startParam, now);
      return Welcome(NightGreetingKey(hour), note, AccessStatus(u, now), MainMenu(HasFullAccess(u, now), false));
    }

    /** The part of /start after the block check: register a new user or welcome back a known one. */
    method Admit(u: int, username: Option<string>, languageCode: Option<string>, startParam: Option<string>, now: int)
      returns (note: TrialNote)
      requires Valid()
      modifies db`users, db`referrals
      ensures Valid()
      ensures Admitted(old(db.users), old(db.referrals), db.users, db.referrals,
                       u, username, languageCode, startParam, now, note)
      ensures Database.Evolves(old(db.users), db.users, old(db.referrals), db.referrals)
    {
      var lang := StartLanguage(languageCode);
      var referrer := Referral.ParseReferralStart(startParam);
      if u !in db.users {
        Register(u, username, lang, referrer, now);
        note := TrialGranted;
      } else {
        ghost var row := db.users[u];
        note := WelcomeBack(u, now);
        assert db.users == old(db.users)[u := ClosedOutTrial(row.(lastActive := now, totalMessages := row.totalMessages + 1), now)];
      }
    }

    /** back_to_menu: the trial close-out for a known user, then the greeting, status and menu. */
    method BackToMenu(u: int, now: int, hour: int) returns (welcome: Welcome)
      requires Valid()
      requires 0 <= hour < 24
      modifies db`users
      ensures Valid()
      ensures welcome.Welcome?
      ensures u !in old(db.users) ==> db.users == old(db.users) && welcome.trial == NoTrialNote
      ensures u in old(db.users) ==>
                db.users == old(db.users)[u := ClosedOutTrial(old(db.users)[u], now)] && welcome.trial == TrialNoteFor(old(db.users)[u], now)
      ensures welcome.greetingKey == NightGreetingKey(hour)
      ensures welcome.status == AccessStatus(u, now) && welcome.menu == MainMenu(HasFullAccess(u, now), false)
      ensures Database.Evolves(old(db.users), db.users, db.referrals, db.referrals)
    {
      var note := NoTrialNote;
      if u in db.users {
        note := CloseOutTrial(u, now);
      }
      return Welcome(NightGreetingKey(hour), note, AccessStatus(u, now), MainMenu(HasFullAccess(u, now), false));
    }

    /**
     * start_chat: a free user whose effective count has reached 3 is refused
     * (the check may still reset the counter on a new day); otherwise a
     * session row is opened and an ordinary session replaces any current one.
     */
    method StartChat(u: int, now: int, today: int) returns (started: bool)
      requires Valid()
      modifies this`sessions, db`users, db`sessions, db`nextSessionId
      ensures Valid()
      ensures !old(HasFullAccess(u, now)) && u in old(db.users) ==>
                && started == (Database.NightCheck(old(db.users)[u], today).1 < FREE_MESSAGES)
                && db.users == old(db.users)[u := Database.NightCheck(old(db.users)[u], today).0]
      ensures old(HasFullAccess(u, now)) || u !in old(db.users) ==> started && db.users == old(db.users)
      ensures !started ==>
                sessions == old(sessions) && db.sessions == old(db.sessions) && db.nextSessionId == old(db.nextSessionId)
      ensures started ==>
                && db.sessions == old(db.sessions)[old(db.nextSessionId) :=
                     Database.SessionRow(u, false, now, now + Database.SESSION_SECONDS, true)]
                && db.nextSessionId == old(db.nextSessionId) + 1
                && sessions == old(sessions)[u := Session(old(db.nextSessionId), false, [], now, false)]
      ensures Database.Evolves(old(db.users), db.users, db.referrals, db.referrals)
    {
      if !HasFullAccess(u, now) {
        var count := db.CheckAndResetNightCounter(u, today);
        if count >= FREE_MESSAGES {
          return false;
        }
      }
      var id := db.StartSession(u, false, now);
      sessions := sessions[u := Session(id, false, [], now, false)];
      return true;
    }

    /**
     * start_confessional: a user without full access who already had a
     * confessional today is refused. Otherwise the id list is emptied, a
     * confessional session replaces any current one, and, when the user now
     * lacks full access, the day's confessional count goes up by one (the
     * handler aborts with a KeyError when no limits record exists).
     */
    method StartConfessional(u: int, now: int, today: int) returns (reply: ConfessionalReply)
      requires Valid()
      modifies this`sessions, this`limits, this`confessionalMessages
      ensures Valid()
      ensures !old(HasFullAccess(u, now)) ==>
                && reply != ConfessionalAborted
                && (reply == ConfessionalStarted <==> FreeConfessional(old(limits), u, today).1)
                && limits == FreeConfessional(old(limits), u, today).0
      ensures old(db.IsPremium(u, now) || db.IsTrialActive(u, now)) ==>
                reply == ConfessionalStarted && limits == old(limits)
      ensures old(HasFullAccess(u, now)) && !old(db.IsPremium(u, now) || db.IsTrialActive(u, now)) ==>
                if u in old(limits)
                then reply == ConfessionalStarted &&
                     limits == old(limits)[u := old(limits)[u].(confessionalCount := old(limits)[u].confessionalCount + 1)]
                else reply == ConfessionalAborted && limits == old(limits)
      ensures !reply.ConfessionalRefused? ==>
                && sessions == old(sessions)[u := Session(0, true, [], now, false)]
                && confessionalMessages == old(confessionalMessages)[u := []]
      ensures reply.ConfessionalRefused? ==> sessions == old(sessions) && confessionalMessages == old(confessionalMessages)
      ensures reply.ConfessionalRefused? ==> reply.status == old(AccessStatus(u, now))
    {
      if !HasFullAccess(u, now) {
        var lim := CheckAndInitLimits(u, today);
        if lim.confessionalCount >= FREE_CONFESSIONALS {
          return ConfessionalRefused(AccessStatus(u, now));
        }
      }
      confessionalMessages := confessionalMessages[u := []];
      sessions := sessions[u := Session(0, true, [], now, false)];
      if !HasFullAccess(u, now) {
        if u !in limits {
          return ConfessionalAborted;
        }
        limits := limits[u := limits[u].(confessionalCount := limits[u].confessionalCount + 1)];
      }
      return ConfessionalStarted;
    }

    /**
     * generate_story: a user without full access whose story is used today
     * is refused. Otherwise the story is generated; once it is delivered,
     * a user who (at that later instant) lacks full access has the day's
     * story flag set, or the handler falls into its error reply when there is
     * no limits record. `delivered` is false when showing the story failed.
     */
    method GenerateStory(u: int, now: int, later: int, today: int, delivered: bool) returns (reply: StoryReply)
      requires Valid()
      modifies this`limits
      ensures Valid()
      ensures !old(HasFullAccess(u, now)) ==>
                (reply.StoryRefused? <==> InitLimits(old(limits), u, today)[u].storyUsed)
      ensures old(HasFullAccess(u, now)) ==> !reply.StoryRefused?
      ensures reply.StoryRefused? ==> reply.status == old(AccessStatus(u, now))
      ensures reply == StoryDelivered <==> !reply.StoryRefused? && delivered && (HasFullAccess(u, later) || u in limits)
      ensures var before := if old(HasFullAccess(u, now)) then old(limits) else InitLimits(old(limits), u, today);
              && (reply == StoryDelivered && !HasFullAccess(u, later) ==> u in before && limits == before[u := before[u].(storyUsed := true)])
              && (reply != StoryDelivered || HasFullAccess(u, later) ==> limits == before)
    {
      if !HasFullAccess(u, now) {
        var lim := CheckAndInitLimits(u, today);
        if lim.storyUsed {
          return StoryRefused(AccessStatus(u, now));
        }
      }
      if !delivered {
        return StoryError;
      }
      if !HasFullAccess(u, later) {
        if u !in limits {
          return StoryError;
        }
        limits := limits[u := limits[u].(storyUsed := true)];
      }
      return StoryDelivered;
    }

    /**
     * successful_payment: the monthly purchase adds 30 premium days and
     * converts a pending referral; the deep session opens a session row and
     * installs an ordinary session marked as paid, replacing any current
     * one and with no expiry of its own. Other payloads change nothing.
     */
    method SuccessfulPayment(u: int, payload: string, now: int)
      requires Valid()
      modifies this`sessions, db`users, db`referrals, db`sessions, db`nextSessionId
      ensures Valid()
      ensures payload == "premium_1month" ==>
                && sessions == old(sessions)
                && db.sessions == old(db.sessions) && db.nextSessionId == old(db.nextSessionId)
                && (db.users, db.referrals) == PremiumPurchase(old(db.users), old(db.referrals), u, now)
                && (u in old(db.users) ==>
                      && db.IsPremium(u, now)
                      && db.users[u].premiumUntil == Some(Database.ExtendedPremium(old(db.users)[u], PREMIUM_DAYS, now)))
                && (u in old(db.referrals) ==> u in db.referrals && db.referrals[u].status == Database.Converted)
      ensures payload == "deep_session" ==>
                && sessions == old(sessions)[u := Session(old(db.nextSessionId), false, [], now, true)]
                && HasFullAccess(u, now)
                && db.users == old(db.users) && db.referrals == old(db.referrals)
                && db.sessions == old(db.sessions)[old(db.nextSessionId) :=
                     Database.SessionRow(u, false, now, now + Database.SESSION_SECONDS, true)]
                && db.nextSessionId == old(db.nextSessionId) + 1
      ensures payload != "premium_1month" && payload != "deep_session" ==>
                && sessions == old(sessions) && db.users == old(db.users) && db.referrals == old(db.referrals)
                && db.sessions == old(db.sessions) && db.nextSessionId == old(db.nextSessionId)
      ensures Database.Evolves(old(db.users), db.users, old(db.referrals), db.referrals)
    {
      if payload == "premium_1month" {
        db.AddPremium(u, PREMIUM_DAYS, now);
        var _ := db.ProcessReferralConversion(u, now);
      } else if payload == "deep_session" {
        var id := db.StartSession(u, false, now);
        sessions := sessions[u := Session(id, false, [], now, true)];
      }
    }

    /**
     * end_session (the button): a confessional session tries to delete every
     * recorded id, reports how many went, empties the list and is dropped; an
     * ordinary one marks its row inactive and is dropped; with no session
     * nothing changes.
     */
    method EndSession(u: int, now: int, deleteOk: int -> bool) returns (reply: EndReply)
      requires Valid()
      modifies this`sessions, this`confessionalMessages, db`sessions
      ensures Valid()
      ensures u !in old(sessions) ==>
                && reply == NoActiveDialogue(MainMenu(HasFullAccess(u, now), false))
                && sessions == old(sessions) && confessionalMessages == old(confessionalMessages)
                && db.sessions == old(db.sessions)
      ensures u in old(sessions) && old(sessions)[u].confessional ==>
                && reply.ConfessionEnded? && reply.attempts == old(RecordedIds(u))
                && reply.deleted == |Deleted(old(RecordedIds(u)), deleteOk)| <= |old(RecordedIds(u))|
                && confessionalMessages == old(confessionalMessages)[u := []]
                && sessions == old(sessions) - {u}
                && db.sessions == old(db.sessions)
      ensures u in old(sessions) && !old(sessions)[u].confessional ==>
                var id := old(sessions)[u].id;
                && reply == DialogueEnded(MainMenu(HasFullAccess(u, now), false))
                && sessions == old(sessions) - {u}
                && confessionalMessages == old(confessionalMessages)
                && (id in old(db.sessions) ==> db.sessions == old(db.sessions)[id := old(db.sessions)[id].(isActive := false)])
                && (id !in old(db.sessions) ==> db.sessions == old(db.sessions))
    {
      if u in sessions && sessions[u].confessional {
        var attempts, deleted := Retract(RecordedIds(u), deleteOk);
        confessionalMessages := confessionalMessages[u := []];
        sessions := sessions - {u};
        return ConfessionEnded(deleted, attempts);
      } else if u in sessions {
        db.EndSession(sessions[u].id);
        sessions := sessions - {u};
        return DialogueEnded(MainMenu(HasFullAccess(u, now), false));
      }
      return NoActiveDialogue(MainMenu(HasFullAccess(u, now), false));
    }

    /**
     * end_session_manual: for a confessional session, tries to delete every
     * recorded id, empties the list and drops the session; anything else is
     * left alone. Returns the delete requests made.
     */
    method EndSessionManual(u: int, deleteOk: int -> bool) returns (attempts: seq<int>)
      requires Valid()
      modifies this`sessions, this`confessionalMessages
      ensures Valid()
      ensures u in old(sessions) && old(sessions)[u].confessional ==>
                && attempts == old(RecordedIds(u))
                && confessionalMessages == old(confessionalMessages)[u := []]
                && sessions == old(sessions) - {u}
      ensures !(u in old(sessions) && old(sessions)[u].confessional) ==>
                attempts == [] && sessions == old(sessions) && confessionalMessages == old(confessionalMessages)
    {
      attempts := [];
      if u in sessions && sessions[u].confessional {
        var deleted;
        attempts, deleted := Retract(RecordedIds(u), deleteOk);
        confessionalMessages := confessionalMessages[u := []];
        sessions := sessions - {u};
      }
    }

    /**
     * The quota gate of process_message: a free user outside confessional
     * mode goes through FreeMessageGate; anyone else passes and no counter
     * moves. An unknown user passes too (the check reports 0).
     */
    method QuotaGate(u: int, confessional: bool, full: bool, today: int) returns (accepted: bool)
      requires Valid()
      modifies db`users
      ensures Valid()
      ensures confessional || full || u !in old(db.users) ==> accepted && db.users == old(db.users)
      ensures !confessional && !full && u in old(db.users) ==>
                && accepted == FreeMessageGate(old(db.users)[u], today).1
                && db.users == old(db.users)[u := FreeMessageGate(old(db.users)[u], today).0]
      ensures db.users.Keys == old(db.users).Keys
      ensures u in db.users ==>
                db.users[u].lastActive == old(db.users)[u].lastActive &&
                db.users[u].totalMessages == old(db.users)[u].totalMessages
      ensures Database.Evolves(old(db.users), db.users, db.referrals, db.referrals)
    {
      accepted := true;
      if !full && !confessional {
        var count := db.CheckAndResetNightCounter(u, today);
        if count >= FREE_MESSAGES {
          return false;
        }
        db.IncrementNightCounter(u);
      }
    }

    /**
     * The reply step of process_message: the user turn joins the history;
     * a delivered reply (its id in `sent`) is recorded for a confessional,
     * the history keeps its last ten turns, and an ordinary session stores
     * both turns; a failed delivery leaves the user turn alone in the
     * history, untruncated.
     */
    method Respond(u: int, session: Session, text: string, reply: string, sent: Option<int>) returns (outcome: MessageReply)
      requires Valid()
      requires u in sessions && sessions[u] == session
      modifies this`sessions, this`confessionalMessages, db`conversations
      ensures Valid()
      ensures sent.None? ==>
                && outcome == FallbackSent
                && sessions == old(sessions)[u := session.(messages := session.messages + [Turn(UserRole, text)])]
                && confessionalMessages == old(confessionalMessages)
                && db.conversations == old(db.conversations)
      ensures sent.Some? ==>
                && outcome == Answered(reply)
                && sessions == old(sessions)[u := session.(messages :=
                     LastTurns(session.messages + [Turn(UserRole, text), Turn(AssistantRole, reply)], HISTORY_TURNS))]
      ensures sent.Some? && session.confessional ==>
                && confessionalMessages == old(confessionalMessages)[u := old(RecordedIds(u)) + [sent.value]]
                && db.conversations == old(db.conversations)
      ensures sent.Some? && !session.confessional ==>
                && confessionalMessages == old(confessionalMessages)
                && db.conversations == old(db.conversations) +
                     [Database.ConversationRow(u, session.id, text, true, false),
                      Database.ConversationRow(u, session.id, reply, false, false)]
    {
      if sent.None? {
        sessions := sessions[u := session.(messages := session.messages + [Turn(UserRole, text)])];
        return FallbackSent;
      }
      RecordAnswer(u, session, text, reply, sent.value);
      return Answered(reply);
    }

    /**
     * A delivered reply: its id joins a confessional's list, the history
     * keeps the last ten turns, and an ordinary session stores both turns.
     */
    method RecordAnswer(u: int, session: Session, text: string, reply: string, id: int)
      requires Valid()
      requires u in sessions && sessions[u] == session
      modifies this`sessions, this`confessionalMessages, db`conversations
      ensures Valid()
      ensures sessions == old(sessions)[u := session.(messages :=
                LastTurns(session.messages + [Turn(UserRole, text), Turn(AssistantRole, reply)], HISTORY_TURNS))]
      ensures session.confessional ==>
                && confessionalMessages == old(confessionalMessages)[u := old(RecordedIds(u)) + [id]]
                && db.conversations == old(db.conversations)
      ensures !session.confessional ==>
                && confessionalMessages == old(confessionalMessages)
                && db.conversations == old(db.conversations) +
                     [Database.ConversationRow(u, session.id, text, true, false),
                      Database.ConversationRow(u, session.id, reply, false, false)]
    {
      if session.confessional {
        confessionalMessages := confessionalMessages[u := confessionalMessages[u] + [id]];
      } else {
        StoreExchange(u, session.id, text, reply);
      }
      sessions := sessions[u := session.(messages :=
        LastTurns(session.messages + [Turn(UserRole, text), Turn(AssistantRole, reply)], HISTORY_TURNS))];
    }


    /** The two add_message calls after an ordinary reply: the user turn, then the assistant turn. */
    method StoreExchange(u: int, sessionId: int, text: string, reply: string)
      requires db.Valid()
      modifies db`conversations
      ensures db.Valid()
      ensures db.conversations == old(db.conversations) +
                [Database.ConversationRow(u, sessionId, text, true, false),
                 Database.ConversationRow(u, sessionId, reply, false, false)]
    {
      db.AddMessage(u, sessionId, text, true, false);
      db.AddMessage(u, sessionId, reply, false, false);
    }

    /**
     * process_message once a session exists: records the incoming id of a
     * confessional, closes an expired confessional, applies the quota gate
     * and answers.
     */
    method Converse(u: int, text: string, original: Option<int>, now: int, today: int,
                    reply: string, sent: Option<int>, deleteOk: int -> bool) returns (outcome: MessageReply)
      requires Valid()
      requires u in sessions
      modifies this`sessions, this`confessionalMessages, db`users, db`conversations
      ensures Valid()
      ensures db.users.Keys == old(db.users).Keys
      ensures u in db.users ==>
                db.users[u].lastActive == old(db.users)[u].lastActive &&
                db.users[u].totalMessages == old(db.users)[u].totalMessages
      ensures outcome.SessionExpired? <==> Expired(old(sessions)[u], now)
      ensures outcome.SessionExpired? ==>
                && outcome.attempts == old(RecordedIds(u)) + OptionToSeq(original)
                && sessions == old(sessions) - {u}
                && confessionalMessages == old(confessionalMessages)[u := []]
      ensures !outcome.SessionExpired? ==>
                confessionalMessages == (if old(sessions)[u].confessional
                                            then old(confessionalMessages)[u := old(RecordedIds(u)) + OptionToSeq(original) +
                                                   (if outcome.Answered? then OptionToSeq(sent) else [])]
                                            else old(confessionalMessages))
      ensures old(sessions)[u].confessional || old(HasFullAccess(u, now)) || u !in old(db.users) ==>
                !outcome.LimitReached? && db.users == old(db.users)
      ensures !old(sessions)[u].confessional && !old(HasFullAccess(u, now)) && u in old(db.users) ==>
                && (outcome.LimitReached? <==> !FreeMessageGate(old(db.users)[u], today).1)
                && db.users == old(db.users)[u := FreeMessageGate(old(db.users)[u], today).0]
      ensures outcome.LimitReached? ==> sessions == old(sessions) && db.conversations == old(db.conversations)
      ensures outcome.Answered? || outcome == FallbackSent <==> !Expired(old(sessions)[u], now) && !outcome.LimitReached?
      ensures outcome.Answered? ==> sent.Some? && outcome.text == reply
      ensures outcome == FallbackSent <==> (outcome.Answered? || outcome == FallbackSent) && sent.None?
      ensures outcome.Answered? ==>
                && sessions == old(sessions)[u := old(sessions)[u].(messages :=
                     LastTurns(old(sessions)[u].messages + [Turn(UserRole, text), Turn(AssistantRole, reply)], HISTORY_TURNS))]
                && (old(sessions)[u].confessional ==>
                      confessionalMessages == old(confessionalMessages)[u := old(RecordedIds(u)) + OptionToSeq(original) + [sent.value]])
                && (!old(sessions)[u].confessional ==>
                      var id := old(sessions)[u].id;
                      db.conversations == old(db.conversations) +
                        [Database.ConversationRow(u, id, text, true, false), Database.ConversationRow(u, id, reply, false, false)])
      ensures outcome == FallbackSent ==>
                sessions == old(sessions)[u := old(sessions)[u].(messages := old(sessions)[u].messages + [Turn(UserRole, text)])]
      ensures !outcome.Answered? || old(sessions)[u].confessional ==> db.conversations == old(db.conversations)
      ensures Database.Evolves(old(db.users), db.users, db.referrals, db.referrals)
    {
      var session := sessions[u];
      if session.confessional && original.Some? {
        confessionalMessages := confessionalMessages[u := RecordedIds(u) + [original.value]];
      }
      assert RecordedIds(u) == old(RecordedIds(u)) + OptionToSeq(original) || !session.confessional;
      assert session.confessional ==>
               confessionalMessages == old(confessionalMessages)[u := old(RecordedIds(u)) + OptionToSeq(original)];
      if session.confessional && now - session.startTime > CONFESSIONAL_SECONDS {
        var attempts := EndSessionManual(u, deleteOk);
        return SessionExpired(attempts);
      }
      var accepted := QuotaGate(u, session.confessional, HasFullAccess(u, now), today);
      if !accepted {
        return LimitReached;
      }
      ghost var recorded := confessionalMessages;
      outcome := Respond(u, session, text, reply, sent);
      if session.confessional && outcome.Answered? {
        assert confessionalMessages == recorded[u := recorded[u] + [sent.value]];
        assert OptionToSeq(sent) == [sent.value];
        assert confessionalMessages == old(confessionalMessages)[u := old(RecordedIds(u)) + OptionToSeq(original) + OptionToSeq(sent)];
      } else if session.confessional {
        assert old(RecordedIds(u)) + OptionToSeq(original) + [] == old(RecordedIds(u)) + OptionToSeq(original);
      } else {
        assert confessionalMessages == old(confessionalMessages);
      }
    }

    /**
     * process_message: initialises the day's limits and stamps activity;
     * without a session asks for a mode. In a confessional session the
     * incoming id is recorded, and a session older than forty minutes
     * (strictly) is closed instead of answered. A free user outside
     * confessional mode passes the quota gate or is refused. Then the user
     * turn joins the history; when the reply is delivered (`sent` carries its
     * id) the history keeps its last ten turns and, outside confessional
     * mode, both turns are stored; when delivery fails the fallback is sent
     * and the history keeps the user turn untruncated.
     */
    method ProcessMessage(u: int, text: string, original: Option<int>, now: int, today: int,
                          reply: string, sent: Option<int>, deleteOk: int -> bool) returns (outcome: MessageReply)
      requires Valid()
      modifies this`sessions, this`limits, this`confessionalMessages, db`users, db`conversations
      ensures Valid()
      ensures limits == InitLimits(old(limits), u, today)
      ensures u in old(db.users) ==>
                && u in db.users
                && db.users[u].lastActive == now
                && db.users[u].totalMessages == old(db.users)[u].totalMessages + 1
      ensures u !in old(sessions) ==>
                && outcome == ChooseMode(MainMenu(HasFullAccess(u, now), false))
                && sessions == old(sessions) && confessionalMessages == old(confessionalMessages)
                && db.conversations == old(db.conversations)
      // the session timer: confessional sessions only, strictly beyond forty minutes
      ensures outcome.SessionExpired? <==> u in old(sessions) && Expired(old(sessions)[u], now)
      ensures outcome.SessionExpired? ==>
                && outcome.attempts == old(RecordedIds(u)) + OptionToSeq(original)
                && sessions == old(sessions) - {u}
                && confessionalMessages == old(confessionalMessages)[u := []]
      ensures u in old(sessions) && !outcome.SessionExpired? ==>
                confessionalMessages == (if old(sessions)[u].confessional
                                            then old(confessionalMessages)[u := old(RecordedIds(u)) + OptionToSeq(original) +
                                                   (if outcome.Answered? then OptionToSeq(sent) else [])]
                                            else old(confessionalMessages))
      // only the sender's row changes
      ensures u in old(db.users) ==> db.users == old(db.users)[u := db.users[u]]
      ensures u !in old(db.users) ==> db.users == old(db.users)
      // a paid temporary session is never timed out nor limited
      ensures u in old(sessions) && old(sessions)[u].premiumTemp ==> !outcome.SessionExpired? && !outcome.LimitReached?
      // without a session, in confessional mode or with full access only the activity stamp changes the row
      ensures u in old(db.users) && !(u in old(sessions) && !old(sessions)[u].confessional && !old(HasFullAccess(u, now))) ==>
                && u in db.users
                && db.users[u] == old(db.users)[u].(lastActive := now, totalMessages := old(db.users)[u].totalMessages + 1)
      // the free-tier quota gate
      ensures u in old(sessions) && !old(sessions)[u].confessional && !old(HasFullAccess(u, now)) && u in old(db.users) ==>
                var (row, accepted) := FreeMessageGate(old(db.users)[u], today);
                && (outcome.LimitReached? <==> !accepted)
                && u in db.users
                && db.users[u] == row.(lastActive := now, totalMessages := old(db.users)[u].totalMessages + 1)
      ensures u in old(sessions) && old(HasFullAccess(u, now)) && u in old(db.users) ==>
                && u in db.users
                && db.users[u].nightCount == old(db.users)[u].nightCount
                && db.users[u].lastNightDate == old(db.users)[u].lastNightDate
      // confessional mode, full access and a missing row bypass the quota
      ensures u in old(sessions) && (old(sessions)[u].confessional || old(HasFullAccess(u, now)) || u !in old(db.users)) ==>
                !outcome.LimitReached?
      ensures outcome.LimitReached? ==> sessions == old(sessions) && db.conversations == old(db.conversations)
      // the history
      ensures outcome.Answered? ==>
                && outcome.text == reply
                && u in old(sessions) && u in sessions
                && sessions == old(sessions)[u := old(sessions)[u].(messages :=
                     LastTurns(old(sessions)[u].messages + [Turn(UserRole, text), Turn(AssistantRole, reply)], HISTORY_TURNS))]
                && |sessions[u].messages| <= HISTORY_TURNS
      ensures outcome == FallbackSent ==>
                && u in old(sessions) && u in sessions
                && sessions == old(sessions)[u := old(sessions)[u].(messages := old(sessions)[u].messages + [Turn(UserRole, text)])]
      ensures outcome.Answered? || outcome == FallbackSent <==>
                u in old(sessions) && !Expired(old(sessions)[u], now) && !outcome.LimitReached?
      ensures outcome == FallbackSent <==> (outcome.Answered? || outcome == FallbackSent) && sent.None?
      // the recorded confessional ids and the stored conversation
      ensures outcome.Answered? ==>
                && u in old(sessions) && sent.Some?
                && (old(sessions)[u].confessional ==>
                      confessionalMessages == old(confessionalMessages)[u := old(RecordedIds(u)) + OptionToSeq(original) + [sent.value]])
                && (!old(sessions)[u].confessional ==>
                      var id := old(sessions)[u].id;
                      db.conversations == old(db.conversations) +
                        [Database.ConversationRow(u, id, text, true, false), Database.ConversationRow(u, id, reply, false, false)])
      ensures !outcome.Answered? || old(sessions)[u].confessional ==> db.conversations == old(db.conversations)
      ensures Database.Evolves(old(db.users), db.users, db.referrals, db.referrals)
    {
      var _ := CheckAndInitLimits(u, today);
      db.UpdateLastActive(u, now);
      assert HasFullAccess(u, now) == old(HasFullAccess(u, now));
      if u in old(db.users) {
        GateIgnoresActivity(old(db.users)[u], today, now, old(db.users)[u].totalMessages + 1);
      }
      if u !in sessions {
        return ChooseMode(MainMenu(HasFullAccess(u, now), false));
      }
      outcome := Converse(u, text, original, now, today, reply, sent, deleteOk);
    }
  }
}
