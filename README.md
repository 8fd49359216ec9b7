# Night Whisper: access and quota bookkeeping, in Dafny

Night Whisper is a Telegram bot that talks with users at night. This project
models its access and quota bookkeeping:

- the user, referral, session and conversation tables (`database.py`);
- the bot's in-memory state in `main.py`:
  - `user_sessions`, `user_limits` and `confessional_messages`;
  - the access decisions (premium, a three-day trial, a paid temporary session);
  - the daily free allowances: 3 messages, 1 confessional, 1 sleep story;
  - the decision logic of the handlers;
- referral links and their parsing (`referral.py`);
- the translation lookup (`i18n.py`);
- the greeting key by hour (`utils.py`);
- the selection of retention reminders (`retention.py`).

Modules follow the source files:

| module | source | form |
|---|---|---|
| `Wrappers` | — | `Option` |
| `Database` | database.py | a class whose maps are the tables; row updates are methods, queries are functions |
| `Bot` | main.py | a class holding the three dictionaries and the database; handlers are methods, helpers are functions |
| `Referral` | referral.py | pure functions, including Python's `str(int)` and `int(str)` |
| `I18n` | i18n.py | pure functions over a translation table given as a parameter |
| `Utils` | utils.py | pure functions |
| `Retention` | retention.py | a method with the source's two nested loops, specified by a function |

Conventions:

- Time is a parameter:
  - `now` is a number of seconds;
  - `today` is a day number;
  - `hour` is 0–23;
  - a day is 86400 seconds.
- A SQL NULL is `None`:
  - `bonus_messages + k` keeps a NULL as NULL;
  - `bonus or 0` reads NULL as 0.
- Python truthiness of `referrer_id` is written out: `None` and `0` are false.
- What a handler would send becomes its return value:
  - a datatype naming the reply, the access status and the menu's buttons;
  - the message ids it tries to delete.
- Collaborators the handlers call become parameters:
  - the AI reply text (`reply`);
  - whether the transport delivered it, and with which id (`sent`);
  - which deletions succeed (`deleteOk`);
  - whether a story was shown (`delivered`);
  - the inactive-user query.

The state-changing methods keep two invariants. `Database.Valid` says that every referral edge belongs to a known user and names a non-zero referrer other than that user (the referrer need not have a row), and that session ids lie below the next id. `Bot.Valid` says that every confessional session has a message-id list and is never a paid one, and that no confessional count is negative. `Database.Evolves` states, for every update, what is never undone:
- rows are never deleted;
- `trial_used` never goes back to false;
- a referral edge keeps its referrer;
- a converted referral stays converted.

## Model

| member | source | states |
|---|---|---|
| Database.Database.constructor | database.py:14-93 | the tables start empty and the invariant holds |
| Database.Database.GetLanguage | database.py:134-136 | the stored language of a known user, "en" for an unknown one |
| Database.Database.IsBlocked | database.py:149-151 | blocked iff the user exists and the flag is set |
| Database.Database.IsPremium | database.py:187-193 | premium iff the flag is set and the expiry is strictly after now |
| Database.Database.IsTrialActive | database.py:195-201 | never active once `trial_used` is set; otherwise active iff the trial expiry is strictly after now |
| Database.Database.GetReferralStats | database.py:283-291 | total = the referral edges naming the user; converted = the converted ones among them; converted ≤ total |
| Database.Database.AddUser | database.py:95-112 | an existing id is refused (false) with the tables unchanged. A new user gets a trial ending 3 days from now, bonus 0 and no premium. A pending edge is inserted only for a referrer that is present, non-zero and not the user |
| Database.Database.UpdateLastActive | database.py:138-143 | the activity time becomes now and `total_messages` rises by exactly 1; nothing else changes |
| Database.Database.BlockUser | database.py:145-147 | only the block flag changes; afterwards `is_blocked` reports the value set |
| Database.Database.CheckAndResetNightCounter | database.py:153-171 | on another day: counter 0, date today, returns 0. On the same day: returns count − bonus, NULL bonus as 0, unclamped, row unchanged. An unknown user: returns 0, nothing changes |
| Database.Database.IncrementNightCounter | database.py:173-178 | only the night counter changes, by exactly +1 |
| Database.Database.AddBonusMessages | database.py:180-185 | only the bonus changes, by exactly `count` (a NULL bonus stays NULL) |
| Database.Database.EndTrial | database.py:203-205 | only `trial_used` is set, so a second call changes nothing; the trial is then inactive at every time |
| Database.Database.AddPremium | database.py:207-218 | the flag is set. An unexpired expiry is extended by `days`; otherwise the expiry becomes now + `days`. With `days` > 0 the user is premium now |
| Database.Database.RemovePremium | database.py:220-225 | flag and expiry cleared; the user is premium at no time |
| Database.Database.StartSession | database.py:227-235 | a new active row under a fresh id, planned to end 40 minutes later |
| Database.Database.EndSession | database.py:249-251 | the row is marked inactive; an unknown id changes nothing |
| Database.Database.AddMessage | database.py:253-260 | a confessional message writes nothing; any other appends exactly one row |
| Database.Database.ProcessReferralConversion | database.py:265-281 | acts only on a pending edge. It marks the edge converted, adds 1 referral and 5 bonus messages to the referrer, and returns the referrer. Otherwise it returns None and changes nothing, so a second call never pays twice |
| Database.InactiveUsers | database.py:332-340 | exactly the unblocked users last active strictly before `days` days ago, as rows, no more rows than users scanned |
| Bot.GetText | main.py:79-81 | the entry of the language's table, or of the Russian table for an unknown language; the key itself when missing; formatted only when arguments are given |
| Bot.NightGreetingKey | main.py:83-90 | 22–23 → `_22`, 0–3 → `_0`, 4–21 → `_5`: exactly one key per hour |
| Bot.MainMenu | main.py:92-113 | in a session: only the end button. Otherwise: the four modes first, settings last, 5 buttons with full access and 7 without |
| Bot.BuyButtonsIffNoFullAccess | main.py:104-110 | the two buy buttons appear iff the menu is not a session menu and the user lacks full access |
| Bot.InitLimits | main.py:115-119 | a missing record, or one dated another day, becomes {today, no story, 0 confessionals}; today's record is kept unchanged |
| Bot.InitLimitsIdempotent | main.py:115-119 | initialising twice in a day is the same as initialising once |
| Bot.LastTurns | main.py:517-518 | `history[-10:]`: the last min(n, len) turns, as a suffix of the history |
| Bot.ReplyKeepsLatestExchange | main.py:499-518 | after a reply the history has at most 10 turns and ends with the user turn followed by the assistant turn |
| Bot.Deleted | main.py:198-205 | exactly the recorded ids whose deletion succeeds: each one is recorded and succeeded, and every recorded id that succeeds is there |
| Bot.Retract | main.py:198-205 | one delete request per recorded id, in order; the count equals the successful deletions and is ≤ the number of ids |
| Bot.SendFree | main.py:486-495 | k free messages in a row accept at most k |
| Bot.GateIgnoresActivity | main.py:465-495 | stamping activity before the quota check changes neither the verdict nor the counters |
| Bot.FreeQuotaPerDay | main.py:486-495 | within one day, accepted = min(sent, allowance). The allowance is 3 + bonus − counted, and at least 1 on a new day. Rejected messages are not counted |
| Bot.ThreeFreeMessagesADay | main.py:486-495 | on a fresh day with no bonus: 3 messages pass, the 4th is rejected, and the counter stays at 3 |
| Bot.NewDayStartsOver | database.py:164-169 | on a new day the first message passes and the counter reads 1, whatever the bonus |
| Bot.BonusOffsetsCounter | database.py:159-162 | with count 5 and bonus 5 the effective count is 0: the message passes and the counter goes to 6 |
| Bot.Bot.constructor | main.py:23-25 | the three dictionaries start empty |
| Bot.Bot.HasFullAccess | main.py:121-126 | premium, or an active trial, or a paid temporary session |
| Bot.Bot.AccessStatus | main.py:128-136 | the first of premium, trial (with its expiry), temporary session that applies; free exactly when there is no full access |
| Bot.Bot.CheckAndInitLimits | main.py:115-119 | the dictionary becomes `InitLimits` of the old one and today's record is returned |
| Bot.Bot.CloseOutTrial | main.py:170-176 | the row becomes `ClosedOutTrial` of the old one and the report is `TrialNoteFor` it: an unused trial whose expiry is strictly before now is ended; an unused running one is reported with its expiry; anything else changes nothing; other rows are untouched |
| Bot.Bot.StartLanguage | main.py:148-150 | one of ru/en/es/de: the client's code when it is one of them, "ru" in every other case (missing, empty or unsupported) |
| Bot.Bot.CmdStart | main.py:138-189 | a blocked user changes nothing. Otherwise today's limits are initialised and the tables change exactly as `Admitted` says. The greeting for the hour, the access status and the main menu are returned |
| Bot.Bot.Admit | main.py:147-176 | `Admitted`: a new user's row is added with a 3-day trial, and a valid referral records a pending edge and gives a known referrer +5 bonus; a returning user's row is stamped (activity now, one more message) and its lapsed trial closed out, with the matching report; no other row or edge changes |
| Bot.Bot.Register | main.py:157-160 | the new row is `NewUser` for the start language and parsed referrer; a pending edge exactly when the referrer is non-zero and not the user, and then +5 bonus for a referrer that has a row; nothing else changes |
| Bot.Bot.WelcomeBack | main.py:166-176 | the returning row is stamped and then closed out; the report is the one for the row as it was; no other row changes |
| Bot.Bot.BackToMenu | main.py:260-280 | a known user's row becomes `ClosedOutTrial` of it and the report is `TrialNoteFor` it; an unknown user changes nothing and gets no report; then the greeting, status and menu |
| Bot.Bot.StartChat | main.py:282-302 | a free user with effective count ≥ 3 is refused, though the counter may still reset on a new day; a refusal leaves every session untouched. A user with full access or without a row always starts, with the users unchanged. A start adds the session row (next id, 40 minutes, active) and an ordinary session under that id that replaces any previous one |
| Bot.Bot.StartConfessional | main.py:304-329 | a free user is never aborted: the limits become `FreeConfessional` of the old ones and the user is refused iff that gate refuses, and the refusal carries the user's access status. Premium and trial users start with the limits unchanged. A user whose only access was a paid session loses it and is charged one confessional on an existing record, or aborts without one. Unless refused, the id list is emptied and a confessional session replaces any previous one; a refusal changes no session |
| Bot.FreeConfessional | main.py:309-327 | after the day's initialisation, refused iff today's count is ≥ 1; otherwise the count rises by exactly one; no other user's record changes |
| Bot.OneFreeConfessionalPerNight | main.py:309-327 | right after a free confessional is granted, the next one the same day is refused |
| Bot.Bot.GenerateStory | main.py:331-356 | a free user with today's story used is refused, and the refusal carries the user's access status. The story flag is set only after delivery and only when the user lacks full access at that moment |
| Bot.Bot.SuccessfulPayment | main.py:388-410 | the monthly purchase changes the tables exactly as `PremiumPurchase` says and no session. A deep session adds the session row under the next id and installs a non-confessional session marked paid, giving full access and replacing any previous one, with users and referrals unchanged. Any other payload changes nothing |
| Bot.PremiumPurchase | database.py:207-281 | a known buyer is premium with an expiry strictly after now; a referral of the buyer ends converted with the same referrer; no other edge changes and no row or edge is added |
| Bot.Bot.EndSession | main.py:191-216 | confessional: every recorded id is tried, the deleted count is ≤ the ids, the list is emptied and the session removed. Ordinary: the row is marked inactive and the session removed. With no session nothing changes |
| Bot.Bot.EndSessionManual | main.py:535-553 | for a confessional session: every recorded id is tried, the list is emptied and the session removed; nothing changes otherwise |
| Bot.Bot.QuotaGate | main.py:486-495 | a free user outside confessional mode goes through the gate (`FreeMessageGate`); anyone else passes with no counter moved |
| Bot.Bot.Respond | main.py:497-533 | a delivered reply leaves at most the last 10 turns, records the reply's id for a confessional, and stores both turns otherwise. A failed delivery leaves the user turn appended, untruncated |
| Bot.Bot.RecordAnswer | main.py:514-522 | a delivered reply's id joins a confessional's list; the history becomes the last 10 turns ending with the exchange; an ordinary session stores both turns; nothing else changes |
| Bot.Bot.StoreExchange | main.py:521-522 | the conversation table gains exactly the user turn and then the assistant turn, under the session id, not confessional |
| Bot.Bot.Converse | main.py:475-533 | expired iff a confessional is past 40 minutes: the session alone is dropped and the ids are tried. Otherwise the incoming id (and a delivered reply's id) are recorded for a confessional and nothing is recorded for an ordinary session. The users change exactly as the quota gate says. Answered and fallback histories as `Respond` says |
| Bot.Bot.ProcessMessage | main.py:464-533 | limits initialised and activity stamped. With no session it asks for a mode. A confessional past 40 minutes (strictly) is closed, its recorded ids and the incoming one are tried for deletion, and the message is not answered. Without a session, in confessional mode or with full access, the row changes only by the activity stamp, so the night counter is untouched; the session alone is dropped on expiry. A paid session is never expired or limited, and a confessional session, a user with full access or a user without a row is never refused by the quota. Free users pass the quota gate. Only the sender's row and session change. The recorded ids change only for a confessional, by the incoming id and a delivered reply's id. Then the history rules of `Respond` apply |
| Referral.NatToString | referral.py:10 | Python `str` of a natural: non-empty, all digits, no leading zero |
| Referral.ReferralLink | referral.py:9-10 | the `t.me` start link for the user, "ref" followed by `str` of the id; what it means is the round trip `ReferralLinkRoundTrip` proves |
| Referral.ParseReferralStart | referral.py:84-90 | None for a missing or empty parameter or one not starting with `ref`; otherwise Python `int()` of the rest, None when that fails |
| Referral.DigitsValueOfNatToString | referral.py:10 | the digits written by `str` read back as the same number |
| Referral.ParseIntOfIntToString | referral.py:10 | `int(str(n)) == n` for every integer, including negative ones |
| Referral.ReferralLinkRoundTrip | referral.py:84-88 | parsing the start value of a user's referral link gives back that user's id |
| Referral.ParseRejectsNonNumbers | referral.py:85-90 | `ref` and `refabc` give None, and so does `abc123` |
| Referral.LabelsFor | referral.py:18-21 | exactly "ru" gets the Russian labels; every other language gets English |
| Referral.ReferralKeyboardFor | referral.py:13-30 | labels by language, the share link is the user's referral link, and the callbacks are stats and back to menu |
| Referral.StatsKeyboardFor | referral.py:33-44 | labels by language; the callbacks are back to referral and back to menu |
| Referral.BonusTextFor | referral.py:47-52 | the Russian text for "ru", the English text for anything else |
| Referral.StatsTextFor | referral.py:55-81 | in both languages: invited = total, active = converted, bonus messages = total × 5, premium days = converted × 3, and the user's link |
| I18n.EffectiveLang | i18n.py:9-28 | a language outside ru/en/es/de becomes "en" |
| I18n.RawText | i18n.py:28-31 | a non-empty entry of the effective language; else the "en" entry; else the key itself |
| I18n.Get | i18n.py:27-32 | formatted only when arguments are given |
| I18n.UnsupportedReadsAsDefault | i18n.py:28 | an unsupported language reads exactly as "en" |
| I18n.MissingKeyIsEchoed | i18n.py:31 | a key missing from both tables comes back as itself |
| I18n.LanguageName | i18n.py:34-41 | ru, en, es and de get "🇷🇺 Русский", "🇺🇸 English", "🇪🇸 Español" and "🇩🇪 Deutsch"; an unknown code is returned unchanged |
| I18n.LanguageNamesDistinct | i18n.py:35-40 | no two supported languages share a display name |
| Utils.IsNightTime | utils.py:3-5 | always true |
| Utils.NightGreetingKey | utils.py:7-17 | 5–11 morning, 12–17 day, 18–21 evening, 22–23 and 0–4 night: exactly one key per hour |
| Retention.MessageFor | retention.py:48 | the entry of the threshold: Russian for "ru", English for every other language |
| Retention.WasMessageSentRecently | retention.py:59-62 | never reports a reminder as sent |
| Retention.EntriesFor | retention.py:45-56 | one reminder per returned row, in query order, carrying that row's user, the threshold, its message and the bonus flag |
| Retention.InactiveUsersForRetention | retention.py:39-57 | the reminders of threshold 1, then 3, then 7, each in query order |
| Retention.PlannedInThresholdOrder | retention.py:43-56 | the plan is the 1-day reminders, then the 3-day ones, then the 7-day ones |
| Retention.BonusFromThreeDays | retention.py:54 | every reminder's threshold is 1, 3 or 7, and it carries the bonus iff the threshold is ≥ 3 |
| Retention.EveryRowReminded | retention.py:44-62 | every row returned for a threshold gets a reminder for that threshold |
| Retention.ReminderIndex | retention.py:43-56 | the position, among the 1-, 3- and 7-day reminders, of the reminder for a returned row |
| Retention.LongInactiveGetsEveryReminder | retention.py:43-56 | an unblocked user inactive for more than 7 days is reminded under all of 1, 3 and 7 |

## Left out

- Telegram transport is not modelled: sending, editing and deleting messages, invoices, pre-checkout, polling and keyboard objects. Handlers return what they would send; deletions succeed as the `deleteOk` parameter says.
- The handlers that only forward to the screens above are not modelled: show_settings, set_language, show_referral, show_referral_stats, back_to_referral, buy_premium, buy_session, process_pre_checkout and handle_text's block check.
- handle_voice is not modelled, because transcription is a foreign call. As written it checks and increments the night counter and then process_message does so again, so a free voice message costs two.
- The SQLite engine, connections, schema and atomicity are not modelled; tables are maps.
- Timestamps are compared as numbers. Where the source parses them (`datetime.fromisoformat` in is_premium, is_trial_active, add_premium, and the trial checks of cmd_start and back_to_menu) this is exact. Database.InactiveUsers does not capture one difference: get_inactive_users (database.py:332-340) compares `last_active` as text. A row never stamped keeps the `CURRENT_TIMESTAMP` default (UTC, `YYYY-MM-DD HH:MM:SS`), while the cutoff is local `isoformat()` text (`YYYY-MM-DDTHH:MM:SS`). So a default stamp from the cutoff's own day sorts before it, and a zone offset shifts the comparison.
- The AI service, transcription and sleep-story generation become parameters. The AI reply never raises, since its errors become a reply text.
- Logging (`log_event`), analytics (`get_stats`), the admin panel and admin commands, the web-server thread and concurrency are not modelled.
- `get_user`, `set_language`, `get_active_session` and the database's own `get_referral_link` are not modelled; the bot reads rows directly and the link is `Referral.ReferralLink`.
- The literal strings of TEXTS, the translations, MESSAGES and the referral texts are not reproduced. A text is identified by its key, its language and its figures.
- Loading translation files is I/O; the table is a parameter.
- `str.format` is a parameter.
- Referral.ParseReferralStart: Python's `int()` is modelled for ASCII whitespace and digits (with sign and single underscores between digits); Unicode digits and spaces are not.
- Bot.Bot.StartConfessional: when a record of user limits is missing, the handler raises a KeyError after installing the session. The model returns `ConfessionalAborted` with the session installed and no count taken. This is reachable: `user_limits` lives in memory, so after a restart a user who paid for a session and presses the confessional button first has no record.
- Bot.Bot.GenerateStory: a failure of `log_event` after the flag is set is not modelled.
- Bot.Bot.CmdStart: the language read back from a returning user's row only selects texts, which are not modelled.
