/**
 * Model of referral.py: the referral link, the parser of the `/start`
 * parameter, and the language and arithmetic of the referral texts.
 *
 * Python's `str(n)` and `int(s)` are written out here, since the round trip
 * between the link and the parser rests on them.
 */
module Referral {
  import opened Wrappers

  const BOT_USERNAME: string := "NIGHT_WHISPER_Z_BOT"
  /** Everything of a referral link before the value of its `start` parameter. */
  const LINK_PREFIX: string := "https://t.me/" + BOT_USERNAME + "?start="
  const REF_PREFIX: string := "ref"
  /** Bonus messages the statistics text promises per invited friend. */
  const MESSAGES_PER_INVITE: int := 5
  /** Premium days the statistics text promises per converted friend. */
  const PREMIUM_DAYS_PER_CONVERSION: int := 3

  // ---------------------------------------------------------------------
  // Python's str(int) and int(str), decimal, ASCII digits
  // ---------------------------------------------------------------------

  predicate IsDigit(c: char) { '0' <= c <= '9' }

  /** The characters `str.strip()` removes that lie in ASCII: \t \n \v \f \r, \x1c-\x1f and space. */
  predicate IsSpace(c: char) { 9 <= c as int <= 13 || 28 <= c as int <= 32 }

  predicate AllDigits(s: string) { forall i :: 0 <= i < |s| ==> IsDigit(s[i]) }

  function DigitChar(d: nat): (c: char)
    requires d < 10
    ensures IsDigit(c) && c as int - '0' as int == d
  {
    ('0' as int + d) as char
  }

  function DigitValue(c: char): nat
    requires IsDigit(c)
  {
    c as int - '0' as int
  }

  /** Decimal digits of `n`, most significant first, no leading zero. */
  function NatToString(n: nat): (s: string)
    ensures |s| > 0 && AllDigits(s)
    ensures s[0] != '0' || n == 0
    decreases n
  {
    if n < 10 then [DigitChar(n)] else NatToString(n / 10) + [DigitChar(n % 10)]
  }

  /** Python's `str(n)` for an int. */
  function IntToString(n: int): string {
    if n < 0 then "-" + NatToString(-n) else NatToString(n)
  }

  /** The value of a string of decimal digits. */
  function DigitsValue(s: string): nat
    requires AllDigits(s)
  {
    if s == [] then 0 else DigitsValue(s[..|s| - 1]) * 10 + DigitValue(s[|s| - 1])
  }

  /**
   * A run of digits in which single underscores may separate two digits,
   * as Python's `int()` accepts them ("1_000").
   */
  predicate IsDigitRun(s: string) {
    && |s| > 0
    && IsDigit(s[0])
    && IsDigit(s[|s| - 1])
    && (forall i :: 0 <= i < |s| ==> IsDigit(s[i]) || s[i] == '_')
    && (forall i :: 0 < i < |s| && s[i] == '_' ==> s[i - 1] != '_')
  }

  function RemoveUnderscores(s: string): (r: string)
    ensures |r| <= |s|
  {
    if s == [] then [] else (if s[0] == '_' then [] else [s[0]]) + RemoveUnderscores(s[1..])
  }

  lemma {:induction false} RemoveUnderscoresOfRun(s: string)
    requires forall i :: 0 <= i < |s| ==> IsDigit(s[i]) || s[i] == '_'
    ensures AllDigits(RemoveUnderscores(s))
  {
    if s != [] {
      RemoveUnderscoresOfRun(s[1..]);
    }
  }

  lemma {:induction false} RemoveUnderscoresOfDigits(s: string)
    requires AllDigits(s)
    ensures RemoveUnderscores(s) == s
  {
    if s != [] {
      RemoveUnderscoresOfDigits(s[1..]);
    }
  }

  /** The value of a digit run, underscores ignored. */
  function RunValue(s: string): nat
    requires IsDigitRun(s)
  {
    RemoveUnderscoresOfRun(s);
    DigitsValue(RemoveUnderscores(s))
  }

  function TrimStart(s: string): (r: string)
    ensures |r| <= |s|
    ensures r == [] || !IsSpace(r[0])
  {
    if s != [] && IsSpace(s[0]) then TrimStart(s[1..]) else s
  }

  function TrimEnd(s: string): (r: string)
    ensures |r| <= |s|
    ensures r == [] || !IsSpace(r[|r| - 1])
  {
    if s != [] && IsSpace(s[|s| - 1]) then TrimEnd(s[..|s| - 1]) else s
  }

  /**
   * Python's `int(s)` on a str: surrounding whitespace is ignored, an optional
   * sign is followed by a digit run; None stands for the ValueError.
   */
  function ParseInt(s: string): Option<int> {
    var t := TrimEnd(TrimStart(s));
    if |t| > 0 && (t[0] == '-' || t[0] == '+') then
      if IsDigitRun(t[1..]) then
        var v: int := RunValue(t[1..]);
        Some(if t[0] == '-' then -v else v)
      else None
    else if IsDigitRun(t) then Some(RunValue(t))
    else None
  }

  lemma {:induction false} DigitsValueOfNatToString(n: nat)
    ensures DigitsValue(NatToString(n)) == n
    decreases n
  {
    if n >= 10 {
      var s := NatToString(n / 10) + [DigitChar(n % 10)];
      assert s[..|s| - 1] == NatToString(n / 10);
      DigitsValueOfNatToString(n / 10);
    }
  }

  /** A non-empty string of digits is a digit run worth its digits. */
  lemma DigitsAreRun(digits: string)
    requires |digits| > 0 && AllDigits(digits)
    ensures IsDigitRun(digits) && RunValue(digits) == DigitsValue(digits)
  {
    RemoveUnderscoresOfDigits(digits);
  }

  /** Stripping leaves alone a string that neither starts nor ends with whitespace. */
  lemma TrimUnspaced(s: string)
    requires |s| > 0 && !IsSpace(s[0]) && !IsSpace(s[|s| - 1])
    ensures TrimEnd(TrimStart(s)) == s
  {
  }

  /** `int()` of an unpadded digit run is its value. */
  lemma ParseIntOfRun(d: string)
    requires IsDigitRun(d) && TrimEnd(TrimStart(d)) == d
    ensures ParseInt(d) == Some(RunValue(d))
  {
    assert d[0] != '-' && d[0] != '+';
  }

  /** `int()` of a minus sign followed by an unpadded digit run is the negated value. */
  lemma ParseIntOfNegativeRun(d: string)
    requires IsDigitRun(d) && TrimEnd(TrimStart("-" + d)) == "-" + d
    ensures ParseInt("-" + d) == Some(-(RunValue(d) as int))
  {
    var t := TrimEnd(TrimStart("-" + d));
    assert t == "-" + d;
    assert |t| > 0 && t[0] == '-' && t[1..] == d;
    assert IsDigitRun(t[1..]) && RunValue(t[1..]) == RunValue(d);
  }

  /** `int(str(n)) == n` for every int. */
  lemma ParseIntOfIntToString(n: int)
    ensures ParseInt(IntToString(n)) == Some(n)
  {
    var m: nat := if n < 0 then -n else n;
    var digits := NatToString(m);
    assert IsDigitRun(digits) && RunValue(digits) == m by {
      DigitsAreRun(digits);
      DigitsValueOfNatToString(m);
    }
    if n < 0 {
      var s := "-" + digits;
      assert ParseInt(s) == Some(n) by {
        assert s[|s| - 1] == digits[|digits| - 1];
        TrimUnspaced(s);
        ParseIntOfNegativeRun(digits);
      }
      assert IntToString(n) == s;
    } else {
      assert ParseInt(digits) == Some(n) by {
        TrimUnspaced(digits);
        ParseIntOfRun(digits);
      }
      assert IntToString(n) == digits;
    }
  }

  // ---------------------------------------------------------------------
  // The referral operations
  // ---------------------------------------------------------------------

  /**
   * get_referral_link: a t.me link whose start parameter is "ref" + str(user_id).
   * ReferralLinkRoundTrip proves that parsing the start parameter gives the id back.
   */
  function ReferralLink(userId: int): (link: string)
    ensures link == LINK_PREFIX + REF_PREFIX + IntToString(userId)
  {
    LINK_PREFIX + REF_PREFIX + IntToString(userId)
  }

  /** The value of the `start` parameter of a link built by ReferralLink. */
  function StartValue(link: string): string
    requires |LINK_PREFIX| <= |link|
  {
    link[|LINK_PREFIX|..]
  }

  /**
   * parse_referral_start: the integer after a leading "ref"; None when the
   * parameter is None or empty, lacks the prefix, or its remainder is not an integer.
   */
  function ParseReferralStart(startParam: Option<string>): (r: Option<int>)
    ensures startParam.None? || startParam == Some("") ==> r.None?
    ensures startParam.Some? && (|startParam.value| < 3 || startParam.value[..3] != REF_PREFIX) ==> r.None?
    ensures startParam.Some? && |startParam.value| >= 3 && startParam.value[..3] == REF_PREFIX ==>
              r == ParseInt(startParam.value[3..])
  {
    match startParam
    case None => None
    case Some(p) =>
      if p != "" && |p| >= 3 && p[..3] == REF_PREFIX then ParseInt(p[3..]) else None
  }

  /** Parsing the start parameter of a user's own referral link yields that user's id. */
  lemma ReferralLinkRoundTrip(userId: int)
    ensures |LINK_PREFIX| <= |ReferralLink(userId)|
    ensures ParseReferralStart(Some(StartValue(ReferralLink(userId)))) == Some(userId)
  {
    var p := StartValue(ReferralLink(userId));
    assert p == REF_PREFIX + IntToString(userId);
    assert p[..3] == REF_PREFIX && p[3..] == IntToString(userId);
    ParseIntOfIntToString(userId);
  }

  /** The bare prefix and a non-numeric remainder are both rejected. */
  lemma ParseRejectsNonNumbers()
    ensures ParseReferralStart(Some("ref")) == None
    ensures ParseReferralStart(Some("refabc")) == None
    ensures ParseReferralStart(Some("abc123")) == None
  {
    assert "refabc"[3..] == "abc";
    assert !IsDigitRun("abc") by { assert !IsDigit('a'); }
    assert "abc123"[..3] == "abc";
  }

  // ---------------------------------------------------------------------
  // Texts: only which label set is chosen and the figures interpolated
  // ---------------------------------------------------------------------

  /** The two label sets of the referral screens. */
  datatype Labels = Russian | English

  /** Exactly "ru" selects the Russian labels; every other code gets English. */
  function LabelsFor(lang: string): (l: Labels)
    ensures l == Russian <==> lang == "ru"
  {
    if lang == "ru" then Russian else English
  }

  /** get_referral_keyboard: its labels and the link its share button carries. */
  datatype ReferralKeyboard = ReferralKeyboard(labels: Labels, link: string, callbacks: seq<string>)

  function ReferralKeyboardFor(lang: string, userId: int): (k: ReferralKeyboard)
    ensures k.labels == Russian <==> lang == "ru"
    ensures k.link == ReferralLink(userId)
    ensures k.callbacks == ["show_referral_stats", "back_to_menu"]
  {
    ReferralKeyboard(LabelsFor(lang), ReferralLink(userId), ["show_referral_stats", "back_to_menu"])
  }

  /** get_referral_stats_keyboard: its labels and the callbacks of its two buttons, back to the referral screen and to the menu. */
  datatype StatsKeyboard = StatsKeyboard(labels: Labels, callbacks: seq<string>)

  function StatsKeyboardFor(lang: string, userId: int): (k: StatsKeyboard)
    ensures k.labels == Russian <==> lang == "ru"
    ensures k.callbacks == ["back_to_referral", "back_to_menu"]
  {
    StatsKeyboard(LabelsFor(lang), ["back_to_referral", "back_to_menu"])
  }

  /** get_referral_bonus_text: `texts.get(lang, texts["en"])` over the ru/en texts. */
  function BonusTextFor(lang: string): (l: Labels)
    ensures l == Russian <==> lang == "ru"
  {
    var texts := map["ru" := Russian, "en" := English];
    if lang in texts then texts[lang] else texts["en"]
  }

  /** The figures that get_referral_stats_text puts into its text. */
  datatype StatsText = StatsText(
    labels: Labels, invited: int, active: int,
    bonusMessages: int, premiumDays: int, link: string)

  function StatsTextFor(lang: string, total: int, converted: int, userId: int): (t: StatsText)
    ensures t.labels == Russian <==> lang == "ru"
    ensures t.invited == total && t.active == converted
    ensures t.bonusMessages == total * MESSAGES_PER_INVITE
    ensures t.premiumDays == converted * PREMIUM_DAYS_PER_CONVERSION
    ensures t.link == ReferralLink(userId)
  {
    var link := ReferralLink(userId);
    if lang == "ru" then StatsText(Russian, total, converted, total * 5, converted * 3, link)
    else StatsText(English, total, converted, total * 5, converted * 3, link)
  }
}
