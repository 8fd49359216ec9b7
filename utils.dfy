/** Model of utils.py: the opening-hours switch and the greeting chosen by the hour. */
module Utils {

  /** is_night_time: the bot answers around the clock. */
  function IsNightTime(): (r: bool)
    ensures r
  {
    true
  }

  /**
   * get_night_greeting_key with the wall-clock hour as a parameter
   * (`datetime.now().hour` lies in 0..23).
   */
  function NightGreetingKey(hour: int): (key: string)
    requires 0 <= hour < 24
    ensures key == "morning_greeting" <==> 5 <= hour < 12
    ensures key == "day_greeting" <==> 12 <= hour < 18
    ensures key == "evening_greeting" <==> 18 <= hour < 22
    ensures key == "night_greeting" <==> hour >= 22 || hour < 5
  {
    if 5 <= hour < 12 then "morning_greeting"
    else if 12 <= hour < 18 then "day_greeting"
    else if 18 <= hour < 22 then "evening_greeting"
    else "night_greeting"
  }
}
