/**
 The startup check of the bot: polling starts, after an "online"
 announcement, only when both the bot token and the chat id are set.
 */
module Config {
  import opened Types

  /** How startup ends: a configuration error, or the bot going online. */
  datatype Launch = ConfigError | Online

  /** Python truthiness of a setting read from the environment: an absent
      setting (`None`) and the empty string are false. */
  predicate Truthy(setting: Option<string>)
  {
    setting.Some? && setting.value != ""
  }

  /** Python's `all` over a list of settings: scans from the front and
      stops at the first false one. */
  function AllTruthy(settings: seq<Option<string>>): (r: bool)
    ensures r <==> forall i :: 0 <= i < |settings| ==> Truthy(settings[i])
  {
    if settings == [] then true
    else Truthy(settings[0]) && AllTruthy(settings[1..])
  }

  /** Startup: both settings are required. */
  function Start(token: Option<string>, chatId: Option<string>): (r: Launch)
    ensures r == Online <==> Truthy(token) && Truthy(chatId)
    ensures token == None || token == Some("") ==> r == ConfigError
    ensures chatId == None || chatId == Some("") ==> r == ConfigError
  {
    var settings := [token, chatId];
    assert settings[0] == token && settings[1] == chatId;
    if AllTruthy(settings) then Online else ConfigError
  }
}
