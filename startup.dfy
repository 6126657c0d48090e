/** The two configuration-string mappings done at startup (src/main.rs). */
module Startup {
  import opened Logging
  import CheckHttp
  import HelperHttp
  import Text

  /** The configured debug level; anything unrecognised means INFO. */
  function DebugLevel(s: string): (r: LogLevel)
    ensures r == DEBUG <==> s == "debug"
    ensures r == WARN <==> s == "warn"
    ensures r == ERROR <==> s == "error"
    ensures r == INFO <==> s !in ["debug", "warn", "error"]
  {
    match s
    case "debug" => DEBUG
    case "info" => INFO
    case "warn" => WARN
    case "error" => ERROR
    case _ => INFO
  }

  /** The configured probe method, matched case-sensitively; anything
      unrecognised means GET. */
  function CheckMethod(s: string): (r: CheckHttp.HttpMethod)
    ensures r == CheckHttp.POST <==> s == "POST"
    ensures r == CheckHttp.PUT <==> s == "PUT"
    ensures r == CheckHttp.DELETE <==> s == "DELETE"
    ensures r == CheckHttp.PATCH <==> s == "PATCH"
    ensures r == CheckHttp.GET <==> s !in ["POST", "PUT", "DELETE", "PATCH"]
  {
    match s
    case "GET" => CheckHttp.GET
    case "POST" => CheckHttp.POST
    case "PUT" => CheckHttp.PUT
    case "DELETE" => CheckHttp.DELETE
    case "PATCH" => CheckHttp.PATCH
    case _ => CheckHttp.GET
  }

  /** Each level's name, lower-cased, selects that level. */
  lemma DebugLevelOfLowerName(l: LogLevel)
    ensures DebugLevel(Text.ToLower(LevelName(l))) == l
  {
    match l
    case DEBUG => assert Text.ToLower("DEBUG") == "debug";
    case INFO => assert Text.ToLower("INFO") == "info";
    case WARN => assert Text.ToLower("WARN") == "warn";
    case ERROR => assert Text.ToLower("ERROR") == "error";
  }

  /** The method mapping inverts `as_str`. */
  lemma CheckMethodInvertsAsStr(m: CheckHttp.HttpMethod)
    ensures CheckMethod(CheckHttp.AsStr(m)) == m
  {
  }

  /** Unlike `HttpMethod::from_str`, the startup mapping is case-sensitive:
      "post" becomes GET here but POST there. */
  lemma CheckMethodIsCaseSensitive()
    ensures CheckMethod("post") == CheckHttp.GET
    ensures HelperHttp.FromStr("post") == HelperHttp.POST
  {
    assert Text.ToLower("post") == "post";
  }
}
