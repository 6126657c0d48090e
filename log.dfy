/** The logger's level gate and message format (src/debugger/log.rs). */
module Logging {
  import opened Wrappers

  datatype LogLevel = DEBUG | INFO | WARN | ERROR

  /** The `Display` text of a level. */
  function LevelName(l: LogLevel): (r: string)
    ensures l == DEBUG <==> r == "DEBUG"
    ensures l == INFO <==> r == "INFO"
    ensures l == WARN <==> r == "WARN"
    ensures l == ERROR <==> r == "ERROR"
  {
    match l
    case DEBUG => "DEBUG"
    case INFO => "INFO"
    case WARN => "WARN"
    case ERROR => "ERROR"
  }

  /** The severity order DEBUG < INFO < WARN < ERROR. */
  function Rank(l: LogLevel): nat {
    match l
    case DEBUG => 0
    case INFO => 1
    case WARN => 2
    case ERROR => 3
  }

  /** `Logger::should_log`, written as the source's table of accepted pairs;
      it gates exactly the messages at least as severe as the configured level. */
  function ShouldLog(configured: LogLevel, level: LogLevel): (r: bool)
    ensures r <==> Rank(level) >= Rank(configured)
  {
    match (configured, level)
    case (DEBUG, _) => true
    case (INFO, INFO) => true
    case (INFO, WARN) => true
    case (INFO, ERROR) => true
    case (WARN, WARN) => true
    case (WARN, ERROR) => true
    case (ERROR, ERROR) => true
    case _ => false
  }

  /** If a level gets through, every more severe level gets through too. */
  lemma ShouldLogMonotonic(configured: LogLevel, l: LogLevel, m: LogLevel)
    requires ShouldLog(configured, l) && Rank(l) <= Rank(m)
    ensures ShouldLog(configured, m)
  {
  }

  /** A DEBUG configuration logs everything; any other one never logs DEBUG. */
  lemma DebugGate(configured: LogLevel, l: LogLevel)
    ensures configured == DEBUG ==> ShouldLog(configured, l)
    ensures configured != DEBUG ==> !ShouldLog(configured, DEBUG)
  {
  }

  datatype Logger = Logger(level: LogLevel, logFile: Option<string>)

  /** One line the logger writes: to the console, or appended to a file. */
  datatype LogWrite = Console(line: string) | FileLine(path: string, line: string)

  /** The text `[LEVEL] message`. */
  function ConsoleLine(level: LogLevel, message: string): string {
    "[" + LevelName(level) + "] " + message
  }

  /** `Logger::log`: what it writes, given the formatted timestamp `date`
      (the clock is an input); nothing when the level is gated off. */
  function Log(logger: Logger, level: LogLevel, message: string, date: string): (r: Option<LogWrite>)
    ensures r.Some? <==> ShouldLog(logger.level, level)
    ensures r.Some? && logger.logFile.None? ==> r.value == Console(ConsoleLine(level, message))
    ensures r.Some? && logger.logFile.Some? ==>
      r.value == FileLine(logger.logFile.value, "[" + date + "] " + ConsoleLine(level, message))
  {
    if !ShouldLog(logger.level, level) then None
    else
      var line := ConsoleLine(level, message);
      match logger.logFile
      case Some(path) => Some(FileLine(path, "[" + date + "] " + line))
      case None => Some(Console(line))
  }

  /** The console line gives back both the level and the message. */
  lemma {:induction false} ConsoleLineInjective(l1: LogLevel, m1: string, l2: LogLevel, m2: string)
    requires ConsoleLine(l1, m1) == ConsoleLine(l2, m2)
    ensures l1 == l2 && m1 == m2
  {
    var s := ConsoleLine(l1, m1);
    var n1, n2 := LevelName(l1), LevelName(l2);
    assert s[1..1 + |n1|] == n1 && s[1 + |n1|] == ']';
    assert s[1..1 + |n2|] == n2 && s[1 + |n2|] == ']';
    assert m1 == s[|n1| + 3..];
  }
}
