/** The frontend logger's level gate and line format. The console and the
    clock are outside the model: the timestamp is a parameter and `Log`
    returns the line it would print. */
module Logger {
  import opened Wrappers
  import opened Text

  datatype LogLevel = DEBUG | INFO | WARN | ERROR

  /** The enum's string value. */
  function Name(l: LogLevel): string {
    match l
    case DEBUG => "DEBUG"
    case INFO => "INFO"
    case WARN => "WARN"
    case ERROR => "ERROR"
  }

  /** `levelMap`. */
  function Rank(l: LogLevel): nat {
    match l
    case DEBUG => 0
    case INFO => 1
    case WARN => 2
    case ERROR => 3
  }

  /** `parseLogLevel`: the level whose name is the upper-cased text, INFO
      when there is none. */
  function ParseLogLevel(s: string): (l: LogLevel)
    ensures Name(l) == Upper(s) || (l == INFO && forall m: LogLevel :: Name(m) != Upper(s))
  {
    var u := Upper(s);
    if u == "DEBUG" then DEBUG
    else if u == "WARN" then WARN
    else if u == "ERROR" then ERROR
    else INFO
  }

  /** Every level's name, in any ASCII case, parses back to the level. */
  lemma ParseName(l: LogLevel)
    ensures ParseLogLevel(Name(l)) == l
    ensures ParseLogLevel(Lower(Name(l))) == l
  {
    assert Upper(Name(l)) == Name(l);
    assert Upper(Lower(Name(l))) == Name(l);
  }

  /** The level the development environment configures (`logLevel: 'debug'`). */
  const ConfiguredLevel: LogLevel := ParseLogLevel("debug")

  /** `shouldLog`: the message's level ranks at least as high as the
      configured one. */
  predicate ShouldLog(level: LogLevel, current: LogLevel) {
    Rank(level) >= Rank(current)
  }

  /** ERROR passes whatever level is configured. */
  lemma ErrorAlwaysLogs(current: LogLevel)
    ensures ShouldLog(ERROR, current)
  {
  }

  /** The gate is monotone: a level that passes lets every higher one pass. */
  lemma ShouldLogMonotone(a: LogLevel, b: LogLevel, current: LogLevel)
    requires ShouldLog(a, current) && Rank(a) <= Rank(b)
    ensures ShouldLog(b, current)
  {
  }

  /** The ranks order the levels strictly, so a configured level lets
      through exactly itself and the levels above it. */
  lemma GateIsThreshold(level: LogLevel, current: LogLevel)
    ensures ShouldLog(level, current) <==> level == current || Rank(level) > Rank(current)
    ensures Rank(level) == Rank(current) ==> level == current
  {
  }

  /** In development every message is logged. */
  lemma DevelopmentLogsEverything(level: LogLevel)
    ensures ConfiguredLevel == DEBUG
    ensures ShouldLog(level, ConfiguredLevel)
  {
    assert Upper("debug") == "DEBUG";
  }

  /** `[${timestamp}] [${level}] ${message}`. */
  function Format(timestamp: string, level: LogLevel, message: string): (r: string)
    ensures StartsWith(r, "[" + timestamp + "] [" + Name(level) + "] ")
    ensures |r| == |timestamp| + |Name(level)| + |message| + 6
    ensures r[|r| - |message|..] == message
  {
    var prefix := "[" + timestamp + "] [" + Name(level) + "] ";
    assert (prefix + message)[..|prefix|] == prefix;
    prefix + message
  }

  /** `log`: the line written to the console, or nothing when the gate
      stops the message. */
  function Log(current: LogLevel, level: LogLevel, timestamp: string, message: string): (r: Option<string>)
    ensures r.Some? <==> ShouldLog(level, current)
    ensures r.Some? ==> r.value == Format(timestamp, level, message)
  {
    if !ShouldLog(level, current) then None else Some(Format(timestamp, level, message))
  }
}
