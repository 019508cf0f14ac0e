/** Log levels: the six numeric levels of `vcservice_loglevel`, their names,
    and the threshold rule that decides whether a message is written. */
module LogLevels {
  import opened Status

  const CRITICAL: nat := 0
  const ERROR: nat := 10
  const NORMAL: nat := 20
  const INFO: nat := 30
  const VERBOSE: nat := 40
  const DEBUG: nat := 50

  /** The six levels, most critical first. */
  datatype Level = Critical | Error | Normal | Info | Verbose | Debug

  /** The numeric value of a level as the enumeration assigns it. */
  function Value(l: Level): (v: nat)
    ensures v % 10 == 0 && v <= DEBUG
    ensures v / 10 == Rank(l)
  {
    match l
    case Critical => CRITICAL
    case Error => ERROR
    case Normal => NORMAL
    case Info => INFO
    case Verbose => VERBOSE
    case Debug => DEBUG
  }

  /** The position of a level in the enumeration: 0 is the most critical. */
  function Rank(l: Level): nat {
    match l
    case Critical => 0
    case Error => 1
    case Normal => 2
    case Info => 3
    case Verbose => 4
    case Debug => 5
  }

  /** A number is a valid level when it is one of the six enumeration values. */
  predicate IsValidLevel(v: nat) {
    v == CRITICAL || v == ERROR || v == NORMAL || v == INFO || v == VERBOSE || v == DEBUG
  }

  /** The level a number stands for, if any. */
  function FromValue(v: nat): (r: Option<Level>)
    ensures r.Some? <==> IsValidLevel(v)
    ensures r.Some? ==> Value(r.value) == v
  {
    if v == CRITICAL then Some(Critical)
    else if v == ERROR then Some(Error)
    else if v == NORMAL then Some(Normal)
    else if v == INFO then Some(Info)
    else if v == VERBOSE then Some(Verbose)
    else if v == DEBUG then Some(Debug)
    else None
  }

  /** Every level's value is valid and maps back to the level; so exactly
      six values are valid and no two levels share one. */
  lemma ValueRoundTrip(l: Level)
    ensures IsValidLevel(Value(l)) && FromValue(Value(l)) == Some(l)
  {
  }

  /** The name `log_level_to_string` gives a level value; any value outside
      the enumeration is "UNKNOWN". The names carry no trailing separator. */
  function LevelName(level: nat): (s: string)
    ensures 4 <= |s| <= 8
    ensures s[|s| - 1] != ' '
    ensures forall i :: 0 <= i < |s| ==> 'A' <= s[i] <= 'Z'
    ensures !IsValidLevel(level) <==> s == "UNKNOWN"
  {
    if level == CRITICAL then "CRITICAL"
    else if level == ERROR then "ERROR"
    else if level == NORMAL then "NORMAL"
    else if level == INFO then "INFO"
    else if level == VERBOSE then "VERBOSE"
    else if level == DEBUG then "DEBUG"
    else "UNKNOWN"
  }

  /** Reads a level back from its name. */
  function LevelFromName(s: string): Option<Level> {
    if s == "CRITICAL" then Some(Critical)
    else if s == "ERROR" then Some(Error)
    else if s == "NORMAL" then Some(Normal)
    else if s == "INFO" then Some(Info)
    else if s == "VERBOSE" then Some(Verbose)
    else if s == "DEBUG" then Some(Debug)
    else None
  }

  /** The name of a valid level identifies it: names of distinct levels differ,
      and no valid level is named "UNKNOWN". */
  lemma LevelNameRoundTrip(v: nat)
    ensures LevelFromName(LevelName(v)) == FromValue(v)
  {
  }

  /** The threshold rule: a message is written when its level is more critical
      than, or as critical as, the logger's threshold level. */
  predicate Emits(level: nat, threshold: nat): (r: bool)
    ensures level == CRITICAL ==> r
    ensures threshold == DEBUG && IsValidLevel(level) ==> r
    ensures IsValidLevel(threshold) && level > DEBUG ==> !r
  {
    level <= threshold
  }

  /** On the six levels the numeric rule agrees with the enumeration order. */
  lemma EmitsFollowsRank(level: Level, threshold: Level)
    ensures Emits(Value(level), Value(threshold)) <==> Rank(level) <= Rank(threshold)
  {
  }

  /** Critical messages are written at every valid threshold, and a Debug
      threshold lets every level through. */
  lemma EmitsExtremes(level: Level, threshold: Level)
    ensures Emits(Value(Critical), Value(threshold))
    ensures Emits(Value(level), Value(Debug))
  {
  }
}
