/**
 * Logging threshold (src/logger.ts). Only the decision whether a message is
 * printed is modelled; formatting and console output are not.
 */
module Logger {

  datatype LogLevel = Debug | Info | Warn | Error

  /** The numeric rank of each level. */
  function Rank(level: LogLevel): (r: nat)
    ensures r % 10 == 0 && 10 <= r <= 40
  {
    match level
    case Debug => 10
    case Info => 20
    case Warn => 30
    case Error => 40
  }

  /** A message at `level` is printed when the configured level is `current`. */
  predicate ShouldLog(level: LogLevel, current: LogLevel)
    ensures level == Error ==> ShouldLog(level, current)
    ensures level == current ==> ShouldLog(level, current)
    ensures level == Debug ==> (ShouldLog(level, current) <==> current == Debug)
    ensures current == Debug ==> ShouldLog(level, current)
  {
    Rank(level) >= Rank(current)
  }

  /** The levels are strictly ordered: debug < info < warn < error. */
  lemma RanksStrictlyOrdered()
    ensures Rank(Debug) < Rank(Info) < Rank(Warn) < Rank(Error)
  {
  }

  /** Whatever is printed, every more severe level is printed too. */
  lemma {:induction false} ShouldLogUpwardClosed(a: LogLevel, b: LogLevel, current: LogLevel)
    requires ShouldLog(a, current) && Rank(b) >= Rank(a)
    ensures ShouldLog(b, current)
  {
  }

  /** Raising the configured level never prints more. */
  lemma {:induction false} ShouldLogAntitone(level: LogLevel, lower: LogLevel, higher: LogLevel)
    requires Rank(lower) <= Rank(higher) && ShouldLog(level, higher)
    ensures ShouldLog(level, lower)
  {
  }
}
