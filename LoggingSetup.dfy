/**
  logging_setup.py: turning the configured LOG_LEVEL into a numeric level
  (`_coerce_level`) and the one-time configuration of a named logger
  (`setup_logger`). Python's logger registry is a map from names to logger
  states; a name never asked for is a fresh logger.
*/
module LoggingSetup {
  import opened Wrappers
  import opened Text

  const NotSet := 0
  const Debug := 10
  const Info := 20
  const Warning := 30
  const Error := 40
  const Critical := 50

  const DefaultLoggerName: string := "netbox_scanner"
  const LogFormat: string := "%(asctime)s %(levelname)s [%(process)d:%(threadName)s] %(name)s: %(message)s"

  /** The loggers of the HTTP and NetBox client libraries whose chatter is held down. */
  const Noisy: seq<string> := ["urllib3", "requests", "pynetbox"]

  /** LOG_LEVEL as configured: an `int`, or any other value through its `str`. */
  datatype LevelSetting = IntLevel(n: int) | TextLevel(s: string)

  /** A `RotatingFileHandler` as `setup_logger` builds it. */
  datatype Handler = Handler(path: string, level: int, maxBytes: int, backupCount: int, format: string)

  datatype Logger = Logger(level: int, handlers: seq<Handler>, propagate: bool)

  /** The logging settings read from config.py. */
  datatype LogConfig = LogConfig(path: string, level: LevelSetting, maxBytes: int, backupCount: int)

  function Max(a: int, b: int): int {
    if a < b then b else a
  }

  /**
    The whitespace `int()` skips around a number. Outside ASCII it is Python's
    whitespace; within ASCII it is only tab, line feed, vertical tab, form feed,
    carriage return and space, so the separators U+001C to U+001F that
    `str.isspace` accepts are not skipped.
  */
  predicate IntSpace(c: char) {
    IsSpace(c) && !(0x1C <= c as int <= 0x1F)
  }

  /** The first position at or after `i` that `int()` does not skip, or `|s|`. */
  function SkipIntSpace(s: string, i: nat): (j: nat)
    requires i <= |s|
    ensures i <= j <= |s|
    ensures forall k :: i <= k < j ==> IntSpace(s[k])
    ensures j < |s| ==> !IntSpace(s[j])
    decreases |s| - i
  {
    if i < |s| && IntSpace(s[i]) then SkipIntSpace(s, i + 1) else i
  }

  /** The end of `s[..j]` once `int()` drops its trailing whitespace. */
  function TrimIntSpace(s: string, j: nat): (e: nat)
    requires j <= |s|
    ensures e <= j
    ensures forall k :: e <= k < j ==> IntSpace(s[k])
    ensures e > 0 ==> !IntSpace(s[e - 1])
    decreases j
  {
    if j > 0 && IntSpace(s[j - 1]) then TrimIntSpace(s, j - 1) else j
  }

  /** The text `int()` reads: `s` without the whitespace it skips at either end. */
  function IntCore(s: string): (r: string)
    ensures r == [] <==> forall k :: 0 <= k < |s| ==> IntSpace(s[k])
    ensures |r| > 0 ==> !IntSpace(r[0]) && !IntSpace(r[|r| - 1])
    ensures |r| > 0 ==> OccursAt(s, r, SkipIntSpace(s, 0))
    ensures forall k :: SkipIntSpace(s, 0) + |r| <= k < |s| ==> IntSpace(s[k])
  {
    var i := SkipIntSpace(s, 0);
    if i == |s| then [] else s[i..TrimIntSpace(s, |s|)]
  }

  /** What `int(text)` accepts around the digits: whitespace, a sign and underscores. */
  predicate NumericChar(c: char) {
    IsDigit(c) || c == '_' || c == '+' || c == '-' || IntSpace(c)
  }

  predicate NumericChars(s: string) {
    forall k :: 0 <= k < |s| ==> NumericChar(s[k])
  }

  /** A decimal literal in Python's `int` syntax: digits, single underscores only between digits. */
  predicate WellFormedDigits(d: string) {
    |d| > 0 && IsDigit(d[0]) &&
    (forall k :: 0 <= k < |d| ==> IsDigit(d[k]) || d[k] == '_') &&
    (forall k :: 0 <= k < |d| && d[k] == '_' ==> k + 1 < |d| && IsDigit(d[k + 1]))
  }

  /** The value of a decimal literal, underscores ignored. */
  function DigitsValue(d: string): nat
    decreases |d|
  {
    if d == [] then 0
    else
      var c := d[|d| - 1];
      if IsDigit(c) then DigitsValue(d[..|d| - 1]) * 10 + (c as int - '0' as int)
      else DigitsValue(d[..|d| - 1])
  }

  /**
    The most digits `int()` converts from text: CPython's default for
    `sys.get_int_max_str_digits()`; longer literals raise ValueError.
  */
  const IntMaxStrDigits := 4300

  /** How many digits a literal has, underscores not counted: what `int()` holds against its limit. */
  function DigitCount(d: string): (n: nat)
    ensures n <= |d|
    decreases |d|
  {
    if d == [] then 0
    else DigitCount(d[..|d| - 1]) + if IsDigit(d[|d| - 1]) then 1 else 0
  }

  /** A literal of digits only counts every character. */
  lemma {:induction false} DigitCountOfDigits(d: string)
    requires forall k :: 0 <= k < |d| ==> IsDigit(d[k])
    ensures DigitCount(d) == |d|
    decreases |d|
  {
    if d != [] {
      DigitCountOfDigits(d[..|d| - 1]);
    }
  }

  /** A literal's value with its sign applied. */
  function Signed(negative: bool, v: nat): int {
    if negative then -(v as int) else v
  }

  /**
    Python `int(s)` in base 10: None where it raises ValueError. Otherwise the
    text between the skipped whitespace is an optional sign and a decimal
    literal of at most `IntMaxStrDigits` digits, and the result is that
    literal's value with the sign applied.
  */
  function ParseInt(s: string): (r: Option<int>)
    ensures r.Some? ==> NumericChars(s)
    ensures var t := IntCore(s);
      var signed := |t| > 0 && (t[0] == '+' || t[0] == '-');
      var d := if signed then t[1..] else t;
      (r.Some? <==> WellFormedDigits(d) && DigitCount(d) <= IntMaxStrDigits) &&
      (r.Some? ==> r.value == Signed(signed && t[0] == '-', DigitsValue(d)))
  {
    var t := IntCore(s);
    var signed := |t| > 0 && (t[0] == '+' || t[0] == '-');
    var d := if signed then t[1..] else t;
    if !WellFormedDigits(d) || DigitCount(d) > IntMaxStrDigits then None
    else
      StrippedNumericChars(s, t);
      Some(Signed(signed && t[0] == '-', DigitsValue(d)))
  }

  /** Text whose core is numeric is numeric throughout. */
  lemma StrippedNumericChars(s: string, t: string)
    requires t == IntCore(s)
    requires |t| > 0 ==> (t[0] == '+' || t[0] == '-' || WellFormedDigits(t)) && (t[0] == '+' || t[0] == '-' ==> WellFormedDigits(t[1..]))
    ensures NumericChars(s)
  {
    var i := SkipIntSpace(s, 0);
    if |t| > 0 {
      assert s[i..i + |t|] == t;
      forall k | 0 <= k < |s| ensures NumericChar(s[k]) {
        if k < i {
          assert IntSpace(s[k]);
        } else if i + |t| <= k {
          assert IntSpace(s[k]);
        } else {
          var j := k - i;
          assert s[k] == t[j];
          if j > 0 && (t[0] == '+' || t[0] == '-') {
            assert t[j] == t[1..][j - 1];
          }
          assert NumericChar(t[j]);
        }
      }
    }
  }

  /** The skipped whitespace ends where the first non-blank character stands. */
  lemma SkipIntSpaceStopsAt(s: string, p: nat)
    requires p < |s| && !IntSpace(s[p])
    requires forall k :: 0 <= k < p ==> IntSpace(s[k])
    ensures SkipIntSpace(s, 0) == p
  {
  }

  /** The trailing whitespace starts after the last non-blank character. */
  lemma TrimIntSpaceStopsAt(s: string, e: nat)
    requires 0 < e <= |s| && !IntSpace(s[e - 1])
    requires forall k :: e <= k < |s| ==> IntSpace(s[k])
    ensures TrimIntSpace(s, |s|) == e
  {
  }

  /** A decimal literal never ends in an underscore. */
  lemma LiteralEndsInDigit(d: string)
    requires WellFormedDigits(d)
    ensures IsDigit(d[|d| - 1])
  {
    var c := d[|d| - 1];
    assert IsDigit(c) || c == '_';
  }

  /** Padding `core` with whitespace on both sides leaves `core` as what `int()` reads. */
  lemma PaddedCore(pre: string, core: string, post: string)
    requires forall k :: 0 <= k < |pre| ==> IntSpace(pre[k])
    requires forall k :: 0 <= k < |post| ==> IntSpace(post[k])
    requires |core| > 0 && !IntSpace(core[0]) && !IntSpace(core[|core| - 1])
    ensures IntCore(pre + core + post) == core
  {
    var s := pre + core + post;
    var m := |pre| + |core|;
    assert s[|pre|] == core[0];
    SkipIntSpaceStopsAt(s, |pre|);
    assert s[m - 1] == core[|core| - 1];
    forall k | m <= k < |s| ensures IntSpace(s[k]) {
      assert s[k] == post[k - m];
    }
    TrimIntSpaceStopsAt(s, m);
    assert s[|pre|..m] == core;
  }

  /** Text whose core is a sign and a decimal literal reads as the signed literal. */
  lemma SignedCore(s: string, sign: string, d: string)
    requires sign == "" || sign == "+" || sign == "-"
    requires WellFormedDigits(d)
    requires IntCore(s) == sign + d
    ensures DigitCount(d) <= IntMaxStrDigits ==> ParseInt(s) == Some(Signed(sign == "-", DigitsValue(d)))
    ensures DigitCount(d) > IntMaxStrDigits ==> ParseInt(s) == None
  {
    var t := IntCore(s);
    if sign == "" {
      assert t == d;
      assert t[0] != '+' && t[0] != '-';
    } else {
      assert t[0] == sign[0];
      assert t[1..] == d;
    }
  }

  /**
    `int()` reads whitespace-padded, optionally signed decimal text with
    underscores between digits: `int(" +1_000 ") == 1000`, unless the literal
    has more digits than the limit.
  */
  lemma ParseIntReads(pre: string, sign: string, d: string, post: string)
    requires forall k :: 0 <= k < |pre| ==> IntSpace(pre[k])
    requires forall k :: 0 <= k < |post| ==> IntSpace(post[k])
    requires sign == "" || sign == "+" || sign == "-"
    requires WellFormedDigits(d)
    ensures DigitCount(d) <= IntMaxStrDigits ==> ParseInt(pre + sign + d + post) == Some(Signed(sign == "-", DigitsValue(d)))
    ensures DigitCount(d) > IntMaxStrDigits ==> ParseInt(pre + sign + d + post) == None
  {
    var core := sign + d;
    LiteralEndsInDigit(d);
    assert core[|core| - 1] == d[|d| - 1];
    assert core[0] == if sign == "" then d[0] else sign[0];
    assert pre + sign + d == pre + core;
    PaddedCore(pre, core, post);
    SignedCore(pre + core + post, sign, d);
  }

  /** The numeric levels the logging module names. */
  predicate StandardLevel(n: int) {
    n == NotSet || n == Debug || n == Info || n == Warning || n == Error || n == Critical
  }

  /** `getattr(logging, name)` for the level names the logging module defines. */
  function LevelByName(name: string): (r: Option<int>)
    ensures r.Some? <==> name in {"CRITICAL", "FATAL", "ERROR", "WARNING", "WARN", "INFO", "DEBUG", "NOTSET"}
    ensures r.Some? ==> StandardLevel(r.value)
  {
    if name == "CRITICAL" || name == "FATAL" then Some(Critical)
    else if name == "ERROR" then Some(Error)
    else if name == "WARNING" || name == "WARN" then Some(Warning)
    else if name == "INFO" then Some(Info)
    else if name == "DEBUG" then Some(Debug)
    else if name == "NOTSET" then Some(NotSet)
    else None
  }

  /** `_coerce_level`: an int as it is, else `int(str(level))`, else the level named, else INFO. */
  function CoerceLevel(level: LevelSetting): (r: int)
    ensures level.IntLevel? ==> r == level.n
    ensures level.TextLevel? && ParseInt(level.s).Some? ==> r == ParseInt(level.s).value
    ensures level.TextLevel? && ParseInt(level.s).None? ==> StandardLevel(r)
    ensures level.TextLevel? && ParseInt(level.s).None? && LevelByName(Upper(level.s)).Some? ==>
      r == LevelByName(Upper(level.s)).value
    ensures level.TextLevel? && ParseInt(level.s).None? && LevelByName(Upper(level.s)).None? ==> r == Info
  {
    match level
    case IntLevel(n) => n
    case TextLevel(s) =>
      match ParseInt(s)
      case Some(n) => n
      case None =>
        match LevelByName(Upper(s))
        case Some(v) => v
        case None => Info
  }

  /** `int()` does not skip the information separators U+001C to U+001F, so `"\x1c5"` names no level and gives INFO. */
  lemma SeparatorIsNotPadding()
    ensures ParseInt(['\U{1C}', '5']) == None
    ensures CoerceLevel(TextLevel(['\U{1C}', '5'])) == Info
  {
    var s := ['\U{1C}', '5'];
    assert IntCore(s) == s;
    assert !IsDigit(s[0]);
  }

  /** Text that is a letter once upper-cased at its start is not a number. */
  lemma LetterIsNotNumeric(s: string)
    requires |s| > 0 && 'A' <= Upper(s)[0] <= 'Z'
    ensures ParseInt(s) == None
  {
    var c := s[0];
    assert Upper(s)[0] == UpperChar(c);
    assert !NumericChar(c);
  }

  /** Every level name the logging module defines, in any case, coerces to its level. */
  lemma NamedLevelsCoerce(s: string)
    ensures Upper(s) == "CRITICAL" || Upper(s) == "FATAL" ==> CoerceLevel(TextLevel(s)) == 50
    ensures Upper(s) == "ERROR" ==> CoerceLevel(TextLevel(s)) == 40
    ensures Upper(s) == "WARNING" || Upper(s) == "WARN" ==> CoerceLevel(TextLevel(s)) == 30
    ensures Upper(s) == "INFO" ==> CoerceLevel(TextLevel(s)) == 20
    ensures Upper(s) == "DEBUG" ==> CoerceLevel(TextLevel(s)) == 10
    ensures Upper(s) == "NOTSET" ==> CoerceLevel(TextLevel(s)) == 0
  {
    if |s| > 0 && 'A' <= Upper(s)[0] <= 'Z' {
      LetterIsNotNumeric(s);
    }
  }

  function DigitChar(n: nat): char
    requires n < 10
  {
    ('0' as int + n) as char
  }

  /** The decimal text of a natural number, most significant digit first. */
  function Digits(n: nat): (d: string)
    ensures |d| > 0
    ensures forall k :: 0 <= k < |d| ==> IsDigit(d[k])
    decreases n
  {
    if n < 10 then [DigitChar(n)] else Digits(n / 10) + [DigitChar(n % 10)]
  }

  /** `str(n)` for an integer. */
  function DecimalString(n: int): string {
    if n < 0 then "-" + Digits(-n) else Digits(n)
  }

  lemma {:induction false} DigitsRoundTrip(n: nat)
    ensures WellFormedDigits(Digits(n)) && DigitsValue(Digits(n)) == n
    decreases n
  {
    var d := Digits(n);
    if n >= 10 {
      DigitsRoundTrip(n / 10);
      assert d[..|d| - 1] == Digits(n / 10);
    }
  }

  /** Unpadded signed decimal text reads as its value. */
  lemma ParseIntUnpadded(sign: string, d: string)
    requires sign == "" || sign == "-"
    requires WellFormedDigits(d)
    ensures DigitCount(d) <= IntMaxStrDigits ==> ParseInt(sign + d) == Some(Signed(sign == "-", DigitsValue(d)))
    ensures DigitCount(d) > IntMaxStrDigits ==> ParseInt(sign + d) == None
  {
    assert "" + sign + d + "" == sign + d;
    ParseIntReads("", sign, d, "");
  }

  /** The number of digits `str(n)` writes, the sign not counted. */
  function DigitLength(n: int): nat {
    |Digits(if n < 0 then -n else n)|
  }

  /** `int(str(n)) == n` within the digit limit; beyond it `int()` raises. */
  lemma ParseDecimal(n: int)
    ensures DigitLength(n) <= IntMaxStrDigits ==> ParseInt(DecimalString(n)) == Some(n)
    ensures DigitLength(n) > IntMaxStrDigits ==> ParseInt(DecimalString(n)) == None
  {
    var m := if n < 0 then -n else n;
    DigitsRoundTrip(m);
    DigitCountOfDigits(Digits(m));
    ParseIntUnpadded(if n < 0 then "-" else "", Digits(m));
    if n >= 0 {
      assert "" + Digits(m) == DecimalString(n);
    }
  }

  /**
    A level configured as the decimal text of a number coerces to that number;
    past the digit limit `int()` raises and the text names no level, so it is INFO.
  */
  lemma NumericTextRoundTrip(n: int)
    ensures DigitLength(n) <= IntMaxStrDigits ==> CoerceLevel(TextLevel(DecimalString(n))) == n
    ensures DigitLength(n) > IntMaxStrDigits ==> CoerceLevel(TextLevel(DecimalString(n))) == Info
  {
    ParseDecimal(n);
    var s := DecimalString(n);
    assert s[0] == '-' || IsDigit(s[0]);
    assert Upper(s)[0] == s[0];
  }

  lemma UpperIdempotent(s: string)
    ensures Upper(Upper(s)) == Upper(s)
  {
  }

  /** Numeric text has no letters for `upper` to change, before or after it. */
  lemma UpperKeepsNumeric(s: string)
    requires NumericChars(s) || NumericChars(Upper(s))
    ensures Upper(s) == s
  {
    forall k | 0 <= k < |s| ensures Upper(s)[k] == s[k] {
      var c := s[k];
      assert NumericChar(c) || NumericChar(UpperChar(c));
    }
  }

  /** Level text is case-insensitive: a name in any case coerces as its upper-case spelling. */
  lemma LevelTextCaseInsensitive(s: string)
    ensures CoerceLevel(TextLevel(s)) == CoerceLevel(TextLevel(Upper(s)))
  {
    UpperIdempotent(s);
    if ParseInt(s).Some? || ParseInt(Upper(s)).Some? {
      UpperKeepsNumeric(s);
    }
  }

  /** `logging.getLogger(name)` before anything configured it: level NOTSET, no handlers, propagating. */
  function Get(loggers: map<string, Logger>, name: string): Logger {
    if name in loggers then loggers[name] else Logger(NotSet, [], true)
  }

  /** Each named logger gets level `level`; the rest are as they were. */
  function SetLevels(loggers: map<string, Logger>, names: seq<string>, level: int): (r: map<string, Logger>)
    ensures forall n :: Get(r, n).handlers == Get(loggers, n).handlers && Get(r, n).propagate == Get(loggers, n).propagate
    ensures forall n :: n in names ==> Get(r, n).level == level
    ensures forall n :: n !in names ==> Get(r, n) == Get(loggers, n)
    decreases |names|
  {
    if names == [] then loggers
    else SetLevels(loggers[names[0] := Get(loggers, names[0]).(level := level)], names[1..], level)
  }

  /** The logger `setup_logger` configures: the name given, unless it is missing or empty. */
  function LoggerName(name: Option<string>): (r: string)
    ensures r != ""
    ensures name.Some? && name.value != "" ==> r == name.value
    ensures name.None? || name.value == "" ==> r == DefaultLoggerName
  {
    if name.Some? && name.value != "" then name.value else DefaultLoggerName
  }

  /** `setup_logger(name)` on the registry `loggers`. */
  function Setup(loggers: map<string, Logger>, name: Option<string>, cfg: LogConfig): (r: map<string, Logger>)
    ensures |Get(r, LoggerName(name)).handlers| > 0
    ensures |Get(loggers, LoggerName(name)).handlers| > 0 ==> r == loggers
    ensures |Get(loggers, LoggerName(name)).handlers| == 0 ==>
      Get(r, LoggerName(name)).handlers == [Handler(cfg.path, CoerceLevel(cfg.level), cfg.maxBytes, cfg.backupCount, LogFormat)] &&
      !Get(r, LoggerName(name)).propagate
    ensures forall n :: n != LoggerName(name) ==> Get(r, n).handlers == Get(loggers, n).handlers
  {
    var key := LoggerName(name);
    var logger := Get(loggers, key);
    if |logger.handlers| > 0 then loggers
    else
      var level := CoerceLevel(cfg.level);
      var handler := Handler(cfg.path, level, cfg.maxBytes, cfg.backupCount, LogFormat);
      var configured := loggers[key := Logger(level, logger.handlers + [handler], false)];
      SetLevels(configured, Noisy, Max(level, Warning))
  }

  /** What one call does to every logger: the named one, the noisy ones, and no other. */
  lemma SetupEffect(loggers: map<string, Logger>, name: Option<string>, cfg: LogConfig, n: string)
    ensures var key := LoggerName(name);
      var level := CoerceLevel(cfg.level);
      var after := Get(Setup(loggers, name, cfg), n);
      if |Get(loggers, key).handlers| > 0 then after == Get(loggers, n)
      else
        (n == key ==> after.handlers == [Handler(cfg.path, level, cfg.maxBytes, cfg.backupCount, LogFormat)] &&
                      !after.propagate &&
                      after.level == (if key in Noisy then Max(level, Warning) else level)) &&
        (n in Noisy ==> after.level == Max(level, Warning) && Warning <= after.level) &&
        (n != key && n !in Noisy ==> after == Get(loggers, n)) &&
        (n != key ==> after.handlers == Get(loggers, n).handlers && after.propagate == Get(loggers, n).propagate)
  {
  }

  /** A second call, with any configuration, leaves the registry as the first call left it. */
  lemma SetupIdempotent(loggers: map<string, Logger>, name: Option<string>, cfg: LogConfig, cfg2: LogConfig)
    ensures Setup(Setup(loggers, name, cfg), name, cfg2) == Setup(loggers, name, cfg)
  {
    SetupEffect(loggers, name, cfg, LoggerName(name));
  }

  /** Python's logger registry. */
  class Registry {
    var loggers: map<string, Logger>

    constructor()
      ensures loggers == map[]
    {
      loggers := map[];
    }

    /** `setup_logger(name)`: returns the name of the logger it configured or found configured. */
    method SetupLogger(name: Option<string>, cfg: LogConfig) returns (key: string)
      modifies this
      ensures key == LoggerName(name)
      ensures loggers == Setup(old(loggers), name, cfg)
    {
      key := if name.Some? && name.value != "" then name.value else DefaultLoggerName;
      var logger := Get(loggers, key);
      if |logger.handlers| > 0 {
        return;
      }
      var level := CoerceLevel(cfg.level);
      logger := logger.(level := level);
      var handler := Handler(cfg.path, level, cfg.maxBytes, cfg.backupCount, LogFormat);
      logger := logger.(handlers := logger.handlers + [handler]);
      logger := logger.(propagate := false);
      loggers := loggers[key := logger];
      ghost var configured := loggers;
      var quiet := Max(level, Warning);
      for i := 0 to |Noisy|
        invariant SetLevels(loggers, Noisy[i..], quiet) == SetLevels(configured, Noisy, quiet)
      {
        assert Noisy[i..][1..] == Noisy[i + 1..];
        loggers := loggers[Noisy[i] := Get(loggers, Noisy[i]).(level := quiet)];
      }
    }
  }
}
