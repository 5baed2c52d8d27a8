/**
 * The logging glue of `logger.rs`: the application's five levels, their
 * translation to the logging library's level filters, and the adapter that
 * turns the byte stream a logger writes into whole lines sent over a
 * channel. The channel is a sequence of sent lines.
 */
module Logger {
  import opened Wrappers

  /** `LogLevel`, in its derived order from most to least severe. */
  datatype LogLevel = Error | Warning | Info | Debug | Trace

  /** The logging library's `LevelFilter`, from `Off` to `Trace`. */
  datatype LevelFilter = Off | Error | Warn | Info | Debug | Trace

  /** Position of a level in the derived order of `LogLevel`. */
  function LevelRank(l: LogLevel): nat
  {
    match l
    case Error => 0
    case Warning => 1
    case Info => 2
    case Debug => 3
    case Trace => 4
  }

  /** Position of a filter in the order of `LevelFilter`. */
  function FilterRank(f: LevelFilter): nat
  {
    match f
    case Off => 0
    case Error => 1
    case Warn => 2
    case Info => 3
    case Debug => 4
    case Trace => 5
  }

  /**
   * `translate_to_simple_logger`: every level has its own filter, never
   * `Off`, one step further along the filter order than the level is along
   * its own.
   */
  function TranslateToSimpleLogger(level: LogLevel): (f: LevelFilter)
    ensures f != Off
    ensures FilterRank(f) == LevelRank(level) + 1
  {
    match level
    case Error => LevelFilter.Error
    case Warning => Warn
    case Info => LevelFilter.Info
    case Debug => LevelFilter.Debug
    case Trace => LevelFilter.Trace
  }

  /** The translation is one-to-one, keeps the order, and reaches every filter but `Off`. */
  lemma TranslationBijective()
    ensures forall a, b :: TranslateToSimpleLogger(a) == TranslateToSimpleLogger(b) ==> a == b
    ensures forall a, b :: LevelRank(a) <= LevelRank(b) <==> FilterRank(TranslateToSimpleLogger(a)) <= FilterRank(TranslateToSimpleLogger(b))
    ensures forall f :: FilterRank(f) > 0 ==> exists l :: TranslateToSimpleLogger(l) == f
  {
    forall a, b | TranslateToSimpleLogger(a) == TranslateToSimpleLogger(b)
      ensures a == b
    {
      assert LevelRank(a) == LevelRank(b);
    }
    forall f | FilterRank(f) > 0
      ensures exists l :: TranslateToSimpleLogger(l) == f
    {
      var l := match f
        case Error => LogLevel.Error
        case Warn => Warning
        case Info => LogLevel.Info
        case Debug => LogLevel.Debug
        case _ => LogLevel.Trace;
      assert TranslateToSimpleLogger(l) == f;
    }
  }

  /** The number of bytes UTF-8 uses for `c`. */
  function Utf8Width(c: char): nat
  {
    if c as int < 0x80 then 1
    else if c as int < 0x800 then 2
    else if c as int < 0x10000 then 3
    else 4
  }

  /** The length in bytes of the UTF-8 encoding of `s`. */
  function Utf8Length(s: string): (n: nat)
    ensures |s| <= n <= 4 * |s|
  {
    if s == [] then 0 else Utf8Length(s[..|s| - 1]) + Utf8Width(s[|s| - 1])
  }

  /** The text of sent lines, each followed by the newline that ended it. */
  function Joined(lines: seq<string>): string
  {
    if lines == [] then [] else Joined(lines[..|lines| - 1]) + lines[|lines| - 1] + "\n"
  }

  predicate EndsWithNewline(s: string)
  {
    |s| > 0 && s[|s| - 1] == '\n'
  }

  /**
   * One write: the buffer grows by the chunk, and when it then ends with a
   * newline the text before that newline is sent and the buffer empties.
   * Returns the new buffer and the line sent, if any.
   */
  function Step(buffer: string, chunk: string): (string, Option<string>)
  {
    var text := buffer + chunk;
    if EndsWithNewline(text) then ([], Some(text[..|text| - 1])) else (text, None)
  }

  /**
   * A write loses and invents nothing: the line sent with its newline, then
   * the new buffer, is the old buffer followed by the chunk; and the buffer
   * never ends with a newline. A newline inside the chunk sends nothing.
   */
  lemma StepKeepsText(buffer: string, chunk: string)
    ensures var (rest, line) := Step(buffer, chunk);
      (if line.Some? then line.value + "\n" else []) + rest == buffer + chunk
      && !EndsWithNewline(rest)
      && (line.Some? <==> EndsWithNewline(buffer + chunk))
  {
    var text := buffer + chunk;
    if EndsWithNewline(text) {
      assert text[..|text| - 1] + "\n" == text;
    }
  }

  class WriteAdapter {
    var buffer: string
    var sent: seq<string>
    /** Everything written so far. */
    ghost var written: string

    /** The sent lines and the buffer together hold exactly what was written. */
    ghost predicate Valid()
      reads this
    {
      Joined(sent) + buffer == written && !EndsWithNewline(buffer)
    }

    /** As `init_logger` builds it: an empty buffer, nothing sent. */
    constructor ()
      ensures Valid() && buffer == [] && sent == [] && written == []
    {
      buffer := [];
      sent := [];
      written := [];
    }

    /**
     * `write`: `chunk` is the text the written bytes decode to; the whole
     * byte count is reported as written, and a line is sent when the
     * buffered text ends with a newline.
     */
    method Write(chunk: string) returns (r: Result<nat>)
      requires Valid()
      modifies this
      ensures Valid()
      ensures r == Ok(Utf8Length(chunk))
      ensures written == old(written) + chunk
      ensures buffer == Step(old(buffer), chunk).0
      ensures sent == old(sent) + (if Step(old(buffer), chunk).1.Some? then [Step(old(buffer), chunk).1.value] else [])
    {
      ghost var text := buffer + chunk;
      written := written + chunk;
      buffer := buffer + chunk;
      if EndsWithNewline(buffer) {
        buffer := buffer[..|buffer| - 1];
        assert buffer + "\n" == text;
        assert (sent + [buffer])[..|sent|] == sent;
        assert Joined(sent + [buffer]) == Joined(sent) + text;
        sent := sent + [buffer];
        buffer := [];
      }
      r := Ok(Utf8Length(chunk));
    }

    /** `flush`: nothing is pending beyond the buffer, which is kept. */
    method Flush() returns (r: Result<()>)
      ensures r == Ok(())
    {
      r := Ok(());
    }
  }
}
