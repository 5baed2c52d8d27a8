/**
 * The engine-log reader of `Logger.cpp`: the line reader over the engine's
 * debug file, the field splitter, the filter that forwards only warnings
 * and errors, and the capped log level. The logger's signal is a sequence
 * of emitted entries; C strings are character sequences holding no NUL.
 * Both buffers grow in steps of `MAX_LINE_LENGTH` characters; the growth
 * rules are modelled both as written and as intended.
 */
module GstLogger {
  import opened Wrappers
  import opened Text

  /** `MAX_LINE_LENGTH`: the first size of a buffer and the size of each growth step. */
  const MAX_LINE_LENGTH: nat := 128

  /** A C string: no NUL before its end. */
  predicate IsCString(s: string)
  {
    '\0' !in s
  }

  /** The C string a buffer holds: everything before its first NUL. */
  function UpToNul(s: string): (r: string)
    ensures IsCString(r) && |r| <= |s| && r == s[..|r|]
    ensures |r| < |s| ==> s[|r|] == '\0'
  {
    if s == [] then []
    else if s[0] == '\0' then []
    else [s[0]] + UpToNul(s[1..])
  }

  // Field splitting (`parseGstLine`).

  /**
   * The fields of `s`, scanning from its start: `cur` is the field being
   * read, if any, and `left` the number of fields still allowed before the
   * cut, if there is a limit. A field ends at a delimiter; at the cut the
   * rest of the line after that delimiter becomes one last entry when it
   * is not empty. A field the line ends inside is dropped.
   */
  function Scan(s: string, delimiter: char, cur: Option<string>, left: Option<nat>): seq<string>
    requires left.Some? ==> left.value >= 1
  {
    if s == [] then []
    else if cur.None? then
      if s[0] == delimiter then Scan(s[1..], delimiter, None, left)
      else Scan(s[1..], delimiter, Some([s[0]]), left)
    else if s[0] != delimiter then Scan(s[1..], delimiter, Some(cur.value + [s[0]]), left)
    else if left == Some(1) then [cur.value] + (if s[1..] != [] then [s[1..]] else [])
    else [cur.value] + Scan(s[1..], delimiter, None, if left.Some? then Some(left.value - 1) else None)
  }

  /** The field limit a `max_fields` argument sets: only a positive one is ever reached. */
  function Limit(maxFields: int): (r: Option<nat>)
    ensures r.Some? ==> r.value >= 1
  {
    if maxFields >= 1 then Some(maxFields) else None
  }

  /** What `parseGstLine` returns: nothing for NULL, else the scanned fields. */
  function Fields(line: Option<string>, delimiter: char, maxFields: int): seq<string>
  {
    if line.None? then [] else Scan(line.value, delimiter, None, Limit(maxFields))
  }

  /** The intended growth rule: a full buffer gains one more step before the next write. */
  function Grown(count: nat, capacity: nat): nat
  {
    if count == capacity then capacity + MAX_LINE_LENGTH else capacity
  }

  /** The growth rule as written in `parseGstLine`: it tests the constant, not the capacity. */
  function GrownAsWritten(count: nat, capacity: nat): nat
  {
    if count == MAX_LINE_LENGTH then capacity + MAX_LINE_LENGTH else capacity
  }

  /** `lineBuffer[count] = c` on a buffer of `capacity` characters: the write must fall inside it. */
  function Put(buffer: string, capacity: nat, c: char): (r: string)
    requires |buffer| < capacity
    ensures r == buffer + [c] && |r| <= capacity
  {
    buffer + [c]
  }

  /**
   * `parseGstLine`: walks the line once, collecting each run of
   * non-delimiter characters that a delimiter ends, up to `maxFields` of
   * them when that is positive, and then the rest of the line. Every write
   * into the field buffer stays inside it.
   */
  method ParseGstLine(line: Option<string>, delimiter: char, maxFields: int) returns (fields: seq<string>)
    requires line.Some? ==> IsCString(line.value)
    ensures fields == Fields(line, delimiter, maxFields)
  {
    fields := [];
    if line.None? {
      return;
    }
    var s := line.value;
    if |s| == 0 {
      // The first pass reads only the terminating NUL and completes no field.
      return;
    }
    var pos := 0;
    var newString := true;
    var buffer: string := [];
    var maximumLineLength := MAX_LINE_LENGTH;
    var capacity := 0;
    var nFields := 0;
    while pos < |s|
      invariant 0 <= pos <= |s|
      invariant maxFields >= 1 ==> nFields < maxFields
      invariant newString ==> buffer == []
      invariant maximumLineLength >= MAX_LINE_LENGTH
      invariant !newString ==> 0 < |buffer| <= capacity && capacity == maximumLineLength
      invariant fields + Scan(s[pos..], delimiter, if newString then None else Some(buffer),
          if maxFields >= 1 then Some(maxFields - nFields) else None)
        == Fields(line, delimiter, maxFields)
    {
      var c := s[pos];
      ghost var left: Option<nat> := if maxFields >= 1 then Some(maxFields - nFields) else None;
      assert s[pos..][0] == c && s[pos..][1..] == s[pos + 1..];
      if newString {
        if c != delimiter {
          newString := false;
          capacity := maximumLineLength;
          buffer := Put([], capacity, c);
          assert buffer == [c];
          assert fields + Scan(s[pos + 1..], delimiter, Some(buffer), left) == Fields(line, delimiter, maxFields);
        } else {
          assert fields + Scan(s[pos + 1..], delimiter, None, left) == Fields(line, delimiter, maxFields);
        }
      } else {
        maximumLineLength := Grown(|buffer|, capacity);
        capacity := maximumLineLength;
        if c == delimiter {
          assert Scan(s[pos..], delimiter, Some(buffer), left) == [buffer] +
            (if left == Some(1) then (if s[pos + 1..] != [] then [s[pos + 1..]] else [])
             else Scan(s[pos + 1..], delimiter, None, if left.Some? then Some(left.value - 1) else None));
          newString := true;
          fields := fields + [buffer];
          buffer := [];
          nFields := nFields + 1;
          if maxFields >= 1 && nFields == maxFields {
            pos := pos + 1;
            if pos < |s| {
              fields := fields + [s[pos..]];
            }
            return;
          }
        } else {
          ghost var before := buffer;
          buffer := Put(buffer, capacity, c);
          assert Scan(s[pos..], delimiter, Some(before), left) == Scan(s[pos + 1..], delimiter, Some(buffer), left);
        }
      }
      pos := pos + 1;
    }
  }

  /**
   * Every entry is a non-empty run without the delimiter, except the rest
   * of the line kept at the cut; without a limit all entries are such runs,
   * and the runs found are in the line, in order.
   */
  lemma {:induction false} ScanShape(s: string, delimiter: char, cur: Option<string>, left: Option<nat>)
    requires left.Some? ==> left.value >= 1
    requires cur.Some? ==> cur.value != [] && delimiter !in cur.value
    ensures left.None? ==> forall f :: f in Scan(s, delimiter, cur, left) ==> f != [] && delimiter !in f
    ensures left.Some? ==> |Scan(s, delimiter, cur, left)| <= left.value + 1
    ensures forall i :: 0 <= i < |Scan(s, delimiter, cur, left)| - 1 ==>
      Scan(s, delimiter, cur, left)[i] != [] && delimiter !in Scan(s, delimiter, cur, left)[i]
    decreases |s|
  {
    if s != [] {
      if cur.None? {
        if s[0] == delimiter {
          ScanShape(s[1..], delimiter, None, left);
        } else {
          ScanShape(s[1..], delimiter, Some([s[0]]), left);
        }
      } else if s[0] != delimiter {
        ScanShape(s[1..], delimiter, Some(cur.value + [s[0]]), left);
      } else if left != Some(1) {
        ScanShape(s[1..], delimiter, None, if left.Some? then Some(left.value - 1) else None);
      }
    }
  }

  /** A line without delimiters yields no field: a field needs a delimiter after it. */
  lemma {:induction false} ScanNoDelimiter(s: string, delimiter: char, cur: Option<string>, left: Option<nat>)
    requires left.Some? ==> left.value >= 1
    requires delimiter !in s
    ensures Scan(s, delimiter, cur, left) == []
    decreases |s|
  {
    if s != [] {
      assert s[0] != delimiter;
      var next := if cur.None? then [s[0]] else cur.value + [s[0]];
      ScanNoDelimiter(s[1..], delimiter, Some(next), left);
    }
  }

  /** Delimiters before a field add nothing: runs of delimiters make no empty fields. */
  lemma ScanSkipsDelimiters(s: string, delimiter: char, left: Option<nat>)
    requires left.Some? ==> left.value >= 1
    ensures Scan([delimiter] + s, delimiter, None, left) == Scan(s, delimiter, None, left)
  {
    assert ([delimiter] + s)[1..] == s;
  }

  /** A field and its delimiter: the field comes out first, then the rest is scanned on. */
  lemma {:induction false} ScanField(field: string, s: string, delimiter: char)
    requires field != [] && delimiter !in field
    ensures Scan(field + [delimiter] + s, delimiter, None, None) == [field] + Scan(s, delimiter, None, None)
  {
    ScanFieldFrom([], field, s, delimiter);
    assert [] + field == field;
  }

  lemma {:induction false} ScanFieldFrom(done: string, rest: string, s: string, delimiter: char)
    requires done + rest != [] && delimiter !in done + rest
    ensures Scan(rest + [delimiter] + s, delimiter, if done == [] then None else Some(done), None)
      == [done + rest] + Scan(s, delimiter, None, None)
    decreases |rest|
  {
    var t := rest + [delimiter] + s;
    if rest == [] {
      assert t[0] == delimiter && t[1..] == s;
      assert done + rest == done;
    } else {
      assert t[0] == rest[0] && t[1..] == rest[1..] + [delimiter] + s;
      assert rest[0] in done + rest;
      assert done + rest == (done + [rest[0]]) + rest[1..];
      if done == [] {
        assert [] + [rest[0]] == [rest[0]];
      }
      assert Scan(t, delimiter, if done == [] then None else Some(done), None)
        == Scan(t[1..], delimiter, Some(done + [rest[0]]), None);
      ScanFieldFrom(done + [rest[0]], rest[1..], s, delimiter);
    }
  }

  /**
   * The buffer writes of one field of `length` characters under the growth
   * rule as written: the characters and then the terminator go to indices
   * 0 to `length`, into a buffer of `start` characters that grows by one
   * step only when 128 characters are stored. Reports whether a write fell
   * outside the buffer and the size the buffer ends with.
   */
  method FieldWritesAsWritten(length: nat, start: nat) returns (overflow: bool, capacity: nat)
    requires length >= 1 && start >= MAX_LINE_LENGTH
    ensures overflow <==> length >= start + MAX_LINE_LENGTH
    ensures capacity == if length >= MAX_LINE_LENGTH then start + MAX_LINE_LENGTH else start
  {
    capacity := start;
    overflow := false;
    var count := 1;
    while count <= length
      invariant 1 <= count <= length + 1
      invariant capacity == if count > MAX_LINE_LENGTH then start + MAX_LINE_LENGTH else start
      invariant overflow <==> count - 1 >= start + MAX_LINE_LENGTH
    {
      capacity := GrownAsWritten(count, capacity);
      if count >= capacity {
        overflow := true;
      }
      count := count + 1;
    }
  }

  /** The same writes under the intended rule never leave the buffer. */
  method FieldWrites(length: nat, start: nat) returns (overflow: bool, capacity: nat)
    requires length >= 1 && start >= MAX_LINE_LENGTH
    ensures !overflow && length < capacity
  {
    capacity := start;
    overflow := false;
    var count := 1;
    while count <= length
      invariant 1 <= count <= length + 1
      invariant count <= capacity && !overflow
    {
      capacity := Grown(count, capacity);
      if count >= capacity {
        overflow := true;
      }
      count := count + 1;
    }
  }

  /** The first field of a line, 256 characters long and then a delimiter, is written past its buffer. */
  method FieldOverflowExample() returns (overflow: bool)
    ensures overflow
  {
    var capacity;
    overflow, capacity := FieldWritesAsWritten(256, MAX_LINE_LENGTH);
  }

  // Line reading (`readGstLine`).

  /** The index of the first newline of `s`, or its length when there is none. */
  function LineEnd(s: string): (k: nat)
    ensures k <= |s| && '\n' !in s[..k]
    ensures k < |s| ==> s[k] == '\n'
  {
    if s == [] || s[0] == '\n' then 0
    else
      var k := LineEnd(s[1..]);
      assert s[..k + 1] == [s[0]] + s[1..][..k];
      k + 1
  }

  /**
   * `readGstLine` on the rest of an open file: the characters before the
   * first newline or the end of the file, up to any NUL among them, or
   * nothing when none came before the newline; the newline is consumed.
   */
  method ReadGstLine(file: Option<string>) returns (line: Option<string>, rest: Option<string>)
    ensures file.None? ==> line.None? && rest.None?
    ensures file.Some? ==> rest.Some?
    ensures file.Some? && LineEnd(file.value) == 0 ==> line.None?
    ensures file.Some? && LineEnd(file.value) > 0 ==> line == Some(UpToNul(file.value[..LineEnd(file.value)]))
    ensures file.Some? ==> rest.value == file.value[Consumed(file.value)..]
  {
    if file.None? {
      return None, None;
    }
    var s := file.value;
    var buffer: string := [];
    var capacity := MAX_LINE_LENGTH;
    var pos := 0;
    while pos < |s| && s[pos] != '\n'
      invariant 0 <= pos <= LineEnd(s)
      invariant buffer == s[..pos] && |buffer| <= capacity
    {
      capacity := Grown(|buffer|, capacity);
      buffer := Put(buffer, capacity, s[pos]);
      pos := pos + 1;
    }
    assert pos == LineEnd(s);
    var next := if pos < |s| then pos + 1 else pos;
    assert next == Consumed(s);
    if pos == 0 {
      return None, Some(s[next..]);
    }
    capacity := Grown(|buffer|, capacity);
    var terminated := Put(buffer, capacity, '\0');
    line := Some(UpToNul(terminated));
    UpToNulStops(buffer);
    rest := Some(s[next..]);
  }

  /** How many characters one read consumes: the line and its newline, if there is one. */
  function Consumed(s: string): nat
  {
    if LineEnd(s) < |s| then LineEnd(s) + 1 else LineEnd(s)
  }

  lemma {:induction false} UpToNulStops(s: string)
    ensures UpToNul(s + ['\0']) == UpToNul(s)
  {
    if s != [] && s[0] != '\0' {
      assert (s + ['\0'])[1..] == s[1..] + ['\0'];
      UpToNulStops(s[1..]);
    }
  }

  /**
   * Reading lines one after another gives back the file: every line read
   * is the text before its newline, so a file of NUL-free lines is
   * consumed line by line.
   */
  lemma ReadLineOfJoin(line: string, rest: string)
    requires line != [] && IsCString(line) && '\n' !in line
    ensures LineEnd(line + "\n" + rest) == |line|
    ensures UpToNul((line + "\n" + rest)[..|line|]) == line
    ensures (line + "\n" + rest)[Consumed(line + "\n" + rest)..] == rest
  {
    var s := line + "\n" + rest;
    LineEndOfJoin(line, rest);
    assert s[..|line|] == line;
    UpToNulPlain(line);
  }

  lemma {:induction false} LineEndOfJoin(line: string, rest: string)
    requires '\n' !in line
    ensures LineEnd(line + "\n" + rest) == |line|
    decreases |line|
  {
    var s := line + "\n" + rest;
    if line == [] {
      assert s[0] == '\n';
    } else {
      assert s[0] == line[0] && s[1..] == line[1..] + "\n" + rest;
      assert line[0] in line;
      LineEndOfJoin(line[1..], rest);
    }
  }

  lemma {:induction false} UpToNulPlain(s: string)
    requires IsCString(s)
    ensures UpToNul(s) == s
  {
    if s != [] {
      assert s[0] in s;
      UpToNulPlain(s[1..]);
    }
  }

  /**
   * The size of the line buffer after `count` characters have been stored,
   * growing by one step whenever it is full before a character is written.
   */
  function LineCapacity(count: nat): nat
  {
    if count <= MAX_LINE_LENGTH then MAX_LINE_LENGTH
    else ((count - 1) / MAX_LINE_LENGTH + 1) * MAX_LINE_LENGTH
  }

  /**
   * The terminator write of `readGstLine` as written: after `count`
   * characters it goes to index `count` with no growth check, so it falls
   * outside the buffer exactly when the line fills it.
   */
  method TerminatorAsWritten(count: nat) returns (overflow: bool)
    requires count >= 1
    ensures overflow <==> count % MAX_LINE_LENGTH == 0
  {
    var capacity := MAX_LINE_LENGTH;
    var stored := 0;
    while stored < count
      invariant 0 <= stored <= count
      invariant capacity == LineCapacity(stored)
    {
      capacity := Grown(stored, capacity);
      stored := stored + 1;
    }
    overflow := count >= capacity;
  }

  /** A line of exactly 128 characters has its terminator written past the buffer. */
  method TerminatorOverflowExample() returns (overflow: bool)
    ensures overflow
  {
    overflow := TerminatorAsWritten(128);
  }

  // The filter and the log level.

  /**
   * `g_strrstr`: the start of the last occurrence of `sub` in `s`, or
   * nothing when it does not occur.
   */
  function LastOccurrence(s: string, sub: string): (r: Option<nat>)
    ensures r.Some? ==> OccursAt(s, sub, r.value)
    ensures r.Some? ==> forall j :: r.value < j <= |s| ==> !OccursAt(s, sub, j)
    ensures r.None? <==> !Contains(s, sub)
    decreases |s|
  {
    if |sub| > |s| then None
    else if s[|s| - |sub|..] == sub then Some(|s| - |sub|)
    else
      var r := LastOccurrence(s[..|s| - 1], sub);
      assert forall j :: 0 <= j <= |s| ==> (OccursAt(s, sub, j) <==> OccursAt(s[..|s| - 1], sub, j)) by {
        forall j | 0 <= j <= |s|
          ensures OccursAt(s, sub, j) <==> OccursAt(s[..|s| - 1], sub, j)
        {
          if j + |sub| <= |s| - 1 {
            assert s[..|s| - 1][j..j + |sub|] == s[j..j + |sub|];
          }
        }
      }
      r
  }

  /** Where a log entry goes: the application's own messages or the engine's. */
  datatype Category = Internal | Gst

  datatype Entry = Entry(text: string, category: Category)

  /** Decimal text of an `int`, as `%d` writes it. */
  function IntText(i: int): (s: string)
    ensures |s| > 0
  {
    if i < 0 then "-" + NatToString(-i) else NatToString(i)
  }

  /** The level after one increment: one more, but never past `maxLevel`. */
  function NextLevel(level: int, maxLevel: int): (r: int)
    ensures r <= maxLevel
    ensures level < maxLevel ==> r == level + 1
    ensures level >= maxLevel ==> r == maxLevel
  {
    if level + 1 > maxLevel then maxLevel else level + 1
  }

  class GstLog {
    /** `MAX_LOG_LEVEL`, defined in `Logger.h`, which is not part of this model. */
    const maxLevel: int
    var level: int
    var emitted: seq<Entry>

    ghost predicate Valid()
      reads this
    {
      level <= maxLevel
    }

    /** `Logger::Logger`: the level starts at its maximum and nothing is emitted. */
    constructor (maxLevel: int)
      ensures Valid() && this.maxLevel == maxLevel && level == maxLevel && emitted == []
    {
      this.maxLevel := maxLevel;
      level := maxLevel;
      emitted := [];
    }

    /** `processLog`: emits the line as an internal message. */
    method ProcessLog(line: string)
      modifies this
      ensures emitted == old(emitted) + [Entry(line, Internal)]
      ensures level == old(level)
    {
      emitted := emitted + [Entry(line, Internal)];
    }

    /** `incrementLogLevel`: one level up, capped at the maximum, and announced. */
    method IncrementLogLevel()
      requires Valid()
      modifies this
      ensures Valid()
      ensures level == NextLevel(old(level), maxLevel)
      ensures emitted == old(emitted) + [Entry("logger log level " + IntText(level) + "\n", Internal)]
    {
      level := level + 1;
      if level > maxLevel {
        level := maxLevel;
      }
      ProcessLog("logger log level " + IntText(level) + "\n");
    }

    /** `processGstLog`: only an engine line mentioning WARN or ERROR is emitted. */
    method ProcessGstLog(log: string)
      modifies this
      ensures Contains(log, "WARN") || Contains(log, "ERROR") ==> emitted == old(emitted) + [Entry(log, Gst)]
      ensures !Contains(log, "WARN") && !Contains(log, "ERROR") ==> emitted == old(emitted)
      ensures level == old(level)
    {
      if LastOccurrence(log, "WARN").None? && LastOccurrence(log, "ERROR").None? {
        return;
      }
      emitted := emitted + [Entry(log, Gst)];
    }
  }
}
