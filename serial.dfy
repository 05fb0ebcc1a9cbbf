/** The serial port and pins the driver talks through, seen from outside:
    everything the driver does to them is an event in a log, and what the
    module sends back is a queue of bytes that reads consume. */
module Serial {
  import opened CStrings
  import Decimal

  datatype Level = Low | High

  /** One effect on the port or the pins. Delays are recorded, not timed. */
  datatype Event =
    | PinWrite(level: Level)   // digitalWrite on the command pin
    | Write(bytes: string)     // bytes sent to the module
    | Print(number: int)       // Print::print(long): the number in decimal
    | Begin(baud: int)         // (re)open the port at a rate
    | SetTimeout(ms: int)      // read timeout for later reads
    | Flush
    | Delay(ms: int)

  const CRLF: string := "\r\n"
  const LF: char := '\n'

  /** The bytes one event sends. */
  function Sent(e: Event): string {
    match e
    case Write(bytes) => bytes
    case Print(number) => Decimal.Text(number)
    case _ => []
  }

  /** Events that send bytes to the module. */
  predicate Sends(e: Event) {
    e.Write? || e.Print?
  }

  /** The byte stream sent to the module. */
  function Written(log: seq<Event>): string {
    if log == [] then []
    else Written(log[..|log| - 1]) + Sent(log[|log| - 1])
  }

  lemma {:induction false} WrittenAppend(a: seq<Event>, b: seq<Event>)
    ensures Written(a + b) == Written(a) + Written(b)
    decreases |b|
  {
    if b != [] {
      var b' := b[..|b| - 1];
      assert (a + b)[..|a + b| - 1] == a + b';
      WrittenAppend(a, b');
    } else {
      assert a + b == a;
    }
  }

  /** Level of the command pin after a log, given its level before. */
  function LevelAfter(start: Level, log: seq<Event>): Level {
    if log == [] then start
    else if log[|log| - 1].PinWrite? then log[|log| - 1].level
    else LevelAfter(start, log[..|log| - 1])
  }

  /** Every byte in the log went out while the command pin was HIGH. */
  predicate InCommandMode(start: Level, log: seq<Event>) {
    log == [] ||
    (InCommandMode(start, log[..|log| - 1]) &&
     (Sends(log[|log| - 1]) ==> LevelAfter(start, log[..|log| - 1]) == High))
  }

  lemma {:induction false} InCommandModeAppend(start: Level, a: seq<Event>, b: seq<Event>)
    ensures LevelAfter(start, a + b) == LevelAfter(LevelAfter(start, a), b)
    ensures InCommandMode(start, a + b) <==> InCommandMode(start, a) && InCommandMode(LevelAfter(start, a), b)
    decreases |b|
  {
    if b == [] {
      assert a + b == a;
    } else {
      var b' := b[..|b| - 1];
      assert (a + b)[..|a + b| - 1] == a + b';
      InCommandModeAppend(start, a, b');
    }
  }

  /** readBytesUntil('\n', buffer, length): the bytes up to the first LF, at
      most `length` of them, or all that arrive before the timeout; the LF is
      consumed when it is met before `length` bytes, and never stored. */
  function NextLine(input: string, length: nat): (r: (string, string))
    ensures var (line, rest) := r;
      |line| <= length && |line| <= |input| && line == input[..|line|] && LF !in line &&
      if |line| < length && |line| < |input| then input[|line|] == LF && rest == input[|line| + 1..]
      else rest == input[|line|..]
  {
    if length == 0 || input == [] then ([], input)
    else if input[0] == LF then ([], input[1..])
    else
      var (line, rest) := NextLine(input[1..], length - 1);
      ([input[0]] + line, rest)
  }

  /** A buffer after readLine stored `line` into it with room `length`: the
      line, then a NUL only when the line is shorter than `length`; nothing
      at or past index `length` changes. */
  function LineStored(buf: seq<char>, line: string, length: nat): (r: seq<char>)
    requires |line| <= length <= |buf|
    ensures |r| == |buf| && r[..|line|] == line && r[length..] == buf[length..]
    ensures |line| < length ==> r[|line|] == NUL && r[|line| + 1..] == buf[|line| + 1..]
    ensures |line| == length ==> r == line + buf[length..]
  {
    if |line| < length then line + [NUL] + buf[|line| + 1..] else line + buf[|line|..]
  }

  /** The line and the NUL after it, at the front of the stored buffer. */
  lemma LineStoredTerminated(buf: seq<char>, line: string, length: nat)
    requires |line| <= length <= |buf|
    requires |line| == length ==> |line| < |buf| && buf[|line|] == NUL
    ensures |line| < |LineStored(buf, line, length)|
    ensures LineStored(buf, line, length)[..|line| + 1] == line + [NUL]
  {
    var r := LineStored(buf, line, length);
    var n := |line|;
    assert r[n] == NUL by {
      if n == length {
        assert r[n] == buf[n];
      }
    }
    assert r[..n + 1] == r[..n] + [r[n]];
  }

  /** What a C-string comparison sees in the buffer after readLine: the line,
      cut at its first NUL, when readLine wrote a terminator or the cell after
      the line already held one. */
  lemma LineStoredCString(buf: seq<char>, line: string, length: nat)
    requires |line| <= length <= |buf|
    requires |line| == length ==> |line| < |buf| && buf[|line|] == NUL
    ensures CString(LineStored(buf, line, length)) == CString(line + [NUL])
  {
    LineStoredTerminated(buf, line, length);
    CStringAgrees(LineStored(buf, line, length), line + [NUL], |line|);
  }
}
