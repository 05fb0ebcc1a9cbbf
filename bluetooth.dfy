/** The JDY-31 driver (class Bluetooth): AT commands framed by the command
    pin, baud-rate detection, the connection notification, name and pin
    settings. The class also stands for the serial port it is built on (the
    source class inherits SoftwareSerial), seen through the effects in
    module Serial. */
module Jdy31 {
  import opened CTypes
  import opened HexCodec
  import opened MacAddress
  import opened CStrings
  import opened Serial
  import Decimal

  const OkResponse: string := "+OK"
  const DefaultTimeout: int := 5000
  /** Capacity of the shared command/reply buffer, which has one cell more. */
  const BufferSize: nat := 128
  /** Settle time after every change of the command pin. */
  const CmdPinSettleMs: int := 150
  /** The candidate rates, ascending; findBaud probes them from the last. */
  const Rates: seq<int> := [4800, 9600, 19200, 38400, 57600, 115200, 128000]
  const ProbeTimeout: int := 100
  const ProbeSettleMs: int := 10
  const BaudSettleMs: int := 1000
  const ResetSettleMs: int := 100
  const SetNameTimeout: int := 1000
  /** Read timeout of a newly built Arduino stream. */
  const StreamDefaultTimeout: int := 1000

  const VersionQuery: string := "AT+VERSION"
  const BaudQuery: string := "AT+BAUD"
  const NameQuery: string := "AT+NAME"
  const PinQuery: string := "AT+PIN"
  const ResetCommand: string := "AT+RESET"
  const FactoryResetCommand: string := "AT+DEFAULT"
  const DisconnectCommand: string := "AT+DISC"
  const UartPrefix: string := "AT+UART="

  /** sendCommand's effects: pin HIGH, the command and CRLF, the reply
      timeout, pin LOW, each pin change followed by its settle time. */
  function CommandFrame(cmd: string, timeout: int): seq<Event> {
    [PinWrite(High), Delay(CmdPinSettleMs), Write(cmd), Write(CRLF), SetTimeout(timeout),
     PinWrite(Low), Delay(CmdPinSettleMs)]
  }

  /** reset's effects: the command, then a fixed wait (the reply line is
      read, which is not an effect on the port). */
  function ResetFrame(): seq<Event> {
    CommandFrame(ResetCommand, DefaultTimeout) + [Delay(ResetSettleMs)]
  }

  /** setName's and setPin's effects: the setting command, then a reset
      exactly when the module accepted it. */
  function SettingFrame(cmd: string, timeout: int, accepted: bool): seq<Event> {
    CommandFrame(cmd, timeout) + (if accepted then ResetFrame() else [])
  }

  /** The text setBaud sends before its CRLF. */
  function UartCommand(baud: int32, stopBits: uint32, parity: uint32): string {
    UartPrefix + Decimal.Text(baud) + "," + Decimal.Text(stopBits) + "," + Decimal.Text(parity)
  }

  /** What setBaud writes: AT+UART=<baud>,<stop>,<parity> and CRLF, as one
      write, three numbers printed in decimal and the separators. */
  function UartWrites(baud: int32, stopBits: uint32, parity: uint32): seq<Event> {
    [Write(UartPrefix), Print(baud), Write(","), Print(stopBits), Write(","), Print(parity), Write(CRLF)]
  }

  /** setBaud's effects. The pin goes LOW without a settle delay, and the
      port is reopened at the new rate whatever the module replied. */
  function UartFrame(baud: int32, stopBits: uint32, parity: uint32): seq<Event> {
    [PinWrite(High), Delay(CmdPinSettleMs)] + UartWrites(baud, stopBits, parity) +
    [PinWrite(Low), Begin(baud), Delay(BaudSettleMs)]
  }

  /** One findBaud probe at a rate. */
  function ProbeFrame(rate: int): seq<Event> {
    [Begin(rate), SetTimeout(ProbeTimeout), Flush, Write(VersionQuery + CRLF), Delay(ProbeSettleMs)]
  }

  /** findBaud's effects: the probes, inside one command-mode window. */
  function SearchFrame(probes: seq<Event>): seq<Event> {
    [PinWrite(High), Delay(CmdPinSettleMs)] + probes + [PinWrite(Low), Delay(CmdPinSettleMs)]
  }

  predicate NoPinChange(s: seq<Event>) {
    forall i :: 0 <= i < |s| ==> !s[i].PinWrite?
  }

  predicate NoWrite(s: seq<Event>) {
    forall i :: 0 <= i < |s| ==> !Sends(s[i])
  }

  /** The highest-first search over Rates[..k]: the rate found (0 for none)
      and the probes it makes, stopping at the first rate that answers. */
  function Scan(respondsAt: set<int>, k: nat): (r: (int, seq<Event>))
    requires k <= |Rates|
    ensures NoPinChange(r.1)
  {
    if k == 0 then (0, [])
    else if Rates[k - 1] in respondsAt then (Rates[k - 1], ProbeFrame(Rates[k - 1]))
    else
      var (rate, probes) := Scan(respondsAt, k - 1);
      (rate, ProbeFrame(Rates[k - 1]) + probes)
  }

  /** The search returns the highest rate of the table that answers, or 0
      exactly when none does; so the result is always in the table or 0. */
  lemma {:induction false} ScanFindsHighest(respondsAt: set<int>, k: nat)
    requires k <= |Rates|
    ensures var rate := Scan(respondsAt, k).0;
      (rate == 0 <==> forall i :: 0 <= i < k ==> Rates[i] !in respondsAt) &&
      (rate != 0 ==> rate in respondsAt && rate in Rates[..k]) &&
      (forall i :: 0 <= i < k && Rates[i] in respondsAt ==> Rates[i] <= rate)
  {
    if k > 0 {
      ScanFindsHighest(respondsAt, k - 1);
      assert Rates[..k] == Rates[..k - 1] + [Rates[k - 1]];
      assert forall i :: 0 <= i < k ==> 0 < Rates[i] <= Rates[k - 1];
    }
  }

  /** A module that answers only at 19200 is found there, after the four
      faster rates were probed in vain. */
  lemma ScanExample()
    ensures Scan({19200}, |Rates|).0 == 19200
    ensures Scan({19200}, |Rates|).1 ==
      ProbeFrame(128000) + ProbeFrame(115200) + ProbeFrame(57600) + ProbeFrame(38400) + ProbeFrame(19200)
  {
    assert Scan({19200}, 3) == (19200, ProbeFrame(19200));
    assert Scan({19200}, 4) == (19200, ProbeFrame(38400) + ProbeFrame(19200));
    assert Scan({19200}, 5) == (19200, ProbeFrame(57600) + (ProbeFrame(38400) + ProbeFrame(19200)));
    assert Scan({19200}, 6) == (19200, ProbeFrame(115200) + (ProbeFrame(57600) + (ProbeFrame(38400) + ProbeFrame(19200))));
  }

  /** A log that leaves the command pin LOW and in which every byte went out
      while the pin was HIGH: the module never sees a command as data. */
  predicate CommandModeLog(log: seq<Event>) {
    LevelAfter(Low, log) == Low && InCommandMode(Low, log)
  }

  /** Such logs compose. */
  lemma AppendCommandMode(log: seq<Event>, frame: seq<Event>)
    requires CommandModeLog(log) && CommandModeLog(frame)
    ensures CommandModeLog(log + frame)
  {
    InCommandModeAppend(Low, log, frame);
  }

  /** Events that leave the pin alone keep its level; with the pin HIGH,
      or with no bytes among them, they are in command mode. */
  lemma {:induction false} QuietRun(start: Level, s: seq<Event>)
    requires NoPinChange(s) && (start == Low ==> NoWrite(s))
    ensures LevelAfter(start, s) == start && InCommandMode(start, s)
    decreases |s|
  {
    if s != [] {
      QuietRun(start, s[..|s| - 1]);
    }
  }

  /** Raise the pin, do I/O without touching it, drop it, then only wait or
      reconfigure: every byte goes out in command mode and the pin ends LOW. */
  lemma Bracketed(mid: seq<Event>, tail: seq<Event>)
    requires NoPinChange(mid) && NoPinChange(tail) && NoWrite(tail)
    ensures CommandModeLog([PinWrite(High)] + mid + [PinWrite(Low)] + tail)
  {
    var raised := [PinWrite(High)] + mid;
    var dropped := raised + [PinWrite(Low)];
    QuietRun(High, mid);
    InCommandModeAppend(Low, [PinWrite(High)], mid);
    assert dropped[..|dropped| - 1] == raised;
    QuietRun(Low, tail);
    InCommandModeAppend(Low, dropped, tail);
  }

  lemma AppendAssoc(a: seq<Event>, b: seq<Event>, c: seq<Event>)
    ensures a + b + c == a + (b + c)
  {
  }

  /** The search window, appended to a log piece by piece, is the frame. */
  lemma Regroup(log: seq<Event>, probes: seq<Event>)
    ensures log + [PinWrite(High), Delay(CmdPinSettleMs)] + probes + [PinWrite(Low), Delay(CmdPinSettleMs)] ==
            log + SearchFrame(probes)
  {
  }

  lemma CommandFrameInCommandMode(cmd: string, timeout: int)
    ensures CommandModeLog(CommandFrame(cmd, timeout))
  {
    var mid := [Delay(CmdPinSettleMs), Write(cmd), Write(CRLF), SetTimeout(timeout)];
    assert CommandFrame(cmd, timeout) == [PinWrite(High)] + mid + [PinWrite(Low)] + [Delay(CmdPinSettleMs)];
    Bracketed(mid, [Delay(CmdPinSettleMs)]);
  }

  lemma ResetFrameInCommandMode()
    ensures CommandModeLog(ResetFrame())
  {
    var mid := [Delay(CmdPinSettleMs), Write(ResetCommand), Write(CRLF), SetTimeout(DefaultTimeout)];
    var tail := [Delay(CmdPinSettleMs), Delay(ResetSettleMs)];
    assert ResetFrame() == [PinWrite(High)] + mid + [PinWrite(Low)] + tail;
    Bracketed(mid, tail);
  }

  lemma UartFrameInCommandMode(baud: int32, stopBits: uint32, parity: uint32)
    ensures CommandModeLog(UartFrame(baud, stopBits, parity))
  {
    var mid := [Delay(CmdPinSettleMs)] + UartWrites(baud, stopBits, parity);
    var tail := [Begin(baud), Delay(BaudSettleMs)];
    assert UartFrame(baud, stopBits, parity) == [PinWrite(High)] + mid + [PinWrite(Low)] + tail;
    Bracketed(mid, tail);
  }

  lemma SearchFrameInCommandMode(probes: seq<Event>)
    requires NoPinChange(probes)
    ensures CommandModeLog(SearchFrame(probes))
  {
    var mid := [Delay(CmdPinSettleMs)] + probes;
    assert SearchFrame(probes) == [PinWrite(High)] + mid + [PinWrite(Low)] + [Delay(CmdPinSettleMs)];
    Bracketed(mid, [Delay(CmdPinSettleMs)]);
  }

  lemma {:induction false} WrittenQuiet(s: seq<Event>)
    requires NoWrite(s)
    ensures Written(s) == []
    decreases |s|
  {
    if s != [] {
      WrittenQuiet(s[..|s| - 1]);
    }
  }

  lemma WrittenOne(e: Event)
    ensures Written([e]) == Sent(e)
  {
    assert [e][..0] == [];
  }

  /** sendCommand puts exactly the command and CRLF on the wire. */
  lemma WrittenCommandFrame(cmd: string, timeout: int)
    ensures Written(CommandFrame(cmd, timeout)) == cmd + CRLF
  {
    var before := [PinWrite(High), Delay(CmdPinSettleMs)];
    var after := [SetTimeout(timeout), PinWrite(Low), Delay(CmdPinSettleMs)];
    assert CommandFrame(cmd, timeout) == before + [Write(cmd)] + [Write(CRLF)] + after;
    WrittenQuiet(before);
    WrittenQuiet(after);
    WrittenOne(Write(cmd));
    WrittenOne(Write(CRLF));
    WrittenAppend(before, [Write(cmd)]);
    WrittenAppend(before + [Write(cmd)], [Write(CRLF)]);
    WrittenAppend(before + [Write(cmd)] + [Write(CRLF)], after);
  }

  /** setName/setPin put the setting command on the wire, followed by
      AT+RESET exactly when the module accepted it. */
  lemma WrittenSettingFrame(cmd: string, timeout: int, accepted: bool)
    ensures Written(SettingFrame(cmd, timeout, accepted)) ==
      cmd + CRLF + (if accepted then ResetCommand + CRLF else [])
  {
    WrittenCommandFrame(cmd, timeout);
    if accepted {
      WrittenCommandFrame(ResetCommand, DefaultTimeout);
      WrittenQuiet([Delay(ResetSettleMs)]);
      WrittenAppend(CommandFrame(ResetCommand, DefaultTimeout), [Delay(ResetSettleMs)]);
      WrittenAppend(CommandFrame(cmd, timeout), ResetFrame());
    } else {
      assert SettingFrame(cmd, timeout, accepted) == CommandFrame(cmd, timeout);
    }
  }

  lemma WrittenSnoc(log: seq<Event>, e: Event)
    ensures Written(log + [e]) == Written(log) + Sent(e)
  {
    assert (log + [e])[..|log|] == log;
  }

  /** The writes and prints of setBaud put AT+UART=<baud>,<stop>,<parity>
      and CRLF on the wire, the numbers in decimal. */
  lemma WrittenUartWrites(baud: int32, stopBits: uint32, parity: uint32)
    ensures Written(UartWrites(baud, stopBits, parity)) == UartCommand(baud, stopBits, parity) + CRLF
  {
    var b, s, p := Decimal.Text(baud), Decimal.Text(stopBits), Decimal.Text(parity);
    var w1 := [Write(UartPrefix)];
    WrittenOne(Write(UartPrefix));
    var w2 := w1 + [Print(baud)];
    WrittenSnoc(w1, Print(baud));
    var w3 := w2 + [Write(",")];
    WrittenSnoc(w2, Write(","));
    var w4 := w3 + [Print(stopBits)];
    WrittenSnoc(w3, Print(stopBits));
    var w5 := w4 + [Write(",")];
    WrittenSnoc(w4, Write(","));
    var w6 := w5 + [Print(parity)];
    WrittenSnoc(w5, Print(parity));
    var w7 := w6 + [Write(CRLF)];
    WrittenSnoc(w6, Write(CRLF));
    assert Written(w7) == UartPrefix + b + "," + s + "," + p + CRLF;
    assert w7 == UartWrites(baud, stopBits, parity);
  }

  /** setBaud puts exactly AT+UART=<baud>,<stop>,<parity> and CRLF on the wire. */
  lemma WrittenUartFrame(baud: int32, stopBits: uint32, parity: uint32)
    ensures Written(UartFrame(baud, stopBits, parity)) == UartCommand(baud, stopBits, parity) + CRLF
  {
    var before := [PinWrite(High), Delay(CmdPinSettleMs)];
    var writes := UartWrites(baud, stopBits, parity);
    var after := [PinWrite(Low), Begin(baud), Delay(BaudSettleMs)];
    assert UartFrame(baud, stopBits, parity) == before + writes + after;
    WrittenQuiet(before);
    WrittenQuiet(after);
    WrittenUartWrites(baud, stopBits, parity);
    WrittenAppend(before, writes);
    assert Written(before + writes) == Written(writes);
    WrittenAppend(before + writes, after);
  }

  /** How many AT+RESET commands a log sends. */
  function Resets(log: seq<Event>): nat {
    if log == [] then 0
    else Resets(log[..|log| - 1]) + (if log[|log| - 1] == Write(ResetCommand) then 1 else 0)
  }

  lemma {:induction false} ResetsAppend(a: seq<Event>, b: seq<Event>)
    ensures Resets(a + b) == Resets(a) + Resets(b)
    decreases |b|
  {
    if b != [] {
      var b' := b[..|b| - 1];
      assert (a + b)[..|a + b| - 1] == a + b';
      ResetsAppend(a, b');
    } else {
      assert a + b == a;
    }
  }

  lemma {:induction false} ResetsQuiet(s: seq<Event>)
    requires NoWrite(s)
    ensures Resets(s) == 0
    decreases |s|
  {
    if s != [] {
      ResetsQuiet(s[..|s| - 1]);
    }
  }

  lemma ResetsCommandFrame(cmd: string, timeout: int)
    ensures Resets(CommandFrame(cmd, timeout)) == if cmd == ResetCommand then 1 else 0
  {
    var before := [PinWrite(High), Delay(CmdPinSettleMs)];
    var after := [SetTimeout(timeout), PinWrite(Low), Delay(CmdPinSettleMs)];
    assert CommandFrame(cmd, timeout) == before + [Write(cmd), Write(CRLF)] + after;
    ResetsQuiet(before);
    ResetsQuiet(after);
    assert [Write(cmd), Write(CRLF)][..1] == [Write(cmd)];
    assert CRLF != ResetCommand;
    ResetsAppend(before, [Write(cmd), Write(CRLF)]);
    ResetsAppend(before + [Write(cmd), Write(CRLF)], after);
  }

  /** A setting command other than AT+RESET resets the module once when it
      is accepted and never otherwise. */
  lemma SettingResetsOnce(cmd: string, timeout: int, accepted: bool)
    requires cmd != ResetCommand
    ensures Resets(SettingFrame(cmd, timeout, accepted)) == if accepted then 1 else 0
  {
    ResetsCommandFrame(cmd, timeout);
    if accepted {
      ResetsCommandFrame(ResetCommand, DefaultTimeout);
      ResetsQuiet([Delay(ResetSettleMs)]);
      ResetsAppend(CommandFrame(ResetCommand, DefaultTimeout), [Delay(ResetSettleMs)]);
      ResetsAppend(CommandFrame(cmd, timeout), ResetFrame());
    } else {
      assert SettingFrame(cmd, timeout, accepted) == CommandFrame(cmd, timeout);
    }
  }

  /** The C string of a buffer holding `s` followed by NULs. */
  function Padded(s: string): (r: seq<char>)
    requires |s| <= BufferSize
    ensures |r| == BufferSize + 1 && r[..|s|] == s
    ensures forall i :: |s| <= i < |r| ==> r[i] == NUL
  {
    s + seq(BufferSize + 1 - |s|, _ => NUL)
  }

  /** strncpy of a short string into the whole buffer pads it with NULs. */
  lemma NCopiedPadded(s: string)
    requires |s| <= BufferSize
    ensures NCopied(s, BufferSize) + [NUL] == Padded(s)
  {
    var a, b := NCopied(s, BufferSize) + [NUL], Padded(s);
    forall i | 0 <= i < BufferSize + 1
      ensures a[i] == b[i]
    {
    }
  }

  /** A padded string without NUL reads back as itself. */
  lemma PaddedCString(s: string)
    requires NUL !in s && |s| <= BufferSize
    ensures CString(Padded(s)) == s
  {
    var p := Padded(s);
    assert p == s + [NUL] + p[|s| + 1..];
    CStringOfTerminated(s, p[|s| + 1..]);
  }

  /** Appending to a padded string, as strncat does, gives the padded concatenation. */
  lemma PaddedAppend(prefix: string, value: string)
    requires |prefix| + |value| <= BufferSize
    ensures var p := Padded(prefix);
      p[..|prefix|] + value + [NUL] + p[|prefix| + |value| + 1..] == Padded(prefix + value)
  {
    var p := Padded(prefix);
    var a, b := p[..|prefix|] + value + [NUL] + p[|prefix| + |value| + 1..], Padded(prefix + value);
    forall i | 0 <= i < BufferSize + 1
      ensures a[i] == b[i]
    {
    }
  }

  class Bluetooth {
    // pins and the module's environment
    const rx: int
    const tx: int
    const cmdPin: int
    const statePin: int
    const powerPin: int
    /** The rates at which the module answers a probe. */
    const respondsAt: set<int>
    /** What it answers to AT+VERSION at such a rate. */
    const probeReply: string

    /** client_mac[6], the last peer address seen. */
    const clientMac: array<Byte>
    /** The shared BUFFER[BUFFER_SIZE + 1]. */
    const buffer: array<char>

    /** Output level of the command pin. */
    var cmdLevel: Level
    // port state
    var baud: int
    var timeout: int
    var log: seq<Event>
    /** Bytes the module sends that reads have not consumed yet. */
    var inbox: string

    /** The buffer keeps a NUL in its last cell, which no write reaches. */
    ghost predicate Sane()
      reads buffer
    {
      buffer.Length == BufferSize + 1 && buffer[BufferSize] == NUL &&
      clientMac.Length == MacLength && probeReply != []
    }

    /** Between operations the command pin is LOW and every byte sent so
        far went out in command mode. */
    ghost predicate Valid()
      reads this, buffer
    {
      Sane() && cmdLevel == Low && CommandModeLog(log)
    }

    constructor (rx: int, tx: int, cmdPin: int, statePin: int, powerPin: int,
                 respondsAt: set<int>, probeReply: string, inbox: string)
      requires probeReply != []
      ensures Valid() && fresh(buffer) && fresh(clientMac)
      ensures this.rx == rx && this.tx == tx && this.cmdPin == cmdPin
      ensures this.statePin == statePin && this.powerPin == powerPin
      ensures this.respondsAt == respondsAt && this.probeReply == probeReply && this.inbox == inbox
      ensures clientMac[..] == [0, 0, 0, 0, 0, 0] && buffer[..] == seq(BufferSize + 1, _ => NUL)
      ensures log == [] && baud == 0 && timeout == StreamDefaultTimeout
    {
      this.rx := rx;
      this.tx := tx;
      this.cmdPin := cmdPin;
      this.statePin := statePin;
      this.powerPin := powerPin;
      this.respondsAt := respondsAt;
      this.probeReply := probeReply;
      this.inbox := inbox;
      clientMac := new Byte[MacLength](_ => 0);
      buffer := new char[BufferSize + 1](_ => NUL);
      cmdLevel := Low;
      baud := 0;
      timeout := StreamDefaultTimeout;
      log := [];
    }

    /** One effect on the port other than a pin change; bytes only go out
        with the command pin HIGH. */
    method Emit(e: Event)
      requires !e.PinWrite? && (Sends(e) ==> cmdLevel == High)
      modifies this`log
      ensures log == old(log) + [e]
    {
      log := log + [e];
    }

    /** Print::print(long): the decimal text of a number. */
    method PrintNumber(n: int)
      requires cmdLevel == High
      modifies this`log
      ensures log == old(log) + [Print(n)]
    {
      Emit(Print(n));
    }

    /** digitalWrite on the command pin. */
    method DigitalWriteCmd(level: Level)
      modifies this`cmdLevel, this`log
      ensures cmdLevel == level && log == old(log) + [PinWrite(level)]
    {
      log := log + [PinWrite(level)];
      cmdLevel := level;
    }

    /** setCmdPin: set the level, then wait for the module to switch mode. */
    method SetCmdPin(level: Level)
      modifies this`cmdLevel, this`log
      ensures cmdLevel == level && log == old(log) + [PinWrite(level), Delay(CmdPinSettleMs)]
    {
      DigitalWriteCmd(level);
      Emit(Delay(CmdPinSettleMs));
    }

    /** sendCommand: the command framed by the pin; the reply is left unread. */
    method SendCommand(cmd: string, timeout: int)
      requires Valid()
      modifies this`cmdLevel, this`log, this`timeout
      ensures Valid() && this.timeout == timeout
      ensures log == old(log) + CommandFrame(cmd, timeout)
    {
      SetCmdPin(High);
      Emit(Write(cmd));
      Emit(Write(CRLF));
      this.timeout := timeout;
      Emit(SetTimeout(timeout));
      SetCmdPin(Low);
      assert log == old(log) + CommandFrame(cmd, timeout);
      CommandFrameInCommandMode(cmd, timeout);
      AppendCommandMode(old(log), CommandFrame(cmd, timeout));
    }

    /** readLine: readBytesUntil('\n') into buf, then a NUL at buf[count]
        only when count < length; never a write at or past index length. */
    method ReadLine(buf: array<char>, length: nat) returns (count: nat)
      requires Sane() && length <= buf.Length && (buf == buffer ==> length <= BufferSize)
      modifies this`inbox, buf
      ensures Sane()
      ensures var (line, rest) := NextLine(old(inbox), length);
        count == |line| && inbox == rest && buf[..] == LineStored(old(buf[..]), line, length)
    {
      var line := NextLine(inbox, length).0;
      inbox := NextLine(inbox, length).1;
      forall i | 0 <= i < |line| {
        buf[i] := line[i];
      }
      count := |line|;
      if count < length {
        buf[count] := NUL;
      }
      assert buf[..] == LineStored(old(buf[..]), line, length);
    }

    /** readBytes(BUFFER, BUFFER_SIZE) after a probe: the version reply when
        the module understands the current rate, nothing otherwise. */
    method ProbeRead() returns (recvd: nat)
      requires Sane()
      modifies buffer
      ensures Sane()
      ensures recvd == (if baud in respondsAt then Min(|probeReply|, BufferSize) else 0)
      ensures buffer[..] == probeReply[..recvd] + old(buffer[recvd..])
    {
      recvd := if baud in respondsAt then Min(|probeReply|, BufferSize) else 0;
      forall i | 0 <= i < recvd {
        buffer[i] := probeReply[i];
      }
      assert buffer[..] == probeReply[..recvd] + old(buffer[recvd..]);
    }

    /** readBytes(BUFFER, BUFFER_SIZE): whatever arrives before the timeout,
        at most BUFFER_SIZE bytes. */
    method ReadBytes() returns (recvd: nat)
      requires Sane()
      modifies this`inbox, buffer
      ensures Sane()
      ensures recvd == Min(|old(inbox)|, BufferSize) && inbox == old(inbox)[recvd..]
      ensures buffer[..] == old(inbox)[..recvd] + old(buffer[recvd..])
    {
      recvd := Min(|inbox|, BufferSize);
      forall i | 0 <= i < recvd {
        buffer[i] := inbox[i];
      }
      inbox := inbox[recvd..];
      assert buffer[..] == old(inbox)[..recvd] + old(buffer[recvd..]);
    }

    /** One round of findBaud's loop: reopen the port at a rate, set the
        probe timeout, flush, send AT+VERSION, wait, and read the reply. */
    method Probe(rate: int) returns (recvd: nat)
      requires Sane() && cmdLevel == High
      modifies this`log, this`baud, this`timeout, buffer
      ensures Sane() && log == old(log) + ProbeFrame(rate)
      ensures baud == rate && timeout == ProbeTimeout
      ensures recvd == (if rate in respondsAt then Min(|probeReply|, BufferSize) else 0)
      ensures buffer[..] == probeReply[..recvd] + old(buffer[recvd..])
    {
      baud := rate;
      Emit(Begin(rate));
      timeout := ProbeTimeout;
      Emit(SetTimeout(ProbeTimeout));
      Emit(Flush);
      Emit(Write(VersionQuery + CRLF));
      Emit(Delay(ProbeSettleMs));
      recvd := ProbeRead();
    }

    /** findBaud: with the pin HIGH, probe each rate from the highest down;
        the first rate that gets any reply is returned, 0 when none does;
        the pin is LOW on both exits. */
    method FindBaud() returns (rate: int)
      requires Valid()
      modifies this`cmdLevel, this`log, this`baud, this`timeout, buffer
      ensures Valid()
      ensures rate == Scan(respondsAt, |Rates|).0
      ensures log == old(log) + SearchFrame(Scan(respondsAt, |Rates|).1)
      ensures baud == (if rate != 0 then rate else Rates[0]) && timeout == ProbeTimeout
      ensures var n := if rate != 0 then Min(|probeReply|, BufferSize) else 0;
        buffer[..] == probeReply[..n] + old(buffer[n..])
    {
      ghost var search := Scan(respondsAt, |Rates|);
      SetCmdPin(High);
      ghost var raised := log;
      ghost var probes: seq<Event> := [];
      assert search.1 == probes + Scan(respondsAt, |Rates|).1;
      var rn := |Rates| - 1;
      while rn >= 0
        invariant -1 <= rn < |Rates|
        invariant cmdLevel == High
        invariant log == raised + probes
        invariant search.0 == Scan(respondsAt, rn + 1).0
        invariant search.1 == probes + Scan(respondsAt, rn + 1).1
        invariant buffer[..] == old(buffer[..])
        invariant rn < |Rates| - 1 ==> baud == Rates[rn + 1] && timeout == ProbeTimeout
        decreases rn
      {
        var candidate := Rates[rn];
        ghost var before := probes;
        var recvd := Probe(candidate);
        probes := probes + ProbeFrame(candidate);
        AppendAssoc(raised, before, ProbeFrame(candidate));
        if recvd > 0 {
          assert probes == search.1;
          SetCmdPin(Low);
          Regroup(old(log), probes);
          SearchFrameInCommandMode(probes);
          AppendCommandMode(old(log), SearchFrame(probes));
          return candidate;
        }
        assert Scan(respondsAt, rn + 1).1 == ProbeFrame(candidate) + Scan(respondsAt, rn).1;
        AppendAssoc(before, ProbeFrame(candidate), Scan(respondsAt, rn).1);
        rn := rn - 1;
      }
      assert probes == search.1;
      SetCmdPin(Low);
      Regroup(old(log), probes);
      SearchFrameInCommandMode(probes);
      AppendCommandMode(old(log), SearchFrame(probes));
      rate := 0;
    }

    /** The writes and prints at the head of setBaud. */
    method WriteUartCommand(baud: int32, stopBits: uint32, parity: uint32)
      requires cmdLevel == High
      modifies this`log
      ensures log == old(log) + UartWrites(baud, stopBits, parity)
    {
      Emit(Write(UartPrefix));
      PrintNumber(baud);
      Emit(Write(","));
      PrintNumber(stopBits);
      Emit(Write(","));
      PrintNumber(parity);
      Emit(Write(CRLF));
    }

    /** The end of setBaud: pin LOW, then reopen the port at the new rate
        and let the module settle. */
    method Reopen(baud: int32)
      modifies this`cmdLevel, this`log, this`baud
      ensures cmdLevel == Low && this.baud == baud
      ensures log == old(log) + [PinWrite(Low), Begin(baud), Delay(BaudSettleMs)]
    {
      DigitalWriteCmd(Low);
      this.baud := baud;
      Emit(Begin(baud));
      Emit(Delay(BaudSettleMs));
    }

    /** setBaud: send AT+UART=<baud>,<stop>,<parity>, read whatever comes
        back into the buffer and terminate it, drop the pin, and reopen the
        port at the new rate regardless of the reply. */
    method SetBaud(baud: int32, stopBits: uint32, parity: uint32)
      requires Valid()
      modifies this`cmdLevel, this`log, this`baud, this`inbox, buffer
      ensures Valid()
      ensures log == old(log) + UartFrame(baud, stopBits, parity)
      ensures this.baud == baud
      ensures var n := Min(|old(inbox)|, BufferSize);
        inbox == old(inbox)[n..] && buffer[..] == (old(inbox)[..n] + old(buffer[n..]))[n := NUL]
    {
      SetCmdPin(High);
      WriteUartCommand(baud, stopBits, parity);
      var recvd := ReadBytes();
      buffer[recvd] := NUL;
      Reopen(baud);
      assert log == old(log) + UartFrame(baud, stopBits, parity);
      UartFrameInCommandMode(baud, stopBits, parity);
      AppendCommandMode(old(log), UartFrame(baud, stopBits, parity));
    }

    /** setBaud(baud): stop-bit setting 0, parity 0. */
    method SetBaudDefaults(baud: int32)
      requires Valid()
      modifies this`cmdLevel, this`log, this`baud, this`inbox, buffer
      ensures Valid()
      ensures log == old(log) + UartFrame(baud, 0, 0)
      ensures this.baud == baud
      ensures var n := Min(|old(inbox)|, BufferSize);
        inbox == old(inbox)[n..] && buffer[..] == (old(inbox)[..n] + old(buffer[n..]))[n := NUL]
    {
      SetBaud(baud, 0, 0);
    }

    /** handlNewConnection: read one line; if it is shorter than 30 bytes
        return false with client_mac untouched; otherwise decode the six
        bytes at offsets 13, 16, .., 28, drop the next (CONNECTED) line and
        return true. */
    method HandleNewConnection() returns (ok: bool)
      requires Valid()
      modifies this`inbox, buffer, clientMac
      ensures Valid()
      ensures var (line, rest) := NextLine(old(inbox), BufferSize);
        var afterFirst := LineStored(old(buffer[..]), line, BufferSize);
        ok == (|line| >= MinNotificationLength) &&
        (ok ==> clientMac[..] == DecodeMac(line) &&
                inbox == NextLine(rest, BufferSize).1 &&
                buffer[..] == LineStored(afterFirst, NextLine(rest, BufferSize).0, BufferSize)) &&
        (!ok ==> clientMac[..] == old(clientMac[..]) && inbox == rest && buffer[..] == afterFirst)
    {
      ghost var line := NextLine(inbox, BufferSize).0;
      ghost var rest := NextLine(inbox, BufferSize).1;
      var recvd := ReadLine(buffer, BufferSize);
      if recvd < MinNotificationLength {
        return false;
      }
      DecodeClientMac();
      DecodeMacReadsDigitsOnly(buffer[..], line);
      recvd := ReadLine(buffer, BufferSize);
      ok := true;
    }

    /** The decoding loop of handlNewConnection: byte k of client_mac from
        the characters at 13 + 3k and 14 + 3k of the buffer, the high nibble
        shifted left four, the low one OR-ed in. */
    method DecodeClientMac()
      requires Sane()
      modifies clientMac
      ensures clientMac[..] == DecodeMac(buffer[..])
    {
      ghost var mac := DecodeMac(buffer[..]);
      var byteIndex := 0;
      var i := FirstDigit;
      while i < MinNotificationLength
        invariant byteIndex <= MacLength && i == DigitOffset(byteIndex)
        invariant forall k :: 0 <= k < byteIndex ==> clientMac[k] == mac[k]
        decreases MinNotificationLength - i
      {
        clientMac[byteIndex] := Wrap(ParseHexNibble(buffer[i]) * 16);
        clientMac[byteIndex] := Or(clientMac[byteIndex], ParseHexNibble(buffer[i + 1]));
        assert clientMac[byteIndex] == mac[byteIndex];
        byteIndex := byteIndex + 1;
        i := i + Stride;
      }
      assert byteIndex == MacLength;
      assert clientMac[..] == mac;
    }

    /** reset: AT+RESET, drain one line, wait. */
    method Reset()
      requires Valid()
      modifies this`cmdLevel, this`log, this`timeout, this`inbox, buffer
      ensures Valid() && timeout == DefaultTimeout
      ensures log == old(log) + ResetFrame()
      ensures var (line, rest) := NextLine(old(inbox), BufferSize);
        inbox == rest && buffer[..] == LineStored(old(buffer[..]), line, BufferSize)
    {
      SendCommand(ResetCommand, DefaultTimeout);
      var _ := ReadLine(buffer, BufferSize);
      Emit(Delay(ResetSettleMs));
      AppendCommandMode(old(log), ResetFrame()) by {
        ResetFrameInCommandMode();
      }
    }

    /** resetFactory: AT+DEFAULT, drain one line, wait. */
    method ResetFactory()
      requires Valid()
      modifies this`cmdLevel, this`log, this`timeout, this`inbox, buffer
      ensures Valid() && timeout == DefaultTimeout
      ensures log == old(log) + CommandFrame(FactoryResetCommand, DefaultTimeout) + [Delay(ResetSettleMs)]
      ensures var (line, rest) := NextLine(old(inbox), BufferSize);
        inbox == rest && buffer[..] == LineStored(old(buffer[..]), line, BufferSize)
    {
      SendCommand(FactoryResetCommand, DefaultTimeout);
      var _ := ReadLine(buffer, BufferSize);
      ghost var mark := log;
      Emit(Delay(ResetSettleMs));
      AppendCommandMode(mark, [Delay(ResetSettleMs)]);
    }

    /** disconnect: AT+DISC, drain one line. */
    method Disconnect()
      requires Valid()
      modifies this`cmdLevel, this`log, this`timeout, this`inbox, buffer
      ensures Valid() && timeout == DefaultTimeout
      ensures log == old(log) + CommandFrame(DisconnectCommand, DefaultTimeout)
      ensures var (line, rest) := NextLine(old(inbox), BufferSize);
        inbox == rest && buffer[..] == LineStored(old(buffer[..]), line, BufferSize)
    {
      SendCommand(DisconnectCommand, DefaultTimeout);
      var _ := ReadLine(buffer, BufferSize);
    }

    /** getVersion/getBauds/getName/getPin: send the query, read the reply
        line into the caller's buffer. */
    method Query(query: string, buf: array<char>, length: nat) returns (count: nat)
      requires Valid() && length <= buf.Length && (buf == buffer ==> length <= BufferSize)
      modifies this`cmdLevel, this`log, this`timeout, this`inbox, buf
      ensures Valid() && timeout == DefaultTimeout
      ensures log == old(log) + CommandFrame(query, DefaultTimeout)
      ensures var (line, rest) := NextLine(old(inbox), length);
        count == |line| && inbox == rest && buf[..] == LineStored(old(buf[..]), line, length)
    {
      SendCommand(query, DefaultTimeout);
      count := ReadLine(buf, length);
    }

    method GetVersion(buf: array<char>, length: nat)
      requires Valid() && length <= buf.Length && (buf == buffer ==> length <= BufferSize)
      modifies this`cmdLevel, this`log, this`timeout, this`inbox, buf
      ensures Valid() && timeout == DefaultTimeout
      ensures log == old(log) + CommandFrame(VersionQuery, DefaultTimeout)
      ensures var (line, rest) := NextLine(old(inbox), length);
        inbox == rest && buf[..] == LineStored(old(buf[..]), line, length)
    {
      var _ := Query(VersionQuery, buf, length);
    }

    method GetBauds(buf: array<char>, length: nat)
      requires Valid() && length <= buf.Length && (buf == buffer ==> length <= BufferSize)
      modifies this`cmdLevel, this`log, this`timeout, this`inbox, buf
      ensures Valid() && timeout == DefaultTimeout
      ensures log == old(log) + CommandFrame(BaudQuery, DefaultTimeout)
      ensures var (line, rest) := NextLine(old(inbox), length);
        inbox == rest && buf[..] == LineStored(old(buf[..]), line, length)
    {
      var _ := Query(BaudQuery, buf, length);
    }

    method GetName(buf: array<char>, length: nat)
      requires Valid() && length <= buf.Length && (buf == buffer ==> length <= BufferSize)
      modifies this`cmdLevel, this`log, this`timeout, this`inbox, buf
      ensures Valid() && timeout == DefaultTimeout
      ensures log == old(log) + CommandFrame(NameQuery, DefaultTimeout)
      ensures var (line, rest) := NextLine(old(inbox), length);
        inbox == rest && buf[..] == LineStored(old(buf[..]), line, length)
    {
      var _ := Query(NameQuery, buf, length);
    }

    method GetPin(buf: array<char>, length: nat)
      requires Valid() && length <= buf.Length && (buf == buffer ==> length <= BufferSize)
      modifies this`cmdLevel, this`log, this`timeout, this`inbox, buf
      ensures Valid() && timeout == DefaultTimeout
      ensures log == old(log) + CommandFrame(PinQuery, DefaultTimeout)
      ensures var (line, rest) := NextLine(old(inbox), length);
        inbox == rest && buf[..] == LineStored(old(buf[..]), line, length)
    {
      var _ := Query(PinQuery, buf, length);
    }

    /** strncpy(BUFFER, prefix, BUFFER_SIZE) then strncat(BUFFER, value,
        BUFFER_SIZE): the buffer holds prefix + value, NUL-padded. */
    method BuildCommand(prefix: string, value: string) returns (command: string)
      requires Sane() && NUL !in prefix && NUL !in value
      requires |prefix| + |value| <= BufferSize
      modifies buffer
      ensures Sane() && buffer[..] == Padded(prefix + value)
      ensures command == prefix + value
    {
      ghost var last := buffer[BufferSize..];
      assert last == [NUL];
      StrNCpy(buffer, prefix, BufferSize);
      NCopiedPadded(prefix);
      ghost var padded := buffer[..];
      assert padded == Padded(prefix);
      PaddedCString(prefix);
      PaddedAppend(prefix, value);
      StrNCat(buffer, value, BufferSize);
      assert value[..Min(|value|, BufferSize)] == value;
      assert buffer[..] == padded[..|prefix|] + value + [NUL] + padded[|prefix| + |value| + 1..];
      PaddedCString(prefix + value);
      command := CString(buffer[..]);
    }

    /** The first half of setName/setPin: build prefix + value in the
        buffer with strncpy and strncat, send it, read the reply into the
        buffer, and compare the buffer with "+OK". */
    method Exchange(prefix: string, value: string, timeout: int) returns (ok: bool)
      requires Valid() && NUL !in prefix && NUL !in value
      requires |prefix| + |value| <= BufferSize
      modifies this`cmdLevel, this`log, this`timeout, this`inbox, buffer
      ensures Valid() && this.timeout == timeout
      ensures var (reply, rest) := NextLine(old(inbox), BufferSize);
        ok == (CString(reply + [NUL]) == OkResponse) &&
        log == old(log) + CommandFrame(prefix + value, timeout) &&
        inbox == rest && buffer[..] == LineStored(Padded(prefix + value), reply, BufferSize)
    {
      var command := BuildCommand(prefix, value);
      SendCommand(command, timeout);
      var recvd := ReadLine(buffer, BufferSize);
      LineStoredCString(Padded(command), NextLine(old(inbox), BufferSize).0, BufferSize);
      ok := CString(buffer[..]) == OkResponse;
    }

    /** setName/setPin: send prefix + value and succeed only when the buffer
        then holds exactly "+OK", in which case the module is reset.
        strncat is bounded by BUFFER_SIZE source characters, not by the room
        left, so the command must fit in BUFFER_SIZE. */
    method SendSetting(prefix: string, value: string, timeout: int) returns (ok: bool)
      requires Valid() && NUL !in prefix && NUL !in value
      requires |prefix| + |value| <= BufferSize
      modifies this`cmdLevel, this`log, this`timeout, this`inbox, buffer
      ensures Valid()
      ensures var (reply, rest) := NextLine(old(inbox), BufferSize);
        var afterReply := LineStored(Padded(prefix + value), reply, BufferSize);
        ok == (CString(reply + [NUL]) == OkResponse) &&
        log == old(log) + SettingFrame(prefix + value, timeout, ok) &&
        this.timeout == (if ok then DefaultTimeout else timeout) &&
        (ok ==> inbox == NextLine(rest, BufferSize).1 &&
                buffer[..] == LineStored(afterReply, NextLine(rest, BufferSize).0, BufferSize)) &&
        (!ok ==> inbox == rest && buffer[..] == afterReply)
    {
      ok := Exchange(prefix, value, timeout);
      if !ok {
        return;
      }
      Reset();
      AppendAssoc(old(log), CommandFrame(prefix + value, timeout), ResetFrame());
    }

    /** setName: AT+NAME<name>, reply timeout 1000 ms. */
    method SetName(name: string) returns (ok: bool)
      requires Valid() && NUL !in name && |NameQuery| + |name| <= BufferSize
      modifies this`cmdLevel, this`log, this`timeout, this`inbox, buffer
      ensures Valid()
      ensures var (reply, rest) := NextLine(old(inbox), BufferSize);
        var afterReply := LineStored(Padded(NameQuery + name), reply, BufferSize);
        ok == (CString(reply + [NUL]) == OkResponse) &&
        log == old(log) + SettingFrame(NameQuery + name, SetNameTimeout, ok) &&
        timeout == (if ok then DefaultTimeout else SetNameTimeout) &&
        (ok ==> inbox == NextLine(rest, BufferSize).1 &&
                buffer[..] == LineStored(afterReply, NextLine(rest, BufferSize).0, BufferSize)) &&
        (!ok ==> inbox == rest && buffer[..] == afterReply)
    {
      ok := SendSetting(NameQuery, name, SetNameTimeout);
    }

    /** setPin: AT+PIN<pin>, default reply timeout. */
    method SetPin(pin: string) returns (ok: bool)
      requires Valid() && NUL !in pin && |PinQuery| + |pin| <= BufferSize
      modifies this`cmdLevel, this`log, this`timeout, this`inbox, buffer
      ensures Valid()
      ensures var (reply, rest) := NextLine(old(inbox), BufferSize);
        var afterReply := LineStored(Padded(PinQuery + pin), reply, BufferSize);
        ok == (CString(reply + [NUL]) == OkResponse) &&
        log == old(log) + SettingFrame(PinQuery + pin, DefaultTimeout, ok) &&
        timeout == DefaultTimeout &&
        (ok ==> inbox == NextLine(rest, BufferSize).1 &&
                buffer[..] == LineStored(afterReply, NextLine(rest, BufferSize).0, BufferSize)) &&
        (!ok ==> inbox == rest && buffer[..] == afterReply)
    {
      ok := SendSetting(PinQuery, pin, DefaultTimeout);
    }
  }

  /** setName and setPin succeed exactly on the reply "+OK" (for a reply
      without NUL bytes, which the comparison would cut short). */
  lemma ReplyAccepted(reply: string)
    requires NUL !in reply
    ensures (CString(reply + [NUL]) == OkResponse) <==> reply == OkResponse
  {
    CStringOfTerminated(reply, []);
    assert reply + [NUL] == reply + [NUL] + [];
  }

  /** A setName command is never AT+RESET, so a successful setName resets
      the module exactly once and a refused one never. */
  lemma SetNameResets(name: string, accepted: bool)
    ensures Resets(SettingFrame(NameQuery + name, SetNameTimeout, accepted)) == if accepted then 1 else 0
  {
    assert (NameQuery + name)[3] != ResetCommand[3];
    SettingResetsOnce(NameQuery + name, SetNameTimeout, accepted);
  }

  lemma SetPinResets(pin: string, accepted: bool)
    ensures Resets(SettingFrame(PinQuery + pin, DefaultTimeout, accepted)) == if accepted then 1 else 0
  {
    assert (PinQuery + pin)[3] != ResetCommand[3];
    SettingResetsOnce(PinQuery + pin, DefaultTimeout, accepted);
  }
}
