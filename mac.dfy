/** The peer address carried by the module's connection notification
    `+CONNECTING<<XX:XX:XX:XX:XX:XX`: six bytes at fixed character offsets. */
module MacAddress {
  import opened CTypes
  import opened HexCodec

  const NotificationPrefix: string := "+CONNECTING<<"
  /** Offset of the first hex digit, just past the prefix. */
  const FirstDigit: nat := 13
  /** Two digits and a colon per byte. */
  const Stride: nat := 3
  /** Shortest line the driver accepts as a notification. */
  const MinNotificationLength: nat := 30
  const MacLength: nat := 6

  /** Offset of the high digit of byte k. */
  function DigitOffset(k: nat): nat {
    FirstDigit + Stride * k
  }

  /** One MAC byte as handlNewConnection builds it: the high nibble shifted
      left four into a `uint8_t`, then the low nibble OR-ed in. */
  function MacByte(hi: char, lo: char): Byte {
    Or(Wrap(ParseHexNibble(hi) * 16), ParseHexNibble(lo))
  }

  /** For two uppercase hex digits the shift-and-OR is the two-digit number. */
  lemma MacByteValue(hi: char, lo: char)
    requires IsUpperHex(hi) && IsUpperHex(lo)
    ensures MacByte(hi, lo) == 16 * HexValue(hi) + HexValue(lo)
  {
    var h, l := HexValue(hi), HexValue(lo);
    assert ParseHexNibble(hi) == h && ParseHexNibble(lo) == l;
    WrapFits(h * 16);
    OrNibbles(h, l);
  }

  /** The address decoded from a notification line of the accepted length.
      Only offsets 13..29 are read. */
  function DecodeMac(line: seq<char>): (mac: seq<Byte>)
    requires |line| >= MinNotificationLength
    ensures |mac| == MacLength
    ensures forall k :: 0 <= k < MacLength ==>
      DigitOffset(k) + 1 < MinNotificationLength &&
      mac[k] == MacByte(line[DigitOffset(k)], line[DigitOffset(k) + 1])
  {
    seq(MacLength, k requires 0 <= k < MacLength =>
      MacByte(line[DigitOffset(k)], line[DigitOffset(k) + 1]))
  }

  /** Only the first MinNotificationLength characters are read. */
  lemma DecodeMacReadsDigitsOnly(a: seq<char>, b: seq<char>)
    requires |a| >= MinNotificationLength && |b| >= MinNotificationLength
    requires a[..MinNotificationLength] == b[..MinNotificationLength]
    ensures DecodeMac(a) == DecodeMac(b)
  {
    forall k | 0 <= k < MacLength
      ensures DecodeMac(a)[k] == DecodeMac(b)[k]
    {
      assert a[DigitOffset(k)] == b[DigitOffset(k)] && a[DigitOffset(k) + 1] == b[DigitOffset(k) + 1];
    }
  }

  /** A notification whose twelve digit positions hold uppercase hex digits. */
  predicate WellFormedDigits(line: seq<char>)
    requires |line| >= MinNotificationLength
  {
    forall k :: 0 <= k < MacLength ==>
      IsUpperHex(line[DigitOffset(k)]) && IsUpperHex(line[DigitOffset(k) + 1])
  }

  /** Each decoded byte is the two-digit hex number at its offset. */
  lemma {:induction false} DecodeMacValue(line: seq<char>, k: nat)
    requires |line| >= MinNotificationLength && WellFormedDigits(line) && k < MacLength
    ensures DecodeMac(line)[k] == 16 * HexValue(line[DigitOffset(k)]) + HexValue(line[DigitOffset(k) + 1])
  {
    assert IsUpperHex(line[DigitOffset(k)]) && IsUpperHex(line[DigitOffset(k) + 1]);
    MacByteValue(line[DigitOffset(k)], line[DigitOffset(k) + 1]);
  }

  /** The notification the module sends for a peer address, uppercase digits. */
  function FormatNotification(mac: seq<Byte>): (line: string)
    requires |mac| == MacLength
    ensures |line| == MinNotificationLength && line[..FirstDigit] == NotificationPrefix
  {
    seq(MinNotificationLength, i requires 0 <= i < MinNotificationLength =>
      if i < FirstDigit then NotificationPrefix[i]
      else
        var k, r := (i - FirstDigit) / Stride, (i - FirstDigit) % Stride;
        if r == 0 then HexDigit(mac[k] / 16)
        else if r == 1 then HexDigit(mac[k] % 16)
        else ':')
  }

  /** Where FormatNotification puts the two digits of byte k and the colon after them. */
  lemma FormattedDigits(mac: seq<Byte>, k: nat)
    requires |mac| == MacLength && k < MacLength
    ensures FormatNotification(mac)[DigitOffset(k)] == HexDigit(mac[k] / 16)
    ensures FormatNotification(mac)[DigitOffset(k) + 1] == HexDigit(mac[k] % 16)
    ensures k + 1 < MacLength ==> FormatNotification(mac)[DigitOffset(k) + 2] == ':'
  {
    assert (DigitOffset(k) - FirstDigit) / Stride == k;
    assert (DigitOffset(k) + 1 - FirstDigit) / Stride == k;
    assert (DigitOffset(k) + 2 - FirstDigit) / Stride == k;
  }

  /** Decoding the notification of an address gives the address back. */
  lemma {:induction false} DecodeFormatRoundTrip(mac: seq<Byte>)
    requires |mac| == MacLength
    ensures DecodeMac(FormatNotification(mac)) == mac
  {
    var line := FormatNotification(mac);
    forall k | 0 <= k < MacLength
      ensures DecodeMac(line)[k] == mac[k]
    {
      var hi, lo := line[DigitOffset(k)], line[DigitOffset(k) + 1];
      assert (DigitOffset(k) - FirstDigit) / Stride == k;
      assert (DigitOffset(k) + 1 - FirstDigit) / Stride == k;
      assert hi == HexDigit(mac[k] / 16) && lo == HexDigit(mac[k] % 16);
      ParseHexDigit(mac[k] / 16);
      ParseHexDigit(mac[k] % 16);
      MacByteValue(hi, lo);
    }
  }

  /** The worked example of the notification format. */
  const Example: seq<Byte> := [0xDE, 0xAD, 0xBE, 0xEF, 0x00, 0x11]
  const ExampleText: string := "+CONNECTING<<DE:AD:BE:EF:00:11"

  lemma DecodeExample()
    ensures DecodeMac(ExampleText) == Example
  {
    ExampleFormatted();
    DecodeFormatRoundTrip(Example);
  }

  lemma ExampleFormatted()
    ensures FormatNotification(Example) == ExampleText
  {
    var line := FormatNotification(Example);
    ExampleDigitsFront();
    ExampleDigitsBack();
    assert line[..FirstDigit] == ExampleText[..FirstDigit];
    assert line == line[..FirstDigit] + line[FirstDigit..];
  }

  /** The digits of DE:AD:BE. */
  lemma ExampleDigitsFront()
    ensures forall i :: FirstDigit <= i < DigitOffset(3) ==> FormatNotification(Example)[i] == ExampleText[i]
  {
    var line := FormatNotification(Example);
    assert line[13] == HexDigit(13) == 'D' && line[14] == HexDigit(14) == 'E' && line[15] == ':';
    assert line[16] == HexDigit(10) == 'A' && line[17] == HexDigit(13) == 'D' && line[18] == ':';
    assert line[19] == HexDigit(11) == 'B' && line[20] == HexDigit(14) == 'E' && line[21] == ':';
  }

  /** The digits of EF:00:11. */
  lemma ExampleDigitsBack()
    ensures forall i :: DigitOffset(3) <= i < MinNotificationLength ==> FormatNotification(Example)[i] == ExampleText[i]
  {
    var line := FormatNotification(Example);
    assert line[22] == HexDigit(14) == 'E' && line[23] == HexDigit(15) == 'F' && line[24] == ':';
    assert line[25] == HexDigit(0) == '0' && line[26] == HexDigit(0) == '0' && line[27] == ':';
    assert line[28] == HexDigit(1) == '1' && line[29] == HexDigit(1) == '1';
  }
}
