/** The hex-nibble decoder the driver applies to the MAC address of a
    connection notification. `char` is one byte; the arithmetic wraps as
    `uint8_t` does. */
module HexCodec {
  import opened CTypes

  /** The digits the JDY-31 module prints, in value order. */
  const UpperHexDigits: string := "0123456789ABCDEF"

  predicate IsUpperHex(c: char) {
    '0' <= c <= '9' || 'A' <= c <= 'F'
  }

  /** Reference meaning of an uppercase hex digit, independent of the decoder. */
  function HexValue(c: char): (v: nat)
    requires IsUpperHex(c)
    ensures v < 16 && UpperHexDigits[v] == c
  {
    if c <= '9' then c as int - '0' as int else c as int - 'A' as int + 10
  }

  /** The `(uint8_t)` cast of a one-byte `char`. */
  function ByteOf(c: char): Byte {
    Wrap(c as int)
  }

  /** parse_hex_nibble: subtract '0'; if that is not below 10, subtract 7 more.
      Nothing is rejected: a character that is not an uppercase hex digit
      still yields some (wrapped) byte. */
  function ParseHexNibble(c: char): (n: Byte)
    ensures IsUpperHex(c) ==> n == HexValue(c)
  {
    var b := Wrap(ByteOf(c) - 0x30);
    assert IsUpperHex(c) ==> b == c as int - 0x30;
    if b < 10 then b else Wrap(b - 0x07)
  }

  /** The digit the module prints for a nibble. */
  function HexDigit(n: nat): (c: char)
    requires n < 16
    ensures IsUpperHex(c)
  {
    UpperHexDigits[n]
  }

  /** Printing a nibble as an uppercase digit and decoding it gives it back. */
  lemma ParseHexDigit(n: nat)
    requires n < 16
    ensures ParseHexNibble(HexDigit(n)) == n
  {
    var c := HexDigit(n);
    assert HexValue(c) == n by {
      // both are positions of c in a string whose characters are distinct
      assert UpperHexDigits[HexValue(c)] == c == UpperHexDigits[n];
    }
  }

  /** Exactly the byte range '0'..'F' decodes below 16: besides the sixteen
      digits, the seven characters ':' .. '@' between them decode to 3..9. */
  lemma NibbleBelow16Iff(c: char)
    requires c as int < 256
    ensures ParseHexNibble(c) < 16 <==> '0' <= c <= 'F'
  {
  }

  /** Two witnesses that malformed input is not rejected: ':'..'@' alias the
      digits 3..9, and lowercase letters land above 15. */
  lemma NonHexInputDecodes()
    ensures ParseHexNibble('<') == ParseHexNibble('5') == 5
    ensures ParseHexNibble('a') == 42 && ParseHexNibble('f') == 47
  {
  }
}
