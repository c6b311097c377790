/**
  Bluetooth device addresses as text: the printer and parser of the C adapter and the validator of
  the host.
 */
module MacAddress {
  import opened Basics

  const OHOS_BD_ADDR_LEN: nat := 6
  const ADDRESS_LENGTH: nat := 17
  const ADDRESS_SEPARATOR_UNIT: nat := 3

  // ------------------------------------------------------------------------------------------
  // Printing
  // ------------------------------------------------------------------------------------------

  function HexDigit(n: nat): (c: char)
    requires n < 16
    ensures IsUpperHex(c) && DigitValue(c) == n
  {
    if n < 10 then '0' + n as char else 'A' + (n - 10) as char
  }

  predicate IsUpperHex(c: char) {
    '0' <= c <= '9' || 'A' <= c <= 'F'
  }

  predicate IsHex(c: char) {
    IsUpperHex(c) || 'a' <= c <= 'f'
  }

  function DigitValue(c: char): (v: nat)
    requires IsHex(c)
    ensures v < 16
  {
    if c <= '9' then (c - '0') as nat
    else if c <= 'F' then (c - 'A') as nat + 10
    else (c - 'a') as nat + 10
  }

  /** %02X */
  function PrintByte(b: Byte): (s: string)
    ensures |s| == 2
  {
    [HexDigit(b / 16), HexDigit(b % 16)]
  }

  /** The bytes in hexadecimal, separated by colons. */
  function Print(bytes: seq<Byte>): string {
    if |bytes| == 0 then []
    else if |bytes| == 1 then PrintByte(bytes[0])
    else PrintByte(bytes[0]) + [':'] + Print(bytes[1..])
  }

  // ------------------------------------------------------------------------------------------
  // Parsing
  // ------------------------------------------------------------------------------------------

  predicate IsSpace(c: char) {
    c == ' ' || '\t' <= c <= '\r'
  }

  /** The value of the leading hexadecimal digits. */
  function Digits(s: string, v: nat): nat {
    if s != [] && IsHex(s[0]) then Digits(s[1..], 16 * v + DigitValue(s[0])) else v
  }

  /** strtoul with base 16, reduced to a byte, for the two characters the parser hands to it. */
  function StrToByte(s: string): Byte
    requires |s| <= 2
  {
    if s == [] then 0
    else if IsSpace(s[0]) then StrToByte(s[1..])
    else if s[0] == '-' then (256 - Digits(s[1..], 0)) % 256
    else if s[0] == '+' then Digits(s[1..], 0) % 256
    else Digits(s, 0) % 256
  }

  /** A colon is skipped; anything else starts a field of two characters and skips one more. */
  function Parse(s: string): seq<Byte> {
    if s == [] then []
    else if s[0] == ':' then Parse(s[1..])
    else if |s| <= 3 then [StrToByte(if |s| >= 2 then s[..2] else s)]
    else [StrToByte(s[..2])] + Parse(s[3..])
  }

  /** The characters of the field that starts at an index. */
  function FieldAt(s: string, i: nat): string
    requires i < |s|
  {
    s[i..if i + 2 <= |s| then i + 2 else |s|]
  }

  /** Writes one byte of the output for each field of the input and leaves the rest alone. */
  method GetAddrFromString(input: string, out: array<Byte>)
    requires |Parse(input)| <= out.Length
    modifies out
    ensures out[..] == Parse(input) + old(out[..])[|Parse(input)|..]
  {
    var i, j := 0, 0;
    ghost var all := Parse(input);
    assert input[0..] == input && all[0..] == all;
    while i < |input|
      invariant 0 <= i && 0 <= j <= |all| && ParseFrom(input, i) == all[j..]
      invariant forall k :: 0 <= k < j ==> out[k] == all[k]
      invariant forall k :: j <= k < out.Length ==> out[k] == old(out[k])
    {
      ParseNext(input, i, all, j);
      if input[i] != ':' {
        out[j] := StrToByte(FieldAt(input, i));
        i := i + 2;
        j := j + 1;
      }
      i := i + 1;
    }
  }

  /** One round of the loop: what is left to write shrinks by the byte of the field, if there is one. */
  lemma {:induction false} ParseNext(s: string, i: nat, all: seq<Byte>, j: nat)
    requires i < |s| && j <= |all| && ParseFrom(s, i) == all[j..]
    ensures s[i] == ':' ==> ParseFrom(s, i + 1) == all[j..]
    ensures s[i] != ':' ==> j < |all| && all[j] == StrToByte(FieldAt(s, i)) && ParseFrom(s, i + 3) == all[j + 1..]
  {
    ParseStep(s, i);
    if s[i] != ':' {
      assert all[j..] == [StrToByte(FieldAt(s, i))] + ParseFrom(s, i + 3);
      assert all[j..][0] == all[j] && all[j..][1..] == all[j + 1..];
    }
  }

  /** A text of at most 18 characters has no more than the six fields of an address. */
  lemma {:induction false} FieldsFit(s: string)
    ensures 3 * |Parse(s)| <= |s| + 2
  {
    if s != [] {
      if s[0] == ':' {
        FieldsFit(s[1..]);
      } else if |s| > 3 {
        FieldsFit(s[3..]);
      }
    }
  }

  /** What is left to write when the loop has reached index i. */
  ghost function ParseFrom(s: string, i: nat): seq<Byte> {
    if i < |s| then Parse(s[i..]) else []
  }

  lemma {:induction false} ParseStep(s: string, i: nat)
    requires i < |s|
    ensures ParseFrom(s, i) == if s[i] == ':' then ParseFrom(s, i + 1)
                               else [StrToByte(FieldAt(s, i))] + ParseFrom(s, i + 3)
  {
    var rest := s[i..];
    if s[i] == ':' {
      assert rest[1..] == s[i + 1..];
      assert Parse(rest) == Parse(s[i + 1..]);
    } else {
      assert (if |rest| >= 2 then rest[..2] else rest) == FieldAt(s, i);
      if |rest| > 3 { assert rest[3..] == s[i + 3..]; }
    }
  }

  // ------------------------------------------------------------------------------------------
  // Validation
  // ------------------------------------------------------------------------------------------

  predicate WellPlaced(s: string, i: nat)
    requires i < |s|
  {
    if i % ADDRESS_SEPARATOR_UNIT == 2 then s[i] == ':' else IsUpperHex(s[i])
  }

  predicate IsValid(s: string) {
    |s| == ADDRESS_LENGTH && forall i :: 0 <= i < ADDRESS_LENGTH ==> WellPlaced(s, i)
  }

  method IsValidBluetoothAddr(addr: string) returns (valid: bool)
    ensures valid == IsValid(addr)
  {
    if |addr| != ADDRESS_LENGTH {
      return false;
    }
    for i := 0 to ADDRESS_LENGTH
      invariant forall k :: 0 <= k < i ==> WellPlaced(addr, k)
    {
      var c := addr[i];
      match i % ADDRESS_SEPARATOR_UNIT {
        case 0 =>
          if !(('0' <= c <= '9') || ('A' <= c <= 'F')) { assert !WellPlaced(addr, i); return false; }
        case 1 =>
          if !(('0' <= c <= '9') || ('A' <= c <= 'F')) { assert !WellPlaced(addr, i); return false; }
        case _ =>
          if c != ':' { assert !WellPlaced(addr, i); return false; }
      }
    }
    return true;
  }

  // ------------------------------------------------------------------------------------------
  // Round trips
  // ------------------------------------------------------------------------------------------

  lemma {:induction false} TwoDigits(s: string)
    requires |s| == 2 && IsHex(s[0]) && IsHex(s[1])
    ensures StrToByte(s) == 16 * DigitValue(s[0]) + DigitValue(s[1])
  {
    assert !IsSpace(s[0]);
    assert s[1..][1..] == [];
    assert Digits(s, 0) == Digits(s[1..], DigitValue(s[0]));
    assert Digits(s[1..], DigitValue(s[0])) == Digits([], 16 * DigitValue(s[0]) + DigitValue(s[1]));
  }

  lemma {:induction false} ByteRoundTrip(b: Byte)
    ensures StrToByte(PrintByte(b)) == b
  {
    TwoDigits(PrintByte(b));
  }

  /** Parsing a printed address gives its bytes back, and only them. */
  lemma {:induction false} ParsePrint(bytes: seq<Byte>)
    ensures Parse(Print(bytes)) == bytes
  {
    if bytes != [] {
      var s := Print(bytes);
      ByteRoundTrip(bytes[0]);
      if |bytes| == 1 {
        assert s[..2] == s;
      } else {
        ParsePrint(bytes[1..]);
        assert s[..2] == PrintByte(bytes[0]);
        assert s[3..] == Print(bytes[1..]);
        PrintShape(bytes[1..]);
      }
    }
  }

  /** The text of n bytes has 3n - 1 characters, every third of them a colon. */
  lemma {:induction false} PrintShape(bytes: seq<Byte>)
    requires bytes != []
    ensures |Print(bytes)| == 3 * |bytes| - 1
    ensures forall i :: 0 <= i < |Print(bytes)| ==> WellPlaced(Print(bytes), i)
  {
    if |bytes| > 1 {
      var s, t := Print(bytes), Print(bytes[1..]);
      PrintShape(bytes[1..]);
      forall i | 0 <= i < |s|
        ensures WellPlaced(s, i)
      {
        if i >= 3 {
          assert s[i] == t[i - 3] && WellPlaced(t, i - 3) && i % 3 == (i - 3) % 3;
        }
      }
    }
  }

  /** Upper-case text of the right shape is what the printer makes of its parse. */
  lemma {:induction false} PrintParse(s: string, n: nat)
    requires n > 0 && |s| == 3 * n - 1
    requires forall i :: 0 <= i < |s| ==> WellPlaced(s, i)
    ensures |Parse(s)| == n && Print(Parse(s)) == s
  {
    assert WellPlaced(s, 0) && WellPlaced(s, 1);
    FieldRoundTrip(s[..2]);
    if n > 1 {
      var t := s[3..];
      assert WellPlaced(s, 2);
      forall i | 0 <= i < |t|
        ensures WellPlaced(t, i)
      {
        assert WellPlaced(s, i + 3) && (i + 3) % 3 == i % 3;
      }
      PrintParse(t, n - 1);
      assert Parse(s)[1..] == Parse(t);
      assert s == s[..2] + [':'] + t;
    } else {
      assert s[..2] == s;
    }
  }

  lemma {:induction false} FieldRoundTrip(s: string)
    requires |s| == 2 && IsUpperHex(s[0]) && IsUpperHex(s[1])
    ensures PrintByte(StrToByte(s)) == s
  {
    var h, l := DigitValue(s[0]), DigitValue(s[1]);
    assert StrToByte(s) == 16 * h + l by { TwoDigits(s); }
    SplitByte(h, l);
    DigitRoundTrip(s[0]);
    DigitRoundTrip(s[1]);
  }

  lemma {:induction false} SplitByte(h: nat, l: nat)
    requires h < 16 && l < 16
    ensures PrintByte(16 * h + l) == [HexDigit(h), HexDigit(l)]
  {
    assert (16 * h + l) / 16 == h && (16 * h + l) % 16 == l;
  }

  lemma {:induction false} DigitRoundTrip(c: char)
    requires IsUpperHex(c)
    ensures HexDigit(DigitValue(c)) == c
  {
  }

  // ------------------------------------------------------------------------------------------
  // The text, character by character
  // ------------------------------------------------------------------------------------------

  const UPPER_DIGITS: string := "0123456789ABCDEF"
  const LOWER_DIGITS: string := "0123456789abcdef"

  /** The digits are the usual ones, in either case for the parser. */
  lemma {:induction false} DigitsAreUsual(n: nat)
    requires n < 16
    ensures HexDigit(n) == UPPER_DIGITS[n]
    ensures IsHex(UPPER_DIGITS[n]) && DigitValue(UPPER_DIGITS[n]) == n
    ensures IsHex(LOWER_DIGITS[n]) && DigitValue(LOWER_DIGITS[n]) == n
  {
  }

  lemma {:induction false} HexIsDigit(c: char)
    ensures IsHex(c) <==> c in UPPER_DIGITS || c in LOWER_DIGITS
    ensures IsUpperHex(c) <==> c in UPPER_DIGITS
  {
    if IsHex(c) {
      var n := DigitValue(c);
      DigitsAreUsual(n);
      assert c == UPPER_DIGITS[n] || c == LOWER_DIGITS[n];
    }
  }

  /** Byte k is printed as its two digits, the high one first, at position 3k, with a colon behind it. */
  lemma {:induction false} PrintAt(bytes: seq<Byte>, k: nat)
    requires k < |bytes|
    ensures |Print(bytes)| == 3 * |bytes| - 1
    ensures Print(bytes)[3 * k] == UPPER_DIGITS[bytes[k] / 16] && Print(bytes)[3 * k + 1] == UPPER_DIGITS[bytes[k] % 16]
    ensures k + 1 < |bytes| ==> Print(bytes)[3 * k + 2] == ':'
  {
    FieldIsPrinted(bytes, k);
    PrintByteDigits(bytes[k]);
  }

  lemma {:induction false} FieldIsPrinted(bytes: seq<Byte>, k: nat)
    requires k < |bytes|
    ensures |Print(bytes)| == 3 * |bytes| - 1
    ensures Print(bytes)[3 * k] == PrintByte(bytes[k])[0] && Print(bytes)[3 * k + 1] == PrintByte(bytes[k])[1]
    ensures k + 1 < |bytes| ==> Print(bytes)[3 * k + 2] == ':'
  {
    PrintLength(bytes);
    if |bytes| > 1 {
      PrintHead(bytes);
    }
    if k > 0 {
      FieldIsPrinted(bytes[1..], k - 1);
    }
  }

  /** The first field and the rest. */
  lemma {:induction false} PrintHead(bytes: seq<Byte>)
    requires |bytes| > 1
    ensures |Print(bytes)| == |Print(bytes[1..])| + 3 && Print(bytes)[0..2] == PrintByte(bytes[0]) && Print(bytes)[2] == ':'
    ensures forall i :: 3 <= i < |Print(bytes)| ==> Print(bytes)[i] == Print(bytes[1..])[i - 3]
  {
  }

  lemma {:induction false} PrintLength(bytes: seq<Byte>)
    requires bytes != []
    ensures |Print(bytes)| == 3 * |bytes| - 1
  {
    PrintShape(bytes);
  }

  lemma {:induction false} PrintByteDigits(b: Byte)
    ensures PrintByte(b) == [UPPER_DIGITS[b / 16], UPPER_DIGITS[b % 16]]
  {
    DigitsAreUsual(b / 16);
    DigitsAreUsual(b % 16);
  }

  /** The character behind a field is skipped, whatever it is. */
  lemma {:induction false} SeparatorIsSkipped(field: string, x: char, y: char, rest: string)
    requires |field| == 2 && field[0] != ':' && rest != []
    ensures Parse(field + [x] + rest) == Parse(field + [y] + rest) == [StrToByte(field)] + Parse(rest)
  {
    forall z: char
      ensures Parse(field + [z] + rest) == [StrToByte(field)] + Parse(rest)
    {
      var s := field + [z] + rest;
      assert s[..2] == field && s[3..] == rest;
    }
  }

  /** Colons before a field are skipped, and a text may end within a field or behind it. */
  lemma {:induction false} Edges(s: string, c: char, d: char, x: char)
    requires c != ':'
    ensures Parse([]) == [] && Parse([':'] + s) == Parse(s)
    ensures Parse([c]) == [StrToByte([c])]
    ensures Parse([c, d]) == Parse([c, d, x]) == [StrToByte([c, d])]
  {
    assert ([':'] + s)[1..] == s;
    assert [c, d][..2] == [c, d] && [c, d, x][..2] == [c, d];
  }

  /** What a field means that is not two digits: spaces and a sign are taken as strtoul takes them. */
  lemma {:induction false} OddFields(d: char, x: char)
    requires IsHex(d) && !IsHex(x)
    ensures StrToByte([d]) == StrToByte([' ', d]) == StrToByte(['+', d]) == StrToByte([d, x]) == DigitValue(d)
    ensures StrToByte(['-', d]) == if DigitValue(d) == 0 then 0 else 256 - DigitValue(d)
    ensures !IsSpace(x) && x != '-' && x != '+' ==> StrToByte([x, d]) == 0
  {
    OneDigit(d);
    assert [' ', d][1..] == [d] && ['+', d][1..] == [d] && ['-', d][1..] == [d];
    assert [d, x][1..] == [x] && Digits([x], DigitValue(d)) == DigitValue(d);
    assert Digits([d, x], 0) == Digits([x], DigitValue(d));
  }

  lemma {:induction false} OneDigit(d: char)
    requires IsHex(d)
    ensures Digits([d], 0) == DigitValue(d) && StrToByte([d]) == DigitValue(d)
  {
    assert [d][1..] == [];
  }

  /** The validator accepts exactly the strings the printer can produce for six bytes. */
  lemma {:induction false} ValidIffPrinted(s: string)
    ensures IsValid(s) <==> exists bytes: seq<Byte> {:induction false} :: |bytes| == 6 && Print(bytes) == s
    ensures IsValid(s) ==> |Parse(s)| == 6 && Print(Parse(s)) == s
  {
    if IsValid(s) {
      PrintParse(s, OHOS_BD_ADDR_LEN);
    }
    if bytes: seq<Byte> :| |bytes| == OHOS_BD_ADDR_LEN && Print(bytes) == s {
      PrintShape(bytes);
    }
  }
}
