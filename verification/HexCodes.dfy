/** Codes in the dock's own format, "protocol;hex;bits;repeat": as a learned code is printed and as it is parsed. */
module HexCodes {
  import opened Bytes
  import opened Numerals

  datatype HexCode = HexCode(protocol: int, command: nat, bits: nat, repeat: nat)

  /** The text before the first semicolon and the text after it. */
  function Field(s: string): Option<(string, string)> {
    match IndexOf(s, ';')
    case None => None
    case Some(i) => Some((s[..i], s[i + 1..]))
  }

  /** parseULong: the whole text must be one number that fits an unsigned long. */
  function ParseULong(s: string): Option<nat> {
    match ScanNumber(s, 10)
    case NoNumber => None
    case Number(_, m, rest) =>
      if rest != "" || m > ULONG_MAX then None else Some(ToUnsigned(ScanNumber(s, 10), ULONG_MAX))
  }

  /** The command: hexadecimal, 64 bits, nothing after it. */
  function ParseCommand(s: string): Option<nat> {
    match ScanNumber(s, 16)
    case NoNumber => None
    case Number(_, m, rest) =>
      if rest != "" || m > UINT64_MAX then None else Some(ToUnsigned(ScanNumber(s, 16), UINT64_MAX))
  }

  function Parse(message: string): Option<HexCode> {
    match Field(message)
    case None => None
    case Some((protocol, rest)) =>
      match Field(rest)
      case None => None
      case Some((hex, rest)) =>
        match Field(rest)
        case None => None
        case Some((bits, repeat)) =>
          var p, c, b, r := ToInt(ScanNumber(protocol, 10)), ParseCommand(hex), ParseULong(bits), ParseULong(repeat);
          if p == 0 || c.None? || b.None? || r.None? || b.value == 0 || b.value > 0xFFFF || r.value > 20 then None
          else Some(HexCode(p, c.value, b.value, r.value))
  }

  class IRHexData {
    var protocol: int
    var command: nat
    var bits: nat
    var repeat: nat

    function Value(): HexCode
      reads this
    {
      HexCode(protocol, command, bits, repeat)
    }
  }

  /** The fields are written one by one as the text is read; a failure leaves the later ones as they were. */
  method BuildIRHexData(message: string, data: IRHexData) returns (ok: bool)
    modifies data
    ensures ok <==> Parse(message).Some?
    ensures ok ==> data.Value() == Parse(message).value
  {
    hide ScanNumber, Field;
    var first := Field(message);
    if first.None? {
      return false;
    }
    var second := Field(first.value.1);
    if second.None? {
      return false;
    }
    var third := Field(second.value.1);
    if third.None? {
      return false;
    }
    data.protocol := ToInt(ScanNumber(first.value.0, 10));
    if data.protocol == 0 {
      return false;
    }
    var str := second.value.0;
    var number := ScanNumber(str, 16);
    var command := ToUnsigned(number, UINT64_MAX);
    if command == 0 && number.NoNumber? {
      return false;
    } else if command == UINT64_MAX && number.magnitude > UINT64_MAX {
      return false;
    } else if number.rest != "" {
      return false;
    }
    data.command := command;
    var value := ParseULong(third.value.0);
    if value.None? || value.value > 0xFFFF {
      return false;
    }
    data.bits := value.value;
    if data.bits == 0 {
      return false;
    }
    value := ParseULong(third.value.1);
    if value.None? || value.value > 0xFFFF || value.value > 20 {
      return false;
    }
    data.repeat := value.value;
    return true;
  }

  /** A learned code as the learning task prints it. */
  function Learned(code: HexCode): string
    requires code.protocol >= 0
  {
    Print(code.protocol, 10) + ";" + (("0x" + Print(code.command, 16)) + ";"
    + (Print(code.bits, 10) + ";" + Print(code.repeat, 10)))
  }

  lemma FieldOf(s: string, rest: string)
    requires ';' !in s
    ensures Field(s + ";" + rest) == Some((s, rest))
  {
    var t := s + ";" + rest;
    assert t[..|s|] == s && t[|s| + 1..] == rest;
    IndexOfIs(t, ';', |s|);
  }

  lemma ReadsDecimal(v: nat)
    ensures ScanNumber(Print(v, 10), 10) == Number(false, v, "")
  {
    ScansNumeral(Print(v, 10), "", 10);
    assert Print(v, 10) + "" == Print(v, 10);
  }

  lemma PrefixedNumeral(digits: string)
    requires IsNumeral(digits, 16)
    ensures ScanNumber("0x" + digits, 16) == Number(false, ValueOf(digits, 16), "")
  {
    hide ReadDigits, ValueOf;
    var t := "0x" + digits;
    ReadsWhole(digits, "", 16);
    assert digits + "" == digits;
    assert t[0] == '0' && t[1] == 'x' && t[2] == digits[0] && t[2..] == digits;
    assert SkipSpace(t) == t;
    hide SkipSpace;
    assert AfterPrefix(t, 16) == digits;
  }

  lemma ReadsHex(v: nat)
    ensures ScanNumber("0x" + Print(v, 16), 16) == Number(false, v, "")
  {
    PrefixedNumeral(Print(v, 16));
  }

  lemma LearnedFields(code: HexCode)
    requires code.protocol >= 0
    ensures var last := Print(code.bits, 10) + ";" + Print(code.repeat, 10);
            var rest := ("0x" + Print(code.command, 16)) + ";" + last;
            && Field(Learned(code)) == Some((Print(code.protocol, 10), rest))
            && Field(rest) == Some(("0x" + Print(code.command, 16), last))
            && Field(last) == Some((Print(code.bits, 10), Print(code.repeat, 10)))
  {
    hide Print, Field;
    var last := Print(code.bits, 10) + ";" + Print(code.repeat, 10);
    NumeralHasNo(Print(code.protocol, 10), 10, ';');
    NumeralHasNo(Print(code.command, 16), 16, ';');
    NumeralHasNo(Print(code.bits, 10), 10, ';');
    FieldOf(Print(code.bits, 10), Print(code.repeat, 10));
    FieldOf("0x" + Print(code.command, 16), last);
    FieldOf(Print(code.protocol, 10), ("0x" + Print(code.command, 16)) + ";" + last);
  }

  predicate InRange(code: HexCode) {
    && 1 <= code.protocol <= INT_MAX && code.command <= UINT64_MAX
    && 1 <= code.bits <= 0xFFFF && code.repeat <= 20
  }

  /** A learned code is parsed to the values it was printed from. */
  lemma LearnedRoundTrip(code: HexCode)
    requires InRange(code)
    ensures Parse(Learned(code)) == Some(code)
  {
    hide ScanNumber, Print, Field, Learned;
    LearnedFields(code);
    ReadsDecimal(code.protocol);
    ReadsHex(code.command);
    ReadsDecimal(code.bits);
    ReadsDecimal(code.repeat);
  }

  /** Every parsed code with a positive protocol prints to a text that parses to the same values. */
  lemma ParsedPrintsBack(message: string)
    requires Parse(message).Some? && Parse(message).value.protocol > 0
    ensures InRange(Parse(message).value) && Parse(Learned(Parse(message).value)) == Parse(message)
  {
    hide ScanNumber, Field;
    LearnedRoundTrip(Parse(message).value);
  }
}
