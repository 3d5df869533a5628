/**
 The infrared code parsers. A text is counted first and then parsed into an array of that size; both
 passes walk the characters of a C string, here the sequence of characters before its terminator.
 */
module IrCodes {
  import opened Bytes
  import opened Numerals

  const WIDTH16 := 0x1_0000

  /** What 16 unsigned bits keep of a number. */
  function Wrap16(n: int): (w: nat)
    ensures w < WIDTH16
    ensures 0 <= n < WIDTH16 ==> w == n
  {
    n % WIDTH16
  }

  /** The value a token starting here is given: strtoul reads on until a character that is no digit. */
  function Word(s: string, base: nat): (w: nat)
    ensures w < WIDTH16
  {
    Wrap16(ToUnsigned(ScanNumber(s, base), ULONG_MAX))
  }

  function Separators(s: string, sep: char): (n: nat)
    ensures n <= |s|
  {
    if s == "" then 0 else (if s[0] == sep then 1 else 0) + Separators(s[1..], sep)
  }

  /** How many values a text has, one more than its separators; the empty text has none. */
  function CountValues(s: string, sep: char): nat {
    if s == "" then 0 else Wrap16(Separators(s, sep) + 1)
  }

  /** The values of a text, one per token from the `skip`-th on; the last token counts unless it is empty. */
  function Words(s: string, sep: char, base: nat, skip: nat): (ws: seq<nat>)
    ensures skip <= Separators(s, sep) ==> Separators(s, sep) - skip <= |ws| <= Separators(s, sep) - skip + 1
    ensures skip > Separators(s, sep) ==> |ws| <= 1
    decreases |s|
  {
    match IndexOf(s, sep)
    case None =>
      NoSeparators(s, sep);
      if s == "" then [] else [Word(s, base)]
    case Some(i) =>
      SplitSeparators(s, sep, i);
      (if skip > 0 then [] else [Word(s, base)]) + Words(s[i + 1..], sep, base, if skip > 0 then skip - 1 else 0)
  }

  lemma {:induction false} NoSeparators(s: string, sep: char)
    requires sep !in s
    ensures Separators(s, sep) == 0
  {
    if s != "" {
      NoSeparators(s[1..], sep);
    }
  }

  lemma {:induction false} JoinSeparators(s: string, t: string, sep: char)
    ensures Separators(s + t, sep) == Separators(s, sep) + Separators(t, sep)
    decreases |s|
  {
    if s == "" {
      assert s + t == t;
    } else {
      assert (s + t)[1..] == s[1..] + t;
      JoinSeparators(s[1..], t, sep);
    }
  }

  lemma SplitSeparators(s: string, sep: char, i: nat)
    requires i < |s| && s[i] == sep && sep !in s[..i]
    ensures Separators(s, sep) == 1 + Separators(s[i + 1..], sep)
  {
    assert s == s[..i] + s[i..];
    assert s[i..][1..] == s[i + 1..];
    JoinSeparators(s[..i], s[i..], sep);
    NoSeparators(s[..i], sep);
  }

  /** A null pointer has no values; the index and the count are 16 bits wide. */
  method CountValuesInCStr(str: Option<string>, sep: char) returns (count: nat)
    requires str.Some? ==> |str.value| < 0x8000
    ensures count == if str.Some? then CountValues(str.value, sep) else 0
  {
    if str.None? || str.value == "" {
      return 0;
    }
    var s := str.value;
    var index := 0;
    count := 0;
    while index < |s|
      invariant index <= |s|
      invariant count + Separators(s[index..], sep) == Separators(s, sep)
    {
      assert s[index..][1..] == s[index + 1..];
      if s[index] == sep {
        count := count + 1;
      }
      index := index + 1;
    }
    count := count + 1;
  }

  /** What the Pronto parser accepts: raw codes whose burst counts, doubled in 16 bits, fit the array. */
  function Pronto(msg: string, sep: char): Option<seq<nat>> {
    var ws := Words(msg, sep, 16, 0);
    if CountValues(msg, sep) < 6 || ws[0] != 0 then None
    else
      var seq1Len, seq2Len := Wrap16(ws[2] * 2), Wrap16(ws[3] * 2);
      if seq1Len > 0 && seq1Len + 4 > |ws| then None
      else if seq2Len > 0 && seq2Len + Wrap16(4 + seq1Len) > |ws| then None
      else Some(ws)
  }

  /** Where the token that starts at `from` ends, the rest of the text is parsed after it. */
  lemma NextWord(msg: string, sep: char, base: nat, skip: nat, from: nat, i: nat)
    requires from <= i < |msg| && msg[i] == sep && sep !in msg[from..i]
    ensures Words(msg[from..], sep, base, skip) ==
            (if skip > 0 then [] else [Word(msg[from..], base)])
            + Words(msg[i + 1..], sep, base, if skip > 0 then skip - 1 else 0)
  {
    var s := msg[from..];
    assert s[..i - from] == msg[from..i] && s[i - from + 1..] == msg[i + 1..];
    IndexOfIs(s, sep, i - from);
  }

  /** The last token, which has no separator after it. */
  lemma LastWord(s: string, sep: char, base: nat, skip: nat)
    requires sep !in s
    ensures Words(s, sep, base, skip) == if s == "" then [] else [Word(s, base)]
  {
  }

  /**
   The second pass of both parsers. It fills the array from the front with the values after the first
   `startIndex` separators, and never writes past the values the text has.
   */
  method Fill(codeArray: array<nat>, msg: string, separator: char, base: nat, startIndex: nat) returns (codeIndex: nat)
    requires |msg| < 0x8000 && |Words(msg, separator, base, startIndex)| <= codeArray.Length
    modifies codeArray
    ensures codeIndex <= codeArray.Length && codeArray[..codeIndex] == Words(msg, separator, base, startIndex)
  {
    hide Words, Word;
    var index, count, startFrom := 0, 0, 0;
    codeIndex := 0;
    assert msg[0..] == msg;
    ghost var all := Words(msg, separator, base, startIndex);
    while index < |msg|
      invariant startFrom <= index <= |msg| && separator !in msg[startFrom..index] && codeIndex <= codeArray.Length
      invariant all == codeArray[..codeIndex]
                       + Words(msg[startFrom..], separator, base, if count < startIndex then startIndex - count else 0)
    {
      if msg[index] == separator {
        NextWord(msg, separator, base, if count < startIndex then startIndex - count else 0, startFrom, index);
        if count >= startIndex {
          ghost var before := codeArray[..codeIndex];
          codeArray[codeIndex] := Word(msg[startFrom..], base);
          assert codeArray[..codeIndex + 1] == before + [Word(msg[startFrom..], base)];
          codeIndex := codeIndex + 1;
        }
        startFrom := index + 1;
        count := count + 1;
      }
      index := index + 1;
    }
    LastWord(msg[startFrom..], separator, base, if count < startIndex then startIndex - count else 0);
    if index > startFrom {
      ghost var before := codeArray[..codeIndex];
      codeArray[codeIndex] := Word(msg[startFrom..], base);
      assert codeArray[..codeIndex + 1] == before + [Word(msg[startFrom..], base)];
      codeIndex := codeIndex + 1;
    }
  }

  /** `memory` says whether malloc succeeds. The array is as long as the first pass counted. */
  method ProntoBufferToArray(msg: string, separator: char, memory: bool)
      returns (codeArray: array?<nat>, codeCount: nat, memError: bool)
    requires |msg| < 0x8000
    ensures memError <==> CountValues(msg, separator) >= 6 && !memory
    ensures codeArray != null <==> memory && Pronto(msg, separator).Some?
    ensures codeArray != null ==> codeArray.Length == CountValues(msg, separator) && codeCount <= codeArray.Length
    ensures codeArray != null ==> codeArray[..codeCount] == Pronto(msg, separator).value
  {
    hide Words;
    var count := CountValuesInCStr(Some(msg), separator);
    if count < 6 {
      return null, 0, false;
    }
    if !memory {
      return null, 0, true;
    }
    var codes := new nat[count];
    count := Fill(codes, msg, separator, 16, 0);
    ghost var ws := Words(msg, separator, 16, 0);
    assert ws[0] == codes[0] && ws[2] == codes[2] && ws[3] == codes[3];
    if codes[0] != 0 {
      return null, 0, false;
    }
    var seq1Len := Wrap16(codes[2] * 2);
    var seq2Len := Wrap16(codes[3] * 2);
    var seq2Start := Wrap16(4 + seq1Len);
    if seq1Len > 0 && seq1Len + 4 > count {
      return null, 0, false;
    }
    if seq2Len > 0 && seq2Len + seq2Start > count {
      return null, 0, false;
    }
    return codes, count, false;
  }

  /** The long form starts with the command word. */
  predicate IsLong(msg: string) {
    "sendir" <= msg
  }

  /** How many values the GlobalCache parser makes room for: 16 bits, three fewer in the long form. */
  function Room(msg: string): nat {
    if IsLong(msg) then Wrap16(CountValues(msg, ',') - 3) else CountValues(msg, ',')
  }

  function GlobalCache(msg: string): Option<seq<nat>> {
    if Room(msg) < 6 then None else Some(Words(msg, ',', 10, if IsLong(msg) then 3 else 0))
  }

  method GlobalCacheBufferToArray(msg: string, memory: bool)
      returns (codeArray: array?<nat>, codeCount: nat, memError: bool)
    requires |msg| < 0x8000
    ensures memError <==> Room(msg) >= 6 && !memory
    ensures codeArray != null <==> memory && GlobalCache(msg).Some?
    ensures codeArray != null ==> codeArray.Length == Room(msg) && codeCount <= codeArray.Length
    ensures codeArray != null ==> codeArray[..codeCount] == GlobalCache(msg).value
  {
    hide Words;
    var separator := ',';
    var count := CountValuesInCStr(Some(msg), separator);
    var startIndex := 0;
    if "sendir" <= msg {
      count := Wrap16(count as int - 3);
      startIndex := 3;
    }
    if count < 6 {
      return null, 0, false;
    }
    if !memory {
      return null, 0, true;
    }
    var codes := new nat[count];
    var codeIndex := Fill(codes, msg, separator, 10, startIndex);
    return codes, codeIndex, false;
  }
}
