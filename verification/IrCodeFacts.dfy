/** What the code parsers compute: split-and-parse meaning, round trips, and agreement of the two GlobalCache forms. */
module IrCodeFacts {
  import opened Bytes
  import opened Numerals
  import opened IrCodes

  /** Tokens with a separator between any two. */
  function Join(tokens: seq<string>, sep: char): string {
    if tokens == [] then ""
    else if |tokens| == 1 then tokens[0]
    else tokens[0] + [sep] + Join(tokens[1..], sep)
  }

  /** Tokens of digits of the base, and a separator that cannot be taken for part of a number. */
  predicate Readable(tokens: seq<string>, sep: char, base: nat) {
    && (base == 10 || base == 16) && DigitOf(sep) >= base && sep != 'x' && sep != 'X'
    && forall i :: 0 <= i < |tokens| ==> IsNumeral(tokens[i], base)
  }

  /** The 16 bits kept of a number, which is first cut off at the largest unsigned long. */
  function Kept(v: nat): nat {
    Wrap16(if v > ULONG_MAX then ULONG_MAX else v)
  }

  function Values(tokens: seq<string>, base: nat): (vs: seq<nat>)
    ensures |vs| == |tokens| && forall i :: 0 <= i < |vs| ==> vs[i] == Kept(ValueOf(tokens[i], base))
  {
    if tokens == [] then [] else [Kept(ValueOf(tokens[0], base))] + Values(tokens[1..], base)
  }

  lemma WordOfToken(token: string, rest: string, base: nat)
    requires IsNumeral(token, base) && (base == 10 || base == 16)
    requires rest == "" || (DigitOf(rest[0]) >= base && rest[0] != 'x' && rest[0] != 'X')
    ensures Word(token + rest, base) == Kept(ValueOf(token, base))
  {
    ScansNumeral(token, rest, base);
  }

  /** A first token and its separator. */
  lemma FirstWord(token: string, sep: char, rest: string, base: nat)
    requires Readable([token], sep, base)
    ensures Words(token + [sep] + rest, sep, base, 0) == [Kept(ValueOf(token, base))] + Words(rest, sep, base, 0)
    ensures Separators(token + [sep] + rest, sep) == 1 + Separators(rest, sep)
  {
    assert [token][0] == token;
    NumeralHasNo(token, base, sep);
    var s := token + [sep] + rest;
    var i := |token|;
    assert s[..i] == token && s[i + 1..] == rest && s == token + ([sep] + rest);
    IndexOfIs(s, sep, i);
    WordOfToken(token, [sep] + rest, base);
    SplitSeparators(s, sep, i);
  }

  /**
   For texts of digit tokens the parsers compute what splitting at the separators and reading each
   token would: one value per token, whether or not a separator follows the last.
   */
  lemma {:induction false} WordsOfTokens(tokens: seq<string>, sep: char, base: nat)
    requires Readable(tokens, sep, base)
    ensures Words(Join(tokens, sep), sep, base, 0) == Values(tokens, base)
    ensures tokens != [] ==> Words(Join(tokens, sep) + [sep], sep, base, 0) == Values(tokens, base)
    ensures tokens != [] ==> Separators(Join(tokens, sep), sep) == |tokens| - 1
    decreases |tokens|
  {
    hide Words, Separators, Word, ValueOf;
    LastWord("", sep, base, 0);
    if tokens == [] {
    } else if |tokens| == 1 {
      var t := tokens[0];
      NumeralHasNo(t, base, sep);
      NoSeparators(t, sep);
      LastWord(t, sep, base, 0);
      WordOfToken(t, "", base);
      assert t + "" == t;
      FirstWord(t, sep, "", base);
      assert t + [sep] + "" == t + [sep];
      assert Values(tokens[1..], base) == [];
    } else {
      var t, rest := tokens[0], Join(tokens[1..], sep);
      WordsOfTokens(tokens[1..], sep, base);
      FirstWord(t, sep, rest, base);
      FirstWord(t, sep, rest + [sep], base);
      assert t + [sep] + rest + [sep] == t + [sep] + (rest + [sep]);
    }
  }

  lemma StartsWithDigit(tokens: seq<string>)
    requires Readable(tokens, ',', 10) && tokens != []
    ensures Join(tokens, ',') != "" && !IsLong(Join(tokens, ',')) && !IsLong(Join(tokens, ',') + ",")
  {
    assert IsNumeral(tokens[0], 10);
    assert Join(tokens, ',')[0] == tokens[0][0] == (Join(tokens, ',') + ",")[0];
  }

  /**
   The GlobalCache parser on comma-separated numbers: each is kept to 16 bits, and six are needed. A
   comma after the last adds to what is counted and nothing to what is kept, so five and a comma pass.
   */
  lemma GlobalCacheValues(tokens: seq<string>)
    requires Readable(tokens, ',', 10) && |tokens| + 1 < WIDTH16
    ensures GlobalCache(Join(tokens, ',')) == if |tokens| < 6 then None else Some(Values(tokens, 10))
    ensures GlobalCache(Join(tokens, ',') + ",") == if |tokens| < 5 then None else Some(Values(tokens, 10))
  {
    hide Words, Separators, Values, Readable, Wrap16;
    WordsOfTokens(tokens, ',', 10);
    if tokens == [] {
      OneComma();
    } else {
      StartsWithDigit(tokens);
      JoinSeparators(Join(tokens, ','), ",", ',');
      OneComma();
      hide Join, IsLong;
    }
  }

  /** A value taken is the number mod 2^16 exactly when that fits an unsigned long or ends in the same 16 bits. */
  lemma GlobalCacheKeepsMod(tokens: seq<string>, i: nat)
    requires Readable(tokens, ',', 10) && 6 <= |tokens| && |tokens| + 1 < WIDTH16 && i < |tokens|
    ensures var vs := GlobalCache(Join(tokens, ','));
            var v := ValueOf(tokens[i], 10);
      && vs.Some? && |vs.value| == |tokens|
      && (vs.value[i] == v % WIDTH16 <==> v <= ULONG_MAX || v % WIDTH16 == 0xFFFF)
  {
    hide GlobalCache, Join, Readable, ValueOf, Kept;
    GlobalCacheValues(tokens);
    assert Values(tokens, 10)[i] == Kept(ValueOf(tokens[i], 10));
    KeepsMod(ValueOf(tokens[i], 10));
  }

  lemma KeepsMod(v: nat)
    ensures Kept(v) == v % WIDTH16 <==> v <= ULONG_MAX || v % WIDTH16 == 0xFFFF
  {
  }

  lemma OneComma()
    ensures Separators(",", ',') == 1 && !IsLong(",")
  {
    assert ","[1..] == "";
  }

  lemma SkipOne(token: string, rest: string, skip: nat)
    requires ',' !in token && skip > 0
    ensures Words(token + "," + rest, ',', 10, skip) == Words(rest, ',', 10, skip - 1)
    ensures Separators(token + "," + rest, ',') == 1 + Separators(rest, ',')
  {
    var s := token + "," + rest;
    var i := |token|;
    assert s[..i] == token && s[i + 1..] == rest;
    IndexOfIs(s, ',', i);
    SplitSeparators(s, ',', i);
  }

  /** The long form of a request: command word, module and port, request number, then the code. */
  function Long(address: string, id: string, code: string): string {
    "sendir" + "," + (address + "," + (id + "," + code))
  }

  lemma LessThree(n: nat)
    ensures Wrap16(Wrap16(3 + n + 1) - 3) == Wrap16(n + 1)
  {
  }

  lemma RoomOfLong(s: string, n: nat)
    requires IsLong(s) && Separators(s, ',') == 3 + n
    ensures Room(s) == Wrap16(n + 1)
  {
    LessThree(n);
    hide Wrap16, Separators;
  }

  /** The three leading tokens are skipped. */
  lemma LongFormWords(command: string, address: string, id: string, code: string)
    requires ',' !in command && ',' !in address && ',' !in id
    ensures var s := command + "," + (address + "," + (id + "," + code));
            Words(s, ',', 10, 3) == Words(code, ',', 10, 0) && Separators(s, ',') == 3 + Separators(code, ',')
  {
    hide Words, Separators;
    SkipOne(command, address + "," + (id + "," + code), 3);
    SkipOne(address, id + "," + code, 2);
    SkipOne(id, code, 1);
  }

  lemma LongFormIsLong(address: string, id: string, code: string)
    ensures IsLong(Long(address, id, code))
  {
    assert Long(address, id, code)[..6] == "sendir";
  }

  /** The long form makes room for its code. */
  lemma LongFormRoom(address: string, id: string, code: string)
    requires ',' !in address && ',' !in id
    ensures IsLong(Long(address, id, code)) && Room(Long(address, id, code)) == Wrap16(Separators(code, ',') + 1)
    ensures Words(Long(address, id, code), ',', 10, 3) == Words(code, ',', 10, 0)
  {
    hide Words, Separators, IsLong, Wrap16, Room;
    LongFormWords("sendir", address, id, code);
    LongFormIsLong(address, id, code);
    RoomOfLong(Long(address, id, code), Separators(code, ','));
  }

  /** Whether the last token of a text is there. */
  predicate EndsInWord(s: string, sep: char) {
    s != "" && s[|s| - 1] != sep
  }

  /** How many values there are once `skip` tokens are passed over. */
  lemma {:induction false} WordCount(s: string, sep: char, base: nat, skip: nat)
    requires skip <= Separators(s, sep)
    ensures |Words(s, sep, base, skip)| == Separators(s, sep) - skip + if EndsInWord(s, sep) then 1 else 0
    decreases |s|
  {
    hide Word, Separators;
    match IndexOf(s, sep)
    case None =>
      NoSeparators(s, sep);
    case Some(i) =>
      SplitSeparators(s, sep, i);
      WordCount(s[i + 1..], sep, base, if skip > 0 then skip - 1 else 0);
  }

  /** A code that starts with the command word is itself read as a long form. */
  lemma LongCode(address: string, id: string, code: string)
    requires ',' !in address && ',' !in id && |code| < 0x8000 && IsLong(code)
    ensures GlobalCache(Long(address, id, code)) == GlobalCache(code) <==> 3 <= CountValues(code, ',') <= 5
  {
    hide Words, Long, Separators;
    LongFormRoom(address, id, code);
    var n := CountValues(code, ',');
    if n >= 6 {
      WordCount(code, ',', 10, 0);
      WordCount(code, ',', 10, 3);
    }
  }

  /**
   The long form is accepted exactly when the code alone is, and gives the same values, if and only if
   the code does not itself start with the command word or has three to five values, when both are refused.
   */
  lemma LongFormAgrees(address: string, id: string, code: string)
    requires ',' !in address && ',' !in id && |code| < 0x8000
    ensures GlobalCache(Long(address, id, code)) == GlobalCache(code)
       <==> !IsLong(code) || 3 <= CountValues(code, ',') <= 5
  {
    hide Words, Long, Separators, Wrap16;
    if IsLong(code) {
      LongCode(address, id, code);
    } else {
      LongFormRoom(address, id, code);
      if code == "" {
        NoSeparators("", ',');
      }
    }
  }

  /** A code on which the forms differ: the command word alone is accepted, and in the long form it is refused. */
  lemma LongFormOfLong()
    ensures IsLong("sendir") && CountValues("sendir", ',') == 1
    ensures GlobalCache("sendir").Some? && GlobalCache(Long("1:1", "1", "sendir")) != GlobalCache("sendir")
  {
    hide Words, Long, Separators;
    NoSeparators("sendir", ',');
    LongFormAgrees("1:1", "1", "sendir");
  }

  /**
   The least number of values, with the wrap of the count: a text in the long form passes with nine values
   or more, and also with fewer than the three that are taken off.
   */
  lemma LongFormCounts(msg: string)
    requires |msg| < 0x8000 && IsLong(msg)
    ensures GlobalCache(msg).Some? <==> CountValues(msg, ',') < 3 || CountValues(msg, ',') >= 9
  {
    hide Words, Separators;
    assert Separators(msg, ',') <= |msg|;
  }

  /** Both burst sequences a code announces lie inside it. */
  predicate BurstsInside(ws: seq<nat>)
    requires |ws| > 3
  {
    && (ws[2] > 0 ==> 4 + 2 * ws[2] <= |ws|)
    && (ws[3] > 0 ==> 4 + 2 * ws[2] + 2 * ws[3] <= |ws|)
  }

  /** An accepted Pronto code has its bursts inside exactly when neither pair count loses its top bit in doubling. */
  lemma ProntoBursts(msg: string, sep: char)
    requires |msg| < 0x8000 && Pronto(msg, sep).Some?
    ensures var ws := Pronto(msg, sep).value;
            |ws| > 3 && (BurstsInside(ws) <==> ws[2] < 0x8000 && ws[3] < 0x8000)
  {
  }

  function Printed(ws: seq<nat>): (tokens: seq<string>)
    ensures |tokens| == |ws|
    ensures forall i :: 0 <= i < |ws| ==> IsNumeral(tokens[i], 16) && ValueOf(tokens[i], 16) == ws[i]
  {
    if ws == [] then [] else [Print(ws[0], 16)] + Printed(ws[1..])
  }

  /** Printing 16-bit words in hexadecimal and parsing them gives the words back. */
  lemma ProntoRoundTrip(ws: seq<nat>, sep: char)
    requires sep == ' ' || sep == ','
    requires forall i :: 0 <= i < |ws| ==> ws[i] < WIDTH16
    ensures Words(Join(Printed(ws), sep), sep, 16, 0) == ws
  {
    hide Words, Separators, Join, ValueOf;
    WordsOfTokens(Printed(ws), sep, 16);
  }

  /**
   A printed code whose pair counts keep their top bit is accepted exactly if it is raw, has six words or more,
   and has its bursts inside.
   */
  lemma ProntoPrinted(ws: seq<nat>, sep: char)
    requires sep == ' ' || sep == ','
    requires 0 < |ws| < 0x8000 && forall i :: 0 <= i < |ws| ==> ws[i] < WIDTH16
    requires |ws| > 3 ==> ws[2] < 0x8000 && ws[3] < 0x8000
    ensures Pronto(Join(Printed(ws), sep), sep) ==
            if |ws| >= 6 && ws[0] == 0 && BurstsInside(ws) then Some(ws) else None
  {
    hide Words, Separators, Join, ValueOf;
    WordsOfTokens(Printed(ws), sep, 16);
    ProntoRoundTrip(ws, sep);
    NotEmpty(Printed(ws), sep);
    hide Printed;
  }

  lemma NotEmpty(tokens: seq<string>, sep: char)
    requires Readable(tokens, sep, 16) && tokens != []
    ensures Join(tokens, sep) != ""
  {
    assert IsNumeral(tokens[0], 16);
  }

  /** A code that announces 0x8000 pairs and holds one: accepted, with its first sequence far outside. */
  lemma WrappedPairCount()
    ensures var ws := [0, 0x66, 0x8000, 0, 0x50, 0x51];
            Pronto(Join(Printed(ws), ' '), ' ') == Some(ws) && !BurstsInside(ws)
  {
    hide Words, Separators, Join, Printed;
    var ws := [0, 0x66, 0x8000, 0, 0x50, 0x51];
    ProntoRoundTrip(ws, ' ');
    WordsOfTokens(Printed(ws), ' ', 16);
  }
}
