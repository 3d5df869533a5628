/** The header line the signing script writes, and what the device check makes of it. */
module SignedLine {
  import opened Bytes
  import opened Numerals
  import opened ProcessorSpec

  /** A word that can stand in the line: not empty, at most 64 bytes, no space, line feed or NUL. */
  predicate IsWord(w: seq<byte>) {
    1 <= |w| <= MAX_VALUE && SPACE !in w && LF !in w && 0 !in w
  }

  /** The lengths of reply and firmware, which the device does not read. */
  function Counts(tsrLength: nat, payloadLength: nat): string {
    " rfc3161=" + Print(tsrLength, 10) + " payload=" + Print(payloadLength, 10) + " "
  }

  /** What follows name and version. */
  function Fields(counts: string, model: seq<byte>, hw: seq<byte>): seq<byte> {
    Ascii(counts) + Ascii("model=") + model + [SPACE] + Ascii("hw=") + hw
  }

  /** The line without its line feed. */
  function Text(tsrLength: nat, payloadLength: nat, model: seq<byte>, hw: seq<byte>): seq<byte> {
    Ascii("RedWax/1.00") + Fields(Counts(tsrLength, payloadLength), model, hw)
  }

  function Line(tsrLength: nat, payloadLength: nat, model: seq<byte>, hw: seq<byte>): seq<byte> {
    Text(tsrLength, payloadLength, model, hw) + [LF]
  }

  lemma FindFromIs(s: seq<byte>, pattern: seq<byte>, i: nat)
    requires Occurs(s, pattern, i) && forall j :: 0 <= j < i ==> !Occurs(s, pattern, j)
    ensures FindFrom(s, pattern, 0) == Some(i)
  {
    hide Occurs;
    var r := FindFrom(s, pattern, 0);
  }

  /** One byte out of place, and the pattern is not there. */
  lemma Differs(s: seq<byte>, pattern: seq<byte>, j: nat, k: nat)
    requires k < |pattern| && j + k < |s| && s[j + k] != pattern[k]
    ensures !Occurs(s, pattern, j)
  {
    if j + |pattern| <= |s| {
      assert s[j..j + |pattern|][k] == s[j + k];
    }
  }

  /** A pattern whose first byte is new is first found where it was put. */
  lemma FirstFound(front: seq<byte>, pattern: seq<byte>, rest: seq<byte>)
    requires pattern != [] && pattern[0] !in front
    ensures FindFrom(front + pattern + rest, pattern, 0) == Some(|front|)
  {
    var s := front + pattern + rest;
    assert s[|front|..|front| + |pattern|] == pattern;
    forall j | 0 <= j < |front|
      ensures !Occurs(s, pattern, j)
    {
      assert s[j] == front[j];
      Differs(s, pattern, j, 0);
    }
    FindFromIs(s, pattern, |front|);
  }

  /** The same behind a word that holds no whole pattern and a separator the pattern has none of. */
  lemma FoundBehind(front: seq<byte>, word: seq<byte>, sep: byte, pattern: seq<byte>, rest: seq<byte>)
    requires pattern != [] && pattern[0] !in front && sep !in pattern
    requires forall j: nat :: !Occurs(word, pattern, j)
    ensures FindFrom(front + word + [sep] + pattern + rest, pattern, 0) == Some(|front| + |word| + 1)
  {
    var s := front + word + [sep] + pattern + rest;
    var at := |front| + |word| + 1;
    assert s[at..at + |pattern|] == pattern;
    forall j | 0 <= j < at
      ensures !Occurs(s, pattern, j)
    {
      if j < |front| {
        assert s[j] == front[j];
        Differs(s, pattern, j, 0);
      } else if j + |pattern| < at {
        InWord(front, word, [sep] + pattern + rest, pattern, j - |front|);
        assert s == front + word + ([sep] + pattern + rest);
      } else {
        assert s[at - 1] == sep;
        Differs(s, pattern, j, at - 1 - j);
      }
    }
    FindFromIs(s, pattern, at);
  }

  /** A pattern that a word holds is found inside the word. */
  lemma FoundInside(front: seq<byte>, word: seq<byte>, pattern: seq<byte>, rest: seq<byte>)
    requires pattern != [] && pattern[0] !in front && FindFrom(word, pattern, 0).Some?
    ensures FindFrom(front + word + rest, pattern, 0) == Some(|front| + FindFrom(word, pattern, 0).value)
  {
    var s := front + word + rest;
    var at := FindFrom(word, pattern, 0).value;
    assert s[|front| + at..|front| + at + |pattern|] == word[at..at + |pattern|];
    forall j | 0 <= j < |front| + at
      ensures !Occurs(s, pattern, j)
    {
      if j < |front| {
        assert s[j] == front[j];
        Differs(s, pattern, j, 0);
      } else {
        InWord(front, word, rest, pattern, j - |front|);
      }
    }
    FindFromIs(s, pattern, |front| + at);
  }

  lemma InWord(front: seq<byte>, word: seq<byte>, rest: seq<byte>, pattern: seq<byte>, j: nat)
    requires j + |pattern| <= |word| && !Occurs(word, pattern, j)
    ensures !Occurs(front + word + rest, pattern, |front| + j)
  {
    var s := front + word + rest;
    assert s[|front| + j..|front| + j + |pattern|] == word[j..j + |pattern|];
  }

  /** The value behind a key: the word up to the next space, or the last word of the text. */
  lemma ValueAt(text: seq<byte>, key: seq<byte>, at: nat, word: seq<byte>, rest: seq<byte>)
    requires |word| <= MAX_VALUE && SPACE !in word && (rest == [] || rest[0] == SPACE)
    requires FindFrom(text, key + Ascii("="), 0) == Some(at)
    requires text[at + |key| + 1..] == word + rest
    ensures ValueFromHeader(text, key) == word
  {
    var v := word + rest;
    if rest != [] {
      assert v[..|word|] == word;
      IndexOfIs(v, SPACE, |word|);
    } else {
      assert v == word;
    }
  }

  /** Characters of one byte that are none of those the searches look for. */
  predicate Quiet(s: string) {
    forall i :: 0 <= i < |s| ==> '\n' < s[i] <= '~' && s[i] != 'm' && s[i] != 'h'
  }

  lemma ByteOf(c: char)
    requires c <= '~'
    ensures ((c as int % 256) as byte) as int == c as int
  {
  }

  lemma OneByte(c: char, d: char)
    requires c <= '~' && d <= '~' && c != d
    ensures (c as int % 256) as byte != (d as int % 256) as byte
  {
    ByteOf(c);
    ByteOf(d);
  }

  lemma AsciiLacks(s: string, c: char)
    requires c <= '~' && (forall i :: 0 <= i < |s| ==> s[i] <= '~' && s[i] != c)
    ensures Ascii([c])[0] !in Ascii(s)
  {
    forall i | 0 <= i < |s|
      ensures Ascii(s)[i] != Ascii([c])[0]
    {
      OneByte(s[i], c);
    }
  }

  lemma AsciiJoin(s: string, t: string)
    ensures Ascii(s + t) == Ascii(s) + Ascii(t)
  {
  }

  lemma NumeralIsQuiet(s: string)
    requires IsNumeral(s, 10)
    ensures Quiet(s)
  {
  }

  lemma SpecialBytes()
    ensures Ascii("\0")[0] == 0 && Ascii("\n")[0] == LF && Ascii(" ")[0] == SPACE
  {
  }

  lemma CountsAreQuiet(tsrLength: nat, payloadLength: nat)
    ensures Quiet(Counts(tsrLength, payloadLength)) && Counts(tsrLength, payloadLength)[0] == ' '
  {
    hide Print, IsNumeral, ValueOf;
    NumeralIsQuiet(Print(tsrLength, 10));
    NumeralIsQuiet(Print(payloadLength, 10));
  }

  /** Quiet text hides neither key, and no line feed or NUL. */
  lemma QuietLacks(s: string)
    requires Quiet(s)
    ensures Ascii("model=")[0] !in Ascii(s) && Ascii("hw=")[0] !in Ascii(s) && LF !in Ascii(s) && 0 !in Ascii(s)
  {
    SpecialBytes();
    AsciiLacks(s, 'm');
    AsciiLacks(s, 'h');
    AsciiLacks(s, '\n');
    AsciiLacks(s, '\0');
    assert Ascii("model=")[0] == Ascii("m")[0] && Ascii("hw=")[0] == Ascii("h")[0];
  }

  lemma FixedWords()
    ensures Ascii("hw=")[0] !in Ascii("model=") && SPACE !in Ascii("hw=") && SPACE !in Ascii("RedWax/1.00")
    ensures LF !in Ascii("RedWax/1.00") && LF !in Ascii("model=") && LF !in Ascii("hw=")
    ensures 0 !in Ascii("RedWax/1.00") && 0 !in Ascii("model=") && 0 !in Ascii("hw=")
    ensures Ascii("model=") == Ascii("model") + Ascii("=") && Ascii("hw=") == Ascii("hw") + Ascii("=")
  {
    SpecialBytes();
    AsciiLacks("model=", 'h');
    assert Ascii("hw=")[0] == Ascii("h")[0];
    AsciiLacks("hw=", ' ');
    AsciiLacks("RedWax/1.00", ' ');
    AsciiLacks("RedWax/1.00", '\n');
    AsciiLacks("model=", '\n');
    AsciiLacks("hw=", '\n');
    AsciiLacks("RedWax/1.00", '\0');
    AsciiLacks("model=", '\0');
    AsciiLacks("hw=", '\0');
    AsciiJoin("model", "=");
    AsciiJoin("hw", "=");
  }

  lemma ModelFound(counts: string, model: seq<byte>, hw: seq<byte>)
    requires Quiet(counts) && IsWord(model)
    ensures ValueFromHeader(Fields(counts, model, hw), Ascii("model")) == model
  {
    hide Ascii, ValueFromHeader;
    QuietLacks(counts);
    FixedWords();
    var rest := [SPACE] + Ascii("hw=") + hw;
    var text := Fields(counts, model, hw);
    assert text == Ascii(counts) + Ascii("model=") + (model + rest);
    FirstFound(Ascii(counts), Ascii("model="), model + rest);
    assert text[|counts| + 6..] == model + rest;
    ValueAt(text, Ascii("model"), |counts|, model, rest);
  }

  /** The revision a line is read to have: what follows hw= in the model, if that is there, or else the revision. */
  function Revision(model: seq<byte>, hw: seq<byte>): seq<byte> {
    match FindFrom(model, Ascii("hw="), 0)
    case None => hw
    case Some(i) => model[i + 3..]
  }

  lemma RevisionInField(counts: string, model: seq<byte>, hw: seq<byte>)
    requires Quiet(counts) && IsWord(hw) && FindFrom(model, Ascii("hw="), 0).None?
    ensures ValueFromHeader(Fields(counts, model, hw), Ascii("hw")) == hw
  {
    hide Ascii, ValueFromHeader, Occurs;
    QuietLacks(counts);
    FixedWords();
    var front := Ascii(counts) + Ascii("model=");
    var text := Fields(counts, model, hw);
    FoundBehind(front, model, SPACE, Ascii("hw="), hw);
    assert text[|front| + |model| + 4..] == hw + [];
    ValueAt(text, Ascii("hw"), |front| + |model| + 1, hw, []);
  }

  lemma DropWithin(front: seq<byte>, word: seq<byte>, rest: seq<byte>, k: nat)
    requires k <= |word|
    ensures (front + word + rest)[|front| + k..] == word[k..] + rest
  {
  }

  lemma RevisionInModel(counts: string, model: seq<byte>, hw: seq<byte>)
    requires Quiet(counts) && IsWord(model) && FindFrom(model, Ascii("hw="), 0).Some?
    ensures ValueFromHeader(Fields(counts, model, hw), Ascii("hw")) == Revision(model, hw)
  {
    hide Ascii, ValueFromHeader;
    QuietLacks(counts);
    FixedWords();
    var front := Ascii(counts) + Ascii("model=");
    var rest := [SPACE] + Ascii("hw=") + hw;
    var text := Fields(counts, model, hw);
    var i := FindFrom(model, Ascii("hw="), 0).value;
    assert text == front + model + rest;
    FoundInside(front, model, Ascii("hw="), rest);
    assert i + 3 <= |model|;
    hide FindFrom, Occurs, Fields;
    DropWithin(front, model, rest, i + 3);
    ValueAt(text, Ascii("hw"), |front| + i, model[i + 3..], rest);
  }

  lemma RevisionFound(counts: string, model: seq<byte>, hw: seq<byte>)
    requires Quiet(counts) && IsWord(model) && IsWord(hw)
    ensures ValueFromHeader(Fields(counts, model, hw), Ascii("hw")) == Revision(model, hw)
  {
    hide Ascii, ValueFromHeader, Fields, Occurs, FindFrom;
    if FindFrom(model, Ascii("hw="), 0).None? {
      RevisionInField(counts, model, hw);
    } else {
      RevisionInModel(counts, model, hw);
    }
  }

  lemma FieldsAreClean(counts: string, model: seq<byte>, hw: seq<byte>)
    requires Quiet(counts) && IsWord(model) && IsWord(hw)
    ensures LF !in Fields(counts, model, hw) && 0 !in Fields(counts, model, hw)
  {
    QuietLacks(counts);
    FixedWords();
    hide Ascii;
  }

  lemma Headed(front: seq<byte>, rest: seq<byte>)
    requires LF !in front && LF !in rest && 0 !in front && 0 !in rest
    requires SPACE !in front && rest != [] && rest[0] == SPACE
    ensures LF !in front + rest && CString(front + rest) == front + rest
    ensures IndexOf(front + rest, SPACE) == Some(|front|) && (front + rest)[|front|..] == rest
  {
    var s := front + rest;
    assert s[..|front|] == front && s[|front|] == SPACE;
    IndexOfIs(s, SPACE, |front|);
  }

  /** One line, no NUL, and its first space ends the version. */
  lemma LineIsClean(tsrLength: nat, payloadLength: nat, model: seq<byte>, hw: seq<byte>)
    requires IsWord(model) && IsWord(hw)
    ensures var text := Text(tsrLength, payloadLength, model, hw);
            && LF !in text && CString(text) == text && |text| > 11 && IndexOf(text, SPACE) == Some(11)
            && text[11..] == Fields(Counts(tsrLength, payloadLength), model, hw)
  {
    hide Print, Fields, CString, IndexOf;
    var counts := Counts(tsrLength, payloadLength);
    CountsAreQuiet(tsrLength, payloadLength);
    FieldsAreClean(counts, model, hw);
    FixedWords();
    FieldsStart(counts, model, hw);
    Headed(Ascii("RedWax/1.00"), Fields(counts, model, hw));
  }

  lemma FieldsStart(counts: string, model: seq<byte>, hw: seq<byte>)
    requires counts != "" && counts[0] == ' '
    ensures Fields(counts, model, hw) != [] && Fields(counts, model, hw)[0] == SPACE
  {
    SpecialBytes();
    assert Ascii(counts)[0] == Ascii(" ")[0];
    hide Ascii;
  }

  /**
   The device check lets a line of the signing script through exactly when the model is the device's and
   the revision read is there and is the device's. That is the script's revision unless the model itself
   contains the text hw=, which the search takes for the key.
   */
  lemma DeviceReadsLine(env: Env, tsrLength: nat, payloadLength: nat, model: seq<byte>, hw: seq<byte>)
    requires IsWord(model) && IsWord(hw)
    ensures DeviceMatches(env, Text(tsrLength, payloadLength, model, hw))
       <==> model == env.model && Revision(model, hw) == env.hwRev != []
    ensures (forall j: nat :: !Occurs(model, Ascii("hw="), j)) ==> Revision(model, hw) == hw
  {
    hide Ascii, ValueFromHeader, Occurs, Print;
    var counts := Counts(tsrLength, payloadLength);
    var text := Text(tsrLength, payloadLength, model, hw);
    CountsAreQuiet(tsrLength, payloadLength);
    LineIsClean(tsrLength, payloadLength, model, hw);
    ModelFound(counts, model, hw);
    RevisionFound(counts, model, hw);
    hide Fields;
  }
}
