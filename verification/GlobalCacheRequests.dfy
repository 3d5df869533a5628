/** GlobalCache requests: the checks before a `sendir` is sent, the parser the reply relies on, and the reply itself. */
module GlobalCacheRequests {
  import opened Bytes
  import opened Numerals

  /** The command buffer, terminator included. */
  const COMMAND_SIZE := 17

  /** The reply buffer, terminator included. */
  const RESPONSE_SIZE := 24

  /** What `sendGlobalCache` decides: an iTach error code, or what it passes on to `send`. */
  datatype Check = Refuse(code: nat) | Send(port: nat, repeat: nat)

  datatype Request = Bad(code: nat) | Good(command: string, mod: nat, port: nat, param: Option<string>)

  /** The text after the first `c`, as strchr plus one. */
  function After(s: string, c: char): Option<string> {
    match IndexOf(s, c)
    case None => None
    case Some(i) => Some(s[i + 1..])
  }

  function Atoi(s: string): int {
    ToInt(ScanNumber(s, 10))
  }

  /** What 16 signed bits keep. */
  function Int16(n: int): int {
    (n + 0x8000) % 0x1_0000 - 0x8000
  }

  function SendGlobalCache(sendir: string): Check {
    if !("sendir,1:" <= sendir) then Refuse(2)
    else
      var address := sendir[9..];
      match After(address, ',')
      case None => Refuse(4)
      case Some(id) =>
        if !(1 <= Atoi(address) <= 15) then Refuse(3)
        else
          match After(id, ',')
          case None => Refuse(5)
          case Some(frequency) =>
            match After(frequency, ',')
            case None => Refuse(6)
            case Some(repeat) =>
              if 1 <= Int16(Atoi(repeat)) <= 50 then Send(Atoi(address), Int16(Atoi(repeat))) else Refuse(6)
  }

  /** The emitters a port drives: internal side, internal top, external 1 and external 2. */
  datatype Outputs = Outputs(side: bool, top: bool, ext1: bool, ext2: bool)

  function OutputsOf(port: nat): Outputs {
    Outputs(port % 2 == 1, port / 8 % 2 == 1, port / 2 % 2 == 1, port / 4 % 2 == 1)
  }

  function ParseRequest(request: string): Request {
    match IndexOf(request, ',')
    case None =>
      if |request| >= COMMAND_SIZE then Bad(1) else Good(request, 0, 0, None)
    case Some(comma) =>
      if comma >= COMMAND_SIZE then Bad(1)
      else
        var command, current := request[..comma], request[comma + 1..];
        if ',' !in current && ':' !in current then Good(command, 0, 0, Some(current))
        else if Atoi(current) != 1 then Bad(2)
        else
          match After(current, ':')
          case None => Bad(3)
          case Some(port) =>
            if 1 <= Atoi(port) <= 15 then Good(command, 1, Atoi(port), After(port, ',')) else Bad(3)
  }

  class GCMsg {
    var command: string
    var mod: nat
    var port: nat
    var param: Option<string>

    function Value(): Request
      reads this
    {
      Good(command, mod, port, param)
    }
  }

  /** A missing request or target is reported as success with nothing stored, as the source does. */
  method ParseGcRequest(request: Option<string>, msg: GCMsg?) returns (code: nat)
    modifies msg
    ensures request.None? || msg == null ==> code == 0
    ensures request.Some? && msg != null ==>
              match ParseRequest(request.value)
              case Bad(c) => code == c
              case parsed => code == 0 && msg.Value() == parsed
  {
    hide ScanNumber, IndexOf;
    if request.None? || msg == null {
      return 0;
    }
    var text := request.value;
    var next := IndexOf(text, ',');
    if next.None? {
      if |text| >= COMMAND_SIZE {
        return 1;
      }
      msg.command, msg.mod, msg.port, msg.param := text, 0, 0, None;
      return 0;
    }
    if next.value >= COMMAND_SIZE {
      return 1;
    }
    msg.command := text[..next.value];
    var current := text[next.value + 1..];
    next := IndexOf(current, ',');
    if next.None? {
      next := IndexOf(current, ':');
      if next.None? {
        msg.mod, msg.port, msg.param := 0, 0, Some(current);
        return 0;
      }
    }
    var mod := Atoi(current);
    if mod != 1 {
      return 2;
    }
    msg.mod := mod;
    var address := After(current, ':');
    if address.None? {
      return 3;
    }
    var port := Atoi(address.value);
    if port < 1 || port > 15 {
      return 3;
    }
    msg.port := port;
    msg.param := After(address.value, ',');
    return 0;
  }

  lemma AddressOf(s: string)
    requires "sendir,1:" <= s && ',' in s[9..]
    ensures IndexOf(s, ',') == Some(6) && s[..6] == "sendir"
    ensures ',' in s[7..] && Atoi(s[7..]) == 1 && After(s[7..], ':') == Some(s[9..])
  {
    assert s[..9] == "sendir,1:";
    assert s[6] == ',' && s[..6] == s[..9][..6] == "sendir";
    IndexOfIs(s, ',', 6);
    var t := s[7..];
    assert t[0] == s[7] == '1' && t[1] == s[8] == ':' && t[2..] == s[9..];
    assert ',' in t[2..];
    assert t[..1] == "1";
    IndexOfIs(t, ':', 1);
    OneIsOne(t);
  }

  lemma OneIsOne(t: string)
    requires |t| > 1 && t[0] == '1' && t[1] == ':'
    ensures Atoi(t) == 1
  {
    assert t == "1" + t[1..];
    ScansNumeral("1", t[1..], 10);
    assert ValueOf("1", 10) == ValueOf("", 10) * 10 + 1;
  }

  /**
   A request that passes the prefix and port checks is one the parser accepts, with the same port: the
   two disagree on no such request, and refuse the same ports.
   */
  lemma SamePort(s: string)
    requires "sendir,1:" <= s && ',' in s[9..]
    ensures ParseRequest(s).Good? <==> SendGlobalCache(s) != Refuse(3)
    ensures ParseRequest(s).Good? ==> ParseRequest(s) == Good("sendir", 1, Atoi(s[9..]), After(s[9..], ','))
    ensures SendGlobalCache(s).Send? ==> ParseRequest(s).Good? && ParseRequest(s).port == SendGlobalCache(s).port
  {
    hide ScanNumber, IndexOf, Int16, ToInt;
    AddressOf(s);
    var address := s[9..];
    assert ParseRequest(s) ==
           if 1 <= Atoi(address) <= 15 then Good("sendir", 1, Atoi(address), After(address, ',')) else Bad(3);
    hide ParseRequest;
  }

  lemma AfterFirst(front: string, c: char, rest: string)
    requires c !in front
    ensures After(front + [c] + rest, c) == Some(rest) && IndexOf(front + [c] + rest, c) == Some(|front|)
  {
    var s := front + [c] + rest;
    assert s[..|front|] == front && s[|front| + 1..] == rest;
    IndexOfIs(s, c, |front|);
  }

  lemma AtoiPrinted(n: nat, rest: string)
    requires n <= INT_MAX && Ends(rest, 10)
    ensures Atoi(Print(n, 10) + rest) == n
  {
    hide Print;
    ScansNumeral(Print(n, 10), rest, 10);
  }

  /** A `sendir` request for a port, with a repeat count, as a client writes it. */
  function Sendir(port: nat, id: string, frequency: string, repeat: nat, code: string): string {
    "sendir,1:" + (Print(port, 10) + "," + (id + "," + (frequency + "," + (Print(repeat, 10) + "," + code))))
  }

  /** What the checks come to when the four leading fields are there. */
  lemma SendSteps(s: string, id: string, frequency: string, repeat: string)
    requires "sendir,1:" <= s && After(s[9..], ',') == Some(id)
    requires After(id, ',') == Some(frequency) && After(frequency, ',') == Some(repeat)
    ensures SendGlobalCache(s) ==
            if !(1 <= Atoi(s[9..]) <= 15) then Refuse(3)
            else if 1 <= Int16(Atoi(repeat)) <= 50 then Send(Atoi(s[9..]), Int16(Atoi(repeat)))
            else Refuse(6)
  {
    hide After, Atoi, Int16;
  }

  /**
   A written request is accepted exactly for ports 1 to 15 and repeat counts of which 16 bits are 1 to
   50; it is then sent to its own port, with those 16 bits for the count. So larger counts can pass.
   */
  lemma SendsWhatIsAsked(port: nat, id: string, frequency: string, repeat: nat, code: string)
    requires port <= INT_MAX && repeat <= INT_MAX && ',' !in id && ',' !in frequency
    ensures SendGlobalCache(Sendir(port, id, frequency, repeat, code)) ==
            if !(1 <= port <= 15) then Refuse(3)
            else if 1 <= Int16(repeat) <= 50 then Send(port, Int16(repeat))
            else Refuse(6)
  {
    hide ScanNumber, IndexOf, Print, ValueOf, IsNumeral, ToInt, Int16, Atoi, After, SendGlobalCache;
    var last := Print(repeat, 10) + "," + code;
    var s3 := frequency + "," + last;
    var s2 := id + "," + s3;
    var address := Print(port, 10) + "," + s2;
    NumeralHasNo(Print(port, 10), 10, ',');
    AfterFirst(Print(port, 10), ',', s2);
    AfterFirst(id, ',', s3);
    AfterFirst(frequency, ',', last);
    assert address == Print(port, 10) + ("," + s2);
    AtoiPrinted(port, "," + s2);
    assert last == Print(repeat, 10) + ("," + code);
    AtoiPrinted(repeat, "," + code);
    var s := Sendir(port, id, frequency, repeat, code);
    assert s[..9] == "sendir,1:" && s[9..] == address;
    SendSteps(s, s2, s3, last);
  }

  /** Which counts pass: all whose low 16 bits are 1 to 50, with those bits as the value. */
  lemma LowBits(n: nat)
    ensures 1 <= Int16(n) <= 50 <==> 1 <= n % 0x1_0000 <= 50
    ensures 1 <= Int16(n) <= 50 ==> Int16(n) == n % 0x1_0000
  {
  }

  /** A written request with module, port and parameters is parsed back to its parts, for ports 1 to 15. */
  lemma ParsesWhatIsWritten(command: string, port: nat, param: string)
    requires ',' !in command && |command| < COMMAND_SIZE && port <= INT_MAX
    ensures ParseRequest(command + "," + ("1:" + (Print(port, 10) + "," + param))) ==
            if 1 <= port <= 15 then Good(command, 1, port, Some(param)) else Bad(3)
  {
    hide ScanNumber, IndexOf, Print, ValueOf, IsNumeral, ToInt, Atoi, After;
    var address := Print(port, 10) + "," + param;
    var current := "1:" + address;
    var request := command + "," + current;
    AfterFirst(command, ',', current);
    assert request[..|command|] == command && request[|command| + 1..] == current;
    assert current[1] == ':' && current == "1" + ":" + address;
    AfterFirst("1", ':', address);
    OneIsOne(current);
    NumeralHasNo(Print(port, 10), 10, ',');
    AfterFirst(Print(port, 10), ',', param);
    assert address == Print(port, 10) + ("," + param);
    AtoiPrinted(port, "," + param);
    assert ':' in current;
  }

  /** A port is determined by the emitters it drives. */
  lemma OutputsDeterminePort(p: nat, q: nat)
    requires 1 <= p <= 15 && 1 <= q <= 15 && OutputsOf(p) == OutputsOf(q)
    ensures p == q
  {
    assert p == p % 2 + 2 * (p / 2 % 2) + 4 * (p / 4 % 2) + 8 * (p / 8 % 2);
  }

  /** %d of a 32-bit number. */
  function PrintSigned(n: nat): string
    requires n <= ULONG_MAX
  {
    if n <= INT_MAX then Print(n, 10) else "-" + Print(ULONG_MAX + 1 - n, 10)
  }

  function CompletionText(mod: nat, port: nat, msgId: nat): string
    requires msgId <= ULONG_MAX
  {
    "completeir," + Print(mod, 10) + ":" + Print(port, 10) + "," + PrintSigned(msgId) + "\r"
  }

  /** The reply buffer keeps the first 23 characters. */
  function Cut(text: string): string {
    if |text| < RESPONSE_SIZE then text else text[..RESPONSE_SIZE - 1]
  }

  /** The reply to a `sendir`: module and port from the request, or 1:1, cut off at the buffer. */
  function Completion(message: string, msgId: nat): string
    requires msgId <= ULONG_MAX
  {
    var (mod, port) := match ParseRequest(message)
                       case Bad(_) => (1, 1)
                       case Good(_, m, p, _) => (m, p);
    Cut(CompletionText(mod, port, msgId))
  }

  lemma {:induction false} PrintedLength(v: nat, digits: nat)
    requires digits == 1 ==> v < 10
    requires digits == 2 ==> 10 <= v < 100
    requires digits == 1 || digits == 2
    ensures |Print(v, 10)| == digits
  {
    if digits == 2 {
      PrintedLength(v / 10, 1);
    }
  }

  lemma CutAt(front: string, id: string)
    requires '\r' !in front && '\r' !in id && |front| <= 20
    ensures front <= Cut(front + id + "\r")
    ensures '\r' in Cut(front + id + "\r") <==> |front| + |id| <= 22
  {
    var text := front + id + "\r";
    if |front| + |id| <= 22 {
      assert text[|front| + |id|] == '\r';
    } else {
      assert Cut(text) == (front + id)[..23];
    }
  }

  /** Digits and signs only. */
  lemma NoReturn(n: nat)
    requires n <= ULONG_MAX
    ensures '\r' !in Print(n, 10) && '\r' !in PrintSigned(n)
  {
    hide Print, ValueOf, IsNumeral;
    NumeralHasNo(Print(n, 10), 10, '\r');
    if n > INT_MAX {
      NumeralHasNo(Print(ULONG_MAX + 1 - n, 10), 10, '\r');
    }
  }

  lemma FrontOf(port: nat, msgId: nat)
    requires 1 <= port <= 15 && msgId <= ULONG_MAX
    ensures CompletionText(1, port, msgId) == ("completeir,1:" + Print(port, 10) + ",") + PrintSigned(msgId) + "\r"
  {
    hide PrintSigned;
    assert Print(1, 10) == "1";
    var p := Print(port, 10);
    assert "completeir," + "1" + ":" == "completeir,1:";
  }

  lemma ReplyText(port: nat, msgId: nat)
    requires 1 <= port <= 15 && msgId <= ULONG_MAX
    ensures var sent := Cut(CompletionText(1, port, msgId));
            && "completeir,1:" + Print(port, 10) + "," <= sent
            && ('\r' in sent <==> |Print(port, 10)| + |PrintSigned(msgId)| <= 8)
  {
    hide Print, PrintSigned, CompletionText, Cut, ValueOf, IsNumeral;
    PrintedLength(port, if port < 10 then 1 else 2);
    FrontOf(port, msgId);
    NoReturn(port);
    NoReturn(msgId);
    var front := "completeir,1:" + Print(port, 10) + ",";
    assert |front| == 14 + |Print(port, 10)|;
    CutAt(front, PrintSigned(msgId));
  }

  /**
   The reply names the port whose emitters were driven, the only one that drives these. It keeps its final
   carriage return exactly when port and request number together have at most eight characters; longer ones are
   cut off.
   */
  lemma ReplyNamesPort(s: string, msgId: nat)
    requires SendGlobalCache(s).Send? && msgId <= ULONG_MAX
    ensures var port := SendGlobalCache(s).port;
            && 1 <= port <= 15
            && "completeir,1:" + Print(port, 10) + "," <= Completion(s, msgId)
            && (forall p :: 1 <= p <= 15 && OutputsOf(p) == OutputsOf(port) ==> p == port)
            && ('\r' in Completion(s, msgId) <==> |Print(port, 10)| + |PrintSigned(msgId)| <= 8)
  {
    hide Print, PrintSigned, Cut, CompletionText, OutputsOf;
    SamePort(s);
    var port := SendGlobalCache(s).port;
    ReplyText(port, msgId);
    forall p | 1 <= p <= 15 && OutputsOf(p) == OutputsOf(port)
      ensures p == port
    {
      OutputsDeterminePort(p, port);
    }
  }
}
