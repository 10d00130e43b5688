/** The per-user view of an adb server: smart-socket framing and device-list filtering.
    A string stands for a byte stream, one character per byte. */
module AdbFilter {
  import opened Basics
  import opened Texts

  const FRAME_LIMIT: nat := 0x1_0000

  // ----- framing -----

  const DIGITS: string := "0123456789abcdef"

  function HexVal(c: char): Option<nat> {
    if '0' <= c <= '9' then Some((c - '0') as nat)
    else if 'a' <= c <= 'f' then Some((c - 'a') as nat + 10)
    else if 'A' <= c <= 'F' then Some((c - 'A') as nat + 10)
    else None
  }

  function Digit(d: nat): (c: char)
    requires d < 16
    ensures HexVal(c) == Some(d) && ('0' <= c <= '9' || 'a' <= c <= 'f')
  {
    DIGITS[d]
  }

  /** Lower-case hexadecimal, padded to at least four digits. */
  function Hex(n: nat): (s: string)
    ensures |s| >= 4 && forall i :: 0 <= i < |s| ==> '0' <= s[i] <= '9' || 'a' <= s[i] <= 'f'
    decreases n
  {
    if n < FRAME_LIMIT then
      [Digit(n / 16 / 16 / 16), Digit(n / 16 / 16 % 16), Digit(n / 16 % 16), Digit(n % 16)]
    else Hex(n / 16) + [Digit(n % 16)]
  }

  function ParseHex4(s: string): Option<nat>
    requires |s| == 4
  {
    var a, b, c, d := HexVal(s[0]), HexVal(s[1]), HexVal(s[2]), HexVal(s[3]);
    if a.Some? && b.Some? && c.Some? && d.Some? then
      Some(((a.value * 16 + b.value) * 16 + c.value) * 16 + d.value)
    else None
  }

  function WriteMsg(m: string): string { Hex(|m|) + m }

  /** A message and what is left unread. */
  function ReadMsg(s: string): (r: Option<(string, string)>)
    ensures r.Some? ==> |r.value.0| + |r.value.1| + 4 == |s|
  {
    if |s| < 4 then None
    else
      match ParseHex4(s[..4])
      case None => None
      case Some(n) => if |s| < 4 + n then None else Some((s[4..4 + n], s[4 + n..]))
  }

  lemma Nibbles(n: nat)
    requires n < FRAME_LIMIT
    ensures n / 16 / 16 / 16 < 16
    ensures ((n / 16 / 16 / 16 * 16 + n / 16 / 16 % 16) * 16 + n / 16 % 16) * 16 + n % 16 == n
  {}

  lemma FourDigits(n: nat)
    requires n < FRAME_LIMIT
    ensures |Hex(n)| == 4 && ParseHex4(Hex(n)) == Some(n)
  {
    hide HexVal, Digit;
    Nibbles(n);
    var a, b, c, d := n / 16 / 16 / 16, n / 16 / 16 % 16, n / 16 % 16, n % 16;
    ParseDigits(a, b, c, d);
  }

  lemma ParseDigits(a: nat, b: nat, c: nat, d: nat)
    requires a < 16 && b < 16 && c < 16 && d < 16
    ensures ParseHex4([Digit(a), Digit(b), Digit(c), Digit(d)]) == Some(((a * 16 + b) * 16 + c) * 16 + d)
  {
    hide HexVal, Digit;
  }

  /** The first four digits stand for the number itself, or for a smaller one if it needs more. */
  lemma {:induction false} LeadingDigits(n: nat)
    ensures ParseHex4(Hex(n)[..4]).Some?
    ensures if n < FRAME_LIMIT then |Hex(n)| == 4 && ParseHex4(Hex(n)[..4]) == Some(n)
            else ParseHex4(Hex(n)[..4]).value < n
    decreases n
  {
    hide ParseHex4;
    if n < FRAME_LIMIT {
      FourDigits(n);
      assert Hex(n)[..4] == Hex(n);
    } else {
      LeadingDigits(n / 16);
      assert Hex(n)[..4] == Hex(n / 16)[..4];
    }
  }

  /** A written message is read back, and the rest left unread, exactly when its length fits the
      four digits. */
  lemma MessageRoundTrip(m: string, rest: string)
    ensures ReadMsg(WriteMsg(m) + rest) == Some((m, rest)) <==> |m| <= 65535
  {
    LeadingDigits(|m|);
    var s := WriteMsg(m) + rest;
    assert s[..4] == Hex(|m|)[..4];
    if |m| < FRAME_LIMIT {
      assert s[4..4 + |m|] == m && s[4 + |m|..] == rest;
    }
  }

  // ----- filtering a device list -----

  function Word(s: string): string {
    if s == "" || IsSpace(s[0]) then "" else [s[0]] + Word(s[1..])
  }

  /** The first whitespace-separated field; "" when there is none. */
  function FirstField(line: string): string { Word(TrimFront(line)) }

  predicate Visible(line: string, allowed: set<string>) {
    FirstField(line) != "" && FirstField(line) in allowed
  }

  function FindNewline(s: string): (i: nat)
    ensures i <= |s|
    ensures i < |s| ==> s[i] == '\n'
    ensures forall k :: 0 <= k < i ==> s[k] != '\n'
  {
    if s == "" || s[0] == '\n' then 0 else 1 + FindNewline(s[1..])
  }

  function DropCR(line: string): string {
    if line != "" && line[|line| - 1] == '\r' then line[..|line| - 1] else line
  }

  /** Lines as a scanner delivers them: the terminator and one carriage return before it are gone,
      a last line without terminator counts, an empty rest does not. */
  function Lines(s: string): seq<string>
    decreases |s|
  {
    if s == "" then []
    else
      var i := FindNewline(s);
      [DropCR(s[..i])] + if i < |s| then Lines(s[i + 1..]) else []
  }

  function Select(lines: seq<string>, allowed: set<string>): seq<string> {
    if lines == [] then []
    else (if Visible(lines[0], allowed) then [lines[0]] else []) + Select(lines[1..], allowed)
  }

  function Join(lines: seq<string>): string {
    if lines == [] then "" else lines[0] + "\n" + Join(lines[1..])
  }

  function Filtered(payload: string, allowed: set<string>): string { Join(Select(Lines(payload), allowed)) }

  predicate PlainLine(line: string) {
    (forall k :: 0 <= k < |line| ==> line[k] != '\n') && (line != "" ==> line[|line| - 1] != '\r')
  }

  lemma {:induction false} LinesOfJoin(lines: seq<string>)
    requires forall l :: l in lines ==> PlainLine(l)
    ensures Lines(Join(lines)) == lines
    decreases |lines|
  {
    if lines != [] {
      var l, rest := lines[0], Join(lines[1..]);
      var s := Join(lines);
      assert s == l + "\n" + rest;
      assert PlainLine(l);
      NewlineAt(s, |l|);
      assert s[..|l|] == l && s[|l| + 1..] == rest;
      LinesOfJoin(lines[1..]);
    }
  }

  lemma NewlineAt(s: string, i: nat)
    requires i < |s| && s[i] == '\n' && forall k :: 0 <= k < i ==> s[k] != '\n'
    ensures FindNewline(s) == i
  {
    assert !(FindNewline(s) < i) && !(FindNewline(s) > i);
  }

  /** Only lines of the payload survive, and the filtered text is never longer. */
  lemma {:induction false} SelectShrinks(lines: seq<string>, allowed: set<string>)
    ensures |Join(Select(lines, allowed))| <= |Join(lines)|
    ensures forall l :: l in Select(lines, allowed) <==> l in lines && Visible(l, allowed)
    decreases |lines|
  {
    if lines != [] {
      SelectShrinks(lines[1..], allowed);
      var rest := Select(lines[1..], allowed);
      if Visible(lines[0], allowed) {
        assert Select(lines, allowed) == [lines[0]] + rest;
        assert Select(lines, allowed)[1..] == rest;
      } else {
        assert Select(lines, allowed) == rest;
      }
      assert forall l :: l in lines <==> l == lines[0] || l in lines[1..];
    }
  }

  // ----- relaying a whole tracking stream -----

  const OKAY: string := "OKAY"

  /** What is written for the payloads that follow OKAY; allowed(k) is the list in force at the k-th. */
  function TrackPayloads(s: string, allowed: nat -> set<string>, k: nat): string
    decreases |s|
  {
    match ReadMsg(s)
    case None => ""
    case Some(m) => WriteMsg(Filtered(m.0, allowed(k))) + TrackPayloads(m.1, allowed, k + 1)
  }

  function Relayed(s: string): string {
    match ReadMsg(s)
    case None => ""
    case Some(m) => WriteMsg(m.0)
  }

  function Track(s: string, allowed: nat -> set<string>): string {
    if |s| < 4 then ""
    else if s[..4] != OKAY then s[..4] + Relayed(s[4..])
    else OKAY + TrackPayloads(s[4..], allowed, 0)
  }

  function Frames(payloads: seq<string>): string {
    if payloads == [] then "" else WriteMsg(payloads[0]) + Frames(payloads[1..])
  }

  function FilterAll(lists: seq<seq<string>>, allowed: nat -> set<string>, k: nat): seq<seq<string>>
    decreases |lists|
  {
    if lists == [] then [] else [Select(lists[0], allowed(k))] + FilterAll(lists[1..], allowed, k + 1)
  }

  function JoinAll(lists: seq<seq<string>>): (out: seq<string>)
    ensures |out| == |lists| && forall i :: 0 <= i < |lists| ==> out[i] == Join(lists[i])
  {
    if lists == [] then [] else [Join(lists[0])] + JoinAll(lists[1..])
  }

  /** Device lists of plain lines, each small enough for one frame. */
  predicate Sendable(lists: seq<seq<string>>) {
    forall i :: 0 <= i < |lists| ==>
      |Join(lists[i])| < FRAME_LIMIT && forall l :: l in lists[i] ==> PlainLine(l)
  }

  lemma {:induction false} PayloadsFiltered(lists: seq<seq<string>>, tail: string, allowed: nat -> set<string>, k: nat)
    requires Sendable(lists) && ReadMsg(tail) == None
    ensures TrackPayloads(Frames(JoinAll(lists)) + tail, allowed, k) == Frames(JoinAll(FilterAll(lists, allowed, k)))
    decreases |lists|
  {
    if lists == [] {
      assert Frames(JoinAll(lists)) + tail == tail;
    } else {
      var p := Join(lists[0]);
      var rest := Frames(JoinAll(lists[1..])) + tail;
      assert JoinAll(lists)[1..] == JoinAll(lists[1..]);
      assert Frames(JoinAll(lists)) + tail == WriteMsg(p) + rest;
      MessageRoundTrip(p, rest);
      LinesOfJoin(lists[0]);
      PayloadsFiltered(lists[1..], tail, allowed, k + 1);
      assert JoinAll(FilterAll(lists, allowed, k))[1..] == JoinAll(FilterAll(lists[1..], allowed, k + 1));
    }
  }

  /** An OKAY followed by any device lists, with any allow-lists in between and any broken end, is
      relayed as OKAY and then exactly the visible lines of each list. */
  lemma TrackFilters(lists: seq<seq<string>>, tail: string, allowed: nat -> set<string>)
    requires Sendable(lists) && ReadMsg(tail) == None
    ensures Track(OKAY + Frames(JoinAll(lists)) + tail, allowed) == OKAY + Frames(JoinAll(FilterAll(lists, allowed, 0)))
  {
    PayloadsFiltered(lists, tail, allowed, 0);
    TrackAfterOkay(Frames(JoinAll(lists)), tail, allowed);
    hide *;
  }

  lemma TrackAfterOkay(frames: string, tail: string, allowed: nat -> set<string>)
    ensures Track(OKAY + frames + tail, allowed) == OKAY + TrackPayloads(frames + tail, allowed, 0)
  {
    hide TrackPayloads, Track;
    TrackOkay(frames + tail, allowed);
    assert OKAY + frames + tail == OKAY + (frames + tail);
  }

  lemma TrackOkay(rest: string, allowed: nat -> set<string>)
    ensures Track(OKAY + rest, allowed) == OKAY + TrackPayloads(rest, allowed, 0)
  {
    hide TrackPayloads;
    assert (OKAY + rest)[..4] == OKAY && (OKAY + rest)[4..] == rest;
  }

  /** How a client reads the payloads of a stream. */
  function Decode(s: string): seq<seq<string>>
    decreases |s|
  {
    match ReadMsg(s)
    case None => []
    case Some(m) => [Lines(m.0)] + Decode(m.1)
  }

  lemma {:induction false} DecodeFrames(lists: seq<seq<string>>)
    requires Sendable(lists)
    ensures Decode(Frames(JoinAll(lists))) == lists
    decreases |lists|
  {
    if lists != [] {
      var rest := Frames(JoinAll(lists[1..]));
      assert JoinAll(lists)[1..] == JoinAll(lists[1..]);
      MessageRoundTrip(Join(lists[0]), rest);
      LinesOfJoin(lists[0]);
      DecodeFrames(lists[1..]);
    }
  }

  lemma {:induction false} FilteredSendable(lists: seq<seq<string>>, allowed: nat -> set<string>, k: nat)
    requires Sendable(lists)
    ensures Sendable(FilterAll(lists, allowed, k))
    decreases |lists|
  {
    if lists != [] {
      SelectShrinks(lists[0], allowed(k));
      FilteredSendable(lists[1..], allowed, k + 1);
    }
  }

  /** The client decodes exactly the visible lines, list by list. */
  lemma ClientSeesVisibleLines(lists: seq<seq<string>>, tail: string, allowed: nat -> set<string>)
    requires Sendable(lists) && ReadMsg(tail) == None
    ensures var out := Track(OKAY + Frames(JoinAll(lists)) + tail, allowed);
      |out| >= 4 && out[..4] == OKAY && Decode(out[4..]) == FilterAll(lists, allowed, 0)
  {
    TrackFilters(lists, tail, allowed);
    FilteredSendable(lists, allowed, 0);
    DecodeFrames(FilterAll(lists, allowed, 0));
    var frames := Frames(JoinAll(FilterAll(lists, allowed, 0)));
    assert (OKAY + frames)[..4] == OKAY && (OKAY + frames)[4..] == frames;
  }

  // ----- whose phones a client sees -----

  /** A phone as a list line: white space, its serial, and what follows behind white space. */
  datatype Phone = Phone(pad: string, serial: string, rest: string)

  function LineOf(p: Phone): string { p.pad + p.serial + p.rest }

  predicate WellFormedPhone(p: Phone) {
    && AllSpace(p.pad) && p.serial != "" && NoSpace(p.serial) && (p.rest == "" || IsSpace(p.rest[0]))
    && PlainLine(LineOf(p))
  }

  lemma {:induction false} WordOf(serial: string, rest: string)
    requires NoSpace(serial) && (rest == "" || IsSpace(rest[0]))
    ensures Word(serial + rest) == serial
    decreases |serial|
  {
    if serial == "" {
      assert serial + rest == rest;
    } else {
      assert (serial + rest)[1..] == serial[1..] + rest;
      WordOf(serial[1..], rest);
    }
  }

  /** A phone's line is visible exactly when its serial is allowed. */
  lemma PhoneVisible(p: Phone, allowed: set<string>)
    requires WellFormedPhone(p)
    ensures Visible(LineOf(p), allowed) <==> p.serial in allowed
  {
    assert LineOf(p) == p.pad + (p.serial + p.rest);
    TrimFrontPad(p.pad, p.serial + p.rest);
    assert (p.serial + p.rest)[0] == p.serial[0];
    WordOf(p.serial, p.rest);
  }

  lemma BlankInvisible(line: string, allowed: set<string>)
    requires AllSpace(line)
    ensures !Visible(line, allowed)
  {
    assert line + "" == line;
    TrimFrontPad(line, "");
  }

  /** In a device list, a phone's line survives exactly when its serial is allowed, a blank line never. */
  lemma PhoneSurvives(p: Phone, more: string, allowed: set<string>)
    requires WellFormedPhone(p)
    ensures Filtered(LineOf(p) + "\n" + more, allowed) ==
      (if p.serial in allowed then LineOf(p) + "\n" else "") + Filtered(more, allowed)
  {
    var line := LineOf(p);
    PhoneVisible(p, allowed);
    hide LineOf, Visible, Filtered;
    LineThenMore(line, more);
    FilteredStep(line + "\n" + more, line, more, allowed);
  }

  /** The lines adb prints: serial, tab, state. */
  lemma ListedPhoneSurvives(serial: string, state: string, more: string, allowed: set<string>)
    requires serial != "" && NoSpace(serial) && PlainLine(serial + "\t" + state)
    ensures Filtered(serial + "\t" + state + "\n" + more, allowed) ==
      (if serial in allowed then serial + "\t" + state + "\n" else "") + Filtered(more, allowed)
  {
    var p := Phone("", serial, "\t" + state);
    assert LineOf(p) == serial + "\t" + state;
    hide Filtered;
    PhoneSurvives(p, more, allowed);
  }

  lemma BlankVanishes(line: string, more: string, allowed: set<string>)
    requires AllSpace(line) && PlainLine(line)
    ensures Filtered(line + "\n" + more, allowed) == Filtered(more, allowed)
  {
    BlankInvisible(line, allowed);
    hide Visible, Filtered;
    LineThenMore(line, more);
    FilteredStep(line + "\n" + more, line, more, allowed);
    assert "" + Filtered(more, allowed) == Filtered(more, allowed);
  }

  lemma LineThenMore(line: string, more: string)
    requires PlainLine(line)
    ensures Lines(line + "\n" + more) == [line] + Lines(more)
  {
    var s := line + "\n" + more;
    NewlineAt(s, |line|);
    assert s[..|line|] == line && s[|line| + 1..] == more;
    LinesStep(s);
    hide Lines, FindNewline;
  }

  function LinesOf(phones: seq<Phone>): (out: seq<string>)
    ensures |out| == |phones| && forall i :: 0 <= i < |phones| ==> out[i] == LineOf(phones[i])
  {
    seq(|phones|, i requires 0 <= i < |phones| => LineOf(phones[i]))
  }

  /** The phones whose serial is allowed, in order. */
  function Mine(phones: seq<Phone>, allowed: set<string>): seq<Phone> {
    if phones == [] then []
    else (if phones[0].serial in allowed then [phones[0]] else []) + Mine(phones[1..], allowed)
  }

  lemma {:induction false} SelectIsMine(phones: seq<Phone>, allowed: set<string>)
    requires forall p :: p in phones ==> WellFormedPhone(p)
    ensures Select(LinesOf(phones), allowed) == LinesOf(Mine(phones, allowed))
    decreases |phones|
  {
    if phones != [] {
      var p := phones[0];
      assert LinesOf(phones)[1..] == LinesOf(phones[1..]);
      SelectIsMine(phones[1..], allowed);
      PhoneVisible(p, allowed);
      assert LinesOf([p] + Mine(phones[1..], allowed)) == [LineOf(p)] + LinesOf(Mine(phones[1..], allowed));
      assert [] + Mine(phones[1..], allowed) == Mine(phones[1..], allowed);
      hide Visible, WellFormedPhone;
    }
  }

  predicate SendablePhones(lists: seq<seq<Phone>>) {
    forall i :: 0 <= i < |lists| ==>
      |Join(LinesOf(lists[i]))| < FRAME_LIMIT && forall p :: p in lists[i] ==> WellFormedPhone(p)
  }

  function AllLines(lists: seq<seq<Phone>>): (out: seq<seq<string>>)
    ensures |out| == |lists| && forall i :: 0 <= i < |lists| ==> out[i] == LinesOf(lists[i])
  {
    seq(|lists|, i requires 0 <= i < |lists| => LinesOf(lists[i]))
  }

  lemma {:induction false} FilterAllAt(lists: seq<seq<string>>, allowed: nat -> set<string>, k: nat, i: nat)
    requires i < |lists|
    ensures |FilterAll(lists, allowed, k)| == |lists| && FilterAll(lists, allowed, k)[i] == Select(lists[i], allowed(k + i))
    decreases |lists|
  {
    if i > 0 {
      FilterAllAt(lists[1..], allowed, k + 1, i - 1);
    } else if |lists| > 1 {
      FilterAllAt(lists[1..], allowed, k + 1, 0);
    }
  }

  /** From a tracking stream of phone lists the client decodes, list by list and in order, exactly the
      phones whose serial was allowed at that moment. */
  lemma ClientSeesItsPhones(lists: seq<seq<Phone>>, tail: string, allowed: nat -> set<string>)
    requires SendablePhones(lists) && ReadMsg(tail) == None
    ensures var out := Track(OKAY + Frames(JoinAll(AllLines(lists))) + tail, allowed);
      && |out| >= 4 && out[..4] == OKAY && |Decode(out[4..])| == |lists|
      && forall i :: 0 <= i < |lists| ==> Decode(out[4..])[i] == LinesOf(Mine(lists[i], allowed(i)))
  {
    hide *;
    SendableLines(lists);
    ClientSeesVisibleLines(AllLines(lists), tail, allowed);
    FilterAllIsMine(lists, allowed);
  }

  lemma FilterAllIsMine(lists: seq<seq<Phone>>, allowed: nat -> set<string>)
    requires SendablePhones(lists)
    ensures |FilterAll(AllLines(lists), allowed, 0)| == |lists|
    ensures forall i :: 0 <= i < |lists| ==> FilterAll(AllLines(lists), allowed, 0)[i] == LinesOf(Mine(lists[i], allowed(i)))
  {
    hide LinesOf, Select, Mine, Join, WellFormedPhone;
    var lines := AllLines(lists);
    if lists != [] { FilterAllAt(lines, allowed, 0, 0); }
    hide FilterAll;
    forall i | 0 <= i < |lists|
      ensures FilterAll(lines, allowed, 0)[i] == LinesOf(Mine(lists[i], allowed(i)))
    {
      FilterAllAt(lines, allowed, 0, i);
      SelectIsMine(lists[i], allowed(i));
    }
  }

  lemma SendableLines(lists: seq<seq<Phone>>)
    requires SendablePhones(lists)
    ensures Sendable(AllLines(lists))
  {
    hide Join, PlainLine;
    forall i, l | 0 <= i < |lists| && l in LinesOf(lists[i])
      ensures PlainLine(l)
    {
      var j :| 0 <= j < |lists[i]| && LinesOf(lists[i])[j] == l;
      assert lists[i][j] in lists[i];
    }
  }

  /** A failure of the server is passed on as it is, with its message and nothing behind it. */
  lemma FailureIsRelayed(status: string, m: string, rest: string, allowed: nat -> set<string>)
    requires |status| == 4 && status != OKAY && |m| < FRAME_LIMIT
    ensures Track(status + WriteMsg(m) + rest, allowed) == status + WriteMsg(m)
  {
    var s := status + WriteMsg(m) + rest;
    assert s[..4] == status && s[4..] == WriteMsg(m) + rest;
    MessageRoundTrip(m, rest);
    hide ReadMsg, WriteMsg, TrackPayloads;
  }

  /** What is cut short is passed on as far as it is understood. */
  lemma CutShort(s: string, allowed: nat -> set<string>)
    ensures |s| < 4 ==> Track(s, allowed) == ""
    ensures |s| >= 4 && ReadMsg(s[4..]) == None ==> Track(s, allowed) == s[..4]
  {
    hide ReadMsg, WriteMsg, Filtered;
    if |s| >= 4 && ReadMsg(s[4..]) == None { assert s[..4] + "" == s[..4]; }
  }

  // ----- when filtering a payload keeps it sendable -----

  predicate Unterminated(s: string) { s != "" && s[|s| - 1] != '\n' }

  /** No line loses a carriage return at its end. */
  predicate NoLineEndCR(s: string) {
    forall k :: 0 <= k < |s| && s[k] == '\r' ==> k + 1 < |s| && s[k + 1] != '\n'
  }

  predicate AllVisible(s: string, allowed: set<string>) { forall l :: l in Lines(s) ==> Visible(l, allowed) }

  /** The length of the payload with every line terminated. */
  function Terminated(s: string): nat { |s| + if Unterminated(s) then 1 else 0 }

  /** Filtering never adds more than the missing terminator, and nothing goes missing exactly when
      all lines are visible and none ends in a carriage return. */
  lemma {:induction false} FilteredLength(s: string, allowed: set<string>)
    ensures |Filtered(s, allowed)| <= Terminated(s)
    ensures |Filtered(s, allowed)| == Terminated(s) <==> AllVisible(s, allowed) && NoLineEndCR(s)
    decreases |s|
  {
    hide Visible, FindNewline, Select, Join, NoLineEndCR, Filtered, Lines, AllVisible;
    if s == "" {
      FilteredNothing(allowed);
      NoCRInNothing(allowed);
    } else {
      var i := FindNewline(s);
      var rest := if i < |s| then s[i + 1..] else "";
      FilteredLength(rest, allowed);
      LinesStep(s);
      FilteredStep(s, DropCR(s[..i]), rest, allowed);
      LineEndCRs(s);
      VisibleStep(s, DropCR(s[..i]), rest, allowed);
    }
  }

  lemma VisibleStep(s: string, line: string, rest: string, allowed: set<string>)
    requires Lines(s) == [line] + Lines(rest)
    ensures AllVisible(s, allowed) <==> Visible(line, allowed) && AllVisible(rest, allowed)
  {
    hide Lines, Visible;
    assert forall l :: l in Lines(s) <==> l == line || l in Lines(rest);
  }

  lemma NoCRInNothing(allowed: set<string>)
    ensures NoLineEndCR("") && AllVisible("", allowed)
  {}

  lemma LineEndCRs(s: string)
    requires s != ""
    ensures var i := FindNewline(s);
      NoLineEndCR(s) <==> DropCR(s[..i]) == s[..i] && NoLineEndCR(if i < |s| then s[i + 1..] else "")
  {
    hide FindNewline;
    var i := FindNewline(s);
    var rest := if i < |s| then s[i + 1..] else "";
    assert forall k :: 0 <= k < |rest| ==> rest[k] == s[i + 1 + k];
    assert DropCR(s[..i]) == s[..i] <==> (i == 0 || s[i - 1] != '\r');
    forall k | 0 <= k < |s| && s[k] == '\r'
      ensures i < k ==> rest[k - i - 1] == s[k]
    {}
  }

  /** A payload that fits its frame no longer does after filtering exactly when it has the greatest
      length, lacks its final newline, shows all its lines and drops no carriage return. */
  lemma StaysSendableUnlessFull(payload: string, allowed: set<string>)
    requires |payload| < FRAME_LIMIT
    ensures var out := Filtered(payload, allowed);
      ReadMsg(WriteMsg(out)) == Some((out, "")) <==>
        !(|payload| == FRAME_LIMIT - 1 && Unterminated(payload) && AllVisible(payload, allowed) && NoLineEndCR(payload))
  {
    hide ReadMsg, WriteMsg, Filtered, AllVisible, NoLineEndCR;
    var out := Filtered(payload, allowed);
    FilteredLength(payload, allowed);
    MessageRoundTrip(out, "");
    assert WriteMsg(out) + "" == WriteMsg(out);
  }

  /** So a single visible line of the greatest length is readable before filtering and not after. */
  lemma UnterminatedOverflows(line: string, allowed: set<string>)
    requires |line| == FRAME_LIMIT - 1 && PlainLine(line) && Visible(line, allowed)
    ensures ReadMsg(WriteMsg(line)) == Some((line, ""))
    ensures ReadMsg(WriteMsg(Filtered(line, allowed))) != Some((Filtered(line, allowed), ""))
  {
    UnterminatedGrows(line, allowed);
    hide ReadMsg, WriteMsg, Filtered;
    var out := Filtered(line, allowed);
    MessageRoundTrip(line, "");
    MessageRoundTrip(out, "");
    assert WriteMsg(line) + "" == WriteMsg(line);
    assert WriteMsg(out) + "" == WriteMsg(out);
  }

  lemma UnterminatedGrows(line: string, allowed: set<string>)
    requires PlainLine(line) && Visible(line, allowed) && line != ""
    ensures Filtered(line, allowed) == line + "\n"
  {
    hide Visible;
    assert FindNewline(line) == |line|;
    assert line[..|line|] == line;
    assert Lines(line) == [line] + [];
    SelectStep(line, [], allowed);
    assert Filtered(line, allowed) == line + "\n" + "";
  }

  // ----- the connection handlers -----

  class Reader {
    var unread: string

    constructor (s: string)
      ensures unread == s
    {
      unread := s;
    }

    /** Reads exactly n bytes; on a short stream it fails, having consumed what there was. */
    method ReadFull(n: nat) returns (r: Option<string>)
      modifies this
      ensures if n <= |old(unread)| then r == Some(old(unread)[..n]) && unread == old(unread)[n..]
              else r == None && unread == ""
    {
      if n <= |unread| {
        r := Some(unread[..n]);
        unread := unread[n..];
      } else {
        r := None;
        unread := "";
      }
    }
  }

  class Writer {
    var written: string

    constructor ()
      ensures written == ""
    {
      written := "";
    }

    method Write(s: string)
      modifies this
      ensures written == old(written) + s
    {
      written := written + s;
    }
  }

  method ReadMessage(r: Reader) returns (m: Option<string>)
    modifies r
    ensures match ReadMsg(old(r.unread))
      case None => m == None
      case Some(p) => m == Some(p.0) && r.unread == p.1
  {
    var head := r.ReadFull(4);
    if head == None {
      return None;
    }
    var n := ParseHex4(head.value);
    if n == None {
      return None;
    }
    ghost var s := old(r.unread);
    assert |s| >= 4 + n.value ==> s[4..][..n.value] == s[4..4 + n.value] && s[4..][n.value..] == s[4 + n.value..];
    m := r.ReadFull(n.value);
  }

  method WriteMessage(w: Writer, m: string)
    modifies w
    ensures w.written == old(w.written) + WriteMsg(m)
  {
    w.Write(Hex(|m|) + m);
  }

  method FilterDeviceList(payload: string, allowed: set<string>) returns (out: string)
    ensures out == Filtered(payload, allowed)
  {
    hide *;
    out := "";
    var rest := payload;
    assert Filtered("", allowed) == "" by { FilteredNothing(allowed); }
    while rest != ""
      invariant Filtered(payload, allowed) == out + Filtered(rest, allowed)
      decreases |rest|
    {
      var i := FindNewline(rest);
      var line := DropCR(rest[..i]);
      LinesStep(rest);
      ghost var tail := if i < |rest| then rest[i + 1..] else "";
      FilteredStep(rest, line, tail, allowed);
      AppendLine(out, line, Filtered(tail, allowed));
      rest := if i < |rest| then rest[i + 1..] else "";
      if Visible(line, allowed) {
        out := out + line + "\n";
      }
    }
  }

  lemma AppendLine(out: string, line: string, more: string)
    ensures out + ((line + "\n") + more) == out + line + "\n" + more && out + ("" + more) == out + more
  {}

  lemma FilteredNothing(allowed: set<string>)
    ensures Filtered("", allowed) == ""
  {}

  lemma LinesStep(s: string)
    requires s != ""
    ensures var i := FindNewline(s);
      Lines(s) == [DropCR(s[..i])] + Lines(if i < |s| then s[i + 1..] else "")
  {
    hide FindNewline, DropCR;
  }

  lemma FilteredStep(s: string, line: string, rest: string, allowed: set<string>)
    requires Lines(s) == [line] + Lines(rest)
    ensures Filtered(s, allowed) == (if Visible(line, allowed) then line + "\n" else "") + Filtered(rest, allowed)
  {
    hide Lines, Select, Join, Visible;
    SelectStep(line, Lines(rest), allowed);
  }

  lemma SelectStep(line: string, rest: seq<string>, allowed: set<string>)
    ensures Join(Select([line] + rest, allowed)) ==
      (if Visible(line, allowed) then line + "\n" else "") + Join(Select(rest, allowed))
  {
    assert ([line] + rest)[1..] == rest;
    var more := Select(rest, allowed);
    assert ([line] + more)[1..] == more;
    assert [] + more == more;
  }

  /** Relays host:track-devices until the upstream ends or breaks. */
  method FilterTrack(upstream: Reader, client: Writer, allowed: nat -> set<string>)
    modifies upstream, client
    ensures client.written == old(client.written) + Track(old(upstream.unread), allowed)
  {
    hide ReadMsg, WriteMsg, Filtered, TrackPayloads;
    ghost var base, input := client.written, upstream.unread;
    var status := upstream.ReadFull(4);
    if status == None {
      return;
    }
    client.Write(status.value);
    if status.value != OKAY {
      var m := ReadMessage(upstream);
      if m.Some? {
        WriteMessage(client, m.value);
      }
      return;
    }
    var k := 0;
    while true
      invariant base + Track(input, allowed) == client.written + TrackPayloads(upstream.unread, allowed, k)
      decreases |upstream.unread|
    {
      PayloadStep(upstream.unread, allowed, k);
      var payload := ReadMessage(upstream);
      if payload == None {
        assert client.written + "" == client.written;
        return;
      }
      var out := FilterDeviceList(payload.value, allowed(k));
      Regroup(client.written, WriteMsg(out), TrackPayloads(upstream.unread, allowed, k + 1));
      WriteMessage(client, out);
      k := k + 1;
    }
  }

  lemma PayloadStep(s: string, allowed: nat -> set<string>, k: nat)
    ensures match ReadMsg(s)
            case None => TrackPayloads(s, allowed, k) == ""
            case Some(m) =>
              TrackPayloads(s, allowed, k) == WriteMsg(Filtered(m.0, allowed(k))) + TrackPayloads(m.1, allowed, k + 1)
  {
    hide ReadMsg, WriteMsg, Filtered;
  }

  lemma Regroup(a: string, b: string, c: string)
    ensures a + (b + c) == a + b + c
  {}

  /** Relays one host:devices response. */
  method FilterOnce(upstream: Reader, client: Writer, allowed: set<string>)
    modifies upstream, client
    ensures var s := old(upstream.unread);
      client.written == old(client.written) +
        if |s| < 4 then ""
        else if s[..4] != OKAY then s[..4] + Relayed(s[4..])
        else OKAY + match ReadMsg(s[4..]) case None => "" case Some(m) => WriteMsg(Filtered(m.0, allowed))
  {
    hide ReadMsg, WriteMsg, Filtered;
    var status := upstream.ReadFull(4);
    if status == None {
      return;
    }
    client.Write(status.value);
    if status.value != OKAY {
      var m := ReadMessage(upstream);
      if m.Some? {
        WriteMessage(client, m.value);
      }
      return;
    }
    var payload := ReadMessage(upstream);
    if payload.Some? {
      var out := FilterDeviceList(payload.value, allowed);
      WriteMessage(client, out);
    }
  }
}
