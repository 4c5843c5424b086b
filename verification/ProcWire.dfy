/** Reading process events off the netlink connector, and the stat line of a
    process (internal/antivirus/procwatch.go). A byte is a number under 256; reads
    are little-endian. */
module ProcWire {
  import opened Decimals
  import opened Wrappers

  type Byte = x: int | 0 <= x < 256

  const CN_IDX_PROC := 1
  const CN_VAL_PROC := 1
  const EVENT_FORK := 1
  const EVENT_EXEC := 2
  const EVENT_EXIT := 0x8000_0000
  const NLMSG_NOOP := 1
  const NLMSG_ERROR := 2
  const TWO_31 := 0x8000_0000
  const TWO_32 := 0x1_0000_0000

  datatype ProcEvent = ProcEvent(kind: int, pid: int, parent: int)

  // ----------------------------------------------------------- the reader

  function Le16(b: seq<Byte>, i: nat): (n: nat)
    requires i + 2 <= |b|
    ensures n < 0x1_0000
  {
    b[i] as int + 256 * b[i + 1] as int
  }

  function Le32(b: seq<Byte>, i: nat): (n: nat)
    requires i + 4 <= |b|
    ensures n < TWO_32
  {
    b[i] as int + 256 * b[i + 1] as int + 65536 * b[i + 2] as int + 16777216 * b[i + 3] as int
  }

  /** The 32 bits read as a signed number. */
  function WirePid(b: seq<Byte>, i: nat): (pid: int)
    requires i + 4 <= |b|
    ensures -TWO_31 <= pid < TWO_31
  {
    if Le32(b, i) < TWO_31 then Le32(b, i) else Le32(b, i) - TWO_32
  }

  function EventData(what: int, data: seq<Byte>): Option<ProcEvent>
    requires |data| >= 8
  {
    if what == EVENT_EXEC then
      if WirePid(data, 0) > 0 then Some(ProcEvent(EVENT_EXEC, WirePid(data, 0), 0)) else None
    else if what == EVENT_FORK then
      if |data| >= 16 && WirePid(data, 8) > 0 then Some(ProcEvent(EVENT_FORK, WirePid(data, 8), WirePid(data, 0)))
      else None
    else if what == EVENT_EXIT then
      if WirePid(data, 0) > 0 then Some(ProcEvent(EVENT_EXIT, WirePid(data, 0), 0)) else None
    else None
  }

  function OneEvent(nlType: int, p: seq<Byte>): Option<ProcEvent> {
    if nlType == NLMSG_ERROR || nlType == NLMSG_NOOP then None
    else if |p| < 20 + 16 + 8 then None
    else if Le32(p, 0) != CN_IDX_PROC || Le32(p, 4) != CN_VAL_PROC then None
    else EventData(Le32(p, 20), p[36..])
  }

  /** (n + 3) &^ 3 on 32 bits. */
  function Aligned(n: nat): nat
    requires n < TWO_32
  {
    (n + 3) % TWO_32 / 4 * 4
  }

  function Listed(ev: Option<ProcEvent>): seq<ProcEvent> {
    if ev.Some? then [ev.value] else []
  }

  function Events(buf: seq<Byte>): seq<ProcEvent> {
    if |buf| < 16 then []
    else
      var nlLen := Le32(buf, 0);
      if nlLen < 16 || nlLen > |buf| then []
      else
        var here := Listed(OneEvent(Le16(buf, 4), buf[16..nlLen]));
        var adv := Aligned(nlLen);
        if adv == 0 || adv >= |buf| then here else here + Events(buf[adv..])
  }

  lemma EventsFromFirst(buf: seq<Byte>)
    requires |buf| >= 16
    ensures var nlLen := Le32(buf, 0);
            if nlLen < 16 || nlLen > |buf| then Events(buf) == []
            else
              var here, adv := Listed(OneEvent(Le16(buf, 4), buf[16..nlLen])), Aligned(nlLen);
              Events(buf) == if adv == 0 || adv >= |buf| then here else here + Events(buf[adv..])
  {}

  /** The loop stays in bounds and ends on every buffer. */
  method ParseProcEvents(buffer: seq<Byte>) returns (out: seq<ProcEvent>)
    ensures out == Events(buffer)
  {
    hide OneEvent, Le32, Le16, Aligned, Events;
    out := [];
    var buf := buffer;
    while |buf| >= 16
      invariant Events(buffer) == out + Events(buf)
      decreases |buf|
    {
      EventsFromFirst(buf);
      var nlLen := Le32(buf, 0);
      if nlLen < 16 || nlLen > |buf| {
        break;
      }
      var ev := OneEvent(Le16(buf, 4), buf[16..nlLen]);
      out := out + if ev.Some? then [ev.value] else [];
      var adv := Aligned(nlLen);
      if adv == 0 || adv >= |buf| {
        return;
      }
      buf := buf[adv..];
    }
    assert |buf| < 16 ==> Events(buf) == [] by { TooShort(buf); }
  }

  lemma TooShort(buf: seq<Byte>)
    ensures |buf| < 16 ==> Events(buf) == []
  {}

  // ---------------------------------------------------------- the printer

  function Put32(n: int): (b: seq<Byte>)
    requires -TWO_31 <= n < TWO_32
    ensures |b| == 4
  {
    var u := if n < 0 then n + TWO_32 else n;
    var a := u / 256;
    var b := a / 256;
    [u % 256, a % 256, b % 256, b / 256]
  }

  function Put16(n: nat): (b: seq<Byte>)
    requires n < 0x1_0000
    ensures |b| == 2
  {
    [n % 256, n / 256]
  }

  lemma Put32Reads(n: int, before: seq<Byte>, after: seq<Byte>)
    requires -TWO_31 <= n < TWO_32
    ensures var b := before + Put32(n) + after;
            && Le32(b, |before|) == (if n < 0 then n + TWO_32 else n)
            && (n < TWO_31 ==> WirePid(b, |before|) == n)
  {
    var b := before + Put32(n) + after;
    assert b[|before|] == Put32(n)[0] && b[|before| + 1] == Put32(n)[1];
    assert b[|before| + 2] == Put32(n)[2] && b[|before| + 3] == Put32(n)[3];
  }

  /** One netlink message: its type, the flags, sequence and port that nobody
      reads, and the connector message. */
  datatype Message = Message(kind: int, head: seq<Byte>, payload: seq<Byte>)

  predicate Valid(m: Message) {
    0 <= m.kind < 0x1_0000 && |m.head| == 10 && 16 + |m.payload| < TWO_31
  }

  function Wire(m: Message): (b: seq<Byte>)
    requires Valid(m)
    ensures |b| == 16 + |m.payload|
  {
    Put32(16 + |m.payload|) + Put16(m.kind) + m.head + m.payload
  }

  function Padding(n: nat): (b: seq<Byte>)
    ensures (n + |b|) % 4 == 0 && |b| < 4
  {
    seq((4 - n % 4) % 4, i => 0)
  }

  /** Messages one after the other, each starting at a multiple of four. */
  function WireAll(ms: seq<Message>): seq<Byte>
    requires forall m :: m in ms ==> Valid(m)
  {
    if ms == [] then []
    else if |ms| == 1 then Wire(ms[0])
    else Wire(ms[0]) + Padding(|Wire(ms[0])|) + WireAll(ms[1..])
  }

  /** What the messages announce. */
  function Announced(ms: seq<Message>): seq<ProcEvent> {
    if ms == [] then [] else Listed(OneEvent(ms[0].kind, ms[0].payload)) + Announced(ms[1..])
  }

  lemma WireReads(m: Message, after: seq<Byte>)
    requires Valid(m)
    ensures var buf := Wire(m) + after;
            && Le32(buf, 0) == 16 + |m.payload| && Le16(buf, 4) == m.kind
            && buf[16..16 + |m.payload|] == m.payload
  {
    var buf := Wire(m) + after;
    var rest := Put16(m.kind) + m.head + m.payload + after;
    assert buf == [] + Put32(16 + |m.payload|) + rest;
    Put32Reads(16 + |m.payload|, [], rest);
    assert buf[4] == Put16(m.kind)[0] && buf[5] == Put16(m.kind)[1];
  }

  lemma AlignedIs(n: nat)
    requires n < TWO_31
    ensures Aligned(n) == n + |Padding(n)|
  {}

  /** Every message is read, where it starts and only there: the events of a buffer
      are those its messages announce, in order. A message of another connector, a
      control message or a short one announces nothing and does not disturb the next. */
  lemma {:induction false} EventsOfMessages(ms: seq<Message>)
    requires forall m :: m in ms ==> Valid(m)
    ensures Events(WireAll(ms)) == Announced(ms)
  {
    hide OneEvent, Wire, Aligned, Le32, Le16;
    if ms != [] {
      var m, pad := ms[0], Padding(|Wire(ms[0])|);
      AlignedIs(|Wire(m)|);
      if |ms| == 1 {
        WireReads(m, []);
        assert Wire(m) + [] == Wire(m);
        assert ms[1..] == [];
        assert Announced(ms) == Listed(OneEvent(m.kind, m.payload));
      } else {
        var after := WireAll(ms[1..]);
        assert WireAll(ms) == Wire(m) + (pad + after);
        WireReads(m, pad + after);
        assert WireAll(ms)[|Wire(m)| + |pad|..] == after;
        WireNotEmpty(ms[1..]);
        EventsOfMessages(ms[1..]);
      }
    }
  }

  lemma WireNotEmpty(ms: seq<Message>)
    requires ms != [] && forall m :: m in ms ==> Valid(m)
    ensures |WireAll(ms)| >= 16
  {}

  /** An event the kernel sends: a positive pid, and a parent only on a fork. */
  predicate Sendable(ev: ProcEvent) {
    && 0 < ev.pid < TWO_31
    && (ev.kind == EVENT_FORK ==> -TWO_31 <= ev.parent < TWO_31)
    && (ev.kind == EVENT_EXEC || ev.kind == EVENT_EXIT ==> ev.parent == 0)
    && (ev.kind == EVENT_FORK || ev.kind == EVENT_EXEC || ev.kind == EVENT_EXIT)
  }

  /** The fields nobody reads; a fork record is as long as its struct. */
  predicate Fills(ev: ProcEvent, cn: seq<Byte>, stamp: seq<Byte>, tgid: seq<Byte>, rest: seq<Byte>) {
    |cn| == 12 && |stamp| == 12 && |tgid| == 4 && (ev.kind == EVENT_FORK ==> |rest| >= 4)
  }

  /** The connector message of an event; the fillers are the fields nobody reads. */
  function EventPayload(ev: ProcEvent, cn: seq<Byte>, stamp: seq<Byte>, tgid: seq<Byte>, rest: seq<Byte>): seq<Byte>
    requires Sendable(ev) && Fills(ev, cn, stamp, tgid, rest)
  {
    Put32(CN_IDX_PROC) + Put32(CN_VAL_PROC) + cn + Put32(ev.kind) + stamp +
    if ev.kind == EVENT_FORK then Put32(ev.parent) + tgid + Put32(ev.pid) + rest
    else Put32(ev.pid) + tgid + rest
  }

  lemma EventPayloadReads(ev: ProcEvent, cn: seq<Byte>, stamp: seq<Byte>, tgid: seq<Byte>, rest: seq<Byte>, nlType: int)
    requires Sendable(ev) && Fills(ev, cn, stamp, tgid, rest)
    requires nlType != NLMSG_ERROR && nlType != NLMSG_NOOP
    ensures OneEvent(nlType, EventPayload(ev, cn, stamp, tgid, rest)) == Some(ev)
  {
    hide Put32;
    var data := if ev.kind == EVENT_FORK then Put32(ev.parent) + tgid + Put32(ev.pid) + rest
                else Put32(ev.pid) + tgid + rest;
    var p := EventPayload(ev, cn, stamp, tgid, rest);
    HeaderReads(ev.kind, cn, stamp, data);
    assert p == Put32(CN_IDX_PROC) + Put32(CN_VAL_PROC) + cn + Put32(ev.kind) + stamp + data;
    assert p[36..] == data;
    if ev.kind == EVENT_FORK {
      assert data == [] + Put32(ev.parent) + (tgid + Put32(ev.pid) + rest);
      Put32Reads(ev.parent, [], tgid + Put32(ev.pid) + rest);
      Put32Reads(ev.pid, Put32(ev.parent) + tgid, rest);
    } else {
      assert data == [] + Put32(ev.pid) + (tgid + rest);
      Put32Reads(ev.pid, [], tgid + rest);
    }
  }

  lemma HeaderReads(kind: int, cn: seq<Byte>, stamp: seq<Byte>, data: seq<Byte>)
    requires 0 <= kind < TWO_32 && |cn| == 12 && |stamp| == 12
    ensures var p := Put32(CN_IDX_PROC) + Put32(CN_VAL_PROC) + cn + Put32(kind) + stamp + data;
            Le32(p, 0) == CN_IDX_PROC && Le32(p, 4) == CN_VAL_PROC && Le32(p, 20) == kind
  {
    hide Put32;
    var idx, val := Put32(CN_IDX_PROC), Put32(CN_VAL_PROC);
    var p := idx + val + cn + Put32(kind) + stamp + data;
    Put32Reads(CN_IDX_PROC, [], val + cn + Put32(kind) + stamp + data);
    Put32Reads(CN_VAL_PROC, idx, cn + Put32(kind) + stamp + data);
    Put32Reads(kind, idx + val + cn, stamp + data);
    assert p == [] + idx + (val + cn + Put32(kind) + stamp + data);
    assert p == idx + val + (cn + Put32(kind) + stamp + data);
    assert p == (idx + val + cn) + Put32(kind) + (stamp + data);
  }

  /** A message that announces this event, whatever its unread fields hold. */
  ghost predicate Carries(m: Message, ev: ProcEvent) {
    && Sendable(ev) && m.kind != NLMSG_ERROR && m.kind != NLMSG_NOOP
    && exists cn: seq<Byte>, stamp: seq<Byte>, tgid: seq<Byte>, rest: seq<Byte> ::
         Fills(ev, cn, stamp, tgid, rest) && m.payload == EventPayload(ev, cn, stamp, tgid, rest)
  }

  lemma Put32Undoes(b: seq<Byte>, i: nat)
    requires i + 4 <= |b|
    ensures Put32(Le32(b, i)) == b[i..i + 4] && Put32(WirePid(b, i)) == b[i..i + 4]
  {
    var n := Le32(b, i);
    var x := b[i + 1] as int + 256 * b[i + 2] as int + 65536 * b[i + 3] as int;
    assert n == b[i] as int + 256 * x;
    assert n / 256 == x && x / 256 == b[i + 2] as int + 256 * b[i + 3] as int;
  }

  /** The record after the header, in its fields. */
  lemma RecordIs(ev: ProcEvent, data: seq<Byte>)
    requires |data| >= 8 && EventData(ev.kind, data) == Some(ev)
    ensures Sendable(ev)
    ensures if ev.kind == EVENT_FORK
            then |data| >= 16 && data == Put32(ev.parent) + data[4..8] + Put32(ev.pid) + data[12..]
            else data == Put32(ev.pid) + data[4..8] + data[8..]
  {
    hide Le32, Put32;
    Put32Undoes(data, 0);
    if ev.kind == EVENT_FORK {
      Put32Undoes(data, 8);
    }
  }

  lemma HeaderIs(p: seq<Byte>)
    requires |p| >= 44
    ensures p == Put32(Le32(p, 0)) + Put32(Le32(p, 4)) + p[8..20] + Put32(Le32(p, 20)) + p[24..36] + p[36..]
  {
    Put32Undoes(p, 0);
    Put32Undoes(p, 4);
    Put32Undoes(p, 20);
  }

  /** A MESSAGE ANNOUNCES AN EVENT, EXACTLY when it is the message of that event with some
      filler, and not a control message. */
  lemma MessageAnnouncesIff(m: Message, ev: ProcEvent)
    ensures OneEvent(m.kind, m.payload) == Some(ev) <==> Carries(m, ev)
  {
    hide Le32, Put32, Sendable;
    var p := m.payload;
    if OneEvent(m.kind, p) == Some(ev) {
      var data := p[36..];
      assert ev.kind == Le32(p, 20);
      RecordIs(ev, data);
      HeaderIs(p);
      hide OneEvent, EventData;
      if ev.kind == EVENT_FORK {
        assert Fills(ev, p[8..20], p[24..36], data[4..8], data[12..]);
        assert p == EventPayload(ev, p[8..20], p[24..36], data[4..8], data[12..]);
      } else {
        assert Fills(ev, p[8..20], p[24..36], data[4..8], data[8..]);
        assert p == EventPayload(ev, p[8..20], p[24..36], data[4..8], data[8..]);
      }
    }
    if Carries(m, ev) {
      var cn: seq<Byte>, stamp: seq<Byte>, tgid: seq<Byte>, rest: seq<Byte> :|
        Fills(ev, cn, stamp, tgid, rest) && p == EventPayload(ev, cn, stamp, tgid, rest);
      EventPayloadReads(ev, cn, stamp, tgid, rest, m.kind);
    }
  }

  /** PARSING UNDOES PRINTING: any list of events with positive pids, laid out as
      aligned connector messages with any filler, parses back to that list. */
  lemma {:induction false} ParsingUndoesPrinting(ms: seq<Message>, evs: seq<ProcEvent>)
    requires forall m :: m in ms ==> Valid(m)
    requires |ms| == |evs| && forall i :: 0 <= i < |ms| ==> Carries(ms[i], evs[i])
    ensures Events(WireAll(ms)) == evs
  {
    hide Events, WireAll, Carries, Announced, Valid;
    AnnouncedOf(ms, evs);
    EventsOfMessages(ms);
  }

  lemma {:induction false} AnnouncedOf(ms: seq<Message>, evs: seq<ProcEvent>)
    requires |ms| == |evs| && forall i :: 0 <= i < |ms| ==> Carries(ms[i], evs[i])
    ensures Announced(ms) == evs
  {
    hide OneEvent, EventPayload;
    if ms != [] {
      assert Carries(ms[0], evs[0]);
      var cn: seq<Byte>, stamp: seq<Byte>, tgid: seq<Byte>, rest: seq<Byte> :|
        Fills(evs[0], cn, stamp, tgid, rest) && ms[0].payload == EventPayload(evs[0], cn, stamp, tgid, rest);
      EventPayloadReads(evs[0], cn, stamp, tgid, rest, ms[0].kind);
      AnnouncedOf(ms[1..], evs[1..]);
    }
  }

  // ------------------------------------------------------------- stat line

  /** -1 when the character does not occur. */
  function FirstIndex(s: string, c: char): (i: int)
    ensures -1 <= i < |s|
    ensures i >= 0 ==> s[i] == c && forall k :: 0 <= k < i ==> s[k] != c
    ensures i < 0 ==> forall k :: 0 <= k < |s| ==> s[k] != c
  {
    if s == "" then -1
    else if s[0] == c then 0
    else
      var r := FirstIndex(s[1..], c);
      assert forall k :: 1 <= k < |s| ==> s[k] == s[1..][k - 1];
      if r < 0 then -1 else 1 + r
  }

  function LastIndex(s: string, c: char): (i: int)
    ensures -1 <= i < |s|
    ensures i >= 0 ==> s[i] == c && forall k :: i < k < |s| ==> s[k] != c
    ensures i < 0 ==> forall k :: 0 <= k < |s| ==> s[k] != c
  {
    if s == "" then -1
    else if s[|s| - 1] == c then |s| - 1
    else LastIndex(s[..|s| - 1], c)
  }

  predicate Blank(c: char) {
    c == ' ' || '\t' <= c <= '\r'
  }

  function SkipBlanks(s: string): string {
    if s != "" && Blank(s[0]) then SkipBlanks(s[1..]) else s
  }

  /** The characters up to the next blank. */
  function Word(s: string): (w: string)
    ensures w <= s
  {
    if s == "" || Blank(s[0]) then "" else [s[0]] + Word(s[1..])
  }

  /** The second of strings.Fields, or "" when there is none. */
  function SecondField(s: string): string {
    var from := SkipBlanks(s);
    Word(SkipBlanks(from[|Word(from)|..]))
  }

  function AtoiFrom(s: string, n: int): int {
    if s == "" then n
    else if !('0' <= s[0] <= '9') then 0
    else AtoiFrom(s[1..], n * 10 + (s[0] as int - '0' as int))
  }

  method AtoiSafe(s: string) returns (n: int)
    ensures n == AtoiFrom(s, 0)
  {
    n := 0;
    for i := 0 to |s|
      invariant AtoiFrom(s, 0) == AtoiFrom(s[i..], n)
    {
      var c := s[i];
      assert s[i..][0] == c && s[i..][1..] == s[i + 1..];
      if c < '0' || c > '9' {
        return 0;
      }
      n := n * 10 + (c as int - '0' as int);
    }
  }

  datatype Stat = Stat(ppid: int, comm: string)

  function ParseStat(s: string): Stat {
    var a := FirstIndex(s, '(');
    var z := LastIndex(s, ')');
    if a < 0 || z < 0 || z <= a then Stat(0, "")
    else Stat(AtoiFrom(SecondField(s[z + 1..]), 0), s[a + 1..z])
  }

  lemma {:induction false} AtoiOfDecimal(n: nat, before: int, rest: string)
    requires before == 0
    ensures AtoiFrom(Decimal(n) + rest, before) == AtoiFrom(rest, n)
  {
    if n < 10 {
      assert (Decimal(n) + rest)[1..] == rest;
    } else {
      var tail := [Digit(n % 10)] + rest;
      assert Decimal(n) + rest == Decimal(n / 10) + tail;
      AtoiOfDecimal(n / 10, before, tail);
      assert tail[1..] == rest;
    }
  }

  lemma {:induction false} WordStops(w: string, rest: string)
    requires forall k :: 0 <= k < |w| ==> !Blank(w[k])
    requires rest == "" || Blank(rest[0])
    ensures Word(w + rest) == w
  {
    if w == "" {
      assert w + rest == rest;
    } else {
      assert (w + rest)[1..] == w[1..] + rest;
      WordStops(w[1..], rest);
    }
  }

  lemma FirstIndexIs(front: string, c: char, rest: string)
    requires c !in front
    ensures FirstIndex(front + [c] + rest, c) == |front|
  {
    hide FirstIndex;
    var s := front + [c] + rest;
    assert s[|front|] == c && forall k :: 0 <= k < |front| ==> s[k] == front[k];
  }

  lemma {:induction false} LastIndexIs(front: string, c: char, rest: string)
    requires c !in rest
    ensures LastIndex(front + [c] + rest, c) == |front|
  {
    var s := front + [c] + rest;
    if rest != "" {
      var shorter := rest[..|rest| - 1];
      assert s[|s| - 1] == rest[|rest| - 1];
      assert s[..|s| - 1] == front + [c] + shorter;
      LastIndexIs(front, c, shorter);
    }
  }

  /** A COMMAND NAME CANNOT LIE. Whatever the name of a process is, spaces and
      parentheses included, its stat line gives back that name and the real parent. */
  lemma StatGivesBack(pid: nat, comm: string, state: char, ppid: nat, rest: string)
    requires !Blank(state) && state != ')' && ')' !in rest && (rest == "" || Blank(rest[0]))
    ensures ParseStat(Decimal(pid) + " (" + comm + ") " + [state] + " " + Decimal(ppid) + rest) == Stat(ppid, comm)
  {
    hide Decimal, AtoiFrom, FirstIndex, LastIndex, SecondField;
    var front, tail := Decimal(pid) + " ", " " + [state] + " " + Decimal(ppid) + rest;
    var s := Decimal(pid) + " (" + comm + ") " + [state] + " " + Decimal(ppid) + rest;
    assert s == front + ['('] + (comm + [')'] + tail);
    FirstIndexIs(front, '(', comm + [')'] + tail);
    assert s == (front + ['('] + comm) + [')'] + tail;
    LastIndexIs(front + ['('] + comm, ')', tail);
    SecondOf(state, Decimal(ppid), rest);
    AtoiOfDecimal(ppid, 0, "");
    assert Decimal(ppid) + "" == Decimal(ppid);
    AtoiOfNothing(ppid);
    assert s[|front| + 1 + |comm| + 1..] == tail;
  }

  lemma AtoiOfNothing(n: int)
    ensures AtoiFrom("", n) == n
  {}

  lemma SecondOf(state: char, word: string, rest: string)
    requires !Blank(state) && word != "" && (forall k :: 0 <= k < |word| ==> !Blank(word[k]))
    requires rest == "" || Blank(rest[0])
    ensures SecondField(" " + [state] + " " + word + rest) == word
  {
    var s := " " + [state] + " " + word + rest;
    var last := word + rest;
    var next := " " + last;
    var from := [state] + next;
    assert s == " " + from && s[1..] == from && SkipBlanks(from) == from;
    WordStops([state], next);
    assert from[|Word(from)|..] == next;
    assert next[0] == ' ' && next[1..] == last;
    WordStops(word, rest);
    assert last[0] == word[0] && SkipBlanks(last) == last;
  }
}
