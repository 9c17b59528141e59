/**
 * The downlink summary the tester shows after a completed cycle (the
 * EV_TXCOMPLETE branch of `onEvent` in src/main.cpp), e.g.
 * "#12/345 SF9 rx1 ack 01ab": the downlink counter, the uplink counter, the
 * spreading factor, the receive window, the acknowledgement and the payload.
 */
module Downlink {
  import opened Wrappers
  import opened Lmic
  import opened Text

  datatype RxWindow = FirstWindow | SecondWindow

  /** What a summary tells about a downlink. */
  datatype Record = Record(
    downCounter: nat,
    upCounter: nat,
    sf: nat,
    window: RxWindow,
    acked: bool,
    payload: seq<Byte>)

  function WindowName(w: RxWindow): string
  {
    if w == FirstWindow then "rx1" else "rx2"
  }

  /** The summary text of a record, built from its parts in the order the source appends them. */
  function Summary(r: Record): (s: string)
    // at least one digit per number, the separators and "rx1"/"rx2", then the flags
    ensures |s| >= 12 + (if r.acked then 4 else 0) + (if r.payload != [] then 1 + 2 * |r.payload| else 0)
    ensures s[0] == '#'
  {
    "#" + Dec(r.downCounter) + AfterDown(r)
  }

  function AfterDown(r: Record): string
  {
    "/" + Dec(r.upCounter) + AfterUp(r)
  }

  function AfterUp(r: Record): string
  {
    " SF" + Dec(r.sf) + AfterSf(r)
  }

  function AfterSf(r: Record): string
  {
    " " + WindowName(r.window) + Flags(r.acked, r.payload)
  }

  /** The end of a summary: the acknowledgement and the payload. */
  function Flags(acked: bool, payload: seq<Byte>): string
  {
    (if acked then " ack" else "") + (if payload != [] then " " + Hex(payload) else "")
  }

  /**
   * A summary built as the source builds it, the counters, spreading
   * factor and window first and then the flags, is `Summary`.
   */
  lemma SummaryByParts(r: Record, head: string, s: string)
    requires head == "#" + Dec(r.downCounter) + "/" + Dec(r.upCounter) + " SF" + Dec(r.sf)
                     + " " + WindowName(r.window)
    requires s == head + Flags(r.acked, r.payload)
    ensures s == Summary(r)
  {
    var x := "#" + Dec(r.downCounter);
    var x4 := x + "/" + Dec(r.upCounter);
    var x6 := x4 + " SF" + Dec(r.sf);
    var w, f := WindowName(r.window), Flags(r.acked, r.payload);
    AppendAssoc(x6, " ", w);
    AppendAssoc(x6, " " + w, f);
    assert s == x6 + AfterSf(r);
    AppendAssoc(x4, " SF", Dec(r.sf));
    AppendAssoc(x4, " SF" + Dec(r.sf), AfterSf(r));
    assert s == x4 + AfterUp(r);
    AppendAssoc(x, "/", Dec(r.upCounter));
    AppendAssoc(x, "/" + Dec(r.upCounter), AfterUp(r));
  }

  /** Reads a summary back. */
  function ParseSummary(s: string): Option<Record>
  {
    if |s| == 0 || s[0] != '#' then None else ParseDown(s[1..])
  }

  function ParseDown(s: string): Option<Record>
  {
    match ParseDec(s)
    case None => None
    case Some((down, rest)) =>
      if |rest| == 0 || rest[0] != '/' then None else ParseUp(down, rest[1..])
  }

  function ParseUp(down: nat, s: string): Option<Record>
  {
    match ParseDec(s)
    case None => None
    case Some((up, rest)) =>
      if |rest| < 3 || rest[..3] != " SF" then None else ParseSf(down, up, rest[3..])
  }

  function ParseSf(down: nat, up: nat, s: string): Option<Record>
  {
    match ParseDec(s)
    case None => None
    case Some((sf, rest)) =>
      if |rest| < 4 || (rest[..4] != " rx1" && rest[..4] != " rx2") then None
      else
        var window := if rest[..4] == " rx1" then FirstWindow else SecondWindow;
        match ParseFlags(rest[4..])
        case None => None
        case Some((acked, payload)) => Some(Record(down, up, sf, window, acked, payload))
  }

  function ParseFlags(s: string): Option<(bool, seq<Byte>)>
  {
    var acked := |s| >= 4 && s[..4] == " ack";
    var rest := if acked then s[4..] else s;
    if rest == [] then Some((acked, []))
    else if rest[0] != ' ' then None
    else match ParseHex(rest[1..])
    case None => None
    case Some(payload) => if payload == [] then None else Some((acked, payload))
  }

  lemma ParseFlagsOfFlags(acked: bool, payload: seq<Byte>)
    ensures ParseFlags(Flags(acked, payload)) == Some((acked, payload))
  {
    if payload == [] {
      assert Flags(acked, payload) == if acked then " ack" else "";
    } else {
      PayloadTail(payload);
      ParseHexOfHex(payload);
      var tail := " " + Hex(payload);
      if acked {
        var s := " ack" + tail;
        assert s[..4] == " ack" && s[4..] == tail;
      } else {
        assert Flags(acked, payload) == tail;
      }
    }
  }

  /** The payload part never starts like the acknowledgement, as 'k' is not a hexadecimal digit. */
  lemma PayloadTail(payload: seq<Byte>)
    requires payload != []
    ensures var tail := " " + Hex(payload);
      !(|tail| >= 4 && tail[..4] == " ack") && tail[0] == ' ' && tail[1..] == Hex(payload)
  {
    var h := Hex(payload);
    var tail := " " + h;
    assert tail[1..] == h;
    if |tail| >= 4 {
      HexDigits(payload);
      assert tail[3] == h[2];
      assert IsHexDigit(h[2]);
    }
  }

  /** The window part of a summary splits off as its first four characters. */
  lemma SplitWindow(w: RxWindow, f: string)
    ensures var rest := " " + WindowName(w) + f;
      && |rest| >= 4 && rest[0] == ' ' && rest[4..] == f
      && (rest[..4] == " rx1" <==> w == FirstWindow)
      && (rest[..4] == " rx2" <==> w == SecondWindow)
  {
    var tag := " " + WindowName(w);
    assert (tag + f)[..4] == tag;
    if w == SecondWindow {
      assert tag[3] == '2';
    } else {
      assert tag[3] == '1';
    }
  }

  lemma ParseSfOf(r: Record)
    ensures ParseSf(r.downCounter, r.upCounter, Dec(r.sf) + AfterSf(r)) == Some(r)
  {
    var rest := AfterSf(r);
    SplitWindow(r.window, Flags(r.acked, r.payload));
    ParseDecOfDec(r.sf, rest);
    ParseFlagsOfFlags(r.acked, r.payload);
  }

  lemma ParseUpOf(r: Record)
    ensures ParseUp(r.downCounter, Dec(r.upCounter) + AfterUp(r)) == Some(r)
  {
    var rest := Dec(r.sf) + AfterSf(r);
    AppendAssoc(" SF", Dec(r.sf), AfterSf(r));
    SplitPrefix(" SF", rest);
    ParseDecOfDec(r.upCounter, AfterUp(r));
    ParseSfOf(r);
  }

  lemma ParseDownOf(r: Record)
    ensures ParseDown(Dec(r.downCounter) + AfterDown(r)) == Some(r)
  {
    var rest := Dec(r.upCounter) + AfterUp(r);
    AppendAssoc("/", Dec(r.upCounter), AfterUp(r));
    SplitPrefix("/", rest);
    ParseDecOfDec(r.downCounter, AfterDown(r));
    ParseUpOf(r);
  }

  /** A summary names its record unambiguously: reading it back gives the record. */
  lemma ParseSummaryOfSummary(r: Record)
    ensures ParseSummary(Summary(r)) == Some(r)
  {
    var s := Summary(r);
    assert s[1..] == Dec(r.downCounter) + AfterDown(r);
    ParseDownOf(r);
  }

  /**
   * The hexadecimal text of the `len` payload bytes at `beg` in `frame`,
   * built as the source does: each byte printed with `String(b, HEX)`,
   * after a "0" when it is below 0x10.
   */
  method HexPayload(frame: seq<Byte>, beg: nat, len: nat) returns (s: string)
    requires beg + len <= |frame|
    ensures s == Hex(frame[beg..beg + len])
  {
    s := "";
    var i := 0;
    ghost var done: seq<Byte> := [];
    while i < len
      invariant 0 <= i <= len
      invariant done == frame[beg..beg + i]
      invariant s == Hex(done)
    {
      var b := frame[beg + i];
      ghost var s0 := s;
      if b < 0x10 {
        s := s + "0";
      }
      PaddedStep(s0, s, b);
      s := s + Radix16(b);
      HexSnoc(done, b);
      done := done + [b];
      i := i + 1;
    }
  }

  /**
   * Appends to `head` " ack" when the downlink acknowledges the uplink and
   * the payload, after a space, when there is one: the end of a summary.
   */
  method AppendFlags(head: string, acked: bool, frame: seq<Byte>, beg: nat, len: nat) returns (s: string)
    requires beg + len <= |frame|
    ensures s == head + Flags(acked, frame[beg..beg + len])
  {
    ghost var payload := frame[beg..beg + len];
    ghost var ackPart := if acked then " ack" else "";
    s := head;
    if acked {
      s := s + " ack";
    }
    assert s == head + ackPart;
    if len > 0 {
      var rxPayload := HexPayload(frame, beg, len);
      AppendAssoc(head, ackPart, " " + rxPayload);
      s := s + (" " + rxPayload);
    } else {
      assert payload == [] && ackPart + "" == ackPart;
    }
  }

  /**
   * The summary of the downlink `r`, whose payload is the `len` bytes at
   * `beg` in `frame`, appended part by part as the source does.
   */
  method Describe(r: Record, frame: seq<Byte>, beg: nat, len: nat) returns (s: string)
    requires beg + len <= |frame| && r.payload == frame[beg..beg + len]
    ensures s == Summary(r)
  {
    s := "#" + Dec(r.downCounter) + "/" + Dec(r.upCounter) + " SF" + Dec(r.sf) + " " + WindowName(r.window);
    ghost var head := s;
    s := AppendFlags(s, r.acked, frame, beg, len);
    SummaryByParts(r, head, s);
  }
}
