/** The TELNET negotiation engine of src/usr/telnet.rs: `handle_iac` and the
    receive loop that runs it over one inbound chunk (RFC 854 commands, the
    terminal-type option of RFC 1091 and option 1 used as "suppress local echo"). */
module TelnetNegotiation {
  import opened RustCore

  const IAC: byte := 255
  const DONT: byte := 254
  const DO: byte := 253
  const WONT: byte := 252
  const WILL: byte := 251
  const SB: byte := 250
  const SE: byte := 240
  const TERMINAL_TYPE: byte := 24
  const SUPPRESS_LOCAL_ECHO: byte := 1

  /** The three-byte commands the client answers. */
  datatype Command = TerminalTypeQuery | EchoSuppressRequest | EchoSuppressWithdraw

  /** What the process has done to the outside world: the bytes written to the
      display, the writes made on the connection (one entry per `syscall::write`),
      and whether the console echoes what is typed. */
  datatype Effects = Effects(display: seq<byte>, sent: seq<seq<byte>>, echo: bool)

  /** The command named by the two bytes after an IAC, if it is one of the three. */
  function CommandOf(verb: byte, option: byte): (r: Option<Command>)
    ensures r == Some(TerminalTypeQuery) <==> verb == DO && option == TERMINAL_TYPE
    ensures r == Some(EchoSuppressRequest) <==> verb == WILL && option == SUPPRESS_LOCAL_ECHO
    ensures r == Some(EchoSuppressWithdraw) <==> verb == WONT && option == SUPPRESS_LOCAL_ECHO
  {
    if verb == DO && option == TERMINAL_TYPE then Some(TerminalTypeQuery)
    else if verb == WILL && option == SUPPRESS_LOCAL_ECHO then Some(EchoSuppressRequest)
    else if verb == WONT && option == SUPPRESS_LOCAL_ECHO then Some(EchoSuppressWithdraw)
    else None
  }

  /** The command that starts at position i: an IAC with both following bytes inside the data. */
  function CommandAt(data: seq<byte>, i: nat): (r: Option<Command>)
    requires i < |data|
    ensures r.Some? ==> data[i] == IAC && i + 2 < |data|
  {
    if data[i] == IAC && i + 2 < |data| then CommandOf(data[i + 1], data[i + 2]) else None
  }

  /** The subnegotiation that reports the terminal type: IAC SB TERMINAL-TYPE IS,
      the ASCII name "XTERM-256COLOR", IAC SE. */
  function TerminalTypeReply(): (r: seq<byte>)
    ensures |r| == 20 && r[..4] == [IAC, SB, TERMINAL_TYPE, 0] && r[18..] == [IAC, SE]
    ensures forall k :: 4 <= k < 18 ==> r[k] == "XTERM-256COLOR"[k - 4] as int
  {
    [IAC, SB, TERMINAL_TYPE, 0,
     88, 84, 69, 82, 77, 45, 50, 53, 54, 67, 79, 76, 79, 82,
     IAC, SE]
  }

  /** The answer written to the connection for each command (lines 179-203). */
  function Reply(c: Command): seq<byte> {
    match c
    case TerminalTypeQuery => TerminalTypeReply()
    case EchoSuppressRequest => [IAC, DO, SUPPRESS_LOCAL_ECHO]
    case EchoSuppressWithdraw => [IAC, DONT, SUPPRESS_LOCAL_ECHO]
  }

  /** The console echo after a command: WILL suppresses it, WONT restores it,
      the terminal-type query leaves it alone. */
  function EchoAfter(c: Command, echo: bool): bool {
    match c
    case TerminalTypeQuery => echo
    case EchoSuppressRequest => false
    case EchoSuppressWithdraw => true
  }

  /** `handle_iac(data, &mut i, handle)`: at an IAC followed, inside the data, by one of
      the three command pairs, writes the command's answer, updates the echo and moves
      the cursor to the last byte of the command; anywhere else it does nothing. */
  method HandleIac(data: seq<byte>, i: nat, fx: Effects) returns (handled: bool, j: nat, fx': Effects)
    requires i < |data|
    ensures handled <==>
      data[i] == IAC && i + 2 < |data| &&
      (data[i + 1], data[i + 2]) in {(DO, TERMINAL_TYPE), (WILL, SUPPRESS_LOCAL_ECHO), (WONT, SUPPRESS_LOCAL_ECHO)}
    ensures j == if handled then i + 2 else i
    ensures handled ==>
      var c := CommandAt(data, i).value;
      fx' == Effects(fx.display, fx.sent + [Reply(c)], EchoAfter(c, fx.echo))
    ensures !handled ==> fx' == fx
    ensures handled && data[i + 1] == DO ==> fx'.echo == fx.echo && fx'.sent == fx.sent + [TerminalTypeReply()]
    ensures handled && data[i + 1] == WILL ==> !fx'.echo && fx'.sent == fx.sent + [[IAC, DO, SUPPRESS_LOCAL_ECHO]]
    ensures handled && data[i + 1] == WONT ==> fx'.echo && fx'.sent == fx.sent + [[IAC, DONT, SUPPRESS_LOCAL_ECHO]]
  {
    handled, j, fx' := false, i, fx;
    if data[i] == IAC && i + 2 < |data| {
      match (data[i + 1], data[i + 2])
      case (253, 24) =>
        fx' := fx'.(sent := fx'.sent + [TerminalTypeReply()]);
        handled, j := true, i + 2;
      case (251, 1) =>
        fx' := fx'.(echo := false);
        fx' := fx'.(sent := fx'.sent + [[IAC, DO, SUPPRESS_LOCAL_ECHO]]);
        handled, j := true, i + 2;
      case (252, 1) =>
        fx' := fx'.(echo := true);
        fx' := fx'.(sent := fx'.sent + [[IAC, DONT, SUPPRESS_LOCAL_ECHO]]);
        handled, j := true, i + 2;
      case _ =>
    }
  }

  /** What reaches the display from a chunk: every byte except the recognised
      three-byte commands, in order. */
  function Payload(data: seq<byte>): seq<byte>
    decreases |data|
  {
    if |data| == 0 then []
    else if CommandAt(data, 0).Some? then Payload(data[3..])
    else [data[0]] + Payload(data[1..])
  }

  /** The answers a chunk provokes, one per recognised command, in order. */
  function Replies(data: seq<byte>): seq<seq<byte>>
    decreases |data|
  {
    if |data| == 0 then []
    else if CommandAt(data, 0).Some? then [Reply(CommandAt(data, 0).value)] + Replies(data[3..])
    else Replies(data[1..])
  }

  /** The echo setting after the chunk's commands have been applied in order. */
  function EchoThrough(data: seq<byte>, echo: bool): bool
    decreases |data|
  {
    if |data| == 0 then echo
    else if CommandAt(data, 0).Some? then EchoThrough(data[3..], EchoAfter(CommandAt(data, 0).value, echo))
    else EchoThrough(data[1..], echo)
  }

  /** The effects of running the engine over a whole chunk. */
  function Negotiated(data: seq<byte>, fx: Effects): Effects {
    Effects(fx.display + Payload(data), fx.sent + Replies(data), EchoThrough(data, fx.echo))
  }

  /** One step of the engine at the front of a chunk. */
  lemma NegotiatedStep(data: seq<byte>, fx: Effects)
    requires |data| > 0
    ensures CommandAt(data, 0).Some? ==>
      var c := CommandAt(data, 0).value;
      Negotiated(data, fx) == Negotiated(data[3..], Effects(fx.display, fx.sent + [Reply(c)], EchoAfter(c, fx.echo)))
    ensures CommandAt(data, 0).None? ==>
      Negotiated(data, fx) == Negotiated(data[1..], fx.(display := fx.display + [data[0]]))
  {
    if CommandAt(data, 0).Some? {
      var c := CommandAt(data, 0).value;
      assert fx.sent + Replies(data) == (fx.sent + [Reply(c)]) + Replies(data[3..]);
    } else {
      assert fx.display + Payload(data) == (fx.display + [data[0]]) + Payload(data[1..]);
    }
  }

  /** The receive loop (lines 144-155): walk the chunk with a cursor; a handled command
      is skipped whole (the cursor moves two inside `handle_iac` and one more here),
      every other byte is written to the display. */
  method Receive(data: seq<byte>, fx: Effects) returns (fx': Effects)
    ensures fx' == Negotiated(data, fx)
  {
    fx' := fx;
    var i := 0;
    while i < |data|
      invariant i <= |data|
      invariant Negotiated(data[i..], fx') == Negotiated(data, fx)
      decreases |data| - i
    {
      NegotiatedStep(data[i..], fx');
      var handled, j, fx2 := HandleIac(data, i, fx');
      if handled {
        assert data[i..][3..] == data[j + 1..];
        fx' := fx2;
        i := j + 1;
        continue;
      }
      assert data[i..][1..] == data[i + 1..];
      fx' := fx'.(display := fx'.display + [data[i]]);
      i := i + 1;
    }
    assert data[i..] == [];
  }

  /** Every byte of a chunk is accounted for: it is displayed or it is one of the
      three bytes of a command that was answered. */
  lemma {:induction false} PayloadLength(data: seq<byte>)
    ensures |Payload(data)| + 3 * |Replies(data)| == |data|
    decreases |data|
  {
    if |data| > 0 {
      if CommandAt(data, 0).Some? {
        PayloadLength(data[3..]);
      } else {
        PayloadLength(data[1..]);
      }
    }
  }

  /** A chunk without IAC is displayed unchanged, answers nothing and leaves echo alone. */
  lemma {:induction false} PlainDataPassesThrough(data: seq<byte>, echo: bool)
    requires IAC !in data
    ensures Payload(data) == data && Replies(data) == [] && EchoThrough(data, echo) == echo
    decreases |data|
  {
    if |data| > 0 {
      assert data[0] != IAC;
      PlainDataPassesThrough(data[1..], echo);
    }
  }

  /** An IAC in one of the last two positions of a chunk cannot start a command:
      it is displayed verbatim, together with the byte after it. The command is not
      carried over to the next read. */
  lemma {:induction false} TrailingIacDisplayed(data: seq<byte>, tail: seq<byte>, echo: bool)
    requires 1 <= |tail| <= 2 && tail[0] == IAC
    ensures Payload(data + tail) == Payload(data) + tail
    ensures Replies(data + tail) == Replies(data)
    ensures EchoThrough(data + tail, echo) == EchoThrough(data, echo)
    decreases |data|
  {
    var s := data + tail;
    if |data| == 0 {
      assert s == tail;
      TrailingIacAlone(tail, echo);
    } else if |data| >= 3 && CommandAt(data, 0).Some? {
      assert CommandAt(s, 0) == CommandAt(data, 0);
      assert s[3..] == data[3..] + tail;
      TrailingIacDisplayed(data[3..], tail, EchoAfter(CommandAt(data, 0).value, echo));
    } else {
      assert CommandAt(s, 0).None?;
      assert CommandAt(data, 0).None?;
      assert s[1..] == data[1..] + tail;
      TrailingIacDisplayed(data[1..], tail, echo);
    }
  }

  /** The base case: a chunk that is just the trailing IAC and at most one byte. */
  lemma TrailingIacAlone(tail: seq<byte>, echo: bool)
    requires 1 <= |tail| <= 2 && tail[0] == IAC
    ensures Payload(tail) == tail && Replies(tail) == [] && EchoThrough(tail, echo) == echo
  {
    assert CommandAt(tail, 0).None?;
    if |tail| == 2 {
      assert CommandAt(tail[1..], 0).None?;
      var rest := tail[1..];
      assert rest[1..] == [];
      assert EchoThrough(rest[1..], echo) == echo;
      assert Payload(rest) == [tail[1]] && Replies(rest) == [] && EchoThrough(rest, echo) == echo;
      assert [tail[0]] + [tail[1]] == tail;
    } else {
      assert tail[1..] == [];
    }
  }

  /** The echo after a list of answers: the last echo answer decides, DO (we accept
      that the server echoes) meaning local echo off and DONT meaning on. */
  function AckedEcho(replies: seq<seq<byte>>, echo: bool): bool
    decreases |replies|
  {
    if |replies| == 0 then echo
    else if replies[|replies| - 1] == Reply(EchoSuppressRequest) then false
    else if replies[|replies| - 1] == Reply(EchoSuppressWithdraw) then true
    else AckedEcho(replies[..|replies| - 1], echo)
  }

  lemma {:induction false} AckedEchoAppend(a: seq<seq<byte>>, b: seq<seq<byte>>, echo: bool)
    ensures AckedEcho(a + b, echo) == AckedEcho(b, AckedEcho(a, echo))
    decreases |b|
  {
    if |b| == 0 {
      assert a + b == a;
    } else {
      assert (a + b)[..|a + b| - 1] == a + b[..|b| - 1];
      AckedEchoAppend(a, b[..|b| - 1], echo);
    }
  }

  /** The console echo after a chunk agrees with the last echo answer sent for it:
      it is off exactly when that answer was `IAC DO 1`, on when it was `IAC DONT 1`,
      and unchanged when no echo command came. */
  lemma {:induction false} EchoFollowsLastAnswer(data: seq<byte>, echo: bool)
    ensures EchoThrough(data, echo) == AckedEcho(Replies(data), echo)
    decreases |data|
  {
    if |data| > 0 {
      if CommandAt(data, 0).Some? {
        var c := CommandAt(data, 0).value;
        EchoFollowsLastAnswer(data[3..], EchoAfter(c, echo));
        AckedEchoAppend([Reply(c)], Replies(data[3..]), echo);
        assert AckedEcho([Reply(c)], echo) == EchoAfter(c, echo) by {
          assert [Reply(c)][..0] == [];
          assert Reply(TerminalTypeQuery) != Reply(EchoSuppressRequest);
          assert Reply(TerminalTypeQuery) != Reply(EchoSuppressWithdraw);
        }
      } else {
        EchoFollowsLastAnswer(data[1..], echo);
      }
    }
  }

  /** A repeated WILL suppress-echo leaves echo off, as a single one does; the only
      visible difference is the acknowledgement sent again. */
  lemma RepeatedWillIsIdempotent(fx: Effects)
    ensures var will := [IAC, WILL, SUPPRESS_LOCAL_ECHO];
      && Negotiated(will, fx) == Effects(fx.display, fx.sent + [[IAC, DO, SUPPRESS_LOCAL_ECHO]], false)
      && Negotiated(will + will, fx) ==
         Effects(fx.display, fx.sent + [[IAC, DO, SUPPRESS_LOCAL_ECHO], [IAC, DO, SUPPRESS_LOCAL_ECHO]], false)
  {
    var will: seq<byte> := [IAC, WILL, SUPPRESS_LOCAL_ECHO];
    assert CommandAt(will, 0) == Some(EchoSuppressRequest);
    assert will[3..] == [];
    assert Payload(will) == Payload(will[3..]) == [];
    assert Replies(will) == [Reply(EchoSuppressRequest)] + Replies(will[3..]) == [Reply(EchoSuppressRequest)];
    assert EchoThrough(will, fx.echo) == EchoThrough(will[3..], false) == false;
    var twice := will + will;
    assert CommandAt(twice, 0) == Some(EchoSuppressRequest);
    assert twice[3..] == will;
    assert Payload(twice) == Payload(will);
    assert Replies(twice) == [Reply(EchoSuppressRequest)] + Replies(will);
    assert EchoThrough(twice, fx.echo) == EchoThrough(will, false);
  }

  /** WILL followed by WONT turns echo off and on again, answering DO then DONT. */
  lemma WillThenWont(fx: Effects)
    ensures Negotiated([IAC, WILL, SUPPRESS_LOCAL_ECHO, IAC, WONT, SUPPRESS_LOCAL_ECHO], fx) ==
      Effects(fx.display, fx.sent + [[IAC, DO, SUPPRESS_LOCAL_ECHO], [IAC, DONT, SUPPRESS_LOCAL_ECHO]], true)
  {
    var data: seq<byte> := [IAC, WILL, SUPPRESS_LOCAL_ECHO, IAC, WONT, SUPPRESS_LOCAL_ECHO];
    var wont: seq<byte> := [IAC, WONT, SUPPRESS_LOCAL_ECHO];
    assert CommandAt(data, 0) == Some(EchoSuppressRequest);
    assert data[3..] == wont;
    assert CommandAt(wont, 0) == Some(EchoSuppressWithdraw);
    assert wont[3..] == [];
    assert Payload(data) == Payload(wont) == Payload(wont[3..]) == [];
    assert Replies(wont) == [Reply(EchoSuppressWithdraw)] + Replies(wont[3..]) == [Reply(EchoSuppressWithdraw)];
    assert Replies(data) == [Reply(EchoSuppressRequest)] + Replies(wont);
    assert EchoThrough(data, fx.echo) == EchoThrough(wont, false) == EchoThrough(wont[3..], true) == true;
  }

  /** An IAC with a pair the engine does not know is shown as three ordinary bytes
      and answered with nothing, whatever the two bytes are. */
  lemma UnknownPairDisplayed(verb: byte, option: byte, fx: Effects)
    requires CommandOf(verb, option).None?
    ensures Negotiated([IAC, verb, option], fx) ==
      Effects(fx.display + [IAC, verb, option], fx.sent, fx.echo)
  {
    var data: seq<byte> := [IAC, verb, option];
    assert CommandAt(data, 0).None?;
    assert data[1..] == [verb, option] && data[1..][1..] == [option] && [option][1..] == [];
    assert CommandAt([verb, option], 0).None? && CommandAt([option], 0).None?;
    assert Payload([option]) == [option] + Payload([]);
    assert Payload([verb, option]) == [verb] + Payload([option]);
    assert Payload(data) == [IAC] + Payload(data[1..]);
    assert Replies([option]) == Replies([]) && Replies([verb, option]) == Replies([option]);
    assert Replies(data) == [];
    assert EchoThrough([option], fx.echo) == EchoThrough([option][1..], fx.echo);
    assert EchoThrough([verb, option], fx.echo) == EchoThrough([option], fx.echo);
    assert EchoThrough(data, fx.echo) == fx.echo;
    assert fx.sent + [] == fx.sent;
  }

  /** A command split over two reads is not put back together: both halves are displayed. */
  lemma SplitCommandNotReassembled(fx: Effects)
    ensures Negotiated([1], Negotiated([IAC, WILL], fx)) ==
      Effects(fx.display + [IAC, WILL, 1], fx.sent, fx.echo)
  {
    TrailingIacDisplayed([], [IAC, WILL], fx.echo);
    assert [] + [IAC, WILL] == [IAC, WILL];
  }
}
