/** A whole `telnet` run (src/usr/telnet.rs, `main`): the command line, the target,
    the socket device, and the session loop that forwards typed lines and
    negotiates on what the server sends, until an interrupt or a closed socket.
    The console, the clock and the network are replaced by a finite list of
    events and by functions given in `Env`. */
module TelnetSession {
  import opened RustCore
  import opened TelnetTarget
  import opened TelnetNegotiation
  import opened TelnetCli

  const LF: byte := 10
  const CR: byte := 13

  function Pow2(n: nat): (p: nat)
    ensures p >= 1
  {
    if n == 0 then 1 else 2 * Pow2(n - 1)
  }

  /** `!status.get_bit(mayRecv)`: the socket status byte says nothing more can be received. */
  predicate IsClosed(status: byte, mayRecv: nat)
    requires mayRecv < 8
  {
    (status / Pow2(mayRecv)) % 2 == 0
  }

  /** For every bit number: a status with just that bit is open, one with every bit but
      that one is closed, the empty status is closed and the full one open. */
  lemma IsClosedExamples(mayRecv: nat, mask: byte)
    requires mayRecv < 8 && mask == Pow2(mayRecv)
    ensures !IsClosed(mask, mayRecv)
    ensures IsClosed(255 - mask, mayRecv)
    ensures IsClosed(0, mayRecv) && !IsClosed(255, mayRecv)
  {
    assert Pow2(0) == 1 && Pow2(1) == 2 && Pow2(2) == 4 && Pow2(3) == 8;
    assert Pow2(4) == 16 && Pow2(5) == 32 && Pow2(6) == 64 && Pow2(7) == 128;
  }

  /** `status.get_bit(k)` on the bits of the byte. */
  predicate GetBit(status: byte, k: nat)
    requires k < 8
  {
    (status as bv8) & ((1 as bv8) << k) != 0
  }

  /** `is_closed` is `!status.get_bit(MayRecv)`, for every status byte and bit number. */
  lemma IsClosedIsGetBit(status: byte, mayRecv: nat)
    requires mayRecv < 8
    ensures IsClosed(status, mayRecv) <==> !GetBit(status, mayRecv)
  {
    if mayRecv == 0 { assert Pow2(0) == 1; assert (1 as bv8) << 0 == 1; }
    else if mayRecv == 1 { assert Pow2(1) == 2; assert (1 as bv8) << 1 == 2; }
    else if mayRecv == 2 { assert Pow2(2) == 4; assert (1 as bv8) << 2 == 4; }
    else if mayRecv == 3 { assert Pow2(3) == 8; assert (1 as bv8) << 3 == 8; }
    else if mayRecv == 4 { assert Pow2(4) == 16; assert (1 as bv8) << 4 == 16; }
    else if mayRecv == 5 { assert Pow2(5) == 32; assert (1 as bv8) << 5 == 32; }
    else if mayRecv == 6 { assert Pow2(6) == 64; assert (1 as bv8) << 6 == 64; }
    else { assert Pow2(7) == 128; assert (1 as bv8) << 7 == 128; }
  }

  /** Only the MayRecv bit matters: two status bytes that agree on it are both closed
      or both open, whatever their other bits. */
  lemma IsClosedOnlyItsBitMatters(s: byte, s': byte, mayRecv: nat)
    requires mayRecv < 8 && GetBit(s, mayRecv) == GetBit(s', mayRecv)
    ensures IsClosed(s, mayRecv) <==> IsClosed(s', mayRecv)
  {
    IsClosedIsGetBit(s, mayRecv);
    IsClosedIsGetBit(s', mayRecv);
  }

  /** `line.replace("\n", "\r\n")` on the bytes of a typed line (a line feed byte never
      occurs inside the UTF-8 encoding of another character). */
  function CrLf(s: seq<byte>): (r: seq<byte>)
    decreases |s|
  {
    if |s| == 0 then []
    else if s[0] == LF then [CR, LF] + CrLf(s[1..])
    else [s[0]] + CrLf(s[1..])
  }

  /** The number of line feeds in a text. */
  function LineFeeds(s: seq<byte>): nat
    decreases |s|
  {
    if |s| == 0 then 0 else (if s[0] == LF then 1 else 0) + LineFeeds(s[1..])
  }

  /** Every line feed has a carriage return just before it. */
  predicate NoBareLf(t: seq<byte>) {
    forall k :: 0 <= k < |t| && t[k] == LF ==> k > 0 && t[k - 1] == CR
  }

  /** Every write of a list keeps CR LF line ends. */
  predicate AllNoBareLf(writes: seq<seq<byte>>) {
    forall m :: 0 <= m < |writes| ==> NoBareLf(writes[m])
  }

  /** The inverse translation: each CR LF pair back to a single LF. */
  function FromCrLf(t: seq<byte>): seq<byte>
    decreases |t|
  {
    if |t| == 0 then []
    else if |t| >= 2 && t[0] == CR && t[1] == LF then [LF] + FromCrLf(t[2..])
    else [t[0]] + FromCrLf(t[1..])
  }

  /** The translated line never starts with a bare line feed. */
  lemma {:induction false} CrLfHead(s: seq<byte>)
    requires |s| > 0
    ensures |CrLf(s)| > 0 && CrLf(s)[0] != LF
  {
  }

  /** The translation adds one byte per line feed and leaves no bare line feed. */
  lemma {:induction false} CrLfShape(s: seq<byte>)
    ensures |CrLf(s)| == |s| + LineFeeds(s)
    ensures NoBareLf(CrLf(s))
    decreases |s|
  {
    if |s| > 0 {
      CrLfShape(s[1..]);
      var rest := CrLf(s[1..]);
      if |rest| > 0 {
        CrLfHead(s[1..]);
      }
      if s[0] == LF {
        assert CrLf(s) == [CR, LF] + rest;
        forall k | 0 <= k < |CrLf(s)| && CrLf(s)[k] == LF
          ensures k > 0 && CrLf(s)[k - 1] == CR
        {
          if k > 2 {
            assert CrLf(s)[k] == rest[k - 2];
          }
        }
      } else {
        assert CrLf(s) == [s[0]] + rest;
        forall k | 0 <= k < |CrLf(s)| && CrLf(s)[k] == LF
          ensures k > 0 && CrLf(s)[k - 1] == CR
        {
          if k > 1 {
            assert CrLf(s)[k] == rest[k - 1];
          }
        }
      }
    }
  }

  /** The server can recover the typed line exactly. */
  lemma {:induction false} CrLfRoundTrip(s: seq<byte>)
    ensures FromCrLf(CrLf(s)) == s
    decreases |s|
  {
    if |s| > 0 {
      CrLfRoundTrip(s[1..]);
      var rest := CrLf(s[1..]);
      if s[0] == LF {
        assert CrLf(s)[2..] == rest;
      } else {
        assert CrLf(s)[1..] == rest;
        if |rest| > 0 {
          CrLfHead(s[1..]);
        }
      }
    }
  }

  /** What one turn of the session loop finds (lines 128-167). */
  datatype Event =
    | Interrupt                          // ^C or ^D: end_of_text or end_of_transmission
    | Line(text: seq<byte>)              // stdin was ready: the line read, in UTF-8
    | Inbound(chunk: Option<seq<byte>>)  // the socket was ready: the bytes read, or a failed read
    | Idle(status: Option<byte>)         // nothing was ready: the status byte read, if one was

  /** The turns that end the session. */
  predicate IsExit(ev: Event, mayRecv: nat)
    requires mayRecv < 8
  {
    ev.Interrupt? || (ev.Idle? && ev.status.Some? && IsClosed(ev.status.value, mayRecv))
  }

  /** The effect of one turn. An interrupt prints a newline; a line is sent with CR LF
      line ends; a chunk goes through the negotiation engine; the rest does nothing. */
  function Apply(fx: Effects, ev: Event): Effects {
    match ev
    case Interrupt => fx.(display := fx.display + [LF])
    case Line(text) => fx.(sent := fx.sent + [CrLf(text)])
    case Inbound(chunk) => if chunk.Some? then Negotiated(chunk.value, fx) else fx
    case Idle(_) => fx
  }

  /** The effects of a sequence of turns, applied in order. */
  function Replay(events: seq<Event>, fx: Effects): Effects
    decreases |events|
  {
    if |events| == 0 then fx else Apply(Replay(events[..|events| - 1], fx), events[|events| - 1])
  }

  /** Where the loop stops: the index of the first exit turn, if any. */
  function FirstExit(events: seq<Event>, mayRecv: nat): (r: Option<nat>)
    requires mayRecv < 8
    ensures r.Some? ==>
      (r.value < |events| && IsExit(events[r.value], mayRecv) && forall k :: 0 <= k < r.value ==> !IsExit(events[k], mayRecv))
    ensures r.None? ==> forall k :: 0 <= k < |events| ==> !IsExit(events[k], mayRecv)
    decreases |events|
  {
    if |events| == 0 then None
    else if IsExit(events[0], mayRecv) then Some(0)
    else
      match FirstExit(events[1..], mayRecv)
      case Some(i) => Some(i + 1)
      case None => None
  }

  /** The turns the loop carries out: up to and including the first exit, or all of them. */
  function Played(events: seq<Event>, mayRecv: nat): (r: seq<Event>)
    requires mayRecv < 8
    ensures |r| <= |events| && r == events[..|r|]
  {
    match FirstExit(events, mayRecv)
    case Some(i) => events[..i + 1]
    case None => events
  }

  /** The session loop over the given turns. It stops at the first exit turn;
      if the turns run out first, the session is still running. */
  method Pump(events: seq<Event>, fx: Effects, mayRecv: nat) returns (fx': Effects, stop: Option<nat>)
    requires mayRecv < 8
    ensures stop == FirstExit(events, mayRecv)
    ensures fx' == Replay(Played(events, mayRecv), fx)
  {
    fx' := fx;
    var i := 0;
    while i < |events|
      invariant i <= |events|
      invariant fx' == Replay(events[..i], fx)
      invariant forall k :: 0 <= k < i ==> !IsExit(events[k], mayRecv)
      decreases |events| - i
    {
      assert events[..i + 1][..i] == events[..i];
      match events[i] {
      case Interrupt =>
        fx' := fx'.(display := fx'.display + [LF]);
        stop := Some(i);
        FirstExitAt(events, mayRecv, i);
        return;
      case Line(text) =>
        fx' := fx'.(sent := fx'.sent + [CrLf(text)]);
      case Inbound(chunk) =>
        if chunk.Some? {
          fx' := Receive(chunk.value, fx');
        }
      case Idle(status) =>
        if status.Some? && IsClosed(status.value, mayRecv) {
          stop := Some(i);
          FirstExitAt(events, mayRecv, i);
          return;
        }
      }
      i := i + 1;
    }
    assert events[..i] == events;
    FirstExitNone(events, mayRecv);
    stop := None;
  }

  lemma {:induction false} FirstExitAt(events: seq<Event>, mayRecv: nat, i: nat)
    requires mayRecv < 8
    requires i < |events| && IsExit(events[i], mayRecv)
    requires forall k :: 0 <= k < i ==> !IsExit(events[k], mayRecv)
    ensures FirstExit(events, mayRecv) == Some(i)
    decreases i
  {
    if i > 0 {
      FirstExitAt(events[1..], mayRecv, i - 1);
    }
  }

  lemma {:induction false} FirstExitNone(events: seq<Event>, mayRecv: nat)
    requires mayRecv < 8
    requires forall k :: 0 <= k < |events| ==> !IsExit(events[k], mayRecv)
    ensures FirstExit(events, mayRecv) == None
    decreases |events|
  {
    if |events| > 0 {
      FirstExitNone(events[1..], mayRecv);
    }
  }

  /** Turns are applied one after the other. */
  lemma {:induction false} ReplayAppend(a: seq<Event>, b: seq<Event>, fx: Effects)
    ensures Replay(a + b, fx) == Replay(b, Replay(a, fx))
    decreases |b|
  {
    if |b| == 0 {
      assert a + b == a;
    } else {
      assert (a + b)[..|a + b| - 1] == a + b[..|b| - 1];
      ReplayAppend(a, b[..|b| - 1], fx);
    }
  }

  /** Payload bytes and telnet answers contain no line feed. */
  lemma ReplyHasNoLf(c: Command)
    ensures LF !in Reply(c)
  {
    var r := Reply(c);
    assert forall k :: 0 <= k < |r| ==> r[k] != LF;
  }

  lemma {:induction false} RepliesHaveNoBareLf(data: seq<byte>)
    ensures AllNoBareLf(Replies(data))
    decreases |data|
  {
    if |data| > 0 {
      if CommandAt(data, 0).Some? {
        ReplyHasNoLf(CommandAt(data, 0).value);
        RepliesHaveNoBareLf(data[3..]);
      } else {
        RepliesHaveNoBareLf(data[1..]);
      }
    }
  }

  /** Every write the session makes on the connection keeps CR LF line ends: typed lines
      are translated and the telnet answers hold no line feed at all. */
  lemma {:induction false} SentHasNoBareLf(events: seq<Event>, fx: Effects)
    requires AllNoBareLf(fx.sent)
    ensures AllNoBareLf(Replay(events, fx).sent)
    decreases |events|
  {
    if |events| > 0 {
      var before := Replay(events[..|events| - 1], fx);
      SentHasNoBareLf(events[..|events| - 1], fx);
      match events[|events| - 1]
      case Line(text) =>
        CrLfShape(text);
        assert Replay(events, fx).sent == before.sent + [CrLf(text)];
      case Inbound(chunk) =>
        if chunk.Some? {
          RepliesHaveNoBareLf(chunk.value);
          assert Replay(events, fx).sent == before.sent + Replies(chunk.value);
        }
      case Interrupt =>
        assert Replay(events, fx).sent == before.sent;
      case Idle(_) =>
        assert Replay(events, fx).sent == before.sent;
    }
  }

  /** Only data from the server can change the console echo. */
  lemma {:induction false} EchoChangesOnlyInbound(events: seq<Event>, fx: Effects)
    requires forall k :: 0 <= k < |events| ==> !events[k].Inbound?
    ensures Replay(events, fx).echo == fx.echo
    decreases |events|
  {
    if |events| > 0 {
      EchoChangesOnlyInbound(events[..|events| - 1], fx);
    }
  }

  /** An interrupt leaves the display ending in a newline. */
  lemma InterruptEndsWithNewline(events: seq<Event>, fx: Effects, mayRecv: nat)
    requires mayRecv < 8
    requires FirstExit(events, mayRecv).Some? && events[FirstExit(events, mayRecv).value].Interrupt?
    ensures var d := Replay(Played(events, mayRecv), fx).display; |d| > 0 && d[|d| - 1] == LF
  {
    var i := FirstExit(events, mayRecv).value;
    assert Played(events, mayRecv)[..i + 1][i] == events[i];
  }

  datatype Exit = Success | UsageError | Failure

  /** Everything the program asks of its environment. `parseLiteral` is
      `IpAddress::from_str`, `resolve` is `usr::host::resolve`, `deviceSize` is the size
      `syscall::info` reports for /dev/net/tcp, `opens` says whether `syscall::open`
      returns a handle, `connects` whether `syscall::connect` succeeds, `events` the
      turns of the session loop, `mayRecv` the index of the MayRecv status bit. */
  datatype Env = Env(
    parseLiteral: string -> Option<Address>,
    resolve: string -> Option<Address>,
    deviceSize: Option<nat>,
    opens: bool,
    connects: (Address, nat) -> bool,
    events: seq<Event>,
    mayRecv: nat,
    effects: Effects)

  /** The outcome of a run: the exit code (None while the session is still running),
      the effects, the peer `connect` was asked for, whether the socket was opened (`socketOpened`),
      and how many times it was closed. */
  datatype Transcript = Transcript(exit: Option<Exit>, fx: Effects, peer: Option<(Address, nat)>,
                                   socketOpened: bool, closes: nat)

  /** `main(args)` */
  method Telnet(args: seq<string>, env: Env) returns (t: Transcript)
    requires env.mayRecv < 8
    ensures t.closes <= 1 && (t.closes == 1 <==> t.socketOpened && t.exit.Some?)
    ensures t.socketOpened ==> env.deviceSize.Some? && env.opens
    ensures InvocationOf(args) == ShowHelp ==> t == Transcript(Some(Success), env.effects, None, false, 0)
    ensures InvocationOf(args).BadUsage? ==> t == Transcript(Some(UsageError), env.effects, None, false, 0)
    ensures InvocationOf(args).Connect? ==>
      var (host, port) := ParseTarget(InvocationOf(args).host);
      var r := ResolveHost(host, env.parseLiteral, env.resolve);
      && (r == InvalidAddressFormat ==> t == Transcript(Some(UsageError), env.effects, None, false, 0))
      && (r == ResolutionFailure ==> t == Transcript(Some(Failure), env.effects, None, false, 0))
      && (r.Resolved? && (env.deviceSize.None? || !env.opens) ==>
            t == Transcript(Some(Failure), env.effects, None, false, 0))
      && (r.Resolved? && env.deviceSize.Some? && env.opens ==>
            && t.socketOpened && t.peer == Some((r.addr, port))
            && (!env.connects(r.addr, port) ==> t == Transcript(Some(Failure), env.effects, t.peer, true, 1))
            && (env.connects(r.addr, port) ==>
                  && t.fx == Replay(Played(env.events, env.mayRecv), env.effects)
                  && t.exit == (if FirstExit(env.events, env.mayRecv).Some? then Some(Success) else None)))
  {
    var inv := ParseArgs(args);
    match inv
    case ShowHelp => return Transcript(Some(Success), env.effects, None, false, 0);
    case BadUsage(_) => return Transcript(Some(UsageError), env.effects, None, false, 0);
    case Connect(_, text) =>
      var (host, port) := ParseTarget(text);
      var addr: Address;
      match ResolveHost(host, env.parseLiteral, env.resolve)
      case InvalidAddressFormat => return Transcript(Some(UsageError), env.effects, None, false, 0);
      case ResolutionFailure => return Transcript(Some(Failure), env.effects, None, false, 0);
      case Resolved(a) => addr := a;
      if env.deviceSize.None? || !env.opens {
        return Transcript(Some(Failure), env.effects, None, false, 0);
      }
      if !env.connects(addr, port) {
        return Transcript(Some(Failure), env.effects, Some((addr, port)), true, 1);
      }
      var fx, stop := Pump(env.events, env.effects, env.mayRecv);
      if stop.Some? {
        return Transcript(Some(Success), fx, Some((addr, port)), true, 1);
      }
      return Transcript(None, fx, Some((addr, port)), true, 0);
  }
}
