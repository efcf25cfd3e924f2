/** The command line of `telnet` (src/usr/telnet.rs, lines 41-81): options are read
    left to right, the first that ends the scan decides, and one host argument is
    required at the end. */
module TelnetCli {

  /** Why the command line is refused with `ExitCode::UsageError`. */
  datatype UsageReason = MissingTimeoutSeconds | InvalidOption(arg: string) | TooManyArguments | MissingHost

  /** What the command line asks for. */
  datatype Invocation = ShowHelp | BadUsage(reason: UsageReason) | Connect(verbose: bool, host: string)

  predicate IsHelp(a: string) { a == "-h" || a == "--help" }

  predicate IsVerbose(a: string) { a == "-v" || a == "--verbose" }

  predicate IsTimeout(a: string) { a == "-t" || a == "--timeout" }

  /** `a.starts_with('-')` */
  predicate IsDash(a: string) { |a| > 0 && a[0] == '-' }

  /** The scan from argument i on, with the verbosity and host read so far. */
  function ScanFrom(args: seq<string>, i: nat, verbose: bool, host: string): Invocation
    decreases |args| - i
  {
    if i >= |args| then
      if host == "" then BadUsage(MissingHost) else Connect(verbose, host)
    else
      var a := args[i];
      if IsHelp(a) then ShowHelp
      else if IsVerbose(a) then ScanFrom(args, i + 1, true, host)
      else if IsTimeout(a) then
        // the seconds are parsed with `unwrap_or`, which never fails
        if i + 1 < |args| then ScanFrom(args, i + 2, verbose, host) else BadUsage(MissingTimeoutSeconds)
      else if IsDash(a) then BadUsage(InvalidOption(a))
      else if host == "" then ScanFrom(args, i + 1, verbose, a)
      else BadUsage(TooManyArguments)
  }

  /** The invocation of a command line whose first element is the program name. */
  function InvocationOf(args: seq<string>): Invocation {
    ScanFrom(args, 1, false, "")
  }

  /** The option loop of `main`. */
  method ParseArgs(args: seq<string>) returns (inv: Invocation)
    ensures inv == InvocationOf(args)
  {
    var verbose, host := false, "";
    var i := 1;
    var n := |args|;
    while i < n
      invariant 1 <= i
      invariant ScanFrom(args, i, verbose, host) == InvocationOf(args)
      decreases n - i
    {
      var a := args[i];
      if a == "-h" || a == "--help" {
        return ShowHelp;
      } else if a == "-v" || a == "--verbose" {
        verbose := true;
      } else if a == "-t" || a == "--timeout" {
        if i + 1 < n {
          i := i + 1;
        } else {
          return BadUsage(MissingTimeoutSeconds);
        }
      } else if |a| > 0 && a[0] == '-' {
        return BadUsage(InvalidOption(a));
      } else if host == "" {
        host := a;
      } else {
        return BadUsage(TooManyArguments);
      }
      i := i + 1;
    }
    if host == "" {
      return BadUsage(MissingHost);
    }
    return Connect(verbose, host);
  }

  /** Some argument after the program name asks for verbosity. */
  predicate VerboseFlagIn(args: seq<string>) {
    exists k :: 1 <= k < |args| && IsVerbose(args[k])
  }

  /** The argument `host` is one of the command line's, does not start with a dash and is not empty. */
  predicate HostArgument(args: seq<string>, host: string) {
    host != "" && !IsDash(host) && exists k :: 1 <= k < |args| && args[k] == host
  }

  lemma {:induction false} ScanConnect(args: seq<string>, i: nat, verbose0: bool, host0: string)
    requires i >= 1
    requires host0 == "" || HostArgument(args, host0)
    requires verbose0 ==> VerboseFlagIn(args)
    ensures ScanFrom(args, i, verbose0, host0).Connect? ==>
      var inv := ScanFrom(args, i, verbose0, host0);
      HostArgument(args, inv.host) && (inv.verbose ==> VerboseFlagIn(args))
    decreases |args| - i
  {
    if i < |args| {
      var a := args[i];
      if IsHelp(a) {
      } else if IsVerbose(a) {
        ScanConnect(args, i + 1, true, host0);
      } else if IsTimeout(a) {
        if i + 1 < |args| {
          ScanConnect(args, i + 2, verbose0, host0);
        }
      } else if IsDash(a) {
      } else if host0 == "" {
        ScanConnect(args, i + 1, verbose0, a);
      }
    }
  }

  /** A connection is only ever made to a non-empty host written on the command
      line, and verbosely only when a verbosity flag was given. */
  lemma ConnectHostIsArgument(args: seq<string>)
    ensures InvocationOf(args).Connect? ==>
      HostArgument(args, InvocationOf(args).host) && (InvocationOf(args).verbose ==> VerboseFlagIn(args))
  {
    ScanConnect(args, 1, false, "");
  }

  /** Without arguments the host is missing. */
  lemma NoArgumentsMissingHost(args: seq<string>)
    requires |args| <= 1
    ensures InvocationOf(args) == BadUsage(MissingHost)
  {
  }

  /** A help flag first shows the help, whatever follows it. */
  lemma HelpFirst(args: seq<string>)
    requires |args| >= 2 && IsHelp(args[1])
    ensures InvocationOf(args) == ShowHelp
  {
  }

  /** An unknown dash argument first is refused, whatever follows it. */
  lemma UnknownOptionFirst(args: seq<string>)
    requires |args| >= 2 && IsDash(args[1])
    requires !IsHelp(args[1]) && !IsVerbose(args[1]) && !IsTimeout(args[1])
    ensures InvocationOf(args) == BadUsage(InvalidOption(args[1]))
  {
  }

  /** Only verbosity flags before the host: connect to it, verbosely when there was a flag. */
  lemma {:induction false} FlagsThenHost(args: seq<string>, i: nat, verbose: bool)
    requires 1 <= i < |args|
    requires forall k :: i <= k < |args| - 1 ==> IsVerbose(args[k])
    requires args[|args| - 1] != "" && !IsDash(args[|args| - 1])
    ensures ScanFrom(args, i, verbose, "") == Connect(verbose || i < |args| - 1, args[|args| - 1])
    decreases |args| - i
  {
    if i < |args| - 1 {
      FlagsThenHost(args, i + 1, true);
    } else {
      var a := args[i];
      assert !IsHelp(a) && !IsVerbose(a) && !IsTimeout(a);
    }
  }

  /** `telnet [-v...] host`: the plain form of the command line. */
  lemma FlagsThenHostConnects(args: seq<string>)
    requires |args| >= 2
    requires forall k :: 1 <= k < |args| - 1 ==> IsVerbose(args[k])
    requires args[|args| - 1] != "" && !IsDash(args[|args| - 1])
    ensures InvocationOf(args) == Connect(|args| > 2, args[|args| - 1])
  {
    FlagsThenHost(args, 1, false);
  }

  /** The scan, started at argument j with verbosity vj and host hj, arrives at
      argument i with verbosity v and host h: every argument it passes on the way
      neither ends the scan nor is skipped as the seconds of `-t`. */
  predicate ReachesFrom(args: seq<string>, j: nat, vj: bool, hj: string, i: nat, v: bool, h: string)
    decreases |args| - j
  {
    (j == i && vj == v && hj == h)
    || (j < i && j < |args| &&
        var a := args[j];
        if IsHelp(a) then false
        else if IsVerbose(a) then ReachesFrom(args, j + 1, true, hj, i, v, h)
        else if IsTimeout(a) then j + 1 < |args| && ReachesFrom(args, j + 2, vj, hj, i, v, h)
        else if IsDash(a) then false
        else if hj == "" then ReachesFrom(args, j + 1, vj, a, i, v, h)
        else false)
  }

  /** The option loop of `main` arrives at argument i with verbosity v and host h. */
  predicate Reaches(args: seq<string>, i: nat, v: bool, h: string) {
    ReachesFrom(args, 1, false, "", i, v, h)
  }

  /** Where the scan arrives, it carries on as the scan from that point. */
  lemma {:induction false} ReachesScan(args: seq<string>, j: nat, vj: bool, hj: string, i: nat, v: bool, h: string)
    requires ReachesFrom(args, j, vj, hj, i, v, h)
    ensures ScanFrom(args, j, vj, hj) == ScanFrom(args, i, v, h)
    decreases |args| - j
  {
    if j == i && vj == v && hj == h {
    } else {
      var a := args[j];
      if IsVerbose(a) {
        ReachesScan(args, j + 1, true, hj, i, v, h);
      } else if IsTimeout(a) {
        ReachesScan(args, j + 2, vj, hj, i, v, h);
      } else {
        ReachesScan(args, j + 1, vj, a, i, v, h);
      }
    }
  }

  /** Arriving somewhere and then going on from there is arriving further. */
  lemma {:induction false} ReachesTrans(args: seq<string>, j: nat, vj: bool, hj: string, i: nat, v: bool, h: string,
                                       i': nat, v': bool, h': string)
    requires ReachesFrom(args, j, vj, hj, i, v, h) && ReachesFrom(args, i, v, h, i', v', h')
    ensures ReachesFrom(args, j, vj, hj, i', v', h')
    decreases |args| - j
  {
    if j == i && vj == v && hj == h {
    } else {
      var a := args[j];
      if IsVerbose(a) {
        ReachesTrans(args, j + 1, true, hj, i, v, h, i', v', h');
      } else if IsTimeout(a) {
        ReachesTrans(args, j + 2, vj, hj, i, v, h, i', v', h');
      } else {
        ReachesTrans(args, j + 1, vj, a, i, v, h, i', v', h');
      }
      assert j < i';
    }
  }

  /** Wherever the scan meets `-t` with an argument after it, that argument is taken as
      the seconds whatever it is (even `-h`), and the scan goes on after it with
      nothing else changed. */
  lemma TimeoutConsumesNext(args: seq<string>, i: nat, v: bool, h: string)
    requires Reaches(args, i, v, h) && i + 1 < |args| && IsTimeout(args[i])
    ensures Reaches(args, i + 2, v, h)
    ensures InvocationOf(args) == ScanFrom(args, i + 2, v, h)
  {
    assert ReachesFrom(args, i + 2, v, h, i + 2, v, h);
    assert ReachesFrom(args, i, v, h, i + 2, v, h);
    ReachesTrans(args, 1, false, "", i, v, h, i + 2, v, h);
    ReachesScan(args, 1, false, "", i + 2, v, h);
  }

  /** Wherever the scan meets `-t` as the last argument, the command line is refused
      for the missing seconds, whatever came before. */
  lemma TimeoutWithoutSeconds(args: seq<string>, v: bool, h: string)
    requires |args| >= 2 && Reaches(args, |args| - 1, v, h) && IsTimeout(args[|args| - 1])
    ensures InvocationOf(args) == BadUsage(MissingTimeoutSeconds)
  {
    ReachesScan(args, 1, false, "", |args| - 1, v, h);
  }

  /** Wherever the scan meets an argument without a dash once the host is set, even an
      empty one, the command line is refused as having too many arguments. */
  lemma TwoHostsRefused(args: seq<string>, i: nat, v: bool, h: string)
    requires Reaches(args, i, v, h) && h != "" && i < |args| && !IsDash(args[i])
    ensures InvocationOf(args) == BadUsage(TooManyArguments)
  {
    ReachesScan(args, 1, false, "", i, v, h);
  }

  /** Wherever the scan meets an empty argument before any host, it takes it as the
      host, which leaves the host unset, and goes on. */
  lemma EmptyArgumentBeforeHost(args: seq<string>, i: nat, v: bool)
    requires Reaches(args, i, v, "") && i < |args| && args[i] == ""
    ensures Reaches(args, i + 1, v, "")
    ensures InvocationOf(args) == ScanFrom(args, i + 1, v, "")
  {
    assert ReachesFrom(args, i + 1, v, "", i + 1, v, "");
    assert ReachesFrom(args, i, v, "", i + 1, v, "");
    ReachesTrans(args, 1, false, "", i, v, "", i + 1, v, "");
    ReachesScan(args, 1, false, "", i + 1, v, "");
  }

  /** Empty arguments and verbosity flags never name a host. */
  lemma {:induction false} BlankScanMissesHost(args: seq<string>, i: nat, v: bool)
    requires forall k :: i <= k < |args| ==> args[k] == "" || IsVerbose(args[k])
    ensures ScanFrom(args, i, v, "") == BadUsage(MissingHost)
    decreases |args| - i
  {
    if i < |args| {
      if IsVerbose(args[i]) {
        BlankScanMissesHost(args, i + 1, true);
      } else {
        BlankScanMissesHost(args, i + 1, v);
      }
    }
  }

  /** A command line of nothing but empty arguments and verbosity flags has no host. */
  lemma NoHostMissing(args: seq<string>)
    requires forall k :: 1 <= k < |args| ==> args[k] == "" || IsVerbose(args[k])
    ensures InvocationOf(args) == BadUsage(MissingHost)
  {
    BlankScanMissesHost(args, 1, false);
  }

  /** Command lines that show the rules above and their order: help wins only where the
      scan reaches it, `-t` swallows `-h`, and an empty argument is refused once the
      host is set. */
  lemma CommandLineExamples()
    ensures InvocationOf(["telnet", "-t", "-h", "example.com"]) == Connect(false, "example.com")
    ensures InvocationOf(["telnet", "example.com", "-t"]) == BadUsage(MissingTimeoutSeconds)
    ensures InvocationOf(["telnet", "-h", "-t"]) == ShowHelp
    ensures InvocationOf(["telnet", "a", "b"]) == BadUsage(TooManyArguments)
    ensures InvocationOf(["telnet", "a", ""]) == BadUsage(TooManyArguments)
    ensures InvocationOf(["telnet", "a", "-h", "b"]) == ShowHelp
    ensures InvocationOf(["telnet", "", "a"]) == Connect(false, "a")
    ensures InvocationOf(["telnet", ""]) == BadUsage(MissingHost)
  {
  }
}
