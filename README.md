# MOROS telnet, asm and ls — a Dafny model

This project models three user programs of the MOROS operating system, each with
its contracts proved:

- **telnet** (`src/usr/telnet.rs`)
  - The command line.
  - The `host[:port]` target, where the port falls back to 23.
  - Whether the host is an IP literal or a name to resolve.
  - The TELNET negotiation engine. It recognises three commands: the terminal-type
    query of RFC 1091, and WILL/WONT for option 1, which is used as "suppress local echo".
    It answers each with a fixed reply.
  - The receive loop that drives the engine over one chunk read from the socket.
  - The `\n` to `\r\n` translation of outbound lines.
  - The session loop: it exits on ^C or ^D, or when the socket status byte has its
    MayRecv bit clear.
  - The exit codes and when the socket is closed.
- **asm** (`src/usr/assembler.rs`)
  - The nom parser, restated as a hand-written parser over strings: `parse`,
    `parse_label`, `parse_instr`, `hex`.
  - The numeric literal parsers `parse_u8/u32/u64`.
  - The register tables `parse_r32/r64`.
  - The two passes of `assemble`. Pass 1 gives each label a fresh label number, in
    order. Pass 2 turns each line into the abstract instruction the mnemonic dispatch
    would hand to the encoder. Each instruction records which operand branch was taken
    and which label number it refers to.
- **ls** (`src/usr/coreutils/ls.rs`)
  - The argument loop.
  - The dot-file filter.
  - The sort by name, in place on an array.
  - The two width folds.
  - The inline wrap counter.
  - The padded fields printed by `print_file`.
  - The whole of `main`, over a file system given as functions.

Modules follow the programs:

- `RustCore`: the Rust library behaviour the programs rely on:
  - `from_str_radix` for unsigned types;
  - `to_string` of integers;
  - the ASCII character classes;
  - the Unicode White_Space set that `str::trim` strips.
- `TelnetTarget`, `TelnetNegotiation`, `TelnetCli` and `TelnetSession`
- `AsmRegisters`, `AsmParser` and `AsmAssemble`
- `Ls`

None of the three programs does arithmetic that can overflow, so integers are
unbounded. The limits of `u8`, `u16`, `u32` and `u64` appear where the programs
parse into those types.

A malformed IP literal ends `telnet` with `ExitCode::UsageError`
(src/usr/telnet.rs:88-91); it has no failure code of its own.

## Model

| member | source | states |
|---|---|---|
| RustCore.Numeral | src/usr/coreutils/ls.rs:61 | `to_string` of an integer has at least one character, all of them letters or digits |
| RustCore.NumeralValue | src/usr/coreutils/ls.rs:61 | reading the numeral of n back digit by digit gives n |
| RustCore.FromStrRadixNumeral | src/usr/assembler.rs:291 | `from_str_radix` of the numeral of any n up to the maximum gives n back, in any radix |
| RustCore.DecimalRoundTrip | src/usr/telnet.rs:32 | parsing `n.to_string()` gives n back whenever n fits the type |
| RustCore.FromStrRadixTooLarge | src/usr/assembler.rs:291-293 | the numeral of any value above the type's maximum is rejected, in any radix: the parse neither saturates nor wraps |
| RustCore.FromStrRadixRejects | src/usr/assembler.rs:293 | one character that is not a digit of the radix, after an optional leading `+`, makes the parse fail |
| TelnetTarget.FindColon | src/usr/telnet.rs:26 | `find(':')` returns the position of the first colon, and none exactly when the text has no colon |
| TelnetTarget.PortOrDefault | src/usr/telnet.rs:30-32 | the port is at most 65535, and it is 23 whenever the text is not a `u16` numeral |
| TelnetTarget.ParseTarget | src/usr/telnet.rs:25-33 | without a colon the result is the whole text with port 23; otherwise the host is the text before the first colon, which holds no colon, and the port comes from the rest |
| TelnetTarget.ParseTargetSplit | src/usr/telnet.rs:25-33 | a colon-free host, a colon and any port text split back into that host and that text's port |
| TelnetTarget.ParseTargetRoundTrip | src/usr/telnet.rs:25-33 | writing `host:port` for any `u16` port and parsing it gives the host and the port back |
| TelnetTarget.BadPortFallsBack | src/usr/telnet.rs:32 | a port text that does not parse as a `u16`, empty included, gives port 23 and never an error |
| TelnetTarget.SecondColonDefaultsPort | src/usr/telnet.rs:26-32 | only the first colon splits, so `h:1:2` goes to port 23 |
| TelnetTarget.PortTooLarge | src/usr/telnet.rs:32 | port text 65536 does not fit a `u16` and gives port 23 |
| TelnetTarget.PortAboveMaxFallsBack | src/usr/telnet.rs:32 | the decimal numeral of any number above 65535 does not fit a `u16`, so the port is 23 |
| TelnetTarget.PortMaxFits | src/usr/telnet.rs:32 | port text 65535 fits a `u16` and is kept |
| TelnetTarget.ResolveHost | src/usr/telnet.rs:85-101 | a host whose last character is a digit is parsed as a literal: the result is an invalid address exactly when the literal parser fails, and never a resolution failure. Any other host goes to the resolver: the result is a resolution failure exactly when the resolver fails, and never an invalid address |
| TelnetNegotiation.CommandOf | src/usr/telnet.rs:178-204 | each of the three commands is recognised exactly for its own verb and option byte pair |
| TelnetNegotiation.CommandAt | src/usr/telnet.rs:177 | a command is read only at an IAC byte that is followed by two more bytes |
| TelnetNegotiation.TerminalTypeReply | src/usr/telnet.rs:179-189 | the terminal-type answer is exactly 20 bytes: IAC SB TERMINAL-TYPE 0, the ASCII name `XTERM-256COLOR`, then IAC SE |
| TelnetNegotiation.HandleIac | src/usr/telnet.rs:176-210 | it handles the command exactly when the byte is IAC, two more bytes follow, and the pair is (DO, 24), (WILL, 1) or (WONT, 1). Then the cursor moves by 2 and the matching reply is sent: DO keeps echo, WILL turns local echo off, WONT turns it on. Otherwise the cursor and the effects are unchanged |
| TelnetNegotiation.Receive | src/usr/telnet.rs:144-155 | the receive loop over a chunk ends with exactly the display, answers and echo of the engine's reading of the chunk |
| TelnetNegotiation.NegotiatedStep | src/usr/telnet.rs:145-155 | one loop turn either consumes a recognised 3-byte command, sending its answer and applying its echo change, or displays one byte |
| TelnetNegotiation.PayloadLength | src/usr/telnet.rs:144-155 | the displayed bytes plus three bytes per answered command add up to the chunk's length, so exactly the recognised commands are removed from the display |
| TelnetNegotiation.PlainDataPassesThrough | src/usr/telnet.rs:152-154 | a chunk without IAC is displayed unchanged, answers nothing and leaves echo alone |
| TelnetNegotiation.TrailingIacDisplayed | src/usr/telnet.rs:177 | an IAC in one of the last two positions of a chunk is displayed verbatim with what follows it, and sends nothing |
| TelnetNegotiation.TrailingIacAlone | src/usr/telnet.rs:177 | a chunk that is just IAC, or IAC and one byte, is displayed as it is |
| TelnetNegotiation.EchoFollowsLastAnswer | src/usr/telnet.rs:192-203 | the echo setting after a chunk is decided by the last echo answer sent in it, or left as it was when none was sent |
| TelnetNegotiation.RepeatedWillIsIdempotent | src/usr/telnet.rs:192-197 | WILL 1 turns echo off and is acknowledged with DO 1; a repeated WILL keeps echo off and only sends the acknowledgement again |
| TelnetNegotiation.WillThenWont | src/usr/telnet.rs:192-203 | WILL 1 then WONT 1 sends DO 1 then DONT 1 and leaves echo on |
| TelnetNegotiation.UnknownPairDisplayed | src/usr/telnet.rs:177-204 | an IAC followed by any two bytes that are not one of the three known pairs is displayed byte for byte, nothing is sent and the echo setting is kept |
| TelnetNegotiation.SplitCommandNotReassembled | src/usr/telnet.rs:140-155 | a command split across two reads is not recognised: its bytes are displayed |
| TelnetCli.ParseArgs | src/usr/telnet.rs:41-81 | the argument loop ends in the invocation that the argument scan defines |
| TelnetCli.ConnectHostIsArgument | src/usr/telnet.rs:63-81 | when the arguments lead to a connection, the host is one of the arguments, and verbose mode is on only if a verbose flag was given |
| TelnetCli.NoArgumentsMissingHost | src/usr/telnet.rs:78-81 | with no arguments the result is the usage error for a missing host |
| TelnetCli.HelpFirst | src/usr/telnet.rs:48-50 | `-h` or `--help` as the first argument shows the help |
| TelnetCli.UnknownOptionFirst | src/usr/telnet.rs:63-66 | any other first argument that starts with `-` is an invalid option |
| TelnetCli.FlagsThenHostConnects | src/usr/telnet.rs:46-76 | verbose flags followed by one host connect to that host, with verbose on exactly when a flag was given |
| TelnetCli.ReachesScan | src/usr/telnet.rs:46-76 | wherever the option loop arrives, with whatever verbosity and host, the outcome is that of the scan from that argument on |
| TelnetCli.TimeoutConsumesNext | src/usr/telnet.rs:54-58 | wherever the loop meets `-t` with an argument after it, that argument is skipped whatever it is, even `-h`, and the loop goes on after it with nothing else changed |
| TelnetCli.TimeoutWithoutSeconds | src/usr/telnet.rs:55-61 | wherever the loop meets `-t` as the last argument, whatever came before, the command line is refused for the missing seconds |
| TelnetCli.TwoHostsRefused | src/usr/telnet.rs:64-72 | wherever the loop meets an argument without a dash once the host is set, even an empty one, the command line is refused as having too many arguments |
| TelnetCli.EmptyArgumentBeforeHost | src/usr/telnet.rs:67-68 | wherever the loop meets an empty argument before any host, the host stays unset and the loop goes on |
| TelnetCli.NoHostMissing | src/usr/telnet.rs:46-81 | a command line of nothing but empty arguments and verbosity flags is refused for the missing host |
| TelnetCli.CommandLineExamples | src/usr/telnet.rs:46-81 | `-t -h host` connects, `host -t` misses the seconds, `-h -t` and `a -h b` show the help, `a b` and `a ""` have too many arguments, `"" a` connects to `a` and `""` alone misses the host |
| TelnetSession.IsClosedIsGetBit | src/usr/telnet.rs:212-214 | for every status byte and bit number, `is_closed` holds exactly when `get_bit` of that bit, on the bits of the byte, is false |
| TelnetSession.IsClosedOnlyItsBitMatters | src/usr/telnet.rs:212-214 | two status bytes that agree on the MayRecv bit are both closed or both open, whatever their other bits |
| TelnetSession.IsClosedExamples | src/usr/telnet.rs:212-214 | for every bit number, the byte of just that bit and the full byte are open; the byte of all the other bits and 0 are closed |
| TelnetSession.CrLfShape | src/usr/telnet.rs:137 | the outbound line grows by one byte per line feed and has no line feed without a carriage return before it |
| TelnetSession.CrLfRoundTrip | src/usr/telnet.rs:137 | removing the carriage returns that `replace` inserted gives the line back |
| TelnetSession.FirstExit | src/usr/telnet.rs:129-132 | the session stops at the first turn that is ^C/^D or a closed status read, and at no earlier one |
| TelnetSession.Played | src/usr/telnet.rs:128-168 | the turns played are a prefix of the turns offered |
| TelnetSession.Pump | src/usr/telnet.rs:128-168 | the session loop stops at the first exit turn, and its effects are those of the turns before it and the exit turn itself, applied in order |
| TelnetSession.FirstExitAt | src/usr/telnet.rs:160-166 | a turn that exits, with no exit before it, is where the session stops |
| TelnetSession.ReplayAppend | src/usr/telnet.rs:128-168 | playing two runs of turns one after the other is playing them joined |
| TelnetSession.ReplyHasNoLf | src/usr/telnet.rs:179-203 | no answer the engine sends contains a line feed byte |
| TelnetSession.SentHasNoBareLf | src/usr/telnet.rs:137-138 | everything the session writes to the socket has no line feed without a carriage return before it |
| TelnetSession.EchoChangesOnlyInbound | src/usr/telnet.rs:192-203 | only data from the socket changes the echo setting |
| TelnetSession.InterruptEndsWithNewline | src/usr/telnet.rs:129-131 | a session ended by ^C or ^D ends its display with a newline |
| TelnetSession.Telnet | src/usr/telnet.rs:36-174 | help exits 0 and bad usage exits with a usage error, both without touching the socket. An invalid literal is a usage error; a resolution failure or an unusable device is a failure. Once opened, the socket is closed exactly once if the run ends: on connect failure, or after the loop. A connected session plays the turns up to the first exit |
| AsmRegisters.ParseR32 | src/usr/assembler.rs:313-333 | exactly the sixteen listed names are accepted, each to the register of that name |
| AsmRegisters.ParseR64 | src/usr/assembler.rs:335-355 | exactly the sixteen listed names are accepted, each to the register of that name |
| AsmRegisters.Reg32RoundTrip | src/usr/assembler.rs:313-333 | every 32-bit register is read back from its name |
| AsmRegisters.Reg64RoundTrip | src/usr/assembler.rs:335-355 | every 64-bit register is read back from its name |
| AsmRegisters.TablesDisjoint | src/usr/assembler.rs:98-101 | no name is in both tables, so trying the 32-bit table first never changes a result |
| AsmRegisters.RegisterNamesStartWithLetter | src/usr/assembler.rs:313-355 | every register name starts with a letter |
| AsmRegisters.UppercaseRejected | src/usr/assembler.rs:313-355 | the tables are case sensitive |
| AsmParser.Multispace0 | src/usr/assembler.rs:273 | `multispace0` stops at the first character that is not a space, tab, carriage return or line feed |
| AsmParser.Alpha1 | src/usr/assembler.rs:273 | `alpha1` succeeds exactly at an ASCII letter and takes the longest run of letters |
| AsmParser.Hex | src/usr/assembler.rs:357-364 | `hex` takes an optional `0x`/`0X` prefix and then the longest run of letters and digits, and returns the whole span. It fails exactly when no letter or digit follows the prefix it matched |
| AsmParser.Operand | src/usr/assembler.rs:276 | an operand is a run of letters and digits; one that starts with a letter is the whole run of letters |
| AsmParser.Separator | src/usr/assembler.rs:275 | a separator starts exactly at a comma |
| AsmParser.Operands | src/usr/assembler.rs:274-277 | the operand list is empty exactly when no operand starts at the cursor, and every operand is a run of letters and digits |
| AsmParser.ParseLabel | src/usr/assembler.rs:284-287 | a label is an alphabetic word, and parsing it consumes input, ending only after the blanks that follow the colon |
| AsmParser.ParseInstr | src/usr/assembler.rs:271-282 | an instruction is read exactly when an ASCII letter follows the leading blanks; its first word is the alphabetic mnemonic, and the others are letter and digit runs |
| AsmParser.ParseAt | src/usr/assembler.rs:264-269 | `parse` fails exactly when no letter follows the leading blanks, and otherwise consumes at least one character |
| AsmParser.Parse | src/usr/assembler.rs:264-269 | what is left after a successful parse is a strictly shorter suffix of the input, so both passes terminate |
| AsmParser.LabelRoundTrip | src/usr/assembler.rs:264-287 | `name:` after any white space (such as the line feed that ends the previous line) and with blanks after it parses as that label, a label being tried before an instruction, and leaves the rest |
| AsmParser.OperandsJoin | src/usr/assembler.rs:274-277 | operands written with `, ` between them are read back as the same list |
| AsmParser.InstrRoundTrip | src/usr/assembler.rs:264-282 | a mnemonic followed by operand tokens written as one source line, after any white space, parses back as that instruction with nothing left |
| AsmParser.MnemonicSwallowsNextLine | src/usr/assembler.rs:272-278 | an instruction without operands takes the next line's mnemonic as its operand |
| AsmParser.WideRegisterOperandSplits | src/usr/assembler.rs:276 | the word alternative cuts `r8d` after the `r`, and what is left does not parse |
| AsmParser.SpaceBeforeCommaEndsOperands | src/usr/assembler.rs:274-275 | a blank before a comma ends the operand list |
| AsmParser.HexExamples | src/usr/assembler.rs:357-364 | `0x` alone or before a comma fails; `0xff`, `0X1F` and `12ab` are four characters long |
| AsmParser.ParseU8Numerals | src/usr/assembler.rs:289-295 | `parse_u8` of the decimal numeral of n, or of `0x` and its hexadecimal numeral, gives n exactly when n is at most 255, and fails otherwise |
| AsmParser.ParseU32Numerals | src/usr/assembler.rs:297-303 | `parse_u32` of the decimal or `0x` numeral of n gives n exactly when n fits 32 bits, and fails otherwise |
| AsmParser.ParseU64Numerals | src/usr/assembler.rs:305-311 | `parse_u64` of the decimal or `0x` numeral of n gives n exactly when n fits 64 bits, and fails otherwise |
| AsmParser.ParseUnsignedTooLarge | src/usr/assembler.rs:289-311 | a value above the type's maximum is rejected in its decimal numeral and in its `0x` hexadecimal numeral |
| AsmParser.ParseUnsignedRoundTrip | src/usr/assembler.rs:289-311 | every value that fits is read back from its decimal form and from its `0x` hexadecimal form |
| AsmParser.UppercasePrefixRejected | src/usr/assembler.rs:290-294 | a `0X` prefix is not stripped, so the base-10 parse fails |
| AsmParser.DecimalU8Range | src/usr/assembler.rs:289-295 | in base 10 a `u8` holds 255 and not 256 |
| AsmParser.HexU8Range | src/usr/assembler.rs:289-295 | in base 16 a `u8` holds 0xff and not 0x100 |
| AsmAssemble.Stream | src/usr/assembler.rs:62-83 | a pass reads at most one line per character of input |
| AsmAssemble.CollectLabels | src/usr/assembler.rs:57-83 | pass 1 ends with the label map of the lines it parsed, and with one label created per label line |
| AsmAssemble.LabelsOfKeys | src/usr/assembler.rs:67-70 | a name is in the map exactly when a label line of that name was parsed |
| AsmAssemble.LabelsOfLastWins | src/usr/assembler.rs:69 | a later label of the same name replaces an earlier one: the name maps to its last definition |
| AsmAssemble.LabelsOfCreated | src/usr/assembler.rs:68 | every label in the map is one of those created |
| AsmAssemble.JumpCond | src/usr/assembler.rs:151-198 | exactly the eight jump mnemonics have a condition |
| AsmAssemble.DbBytes | src/usr/assembler.rs:119-127 | `db` emits at most one byte per operand |
| AsmAssemble.CollectBytes | src/usr/assembler.rs:120-125 | the `db` loop collects the bytes that `DbBytes` defines |
| AsmAssemble.DbBytesAppend | src/usr/assembler.rs:121-125 | the bytes of two operand lists are the bytes of each, in order |
| AsmAssemble.DbSkipsRejected | src/usr/assembler.rs:121-125 | an operand that `parse_u8` rejects is skipped silently |
| AsmAssemble.DbAllAccepted | src/usr/assembler.rs:121-125 | when every operand parses, the bytes are the operands' values, one each, in order |
| AsmAssemble.Dispatch | src/usr/assembler.rs:96-245 | a line stops the pass as an invalid instruction exactly when its mnemonic is outside the table, and it names that mnemonic. A missing operand panics only on lines of at most two words. Every other line gives at most one instruction |
| AsmAssemble.RegisterForms | src/usr/assembler.rs:97-227 | `call`, `push`, `pop`, `inc` and `dec` of any register name give that instruction on that register |
| AsmAssemble.MoveImmediate32 | src/usr/assembler.rs:199-202 | `mov` of a 32-bit register and a `u32` number loads the number |
| AsmAssemble.MoveImmediate64 | src/usr/assembler.rs:206-208 | `mov` of a 64-bit register and a `u64` number loads the number |
| AsmAssemble.OtherImmediates | src/usr/assembler.rs:106-239 | `cmp` and `xor` of a 32-bit register and a `u32` number, and `int` of a `u32` number, give that instruction |
| AsmAssemble.DecimalNotRegister | src/usr/assembler.rs:199-208 | a decimal numeral is never a register name, so it reaches the number branch |
| AsmAssemble.CallLabelForm | src/usr/assembler.rs:97-104 | `call` of a name that is not a register calls its label when pass 1 defined it, and emits nothing otherwise |
| AsmAssemble.JumpLabelForm | src/usr/assembler.rs:151-198 | a jump goes to its label when pass 1 defined it, and emits nothing otherwise |
| AsmAssemble.LoadLabel32 | src/usr/assembler.rs:200-205 | `mov` of a 32-bit register and a name that is not a number loads the label's address when it is defined, and emits nothing otherwise |
| AsmAssemble.LoadLabel64 | src/usr/assembler.rs:206-211 | `mov` of a 64-bit register and a name that is not a number loads the label's address when it is defined, and emits nothing otherwise |
| AsmAssemble.RegisterShadowsLabel | src/usr/assembler.rs:97-104 | a register name is read as the register even when a label has that name |
| AsmAssemble.StopForms | src/usr/assembler.rs:96-244 | a missing operand panics, `ret` needs none, and an unknown mnemonic stops the pass |
| AsmAssemble.Translate | src/usr/assembler.rs:86-247 | each line gives at most one instruction |
| AsmAssemble.LowerAppend | src/usr/assembler.rs:85-258 | pass 2 over two runs of lines is pass 2 over the first, then over the second only if the first did not stop |
| AsmAssemble.StopKeepsPrefix | src/usr/assembler.rs:241-244 | a line that stops pass 2 ends the code with exactly what the lines before it produced |
| AsmAssemble.TargetsAreDeclared | src/usr/assembler.rs:102-211 | every label the code refers to is one of the map's labels |
| AsmAssemble.LabelsAreBound | src/usr/assembler.rs:89-93 | every label line of the input finds its name in pass 1's map and places that label |
| AsmAssemble.SecondPass | src/usr/assembler.rs:84-258 | the second loop produces exactly the code, and the way it stops, that pass 2 over the parsed lines defines |
| AsmAssemble.Assemble | src/usr/assembler.rs:57-260 | `assemble` runs pass 2 over the lines with the labels pass 1 collected from the same lines |
| Ls.ParseLsArgs | src/usr/coreutils/ls.rs:27-34 | the argument loop ends in the options that the arguments define |
| Ls.OptionsMeaning | src/usr/coreutils/ls.rs:27-34 | dot files are hidden exactly when no `-a` was given, and long format is on exactly when a `-l` was given. The path is the last argument that is neither flag, or the current directory when there is none |
| Ls.CombinedFlagsArePath | src/usr/coreutils/ls.rs:29-33 | flags are matched whole: `-la` is a path, and a later path replaces an earlier one |
| Ls.Visible | src/usr/coreutils/ls.rs:39-41 | an entry is kept exactly when it is not a dot file or hiding is off, and with `-a` all entries are kept in order |
| Ls.VisibleAppend | src/usr/coreutils/ls.rs:39-41 | the filter keeps the entries' order |
| Ls.VisibleCounts | src/usr/coreutils/ls.rs:39-41 | every shown entry is kept as many times as it occurs, and every hidden one is removed |
| Ls.NameLeTotal | src/usr/coreutils/ls.rs:44 | any two names are ordered one way or the other |
| Ls.NameLeTrans | src/usr/coreutils/ls.rs:44 | the name order is transitive |
| Ls.NameLeAntisymmetric | src/usr/coreutils/ls.rs:44 | two names ordered both ways are equal |
| Ls.SortByName | src/usr/coreutils/ls.rs:44 | the files end up sorted by name and are a permutation of what they were |
| Ls.ByteLen | src/usr/coreutils/ls.rs:55 | `len()` counts UTF-8 bytes: equal to the number of characters for ASCII names, larger as soon as one character is not ASCII |
| Ls.MaxOf | src/usr/coreutils/ls.rs:54-63 | the fold's result is at least every file's width, is reached by one of them, and is 0 when there are no files |
| Ls.ListedNamesFit | src/usr/coreutils/ls.rs:54-57 | every listed name fits in `name_len` bytes |
| Ls.PadRight | src/usr/coreutils/ls.rs:110 | `{:<len$}` is the text followed by spaces up to the width, and never cut |
| Ls.PadLeft | src/usr/coreutils/ls.rs:106 | `{:>size_len$}` is spaces up to the width followed by the text, and never cut |
| Ls.FileField | src/usr/coreutils/ls.rs:94-119 | inline, `print_file` prints only the padded name. In long format it prints three pieces: the size and time, then the padded name, then a line break |
| Ls.FieldWidth | src/usr/coreutils/ls.rs:109-114 | a name that fits takes exactly `name_len + 1` columns: the name, then spaces |
| Ls.SizeColumn | src/usr/coreutils/ls.rs:106 | a size that fits is right-aligned in `size_len` columns |
| Ls.WrapAsWritten | src/usr/coreutils/ls.rs:68-73 | as written: it breaks exactly when the field would pass column 80, and the counter never exceeds 80 |
| Ls.Wrap | src/usr/coreutils/ls.rs:68-73 | corrected: it breaks exactly when the field would pass column 80, and the counter is then the width of the file printed on the new line |
| Ls.CounterBound | src/usr/coreutils/ls.rs:67-74 | `cur_width` stays at most 80 throughout the loop. This holds for the counter as written, and for the corrected counter whenever one field fits in 80 columns |
| Ls.PrintFiles | src/usr/coreutils/ls.rs:65-77 | the print loop prints the listing that `ListFiles` defines, with the counter as written (reset to 0 on a break) or the corrected one, as chosen |
| Ls.ListingTrack | src/usr/coreutils/ls.rs:65-77 | for names that fit, the counter, the printed column and the widest line follow the widths alone |
| Ls.CorrectedTrack | src/usr/coreutils/ls.rs:68-73 | with the corrected counter, the counter is always the printed column, and no line is wider than 80 when one field fits |
| Ls.AsWrittenTrack | src/usr/coreutils/ls.rs:68-73 | as written, five fields of 40 columns end at column 120 while the counter says 80 |
| Ls.ListingFits | src/usr/coreutils/ls.rs:65-77 | with the corrected counter, every inline line is at most 80 columns wide, and the counter is the printed column |
| Ls.AsWrittenOverflows | src/usr/coreutils/ls.rs:65-77 | as written, five files with 39-byte names print a line 120 columns wide |
| Ls.LongIsListing | src/usr/coreutils/ls.rs:65-77 | in long format the loop prints each file's three pieces, file after file |
| Ls.LongOneLinePerFile | src/usr/coreutils/ls.rs:104-118 | in long format the k-th line is exactly the k-th file's size, time and name |
| Ls.LongEndsLine | src/usr/coreutils/ls.rs:116-118 | a long listing ends at the start of a line |
| Ls.Ls | src/usr/coreutils/ls.rs:20-92 | a missing path fails and prints nothing. A file is printed alone with its own widths. An unreadable directory fails. A directory lists its visible entries sorted by name, as a permutation of them, with the widths of the widest name and size, and with the wrap counter as written or the corrected one, as chosen |

## Left out

- Every system call: `open`, `connect`, `poll`, `read`, `write`, `close`, `sleep`, `info`
  and `read_dir`. They are I/O. The session takes them as given turns: ^C or ^D, a line
  from stdin, a chunk or a failed read from the socket, and an idle turn with its
  status byte. The file system and the socket are given as functions and flags.
- `IpAddress::from_str` and `usr::host::resolve` are foreign code. They are parameters
  that return an optional address.
- The console's global echo state, `disable_echo` and `enable_echo` are modelled as the
  echo flag in the effects.
- The timeout (an `f64` that is parsed and never used) and the 10 ms sleep: floating
  point and timing.
- The bit number of `SocketStatus::MayRecv` is defined outside these files. It is a
  parameter below 8.
- TelnetTarget.ResolveHost: `char::is_numeric` (the Unicode Numeric property) is modelled
  as the ASCII digits only. A host ending in another numeric character is sent to the
  resolver in the model and to the literal parser in the code.
- The iced_x86 `CodeAssembler`: instruction encoding, `create_label`, `set_label` and
  `assemble(0x200_000)`. It is a foreign library. Pass 2 stops at the abstract
  instruction and the label number it refers to. Encoder errors raised by `?` are not
  modelled.
- The assembler's `main`: reading the file, prepending `BIN_MAGIC` and writing the result.
  This is I/O.
- Logging (`debug!`, `error!`), the help texts and the `Style` colour codes: UI only.
  They do not change any result. `-v` only changes logging, so the model records it
  and nothing reads it.
- `time::from_timestamp(...).format(DATE_TIME)` and the `u64` to `i64` cast before it
  are clock code. They are a parameter that formats a time stamp.
- Ls.SortByName: `sort_by_key` is the library's stable sort. An insertion sort stands
  for it. Its contract is sorted and a permutation, but not stability, which matters
  only for entries with equal names.
- The `_` branch of `match sort` in ls. It cannot be reached, because `sort` is always
  `"name"`.
- src/usr/coreutils/pwd.rs only prints the current directory; it is not part of this model.

## Findings

| source | as written | input that shows it | evidently intended | confidence | as-written member | corrected member |
|---|---|---|---|---|---|---|
| src/usr/coreutils/ls.rs:68-73 | when a file does not fit on the line, `cur_width` goes back to 0, although the file is then printed at the start of the new line, so the counter stays one field behind the printed column | inline listing of five files whose longest name is 39 bytes (fields of 40 columns): the fifth file ends at column 120 | after the line break the counter holds the width of the file just printed, so no inline line passes column 80 | medium; not executed | Ls.AsWrittenOverflows | Ls.ListingFits |
