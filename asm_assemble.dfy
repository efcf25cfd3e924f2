/** The two passes of `assemble` (src/usr/assembler.rs, lines 57-260). Pass 1 parses
    the source and gives every label definition a fresh label; pass 2 parses it again
    and chooses, for each line, which instruction form of the code assembler to call.
    The choice is recorded as an abstract instruction instead of machine code. */
module AsmAssemble {
  import opened RustCore
  import opened AsmRegisters
  import opened AsmParser

  /** The lines both passes read: parse from the start, and stop when a parse fails
      or only white space is left. */
  function Stream(s: string, i: nat): (r: seq<Exp>)
    requires i <= |s|
    ensures |r| <= |s| - i
    decreases |s| - i
  {
    match ParseAt(s, i)
    case None => []
    case Some(p) => [p.value] + (if IsBlank(s[p.end..]) then [] else Stream(s, p.end))
  }

  /** The number of label definitions among the lines. */
  function LabelCount(exps: seq<Exp>): nat
    decreases |exps|
  {
    if |exps| == 0 then 0
    else LabelCount(exps[..|exps| - 1]) + (if exps[|exps| - 1].Label? then 1 else 0)
  }

  /** The map pass 1 builds: each label definition, in order, inserts its name with the
      next fresh label (labels are numbered in order of creation), replacing any earlier
      label of that name. */
  function LabelsOf(exps: seq<Exp>): map<string, nat>
    decreases |exps|
  {
    if |exps| == 0 then map[]
    else
      var before := LabelsOf(exps[..|exps| - 1]);
      match exps[|exps| - 1]
      case Label(name) => before[name := LabelCount(exps[..|exps| - 1])]
      case Instr(_) => before
  }

  /** One parse of the loop: the line read and where the stream goes on, if it does. */
  lemma StreamStep(s: string, i: nat)
    requires i <= |s| && ParseAt(s, i).Some?
    ensures var p := ParseAt(s, i).value;
      Stream(s, i) == [p.value] + (if IsBlank(s[p.end..]) then [] else Stream(s, p.end))
  {
  }

  lemma StreamStop(s: string, i: nat)
    requires i <= |s| && ParseAt(s, i).None?
    ensures Stream(s, i) == []
  {
  }

  lemma LabelsOfSnoc(exps: seq<Exp>, e: Exp)
    ensures LabelsOf(exps + [e]) == (if e.Label? then LabelsOf(exps)[e.name := LabelCount(exps)] else LabelsOf(exps))
    ensures LabelCount(exps + [e]) == LabelCount(exps) + (if e.Label? then 1 else 0)
  {
    assert (exps + [e])[..|exps|] == exps;
  }

  /** Pass 1 (lines 58-83). */
  method CollectLabels(input: string) returns (labels: map<string, nat>, created: nat)
    ensures labels == LabelsOf(Stream(input, 0))
    ensures created == LabelCount(Stream(input, 0))
  {
    labels, created := map[], 0;
    var pos := 0;
    ghost var done: seq<Exp> := [];
    ghost var all := Stream(input, 0);
    var running := true;
    while running
      invariant pos <= |input|
      invariant running ==> all == done + Stream(input, pos)
      invariant !running ==> all == done
      invariant labels == LabelsOf(done) && created == LabelCount(done)
      decreases |input| - pos, running
    {
      var r := ParseAt(input, pos);
      if r.None? {
        StreamStop(input, pos);
        assert done + [] == done;
        running := false;
      } else {
        CollectStep(input, pos, done, labels, created);
        var p := r.value;
        if p.value.Label? {
          labels := labels[p.value.name := created];
          created := created + 1;
        }
        done := done + [p.value];
        if IsBlank(input[p.end..]) {
          running := false;
        } else {
          pos := p.end;
        }
      }
    }
  }

  lemma CollectStep(s: string, i: nat, done: seq<Exp>, labels: map<string, nat>, created: nat)
    requires i <= |s| && ParseAt(s, i).Some?
    requires labels == LabelsOf(done) && created == LabelCount(done)
    ensures var e := ParseAt(s, i).value.value;
      var end := ParseAt(s, i).value.end;
      && done + Stream(s, i) == (done + [e]) + (if IsBlank(s[end..]) then [] else Stream(s, end))
      && (if e.Label? then labels[e.name := created] else labels) == LabelsOf(done + [e])
      && (if e.Label? then created + 1 else created) == LabelCount(done + [e])
  {
    var p := ParseAt(s, i).value;
    var tail := if IsBlank(s[p.end..]) then [] else Stream(s, p.end);
    StreamStep(s, i);
    LabelsStep(done, p.value, tail, labels, created);
  }

  /** One line of pass 1 on the lines alone, apart from how they were parsed. */
  lemma LabelsStep(done: seq<Exp>, e: Exp, tail: seq<Exp>, labels: map<string, nat>, created: nat)
    requires labels == LabelsOf(done) && created == LabelCount(done)
    ensures done + ([e] + tail) == (done + [e]) + tail
    ensures (if e.Label? then labels[e.name := created] else labels) == LabelsOf(done + [e])
    ensures (if e.Label? then created + 1 else created) == LabelCount(done + [e])
  {
    assert done + ([e] + tail) == (done + [e]) + tail;
    LabelsOfSnoc(done, e);
  }

  /** A name is in the map exactly when a label of that name was defined. */
  lemma {:induction false} LabelsOfKeys(exps: seq<Exp>, name: string)
    ensures name in LabelsOf(exps) <==> Label(name) in exps
    decreases |exps|
  {
    if |exps| > 0 {
      var init := exps[..|exps| - 1];
      LabelsOfKeys(init, name);
      assert exps == init + [exps[|exps| - 1]];
    }
  }

  /** A name maps to the label created for its last definition: a later definition
      of the same name replaces an earlier one. */
  lemma {:induction false} LabelsOfLastWins(exps: seq<Exp>, j: nat)
    requires j < |exps| && exps[j].Label?
    requires forall k :: j < k < |exps| ==> exps[k] != exps[j]
    ensures exps[j].name in LabelsOf(exps)
    ensures LabelsOf(exps)[exps[j].name] == LabelCount(exps[..j])
    decreases |exps|
  {
    var init := exps[..|exps| - 1];
    if j < |exps| - 1 {
      LabelsOfLastWins(init, j);
      assert init[..j] == exps[..j];
    }
  }

  /** Every label in the map is one of those created. */
  lemma {:induction false} LabelsOfCreated(exps: seq<Exp>)
    ensures forall name :: name in LabelsOf(exps) ==> LabelsOf(exps)[name] < LabelCount(exps)
    decreases |exps|
  {
    if |exps| > 0 {
      LabelsOfCreated(exps[..|exps| - 1]);
    }
  }

  datatype Cond = Je | Jg | Jge | Jl | Jle | Jmp | Jne | Jz

  /** The instruction form pass 2 chooses; labels are the numbers pass 1 created. */
  datatype Asm =
    | SetLabel(id: nat)
    | CallR32(r32: Reg32) | CallR64(r64: Reg64) | CallLabel(target: nat)
    | CmpR32R32(r32: Reg32, s32: Reg32) | CmpR32Imm(r32: Reg32, imm: nat) | CmpR64R64(r64: Reg64, s64: Reg64)
    | Db(bytes: seq<byte>)
    | DecR32(r32: Reg32) | DecR64(r64: Reg64) | IncR32(r32: Reg32) | IncR64(r64: Reg64)
    | Int(imm: nat)
    | Jump(cond: Cond, target: nat)
    | MovR32Imm(r32: Reg32, imm: nat) | LeaR32(r32: Reg32, target: nat)
    | MovR64Imm(r64: Reg64, imm: nat) | LeaR64(r64: Reg64, target: nat)
    | PopR32(r32: Reg32) | PopR64(r64: Reg64) | PushR32(r32: Reg32) | PushR64(r64: Reg64)
    | Ret | Syscall
    | XorR32Imm(r32: Reg32, imm: nat)

  /** Why pass 2 stops early: an unknown mnemonic breaks the loop, and a missing
      operand makes `args[1]` or `args[2]` index out of bounds, which panics. */
  datatype Halt = Finished | UnknownMnemonic(mnemonic: string) | IndexPanic

  /** The ways of stopping early. */
  type Fault = h: Halt | !h.Finished? witness IndexPanic

  /** What one line gives: zero or one instruction, or a stop. */
  datatype Step = Emit(code: seq<Asm>) | Stop(halt: Fault)

  const MNEMONICS: set<string> := {"call", "cmp", "db", "dec", "inc", "int", "je", "jg", "jge",
                                   "jl", "jle", "jmp", "jne", "jz", "mov", "pop", "push", "ret",
                                   "syscall", "xor"}

  function JumpCond(m: string): (r: Option<Cond>)
    ensures r.Some? <==> m in {"je", "jg", "jge", "jl", "jle", "jmp", "jne", "jz"}
  {
    match m
    case "je" => Some(Je) case "jg" => Some(Jg) case "jge" => Some(Jge) case "jl" => Some(Jl)
    case "jle" => Some(Jle) case "jmp" => Some(Jmp) case "jne" => Some(Jne) case "jz" => Some(Jz)
    case _ => None
  }

  /** The `db` operands: those `parse_u8` accepts, in order; the others are skipped. */
  function DbBytes(operands: seq<string>): (r: seq<byte>)
    ensures |r| <= |operands|
    decreases |operands|
  {
    if |operands| == 0 then []
    else
      var init := DbBytes(operands[..|operands| - 1]);
      match ParseU8(operands[|operands| - 1])
      case Some(v) => init + [v]
      case None => init
  }

  /** The `db` loop (lines 120-125). */
  method CollectBytes(operands: seq<string>) returns (bytes: seq<byte>)
    ensures bytes == DbBytes(operands)
  {
    bytes := [];
    for k := 0 to |operands|
      invariant bytes == DbBytes(operands[..k])
    {
      assert operands[..k + 1][..k] == operands[..k];
      match ParseU8(operands[k]) {
        case Some(v) => bytes := bytes + [v];
        case None =>
      }
    }
    assert operands[..|operands|] == operands;
  }

  /** Pass 2's choice for one instruction line (lines 94-245): the operand forms are tried
      in the order the source tries them, and a line whose operands fit no form gives
      nothing. */
  function Dispatch(w: seq<string>, labels: map<string, nat>): (r: Step)
    ensures r == Stop(IndexPanic) ==> |w| <= 2
    ensures r.Stop? && r.halt.UnknownMnemonic? <==> |w| > 0 && w[0] !in MNEMONICS
    ensures r.Stop? && r.halt.UnknownMnemonic? ==> r.halt.mnemonic == w[0]
    ensures r.Emit? ==> |r.code| <= 1
  {
    if |w| == 0 then Stop(IndexPanic)
    else
      var m := w[0];
      if m == "ret" then Emit([Ret])
      else if m == "syscall" then Emit([Syscall])
      else if m == "db" then Emit([Db(DbBytes(w[1..]))])
      else if m !in MNEMONICS then Stop(UnknownMnemonic(m))
      else if |w| < 2 then Stop(IndexPanic)
      else
        var a := w[1];
        if m == "call" then
          if ParseR32(a).Some? then Emit([CallR32(ParseR32(a).value)])
          else if ParseR64(a).Some? then Emit([CallR64(ParseR64(a).value)])
          else if a in labels then Emit([CallLabel(labels[a])]) else Emit([])
        else if m == "cmp" then
          if ParseR32(a).Some? then
            if |w| < 3 then Stop(IndexPanic)
            else if ParseR32(w[2]).Some? then Emit([CmpR32R32(ParseR32(a).value, ParseR32(w[2]).value)])
            else if ParseU32(w[2]).Some? then Emit([CmpR32Imm(ParseR32(a).value, ParseU32(w[2]).value)])
            else Emit([])
          else if ParseR64(a).Some? then
            if |w| < 3 then Stop(IndexPanic)
            else if ParseR64(w[2]).Some? then Emit([CmpR64R64(ParseR64(a).value, ParseR64(w[2]).value)])
            else Emit([])
          else Emit([])
        else if m == "dec" then
          if ParseR32(a).Some? then Emit([DecR32(ParseR32(a).value)])
          else if ParseR64(a).Some? then Emit([DecR64(ParseR64(a).value)])
          else Emit([])
        else if m == "inc" then
          if ParseR32(a).Some? then Emit([IncR32(ParseR32(a).value)])
          else if ParseR64(a).Some? then Emit([IncR64(ParseR64(a).value)])
          else Emit([])
        else if m == "int" then
          if ParseU32(a).Some? then Emit([Int(ParseU32(a).value)]) else Emit([])
        else if JumpCond(m).Some? then
          if a in labels then Emit([Jump(JumpCond(m).value, labels[a])]) else Emit([])
        else if m == "mov" then
          if ParseR32(a).Some? then
            if |w| < 3 then Stop(IndexPanic)
            else if ParseU32(w[2]).Some? then Emit([MovR32Imm(ParseR32(a).value, ParseU32(w[2]).value)])
            else if w[2] in labels then Emit([LeaR32(ParseR32(a).value, labels[w[2]])]) else Emit([])
          else if ParseR64(a).Some? then
            if |w| < 3 then Stop(IndexPanic)
            else if ParseU64(w[2]).Some? then Emit([MovR64Imm(ParseR64(a).value, ParseU64(w[2]).value)])
            else if w[2] in labels then Emit([LeaR64(ParseR64(a).value, labels[w[2]])]) else Emit([])
          else Emit([])
        else if m == "pop" then
          if ParseR32(a).Some? then Emit([PopR32(ParseR32(a).value)])
          else if ParseR64(a).Some? then Emit([PopR64(ParseR64(a).value)])
          else Emit([])
        else if m == "push" then
          if ParseR32(a).Some? then Emit([PushR32(ParseR32(a).value)])
          else if ParseR64(a).Some? then Emit([PushR64(ParseR64(a).value)])
          else Emit([])
        else
          assert m == "xor";
          if ParseR32(a).Some? then
            if |w| < 3 then Stop(IndexPanic)
            else if ParseU32(w[2]).Some? then Emit([XorR32Imm(ParseR32(a).value, ParseU32(w[2]).value)])
            else Emit([])
          else Emit([])
  }

  /** Every one-register form is chosen for the register named, 32-bit or 64-bit. */
  lemma RegisterForms(r: Reg32, q: Reg64, labels: map<string, nat>)
    ensures Dispatch(["call", Name32(r)], labels) == Emit([CallR32(r)])
    ensures Dispatch(["call", Name64(q)], labels) == Emit([CallR64(q)])
    ensures Dispatch(["push", Name32(r)], labels) == Emit([PushR32(r)])
    ensures Dispatch(["push", Name64(q)], labels) == Emit([PushR64(q)])
    ensures Dispatch(["pop", Name32(r)], labels) == Emit([PopR32(r)])
    ensures Dispatch(["pop", Name64(q)], labels) == Emit([PopR64(q)])
    ensures Dispatch(["inc", Name32(r)], labels) == Emit([IncR32(r)])
    ensures Dispatch(["inc", Name64(q)], labels) == Emit([IncR64(q)])
    ensures Dispatch(["dec", Name32(r)], labels) == Emit([DecR32(r)])
    ensures Dispatch(["dec", Name64(q)], labels) == Emit([DecR64(q)])
  {
    Reg32RoundTrip(r);
    Reg64RoundTrip(q);
    TablesDisjoint(Name32(r));
    TablesDisjoint(Name64(q));
  }

  /** An immediate written in decimal is loaded into a 32-bit register as its value. */
  lemma MoveImmediate32(a: string, n: nat, labels: map<string, nat>)
    requires ParseR32(a).Some? && n <= U32_MAX
    ensures Dispatch(["mov", a, Decimal(n)], labels) == Emit([MovR32Imm(ParseR32(a).value, n)])
  {
    ParseUnsignedRoundTrip(n, U32_MAX);
  }

  /** An immediate written in decimal is loaded into a 64-bit register as its value. */
  lemma MoveImmediate64(a: string, n: nat, labels: map<string, nat>)
    requires ParseR64(a).Some? && n <= U64_MAX
    ensures Dispatch(["mov", a, Decimal(n)], labels) == Emit([MovR64Imm(ParseR64(a).value, n)])
  {
    TablesDisjoint(a);
    ParseUnsignedRoundTrip(n, U64_MAX);
  }

  /** A 32-bit immediate written in decimal is compared, xored or raised as its value. */
  lemma OtherImmediates(a: string, n: nat, labels: map<string, nat>)
    requires ParseR32(a).Some? && n <= U32_MAX
    ensures Dispatch(["cmp", a, Decimal(n)], labels) == Emit([CmpR32Imm(ParseR32(a).value, n)])
    ensures Dispatch(["xor", a, Decimal(n)], labels) == Emit([XorR32Imm(ParseR32(a).value, n)])
    ensures Dispatch(["int", Decimal(n)], labels) == Emit([Int(n)])
  {
    ParseUnsignedRoundTrip(n, U32_MAX);
    DecimalNotRegister(n);
  }

  /** A decimal numeral names no register. */
  lemma DecimalNotRegister(n: nat)
    ensures ParseR32(Decimal(n)).None? && ParseR64(Decimal(n)).None?
  {
    NumeralDigits(n);
    RegisterNamesStartWithLetter(Decimal(n));
  }

  /** A name that is not a register calls its label when pass 1 defined it, and
      gives nothing when it did not. */
  lemma CallLabelForm(name: string, labels: map<string, nat>)
    requires ParseR32(name).None? && ParseR64(name).None?
    ensures Dispatch(["call", name], labels) == Emit(if name in labels then [CallLabel(labels[name])] else [])
  {
  }

  /** A jump goes to its label when pass 1 defined it, and gives nothing when it did not. */
  lemma JumpLabelForm(m: string, name: string, labels: map<string, nat>)
    requires JumpCond(m).Some?
    ensures Dispatch([m, name], labels) == Emit(if name in labels then [Jump(JumpCond(m).value, labels[name])] else [])
  {
  }

  /** A `mov` into a 32-bit register of a name that is neither a register nor a number
      loads the address of its label, and gives nothing when pass 1 did not define it. */
  lemma LoadLabel32(r: Reg32, name: string, labels: map<string, nat>)
    requires ParseR32(name).None? && ParseR64(name).None? && ParseU32(name).None?
    ensures Dispatch(["mov", Name32(r), name], labels) == Emit(if name in labels then [LeaR32(r, labels[name])] else [])
  {
    Reg32RoundTrip(r);
    TablesDisjoint(Name32(r));
  }

  /** The same for a 64-bit register. */
  lemma LoadLabel64(q: Reg64, name: string, labels: map<string, nat>)
    requires ParseR32(name).None? && ParseR64(name).None? && ParseU64(name).None?
    ensures Dispatch(["mov", Name64(q), name], labels) == Emit(if name in labels then [LeaR64(q, labels[name])] else [])
  {
    Reg64RoundTrip(q);
    TablesDisjoint(Name64(q));
  }

  /** A register operand is read as the register even when a label has its name. */
  lemma RegisterShadowsLabel(labels: map<string, nat>)
    ensures Dispatch(["call", "rax"], labels) == Emit([CallR64(Rax)])
    ensures Dispatch(["jmp", "rax"], labels) == Emit(if "rax" in labels then [Jump(Jmp, labels["rax"])] else [])
  {
  }

  /** A missing operand panics; a mnemonic outside the table stops the pass. */
  lemma StopForms(labels: map<string, nat>)
    ensures Dispatch(["mov"], labels) == Stop(IndexPanic)
    ensures Dispatch(["mov", "eax"], labels) == Stop(IndexPanic)
    ensures Dispatch(["ret"], labels) == Emit([Ret])
    ensures Dispatch(["nop"], labels) == Stop(UnknownMnemonic("nop"))
  {
  }

  /** Pass 2's step for one line: a label definition binds its label (lines 89-93). */
  function Translate(e: Exp, labels: map<string, nat>): (r: Step)
    ensures r.Emit? ==> |r.code| <= 1
  {
    match e
    case Label(name) => if name in labels then Emit([SetLabel(labels[name])]) else Emit([])
    case Instr(w) => Dispatch(w, labels)
  }

  datatype Lowered = Lowered(code: seq<Asm>, halt: Halt)

  /** The steps of the lines, one each. */
  function Steps(exps: seq<Exp>, labels: map<string, nat>): (r: seq<Step>)
    ensures |r| == |exps|
    ensures forall k :: 0 <= k < |exps| ==> r[k] == Translate(exps[k], labels)
  {
    seq(|exps|, k requires 0 <= k < |exps| => Translate(exps[k], labels))
  }

  /** The code of a run of steps, in order, up to the first stop. */
  function Run(steps: seq<Step>): Lowered
    decreases |steps|
  {
    if |steps| == 0 then Lowered([], Finished)
    else
      match steps[0]
      case Stop(h) => Lowered([], h)
      case Emit(c) =>
        var rest := Run(steps[1..]);
        Lowered(c + rest.code, rest.halt)
  }

  /** Pass 2 over the lines. */
  function Lower(exps: seq<Exp>, labels: map<string, nat>): Lowered {
    Run(Steps(exps, labels))
  }

  /** Two runs of steps: the second runs only if the first finished. */
  lemma {:induction false} RunAppend(a: seq<Step>, b: seq<Step>)
    ensures Run(a).halt != Finished ==> Run(a + b) == Run(a)
    ensures Run(a).halt == Finished ==> Run(a + b) == Lowered(Run(a).code + Run(b).code, Run(b).halt)
    decreases |a|
  {
    if |a| == 0 {
      assert a + b == b;
    } else {
      assert (a + b)[0] == a[0] && (a + b)[1..] == a[1..] + b;
      RunAppend(a[1..], b);
      match a[0]
      case Stop(_) =>
      case Emit(c) =>
        var ra := Run(a[1..]);
        var rb := Run(b);
        assert c + (ra.code + rb.code) == (c + ra.code) + rb.code;
    }
  }

  lemma StepsAppend(a: seq<Exp>, b: seq<Exp>, labels: map<string, nat>)
    ensures Steps(a + b, labels) == Steps(a, labels) + Steps(b, labels)
  {
  }

  /** Pass 2 over two runs of lines: the second runs only if the first finished. */
  lemma LowerAppend(a: seq<Exp>, b: seq<Exp>, labels: map<string, nat>)
    ensures Lower(a, labels).halt != Finished ==> Lower(a + b, labels) == Lower(a, labels)
    ensures Lower(a, labels).halt == Finished ==>
      Lower(a + b, labels) == Lowered(Lower(a, labels).code + Lower(b, labels).code, Lower(b, labels).halt)
  {
    StepsAppend(a, b, labels);
    RunAppend(Steps(a, labels), Steps(b, labels));
  }

  /** Pass 2 over one line. */
  lemma LowerOne(e: Exp, labels: map<string, nat>)
    ensures Lower([e], labels) == match Translate(e, labels)
      case Stop(h) => Lowered([], h)
      case Emit(c) => Lowered(c, Finished)
  {
    var st := Steps([e], labels);
    assert st == [Translate(e, labels)];
    assert Run(st[1..]) == Lowered([], Finished);
    match st[0]
    case Stop(_) =>
    case Emit(c) => assert c + [] == c;
  }

  /** The line that stops pass 2 leaves the code chosen for the lines before it, and
      nothing after it is looked at. */
  lemma StopKeepsPrefix(exps: seq<Exp>, k: nat, labels: map<string, nat>)
    requires k < |exps| && Lower(exps[..k], labels).halt == Finished
    requires Translate(exps[k], labels).Stop?
    ensures Lower(exps, labels) == Lowered(Lower(exps[..k], labels).code, Translate(exps[k], labels).halt)
  {
    assert exps == exps[..k] + ([exps[k]] + exps[k + 1..]);
    LowerAppend(exps[..k], [exps[k]] + exps[k + 1..], labels);
    LowerAppend([exps[k]], exps[k + 1..], labels);
    LowerOne(exps[k], labels);
    assert Lower(exps[..k], labels).code + [] == Lower(exps[..k], labels).code;
  }

  /** An instruction that refers to a label. */
  predicate UsesLabel(i: Asm, t: nat) {
    (i.CallLabel? && i.target == t) || (i.Jump? && i.target == t)
    || (i.LeaR32? && i.target == t) || (i.LeaR64? && i.target == t)
  }

  /** Every label the code refers to is one of the map's. */
  ghost predicate Declared(code: seq<Asm>, labels: map<string, nat>) {
    forall k, t :: 0 <= k < |code| && UsesLabel(code[k], t) ==> exists name :: name in labels && labels[name] == t
  }

  lemma {:induction false} RunDeclared(steps: seq<Step>, labels: map<string, nat>)
    requires forall k :: 0 <= k < |steps| && steps[k].Emit? ==> Declared(steps[k].code, labels)
    ensures Declared(Run(steps).code, labels)
    decreases |steps|
  {
    if |steps| > 0 {
      RunDeclared(steps[1..], labels);
      match steps[0]
      case Stop(_) =>
      case Emit(c) =>
        var code := Run(steps).code;
        var rest := Run(steps[1..]).code;
        assert code == c + rest;
        forall k, t | 0 <= k < |code| && UsesLabel(code[k], t)
          ensures exists name :: name in labels && labels[name] == t
        {
          if k >= |c| {
            assert code[k] == rest[k - |c|];
          } else {
            assert code[k] == c[k];
          }
        }
    }
  }

  /** Jumps, calls and loads of a label are chosen only for names present in the map,
      so every label they refer to was created by pass 1. */
  lemma TargetsAreDeclared(exps: seq<Exp>, labels: map<string, nat>)
    ensures Declared(Lower(exps, labels).code, labels)
  {
    var steps := Steps(exps, labels);
    forall k | 0 <= k < |steps| && steps[k].Emit?
      ensures Declared(steps[k].code, labels)
    {
      forall j, t | 0 <= j < |steps[k].code| && UsesLabel(steps[k].code[j], t)
        ensures exists name :: name in labels && labels[name] == t
      {
        TranslateTargets(exps[k], labels, t);
      }
    }
    RunDeclared(steps, labels);
  }

  lemma TranslateTargets(e: Exp, labels: map<string, nat>, t: nat)
    requires Translate(e, labels).Emit? && |Translate(e, labels).code| > 0
    requires UsesLabel(Translate(e, labels).code[0], t)
    ensures exists name :: name in labels && labels[name] == t
  {
  }

  /** With the map pass 1 built from the same lines, every label definition pass 2
      meets binds its label. */
  lemma LabelsAreBound(exps: seq<Exp>, k: nat)
    requires k < |exps| && exps[k].Label?
    ensures exps[k].name in LabelsOf(exps)
    ensures Translate(exps[k], LabelsOf(exps)) == Emit([SetLabel(LabelsOf(exps)[exps[k].name])])
  {
    LabelsOfKeys(exps, exps[k].name);
  }

  /** Pass 2 (lines 84-258): the same parse loop as pass 1, choosing instructions. */
  method SecondPass(input: string, labels: map<string, nat>) returns (code: seq<Asm>, halt: Halt)
    ensures Lowered(code, halt) == Lower(Stream(input, 0), labels)
  {
    code, halt := [], Finished;
    var pos := 0;
    ghost var done: seq<Exp> := [];
    ghost var all := Stream(input, 0);
    var running := true;
    while running
      invariant pos <= |input|
      invariant running ==> all == done + Stream(input, pos)
      invariant running ==> Lower(done, labels) == Lowered(code, Finished) && halt == Finished
      invariant !running ==> Lower(all, labels) == Lowered(code, halt)
      decreases |input| - pos, running
    {
      var r := ParseAt(input, pos);
      if r.None? {
        StreamStop(input, pos);
        assert done + [] == done;
        running := false;
      } else {
        var p := r.value;
        PassStep(input, pos, done, labels, code);
        var step: Step;
        if p.value.Instr? && p.value.words[0] == "db" {
          var bytes := CollectBytes(p.value.words[1..]);
          step := Emit([Db(bytes)]);
        } else {
          step := Translate(p.value, labels);
        }
        match step {
          case Stop(h) =>
            halt := h;
            running := false;
          case Emit(c) =>
            code := code + c;
            done := done + [p.value];
            if IsBlank(input[p.end..]) {
              running := false;
            } else {
              pos := p.end;
            }
        }
      }
    }
  }

  /** One line of pass 2, in terms of the lines before it and the lines still to come. */
  lemma PassStep(s: string, i: nat, done: seq<Exp>, labels: map<string, nat>, code: seq<Asm>)
    requires i <= |s| && ParseAt(s, i).Some?
    requires Lower(done, labels) == Lowered(code, Finished)
    ensures var e := ParseAt(s, i).value.value;
      var end := ParseAt(s, i).value.end;
      var t := Translate(e, labels);
      && done + Stream(s, i) == (done + [e]) + (if IsBlank(s[end..]) then [] else Stream(s, end))
      && (t.Stop? ==> Lower(done + Stream(s, i), labels) == Lowered(code, t.halt))
      && (t.Emit? ==> Lower(done + [e], labels) == Lowered(code + t.code, Finished))
      && (t.Emit? && IsBlank(s[end..]) ==> done + Stream(s, i) == done + [e])
  {
    var p := ParseAt(s, i).value;
    var tail := if IsBlank(s[p.end..]) then [] else Stream(s, p.end);
    StreamStep(s, i);
    LowerStep(done, p.value, tail, labels, code);
    assert [p.value] + [] == [p.value];
  }

  /** One line of pass 2 on the lines alone, apart from how they were parsed. */
  lemma LowerStep(done: seq<Exp>, e: Exp, tail: seq<Exp>, labels: map<string, nat>, code: seq<Asm>)
    requires Lower(done, labels) == Lowered(code, Finished)
    ensures done + ([e] + tail) == (done + [e]) + tail
    ensures Translate(e, labels).Stop? ==>
      Lower(done + ([e] + tail), labels) == Lowered(code, Translate(e, labels).halt)
    ensures Translate(e, labels).Emit? ==>
      Lower(done + [e], labels) == Lowered(code + Translate(e, labels).code, Finished)
  {
    assert done + ([e] + tail) == (done + [e]) + tail;
    LowerAppend(done, [e], labels);
    LowerOne(e, labels);
    if Translate(e, labels).Stop? {
      LowerAppend(done + [e], tail, labels);
      assert code + [] == code;
    }
  }

  /** `assemble(input)` up to the choice of instructions. */
  method Assemble(input: string) returns (code: seq<Asm>, halt: Halt)
    ensures var exps := Stream(input, 0); Lowered(code, halt) == Lower(exps, LabelsOf(exps))
  {
    var labels, _ := CollectLabels(input);
    code, halt := SecondPass(input, labels);
  }

  /** `db` keeps exactly the accepted operands, in order. */
  lemma {:induction false} DbBytesAppend(a: seq<string>, b: seq<string>)
    ensures DbBytes(a + b) == DbBytes(a) + DbBytes(b)
    decreases |b|
  {
    if |b| == 0 {
      assert a + b == a;
    } else {
      assert (a + b)[..|a + b| - 1] == a + b[..|b| - 1];
      DbBytesAppend(a, b[..|b| - 1]);
    }
  }

  /** An operand `parse_u8` rejects is dropped without a trace. */
  lemma DbSkipsRejected(a: seq<string>, bad: string, b: seq<string>)
    requires ParseU8(bad).None?
    ensures DbBytes(a + [bad] + b) == DbBytes(a) + DbBytes(b)
  {
    DbBytesAppend(a + [bad], b);
    DbBytesAppend(a, [bad]);
    assert [bad][..0] == [];
  }

  /** When every operand is accepted, the bytes are their values, one each. */
  lemma {:induction false} DbAllAccepted(operands: seq<string>)
    requires forall k :: 0 <= k < |operands| ==> ParseU8(operands[k]).Some?
    ensures |DbBytes(operands)| == |operands|
    ensures forall k :: 0 <= k < |operands| ==> DbBytes(operands)[k] == ParseU8(operands[k]).value
    decreases |operands|
  {
    if |operands| > 0 {
      DbAllAccepted(operands[..|operands| - 1]);
    }
  }
}
