/** The register-name tables of the assembler (src/usr/assembler.rs, `parse_r32`
    and `parse_r64`): sixteen 32-bit and sixteen 64-bit general purpose registers. */
module AsmRegisters {
  import opened RustCore

  datatype Reg32 = Eax | Ebx | Ecx | Edx | Edi | Esi | Ebp | Esp
                 | R8d | R9d | R10d | R11d | R12d | R13d | R14d | R15d

  datatype Reg64 = Rax | Rbx | Rcx | Rdx | Rdi | Rsi | Rbp | Rsp
                 | R8 | R9 | R10 | R11 | R12 | R13 | R14 | R15

  /** The names `parse_r32` accepts. */
  const NAMES32: set<string> := {"eax", "ebx", "ecx", "edx", "edi", "esi", "ebp", "esp",
                                 "r8d", "r9d", "r10d", "r11d", "r12d", "r13d", "r14d", "r15d"}

  /** The names `parse_r64` accepts. */
  const NAMES64: set<string> := {"rax", "rbx", "rcx", "rdx", "rdi", "rsi", "rbp", "rsp",
                                 "r8", "r9", "r10", "r11", "r12", "r13", "r14", "r15"}

  /** The assembler name of a 32-bit register. */
  function Name32(r: Reg32): (s: string)
    ensures s in NAMES32
  {
    match r
    case Eax => "eax" case Ebx => "ebx" case Ecx => "ecx" case Edx => "edx"
    case Edi => "edi" case Esi => "esi" case Ebp => "ebp" case Esp => "esp"
    case R8d => "r8d" case R9d => "r9d" case R10d => "r10d" case R11d => "r11d"
    case R12d => "r12d" case R13d => "r13d" case R14d => "r14d" case R15d => "r15d"
  }

  /** The assembler name of a 64-bit register. */
  function Name64(r: Reg64): (s: string)
    ensures s in NAMES64
  {
    match r
    case Rax => "rax" case Rbx => "rbx" case Rcx => "rcx" case Rdx => "rdx"
    case Rdi => "rdi" case Rsi => "rsi" case Rbp => "rbp" case Rsp => "rsp"
    case R8 => "r8" case R9 => "r9" case R10 => "r10" case R11 => "r11"
    case R12 => "r12" case R13 => "r13" case R14 => "r14" case R15 => "r15"
  }

  /** `parse_r32(name)`: exactly the sixteen listed names, each to its own register. */
  function ParseR32(name: string): (r: Option<Reg32>)
    ensures r.Some? <==> name in NAMES32
    ensures r.Some? ==> Name32(r.value) == name
  {
    match name
    case "eax" => Some(Eax) case "ebx" => Some(Ebx) case "ecx" => Some(Ecx) case "edx" => Some(Edx)
    case "edi" => Some(Edi) case "esi" => Some(Esi) case "ebp" => Some(Ebp) case "esp" => Some(Esp)
    case "r8d" => Some(R8d) case "r9d" => Some(R9d) case "r10d" => Some(R10d) case "r11d" => Some(R11d)
    case "r12d" => Some(R12d) case "r13d" => Some(R13d) case "r14d" => Some(R14d) case "r15d" => Some(R15d)
    case _ => None
  }

  /** `parse_r64(name)`: exactly the sixteen listed names, each to its own register. */
  function ParseR64(name: string): (r: Option<Reg64>)
    ensures r.Some? <==> name in NAMES64
    ensures r.Some? ==> Name64(r.value) == name
  {
    match name
    case "rax" => Some(Rax) case "rbx" => Some(Rbx) case "rcx" => Some(Rcx) case "rdx" => Some(Rdx)
    case "rdi" => Some(Rdi) case "rsi" => Some(Rsi) case "rbp" => Some(Rbp) case "rsp" => Some(Rsp)
    case "r8" => Some(R8) case "r9" => Some(R9) case "r10" => Some(R10) case "r11" => Some(R11)
    case "r12" => Some(R12) case "r13" => Some(R13) case "r14" => Some(R14) case "r15" => Some(R15)
    case _ => None
  }

  /** Every 32-bit register is read back from its name, so the sixteen names are distinct. */
  lemma Reg32RoundTrip(r: Reg32)
    ensures ParseR32(Name32(r)) == Some(r)
  {
  }

  /** Every 64-bit register is read back from its name. */
  lemma Reg64RoundTrip(r: Reg64)
    ensures ParseR64(Name64(r)) == Some(r)
  {
  }

  /** No name is both a 32-bit and a 64-bit register, so the order in which the
      dispatch tries the two tables never matters. */
  lemma TablesDisjoint(name: string)
    ensures !(ParseR32(name).Some? && ParseR64(name).Some?)
  {
    if ParseR32(name).Some? {
      assert name in NAMES32;
      assert name !in NAMES64;
    }
  }

  /** Every register name starts with a letter. */
  lemma RegisterNamesStartWithLetter(name: string)
    ensures ParseR32(name).Some? || ParseR64(name).Some? ==> |name| > 0 && IsAsciiAlphabetic(name[0])
  {
  }

  /** The tables are case sensitive. */
  lemma UppercaseRejected()
    ensures ParseR32("EAX").None? && ParseR64("RAX").None?
  {
  }
}
