/** The assembler's parser (src/usr/assembler.rs, lines 262-364). The nom combinators
    are written out by hand: each takes the input and the position it starts at and
    gives back the position where it stops. `multispace0` skips spaces, tabs, carriage
    returns and line feeds; `alpha1` and `alphanumeric1` take one or more ASCII letters
    (and digits); `alt` keeps the first alternative that succeeds; `separated_list0`
    gives back the separator when the element after it fails. */
module AsmParser {
  import opened RustCore

  /** A line of source: a label definition or an instruction (mnemonic and operands). */
  datatype Exp = Label(name: string) | Instr(words: seq<string>)

  /** A value read from the input and the position just after it. */
  datatype Scanned<T> = Scanned(value: T, end: nat)

  /** A value read from the input and the input left after it, as nom returns them. */
  datatype Parsed<T> = Parsed(value: T, rest: string)

  predicate IsMultispace(c: char) { c == ' ' || c == '\t' || c == '\r' || c == '\n' }

  predicate IsWord(w: string) {
    |w| > 0 && forall k :: 0 <= k < |w| ==> IsAsciiAlphabetic(w[k])
  }

  predicate IsAlphanumericWord(w: string) {
    |w| > 0 && forall k :: 0 <= k < |w| ==> IsAsciiAlphanumeric(w[k])
  }

  predicate AllAlphanumericWords(ws: seq<string>) {
    forall k :: 0 <= k < |ws| ==> IsAlphanumericWord(ws[k])
  }

  /** `multispace0`: the end of the run of white space starting at i. */
  function Multispace0(s: string, i: nat): (j: nat)
    requires i <= |s|
    ensures i <= j <= |s|
    ensures forall k :: i <= k < j ==> IsMultispace(s[k])
    ensures j < |s| ==> !IsMultispace(s[j])
    decreases |s| - i
  {
    if i == |s| || !IsMultispace(s[i]) then i else Multispace0(s, i + 1)
  }

  /** The end of the run of ASCII letters starting at i. */
  function AlphaSpan(s: string, i: nat): (j: nat)
    requires i <= |s|
    ensures i <= j <= |s|
    ensures forall k :: i <= k < j ==> IsAsciiAlphabetic(s[k])
    ensures j < |s| ==> !IsAsciiAlphabetic(s[j])
    decreases |s| - i
  {
    if i == |s| || !IsAsciiAlphabetic(s[i]) then i else AlphaSpan(s, i + 1)
  }

  /** The end of the run of ASCII letters and digits starting at i. */
  function AlphanumericSpan(s: string, i: nat): (j: nat)
    requires i <= |s|
    ensures i <= j <= |s|
    ensures forall k :: i <= k < j ==> IsAsciiAlphanumeric(s[k])
    ensures j < |s| ==> !IsAsciiAlphanumeric(s[j])
    decreases |s| - i
  {
    if i == |s| || !IsAsciiAlphanumeric(s[i]) then i else AlphanumericSpan(s, i + 1)
  }

  /** `alpha1`: a non-empty word of letters, or failure. */
  function Alpha1(s: string, i: nat): (r: Option<nat>)
    requires i <= |s|
    ensures r.Some? <==> i < |s| && IsAsciiAlphabetic(s[i])
    ensures r.Some? ==> i < r.value <= |s| && IsWord(s[i..r.value])
    ensures r.Some? && r.value < |s| ==> !IsAsciiAlphabetic(s[r.value])
  {
    var j := AlphaSpan(s, i);
    if j == i then None
    else
      assert forall k :: 0 <= k < j - i ==> s[i..j][k] == s[i + k];
      Some(j)
  }

  predicate HexPrefixAt(s: string, i: nat) {
    i + 2 <= |s| && s[i] == '0' && (s[i + 1] == 'x' || s[i + 1] == 'X')
  }

  /** `hex`: an optional `0x` or `0X` prefix, then one or more letters and digits; the
      span includes the prefix. Once the prefix has matched, the letters and digits
      must follow it: the empty alternative is not tried again. */
  function Hex(s: string, i: nat): (r: Option<nat>)
    requires i <= |s|
    ensures r.Some? ==> i < r.value <= |s| && IsAlphanumericWord(s[i..r.value])
    ensures r.Some? && r.value < |s| ==> !IsAsciiAlphanumeric(s[r.value])
    ensures r.None? <==>
      (if HexPrefixAt(s, i) then i + 2 == |s| || !IsAsciiAlphanumeric(s[i + 2])
       else i == |s| || !IsAsciiAlphanumeric(s[i]))
  {
    var p := if HexPrefixAt(s, i) then i + 2 else i;
    var j := AlphanumericSpan(s, p);
    if j == p then None
    else
      assert forall k :: 0 <= k < j - i ==> s[i..j][k] == s[i + k];
      Some(j)
  }

  /** `alt((alpha1, hex))`: a word when the operand starts with a letter, else a `hex` token. */
  function Operand(s: string, i: nat): (r: Option<nat>)
    requires i <= |s|
    ensures r.Some? ==> i < r.value <= |s| && IsAlphanumericWord(s[i..r.value])
    ensures r.Some? && IsAsciiAlphabetic(s[i]) ==>
      IsWord(s[i..r.value]) && (r.value < |s| ==> !IsAsciiAlphabetic(s[r.value]))
  {
    match Alpha1(s, i)
    case Some(j) =>
      assert forall k :: 0 <= k < j - i ==> IsAsciiAlphanumeric(s[i..j][k]);
      Some(j)
    case None => Hex(s, i)
  }

  /** `terminated(tag(","), multispace0)`: a comma and the white space after it. */
  function Separator(s: string, i: nat): (r: Option<nat>)
    requires i <= |s|
    ensures r.Some? <==> i < |s| && s[i] == ','
    ensures r.Some? ==> i < r.value <= |s|
  {
    if i < |s| && s[i] == ',' then Some(Multispace0(s, i + 1)) else None
  }

  /** The operands after the first: each a separator and an operand; the scan stops
      before a separator that is not followed by an operand. */
  function MoreOperands(s: string, i: nat): (r: Scanned<seq<string>>)
    requires i <= |s|
    ensures i <= r.end <= |s|
    ensures AllAlphanumericWords(r.value)
    decreases |s| - i
  {
    match Separator(s, i)
    case None => Scanned([], i)
    case Some(m) =>
      match Operand(s, m)
      case None => Scanned([], i)
      case Some(e) =>
        var more := MoreOperands(s, e);
        Scanned([s[m..e]] + more.value, more.end)
  }

  /** `separated_list0(separator, operand)`: zero or more operands. */
  function Operands(s: string, i: nat): (r: Scanned<seq<string>>)
    requires i <= |s|
    ensures i <= r.end <= |s|
    ensures AllAlphanumericWords(r.value)
    ensures |r.value| == 0 <==> Operand(s, i).None?
  {
    match Operand(s, i)
    case None => Scanned([], i)
    case Some(e) =>
      var more := MoreOperands(s, e);
      Scanned([s[i..e]] + more.value, more.end)
  }

  /** `parse_label`: white space, a word, a colon, white space. */
  function ParseLabel(s: string, i: nat): (r: Option<Scanned<Exp>>)
    requires i <= |s|
    ensures r.Some? ==> r.value.value.Label? && IsWord(r.value.value.name)
    ensures r.Some? ==> i < r.value.end <= |s|
    ensures r.Some? && r.value.end < |s| ==> !IsMultispace(s[r.value.end])
  {
    var t := Multispace0(s, i);
    match Alpha1(s, t)
    case None => None
    case Some(n) =>
      if n < |s| && s[n] == ':' then Some(Scanned(Label(s[t..n]), Multispace0(s, n + 1)))
      else None
  }

  /** `parse_instr`: white space, the mnemonic, white space, then the operands. */
  function ParseInstr(s: string, i: nat): (r: Option<Scanned<Exp>>)
    requires i <= |s|
    ensures r.Some? <==> Alpha1(s, Multispace0(s, i)).Some?
    ensures r.Some? ==>
      && r.value.value.Instr? && |r.value.value.words| >= 1
      && IsWord(r.value.value.words[0]) && AllAlphanumericWords(r.value.value.words[1..])
    ensures r.Some? ==> i < r.value.end <= |s|
  {
    var t := Multispace0(s, i);
    match Alpha1(s, t)
    case None => None
    case Some(n) =>
      var ops := Operands(s, Multispace0(s, n));
      var words := [s[t..n]] + ops.value;
      assert words[1..] == ops.value;
      Some(Scanned(Instr(words), ops.end))
  }

  /** `parse` from position i: a label if one parses, otherwise an instruction. It fails
      exactly when no letter follows the leading white space, and a successful parse
      always moves forward, so the passes over the source terminate. */
  function ParseAt(s: string, i: nat): (r: Option<Scanned<Exp>>)
    requires i <= |s|
    ensures r.None? <==> Alpha1(s, Multispace0(s, i)).None?
    ensures r.Some? ==> i < r.value.end <= |s|
    ensures r.Some? && r.value.value.Label? ==> IsWord(r.value.value.name)
    ensures r.Some? && r.value.value.Instr? ==>
      |r.value.value.words| >= 1 && IsWord(r.value.value.words[0])
  {
    match ParseLabel(s, i)
    case Some(p) => Some(p)
    case None => ParseInstr(s, i)
  }

  /** `parse(input)`: the expression and what is left of the input. */
  function Parse(s: string): (r: Option<Parsed<Exp>>)
    ensures r.Some? ==> |r.value.rest| < |s| && r.value.rest == s[|s| - |r.value.rest|..]
  {
    match ParseAt(s, 0)
    case None => None
    case Some(p) => Some(Parsed(p.value, s[p.end..]))
  }

  /** `parse_u8`, `parse_u32`, `parse_u64` for a type whose largest value is `max`:
      after a lowercase `0x` the rest is read in base 16, otherwise all of it in base 10. */
  /** `s.starts_with("0x")` */
  predicate HasLowerHexPrefix(s: string) {
    |s| >= 2 && s[0] == '0' && s[1] == 'x'
  }

  function ParseUnsigned(s: string, max: nat): (r: Option<nat>)
    ensures r.Some? ==> r.value <= max
    ensures |s| == 0 || s == "0x" ==> r.None?
  {
    if HasLowerHexPrefix(s) then FromStrRadix(s[2..], 16, max) else FromStrRadix(s, 10, max)
  }

  function ParseU8(s: string): (r: Option<nat>)
    ensures r.Some? ==> r.value <= U8_MAX
  {
    ParseUnsigned(s, U8_MAX)
  }

  function ParseU32(s: string): (r: Option<nat>)
    ensures r.Some? ==> r.value <= U32_MAX
  {
    ParseUnsigned(s, U32_MAX)
  }

  function ParseU64(s: string): (r: Option<nat>)
    ensures r.Some? ==> r.value <= U64_MAX
  {
    ParseUnsigned(s, U64_MAX)
  }

  /** Every value of the type is read back from its decimal numeral and from its
      lowercase hexadecimal numeral after `0x`. */
  lemma ParseUnsignedRoundTrip(n: nat, max: nat)
    requires n <= max
    ensures ParseUnsigned(Decimal(n), max) == Some(n)
    ensures ParseUnsigned("0x" + Numeral(n, 16), max) == Some(n)
  {
    DecimalRoundTrip(n, max);
    var d := Decimal(n);
    assert IsAsciiAlphanumeric(d[0]) && IsAsciiDigit(d[0]) by {
      NumeralDigits(n);
    }
    assert !HasLowerHexPrefix(d) by {
      NumeralDigits(n);
      assert |d| >= 2 ==> IsAsciiDigit(d[1]);
    }
    var h := "0x" + Numeral(n, 16);
    assert HasLowerHexPrefix(h) && h[2..] == Numeral(n, 16);
    FromStrRadixNumeral(n, 16, max);
  }

  /** A value above the type's maximum is rejected in its decimal numeral and in its
      `0x` hexadecimal numeral. */
  lemma ParseUnsignedTooLarge(n: nat, max: nat)
    requires max < n
    ensures ParseUnsigned(Decimal(n), max).None?
    ensures ParseUnsigned("0x" + Numeral(n, 16), max).None?
  {
    FromStrRadixTooLarge(n, 10, max);
    var d := Decimal(n);
    assert !HasLowerHexPrefix(d) by {
      NumeralDigits(n);
      assert |d| >= 2 ==> IsAsciiDigit(d[1]);
    }
    var h := "0x" + Numeral(n, 16);
    assert HasLowerHexPrefix(h) && h[2..] == Numeral(n, 16);
    FromStrRadixTooLarge(n, 16, max);
  }

  /** `parse_u8` of a numeral: the value exactly when it is at most 255, in decimal
      and after `0x` in hexadecimal. */
  lemma ParseU8Numerals(n: nat)
    ensures ParseU8(Decimal(n)) == (if n <= U8_MAX then Some(n) else None)
    ensures ParseU8("0x" + Numeral(n, 16)) == (if n <= U8_MAX then Some(n) else None)
  {
    if n <= U8_MAX { ParseUnsignedRoundTrip(n, U8_MAX); } else { ParseUnsignedTooLarge(n, U8_MAX); }
  }

  /** `parse_u32` of a numeral: the value exactly when it fits 32 bits. */
  lemma ParseU32Numerals(n: nat)
    ensures ParseU32(Decimal(n)) == (if n <= U32_MAX then Some(n) else None)
    ensures ParseU32("0x" + Numeral(n, 16)) == (if n <= U32_MAX then Some(n) else None)
  {
    if n <= U32_MAX { ParseUnsignedRoundTrip(n, U32_MAX); } else { ParseUnsignedTooLarge(n, U32_MAX); }
  }

  /** `parse_u64` of a numeral: the value exactly when it fits 64 bits. */
  lemma ParseU64Numerals(n: nat)
    ensures ParseU64(Decimal(n)) == (if n <= U64_MAX then Some(n) else None)
    ensures ParseU64("0x" + Numeral(n, 16)) == (if n <= U64_MAX then Some(n) else None)
  {
    if n <= U64_MAX { ParseUnsignedRoundTrip(n, U64_MAX); } else { ParseUnsignedTooLarge(n, U64_MAX); }
  }

  /** The decimal numeral is made of digits only. */
  lemma {:induction false} NumeralDigits(n: nat)
    ensures forall k :: 0 <= k < |Decimal(n)| ==> IsAsciiDigit(Decimal(n)[k])
    decreases n
  {
    if n >= 10 {
      NumeralDigits(n / 10);
      assert Decimal(n) == Decimal(n / 10) + [DigitChar(n % 10)];
    }
  }

  /** An uppercase `0X` is not taken as the hexadecimal prefix: the whole text is then
      read in base 10 and the `X` makes it fail. */
  lemma UppercasePrefixRejected(digits: string, max: nat)
    ensures ParseUnsigned("0X" + digits, max).None?
  {
    var s := "0X" + digits;
    assert !HasLowerHexPrefix(s) by { assert s[1] == 'X'; }
    FromStrRadixRejects(s, 10, max, 1);
  }

  /** In base 10 `u8` accepts 255 and rejects 256. */
  lemma DecimalU8Range()
    ensures ParseU8("256").None? && ParseU8("255") == Some(255)
  {
    NumeralValue(256, 10);
    assert Decimal(256) == "256";
    assert Decimal(255) == "255";
    ParseUnsignedRoundTrip(255, U8_MAX);
  }

  /** In base 16 `u8` accepts 0xff and rejects 0x100. */
  lemma HexU8Range()
    ensures ParseU8("0x100").None? && ParseU8("0xff") == Some(255)
  {
    NumeralValue(256, 16);
    assert Numeral(256, 16) == "100";
    assert "0x100"[2..] == "100";
    assert Numeral(255, 16) == "ff";
    ParseUnsignedRoundTrip(255, U8_MAX);
    assert "0x" + "ff" == "0xff";
  }

  /** A run of white space that ends where the text does or at another character. */
  lemma {:induction false} MultispaceRun(s: string, i: nat, j: nat)
    requires i <= j <= |s|
    requires forall k :: i <= k < j ==> IsMultispace(s[k])
    requires j == |s| || !IsMultispace(s[j])
    ensures Multispace0(s, i) == j
    decreases j - i
  {
    if i < j {
      MultispaceRun(s, i + 1, j);
    }
  }

  lemma {:induction false} AlphaRun(s: string, i: nat, j: nat)
    requires i <= j <= |s|
    requires forall k :: i <= k < j ==> IsAsciiAlphabetic(s[k])
    requires j == |s| || !IsAsciiAlphabetic(s[j])
    ensures AlphaSpan(s, i) == j
    decreases j - i
  {
    if i < j {
      AlphaRun(s, i + 1, j);
    }
  }

  lemma {:induction false} AlphanumericRun(s: string, i: nat, j: nat)
    requires i <= j <= |s|
    requires forall k :: i <= k < j ==> IsAsciiAlphanumeric(s[k])
    requires j == |s| || !IsAsciiAlphanumeric(s[j])
    ensures AlphanumericSpan(s, i) == j
    decreases j - i
  {
    if i < j {
      AlphanumericRun(s, i + 1, j);
    }
  }

  /** The operands the parser reads back whole: a word, or a run of letters and digits
      that starts with a digit and is not a bare `0x` or `0X`. */
  predicate IsOperandToken(t: string) {
    IsWord(t) || (IsAlphanumericWord(t) && IsAsciiDigit(t[0]) && t != "0x" && t != "0X")
  }

  /** An operand token followed by the end of the text or a comma is read whole. */
  lemma OperandToken(s: string, i: nat, t: string)
    requires i + |t| <= |s| && s[i..i + |t|] == t && IsOperandToken(t)
    requires i + |t| == |s| || s[i + |t|] == ','
    ensures Operand(s, i) == Some(i + |t|)
  {
    var e := i + |t|;
    assert forall k :: i <= k < e ==> s[k] == t[k - i];
    if IsWord(t) {
      AlphaRun(s, i, e);
    } else {
      assert !IsAsciiAlphabetic(s[i]);
      if HexPrefixAt(s, i) {
        AlphanumericRun(s, i + 2, e);
      } else {
        AlphanumericRun(s, i, e);
      }
    }
  }

  /** The source form of a label definition. */
  function LabelLine(name: string): string {
    name + ":"
  }

  /** The source form of an instruction: the mnemonic, then the operands after one
      space, separated by a comma and a space. */
  function InstrLine(mnemonic: string, operands: seq<string>): string {
    if |operands| == 0 then mnemonic else mnemonic + " " + JoinOperands(operands)
  }

  function JoinOperands(operands: seq<string>): string
    requires |operands| > 0
    decreases |operands|
  {
    if |operands| == 1 then operands[0] else operands[0] + ", " + JoinOperands(operands[1..])
  }

  /** The operand list in its source form, as the rest of a text from position i. */
  lemma {:induction false} OperandsJoin(s: string, i: nat, operands: seq<string>)
    requires |operands| > 0 && forall k :: 0 <= k < |operands| ==> IsOperandToken(operands[k])
    requires i <= |s| && s[i..] == JoinOperands(operands)
    ensures Operands(s, i) == Scanned(operands, |s|)
    decreases |operands|, 1
  {
    if |operands| == 1 {
      OperandsJoinSingle(s, i, operands[0]);
      assert [operands[0]] == operands;
    } else {
      OperandsJoinMore(s, i, operands);
    }
  }

  /** The recursive case: the first operand, its separator, then the rest of the list. */
  lemma {:induction false} OperandsJoinMore(s: string, i: nat, operands: seq<string>)
    requires |operands| > 1 && forall k :: 0 <= k < |operands| ==> IsOperandToken(operands[k])
    requires i <= |s| && s[i..] == JoinOperands(operands)
    ensures Operands(s, i) == Scanned(operands, |s|)
    decreases |operands|, 0
  {
    var rest := operands[1..];
    OperandsJoinSplit(s, i, operands);
    assert forall k :: 0 <= k < |rest| ==> rest[k] == operands[k + 1];
    OperandsJoin(s, i + |operands[0]| + 2, rest);
    OperandsJoinStep(s, i, operands);
  }

  lemma OperandsJoinSingle(s: string, i: nat, t: string)
    requires IsOperandToken(t) && i <= |s| && s[i..] == t
    ensures Operands(s, i) == Scanned([t], |s|)
  {
    var e := i + |t|;
    assert s[i..i + |t|] == t;
    OperandToken(s, i, t);
    assert MoreOperands(s, e) == Scanned([], e);
    assert [s[i..e]] + [] == [t];
  }

  /** The first operand and the separator, then the rest of the list from e + 2. */
  lemma OperandsJoinSplit(s: string, i: nat, operands: seq<string>)
    requires |operands| > 1 && forall k :: 0 <= k < |operands| ==> IsOperandToken(operands[k])
    requires i <= |s| && s[i..] == JoinOperands(operands)
    ensures var e := i + |operands[0]|;
      && e + 2 <= |s| && s[i..e] == operands[0] && s[e] == ',' && s[e + 1] == ' '
      && s[e + 2..] == JoinOperands(operands[1..])
  {
    var t := operands[0];
    var e := i + |t|;
    var tail := JoinOperands(operands[1..]);
    assert s[i..] == t + ", " + tail;
    assert forall k :: i <= k < |s| ==> s[k] == s[i..][k - i];
    assert s[i..e] == t;
    assert s[e + 2..] == tail;
  }

  lemma OperandsJoinStep(s: string, i: nat, operands: seq<string>)
    requires |operands| > 1 && forall k :: 0 <= k < |operands| ==> IsOperandToken(operands[k])
    requires var e := i + |operands[0]|;
      && e + 2 <= |s| && s[i..e] == operands[0] && s[e] == ',' && s[e + 1] == ' '
      && s[e + 2..] == JoinOperands(operands[1..])
    requires Operands(s, i + |operands[0]| + 2) == Scanned(operands[1..], |s|)
    ensures Operands(s, i) == Scanned(operands, |s|)
  {
    var t := operands[0];
    var e := i + |t|;
    OperandToken(s, i, t);
    OperandsJoinStart(operands[1..]);
    assert s[e + 2] == JoinOperands(operands[1..])[0];
    MultispaceRun(s, e + 1, e + 2);
    MoreOperandsFromOperands(s, e, e + 2);
    assert [t] + operands[1..] == operands;
  }

  lemma JoinStarts(operands: seq<string>)
    requires |operands| > 0 && forall k :: 0 <= k < |operands| ==> IsOperandToken(operands[k])
    ensures |operands[0]| > 0 && |JoinOperands(operands)| > 0 && JoinOperands(operands)[0] == operands[0][0]
  {
    if |operands| > 1 {
      assert JoinOperands(operands) == operands[0] + (", " + JoinOperands(operands[1..]));
    }
  }

  lemma OperandsJoinStart(operands: seq<string>)
    requires |operands| > 0 && forall k :: 0 <= k < |operands| ==> IsOperandToken(operands[k])
    ensures |JoinOperands(operands)| > 0 && IsAsciiAlphanumeric(JoinOperands(operands)[0])
    ensures !IsMultispace(JoinOperands(operands)[0])
  {
    JoinStarts(operands);
  }

  /** A separator followed by operands: the operands after the first are those from
      just past the separator. */
  lemma MoreOperandsFromOperands(s: string, i: nat, m: nat)
    requires i < |s| && s[i] == ',' && Multispace0(s, i + 1) == m
    requires Operand(s, m).Some?
    ensures MoreOperands(s, i) == Operands(s, m)
  {
  }

  /** An instruction written in its source form, after any white space (the line
      feed that ends the previous line, say), parses back to its mnemonic and
      operands, and nothing is left. */
  lemma InstrRoundTrip(lead: string, mnemonic: string, operands: seq<string>)
    requires forall k :: 0 <= k < |lead| ==> IsMultispace(lead[k])
    requires IsWord(mnemonic)
    requires forall k :: 0 <= k < |operands| ==> IsOperandToken(operands[k])
    ensures Parse(lead + InstrLine(mnemonic, operands)) == Some(Parsed(Instr([mnemonic] + operands), ""))
  {
    InstrLineLayout(lead, mnemonic, operands);
    InstrScan(lead + InstrLine(mnemonic, operands), |lead|, |lead| + |mnemonic|, mnemonic, operands);
  }

  /** Where the parts of an instruction line sit, after the white space before it. */
  lemma InstrLineLayout(lead: string, mnemonic: string, operands: seq<string>)
    requires forall k :: 0 <= k < |lead| ==> IsMultispace(lead[k])
    requires IsWord(mnemonic)
    ensures var s := lead + InstrLine(mnemonic, operands);
      var l := |lead|;
      var n := |mnemonic|;
      && l < l + n <= |s|
      && (forall k :: 0 <= k < l ==> IsMultispace(s[k]))
      && (forall k :: l <= k < l + n ==> IsAsciiAlphabetic(s[k]))
      && s[l..l + n] == mnemonic
      && if |operands| == 0 then l + n == |s|
         else l + n < |s| && s[l + n] == ' ' && s[l + n + 1..] == JoinOperands(operands)
  {
    var after := if |operands| == 0 then "" else " " + JoinOperands(operands);
    var s := lead + InstrLine(mnemonic, operands);
    assert s == lead + mnemonic + after;
    var l := |lead|;
    var n := |mnemonic|;
    assert forall k :: 0 <= k < l ==> s[k] == lead[k];
    assert forall k :: l <= k < l + n ==> s[k] == mnemonic[k - l];
    assert s[l..l + n] == mnemonic;
    assert s[l + n..] == after;
  }

  /** How `parse` reads an instruction line after white space: the white space, the
      mnemonic, then either the end or one blank and the operand list up to the end. */
  lemma InstrScan(s: string, t: nat, n: nat, mnemonic: string, operands: seq<string>)
    requires t < n <= |s| && s[t..n] == mnemonic
    requires forall k :: 0 <= k < t ==> IsMultispace(s[k])
    requires forall k :: t <= k < n ==> IsAsciiAlphabetic(s[k])
    requires forall k :: 0 <= k < |operands| ==> IsOperandToken(operands[k])
    requires if |operands| == 0 then n == |s|
      else n < |s| && s[n] == ' ' && s[n + 1..] == JoinOperands(operands)
    ensures Parse(s) == Some(Parsed(Instr([mnemonic] + operands), ""))
  {
    MultispaceRun(s, 0, t);
    AlphaRun(s, t, n);
    assert Alpha1(s, t) == Some(n);
    if |operands| == 0 {
      MultispaceRun(s, n, n);
      assert Operands(s, n) == Scanned([], n);
    } else {
      OperandsAfterBlank(s, n, operands);
    }
    ParseWholeInstr(s, t, n, operands);
  }

  /** One blank, then the operand list up to the end. */
  lemma OperandsAfterBlank(s: string, n: nat, operands: seq<string>)
    requires |operands| > 0 && forall k :: 0 <= k < |operands| ==> IsOperandToken(operands[k])
    requires n < |s| && s[n] == ' ' && s[n + 1..] == JoinOperands(operands)
    ensures Operands(s, Multispace0(s, n)) == Scanned(operands, |s|)
  {
    OperandsJoinStart(operands);
    assert s[n + 1] == JoinOperands(operands)[0];
    MultispaceRun(s, n, n + 1);
    OperandsJoin(s, n + 1, operands);
  }

  /** `parse` on a text whose blanks, word and operands are known: a word not
      followed by a colon is read with its operands as an instruction. */
  lemma ParseWholeInstr(s: string, t: nat, n: nat, operands: seq<string>)
    requires t <= n <= |s| && Multispace0(s, 0) == t && Alpha1(s, t) == Some(n)
    requires n == |s| || s[n] != ':'
    requires Operands(s, Multispace0(s, n)) == Scanned(operands, |s|)
    ensures Parse(s) == Some(Parsed(Instr([s[t..n]] + operands), ""))
  {
    assert ParseLabel(s, 0).None?;
    assert s[|s|..] == "";
  }

  /** A label definition in its source form, after any white space, then white
      space and any text that does not start with white space: the label is read,
      even though the instruction parser would also accept its name, and the white
      space on both sides is consumed. */
  lemma LabelRoundTrip(lead: string, name: string, space: string, rest: string)
    requires forall k :: 0 <= k < |lead| ==> IsMultispace(lead[k])
    requires IsWord(name)
    requires forall k :: 0 <= k < |space| ==> IsMultispace(space[k])
    requires |rest| == 0 || !IsMultispace(rest[0])
    ensures Parse(lead + LabelLine(name) + space + rest) == Some(Parsed(Label(name), rest))
  {
    LabelLineLayout(lead, name, space, rest);
    var l := |lead| + |name|;
    LabelScan(lead + LabelLine(name) + space + rest, |lead|, l, l + 1 + |space|, name, rest);
  }

  /** Where the parts of a label line sit, between the white space around it. */
  lemma LabelLineLayout(lead: string, name: string, space: string, rest: string)
    requires forall k :: 0 <= k < |lead| ==> IsMultispace(lead[k])
    requires IsWord(name)
    requires forall k :: 0 <= k < |space| ==> IsMultispace(space[k])
    requires |rest| == 0 || !IsMultispace(rest[0])
    ensures var s := lead + LabelLine(name) + space + rest;
      var l := |lead|;
      var n := |name|;
      var m := l + n + 1 + |space|;
      && l < l + n < m <= |s|
      && (forall k :: 0 <= k < l ==> IsMultispace(s[k]))
      && (forall k :: l <= k < l + n ==> IsAsciiAlphabetic(s[k]))
      && s[l + n] == ':'
      && (forall k :: l + n + 1 <= k < m ==> IsMultispace(s[k]))
      && (m == |s| || !IsMultispace(s[m]))
      && s[l..l + n] == name && s[m..] == rest
  {
    var s := lead + LabelLine(name) + space + rest;
    var l := |lead|;
    var n := |name|;
    var m := l + n + 1 + |space|;
    assert forall k :: 0 <= k < l ==> s[k] == lead[k];
    assert forall k :: l <= k < l + n ==> s[k] == name[k - l];
    assert forall k :: l + n + 1 <= k < m ==> s[k] == space[k - l - n - 1];
    assert s[l + n] == ':';
    assert s[l..l + n] == name;
    assert s[m..] == rest;
  }

  /** How `parse` reads a label line after white space: the white space, the name,
      the colon and the white space after it. */
  lemma LabelScan(s: string, t: nat, n: nat, m: nat, name: string, rest: string)
    requires t < n < m <= |s| && s[t..n] == name && s[m..] == rest
    requires forall k :: 0 <= k < t ==> IsMultispace(s[k])
    requires forall k :: t <= k < n ==> IsAsciiAlphabetic(s[k])
    requires s[n] == ':'
    requires forall k :: n + 1 <= k < m ==> IsMultispace(s[k])
    requires m == |s| || !IsMultispace(s[m])
    ensures Parse(s) == Some(Parsed(Label(name), rest))
  {
    MultispaceRun(s, 0, t);
    AlphaRun(s, t, n);
    MultispaceRun(s, n + 1, m);
    ParseWholeLabel(s, t, n, m);
  }

  /** `parse` on a text whose blanks, word, colon and following blanks are known. */
  lemma ParseWholeLabel(s: string, t: nat, n: nat, m: nat)
    requires t <= n < |s| && Multispace0(s, 0) == t && Alpha1(s, t) == Some(n)
    requires s[n] == ':' && Multispace0(s, n + 1) == m
    ensures Parse(s) == Some(Parsed(Label(s[t..n]), s[m..]))
  {
  }

  /** After a mnemonic the parser skips line feeds too, so an instruction without
      operands takes the next line's mnemonic as its operand: `ret` then `mov eax, 1`
      reads as `ret mov`, and what is left starts with the register. */
  lemma MnemonicSwallowsNextLine()
    ensures Parse("ret\nmov eax, 1") == Some(Parsed(Instr(["ret", "mov"]), " eax, 1"))
  {
    var s := "ret\nmov eax, 1";
    MultispaceRun(s, 0, 0);
    AlphaRun(s, 0, 3);
    assert Alpha1(s, 0) == Some(3);
    assert ParseLabel(s, 0).None?;
    MultispaceRun(s, 3, 4);
    AlphaRun(s, 4, 7);
    assert Operand(s, 4) == Some(7);
    assert MoreOperands(s, 7) == Scanned([], 7);
    assert s[0..3] == "ret" && s[4..7] == "mov" && s[7..] == " eax, 1";
    assert [s[4..7]] + [] == ["mov"];
    assert Operands(s, 4) == Scanned(["mov"], 7);
    assert [s[0..3]] + ["mov"] == ["ret", "mov"];
    assert ParseInstr(s, 0) == Some(Scanned(Instr(["ret", "mov"]), 7));
  }

  /** The operand alternative tries a word first, so `r8d` is cut after the `r` and
      the rest does not parse: the registers r8 to r15 and r8d to r15d cannot be
      written as operands. */
  lemma WideRegisterOperandSplits()
    ensures Parse("mov r8d, 1") == Some(Parsed(Instr(["mov", "r"]), "8d, 1"))
    ensures Parse("8d, 1").None?
  {
    var s := "mov r8d, 1";
    MultispaceRun(s, 0, 0);
    AlphaRun(s, 0, 3);
    assert Alpha1(s, 0) == Some(3);
    assert ParseLabel(s, 0).None?;
    MultispaceRun(s, 3, 4);
    AlphaRun(s, 4, 5);
    assert Operand(s, 4) == Some(5);
    assert MoreOperands(s, 5) == Scanned([], 5);
    assert s[0..3] == "mov" && s[4..5] == "r" && s[5..] == "8d, 1";
    assert [s[4..5]] + [] == ["r"];
    assert [s[0..3]] + ["r"] == ["mov", "r"];
    assert ParseInstr(s, 0) == Some(Scanned(Instr(["mov", "r"]), 5));
    MultispaceRun("8d, 1", 0, 0);
  }

  /** White space before a comma ends the operand list. */
  lemma SpaceBeforeCommaEndsOperands()
    ensures Parse("mov eax , 1") == Some(Parsed(Instr(["mov", "eax"]), " , 1"))
  {
    var s := "mov eax , 1";
    MultispaceRun(s, 0, 0);
    AlphaRun(s, 0, 3);
    assert Alpha1(s, 0) == Some(3);
    assert ParseLabel(s, 0).None?;
    MultispaceRun(s, 3, 4);
    AlphaRun(s, 4, 7);
    assert Operand(s, 4) == Some(7);
    assert MoreOperands(s, 7) == Scanned([], 7);
    assert s[0..3] == "mov" && s[4..7] == "eax" && s[7..] == " , 1";
    assert [s[4..7]] + [] == ["eax"];
    assert [s[0..3]] + ["eax"] == ["mov", "eax"];
    assert ParseInstr(s, 0) == Some(Scanned(Instr(["mov", "eax"]), 7));
  }

  /** `hex` examples: a bare prefix and a prefix followed by a comma fail, the span
      includes the prefix, and digits need no prefix. */
  lemma HexExamples()
    ensures Hex("0x", 0).None? && Hex("0x,", 0).None?
    ensures Hex("0xff,", 0) == Some(4) && Hex("0X1F", 0) == Some(4) && Hex("12ab", 0) == Some(4)
  {
    AlphanumericRun("0xff,", 2, 4);
    AlphanumericRun("0X1F", 2, 4);
    AlphanumericRun("12ab", 0, 4);
  }
}
