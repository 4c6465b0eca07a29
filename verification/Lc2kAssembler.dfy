/** The LC-2K assembler: which programs it takes, and what the words it makes of them mean. */
module Lc2kAssembler {
  import opened Lc2k

  const MAXLINES := 51

  datatype Line = Line(name: string, opcode: string, arg0: string, arg1: string, arg2: string)

  datatype Error =
    | TooManyLines | DuplicateLabel | LabelTooLong | LabelIsNumber | BadOpcode | UndefinedLabel
    | RegANotNumber | RegBNotNumber | RegAOutOfBound | RegBOutOfBound | DestNotNumber | DestOutOfBound | OffsetTooLarge

  datatype Result<T> = Ok(value: T) | Err(error: Error)

  // ---------- numbers in text ----------

  predicate IsDigit(c: char) {
    '0' <= c <= '9'
  }

  function SkipSign(s: string): string {
    if s != "" && (s[0] == '-' || s[0] == '+') then s[1..] else s
  }

  // Text that starts like a number is one.
  predicate IsNumber(s: string) {
    SkipSign(s) != "" && IsDigit(SkipSign(s)[0])
  }

  lemma IsNumberExactly(s: string)
    ensures IsNumber(s) <==> (|s| >= 1 && '0' <= s[0] <= '9') || (|s| >= 2 && (s[0] == '-' || s[0] == '+') && '0' <= s[1] <= '9')
  {
  }

  function Digits(s: string, n: nat): nat
    decreases |s|
  {
    if s != "" && IsDigit(s[0]) then Digits(s[1..], n * 10 + (s[0] as int - '0' as int)) else n
  }

  function Atoi(s: string): int {
    if s != "" && s[0] == '-' then -(Digits(SkipSign(s), 0) as int) else Digits(SkipSign(s), 0)
  }

  // How many digits a text starts with, and their value, worked out from the last one.
  function DigitCount(s: string): nat {
    if s != "" && IsDigit(s[0]) then 1 + DigitCount(s[1..]) else 0
  }

  lemma {:induction false} DigitsAre(s: string)
    ensures DigitCount(s) <= |s| && (forall k :: 0 <= k < DigitCount(s) ==> IsDigit(s[k]))
    ensures DigitCount(s) < |s| ==> !IsDigit(s[DigitCount(s)])
  {
    if s != "" && IsDigit(s[0]) {
      DigitsAre(s[1..]);
      assert forall k :: 1 <= k < |s| ==> s[k] == s[1..][k - 1];
    }
  }

  predicate AllDigits(s: string) {
    forall k :: 0 <= k < |s| ==> IsDigit(s[k])
  }

  function Decimal(s: string): nat
    requires AllDigits(s)
  {
    if s == "" then 0 else 10 * Decimal(s[..|s| - 1]) + (s[|s| - 1] as int - 48)
  }

  lemma {:induction false} DigitsMore(s: string, n: nat, c: char)
    requires AllDigits(s) && IsDigit(c)
    ensures Digits(s + [c], n) == 10 * Digits(s, n) + (c as int - 48)
  {
    if s == "" {
      assert (s + [c])[1..] == "";
    } else {
      assert (s + [c])[1..] == s[1..] + [c] && (s + [c])[0] == s[0];
      DigitsMore(s[1..], n * 10 + (s[0] as int - '0' as int), c);
    }
  }

  lemma {:induction false} DigitsDecimal(s: string)
    requires AllDigits(s)
    ensures Digits(s, 0) == Decimal(s)
  {
    if s != "" {
      var k := |s| - 1;
      DigitsDecimal(s[..k]);
      DigitsMore(s[..k], 0, s[k]);
      assert s[..k] + [s[k]] == s;
    }
  }

  // What comes after the digits does not matter.
  lemma {:induction false} DigitsOnly(s: string, n: nat)
    ensures DigitCount(s) <= |s| && Digits(s, n) == Digits(s[..DigitCount(s)], n)
  {
    DigitsAre(s);
    if s != "" && IsDigit(s[0]) {
      DigitsOnly(s[1..], n * 10 + (s[0] as int - '0' as int));
      assert s[..DigitCount(s)][1..] == s[1..][..DigitCount(s[1..])];
    }
  }

  // A number is what its digits say in decimal, after a sign.
  lemma AtoiExactly(s: string)
    ensures var t := if s != "" && (s[0] == '-' || s[0] == '+') then s[1..] else s;
            && DigitCount(t) <= |t| && AllDigits(t[..DigitCount(t)])
            && Atoi(s) == (if s != "" && s[0] == '-' then -1 else 1) * Decimal(t[..DigitCount(t)])
  {
    var t := SkipSign(s);
    DigitsAre(t);
    DigitsOnly(t, 0);
    DigitsDecimal(t[..DigitCount(t)]);
  }

  // ---------- labels ----------

  predicate HasLabel(l: Line, s: string) {
    l.name != "" && l.name == s
  }

  // Line i has the label, and none before it.
  predicate IsAddr(lines: seq<Line>, s: string, i: int) {
    0 <= i < |lines| && HasLabel(lines[i], s) && forall j :: 0 <= j < i ==> !HasLabel(lines[j], s)
  }

  predicate Defined(lines: seq<Line>, s: string) {
    exists i :: 0 <= i < |lines| && HasLabel(lines[i], s)
  }

  // A label that may stand at line i.
  predicate LabelOk(lines: seq<Line>, i: nat)
    requires i < |lines|
  {
    var s := lines[i].name;
    !Defined(lines[..i], s) && |s| <= 6 && !(s != "" && IsDigit(s[0]))
  }

  lemma OneAddr(lines: seq<Line>, s: string, i: int, j: int)
    requires IsAddr(lines, s, i) && IsAddr(lines, s, j)
    ensures i == j
  {
  }

  lemma NotBefore(lines: seq<Line>, j: nat)
    requires j < |lines| && LabelOk(lines, j)
    ensures forall k :: 0 <= k < j ==> !HasLabel(lines[k], lines[j].name)
  {
    forall k | 0 <= k < j
      ensures !HasLabel(lines[k], lines[j].name)
    {
      assert lines[..j][k] == lines[k];
    }
  }

  // In a program that is taken, a label stands at one line only.
  lemma LabelsUnique(lines: seq<Line>, s: string, i: nat, j: nat)
    requires forall k: nat :: k < |lines| ==> LabelOk(lines, k)
    requires i < |lines| && j < |lines| && HasLabel(lines[i], s) && HasLabel(lines[j], s)
    ensures i == j
  {
    NotBefore(lines, i);
    NotBefore(lines, j);
  }

  // ---------- what a line means ----------

  predicate IsReg(s: string) {
    IsNumber(s) && 0 <= Atoi(s) < NUMREGS
  }

  // A number, or the address of a label.
  predicate Value(lines: seq<Line>, s: string, v: int) {
    if IsNumber(s) then v == Atoi(s) else IsAddr(lines, s, v)
  }

  predicate HasValue(lines: seq<Line>, s: string) {
    IsNumber(s) || Defined(lines, s)
  }

  // Where a branch at line i goes to: the line of its label, or so many lines from the next one.
  predicate Target(lines: seq<Line>, s: string, i: int, v: int) {
    if IsNumber(s) then v == i + 1 + Atoi(s) else IsAddr(lines, s, v)
  }

  predicate Fits(v: int) {
    -0x8000 <= v <= 0x7fff
  }

  // Line i as an instruction with its labels looked up.
  predicate Means(lines: seq<Line>, i: nat, x: Instr)
    requires i < |lines|
  {
    var l := lines[i];
    match x
    case AddI(a, b, d) => l.opcode == "add" && IsReg(l.arg0) && a == Atoi(l.arg0) && IsReg(l.arg1) && b == Atoi(l.arg1) && IsReg(l.arg2) && d == Atoi(l.arg2)
    case NorI(a, b, d) => l.opcode == "nor" && IsReg(l.arg0) && a == Atoi(l.arg0) && IsReg(l.arg1) && b == Atoi(l.arg1) && IsReg(l.arg2) && d == Atoi(l.arg2)
    case Lw(a, b, v) => l.opcode == "lw" && IsReg(l.arg0) && a == Atoi(l.arg0) && IsReg(l.arg1) && b == Atoi(l.arg1) && Value(lines, l.arg2, v) && Fits(v)
    case Sw(a, b, v) => l.opcode == "sw" && IsReg(l.arg0) && a == Atoi(l.arg0) && IsReg(l.arg1) && b == Atoi(l.arg1) && Value(lines, l.arg2, v) && Fits(v)
    case Beq(a, b, v) =>
      l.opcode == "beq" && IsReg(l.arg0) && a == Atoi(l.arg0) && IsReg(l.arg1) && b == Atoi(l.arg1) && Target(lines, l.arg2, i, v) && Fits(v - (i + 1))
    case Jalr(a, b) => l.opcode == "jalr" && IsReg(l.arg0) && a == Atoi(l.arg0) && IsReg(l.arg1) && b == Atoi(l.arg1)
    case Halt => l.opcode == "halt"
    case Noop => l.opcode == "noop"
  }

  // Word w is right for line i.
  predicate Assembles(lines: seq<Line>, i: nat, w: int)
    requires i < |lines|
  {
    if lines[i].opcode == ".fill" then Value(lines, lines[i].arg0, w) else Means(lines, i, Decode(w, i))
  }

  // What the fields of a word are, in bits: registers as the line says, and below them a register, a
  // number, the line of a label, or for a branch the way from the next line to it.
  lemma RegistersExactly(lines: seq<Line>, i: nat, w: int)
    requires i < |lines| && Assembles(lines, i, w) && lines[i].opcode in ["add", "nor", "lw", "sw", "beq", "jalr"]
    ensures var l := lines[i];
            && w / 524288 % 8 == Atoi(l.arg0) && w / 65536 % 8 == Atoi(l.arg1)
            && (l.opcode in ["add", "nor"] ==> w % 8 == Atoi(l.arg2))
  {
  }

  lemma FillExactly(lines: seq<Line>, i: nat, w: int)
    requires i < |lines| && Assembles(lines, i, w) && lines[i].opcode == ".fill"
    ensures if IsNumber(lines[i].arg0) then w == Atoi(lines[i].arg0) else IsAddr(lines, lines[i].arg0, w)
  {
  }

  lemma AddressExactly(lines: seq<Line>, i: nat, w: int)
    requires i < |lines| && Assembles(lines, i, w) && lines[i].opcode in ["lw", "sw"]
    ensures var s, low := lines[i].arg2, w % 65536;
            if IsNumber(s) then (low - Atoi(s)) % 65536 == 0 else exists v :: IsAddr(lines, s, v) && (low - v) % 65536 == 0
  {
    OffsetBits(w);
    assert Value(lines, lines[i].arg2, Offset(w));
  }

  lemma WayExactly(lines: seq<Line>, i: nat, w: int)
    requires i < |lines| && Assembles(lines, i, w) && lines[i].opcode == "beq"
    ensures var s, low := lines[i].arg2, w % 65536;
            if IsNumber(s) then (low - Atoi(s)) % 65536 == 0 else exists v :: IsAddr(lines, s, v) && (low - (v - i - 1)) % 65536 == 0
  {
    OffsetBits(w);
    assert Target(lines, lines[i].arg2, i, i + 1 + Offset(w));
  }

  lemma OffsetBits(w: int)
    ensures (w % 65536 - Offset(w)) % 65536 == 0
  {
  }

  // The number of the operation is in bits 22 to 24, and what the instruction does not use is zero.
  predicate Formatted(opcode: string, w: int) {
    && (opcode == "add" ==> w / 4194304 == 0 && w % 65536 < 8) && (opcode == "nor" ==> w / 4194304 == 1 && w % 65536 < 8)
    && (opcode == "lw" ==> w / 4194304 == 2) && (opcode == "sw" ==> w / 4194304 == 3) && (opcode == "beq" ==> w / 4194304 == 4)
    && (opcode == "jalr" ==> w / 4194304 == 5 && w % 65536 == 0)
    && (opcode == "halt" ==> w == 6 * 4194304) && (opcode == "noop" ==> w == 7 * 4194304)
  }

  lemma FormatOf(opcode: string, op: nat, a: nat, b: nat, low: nat)
    requires op < 8 && a < 8 && b < 8 && low < 65536 && opcode == ["add", "nor", "lw", "sw", "beq", "jalr", "halt", "noop"][op]
    requires (op < 2 ==> low < 8) && (op == 5 ==> low == 0) && (op >= 6 ==> a == 0 && b == 0 && low == 0)
    ensures Formatted(opcode, Pack(op, a, b, low))
  {
    Unpack(op, a, b, low);
    Named(opcode, op, Pack(op, a, b, low), low);
  }

  lemma Named(opcode: string, op: nat, w: int, low: nat)
    requires op < 8 && opcode == ["add", "nor", "lw", "sw", "beq", "jalr", "halt", "noop"][op]
    requires w / 4194304 == op && w % 65536 == low && (op < 2 ==> low < 8) && (op == 5 ==> low == 0) && (op >= 6 ==> w == op * 4194304)
    ensures Formatted(opcode, w)
  {
    OtherNames(opcode, op);
  }

  // An operation has one name.
  lemma OtherNames(opcode: string, op: nat)
    requires op < 8 && opcode == ["add", "nor", "lw", "sw", "beq", "jalr", "halt", "noop"][op]
    ensures (opcode == "add" <==> op == 0) && (opcode == "nor" <==> op == 1) && (opcode == "lw" <==> op == 2) && (opcode == "sw" <==> op == 3)
    ensures (opcode == "beq" <==> op == 4) && (opcode == "jalr" <==> op == 5) && (opcode == "halt" <==> op == 6) && (opcode == "noop" <==> op == 7)
  {
  }

  // Line i can be assembled.
  ghost predicate LineOk(lines: seq<Line>, i: nat)
    requires i < |lines|
  {
    var l := lines[i];
    if l.opcode == ".fill" then HasValue(lines, l.arg0)
    else if l.opcode == "halt" || l.opcode == "noop" then true
    else
      && IsReg(l.arg0) && IsReg(l.arg1)
      && if l.opcode == "add" || l.opcode == "nor" then IsReg(l.arg2)
         else if l.opcode == "lw" || l.opcode == "sw" then HasValue(lines, l.arg2) && forall v :: Value(lines, l.arg2, v) ==> Fits(v)
         else if l.opcode == "beq" then HasValue(lines, l.arg2) && forall v :: Target(lines, l.arg2, i, v) ==> Fits(v - (i + 1))
         else l.opcode == "jalr"
  }

  lemma AddrOnly(lines: seq<Line>, s: string, i: int)
    requires IsAddr(lines, s, i)
    ensures forall j :: IsAddr(lines, s, j) ==> j == i
  {
    forall j | IsAddr(lines, s, j)
      ensures j == i
    {
      OneAddr(lines, s, i, j);
    }
  }

  // ---------- the assembler ----------

  class Assembler {
    const inst: array<Line>
    var count: nat

    ghost predicate Valid()
      reads this
    {
      inst.Length == MAXLINES && count <= MAXLINES
    }

    ghost function Lines(): seq<Line>
      requires Valid()
      reads this, inst
    {
      inst[..count]
    }

    constructor ()
      ensures Valid() && count == 0 && fresh(inst)
    {
      inst := new Line[MAXLINES](_ => Line("", "", "", "", ""));
      count := 0;
    }

    method GetLabelAddr(s: string) returns (r: int)
      requires Valid()
      ensures if Defined(Lines(), s) then IsAddr(Lines(), s, r) else r == -1
    {
      var i := 0;
      while i < count
        invariant 0 <= i <= count && forall j :: 0 <= j < i ==> !HasLabel(inst[j], s)
      {
        if inst[i].name != "" {
          if inst[i].name == s {
            assert HasLabel(Lines()[i], s);
            return i;
          }
        }
        i := i + 1;
      }
      r := -1;
    }

    // The first pass: all lines are read, and their labels looked at.  Nothing checks that there is
    // room; one line too many is written behind the array.
    method ReadLines(text: seq<Line>) returns (r: Result<()>)
      requires Valid() && count == 0
      modifies this, inst
      ensures Valid()
      ensures r.Ok? <==> |text| <= MAXLINES && forall i: nat :: i < |text| ==> LabelOk(text, i)
      ensures r == Err(TooManyLines) <==> |text| > MAXLINES && forall i: nat :: i < MAXLINES ==> LabelOk(text, i)
      ensures r.Ok? ==> Lines() == text
    {
      while count < |text|
        invariant Valid() && count <= |text| && Lines() == text[..count]
        invariant forall i: nat :: i < count ==> LabelOk(text, i)
      {
        if count == MAXLINES {
          return Err(TooManyLines);
        }
        inst[count] := text[count];
        assert Lines() == text[..count];
        var addr := GetLabelAddr(inst[count].name);
        if addr != -1 {
          assert !LabelOk(text, count);
          return Err(DuplicateLabel);
        }
        if |inst[count].name| > 6 {
          assert !LabelOk(text, count);
          return Err(LabelTooLong);
        }
        if inst[count].name != "" && IsNumber(inst[count].name[..1]) {
          assert !LabelOk(text, count);
          return Err(LabelIsNumber);
        }
        assert LabelOk(text, count);
        count := count + 1;
      }
      assert text[..count] == text;
      r := Ok(());
    }

    method OpcodeOf(s: string) returns (op: nat)
      ensures op <= 9 && (op == 9 <==> s !in ["add", "nor", "lw", "sw", "beq", "jalr", "halt", "noop", ".fill"])
      ensures op < 9 ==> s == ["add", "nor", "lw", "sw", "beq", "jalr", "halt", "noop", ".fill"][op]
    {
      if s == "add" {
        return 0;
      } else if s == "nor" {
        return 1;
      } else if s == "lw" {
        return 2;
      } else if s == "sw" {
        return 3;
      } else if s == "beq" {
        return 4;
      } else if s == "jalr" {
        return 5;
      } else if s == "halt" {
        return 6;
      } else if s == "noop" {
        return 7;
      } else if s == ".fill" {
        return 8;
      }
      return 9;
    }

    // The second pass, for one line.
    method AssembleLine(i: nat) returns (r: Result<int>)
      requires Valid() && i < count
      ensures r.Ok? <==> LineOk(Lines(), i)
      ensures r.Ok? ==> Assembles(Lines(), i, r.value) && Formatted(inst[i].opcode, r.value)
    {
      var op := OpcodeOf(inst[i].opcode);
      assert Lines()[i] == inst[i];
      if op == 9 {
        return Err(BadOpcode);
      }
      if op == 6 || op == 7 {
        DecodesRest(op, 0, 0, i);
        FormatOf(inst[i].opcode, op, 0, 0, 0);
        return Ok(Pack(op, 0, 0, 0));
      }
      if op == 8 {
        r := AssembleFill(i);
        return;
      }
      r := AssembleRegisters(i, op);
    }

    method AssembleFill(i: nat) returns (r: Result<int>)
      requires Valid() && i < count && inst[i].opcode == ".fill"
      ensures r.Ok? <==> LineOk(Lines(), i)
      ensures r.Ok? ==> Assembles(Lines(), i, r.value) && Formatted(inst[i].opcode, r.value)
    {
      assert Lines()[i] == inst[i];
      if IsNumber(inst[i].arg0) {
        return Ok(Atoi(inst[i].arg0));
      }
      var addr := GetLabelAddr(inst[i].arg0);
      r := if addr < 0 then Err(UndefinedLabel) else Ok(addr);
    }

    method AssembleRegisters(i: nat, op: nat) returns (r: Result<int>)
      requires Valid() && i < count && op < 6 && inst[i].opcode == ["add", "nor", "lw", "sw", "beq", "jalr"][op]
      ensures r.Ok? <==> LineOk(Lines(), i)
      ensures r.Ok? ==> Assembles(Lines(), i, r.value) && Formatted(inst[i].opcode, r.value)
    {
      assert Lines()[i] == inst[i];
      if !IsNumber(inst[i].arg0) {
        return Err(RegANotNumber);
      }
      if !IsNumber(inst[i].arg1) {
        return Err(RegBNotNumber);
      }
      var reg0, reg1 := Atoi(inst[i].arg0), Atoi(inst[i].arg1);
      if reg0 < 0 || reg0 > 7 {
        return Err(RegAOutOfBound);
      }
      if reg1 < 0 || reg1 > 7 {
        return Err(RegBOutOfBound);
      }
      if op == 0 || op == 1 {
        r := AssembleDest(i, op, reg0, reg1);
      } else if op == 5 {
        DecodesRest(op, reg0, reg1, i);
        FormatOf(inst[i].opcode, op, reg0, reg1, 0);
        r := Ok(Pack(op, reg0, reg1, 0));
      } else {
        r := AssembleOffset(i, op, reg0, reg1);
      }
    }

    method AssembleDest(i: nat, op: nat, reg0: nat, reg1: nat) returns (r: Result<int>)
      requires Valid() && i < count && reg0 < 8 && reg1 < 8 && op < 2
      requires IsReg(inst[i].arg0) && Atoi(inst[i].arg0) == reg0 && IsReg(inst[i].arg1) && Atoi(inst[i].arg1) == reg1
      requires inst[i].opcode == ["add", "nor"][op]
      ensures r.Ok? <==> LineOk(Lines(), i)
      ensures r.Ok? ==> Assembles(Lines(), i, r.value) && Formatted(inst[i].opcode, r.value)
    {
      assert Lines()[i] == inst[i];
      if !IsNumber(inst[i].arg2) {
        return Err(DestNotNumber);
      }
      var dest := Atoi(inst[i].arg2);
      if dest < 0 || dest > 7 {
        return Err(DestOutOfBound);
      }
      DecodesRegisters(op, reg0, reg1, dest, i);
      FormatOf(inst[i].opcode, op, reg0, reg1, dest);
      r := Ok(Pack(op, reg0, reg1, dest));
    }

    // What the third field stands for; for a branch, counted from the next line.
    method FindOffset(i: nat, op: nat) returns (r: Result<int>)
      requires Valid() && i < count
      ensures r.Ok? <==> HasValue(Lines(), inst[i].arg2)
      ensures r.Ok? && op == 4 ==> forall v :: Target(Lines(), inst[i].arg2, i, v) <==> v == i + 1 + r.value
      ensures r.Ok? && op != 4 ==> forall v :: Value(Lines(), inst[i].arg2, v) <==> v == r.value
    {
      if IsNumber(inst[i].arg2) {
        return Ok(Atoi(inst[i].arg2));
      }
      var offset := GetLabelAddr(inst[i].arg2);
      if offset < 0 {
        return Err(UndefinedLabel);
      }
      AddrOnly(Lines(), inst[i].arg2, offset);
      r := Ok(if op == 4 then offset - (i + 1) else offset);
    }

    method AssembleOffset(i: nat, op: nat, reg0: nat, reg1: nat) returns (r: Result<int>)
      requires Valid() && i < count && reg0 < 8 && reg1 < 8 && 2 <= op <= 4
      requires IsReg(inst[i].arg0) && Atoi(inst[i].arg0) == reg0 && IsReg(inst[i].arg1) && Atoi(inst[i].arg1) == reg1
      requires inst[i].opcode == ["lw", "sw", "beq"][op - 2]
      ensures r.Ok? <==> LineOk(Lines(), i)
      ensures r.Ok? ==> Assembles(Lines(), i, r.value) && Formatted(inst[i].opcode, r.value)
    {
      assert Lines()[i] == inst[i];
      var found := FindOffset(i, op);
      if found.Err? {
        return found;
      }
      var offset := found.value;
      if offset < -32768 || offset > 32767 {
        assert if op == 4 then Target(Lines(), inst[i].arg2, i, i + 1 + offset) else Value(Lines(), inst[i].arg2, offset);
        return Err(OffsetTooLarge);
      }
      DecodesOffset(op, reg0, reg1, offset, i);
      FormatOf(inst[i].opcode, op, reg0, reg1, offset % 0x1_0000);
      r := Ok(Pack(op, reg0, reg1, offset % 0x1_0000));
    }

    method Assemble(text: seq<Line>) returns (r: Result<seq<int>>)
      requires Valid() && count == 0
      modifies this, inst
      ensures Valid()
      ensures r.Ok? <==> |text| <= MAXLINES && (forall i: nat :: i < |text| ==> LabelOk(text, i)) && forall i: nat :: i < |text| ==> LineOk(text, i)
      ensures r.Ok? ==> |r.value| == |text| && forall i: nat :: i < |text| ==> Assembles(text, i, r.value[i]) && Formatted(text[i].opcode, r.value[i])
    {
      var read := ReadLines(text);
      if read.Err? {
        return Err(read.error);
      }
      var words := [];
      var i := 0;
      while i < count
        invariant Valid() && 0 <= i <= count && |words| == i && Lines() == text
        invariant forall j: nat :: j < i ==> LineOk(text, j) && Assembles(text, j, words[j]) && Formatted(text[j].opcode, words[j])
      {
        var word := AssembleLine(i);
        if word.Err? {
          return Err(word.error);
        }
        words := words + [word.value];
        i := i + 1;
      }
      r := Ok(words);
    }
  }
}
