/** The LC-2K: words and their fields, what an instruction does, and the simulator's loop. */
module Lc2k {

  const NUMMEMORY := 65536
  const NUMREGS := 8

  // ---------- words ----------

  // Fields by shifting and masking; a negative word is one in two's complement.
  function Opcode(w: int): nat {
    w / 0x40_0000 % 8
  }

  function RegA(w: int): nat {
    w / 0x8_0000 % 8
  }

  function RegB(w: int): nat {
    w / 0x1_0000 % 8
  }

  function Dest(w: int): nat {
    w % 8
  }

  // The lower half, its sign extended.
  function Offset(w: int): int {
    var o := w % 0x1_0000;
    if o > 0x7fff then o - 0x1_0000 else o
  }

  function Pack(op: nat, a: nat, b: nat, low: nat): int {
    op * 0x40_0000 + a * 0x8_0000 + b * 0x1_0000 + low
  }

  lemma Above22(q: int, r: int)
    requires 0 <= r < 0x40_0000
    ensures (q * 0x40_0000 + r) / 0x40_0000 == q
  {
  }

  lemma Above19(q: int, r: int)
    requires 0 <= r < 0x8_0000
    ensures (q * 0x8_0000 + r) / 0x8_0000 == q
  {
  }

  lemma Above16(q: int, r: int)
    requires 0 <= r < 0x1_0000
    ensures (q * 0x1_0000 + r) / 0x1_0000 == q && (q * 0x1_0000 + r) % 0x1_0000 == r
  {
  }

  lemma Lowest3(q: int, r: int)
    requires 0 <= r < 8
    ensures (q * 8 + r) % 8 == r
  {
  }

  lemma UnpackHigh(op: nat, a: nat, b: nat, low: nat)
    requires op < 8 && a < 8 && b < 8 && low < 0x1_0000
    ensures var w := Pack(op, a, b, low); Opcode(w) == op && RegA(w) == a
  {
    Above22(op, a * 0x8_0000 + b * 0x1_0000 + low);
    Above19(op * 8 + a, b * 0x1_0000 + low);
    Lowest3(op, a);
    Lowest3(0, op);
  }

  lemma UnpackLow(op: nat, a: nat, b: nat, low: nat)
    requires op < 8 && a < 8 && b < 8 && low < 0x1_0000
    ensures var w := Pack(op, a, b, low); RegB(w) == b && w % 0x1_0000 == low && Dest(w) == low % 8
  {
    Above16(op * 64 + a * 8 + b, low);
    Lowest3(op * 8 + a, b);
    Lowest3(op * 0x8_0000 + a * 0x1_0000 + b * 0x2000 + low / 8, low % 8);
  }

  lemma Unpack(op: nat, a: nat, b: nat, low: nat)
    requires op < 8 && a < 8 && b < 8 && low < 0x1_0000
    ensures var w := Pack(op, a, b, low); Opcode(w) == op && RegA(w) == a && RegB(w) == b && Dest(w) == low % 8 && w % 0x1_0000 == low
    ensures var w := Pack(op, a, b, low); w / 4194304 == op && w / 524288 % 8 == a && w / 65536 % 8 == b && w % 65536 == low
  {
    Above22(op, a * 0x8_0000 + b * 0x1_0000 + low);
    UnpackHigh(op, a, b, low);
    UnpackLow(op, a, b, low);
  }

  // Every offset that fits in 16 bits comes back.
  lemma OffsetBack(op: nat, a: nat, b: nat, offset: int)
    requires op < 8 && a < 8 && b < 8 && -0x8000 <= offset <= 0x7fff
    ensures Offset(Pack(op, a, b, offset % 0x1_0000)) == offset
  {
    Unpack(op, a, b, offset % 0x1_0000);
  }

  function ToWord(n: int): int {
    (n + 0x8000_0000) % 0x1_0000_0000 - 0x8000_0000
  }

  function Add(a: int, b: int): int {
    ToWord(a + b)
  }

  // The n lower bits of a or b.
  function OrBits(a: int, b: int, n: nat): nat
    decreases n
  {
    if n == 0 then 0 else (if a % 2 == 1 || b % 2 == 1 then 1 else 0) + 2 * OrBits(a / 2, b / 2, n - 1)
  }

  function Nor(a: int, b: int): int {
    -1 - ToWord(OrBits(a, b, 32))
  }

  // ---------- what the arithmetic comes to ----------

  predicate IsWord(n: int) {
    -0x8000_0000 <= n < 0x8000_0000
  }

  // A sum in 32 bits: the one word that differs from it by a multiple of 2^32.
  lemma AddExactly(a: int, b: int, r: int)
    ensures r == Add(a, b) <==> IsWord(r) && (a + b - r) % 0x1_0000_0000 == 0
  {
    var n, m := a + b + 0x8000_0000, r + 0x8000_0000;
    if IsWord(r) && (a + b - r) % 0x1_0000_0000 == 0 {
      SameRemainder(n, m);
    }
  }

  lemma SameRemainder(n: int, m: int)
    requires (n - m) % 0x1_0000_0000 == 0 && 0 <= m < 0x1_0000_0000
    ensures n % 0x1_0000_0000 == m
  {
    var q := (n - m) / 0x1_0000_0000;
    assert n == q * 0x1_0000_0000 + m;
  }

  // Bit k, of a negative number in two's complement.
  function Bit(n: int, k: nat): int
    decreases k
  {
    if k == 0 then n % 2 else Bit(n / 2, k - 1)
  }

  lemma {:induction false} BitOr(a: int, b: int, n: nat, k: nat)
    requires k < n
    ensures Bit(OrBits(a, b, n), k) == if Bit(a, k) == 1 || Bit(b, k) == 1 then 1 else 0
    decreases k
  {
    var low, high := if a % 2 == 1 || b % 2 == 1 then 1 else 0, OrBits(a / 2, b / 2, n - 1);
    assert OrBits(a, b, n) == low + 2 * high;
    assert (low + 2 * high) % 2 == low && (low + 2 * high) / 2 == high;
    if k > 0 {
      BitOr(a / 2, b / 2, n - 1, k - 1);
    }
  }

  lemma {:induction false} BitFlipped(n: int, k: nat)
    ensures Bit(-1 - n, k) == 1 - Bit(n, k)
    decreases k
  {
    if k > 0 {
      BitFlipped(n / 2, k - 1);
      assert (-1 - n) / 2 == -1 - n / 2;
    }
  }

  function Power(k: nat): nat {
    if k == 0 then 1 else 2 * Power(k - 1)
  }

  lemma {:induction false} PowerSum(j: nat, k: nat)
    ensures Power(j + k) == Power(j) * Power(k)
  {
    if j > 0 {
      PowerSum(j - 1, k);
      assert 2 * (Power(j - 1) * Power(k)) == 2 * Power(j - 1) * Power(k);
    }
  }

  lemma Power32()
    ensures Power(32) == 0x1_0000_0000
  {
    assert Power(4) == 16;
    PowerSum(4, 4);
    PowerSum(8, 8);
    PowerSum(16, 16);
  }

  // Bits above the k-th do not matter.
  lemma {:induction false} BitBelow(n: int, j: nat, k: nat)
    requires k < j
    ensures Bit(n - Power(j), k) == Bit(n, k)
    decreases k
  {
    var h: int := Power(j - 1);
    assert (n - 2 * h) % 2 == n % 2 && (n - 2 * h) / 2 == n / 2 - h;
    if k > 0 {
      BitBelow(n / 2, j - 1, k - 1);
    }
  }

  lemma {:induction false} OrInRange(a: int, b: int, n: nat)
    ensures OrBits(a, b, n) < Power(n)
    decreases n
  {
    if n > 0 {
      OrInRange(a / 2, b / 2, n - 1);
    }
  }

  // Bit by bit, in 32 bits: one where neither has one.
  predicate IsNor(a: int, b: int, r: int) {
    IsWord(r) && forall k: nat :: k < 32 ==> (Bit(r, k) == 1 <==> Bit(a, k) == 0 && Bit(b, k) == 0)
  }

  lemma NorExactly(a: int, b: int)
    ensures IsNor(a, b, Nor(a, b))
  {
    forall k: nat | k < 32
      ensures IsWord(Nor(a, b)) && (Bit(Nor(a, b), k) == 1 <==> Bit(a, k) == 0 && Bit(b, k) == 0)
    {
      NorBit(a, b, k);
    }
    assert IsWord(Nor(a, b)) by {
      NorBit(a, b, 0);
    }
  }

  lemma ToWordIs(n: int)
    requires 0 <= n < 0x1_0000_0000
    ensures ToWord(n) == if n < 0x8000_0000 then n else n - 0x1_0000_0000
  {
  }

  lemma NorBit(a: int, b: int, k: nat)
    requires k < 32
    ensures IsWord(Nor(a, b)) && (Bit(Nor(a, b), k) == 1 <==> Bit(a, k) == 0 && Bit(b, k) == 0)
  {
    var n := OrBits(a, b, 32);
    Power32();
    OrInRange(a, b, 32);
    BitOr(a, b, 32, k);
    BitBelow(n, 32, k);
    ToWordIs(n);
    BitFlipped(ToWord(n), k);
    BitRange(a, k);
    BitRange(b, k);
  }

  lemma {:induction false} BitRange(n: int, k: nat)
    ensures Bit(n, k) == 0 || Bit(n, k) == 1
    decreases k
  {
    if k > 0 {
      BitRange(n / 2, k - 1);
    }
  }

  // ---------- instructions ----------

  // A branch with the address it goes to.
  datatype Instr =
    | AddI(a: nat, b: nat, d: nat)
    | NorI(a: nat, b: nat, d: nat)
    | Lw(a: nat, b: nat, offset: int)
    | Sw(a: nat, b: nat, offset: int)
    | Beq(a: nat, b: nat, target: int)
    | Jalr(a: nat, b: nat)
    | Halt
    | Noop

  predicate InRange(i: Instr) {
    match i
    case AddI(a, b, d) => a < NUMREGS && b < NUMREGS && d < NUMREGS
    case NorI(a, b, d) => a < NUMREGS && b < NUMREGS && d < NUMREGS
    case Lw(a, b, _) => a < NUMREGS && b < NUMREGS
    case Sw(a, b, _) => a < NUMREGS && b < NUMREGS
    case Beq(a, b, _) => a < NUMREGS && b < NUMREGS
    case Jalr(a, b) => a < NUMREGS && b < NUMREGS
    case _ => true
  }

  // The instruction in word w at address pc.
  function Decode(w: int, pc: int): (i: Instr)
    ensures InRange(i)
  {
    match Opcode(w)
    case 0 => AddI(RegA(w), RegB(w), Dest(w))
    case 1 => NorI(RegA(w), RegB(w), Dest(w))
    case 2 => Lw(RegA(w), RegB(w), Offset(w))
    case 3 => Sw(RegA(w), RegB(w), Offset(w))
    case 4 => Beq(RegA(w), RegB(w), pc + 1 + Offset(w))
    case 5 => Jalr(RegA(w), RegB(w))
    case 6 => Halt
    case _ => Noop
  }

  lemma DecodesAlu(w: int, op: nat, a: nat, b: nat, d: nat, pc: int)
    requires op < 2 && Opcode(w) == op && RegA(w) == a && RegB(w) == b && Dest(w) == d
    ensures Decode(w, pc) == if op == 0 then AddI(a, b, d) else NorI(a, b, d)
  {
  }

  // What the assembler packs, the simulator reads.
  lemma DecodesRegisters(op: nat, a: nat, b: nat, d: nat, pc: int)
    requires op < 2 && a < 8 && b < 8 && d < 8
    ensures Decode(Pack(op, a, b, d), pc) == if op == 0 then AddI(a, b, d) else NorI(a, b, d)
  {
    Unpack(op, a, b, d);
    Lowest3(0, d);
    DecodesAlu(Pack(op, a, b, d), op, a, b, d, pc);
  }

  lemma DecodesOffset(op: nat, a: nat, b: nat, offset: int, pc: int)
    requires 2 <= op <= 4 && a < 8 && b < 8 && -0x8000 <= offset <= 0x7fff
    ensures Decode(Pack(op, a, b, offset % 0x1_0000), pc)
            == if op == 2 then Lw(a, b, offset) else if op == 3 then Sw(a, b, offset) else Beq(a, b, pc + 1 + offset)
  {
    Unpack(op, a, b, offset % 0x1_0000);
    OffsetBack(op, a, b, offset);
  }

  lemma DecodesRest(op: nat, a: nat, b: nat, pc: int)
    requires 5 <= op <= 7 && a < 8 && b < 8
    ensures Decode(Pack(op, a, b, 0), pc) == if op == 5 then Jalr(a, b) else if op == 6 then Halt else Noop
  {
    Unpack(op, a, b, 0);
  }

  datatype Cpu = Cpu(pc: int, reg: seq<int>, mem: seq<int>)

  // Outside is an access next to memory, where C leaves open what happens.
  datatype Outcome = Runs(cpu: Cpu) | Halts(cpu: Cpu) | NegativeBranch | Outside

  predicate Complete(c: Cpu) {
    |c.reg| == NUMREGS && |c.mem| == NUMMEMORY
  }

  function Jump(c: Cpu, target: int): Outcome {
    if target < 0 then NegativeBranch else Runs(c.(pc := target))
  }

  function Exec(i: Instr, c: Cpu): (o: Outcome)
    requires InRange(i) && Complete(c)
    ensures o.Runs? || o.Halts? ==> Complete(o.cpu)
  {
    var next := c.(pc := c.pc + 1);
    match i
    case AddI(a, b, d) => Runs(next.(reg := c.reg[d := Add(c.reg[a], c.reg[b])]))
    case NorI(a, b, d) => Runs(next.(reg := c.reg[d := Nor(c.reg[a], c.reg[b])]))
    case Lw(a, b, offset) =>
      var at := c.reg[a] + offset;
      if 0 <= at < NUMMEMORY then Runs(next.(reg := c.reg[b := c.mem[at]])) else Outside
    case Sw(a, b, offset) =>
      var at := c.reg[a] + offset;
      if 0 <= at < NUMMEMORY then Runs(next.(mem := c.mem[at := c.reg[b]])) else Outside
    case Beq(a, b, target) => Jump(next, if c.reg[a] == c.reg[b] then target else c.pc + 1)
    case Jalr(a, b) =>
      var linked := next.(reg := c.reg[b := c.pc + 1]);
      Jump(linked, linked.reg[a])
    case Halt => Halts(next)
    case Noop => Runs(next)
  }

  // Where an instruction stores, and nothing else has changed.
  predicate Stores(c: Cpu, d: Cpu, r: int, at: int)
    requires Complete(c) && Complete(d)
  {
    && (forall k :: 0 <= k < NUMREGS && k != r ==> d.reg[k] == c.reg[k])
    && (forall k :: 0 <= k < NUMMEMORY && k != at ==> d.mem[k] == c.mem[k])
  }

  predicate GoesOn(c: Cpu, o: Outcome, r: int, at: int)
    requires Complete(c) && (o.Runs? ==> Complete(o.cpu))
  {
    o.Runs? && o.cpu.pc == c.pc + 1 && Stores(c, o.cpu, r, at)
  }

  // What each instruction does, without the function that does it.
  predicate Effect(i: Instr, c: Cpu, o: Outcome)
    requires InRange(i) && Complete(c) && (o.Runs? || o.Halts? ==> Complete(o.cpu))
  {
    match i
    case AddI(a, b, d) => GoesOn(c, o, d, -1) && IsWord(o.cpu.reg[d]) && (c.reg[a] + c.reg[b] - o.cpu.reg[d]) % 0x1_0000_0000 == 0
    case NorI(a, b, d) => GoesOn(c, o, d, -1) && IsNor(c.reg[a], c.reg[b], o.cpu.reg[d])
    case Lw(a, b, offset) =>
      var at := c.reg[a] + offset;
      if at < 0 || at >= 65536 then o == Outside else GoesOn(c, o, b, -1) && o.cpu.reg[b] == c.mem[at]
    case Sw(a, b, offset) =>
      var at := c.reg[a] + offset;
      if at < 0 || at >= 65536 then o == Outside else GoesOn(c, o, -1, at) && o.cpu.mem[at] == c.reg[b]
    case Beq(a, b, target) =>
      var next := if c.reg[a] == c.reg[b] then target else c.pc + 1;
      if next < 0 then o == NegativeBranch else o == Runs(Cpu(next, c.reg, c.mem))
    // If both are one register, the jump goes to the next instruction.
    case Jalr(a, b) =>
      var target := if a == b then c.pc + 1 else c.reg[a];
      if target < 0 then o == NegativeBranch
      else o.Runs? && o.cpu.pc == target && Stores(c, o.cpu, b, -1) && o.cpu.reg[b] == c.pc + 1
    case Halt => o == Halts(Cpu(c.pc + 1, c.reg, c.mem))
    case Noop => o == Runs(Cpu(c.pc + 1, c.reg, c.mem))
  }

  lemma ExecExactly(i: Instr, c: Cpu)
    requires InRange(i) && Complete(c)
    ensures Effect(i, c, Exec(i, c))
  {
    if i.AddI? {
      AddExactly(c.reg[i.a], c.reg[i.b], Add(c.reg[i.a], c.reg[i.b]));
    } else if i.NorI? {
      NorExactly(c.reg[i.a], c.reg[i.b]);
    }
  }

  function Step(c: Cpu): (o: Outcome)
    requires Complete(c)
    ensures o.Runs? || o.Halts? ==> Complete(o.cpu)
  {
    if 0 <= c.pc < NUMMEMORY then Exec(Decode(c.mem[c.pc], c.pc), c) else Outside
  }

  // What the program prints at the end: the simulator gives up after 200 instructions.
  datatype Final = Halted(cpu: Cpu, count: nat) | Failed(outcome: Outcome) | InfiniteLoop

  function Run(c: Cpu, count: nat): (f: Final)
    requires Complete(c) && count <= 200
    decreases 200 - count
  {
    if count == 200 then (if 0 <= c.pc < NUMMEMORY then InfiniteLoop else Failed(Outside))
    else match Step(c)
         case Runs(d) => Run(d, count + 1)
         case Halts(d) => Halted(d, count + 1)
         case o => Failed(o)
  }

  // k instructions have been done, none of them the last.
  predicate Lasts(c: Cpu, k: nat, d: Cpu)
    requires Complete(c)
    decreases k
  {
    if k == 0 then d == c else Step(c).Runs? && Lasts(Step(c).cpu, k - 1, d)
  }

  // How a run ends: at the halt, if that is one of the first 200 instructions; at the 201st otherwise.
  lemma {:induction false} RunExactly(c: Cpu, count: nat, k: nat, d: Cpu)
    requires Complete(c) && count + k <= 200 && Lasts(c, k, d)
    ensures Complete(d) && Run(c, count) == Run(d, count + k)
    ensures count + k == 200 ==> Run(c, count) == if 0 <= d.pc < 65536 then InfiniteLoop else Failed(Outside)
    ensures count + k < 200 && Step(d).Halts? ==> Run(c, count) == Halted(Step(d).cpu, count + k + 1)
    ensures count + k < 200 && !Step(d).Halts? && !Step(d).Runs? ==> Run(c, count) == Failed(Step(d))
    decreases k
  {
    if k > 0 {
      RunExactly(Step(c).cpu, count + 1, k - 1, d);
    }
  }

  // ---------- the simulator ----------

  class Simulator {
    var pc: int
    const reg: array<int>
    const mem: array<int>

    ghost predicate Valid()
      reads this
    {
      reg.Length == NUMREGS && mem.Length == NUMMEMORY
    }

    ghost function State(): Cpu
      reads this, reg, mem
    {
      Cpu(pc, reg[..], mem[..])
    }

    // The words of the file from address 0 on.  What is in the rest of memory is not known, nor
    // is pc, which nobody sets.
    constructor (words: seq<int>, rest: seq<int>, start: int)
      requires |words| + |rest| == NUMMEMORY
      ensures Valid() && fresh(reg) && fresh(mem) && Complete(State()) && pc == start && reg[..] == Zeros(NUMREGS) && mem[..] == words + rest
    {
      var zeros, all := Zeros(NUMREGS), words + rest;
      reg := new int[NUMREGS](i requires 0 <= i < NUMREGS => zeros[i]);
      mem := new int[NUMMEMORY](i requires 0 <= i < NUMMEMORY => all[i]);
      pc := start;
    }

    method Simulate() returns (f: Final)
      requires Valid()
      modifies this, reg, mem
      ensures f == Run(old(State()), 0)
    {
      var count := 0;
      while true
        invariant Valid() && 0 <= count <= 200 && Run(State(), count) == Run(old(State()), 0)
        decreases 200 - count
      {
        if pc < 0 || pc >= NUMMEMORY {
          return Failed(Outside);
        }
        ghost var c := State();
        var inst := mem[pc];
        count := count + 1;
        if count > 200 {
          return InfiniteLoop;
        }
        var o := Execute(inst);
        if o == 1 {
          return Halted(Cpu(pc, reg[..], mem[..]), count);
        } else if o == 2 {
          return Failed(NegativeBranch);
        } else if o == 3 {
          return Failed(Outside);
        }
      }
    }

    // One instruction; the result says go on, halt, negative branch, or outside.
    method Execute(inst: int) returns (o: nat)
      requires Valid() && 0 <= pc < NUMMEMORY && inst == mem[pc]
      modifies this, reg, mem
      ensures Valid()
      ensures match Step(old(State()))
              case Runs(d) => o == 0 && State() == d
              case Halts(d) => o == 1 && State() == d
              case NegativeBranch => o == 2
              case Outside => o == 3
    {
      ghost var c := State();
      o := 0;
      pc := pc + 1;
      var opcode, reg1, reg2 := Opcode(inst), RegA(inst), RegB(inst);
      if opcode == 0 || opcode == 1 {
        var dest := Dest(inst);
        if opcode == 0 {
          reg[dest] := Add(reg[reg1], reg[reg2]);
        } else {
          reg[dest] := Nor(reg[reg1], reg[reg2]);
        }
      } else if opcode == 2 || opcode == 3 || opcode == 4 {
        var offset := Offset(inst);
        var at := reg[reg1] + offset;
        if opcode == 4 {
          if reg[reg1] == reg[reg2] {
            pc := pc + offset;
          }
          if pc < 0 {
            o := 2;
          }
        } else if at < 0 || at >= NUMMEMORY {
          o := 3;
        } else if opcode == 2 {
          reg[reg2] := mem[at];
        } else {
          mem[at] := reg[reg2];
        }
      } else if opcode == 5 {
        reg[reg2] := pc;
        pc := reg[reg1];
        if pc < 0 {
          o := 2;
        }
      } else if opcode == 6 {
        o := 1;
      }
    }
  }

  function Zeros(n: nat): (s: seq<int>)
    ensures |s| == n && forall i :: 0 <= i < n ==> s[i] == 0
  {
    if n == 0 then [] else Zeros(n - 1) + [0]
  }
}
