/** The processor as a device that updates its registers and memory in place, running the two programs. */
module Processor {
  import opened Words
  import opened X86
  import BubbleSort
  import BinaryPrinter

  class Chip {
    const program: Program
    var pc: nat
    var eax: word
    var ebx: word
    var ecx: word
    var edx: word
    var flags: Flags
    var faulted: bool
    var mem: Memory

    constructor (program: Program, s: X86State)
      ensures this.program == program && View() == s
    {
      this.program := program;
      pc, eax, ebx, ecx, edx, flags, faulted, mem := s.pc, s.eax, s.ebx, s.ecx, s.edx, s.flags, s.faulted, s.mem;
    }

    function View(): X86State
      reads this
    {
      X86State(pc, eax, ebx, ecx, edx, flags, faulted, mem)
    }

    function Read(r: Reg): word
      reads this
    {
      match r case EAX => eax case EBX => ebx case ECX => ecx case EDX => edx
    }

    method Write(r: Reg, v: word)
      modifies this`eax, this`ebx, this`ecx, this`edx
      ensures View() == Set(old(View()), r, v)
    {
      match r
      case EAX => eax := v;
      case EBX => ebx := v;
      case ECX => ecx := v;
      case EDX => edx := v;
    }

    function At(p: Place): int
      reads this
    {
      (p.base + Read(p.index) * p.scale) % MODULUS
    }

    method LoadInto(r: Reg, from: Place)
      modifies this
      ensures View() == Applied(MovLoad(r, from), old(View()))
    {
      var a := At(from);
      if Mapped(mem, a, 4) {
        Write(r, LoadWord(mem, a));
        pc := pc + 1;
      } else {
        faulted := true;
      }
    }

    method StoreTo(to: Place, r: Reg)
      modifies this
      ensures View() == Applied(MovStore(to, r), old(View()))
    {
      var a := At(to);
      if Mapped(mem, a, 4) {
        mem, pc := StoreWord(mem, a, Read(r)), pc + 1;
      } else {
        faulted := true;
      }
    }

    method StoreByte(to: Place, b: byte)
      modifies this
      ensures View() == Applied(MovByte(to, b), old(View()))
    {
      var a := At(to);
      if a in mem {
        mem, pc := mem[a := b], pc + 1;
      } else {
        faulted := true;
      }
    }

    method Exchange(r: Reg, s: Reg)
      modifies this
      ensures View() == Applied(Xchg(r, s), old(View()))
    {
      var x, y := Read(r), Read(s);
      Write(r, y);
      Write(s, x);
      pc := pc + 1;
    }

    method Shift(h: Half)
      modifies this
      ensures View() == Applied(Shl1(h), old(View()))
    {
      var b := GetHalf(View(), h);
      var v := ShlByte(b);
      eax := SetHalf(View(), h, v).eax;
      flags, pc := ShlFlags(b, v), pc + 1;
    }

    method Increment(r: Reg)
      modifies this
      ensures View() == Applied(Inc(r), old(View()))
    {
      var v := (Read(r) + 1) % MODULUS;
      Write(r, v);
      flags, pc := IncFlags(flags, v), pc + 1;
    }

    method Perform(i: Instr)
      modifies this
      ensures View() == Applied(i, old(View()))
    {
      match i
      case MovImm(r, imm) =>
        Write(r, imm);
        pc := pc + 1;
      case MovLoad(r, from) => LoadInto(r, from);
      case MovStore(to, r) => StoreTo(to, r);
      case MovByte(to, b) => StoreByte(to, b);
      case Xchg(r, s) => Exchange(r, s);
      case CmpImm(r, imm) => flags, pc := CmpFlags(Read(r), imm), pc + 1;
      case Cmp(r, s) => flags, pc := CmpFlags(Read(r), Read(s)), pc + 1;
      case Inc(r) => Increment(r);
      case Shl1(h) => Shift(h);
      case Jmp(target) => pc := target;
      case Jcc(c, target) => pc := if Taken(c, flags) then target else pc + 1;
    }

    /** Fetches instructions and carries them out until the program leaves its last line or faults. */
    method Execute(ghost n: nat)
      requires var t := Steps(Executing(program), View(), n); Halted(program, t) || t.faulted
      modifies this
      ensures View() == Steps(Executing(program), old(View()), n)
    {
      ghost var f, left := Executing(program), n;
      while pc < |program| && !faulted
        invariant Steps(f, View(), left) == Steps(f, old(View()), n)
        decreases left
      {
        ghost var s := View();
        Perform(program[pc]);
        assert View() == f(s);
        left := left - 1;
      }
      StaysHalted(program, View(), left);
    }
  }

  lemma {:induction false} StaysHalted(p: Program, s: X86State, n: nat)
    requires Halted(p, s) || s.faulted
    ensures Steps(Executing(p), s, n) == s
    decreases n
  {
    if n > 0 {
      StaysHalted(p, s, n - 1);
    }
  }

  /** Bubble sort in the processor's own memory. */
  method Sort(cpu: Chip, m: word, ghost a: seq<word>) returns (ghost b: seq<word>)
    requires cpu.program == BubbleSort.Program(m) && BubbleSort.Fits(m, a)
    requires cpu.pc == 0 && !cpu.faulted && BubbleSort.Holds(cpu.mem, a)
    modifies cpu
    ensures cpu.pc == BubbleSort.EXIT && !cpu.faulted
    ensures BubbleSort.Holds(cpu.mem, b) && BubbleSort.Sorted(b) && multiset(b) == multiset(a)
    ensures BubbleSort.SameBeyond(old(cpu.mem), cpu.mem, |a|)
  {
    ghost var n;
    n, b := BubbleSort.SortsAnyWords(m, cpu.View(), a);
    cpu.Execute(n);
  }

  /** The binary digits of AX, written to the processor's own memory. */
  method Print(cpu: Chip) returns (ghost d: seq<byte>)
    requires cpu.program == BinaryPrinter.PROGRAM && cpu.pc == 0 && !cpu.faulted
    requires Mapped(cpu.mem, BinaryPrinter.BASE, BinaryPrinter.DIGITS)
    modifies cpu
    ensures cpu.pc == BinaryPrinter.EXIT && !cpu.faulted && cpu.eax == old(cpu.eax - cpu.eax % 65536)
    ensures |d| == BinaryPrinter.DIGITS && BinaryPrinter.IsDigits(d) && BinaryPrinter.Value(d) == old(cpu.eax % 65536)
    ensures BinaryPrinter.Written(old(cpu.mem), cpu.mem, d)
  {
    ghost var n;
    n, d := BinaryPrinter.PrintsAx(cpu.View());
    cpu.Execute(n);
  }
}
