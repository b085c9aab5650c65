/** A processor for the instructions the two assembly programs use, with their flags and unstructured jumps. */
module X86 {
  import opened Words

  const MODULUS: int := 0x1_0000_0000
  const SIGN: int := 0x8000_0000
  type word = x: int | 0 <= x < MODULUS

  datatype Reg = EAX | EBX | ECX | EDX
  datatype Half = AH | AL
  datatype Flags = Flags(cf: bool, zf: bool, sf: bool, of: bool)

  /** `jge` (signed order), `jae` (unsigned order), `jc` (carry). */
  datatype Cond = GE | AE | C

  /** `[base + index * scale]` */
  datatype Place = Place(base: nat, index: Reg, scale: nat)

  datatype Instr =
    | MovImm(r: Reg, imm: word)
    | MovLoad(r: Reg, from: Place)
    | MovStore(to: Place, r: Reg)
    | MovByte(to: Place, b: byte)
    | Xchg(r: Reg, s: Reg)
    | CmpImm(r: Reg, imm: word)
    | Cmp(r: Reg, s: Reg)
    | Inc(r: Reg)
    | Shl1(h: Half)
    | Jmp(target: nat)
    | Jcc(c: Cond, target: nat)

  type Program = seq<Instr>

  datatype X86State = X86State(
    pc: nat,
    eax: word,
    ebx: word,
    ecx: word,
    edx: word,
    flags: Flags,
    faulted: bool,
    mem: Memory)

  function Get(s: X86State, r: Reg): word {
    match r case EAX => s.eax case EBX => s.ebx case ECX => s.ecx case EDX => s.edx
  }

  function Set(s: X86State, r: Reg, v: word): X86State {
    match r
    case EAX => s.(eax := v)
    case EBX => s.(ebx := v)
    case ECX => s.(ecx := v)
    case EDX => s.(edx := v)
  }

  function GetHalf(s: X86State, h: Half): byte {
    if h == AH then (s.eax / 256) % 256 else s.eax % 256
  }

  function SetHalf(s: X86State, h: Half, v: byte): X86State {
    if h == AH then s.(eax := 65536 * (s.eax / 65536) + 256 * v + s.eax % 256)
    else s.(eax := 256 * (s.eax / 256) + v)
  }

  function ShlByte(b: byte): (r: byte)
    ensures r == if b >= 128 then 2 * b - 256 else 2 * b
  {
    (2 * b) % 256
  }

  lemma Whole(e: nat)
    ensures e == 65536 * (e / 65536) + 256 * ((e / 256) % 256) + e % 256
  {
    assert e / 65536 == (e / 256) / 256;
  }

  /** The parts of a register that is put together from its upper half, AH and AL. */
  lemma Parts(e: int, hi: nat, ah: byte, al: byte)
    requires e == 65536 * hi + 256 * ah + al
    ensures e / 65536 == hi && (e / 256) % 256 == ah && e % 256 == al && e % 65536 == 256 * ah + al
  {
    assert e / 256 == 256 * hi + ah;
  }

  lemma HalvesAfterSet(s: X86State, h: Half, v: byte)
    ensures var t := SetHalf(s, h, v);
            && GetHalf(t, h) == v
            && (h == AH ==> GetHalf(t, AL) == GetHalf(s, AL))
            && (h == AL ==> GetHalf(t, AH) == GetHalf(s, AH))
            && t.eax / 65536 == s.eax / 65536
  {
    var hi, ah, al := s.eax / 65536, GetHalf(s, AH), GetHalf(s, AL);
    if h == AH {
      Parts(SetHalf(s, h, v).eax, hi, v, al);
    } else {
      Whole(s.eax);
      Parts(SetHalf(s, h, v).eax, hi, ah, v);
    }
  }

  function Signed(x: word): int {
    if x < SIGN then x else x - MODULUS
  }

  /** The flags of the subtraction `a - b`. */
  function CmpFlags(a: word, b: word): Flags {
    var r := (a - b) % MODULUS;
    Flags(a < b, r == 0, r >= SIGN, !(-SIGN <= Signed(a) - Signed(b) < SIGN))
  }

  function IncFlags(f: Flags, r: word): Flags {
    Flags(f.cf, r == 0, r >= SIGN, r == SIGN)
  }

  function ShlFlags(b: byte, r: byte): Flags {
    Flags(b >= 128, r == 0, r >= 128, (r >= 128) != (b >= 128))
  }

  predicate Taken(c: Cond, f: Flags) {
    match c case GE => f.sf == f.of case AE => !f.cf case C => f.cf
  }

  /** After `cmp`, `jge` is taken in signed order and `jae` in unsigned order; zero means equal. */
  lemma CmpDecides(a: word, b: word)
    ensures Taken(GE, CmpFlags(a, b)) <==> Signed(a) >= Signed(b)
    ensures Taken(AE, CmpFlags(a, b)) <==> a >= b
    ensures CmpFlags(a, b).zf <==> a == b
  {
    var d := Signed(a) - Signed(b);
    assert (a - b) % MODULUS == d % MODULUS;
    if d >= SIGN {
    } else if d < -SIGN {
      assert d % MODULUS == d + MODULUS;
    } else if d < 0 {
      assert d % MODULUS == d + MODULUS;
    }
  }

  function Resolve(s: X86State, p: Place): int {
    (p.base + Get(s, p.index) * p.scale) % MODULUS
  }

  predicate Mapped(m: Memory, a: int, n: nat) {
    forall x :: a <= x < a + n ==> x in m
  }

  function LoadWord(m: Memory, a: int): word
    requires Mapped(m, a, 4)
  {
    LoadBound(m, a, 4);
    assert Capacity(4) == MODULUS;
    Load(m, a, 4)
  }

  function StoreWord(m: Memory, a: int, w: word): Memory {
    Store(m, a, w, 4)
  }

  predicate Halted(p: Program, s: X86State) {
    s.pc >= |p|
  }

  /** What an instruction does; an access to unmapped memory faults. */
  function Applied(i: Instr, s: X86State): X86State {
    var next := s.(pc := s.pc + 1);
    match i
    case MovImm(r, imm) => Set(next, r, imm)
    case MovLoad(r, from) =>
      var a := Resolve(s, from);
      if Mapped(s.mem, a, 4) then Set(next, r, LoadWord(s.mem, a)) else s.(faulted := true)
    case MovStore(to, r) =>
      var a := Resolve(s, to);
      if Mapped(s.mem, a, 4) then next.(mem := StoreWord(s.mem, a, Get(s, r))) else s.(faulted := true)
    case MovByte(to, b) =>
      var a := Resolve(s, to);
      if a in s.mem then next.(mem := s.mem[a := b]) else s.(faulted := true)
    case Xchg(r, q) => Set(Set(next, r, Get(s, q)), q, Get(s, r))
    case CmpImm(r, imm) => next.(flags := CmpFlags(Get(s, r), imm))
    case Cmp(r, q) => next.(flags := CmpFlags(Get(s, r), Get(s, q)))
    case Inc(r) =>
      var v := (Get(s, r) + 1) % MODULUS;
      Set(next, r, v).(flags := IncFlags(s.flags, v))
    case Shl1(h) =>
      var b := GetHalf(s, h);
      var v := ShlByte(b);
      SetHalf(next, h, v).(flags := ShlFlags(b, v))
    case Jmp(target) => s.(pc := target)
    case Jcc(c, target) => if Taken(c, s.flags) then s.(pc := target) else next
  }

  /** `inc` counts up without touching the carry; overflow means that the signed value did not go up by one. */
  lemma IncSays(s: X86State, r: Reg)
    ensures var t, x := Applied(Inc(r), s), Get(s, r);
            && Get(t, r) == (if x + 1 == MODULUS then 0 else x + 1)
            && (forall q :: q != r ==> Get(t, q) == Get(s, q)) && t.mem == s.mem && t.pc == s.pc + 1
            && t.flags.cf == s.flags.cf && (t.flags.zf <==> Get(t, r) == 0)
            && (t.flags.sf <==> Signed(Get(t, r)) < 0) && (t.flags.of <==> Signed(Get(t, r)) != Signed(x) + 1)
  {
  }

  /** `shl` by one doubles a half register, and the carry is the bit that falls out. */
  lemma ShlSays(s: X86State, h: Half)
    ensures var t, b := Applied(Shl1(h), s), GetHalf(s, h);
            && 256 * (if t.flags.cf then 1 else 0) + GetHalf(t, h) == 2 * b
            && (t.flags.zf <==> GetHalf(t, h) == 0) && (t.flags.sf <==> GetHalf(t, h) >= 128)
            && (t.flags.of <==> t.flags.cf != t.flags.sf)
            && t.eax / 65536 == s.eax / 65536 && t.mem == s.mem && t.pc == s.pc + 1
  {
    HalvesAfterSet(s.(pc := s.pc + 1), h, ShlByte(GetHalf(s, h)));
  }

  /** Fetch and execute; nothing happens after a halt or a fault. */
  function Step(p: Program, s: X86State): X86State {
    if Halted(p, s) || s.faulted then s else Applied(p[s.pc], s)
  }

  // ------------------------------------------------------------------ runs

  type Stepper = X86State -> X86State

  function Executing(p: Program): Stepper {
    s => Step(p, s)
  }

  function Steps(f: Stepper, s: X86State, n: nat): X86State
    decreases n
  {
    if n == 0 then s else Steps(f, f(s), n - 1)
  }

  /** How often the instruction at `at` is executed in the first `n` steps. */
  function Visits(f: Stepper, s: X86State, at: nat, n: nat): nat
    decreases n
  {
    if n == 0 then 0 else (if s.pc == at then 1 else 0) + Visits(f, f(s), at, n - 1)
  }

  /** Marks the states at which the machine is asked what it does next. */
  predicate Now(s: X86State) {
    true
  }

  /** The machine executes the program. */
  ghost predicate Executes(f: Stepper, p: Program) {
    forall s: X86State {:trigger Now(s)} :: Now(s) ==> f(s) == Step(p, s)
  }

  lemma Does(f: Stepper, p: Program, s: X86State, i: Instr)
    requires Executes(f, p) && s.pc < |p| && p[s.pc] == i && !s.faulted
    ensures f(s) == Applied(i, s)
  {
    assert Now(s);
  }

  /** `n` steps lead from `s` to `t`, executing the instruction at `at` exactly `k` times. */
  predicate Leads(f: Stepper, s: X86State, t: X86State, at: nat, n: nat, k: nat) {
    Steps(f, s, n) == t && Visits(f, s, at, n) == k
  }

  lemma {:induction false} LeadsTrans(f: Stepper, s: X86State, t: X86State, u: X86State, at: nat,
                                      n: nat, k: nat, n': nat, k': nat)
    requires Leads(f, s, t, at, n, k) && Leads(f, t, u, at, n', k')
    ensures Leads(f, s, u, at, n + n', k + k')
    decreases n
  {
    if n > 0 {
      LeadsTrans(f, f(s), t, u, at, n - 1, if s.pc == at then k - 1 else k, n', k');
    }
  }

  lemma LeadsStep(f: Stepper, s: X86State, at: nat)
    ensures Leads(f, s, f(s), at, 1, if s.pc == at then 1 else 0)
  {
    assert Steps(f, f(s), 0) == f(s);
    assert Visits(f, f(s), at, 0) == 0;
  }

  /** Appending one step to a run. */
  lemma LeadsThen(f: Stepper, s: X86State, t: X86State, at: nat, n: nat, k: nat)
    requires Leads(f, s, t, at, n, k)
    ensures Leads(f, s, f(t), at, n + 1, if t.pc == at then k + 1 else k)
  {
    LeadsStep(f, t, at);
    LeadsTrans(f, s, t, f(t), at, n, k, 1, if t.pc == at then 1 else 0);
  }
}
