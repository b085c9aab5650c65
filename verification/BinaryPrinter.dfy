/** Writes AX as sixteen ASCII binary digits, instruction by instruction. */
module BinaryPrinter {
  import opened Words
  import opened X86

  const BASE: int := 0x600000
  const DIGITS: nat := 16
  const HERE := Place(BASE, ECX, 1)
  const ZERO: byte := 0x30
  const ONE: byte := 0x31
  const EXIT := 21

  const PROGRAM: X86.Program :=
    [ MovImm(ECX, 0),      //  0
      CmpImm(ECX, 8),      //  1  handle_ah
      Jcc(GE, 6),          //  2
      Shl1(AH),            //  3
      Jcc(C, 11),          //  4
      Jmp(16),             //  5
      CmpImm(ECX, 16),     //  6  handle_al
      Jcc(GE, EXIT),       //  7
      Shl1(AL),            //  8
      Jcc(C, 11),          //  9
      Jmp(16),             // 10
      MovByte(HERE, ONE),  // 11  write_one
      Inc(ECX),            // 12
      CmpImm(ECX, 8),      // 13
      Jcc(GE, 6),          // 14
      Jmp(1),              // 15
      MovByte(HERE, ZERO), // 16  write_zero
      Inc(ECX),            // 17
      CmpImm(ECX, 8),      // 18
      Jcc(GE, 6),          // 19
      Jmp(1) ]             // 20

  // ------------------------------------------------------------------ the digits

  function Digit(carry: bool): byte {
    if carry then ONE else ZERO
  }

  ghost predicate IsDigits(d: seq<byte>) {
    forall i :: 0 <= i < |d| ==> d[i] == ZERO || d[i] == ONE
  }

  /** The number that ASCII binary digits denote, most significant first. */
  function Value(d: seq<byte>): nat {
    if d == [] then 0 else 2 * Value(d[..|d| - 1]) + (if d[|d| - 1] == ONE then 1 else 0)
  }

  function Pow2(n: nat): (p: nat)
    ensures p > 0
  {
    if n == 0 then 1 else 2 * Pow2(n - 1)
  }

  lemma ValueOfAppend(d: seq<byte>, carry: bool)
    ensures Value(d + [Digit(carry)]) == 2 * Value(d) + (if carry then 1 else 0)
  {
    assert (d + [Digit(carry)])[..|d|] == d;
  }

  predicate HasByte(m: Memory, a: int, b: byte) {
    a in m && m[a] == b
  }

  /** `k` is `m` with `d` written from `BASE` on. */
  ghost predicate Written(m: Memory, k: Memory, d: seq<byte>) {
    && k.Keys == m.Keys
    && (forall i :: 0 <= i < |d| ==> HasByte(k, BASE + i, d[i]))
    && (forall x :: x in m && !(BASE <= x < BASE + |d|) ==> x in k && k[x] == m[x])
  }

  lemma WrittenAppend(m: Memory, k: Memory, d: seq<byte>, b: byte)
    requires Written(m, k, d) && BASE + |d| in k
    ensures Written(m, k[BASE + |d| := b], d + [b])
  {
    var l, e := k[BASE + |d| := b], d + [b];
    assert l.Keys == k.Keys;
    forall i | 0 <= i < |e|
      ensures HasByte(l, BASE + i, e[i])
    {
      if i < |d| {
        assert e[i] == d[i] && HasByte(k, BASE + i, d[i]);
      }
    }
  }

  // ------------------------------------------------------------------ the two halves of EAX

  function HalfAt(i: nat): Half {
    if i < 8 then AH else AL
  }

  /**
   After `n` digits that stand for `v`: the number so far followed by what is left of the half being
   shifted is the part of AX met so far (`ah0`, then `al0` as well), shifted.
   */
  predicate Shifted(ah0: byte, al0: byte, ah: byte, al: byte, v: nat, n: nat) {
    if n < 8 then al == al0 && v * 256 + ah == ah0 * Pow2(n)
    else ah == 0 && v * 256 + al == (256 * ah0 + al0) * Pow2(n - 8)
  }

  ghost predicate Shifting(x: X86State, s: X86State, d: seq<byte>) {
    && s.eax / 65536 == x.eax / 65536
    && Shifted(GetHalf(x, AH), GetHalf(x, AL), GetHalf(s, AH), GetHalf(s, AL), Value(d), |d|)
  }

  /** Shifting one bit from a byte into a number. */
  lemma ShiftBit(v: nat, b: byte, a: nat, n: nat)
    requires v * 256 + b == a * Pow2(n)
    ensures (2 * v + (if b >= 128 then 1 else 0)) * 256 + ShlByte(b) == a * Pow2(n + 1)
  {
    DoubleProduct(a, Pow2(n));
  }

  /** Eight bits empty the byte. */
  lemma EightBits(v: nat, b: byte, a: nat)
    requires v * 256 + b == a * Pow2(8)
    ensures v == a && b == 0
  {
    assert Pow2(8) == 256;
  }

  lemma ShiftedOnce(ah0: byte, al0: byte, ah: byte, al: byte, v: nat, n: nat)
    requires Shifted(ah0, al0, ah, al, v, n)
    ensures n < 8 ==> Shifted(ah0, al0, ShlByte(ah), al, 2 * v + (if ah >= 128 then 1 else 0), n + 1)
    ensures n >= 8 ==> Shifted(ah0, al0, ah, ShlByte(al), 2 * v + (if al >= 128 then 1 else 0), n + 1)
  {
    if n < 8 {
      ShiftBit(v, ah, ah0, n);
      if n == 7 {
        EightBits(2 * v + (if ah >= 128 then 1 else 0), ShlByte(ah), ah0);
        assert Pow2(0) == 1;
      }
    } else {
      ShiftBit(v, al, 256 * ah0 + al0, n - 8);
    }
  }

  lemma ShiftedOut(ah0: byte, al0: byte, ah: byte, al: byte, v: nat)
    requires Shifted(ah0, al0, ah, al, v, DIGITS)
    ensures ah == 0 && al == 0 && v == 256 * ah0 + al0
  {
    var ax: nat := 256 * ah0 + al0;
    EightBits(v, al, ax);
  }

  lemma ShiftingAppend(x: X86State, s: X86State, t: X86State, d: seq<byte>)
    requires Shifting(x, s, d)
    requires var h := HalfAt(|d|); t.eax == SetHalf(s, h, ShlByte(GetHalf(s, h))).eax
    ensures Shifting(x, t, d + [Digit(GetHalf(s, HalfAt(|d|)) >= 128)])
  {
    var h := HalfAt(|d|);
    var b := GetHalf(s, h);
    ValueOfAppend(d, b >= 128);
    HalvesAfterSet(s, h, ShlByte(b));
    ShiftedOnce(GetHalf(x, AH), GetHalf(x, AL), GetHalf(s, AH), GetHalf(s, AL), Value(d), |d|);
  }

  lemma DoubleProduct(a: nat, b: nat)
    ensures 2 * (a * b) == a * (2 * b)
  {
  }

  // ------------------------------------------------------------------ what the instructions do

  /** About to test `ecx` and shift the half that holds digit `i`. */
  predicate AtTop(s: X86State, i: nat) {
    s.pc == (if i < 8 then 1 else 6) && s.ecx == i && !s.faulted
  }

  lemma ToShift(f: Stepper, s: X86State, i: nat) returns (t: X86State)
    requires Executes(f, PROGRAM) && AtTop(s, i) && i < DIGITS
    ensures Leads(f, s, t, EXIT, 2, 0)
    ensures t == s.(pc := if i < 8 then 3 else 8, flags := t.flags)
  {
    var bound: word := if i < 8 then 8 else 16;
    Does(f, PROGRAM, s, CmpImm(ECX, bound));
    var s1 := f(s);
    LeadsStep(f, s, EXIT);
    CmpDecides(i, bound);
    Does(f, PROGRAM, s1, Jcc(GE, if i < 8 then 6 else EXIT));
    t := f(s1);
    LeadsThen(f, s, s1, EXIT, 1, 0);
  }

  /** The branch to the writer for the bit in the carry flag. */
  lemma ToWriter(f: Stepper, s: X86State) returns (n: nat, t: X86State)
    requires Executes(f, PROGRAM) && (s.pc == 4 || s.pc == 9) && !s.faulted
    ensures Leads(f, s, t, EXIT, n, 0) && t == s.(pc := if s.flags.cf then 11 else 16)
  {
    var k := s.pc;
    assert PROGRAM[k] == Jcc(C, 11) && PROGRAM[k + 1] == Jmp(16);
    Does(f, PROGRAM, s, Jcc(C, 11));
    t := f(s);
    LeadsStep(f, s, EXIT);
    n := 1;
    if !s.flags.cf {
      Does(f, PROGRAM, t, Jmp(16));
      LeadsThen(f, s, t, EXIT, n, 0);
      n, t := n + 1, f(t);
    }
  }

  /** The shift, and the branch on the bit it shifts out. */
  lemma ShiftOut(f: Stepper, s: X86State, h: Half) returns (n: nat, t: X86State)
    requires Executes(f, PROGRAM) && s.pc == (if h == AH then 3 else 8) && !s.faulted
    ensures Leads(f, s, t, EXIT, n, 0)
    ensures var b := GetHalf(s, h);
            t == SetHalf(s, h, ShlByte(b)).(pc := if b >= 128 then 11 else 16, flags := t.flags)
  {
    Does(f, PROGRAM, s, Shl1(h));
    var s1 := f(s);
    LeadsStep(f, s, EXIT);
    n, t := ToWriter(f, s1);
    LeadsTrans(f, s, s1, t, EXIT, 1, 0, n, 0);
    n := n + 1;
  }

  /** Both writers end with the same four lines: count the digit, and go back to the half that comes next. */
  lemma CountDigit(f: Stepper, s: X86State, i: nat) returns (n: nat, t: X86State)
    requires Executes(f, PROGRAM) && (s.pc == 12 || s.pc == 17) && s.ecx == i && i < DIGITS && !s.faulted
    ensures Leads(f, s, t, EXIT, n, 0)
    ensures AtTop(t, i + 1) && t.eax == s.eax && t.mem == s.mem
  {
    var k := s.pc;
    assert PROGRAM[k] == Inc(ECX) && PROGRAM[k + 1] == CmpImm(ECX, 8);
    Does(f, PROGRAM, s, Inc(ECX));
    var s1 := f(s);
    LeadsStep(f, s, EXIT);
    Does(f, PROGRAM, s1, CmpImm(ECX, 8));
    var s2 := f(s1);
    LeadsThen(f, s, s1, EXIT, 1, 0);
    n, t := GoBack(f, s2, i + 1);
    LeadsTrans(f, s, s2, t, EXIT, 2, 0, n, 0);
    n := n + 2;
  }

  lemma GoBack(f: Stepper, s: X86State, i: nat) returns (n: nat, t: X86State)
    requires Executes(f, PROGRAM) && (s.pc == 14 || s.pc == 19) && s.ecx == i && i <= DIGITS && !s.faulted
    requires s.flags == CmpFlags(i, 8)
    ensures Leads(f, s, t, EXIT, n, 0)
    ensures AtTop(t, i) && t.eax == s.eax && t.mem == s.mem
  {
    var k := s.pc;
    assert PROGRAM[k] == Jcc(GE, 6) && PROGRAM[k + 1] == Jmp(1);
    CmpDecides(i, 8);
    Does(f, PROGRAM, s, Jcc(GE, 6));
    t := f(s);
    LeadsStep(f, s, EXIT);
    n := 1;
    if i < 8 {
      Does(f, PROGRAM, t, Jmp(1));
      LeadsThen(f, s, t, EXIT, 1, 0);
      n, t := 2, f(t);
    }
  }

  lemma WriteDigit(f: Stepper, s: X86State, i: nat, one: bool) returns (n: nat, t: X86State)
    requires Executes(f, PROGRAM) && s.pc == (if one then 11 else 16) && s.ecx == i && i < DIGITS && !s.faulted
    requires BASE + i in s.mem
    ensures Leads(f, s, t, EXIT, n, 0)
    ensures AtTop(t, i + 1) && t.eax == s.eax && t.mem == s.mem[BASE + i := Digit(one)]
  {
    Does(f, PROGRAM, s, MovByte(HERE, Digit(one)));
    var s1 := f(s);
    LeadsStep(f, s, EXIT);
    n, t := CountDigit(f, s1, i);
    LeadsTrans(f, s, s1, t, EXIT, 1, 0, n, 0);
    n := n + 1;
  }

  /** Where the program stands before digit `|d|`, having started from `x`. */
  ghost predicate Halfway(x: X86State, s: X86State, d: seq<byte>) {
    AtTop(s, |d|) && |d| <= DIGITS && IsDigits(d) && Shifting(x, s, d) && Written(x.mem, s.mem, d)
  }

  /** One digit's instructions: a bit is shifted out of its half, and the digit for it stored. */
  lemma DigitSteps(f: Stepper, s: X86State, i: nat) returns (n: nat, t: X86State)
    requires Executes(f, PROGRAM) && AtTop(s, i) && i < DIGITS && BASE + i in s.mem
    ensures Leads(f, s, t, EXIT, n, 0) && AtTop(t, i + 1)
    ensures t.eax == SetHalf(s, HalfAt(i), ShlByte(GetHalf(s, HalfAt(i)))).eax
    ensures t.mem == s.mem[BASE + i := Digit(GetHalf(s, HalfAt(i)) >= 128)]
  {
    var h := HalfAt(i);
    var s1 := ToShift(f, s, i);
    var n2, s2 := ShiftOut(f, s1, h);
    LeadsTrans(f, s, s1, s2, EXIT, 2, 0, n2, 0);
    var n3;
    n3, t := WriteDigit(f, s2, i, GetHalf(s, h) >= 128);
    LeadsTrans(f, s, s2, t, EXIT, 2 + n2, 0, n3, 0);
    n := 2 + n2 + n3;
  }

  lemma OneDigit(f: Stepper, x: X86State, s: X86State, d: seq<byte>) returns (n: nat, t: X86State, e: seq<byte>)
    requires Executes(f, PROGRAM) && Mapped(x.mem, BASE, DIGITS) && Halfway(x, s, d) && |d| < DIGITS
    ensures Leads(f, s, t, EXIT, n, 0) && Halfway(x, t, e) && |e| == |d| + 1
  {
    assert BASE + |d| in x.mem.Keys;
    n, t := DigitSteps(f, s, |d|);
    var digit := Digit(GetHalf(s, HalfAt(|d|)) >= 128);
    e := d + [digit];
    ShiftingAppend(x, s, t, d);
    WrittenAppend(x.mem, s.mem, d, digit);
  }

  lemma {:induction false} AllDigits(f: Stepper, x: X86State, s: X86State, d: seq<byte>)
    returns (n: nat, t: X86State, e: seq<byte>)
    requires Executes(f, PROGRAM) && Mapped(x.mem, BASE, DIGITS) && Halfway(x, s, d)
    ensures Leads(f, s, t, EXIT, n, 0) && Halfway(x, t, e) && |e| == DIGITS
    decreases DIGITS - |d|
  {
    if |d| == DIGITS {
      n, t, e := 0, s, d;
    } else {
      var n1, u, g := OneDigit(f, x, s, d);
      var n2;
      n2, t, e := AllDigits(f, x, u, g);
      LeadsTrans(f, s, u, t, EXIT, n1, 0, n2, 0);
      n := n1 + n2;
    }
  }

  /** A halted run after `n` steps that has written the digits of AX and emptied it. */
  ghost predicate HasPrinted(f: Stepper, s: X86State, n: nat, d: seq<byte>) {
    var t := Steps(f, s, n);
    && t.pc == EXIT && !t.faulted
    && |d| == DIGITS && IsDigits(d) && Value(d) == s.eax % 65536
    && t.eax == s.eax - s.eax % 65536
    && Written(s.mem, t.mem, d)
  }

  lemma Leave(f: Stepper, s: X86State) returns (n: nat, t: X86State)
    requires Executes(f, PROGRAM) && AtTop(s, DIGITS)
    ensures Leads(f, s, t, EXIT, n, 0) && t == s.(pc := EXIT, flags := t.flags)
  {
    Does(f, PROGRAM, s, CmpImm(ECX, 16));
    var s1 := f(s);
    LeadsStep(f, s, EXIT);
    CmpDecides(16, 16);
    Does(f, PROGRAM, s1, Jcc(GE, EXIT));
    n, t := 2, f(s1);
    LeadsThen(f, s, s1, EXIT, 1, 0);
  }

  lemma AllShiftedOut(x: X86State, s: X86State, d: seq<byte>)
    requires Shifting(x, s, d) && |d| == DIGITS
    ensures Value(d) == x.eax % 65536 && s.eax == x.eax - x.eax % 65536
  {
    ShiftedOut(GetHalf(x, AH), GetHalf(x, AL), GetHalf(s, AH), GetHalf(s, AL), Value(d));
    Whole(x.eax);
    Whole(s.eax);
    Parts(x.eax, x.eax / 65536, GetHalf(x, AH), GetHalf(x, AL));
  }

  lemma NothingShifted(x: X86State, s: X86State)
    requires s.eax == x.eax
    ensures Shifting(x, s, [])
  {
    assert Value([]) == 0 && Pow2(0) == 1;
  }

  /** The counter set to zero: no digit written yet. */
  lemma Enter(f: Stepper, s: X86State) returns (n: nat, t: X86State, d: seq<byte>)
    requires Executes(f, PROGRAM) && s.pc == 0 && !s.faulted
    ensures Leads(f, s, t, EXIT, n, 0) && Halfway(s, t, d)
  {
    Does(f, PROGRAM, s, MovImm(ECX, 0));
    n, t, d := 1, f(s), [];
    LeadsStep(f, s, EXIT);
    NothingShifted(s, t);
  }

  /** What the digits say once the program has left its loop. */
  lemma Conclude(f: Stepper, s: X86State, v: X86State, t: X86State, n: nat, d: seq<byte>)
    requires Leads(f, s, t, EXIT, n, 0) && Halfway(s, v, d) && |d| == DIGITS
    requires t == v.(pc := EXIT, flags := t.flags)
    ensures HasPrinted(f, s, n, d)
  {
    AllShiftedOut(s, v, d);
  }

  lemma LeadsThrough(f: Stepper, s: X86State, t: X86State, u: X86State, v: X86State, at: nat, i: nat, j: nat, k: nat)
    requires Leads(f, s, t, at, i, 0) && Leads(f, t, u, at, j, 0) && Leads(f, u, v, at, k, 0)
    ensures Leads(f, s, v, at, i + j + k, 0)
  {
    LeadsTrans(f, s, t, u, at, i, 0, j, 0);
    LeadsTrans(f, s, u, v, at, i + j, 0, k, 0);
  }

  lemma MachinePrints(f: Stepper, s: X86State) returns (n: nat, d: seq<byte>)
    requires Executes(f, PROGRAM) && s.pc == 0 && !s.faulted && Mapped(s.mem, BASE, DIGITS)
    ensures HasPrinted(f, s, n, d)
  {
    var i, u, none := Enter(f, s);
    var j, v;
    j, v, d := AllDigits(f, s, u, none);
    var k, t := Leave(f, v);
    LeadsThrough(f, s, u, v, t, EXIT, i, j, k);
    n := i + j + k;
    Conclude(f, s, v, t, n, d);
  }

  /**
   For every AX the program halts without a fault, having written sixteen digits '0' or '1' whose value,
   most significant first, is AX; AH and AL end up zero, the rest of EAX and of memory is untouched.
   */
  lemma PrintsAx(s: X86State) returns (n: nat, d: seq<byte>)
    requires s.pc == 0 && !s.faulted && Mapped(s.mem, BASE, DIGITS)
    ensures HasPrinted(Executing(PROGRAM), s, n, d) && |PROGRAM| == EXIT
  {
    n, d := MachinePrints(Executing(PROGRAM), s);
  }

  /** The digits are determined: two numbers printed alike are the same number, and conversely. */
  lemma {:induction false} DigitsDetermineValue(d: seq<byte>, e: seq<byte>)
    requires |d| == |e| && IsDigits(d) && IsDigits(e)
    ensures Value(d) == Value(e) <==> d == e
    decreases |d|
  {
    if d != [] {
      var n := |d| - 1;
      DigitsDetermineValue(d[..n], e[..n]);
      assert d == d[..n] + [d[n]] && e == e[..n] + [e[n]];
    }
  }
}
