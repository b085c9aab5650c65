/** Bubble sort of 32-bit words, instruction by instruction. */
module BubbleSort {
  import opened Words
  import opened X86

  const BASE: int := 0x600000

  const THIS := Place(BASE, EDX, 4)
  const NEXT := Place(BASE + 4, EDX, 4)

  /** Where the data comparison stands. */
  const COMPARE := 6
  const EXIT := 20

  /** The program with `m` in place of 9. */
  function Program(m: word): X86.Program {
    [ MovImm(ECX, 0),      //  0
      MovImm(EDX, 0),      //  1
      CmpImm(EDX, m),      //  2  L1
      Jcc(GE, 9),          //  3
      MovLoad(EAX, THIS),  //  4
      MovLoad(EBX, NEXT),  //  5
      Cmp(EAX, EBX),       //  6
      Jcc(AE, 14),         //  7
      Jmp(18),             //  8
      CmpImm(ECX, m),      //  9  L2
      Jcc(GE, EXIT),       // 10
      Inc(ECX),            // 11
      MovImm(EDX, 0),      // 12
      Jmp(2),              // 13
      Xchg(EAX, EBX),      // 14  swap
      MovStore(THIS, EAX), // 15
      MovStore(NEXT, EBX), // 16
      Jmp(18),             // 17
      Inc(EDX),            // 18  update_for_loop
      Jmp(2) ]             // 19
  }

  // ------------------------------------------------------------------ the words in memory

  ghost predicate InMemory(m: Memory, n: nat) {
    BASE + 4 * n <= MODULUS && Mapped(m, BASE, 4 * n)
  }

  function WordAt(m: Memory, i: nat): word
    requires Mapped(m, BASE + 4 * i, 4)
  {
    LoadWord(m, BASE + 4 * i)
  }

  /** `m` holds the words `a`. */
  ghost predicate Holds(m: Memory, a: seq<word>) {
    InMemory(m, |a|) && forall i: nat :: i < |a| ==> Mapped(m, BASE + 4 * i, 4) && WordAt(m, i) == a[i]
  }

  /** `k` differs from `m` in the first `n` words only. */
  ghost predicate SameBeyond(m: Memory, k: Memory, n: nat) {
    k.Keys == m.Keys && forall x :: x in m && !(BASE <= x < BASE + 4 * n) ==> x in k && k[x] == m[x]
  }

  lemma StoreHolds(m: Memory, a: seq<word>, i: nat, w: word)
    requires Holds(m, a) && i < |a|
    ensures Holds(StoreWord(m, BASE + 4 * i, w), a[i := w])
    ensures SameBeyond(m, StoreWord(m, BASE + 4 * i, w), |a|)
  {
    var at, k, b := BASE + 4 * i, StoreWord(m, BASE + 4 * i, w), a[i := w];
    StoreFrame(m, at, w, 4);
    assert forall x :: x in m <==> x in k by { assert k.Keys == m.Keys; }
    forall j: nat | j < |a|
      ensures Mapped(k, BASE + 4 * j, 4) && WordAt(k, j) == b[j]
    {
      assert Mapped(m, BASE + 4 * j, 4);
      if j == i {
        assert Capacity(4) == MODULUS;
        LoadOfStore(m, at, w, 4);
      } else {
        LoadCongruent(m, k, BASE + 4 * j, 4);
      }
    }
  }

  // ------------------------------------------------------------------ what it computes

  function Exchange(a: seq<word>, j: nat): (b: seq<word>)
    requires j + 1 < |a|
    ensures |b| == |a|
  {
    if a[j] >= a[j + 1] then a[j := a[j + 1]][j + 1 := a[j]] else a
  }

  /** One pass from position `j` on. */
  function Pass(a: seq<word>, j: nat): (b: seq<word>)
    ensures |b| == |a|
    decreases |a| - j
  {
    if j + 1 < |a| then Pass(Exchange(a, j), j + 1) else a
  }

  function Passes(a: seq<word>, n: nat): (b: seq<word>)
    ensures |b| == |a|
    decreases n
  {
    if n == 0 then a else Passes(Pass(a, 0), n - 1)
  }

  ghost predicate Sorted(a: seq<word>) {
    forall i, j :: 0 <= i < j < |a| ==> a[i] <= a[j]
  }

  /** The last `p` elements are sorted and at least as large as all before them. */
  ghost predicate Settled(a: seq<word>, p: nat) {
    forall i, j :: 0 <= i < j < |a| && j >= |a| - p ==> a[i] <= a[j]
  }

  lemma {:induction false} PassPermutes(a: seq<word>, j: nat)
    ensures multiset(Pass(a, j)) == multiset(a)
    decreases |a| - j
  {
    if j + 1 < |a| {
      PassPermutes(Exchange(a, j), j + 1);
    }
  }

  lemma {:induction false} PassesPermute(a: seq<word>, n: nat)
    ensures multiset(Passes(a, n)) == multiset(a)
    decreases n
  {
    if n > 0 {
      PassPermutes(a, 0);
      PassesPermute(Pass(a, 0), n - 1);
    }
  }

  /** A pass changes nothing once it has reached the settled part. */
  lemma {:induction false} PassLeavesSettled(a: seq<word>, j: nat, p: nat)
    requires Settled(a, p) && j + p >= |a|
    ensures Pass(a, j) == a
    decreases |a| - j
  {
    if j + 1 < |a| {
      assert Exchange(a, j) == a;
      PassLeavesSettled(a, j + 1, p);
    }
  }

  /** A pass carries the largest unsettled element to its place. */
  lemma {:induction false} PassSettlesOne(a: seq<word>, j: nat, p: nat)
    requires Settled(a, p) && j + p < |a| && forall i :: 0 <= i < j ==> a[i] <= a[j]
    ensures Settled(Pass(a, j), p + 1)
    decreases |a| - j
  {
    if j + p + 1 == |a| {
      PassLeavesSettled(a, j, p + 1);
    } else {
      PassSettlesOne(Exchange(a, j), j + 1, p);
    }
  }

  lemma {:induction false} PassesSort(a: seq<word>, n: nat, p: nat)
    requires Settled(a, p) && n + p >= |a|
    ensures Sorted(Passes(a, n))
    decreases n
  {
    if n > 0 {
      if p < |a| {
        PassSettlesOne(a, 0, p);
        PassesSort(Pass(a, 0), n - 1, p + 1);
      } else {
        PassLeavesSettled(a, 0, p);
        PassesSort(a, n - 1, p);
      }
    }
  }

  // ------------------------------------------------------------------ what the instructions do

  /** At L1 with the given counters, holding `a`. */
  ghost predicate AtL1(s: X86State, c: nat, j: nat, a: seq<word>) {
    s.pc == 2 && s.ecx == c && s.edx == j && !s.faulted && Holds(s.mem, a)
  }

  ghost predicate Fits(m: word, a: seq<word>) {
    |a| == m + 1 && BASE + 4 * |a| <= MODULUS
  }

  lemma LoadsWord(f: Stepper, m: word, s: X86State, r: Reg, from: Place, k: nat, a: seq<word>)
    requires Executes(f, Program(m)) && s.pc < EXIT && Program(m)[s.pc] == MovLoad(r, from) && !s.faulted
    requires Holds(s.mem, a) && k < |a| && Resolve(s, from) == BASE + 4 * k
    ensures f(s) == Set(s.(pc := s.pc + 1), r, a[k])
  {
    Does(f, Program(m), s, MovLoad(r, from));
    assert Mapped(s.mem, BASE + 4 * k, 4) && WordAt(s.mem, k) == a[k];
  }

  lemma StoresWord(f: Stepper, m: word, s: X86State, to: Place, r: Reg, k: nat, a: seq<word>)
    requires Executes(f, Program(m)) && s.pc < EXIT && Program(m)[s.pc] == MovStore(to, r) && !s.faulted
    requires Holds(s.mem, a) && k < |a| && Resolve(s, to) == BASE + 4 * k
    ensures f(s) == s.(pc := s.pc + 1, mem := f(s).mem)
    ensures Holds(f(s).mem, a[k := Get(s, r)]) && SameBeyond(s.mem, f(s).mem, |a|)
  {
    Does(f, Program(m), s, MovStore(to, r));
    assert Mapped(s.mem, BASE + 4 * k, 4);
    StoreHolds(s.mem, a, k, Get(s, r));
  }

  /** From L1 to the data comparison: the counter is below its bound, both words are loaded. */
  lemma ToCompare(f: Stepper, m: word, s: X86State, c: nat, j: nat, a: seq<word>) returns (t: X86State)
    requires Executes(f, Program(m)) && Fits(m, a) && AtL1(s, c, j, a) && j < m
    ensures Leads(f, s, t, COMPARE, 4, 0)
    ensures t == s.(pc := COMPARE, eax := a[j], ebx := a[j + 1], flags := t.flags)
  {
    Does(f, Program(m), s, CmpImm(EDX, m));
    var s1 := f(s);
    LeadsStep(f, s, COMPARE);
    CmpDecides(j, m);
    Does(f, Program(m), s1, Jcc(GE, 9));
    var s2 := f(s1);
    LeadsThen(f, s, s1, COMPARE, 1, 0);
    LoadsWord(f, m, s2, EAX, THIS, j, a);
    var s3 := f(s2);
    LeadsThen(f, s, s2, COMPARE, 2, 0);
    LoadsWord(f, m, s3, EBX, NEXT, j + 1, a);
    t := f(s3);
    LeadsThen(f, s, s3, COMPARE, 3, 0);
  }

  /** The exchange, from `swap` to `update_for_loop`. */
  lemma Swap(f: Stepper, m: word, s: X86State, j: nat, a: seq<word>) returns (t: X86State)
    requires Executes(f, Program(m)) && Fits(m, a)
    requires s.pc == 14 && s.edx == j && j < m && !s.faulted && Holds(s.mem, a)
    requires s.eax == a[j] && s.ebx == a[j + 1]
    ensures Leads(f, s, t, COMPARE, 4, 0)
    ensures t == s.(pc := 18, eax := a[j + 1], ebx := a[j], mem := t.mem)
    ensures Holds(t.mem, a[j := a[j + 1]][j + 1 := a[j]]) && SameBeyond(s.mem, t.mem, |a|)
  {
    Does(f, Program(m), s, Xchg(EAX, EBX));
    var s1 := f(s);
    LeadsStep(f, s, COMPARE);
    StoresWord(f, m, s1, THIS, EAX, j, a);
    var s2 := f(s1);
    LeadsThen(f, s, s1, COMPARE, 1, 0);
    StoresWord(f, m, s2, NEXT, EBX, j + 1, a[j := a[j + 1]]);
    var s3 := f(s2);
    LeadsThen(f, s, s2, COMPARE, 2, 0);
    Does(f, Program(m), s3, Jmp(18));
    t := f(s3);
    LeadsThen(f, s, s3, COMPARE, 3, 0);
    BeyondTrans(s.mem, s2.mem, t.mem, |a|);
  }

  /** The comparison and its branch: to `swap`, or to `update_for_loop` when the words are in order. */
  lemma Branch(f: Stepper, m: word, s: X86State, x: word, y: word) returns (n: nat, t: X86State)
    requires Executes(f, Program(m)) && s.pc == COMPARE && s.eax == x && s.ebx == y && !s.faulted
    ensures Leads(f, s, t, COMPARE, n, 1)
    ensures t == s.(pc := if x >= y then 14 else 18, flags := CmpFlags(x, y))
  {
    var p := Program(m);
    Does(f, p, s, Cmp(EAX, EBX));
    var s1 := f(s);
    LeadsStep(f, s, COMPARE);
    CmpDecides(x, y);
    Does(f, p, s1, Jcc(AE, 14));
    t := f(s1);
    LeadsThen(f, s, s1, COMPARE, 1, 1);
    n := 2;
    if x < y {
      Does(f, p, t, Jmp(18));
      LeadsThen(f, s, t, COMPARE, 2, 1);
      n, t := 3, f(t);
    }
  }

  /** From `update_for_loop` back to L1. */
  lemma Advance(f: Stepper, m: word, s: X86State, j: nat) returns (t: X86State)
    requires Executes(f, Program(m)) && s.pc == 18 && s.edx == j && j + 1 < MODULUS && !s.faulted
    ensures Leads(f, s, t, COMPARE, 2, 0)
    ensures t == s.(pc := 2, edx := j + 1, flags := t.flags)
  {
    var p := Program(m);
    Does(f, p, s, Inc(EDX));
    var s1 := f(s);
    LeadsStep(f, s, COMPARE);
    Does(f, p, s1, Jmp(2));
    t := f(s1);
    LeadsThen(f, s, s1, COMPARE, 1, 0);
  }

  /** One turn of the inner loop: one comparison, and the words exchanged unless in order. */
  lemma Turn(f: Stepper, m: word, s: X86State, c: nat, j: nat, a: seq<word>) returns (n: nat, t: X86State)
    requires Executes(f, Program(m)) && Fits(m, a) && AtL1(s, c, j, a) && j < m
    ensures Leads(f, s, t, COMPARE, n, 1)
    ensures AtL1(t, c, j + 1, Exchange(a, j)) && SameBeyond(s.mem, t.mem, |a|)
  {
    var s1 := ToCompare(f, m, s, c, j, a);
    var n2, s2 := Branch(f, m, s1, a[j], a[j + 1]);
    LeadsTrans(f, s, s1, s2, COMPARE, 4, 0, n2, 1);
    n := 4 + n2;
    if a[j] >= a[j + 1] {
      var s3 := Swap(f, m, s2, j, a);
      LeadsTrans(f, s, s2, s3, COMPARE, n, 1, 4, 0);
      n, s2 := n + 4, s3;
    }
    t := Advance(f, m, s2, j);
    LeadsTrans(f, s, s2, t, COMPARE, n, 1, 2, 0);
    n := n + 2;
  }

  lemma BeyondTrans(k: Memory, l: Memory, m: Memory, n: nat)
    requires SameBeyond(k, l, n) && SameBeyond(l, m, n)
    ensures SameBeyond(k, m, n)
  {
    assert forall x :: x in k <==> x in l by { assert l.Keys == k.Keys; }
  }

  /** The rest of a pass: from position `j`, `m - j` comparisons, to L1 with the counter at its bound. */
  lemma {:induction false} InnerLoop(f: Stepper, m: word, s: X86State, c: nat, j: nat, a: seq<word>)
    returns (n: nat, t: X86State)
    requires Executes(f, Program(m)) && Fits(m, a) && AtL1(s, c, j, a) && j <= m
    ensures Leads(f, s, t, COMPARE, n, m - j)
    ensures AtL1(t, c, m, Pass(a, j)) && SameBeyond(s.mem, t.mem, |a|)
    decreases m - j
  {
    if j == m {
      n, t := 0, s;
    } else {
      var n1, u := Turn(f, m, s, c, j, a);
      var n2;
      n2, t := InnerLoop(f, m, u, c, j + 1, Exchange(a, j));
      LeadsTrans(f, s, u, t, COMPARE, n1, 1, n2, m - (j + 1));
      BeyondTrans(s.mem, u.mem, t.mem, |a|);
      n := n1 + n2;
    }
  }

  /** From L1 with the counter at its bound to the test of `ecx`. */
  lemma ToOuterTest(f: Stepper, m: word, s: X86State, c: nat) returns (t: X86State)
    requires Executes(f, Program(m)) && s.pc == 2 && s.ecx == c && s.edx == m && !s.faulted
    ensures Leads(f, s, t, COMPARE, 3, 0)
    ensures t == s.(pc := 10, flags := CmpFlags(c, m))
  {
    var p := Program(m);
    Does(f, p, s, CmpImm(EDX, m));
    var s1 := f(s);
    LeadsStep(f, s, COMPARE);
    CmpDecides(m, m);
    Does(f, p, s1, Jcc(GE, 9));
    var s2 := f(s1);
    LeadsThen(f, s, s1, COMPARE, 1, 0);
    Does(f, p, s2, CmpImm(ECX, m));
    t := f(s2);
    LeadsThen(f, s, s2, COMPARE, 2, 0);
  }

  /** The start of another pass. */
  lemma Restart(f: Stepper, m: word, s: X86State, c: nat) returns (t: X86State)
    requires Executes(f, Program(m)) && s.pc == 11 && s.ecx == c && c + 1 < MODULUS && !s.faulted
    ensures Leads(f, s, t, COMPARE, 3, 0)
    ensures t == s.(pc := 2, ecx := c + 1, edx := 0, flags := t.flags)
  {
    var p := Program(m);
    Does(f, p, s, Inc(ECX));
    var s1 := f(s);
    LeadsStep(f, s, COMPARE);
    Does(f, p, s1, MovImm(EDX, 0));
    var s2 := f(s1);
    LeadsThen(f, s, s1, COMPARE, 1, 0);
    Does(f, p, s2, Jmp(2));
    t := f(s2);
    LeadsThen(f, s, s2, COMPARE, 2, 0);
  }

  /** At L2: another pass while `ecx` is below its bound, and the exit after that. */
  lemma NextPass(f: Stepper, m: word, s: X86State, c: nat) returns (n: nat, t: X86State)
    requires Executes(f, Program(m)) && m < SIGN && s.pc == 2 && s.ecx == c && s.edx == m && c <= m && !s.faulted
    ensures Leads(f, s, t, COMPARE, n, 0)
    ensures t.mem == s.mem && !t.faulted
    ensures if c < m then t.pc == 2 && t.ecx == c + 1 && t.edx == 0 else t.pc == EXIT && t.ecx == m
  {
    var s1 := ToOuterTest(f, m, s, c);
    CmpDecides(c, m);
    Does(f, Program(m), s1, Jcc(GE, EXIT));
    t := f(s1);
    LeadsThen(f, s, s1, COMPARE, 3, 0);
    n := 4;
    if c < m {
      var u := Restart(f, m, t, c);
      LeadsTrans(f, s, t, u, COMPARE, 4, 0, 3, 0);
      n, t := 7, u;
    }
  }

  /** What `passes` passes of `m` comparisons come to. */
  function Comparisons(passes: nat, m: nat): nat
    decreases passes
  {
    if passes == 0 then 0 else m + Comparisons(passes - 1, m)
  }

  lemma {:induction false} ComparisonsProduct(passes: nat, m: nat)
    ensures Comparisons(passes, m) == passes * m
    decreases passes
  {
    if passes > 0 {
      ComparisonsProduct(passes - 1, m);
      assert passes * m == m + (passes - 1) * m;
    }
  }

  /** The remaining `m + 1 - c` passes of `m` comparisons each. */
  lemma {:induction false} OuterLoop(f: Stepper, m: word, s: X86State, c: nat, a: seq<word>)
    returns (n: nat, t: X86State)
    requires Executes(f, Program(m)) && Fits(m, a) && AtL1(s, c, 0, a) && c <= m
    ensures Leads(f, s, t, COMPARE, n, Comparisons(m + 1 - c, m))
    ensures t.pc == EXIT && t.ecx == m && !t.faulted
    ensures Holds(t.mem, Passes(a, m + 1 - c)) && SameBeyond(s.mem, t.mem, |a|)
    decreases m - c
  {
    var n1, u := InnerLoop(f, m, s, c, 0, a);
    var n2, v := NextPass(f, m, u, c);
    LeadsTrans(f, s, u, v, COMPARE, n1, m, n2, 0);
    if c == m {
      n, t := n1 + n2, v;
      assert Passes(a, 1) == Passes(Pass(a, 0), 0) && Comparisons(0, m) == 0;
    } else {
      var n3;
      n3, t := OuterLoop(f, m, v, c + 1, Pass(a, 0));
      LeadsTrans(f, s, v, t, COMPARE, n1 + n2, m, n3, Comparisons(m - c, m));
      BeyondTrans(s.mem, v.mem, t.mem, |a|);
      n := n1 + n2 + n3;
    }
  }

  /** The two counters set to zero. */
  lemma Begin(f: Stepper, m: word, s: X86State) returns (t: X86State)
    requires Executes(f, Program(m)) && s.pc == 0 && !s.faulted
    ensures Leads(f, s, t, COMPARE, 2, 0)
    ensures t == s.(pc := 2, ecx := 0, edx := 0)
  {
    Does(f, Program(m), s, MovImm(ECX, 0));
    var s1 := f(s);
    LeadsStep(f, s, COMPARE);
    Does(f, Program(m), s1, MovImm(EDX, 0));
    t := f(s1);
    LeadsThen(f, s, s1, COMPARE, 1, 0);
  }

  /**
   A halted run after `n` steps: ascending words, a permutation, all else untouched; `ecx` has counted the
   passes after the first, and each pass has made `|a| - 1` comparisons.
   */
  ghost predicate HasSorted(f: Stepper, s: X86State, a: seq<word>, n: nat, b: seq<word>) {
    var t := Steps(f, s, n);
    && t.pc == EXIT && !t.faulted && t.ecx == |a| - 1
    && Holds(t.mem, b) && Sorted(b) && multiset(b) == multiset(a)
    && SameBeyond(s.mem, t.mem, |a|)
    && Visits(f, s, COMPARE, n) == |a| * (|a| - 1)
  }

  lemma MachineSorts(f: Stepper, m: word, s: X86State, a: seq<word>) returns (n: nat, b: seq<word>)
    requires Executes(f, Program(m)) && Fits(m, a) && s.pc == 0 && !s.faulted && Holds(s.mem, a)
    ensures HasSorted(f, s, a, n, b)
  {
    var u := Begin(f, m, s);
    var n1, t := OuterLoop(f, m, u, 0, a);
    LeadsTrans(f, s, u, t, COMPARE, 2, 0, n1, Comparisons(m + 1, m));
    ComparisonsProduct(m + 1, m);
    n, b := 2 + n1, Passes(a, m + 1);
    PassesSort(a, m + 1, 0);
    PassesPermute(a, m + 1);
  }

  /**
   From any state at the first instruction, with any words in memory, the program halts without a fault
   after `|a|` passes of `|a| - 1` comparisons; the words are then in ascending unsigned order, a
   permutation of what they were, and no other memory has changed.
   */
  lemma SortsAnyWords(m: word, s: X86State, a: seq<word>) returns (n: nat, b: seq<word>)
    requires Fits(m, a) && s.pc == 0 && !s.faulted && Holds(s.mem, a)
    ensures HasSorted(Executing(Program(m)), s, a, n, b) && |Program(m)| == EXIT
  {
    n, b := MachineSorts(Executing(Program(m)), m, s, a);
  }
}
