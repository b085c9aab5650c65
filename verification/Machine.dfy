/**
 The traced process: an abstract deterministic processor over registers, data and text,
 the run of the undebugged program, and how a run over patched text relates to it.
 */
module Machine {
  import opened Words

  /** `rip` apart, registers are looked up by the name the debugger's register table gives them. */
  datatype Regs = Regs(rip: int, rest: map<string, int>)

  /** Everything the program computes on: its text is separate because it neither reads nor writes it. */
  datatype Core = Core(regs: Regs, data: Memory)

  datatype Effect = Goes(core: Core) | Exits(code: int)

  /** `length` is the size of the instruction at an address and `step` is what executing it does. */
  datatype Cpu = Cpu(length: (Memory, int) -> nat, step: (Memory, Core) -> Effect)

  ghost predicate SameBytes(t: Memory, u: Memory, lo: int, hi: int) {
    forall x :: lo <= x < hi ==> (x in t <==> x in u) && (x in t ==> t[x] == u[x])
  }

  /** The processor looks at no text outside the instruction it executes. */
  ghost predicate FetchesOnly(cpu: Cpu) {
    forall t: Memory, u: Memory, c: Core ::
      SameBytes(t, u, c.regs.rip, c.regs.rip + cpu.length(t, c.regs.rip)) ==> cpu.step(t, c) == cpu.step(u, c)
  }

  function AtRip(c: Core, rip: int): Core {
    c.(regs := c.regs.(rip := rip))
  }

  /** Executing the instruction at `rip`; INT3 leaves `rip` one past itself. */
  datatype Exec = Next(core: Core) | Trap(core: Core) | Exit(code: int)

  function Execute(cpu: Cpu, text: Memory, c: Core): Exec {
    if c.regs.rip in text && text[c.regs.rip] == INT3 then Trap(AtRip(c, c.regs.rip + 1))
    else match cpu.step(text, c)
         case Goes(d) => Next(d)
         case Exits(code) => Exit(code)
  }

  datatype Progress = At(core: Core) | Gone(code: int)

  /** The run without a debugger's patches after `n` instructions; a trap of its own is stepped past. */
  function Undebugged(cpu: Cpu, text: Memory, c: Core, n: nat): Progress
    decreases n
  {
    if n == 0 then At(c)
    else match Execute(cpu, text, c)
         case Next(d) => Undebugged(cpu, text, d, n - 1)
         case Trap(d) => Undebugged(cpu, text, d, n - 1)
         case Exit(code) => Gone(code)
  }

  lemma {:induction false} UndebuggedAdds(cpu: Cpu, text: Memory, c: Core, m: nat, n: nat)
    requires Undebugged(cpu, text, c, m).At?
    ensures Undebugged(cpu, text, c, m + n) == Undebugged(cpu, text, Undebugged(cpu, text, c, m).core, n)
    decreases m
  {
    if m > 0 {
      match Execute(cpu, text, c)
      case Next(d) => UndebuggedAdds(cpu, text, d, m - 1, n);
      case Trap(d) => UndebuggedAdds(cpu, text, d, m - 1, n);
      case Exit(_) =>
    }
  }

  /** PTRACE_CONT and PTRACE_SINGLESTEP. */
  datatype Mode = Cont | Single

  datatype Status = Running(core: Core) | Stopped(core: Core) | Exited(code: int)

  /** What the process has become after at most `fuel` instructions of one resumption. */
  function Run(cpu: Cpu, mode: Mode, text: Memory, c: Core, fuel: nat): Status
    decreases fuel
  {
    if fuel == 0 then Running(c)
    else match Execute(cpu, text, c)
         case Next(d) => if mode == Single then Stopped(d) else Run(cpu, mode, text, d, fuel - 1)
         case Trap(d) => Stopped(d)
         case Exit(code) => Exited(code)
  }

  // ---------------------------------------------------------------- patched text

  /** `text` is `origin` with INT3 in place of some of the listed bytes that can be poked at all. */
  ghost predicate Framed(text: Memory, origin: Memory, listed: set<int>) {
    && text.Keys == origin.Keys
    && forall x :: x in text ==> text[x] == origin[x] || (x in listed && Readable(text, x) && text[x] == INT3)
  }

  /** No listed address falls strictly inside the instruction at `rip`. */
  ghost predicate NotInside(cpu: Cpu, origin: Memory, listed: set<int>, rip: int) {
    forall a :: a in listed ==> !(rip < a < rip + cpu.length(origin, rip))
  }

  /** Listed addresses are instruction starts for the whole undebugged run from `c`. */
  ghost predicate OnStarts(cpu: Cpu, origin: Memory, listed: set<int>, c: Core) {
    forall n: nat :: Undebugged(cpu, origin, c, n).At?
      ==> NotInside(cpu, origin, listed, Undebugged(cpu, origin, c, n).core.regs.rip)
  }

  lemma OnStartsLater(cpu: Cpu, origin: Memory, listed: set<int>, c: Core, m: nat)
    requires OnStarts(cpu, origin, listed, c) && Undebugged(cpu, origin, c, m).At?
    ensures OnStarts(cpu, origin, listed, Undebugged(cpu, origin, c, m).core)
    ensures NotInside(cpu, origin, listed, c.regs.rip)
  {
    assert Undebugged(cpu, origin, c, 0).At?;
    var d := Undebugged(cpu, origin, c, m).core;
    forall n: nat | Undebugged(cpu, origin, d, n).At?
      ensures NotInside(cpu, origin, listed, Undebugged(cpu, origin, d, n).core.regs.rip)
    {
      UndebuggedAdds(cpu, origin, c, m, n);
    }
  }

  /** Where the text under `rip` is unpatched, patches elsewhere do not change the instruction. */
  lemma SameInstruction(cpu: Cpu, text: Memory, origin: Memory, listed: set<int>, c: Core)
    requires FetchesOnly(cpu) && Framed(text, origin, listed) && NotInside(cpu, origin, listed, c.regs.rip)
    requires c.regs.rip in text ==> text[c.regs.rip] == origin[c.regs.rip]
    ensures Execute(cpu, text, c) == Execute(cpu, origin, c)
  {
    var rip := c.regs.rip;
    assert SameBytes(origin, text, rip, rip + cpu.length(origin, rip));
    assert cpu.step(origin, c) == cpu.step(text, c);
  }

  /** How `check_if_bp` reads a stop: one past a listed address counts as having hit it. */
  function Settle(c: Core, listed: set<int>): Core {
    if c.regs.rip - 1 in listed then AtRip(c, c.regs.rip - 1) else c
  }

  /** `p` is what the undebugged run from `c` is after some number of instructions. */
  ghost predicate Reaches(cpu: Cpu, origin: Memory, c: Core, p: Progress) {
    exists n: nat :: Undebugged(cpu, origin, c, n) == p
  }

  lemma ReachesTrans(cpu: Cpu, origin: Memory, c: Core, d: Core, p: Progress)
    requires Reaches(cpu, origin, c, At(d)) && Reaches(cpu, origin, d, p)
    ensures Reaches(cpu, origin, c, p)
  {
    var m: nat :| Undebugged(cpu, origin, c, m) == At(d);
    var n: nat :| Undebugged(cpu, origin, d, n) == p;
    UndebuggedAdds(cpu, origin, c, m, n);
  }

  /** A stop is untrapped when a single step ended without meeting INT3. */
  predicate StepsOnto(cpu: Cpu, mode: Mode, text: Memory, c: Core, listed: set<int>) {
    && mode == Single
    && Execute(cpu, text, c).Next?
    && Execute(cpu, text, c).core.regs.rip - 1 in listed
  }

  ghost predicate Matches(cpu: Cpu, origin: Memory, listed: set<int>, c: Core, s: Status) {
    match s
    case Running(d) => Reaches(cpu, origin, c, At(d))
    case Stopped(d) => Reaches(cpu, origin, c, At(Settle(d, listed)))
    case Exited(code) => Reaches(cpu, origin, c, Gone(code))
  }

  lemma ReachesStep(cpu: Cpu, origin: Memory, c: Core)
    ensures Reaches(cpu, origin, c, At(c))
    ensures match Execute(cpu, origin, c)
            case Next(d) => Reaches(cpu, origin, c, At(d))
            case Trap(d) => Reaches(cpu, origin, c, At(d))
            case Exit(code) => Reaches(cpu, origin, c, Gone(code))
  {
    assert Undebugged(cpu, origin, c, 0) == At(c);
    match Execute(cpu, origin, c)
    case Next(d) => assert Undebugged(cpu, origin, d, 0) == At(d); assert Undebugged(cpu, origin, c, 1) == At(d);
    case Trap(d) => assert Undebugged(cpu, origin, d, 0) == At(d); assert Undebugged(cpu, origin, c, 1) == At(d);
    case Exit(code) => assert Undebugged(cpu, origin, c, 1) == Gone(code);
  }

  /** Every outcome of running over patched text is, once settled, a point of the undebugged run. */
  lemma {:induction false} RunMatches(cpu: Cpu, mode: Mode, text: Memory, origin: Memory, listed: set<int>, c: Core,
                                      fuel: nat)
    requires FetchesOnly(cpu) && Framed(text, origin, listed) && OnStarts(cpu, origin, listed, c)
    requires !StepsOnto(cpu, mode, text, c, listed)
    ensures Matches(cpu, origin, listed, c, Run(cpu, mode, text, c, fuel))
    decreases fuel
  {
    ReachesStep(cpu, origin, c);
    if fuel > 0 {
      OnStartsLater(cpu, origin, listed, c, 0);
      var rip := c.regs.rip;
      if rip in text && text[rip] != origin[rip] {
        assert Settle(Execute(cpu, text, c).core, listed) == c;
      } else {
        SameInstruction(cpu, text, origin, listed, c);
        match Execute(cpu, text, c)
        case Next(d) =>
          if mode == Cont {
            assert Undebugged(cpu, origin, d, 0) == At(d);
            assert Undebugged(cpu, origin, c, 1) == At(d);
            OnStartsLater(cpu, origin, listed, c, 1);
            RunMatches(cpu, mode, text, origin, listed, d, fuel - 1);
            var s := Run(cpu, mode, text, d, fuel - 1);
            ReachesTrans(cpu, origin, c, d,
              match s
              case Running(e) => At(e)
              case Stopped(e) => At(Settle(e, listed))
              case Exited(code) => Gone(code));
          }
        case Trap(d) =>
          assert rip in listed ==> Settle(d, listed) == c;
        case Exit(code) =>
      }
    }
  }

  predicate Trapping(text: Memory, rip: int) {
    rip in text && text[rip] == INT3
  }

  /** After exactly `n` instructions the undebugged run first stands on a byte that is INT3 in `text`. */
  ghost predicate FirstTrapAt(cpu: Cpu, text: Memory, origin: Memory, c: Core, n: nat) {
    && (forall i: nat :: i < n ==>
          Undebugged(cpu, origin, c, i).At? && !Trapping(text, Undebugged(cpu, origin, c, i).core.regs.rip))
    && Undebugged(cpu, origin, c, n).At?
    && Trapping(text, Undebugged(cpu, origin, c, n).core.regs.rip)
  }

  lemma FirstTrapShift(cpu: Cpu, text: Memory, origin: Memory, c: Core, d: Core, n: nat)
    requires n > 0 && Execute(cpu, origin, c) == Next(d) && !Trapping(text, c.regs.rip)
    ensures FirstTrapAt(cpu, text, origin, c, n) <==> FirstTrapAt(cpu, text, origin, d, n - 1)
  {
    assert forall i: nat :: Undebugged(cpu, origin, c, i + 1) == Undebugged(cpu, origin, d, i);
    if FirstTrapAt(cpu, text, origin, c, n) {
      forall i: nat | i < n - 1
        ensures Undebugged(cpu, origin, d, i).At? && !Trapping(text, Undebugged(cpu, origin, d, i).core.regs.rip)
      {
        assert Undebugged(cpu, origin, c, i + 1).At?;
      }
    }
    if FirstTrapAt(cpu, text, origin, d, n - 1) {
      forall i: nat | i < n
        ensures Undebugged(cpu, origin, c, i).At? && !Trapping(text, Undebugged(cpu, origin, c, i).core.regs.rip)
      {
        if i > 0 {
          assert Undebugged(cpu, origin, d, i - 1).At?;
        }
      }
    }
  }

  /** Continuing stops exactly where the undebugged run first meets an armed address: none is skipped. */
  lemma {:induction false} ContStopsAtFirstTrap(cpu: Cpu, text: Memory, origin: Memory, listed: set<int>, c: Core,
                                                fuel: nat, d: Core)
    requires FetchesOnly(cpu) && Framed(text, origin, listed) && OnStarts(cpu, origin, listed, c)
    ensures Run(cpu, Cont, text, c, fuel) == Stopped(d)
       <==> exists n: nat :: n < fuel && FirstTrapAt(cpu, text, origin, c, n)
                          && var e := Undebugged(cpu, origin, c, n).core; d == AtRip(e, e.regs.rip + 1)
    decreases fuel
  {
    assert Undebugged(cpu, origin, c, 0) == At(c);
    if fuel > 0 {
      OnStartsLater(cpu, origin, listed, c, 0);
      if Trapping(text, c.regs.rip) {
        assert FirstTrapAt(cpu, text, origin, c, 0);
        assert forall n: nat :: FirstTrapAt(cpu, text, origin, c, n) ==> n == 0;
      } else {
        SameInstruction(cpu, text, origin, listed, c);
        match Execute(cpu, text, c)
        case Exit(_) =>
          assert Undebugged(cpu, origin, c, 1).Gone?;
          assert forall n: nat :: FirstTrapAt(cpu, text, origin, c, n) ==> n == 0;
        case Next(e) =>
          assert Undebugged(cpu, origin, e, 0) == At(e);
          assert Undebugged(cpu, origin, c, 1) == At(e);
          OnStartsLater(cpu, origin, listed, c, 1);
          ContStopsAtFirstTrap(cpu, text, origin, listed, e, fuel - 1, d);
          forall n: nat | n > 0
            ensures FirstTrapAt(cpu, text, origin, c, n) <==> FirstTrapAt(cpu, text, origin, e, n - 1)
            ensures Undebugged(cpu, origin, c, n) == Undebugged(cpu, origin, e, n - 1)
          {
            FirstTrapShift(cpu, text, origin, c, e, n);
          }
          if n: nat :| n < fuel - 1 && FirstTrapAt(cpu, text, origin, e, n)
                       && var x := Undebugged(cpu, origin, e, n).core; d == AtRip(x, x.regs.rip + 1) {
            assert FirstTrapAt(cpu, text, origin, c, n + 1);
          }
      }
    }
  }
}
