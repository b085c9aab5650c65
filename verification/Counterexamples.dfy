/**
 Sessions of a new debugger in which it does not do what it is for. The exact conditions are proved elsewhere;
 here are a program, a file that holds it, and commands that lead from the first prompt to each failure.
 */
module Counterexamples {
  import opened Words
  import opened Wrappers
  import opened Machine
  import opened Session
  import opened Invariants
  import opened Exactness
  import Elf

  // ------------------------------------------------------------------ a program and its file

  const HEAD: int := 64
  const TEXT: int := 0x400040
  const SIZE: int := 64
  const NOP: byte := 0x90
  const BACK: byte := 0xEB
  const HALT: byte := 0xF4

  /** Sixty-four one-byte instructions: the fourth goes back to the first, the last ends the program. */
  function Bytes(): (r: seq<byte>)
    ensures |r| == SIZE
    ensures forall i :: 0 <= i < SIZE ==> r[i] == if i == 3 then BACK else if i == SIZE - 1 then HALT else NOP
  {
    seq<byte>(SIZE, i => if i == 3 then BACK else if i == SIZE - 1 then HALT else NOP)
  }

  /** The file up to the end of `.text`: a header comes first. */
  function Contents(): (r: seq<byte>)
    ensures |r| == HEAD + SIZE
    ensures forall i :: 0 <= i < SIZE ==> r[HEAD + i] == Bytes()[i]
  {
    seq<byte>(HEAD, i => 0) + Bytes()
  }

  function Byte(bytes: seq<byte>, base: int, a: int): byte
    requires base <= a < base + |bytes|
  {
    bytes[a - base]
  }

  function Laid(bytes: seq<byte>, base: int): (m: Memory)
    ensures forall a :: a in m <==> base <= a < base + |bytes|
    ensures forall a :: a in m ==> m[a] == bytes[a - base]
  {
    map a | base <= a < base + |bytes| :: Byte(bytes, base, a)
  }

  /** What is mapped of the file, with `.text` at `at`. */
  function Image(at: int): (m: Memory)
    ensures forall a :: a in m <==> at - HEAD <= a < at + SIZE
    ensures forall a :: at <= a < at + SIZE ==> m[a] == Byte(Bytes(), at, a)
  {
    var m := Laid(Contents(), at - HEAD);
    assert forall a :: at <= a < at + SIZE ==> m[a] == Contents()[HEAD + (a - at)] == Byte(Bytes(), at, a);
    m
  }

  function Code(): Memory {
    Image(TEXT)
  }

  /** The names of the sections: none for the first, as always, and ".text" from 1 on. */
  function Names(): (r: seq<byte>)
    ensures |r| == 7 && r[1..7] == Elf.TEXT_NAME && r[0..6] != Elf.TEXT_NAME
  {
    var r := [0] + Elf.TEXT_NAME;
    assert r[0..6][0] == 0;
    r
  }

  /** A null section, `.text`, linked at an address, and the section-name string table that names it. */
  function File(text: int): Elf.File {
    Elf.File(Contents() + Names(), Elf.ELFCLASS64, 1,
             [ Elf.Shdr(0, 0, 0, 0, 0, 0),
               TextHeader(text),
               Elf.Shdr(0, Elf.SHT_STRTAB, 0, HEAD + SIZE, 7, 0) ], 2)
  }

  function TextHeader(text: int): Elf.Shdr {
    Elf.Shdr(1, 1, text, HEAD, SIZE, 0)
  }

  lemma FileIsAccepted(text: int)
    ensures Elf.TextIndex(File(text)) == Some(1)
  {
    var f := File(text);
    assert Elf.StrTabs(f, 1) == Some(Elf.Nil);
    assert Elf.StrTabs(f, 2) == Some(Elf.Nil);
    assert Elf.Section(f, 2) == Some(f.bytes[HEAD + SIZE..HEAD + SIZE + 7]);
    assert f.bytes[HEAD + SIZE..HEAD + SIZE + 7] == Names();
    assert Elf.StrTabs(f, 3) == Some(Elf.Cons(2, Names(), Elf.Nil));
    assert !Elf.NamedText(Names(), 0) && Elf.NamedText(Names(), 1);
    assert Elf.FirstText(f, Names(), 0) == 1;
  }

  function Successor(t: Memory, c: Machine.Core): Effect {
    var rip := c.regs.rip;
    if rip in t && t[rip] == HALT then Exits(0)
    else if rip in t && t[rip] == BACK then Goes(AtRip(c, rip - 3))
    else Goes(AtRip(c, rip + 1))
  }

  function SimpleCpu(): (cpu: Cpu)
    ensures FetchesOnly(cpu)
    ensures forall t: Memory, c: Machine.Core :: cpu.step(t, c) == Successor(t, c)
    ensures forall t: Memory, a: int :: cpu.length(t, a) == 1
  {
    Cpu((t: Memory, a: int) => 1, (t: Memory, c: Machine.Core) => Successor(t, c))
  }

  function SimpleHost(): (h: Host)
    ensures h.cpu == SimpleCpu()
  {
    Host(SimpleCpu(), (code: seq<byte>) => [])
  }

  function CoreAt(rip: int): Machine.Core {
    Machine.Core(Regs(rip, map[]), map[])
  }

  /** A process about to execute the instruction at `rip`, with `.text` at `at`. */
  function Mapping(at: int, rip: int): Launch {
    Launch(1, at - HEAD, at + SIZE, Image(at), CoreAt(rip))
  }

  /** Mapped where it was linked to be. */
  function Entry(rip: int): Launch {
    Mapping(TEXT, rip)
  }

  /** The debugger with the program loaded that is linked at `text`. */
  function Opened(regs: Regs, text: int): (s: State)
    ensures Lifecycle(s)
  {
    Fresh(regs).(phase := LOADED, elf := Some(File(text)), textIdx := 1)
  }

  function Program(text: int): World {
    World(SimpleHost(), Image(text), text + SIZE)
  }

  /** The bytes of a mapping are those of any other, wherever it is. */
  lemma SameImage(at: int, text: int, a: int)
    requires a in Image(text)
    ensures a + (at - text) in Image(at) && Image(at)[a + (at - text)] == Image(text)[a]
  {
    var b := a + (at - text);
    assert Image(text)[a] == Contents()[a - (text - HEAD)] && Image(at)[b] == Contents()[b - (at - HEAD)];
  }

  /**
   The file, and a mapping of it anywhere, are what the theorems ask for; the debugger finds the load base of
   a program linked right behind its header or run where it is linked.
   */
  lemma NothingElseIsWrong(regs: Regs, text: int, at: int, rip: int)
    ensures var w, s, l := Program(text), Opened(regs, text), Mapping(at, rip);
            && Inv(w, s) && FileMatches(w, s) && LoadedAt(w, l, at - text)
            && (LaunchMatches(w, s, l) <==> text == HEAD || at == text)
  {
    var w, s, l := Program(text), Opened(regs, text), Mapping(at, rip);
    assert TextSection(s) == TextHeader(text);
    forall a | text <= a < text + SIZE
      ensures a in w.image && File(text).bytes[HEAD + (a - text)] == w.image[a]
    {
      assert File(text).bytes[HEAD + (a - text)] == Bytes()[a - text];
    }
    forall a | a in w.image
      ensures a + (at - text) in l.text && l.text[a + (at - text)] == w.image[a]
    {
      SameImage(at, text, a);
    }
    LaunchMatchesIff(w, s, l, at - text);
  }

  // ------------------------------------------------------------------ how the sessions begin

  lemma Then(h: Host, s: State, cmds: seq<Command>, cmd: Command)
    requires Lifecycle(s) && RunSession(h, s, cmds).Done?
    ensures RunSession(h, s, cmds + [cmd]) == Perform(h, RunSession(h, s, cmds).s, cmd)
  {
    assert (cmds + [cmd])[..|cmds|] == cmds;
  }

  /** A session has come to the prompt with the debugger in state `t`. */
  predicate Prompts(h: Host, s: State, cmds: seq<Command>, t: State)
    requires Lifecycle(s)
  {
    RunSession(h, s, cmds).Done? && RunSession(h, s, cmds).s == t
  }

  lemma ThenBreak(h: Host, s: State, cmds: seq<Command>, t: State, a: int)
    requires Lifecycle(s) && Prompts(h, s, cmds, t)
    ensures RunSession(h, s, cmds + [Break(a)]) == Done(SetBp(t, a), Quiet)
  {
    Then(h, s, cmds, Break(a));
  }

  lemma ThenStart(h: Host, s: State, cmds: seq<Command>, t: State, l: Launch)
    requires Lifecycle(s) && Prompts(h, s, cmds, t) && t.phase != BEGIN
    ensures RunSession(h, s, cmds + [Start(l)]) == Checked(if t.phase == LOADED then Launched(t, l) else t)
  {
    Then(h, s, cmds, Start(l));
  }

  lemma ThenExec(h: Host, s: State, cmds: seq<Command>, t: State, l: Launch, sched: Sched)
    requires Lifecycle(s) && Prompts(h, s, cmds, t) && t.phase == LOADED
    ensures RunSession(h, s, cmds + [Exec(l, sched)]) == Resume(h, Launched(t, l), Cont, sched)
  {
    Then(h, s, cmds, Exec(l, sched));
  }

  lemma ThenResume(h: Host, s: State, cmds: seq<Command>, t: State, mode: Mode, sched: Sched)
    requires Lifecycle(s) && Prompts(h, s, cmds, t) && t.phase == RUNNING
    ensures RunSession(h, s, cmds + [if mode == Cont then Continue(sched) else StepInto(sched)])
         == Resume(h, t, mode, sched)
  {
    Then(h, s, cmds, if mode == Cont then Continue(sched) else StepInto(sched));
  }

  /** Different addresses of instructions that do nothing. */
  predicate Plain(addrs: seq<int>) {
    && (forall i :: 0 <= i < |addrs| ==> TEXT <= addrs[i] < TEXT + SIZE - 1 && addrs[i] != TEXT + 3)
    && (forall i, j :: 0 <= i < j < |addrs| ==> addrs[i] != addrs[j])
  }

  /** `load`, then a `break` at each address. */
  function Setup(addrs: seq<int>): seq<Command> {
    if addrs == [] then [Load(Some(File(TEXT)))]
    else Setup(addrs[..|addrs| - 1]) + [Break(addrs[|addrs| - 1])]
  }

  function Listed(addrs: seq<int>): (bps: seq<BP>)
    ensures |bps| == |addrs| && forall i :: 0 <= i < |bps| ==> bps[i] == BP(addrs[i], NOP)
  {
    seq(|addrs|, i requires 0 <= i < |addrs| => BP(addrs[i], NOP))
  }

  function Loaded(regs: Regs, bps: seq<BP>): (s: State)
    ensures Lifecycle(s)
  {
    Opened(regs, TEXT).(bps := bps)
  }

  lemma Opens(h: Host, regs: Regs, text: int)
    ensures RunSession(h, Fresh(regs), [] + [Load(Some(File(text)))]) == Done(Opened(regs, text), Quiet)
  {
    FileIsAccepted(text);
    Then(h, Fresh(regs), [], Load(Some(File(text))));
  }

  lemma {:induction false} SetUp(h: Host, regs: Regs, addrs: seq<int>)
    requires Plain(addrs)
    ensures RunSession(h, Fresh(regs), Setup(addrs)) == Done(Loaded(regs, Listed(addrs)), Quiet)
    decreases |addrs|
  {
    if addrs == [] {
      Opens(h, regs, TEXT);
      assert [] + [Load(Some(File(TEXT)))] == Setup(addrs);
      assert Listed(addrs) == [];
    } else {
      var n := |addrs| - 1;
      SetUp(h, regs, addrs[..n]);
      ThenBreak(h, Fresh(regs), Setup(addrs[..n]), Loaded(regs, Listed(addrs[..n])), addrs[n]);
      assert addrs[..n + 1] == addrs;
      AcceptsPlain(regs, addrs, n);
    }
  }

  lemma AcceptsPlain(regs: Regs, addrs: seq<int>, n: nat)
    requires Plain(addrs) && n < |addrs|
    ensures SetBp(Loaded(regs, Listed(addrs[..n])), addrs[n]) == Loaded(regs, Listed(addrs[..n + 1]))
  {
    var s := Loaded(regs, Listed(addrs[..n]));
    assert TextSection(s) == TextHeader(TEXT);
    assert FileByte(s, addrs[n]) == Bytes()[addrs[n] - TEXT];
    assert Listed(addrs[..n]) + [BP(addrs[n], NOP)] == Listed(addrs[..n + 1]);
  }

  /** The process started at `rip` after breakpoints have been set, before anything has looked at it. */
  function Begun(regs: Regs, addrs: seq<int>, rip: int): (s: State)
    ensures Lifecycle(s)
  {
    Launched(Loaded(regs, Listed(addrs)), Entry(rip))
  }

  lemma BegunIs(regs: Regs, addrs: seq<int>, rip: int)
    ensures var s := Begun(regs, addrs, rip);
            && s.phase == RUNNING && s.base == 0 && s.last == TEXT + SIZE && s.bps == Listed(addrs) && s.bpIdx == -1
            && s.tracee == Tracee(CoreAt(rip), Install(Code(), Listed(addrs)), Code(), CoreAt(rip))
            && TextSection(s) == TextHeader(TEXT)
  {
    var s := Loaded(regs, Listed(addrs));
    assert TextSection(s) == TextHeader(TEXT);
    assert LoadBase(s, Entry(rip)) == 0;
    assert Rebased(Listed(addrs), 0) == Listed(addrs);
  }

  function Starting(addrs: seq<int>, rip: int): seq<Command> {
    Setup(addrs) + [Start(Entry(rip))]
  }

  lemma Starts(h: Host, regs: Regs, addrs: seq<int>, rip: int)
    requires Plain(addrs)
    ensures RunSession(h, Fresh(regs), Starting(addrs, rip)) == Checked(Begun(regs, addrs, rip))
  {
    SetUp(h, regs, addrs);
    ThenStart(h, Fresh(regs), Setup(addrs), Loaded(regs, Listed(addrs)), Entry(rip));
  }

  /** Stopped by the `i`-th breakpoint, at its address. */
  function Standing(regs: Regs, addrs: seq<int>, i: nat): (s: State)
    requires i < |addrs|
    ensures Lifecycle(s)
  {
    var s := Begun(regs, addrs, addrs[i]);
    s.(bpIdx := i, regs := Regs(addrs[i], map[]),
       tracee := s.tracee.(core := AtRip(s.tracee.core, addrs[i] + 1)))
  }

  function Running(addrs: seq<int>, i: nat): seq<Command>
    requires i < |addrs|
  {
    Setup(addrs) + [Exec(Entry(addrs[i]), Sched(None, 1))]
  }

  lemma BeginsOnTrap(regs: Regs, addrs: seq<int>, i: nat)
    requires Plain(addrs) && i < |addrs| && addrs[i] + WORD_SIZE <= TEXT + SIZE
    ensures Trapping(Begun(regs, addrs, addrs[i]).tracee.text, addrs[i])
  {
    BegunIs(regs, addrs, addrs[i]);
    InstallExact(Code(), Listed(addrs));
    assert Listed(addrs)[i].addr in Addrs(Listed(addrs));
  }

  lemma OnlyMatch(addrs: seq<int>, i: nat)
    requires Plain(addrs) && i < |addrs|
    ensures FirstMatch(Listed(addrs), addrs[i], 0) == i
  {
    var k := FirstMatch(Listed(addrs), addrs[i], 0);
    assert Listed(addrs)[i].addr == addrs[i];
  }

  lemma StopsOnTrap(h: Host, s: State, a: int)
    requires s.phase == RUNNING && s.bpIdx == -1 && s.tracee.core.regs.rip == a && Trapping(s.tracee.text, a)
    ensures Resume(h, s, Cont, Sched(None, 1)) == Checked(s.(tracee := s.tracee.(core := AtRip(s.tracee.core, a + 1))))
  {
  }

  lemma RunsFromEntry(h: Host, regs: Regs, addrs: seq<int>, i: nat)
    requires Plain(addrs) && i < |addrs|
    ensures RunSession(h, Fresh(regs), Running(addrs, i))
         == Resume(h, Begun(regs, addrs, addrs[i]), Cont, Sched(None, 1))
  {
    SetUp(h, regs, addrs);
    ThenExec(h, Fresh(regs), Setup(addrs), Loaded(regs, Listed(addrs)), Entry(addrs[i]), Sched(None, 1));
  }

  lemma CheckedStands(regs: Regs, addrs: seq<int>, i: nat)
    requires Plain(addrs) && i < |addrs|
    ensures var s := Begun(regs, addrs, addrs[i]);
            Checked(s.(tracee := s.tracee.(core := AtRip(s.tracee.core, addrs[i] + 1))))
            == Done(Standing(regs, addrs, i), Hit(addrs[i], HitCode(Standing(regs, addrs, i))))
  {
    BegunIs(regs, addrs, addrs[i]);
    OnlyMatch(addrs, i);
  }

  /** A run whose entry is the `i`-th breakpoint hits it at once. */
  lemma HitsBreakpoint(h: Host, regs: Regs, addrs: seq<int>, i: nat)
    requires Plain(addrs) && i < |addrs| && addrs[i] + WORD_SIZE <= TEXT + SIZE
    ensures var s := Standing(regs, addrs, i);
            RunSession(h, Fresh(regs), Running(addrs, i)) == Done(s, Hit(addrs[i], HitCode(s)))
  {
    RunsFromEntry(h, regs, addrs, i);
    BegunIs(regs, addrs, addrs[i]);
    BeginsOnTrap(regs, addrs, i);
    StopsOnTrap(h, Begun(regs, addrs, addrs[i]), addrs[i]);
    CheckedStands(regs, addrs, i);
  }

  // ------------------------------------------------------------------ failures of `delete`

  /** `delete 0` while standing on breakpoint 1 of two: the index is left past the end, and `cont` is undefined. */
  lemma DeletingBelowDangles(h: Host, regs: Regs, sched: Sched)
    ensures RunSession(h, Fresh(regs), Running([TEXT + 8, TEXT + 16], 1) + [Delete(0)] + [Continue(sched)]) == Undefined
  {
    var addrs := [TEXT + 8, TEXT + 16];
    var cmds := Running(addrs, 1);
    HitsBreakpoint(h, regs, addrs, 1);
    Then(h, Fresh(regs), cmds, Delete(0));
    Then(h, Fresh(regs), cmds + [Delete(0)], Continue(sched));
    BegunIs(regs, addrs, TEXT + 16);
    DeleteLeavesDanglingIff(Standing(regs, addrs, 1), sched, h, 0);
  }

  // ------------------------------------------------------------------ failures of `check_if_bp`

  /** What a command shows of where the process stands. */
  predicate ShowsRip(o: Outcome, rip: int) {
    o.Done? && o.s.phase == RUNNING && o.s.regs.rip == rip
  }

  /** With its only breakpoint put back for stepping, the process runs its own code. */
  lemma DisarmedRunsCode(regs: Regs, a: int)
    requires Plain([a])
    ensures Prepared(Standing(regs, [a], 0)).tracee == Tracee(CoreAt(a), Code(), Code(), CoreAt(a))
  {
    var s := Standing(regs, [a], 0);
    BegunIs(regs, [a], a);
    InstallExact(Code(), s.bps);
    SameKeysSameReadable(Code(), s.tracee.text);
    var text := Prepared(s).tracee.text;
    assert text.Keys == Code().Keys;
    assert forall x :: x in Code() ==> text[x] == Code()[x];
  }

  lemma StepStays(regs: Regs, sched: Sched)
    requires sched.fuel > 0 && sched.rearm != Some(0)
    ensures ShowsRip(Resume(SimpleHost(), Standing(regs, [TEXT + 8], 0), Single, sched), TEXT + 8)
  {
    var s := Standing(regs, [TEXT + 8], 0);
    BegunIs(regs, [TEXT + 8], TEXT + 8);
    DisarmedRunsCode(regs, TEXT + 8);
    StepOutcome(SimpleHost(), s, sched);
    assert s.bps[0].addr in Addrs(s.bps);
  }

  lemma GoesOnByOne()
    ensures Undebugged(SimpleCpu(), Code(), CoreAt(TEXT + 8), 1) == At(CoreAt(TEXT + 9))
  {
    OneStep(SimpleCpu(), Code(), CoreAt(TEXT + 8));
  }

  /** `si` from a breakpoint on a one-byte instruction: the process is shown, and resumed, where it was. */
  lemma SteppingOffOneByteInstruction(regs: Regs, sched: Sched)
    requires sched.fuel > 0 && sched.rearm != Some(0)
    ensures ShowsRip(RunSession(SimpleHost(), Fresh(regs), Running([TEXT + 8], 0)), TEXT + 8)
    ensures ShowsRip(RunSession(SimpleHost(), Fresh(regs), Running([TEXT + 8], 0) + [StepInto(sched)]), TEXT + 8)
    ensures Undebugged(SimpleCpu(), Code(), CoreAt(TEXT + 8), 1) == At(CoreAt(TEXT + 9))
  {
    HitsBreakpoint(SimpleHost(), regs, [TEXT + 8], 0);
    BegunIs(regs, [TEXT + 8], TEXT + 8);
    ThenResume(SimpleHost(), Fresh(regs), Running([TEXT + 8], 0), Standing(regs, [TEXT + 8], 0), Single, sched);
    StepStays(regs, sched);
    GoesOnByOne();
  }

  /** `set rip` to one past a breakpoint shows the breakpoint's address instead. */
  lemma SettingRipPastBreakpoint(h: Host, regs: Regs)
    ensures ShowsRip(RunSession(h, Fresh(regs), Starting([TEXT + 8], TEXT) + [SetReg("rip", TEXT + 9)]), TEXT + 8)
  {
    var addrs := [TEXT + 8];
    Starts(h, regs, addrs, TEXT);
    Then(h, Fresh(regs), Starting(addrs, TEXT), SetReg("rip", TEXT + 9));
    BegunIs(regs, addrs, TEXT);
    OnlyMatch(addrs, 0);
  }

  /** `start`, with a breakpoint one before the entry: the process that has done nothing is shown as having hit it. */
  lemma StartingPastBreakpoint(h: Host, regs: Regs)
    ensures var o := RunSession(h, Fresh(regs), Starting([TEXT + 8], TEXT + 9));
            ShowsRip(o, TEXT + 8) && o.report.Hit?
  {
    var addrs := [TEXT + 8];
    Starts(h, regs, addrs, TEXT + 9);
    BegunIs(regs, addrs, TEXT + 9);
    OnlyMatch(addrs, 0);
  }

  /** `start` again, with a breakpoint set one before where the process stands: it is shown there instead. */
  lemma RestartingPastBreakpoint(h: Host, regs: Regs, l: Launch)
    ensures var o := RunSession(h, Fresh(regs), Starting([], TEXT + 9) + [Break(TEXT + 8)]);
            ShowsRip(o, TEXT + 9)
    ensures var o := RunSession(h, Fresh(regs), Starting([], TEXT + 9) + [Break(TEXT + 8)] + [Start(l)]);
            ShowsRip(o, TEXT + 8) && o.report.Hit?
  {
    var cmds := Starting([], TEXT + 9);
    Starts(h, regs, [], TEXT + 9);
    BegunIs(regs, [], TEXT + 9);
    var s := RunSession(h, Fresh(regs), cmds).s;
    assert Accepts(s, TEXT + 8);
    ThenBreak(h, Fresh(regs), cmds, s, TEXT + 8);
    ThenStart(h, Fresh(regs), cmds + [Break(TEXT + 8)], SetBp(s, TEXT + 8), l);
  }

  // ------------------------------------------------------------------ failures of `break`

  lemma BreaksWhileRunning(h: Host, regs: Regs, a: int)
    requires TEXT <= a <= TEXT + SIZE
    ensures var o := RunSession(h, Fresh(regs), Starting([], TEXT) + [Break(a)]);
            o.Done? && o.s.bps == [BP(a, if a + WORD_SIZE <= TEXT + SIZE then Code()[a] else 0xFF)]
  {
    Starts(h, regs, [], TEXT);
    BegunIs(regs, [], TEXT);
    var s := RunSession(h, Fresh(regs), Starting([], TEXT)).s;
    assert Accepts(s, a);
    ThenBreak(h, Fresh(regs), Starting([], TEXT), s, a);
    SavedByteOfPeek(Code(), a);
    if TEXT + SIZE < a + WORD_SIZE {
      assert TEXT + SIZE !in Code();
    }
  }

  /** `break` at the end of the mapping is accepted, but there is no byte of the program to save. */
  lemma BreakPastTheEnd(h: Host, regs: Regs)
    ensures var o := RunSession(h, Fresh(regs), Starting([], TEXT) + [Break(TEXT + SIZE)]);
            o.Done? && o.s.bps == [BP(TEXT + SIZE, 0xFF)] && TEXT + SIZE !in Code()
  {
    BreaksWhileRunning(h, regs, TEXT + SIZE);
  }

  /** `break` in the last seven bytes before unmapped memory saves 0xFF instead of the program's byte. */
  lemma BreakNearTheEnd(h: Host, regs: Regs)
    ensures var o := RunSession(h, Fresh(regs), Starting([], TEXT) + [Break(TEXT + 60)]);
            o.Done? && o.s.bps == [BP(TEXT + 60, 0xFF)] && Code()[TEXT + 60] == NOP
  {
    BreaksWhileRunning(h, regs, TEXT + 60);
  }

  // ------------------------------------------------------------------ a re-arming write that is refused

  /** The first four instructions go round. */
  lemma {:induction false} GoesRound(p: nat, n: nat)
    requires p < 4
    ensures Undebugged(SimpleCpu(), Code(), CoreAt(TEXT + p), n) == At(CoreAt(TEXT + (p + n) % 4))
    ensures Run(SimpleCpu(), Cont, Code(), CoreAt(TEXT + p), n).Running?
    decreases n
  {
    if n > 0 {
      var q := (p + 1) % 4;
      assert Execute(SimpleCpu(), Code(), CoreAt(TEXT + p)) == Next(CoreAt(TEXT + q));
      GoesRound(q, n - 1);
      assert (q + (n - 1)) % 4 == (p + n) % 4;
    }
  }

  lemma ComesBack(rounds: nat)
    ensures Undebugged(SimpleCpu(), Code(), CoreAt(TEXT + 1), 4 * rounds) == At(CoreAt(TEXT + 1))
  {
    GoesRound(1, 4 * rounds);
  }

  lemma NeverStops(regs: Regs, wait: nat)
    ensures Resume(SimpleHost(), Standing(regs, [TEXT + 1], 0), Cont, Sched(None, wait)) == Blocked
  {
    DisarmedRunsCode(regs, TEXT + 1);
    var p: nat := 1;
    GoesRound(p, wait);
  }

  /**
   `cont` from a breakpoint whose re-arming write is refused: however long the debugger waits, the process
   does not stop, although the undebugged run comes back to the breakpoint every four instructions.
   */
  lemma RefusedRearmIsPassed(regs: Regs, wait: nat, rounds: nat)
    ensures ShowsRip(RunSession(SimpleHost(), Fresh(regs), Running([TEXT + 1], 0)), TEXT + 1)
    ensures RunSession(SimpleHost(), Fresh(regs), Running([TEXT + 1], 0) + [Continue(Sched(None, wait))]) == Blocked
    ensures Undebugged(SimpleCpu(), Code(), CoreAt(TEXT + 1), 4 * rounds) == At(CoreAt(TEXT + 1))
  {
    var addrs, sched := [TEXT + 1], Sched(None, wait);
    HitsBreakpoint(SimpleHost(), regs, addrs, 0);
    BegunIs(regs, addrs, TEXT + 1);
    ThenResume(SimpleHost(), Fresh(regs), Running(addrs, 0), Standing(regs, addrs, 0), Cont, sched);
    NeverStops(regs, wait);
    ComesBack(rounds);
  }

  // ------------------------------------------------------------------ the address `disasm` remembers

  const MOVED: int := 0x1000
  const LAST: int := MOVED + HEAD + SIZE - 1

  /** A program linked right behind its header, mapped elsewhere, about to end. */
  function Ending(): Launch {
    Mapping(MOVED + HEAD, LAST)
  }

  /** The process about to end, after `disasm` at one below its load base has found nothing to read. */
  function Viewed(regs: Regs): (s: State)
    ensures Lifecycle(s)
  {
    var s := Opened(regs, HEAD);
    s.(phase := RUNNING, pid := 1, base := MOVED, last := LAST + 1, regs := CoreAt(LAST).regs,
       lastDisasm := MOVED - 1,
       tracee := Tracee(Ending().core, Ending().text, Ending().text, Ending().core))
  }

  function Viewing(): seq<Command> {
    [] + [Load(Some(File(HEAD)))] + [Start(Ending())] + [Disasm(Some(MOVED - 1))]
  }

  lemma StartsMoved(regs: Regs)
    ensures Checked(Launched(Opened(regs, HEAD), Ending())) == Done(Viewed(regs).(lastDisasm := -1), Quiet)
  {
    var s := Opened(regs, HEAD);
    assert TextSection(s) == TextHeader(HEAD);
    assert LoadBase(s, Ending()) == MOVED;
    assert Rebased(s.bps, MOVED) == [];
  }

  lemma FindsNothing(h: Host, regs: Regs)
    ensures AfterDisasm(h, Viewed(regs).(lastDisasm := -1), Some(MOVED - 1)) == Viewed(regs)
  {
    var s := Viewed(regs).(lastDisasm := -1);
    assert MOVED - 1 !in s.tracee.text;
    assert CodeEnd(s, MOVED - 1) == MOVED - 1;
  }

  lemma Views(h: Host, regs: Regs)
    ensures Prompts(h, Fresh(regs), Viewing(), Viewed(regs))
  {
    var s, cmds := Fresh(regs), [] + [Load(Some(File(HEAD)))];
    Opens(h, regs, HEAD);
    ThenStart(h, s, cmds, Opened(regs, HEAD), Ending());
    StartsMoved(regs);
    Then(h, s, cmds + [Start(Ending())], Disasm(Some(MOVED - 1)));
    FindsNothing(h, regs);
  }

  lemma EndsAtOnce(regs: Regs, sched: Sched)
    requires sched.fuel > 0
    ensures Resume(SimpleHost(), Viewed(regs), Cont, sched) == Done(Terminated(Viewed(regs)), Ended(0))
  {
    var s := Viewed(regs);
    assert Execute(SimpleCpu(), s.tracee.text, s.tracee.core) == Exit(0);
  }

  /** `disasm` at one below the load base, and the program ends: the address it remembered is taken for none. */
  lemma DisasmAddressIsForgotten(regs: Regs, sched: Sched)
    requires sched.fuel > 0
    ensures var o := RunSession(SimpleHost(), Fresh(regs), Viewing());
            o.Done? && o.s.phase == RUNNING && RelativeDisasm(o.s) == Some(-1)
    ensures var o := RunSession(SimpleHost(), Fresh(regs), Viewing() + [Continue(sched)]);
            o.Done? && o.report == Ended(0) && RelativeDisasm(o.s) == None && DisasmFrom(o.s, None) == None
  {
    Views(SimpleHost(), regs);
    ThenResume(SimpleHost(), Fresh(regs), Viewing(), Viewed(regs), Cont, sched);
    EndsAtOnce(regs, sched);
  }

  // ------------------------------------------------------------------ a load base that is not found

  const LINK: int := 0x1000
  const BIAS: int := 0x10000
  const ELSEWHERE: int := LINK + 8 + LINK + BIAS - HEAD

  function Separate(): Launch {
    Mapping(LINK + BIAS, LINK + BIAS)
  }

  function Missing(): seq<Command> {
    [] + [Load(Some(File(LINK)))] + [Break(LINK + 8)] + [Start(Separate())]
  }

  lemma BreaksAtLink(regs: Regs)
    ensures SetBp(Opened(regs, LINK), LINK + 8) == Opened(regs, LINK).(bps := [BP(LINK + 8, NOP)])
  {
    var s := Opened(regs, LINK);
    assert TextSection(s) == TextHeader(LINK);
    assert FileByte(s, LINK + 8) == Bytes()[8];
  }

  lemma StartsUnarmed(regs: Regs)
    ensures var o := Checked(Launched(Opened(regs, LINK).(bps := [BP(LINK + 8, NOP)]), Separate()));
            && ShowsRip(o, LINK + BIAS)
            && o.s.bps == [BP(ELSEWHERE, NOP)]
            && o.s.tracee.text == Separate().text
  {
    var s := Opened(regs, LINK).(bps := [BP(LINK + 8, NOP)]);
    assert TextSection(s) == TextHeader(LINK);
    assert LoadBase(s, Separate()) == LINK + BIAS - HEAD;
    var bps := Rebased(s.bps, LINK + BIAS - HEAD);
    assert bps == [BP(ELSEWHERE, NOP)];
    assert ELSEWHERE !in Separate().text;
    assert bps[..0] == [];
    assert Install(Separate().text, bps) == Separate().text;
  }

  /**
   `break`, then `start` of a program linked at 0x1000 and mapped 0x10000 above that: the breakpoint goes to
   where nothing is mapped, and the instruction it was set on is not armed.
   */
  lemma BreakpointGoesElsewhere(h: Host, regs: Regs)
    ensures var o := RunSession(h, Fresh(regs), Missing());
            && ShowsRip(o, LINK + BIAS)
            && o.s.bps == [BP(ELSEWHERE, NOP)] && ELSEWHERE !in o.s.tracee.text
            && LINK + 8 + BIAS in o.s.tracee.text && o.s.tracee.text[LINK + 8 + BIAS] == NOP
    ensures LoadedAt(Program(LINK), Separate(), BIAS) && !FindsBase(Opened(regs, LINK), Separate(), BIAS)
  {
    var cmds := [] + [Load(Some(File(LINK)))];
    Opens(h, regs, LINK);
    ThenBreak(h, Fresh(regs), cmds, Opened(regs, LINK), LINK + 8);
    BreaksAtLink(regs);
    ThenStart(h, Fresh(regs), cmds + [Break(LINK + 8)], SetBp(Opened(regs, LINK), LINK + 8), Separate());
    StartsUnarmed(regs);
    NothingElseIsWrong(regs, LINK, LINK + BIAS, LINK + BIAS);
    LaunchMatchesIff(Program(LINK), Opened(regs, LINK), Separate(), BIAS);
  }
}
