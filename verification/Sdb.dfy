/** The debugger itself: each command updates the fields in place and is what `Session` says it is. */
module Sdb {
  import opened Words
  import opened Wrappers
  import opened Machine
  import opened Session
  import Elf

  datatype Condition = Halted | Flying | Dead(code: int)

  /** The traced process behind the `ptrace` requests. */
  class Process {
    const cpu: Cpu
    var text: Memory
    var core: Core
    var condition: Condition
    var mode: Mode
    ghost var seen: Core    // as of the last stop or register write
    ghost var origin: Memory
    ghost var from: Core

    constructor (cpu: Cpu, core: Core)
      ensures this.cpu == cpu && View() == Tracee(core, map[], map[], core)
    {
      this.cpu := cpu;
      text, this.core, condition, mode := map[], core, Dead(0), Cont;
      seen, origin, from := core, map[], core;
    }

    ghost function View(): Tracee
      reads this
    {
      Tracee(seen, text, origin, from)
    }

    ghost predicate AtStop()
      reads this
    {
      condition == Halted && seen == core
    }

    /** `fork`, `execvp` and the stop that follows. */
    method Launch(l: Launch)
      modifies this
      ensures AtStop() && View() == Tracee(l.core, l.text, l.text, l.core)
    {
      text, core, condition := l.text, l.core, Halted;
      seen, origin, from := l.core, l.text, l.core;
    }

    method Peek(a: int) returns (w: nat)
      ensures w == PeekText(text, a)
    {
      w := PeekText(text, a);
    }

    method Poke(a: int, w: nat)
      modifies this`text
      ensures text == PokeText(old(text), a, w)
    {
      text := PokeText(text, a, w);
    }

    method SetRegs(regs: Regs)
      requires AtStop()
      modifies this`core, this`seen
      ensures AtStop() && core == old(core).(regs := regs)
    {
      core := core.(regs := regs);
      seen := core;
    }

    method Resume(mode: Mode)
      requires AtStop()
      modifies this`condition, this`mode
      ensures condition == Flying && this.mode == mode
    {
      condition, this.mode := Flying, mode;
    }

    ghost predicate After(s: Status)
      reads this
    {
      match s
      case Running(c) => condition == Flying && core == c
      case Stopped(c) => AtStop() && core == c
      case Exited(code) => condition == Dead(code)
    }

    /** Lets a resumed process execute at most `n` more instructions. */
    method Advance(n: nat)
      requires condition == Flying
      modifies this`condition, this`core, this`seen
      ensures After(Run(cpu, mode, text, old(core), n))
      ensures condition.Halted? || seen == old(seen)
    {
      var left := n;
      while left > 0 && condition == Flying
        invariant 0 <= left <= n
        invariant condition == Flying ==> Run(cpu, mode, text, old(core), n) == Run(cpu, mode, text, core, left)
        invariant condition != Flying ==> After(Run(cpu, mode, text, old(core), n))
        invariant condition.Halted? || seen == old(seen)
        decreases left
      {
        match Execute(cpu, text, core) {
          case Next(d) =>
            core := d;
            if mode == Single {
              condition := Halted;
              seen := core;
            }
          case Trap(d) =>
            core, condition := d, Halted;
            seen := core;
          case Exit(code) =>
            condition := Dead(code);
        }
        left := left - 1;
      }
    }
  }

  predicate Holds(text: Memory, a: int, b: byte) {
    a in text && text[a] == b
  }

  /** A code buffer whose first `size` bytes have been read from live memory. */
  ghost predicate Copied(text: Memory, start: int, code: seq<byte>, size: nat) {
    && size <= |code| == CODE_BYTES
    && (forall j :: 0 <= j < size ==> Holds(text, start + j, code[j]))
    && (forall j :: size <= j < CODE_BYTES ==> code[j] == 0)
  }

  lemma CopyWord(text: Memory, start: int, code: seq<byte>, size: nat)
    requires Copied(text, start, code, size) && size + WORD_SIZE <= CODE_BYTES && Readable(text, start + size)
    ensures var bytes := BytesOf(PeekText(text, start + size), WORD_SIZE);
            Copied(text, start, code[..size] + bytes + code[size + WORD_SIZE..], size + WORD_SIZE)
  {
    BytesOfPeek(text, start + size);
    var bytes := BytesOf(PeekText(text, start + size), WORD_SIZE);
    var longer := code[..size] + bytes + code[size + WORD_SIZE..];
    assert forall j :: size + WORD_SIZE <= j < CODE_BYTES ==> longer[j] == code[j];
    forall j | 0 <= j < size + WORD_SIZE
      ensures Holds(text, start + j, longer[j])
    {
      if j < size {
        assert longer[j] == code[j];
      } else {
        assert longer[j] == bytes[j - size] == text[start + size + (j - size)];
      }
    }
  }

  lemma CopiedIsLive(text: Memory, start: int, code: seq<byte>, size: nat)
    requires Copied(text, start, code, size) && size == WORD_SIZE * ReadableWords(text, start, 0)
    ensures code == LiveBytes(text, start)
  {
    var live := LiveBytes(text, start);
    forall j | 0 <= j < CODE_BYTES
      ensures code[j] == live[j]
    {
      assert j < size ==> Holds(text, start + j, code[j]);
    }
  }

  class SDB {
    const host: Host
    const process: Process
    var current: Phase
    var eh: Elf.Handle?
    var textIdx: int
    var targetPid: int
    var breakPoints: seq<BP>
    var baseAddr: int
    var lastAddr: int
    var lastDisasm: int
    var lastDump: int
    var regs: Regs
    var bpIdx: int

    constructor (host: Host, regs: Regs)
      ensures this.host == host && fresh(process) && Ready()
      ensures View() == Fresh(regs)
    {
      this.host := host;
      process := new Process(host.cpu, Core(regs, map[]));
      current, textIdx, eh, targetPid := BEGIN, -1, null, 0;
      baseAddr, lastAddr, lastDisasm, lastDump, bpIdx := -1, 0, -1, -1, -1;
      breakPoints, this.regs := [], regs;
    }

    ghost function View(): State
      reads this, process
    {
      State(current, if eh == null then None else Some(eh.file), textIdx, breakPoints, baseAddr, lastAddr,
            lastDisasm, lastDump, bpIdx, regs, targetPid, process.View())
    }

    /** Holds at every prompt. */
    ghost predicate Ready()
      reads this, process
    {
      Lifecycle(View()) && process.cpu == host.cpu && (current == RUNNING ==> process.AtStop())
    }

    method LoadProg(file: Option<Elf.File>)
      requires Ready()
      modifies this`current, this`eh, this`textIdx
      ensures Ready() && View() == Session.LoadProg(old(View()), file)
    {
      if current != BEGIN || file.None? {
        return;
      }
      var handle := new Elf.Handle(file.value);
      var ok := handle.LoadAll();
      if ok {
        var names := handle.FindTab(handle.file.shstrndx);
        if names.Some? {
          var idx := handle.FindText(names.value);
          if idx != -1 {
            eh, textIdx, current := handle, idx, LOADED;
          }
        }
      }
    }

    method SetBp(addr: int)
      requires Ready()
      modifies this`breakPoints, process`text
      ensures Ready() && View() == Session.SetBp(old(View()), addr)
    {
      var i := 0;
      while i < |breakPoints|
        invariant 0 <= i <= |breakPoints|
        invariant forall j :: 0 <= j < i ==> breakPoints[j].addr != addr
      {
        if breakPoints[i].addr == addr {
          assert addr in Addrs(View().bps);
          return;
        }
        i := i + 1;
      }
      assert addr !in Addrs(View().bps);
      if current == LOADED {
        var t := eh.file.shdr[textIdx];
        if t.addr <= addr < t.addr + t.size {
          var pos := t.offset + addr - t.addr;
          var b: byte := if 0 <= pos < |eh.file.bytes| then eh.file.bytes[pos] else 0;
          breakPoints := breakPoints + [BP(addr, b)];
        }
      } else if current == RUNNING {
        if eh.file.shdr[textIdx].addr + baseAddr <= addr <= lastAddr {
          var w := process.Peek(addr);
          breakPoints := breakPoints + [BP(addr, LowByte(w))];
          PokeIsPatch(process.text, addr, INT3);
          process.Poke(addr, SetLow(w, INT3));
        }
      }
    }

    method DeleteBp(idx: nat)
      requires Ready()
      modifies this`breakPoints, this`bpIdx, process`text, process`core, process`seen
      ensures Ready() && View() == Session.DeleteBp(old(View()), idx)
    {
      if idx >= |breakPoints| {
        return;
      }
      if current == RUNNING {
        var w := process.Peek(breakPoints[idx].addr);
        PokeIsPatch(process.text, breakPoints[idx].addr, breakPoints[idx].saved);
        process.Poke(breakPoints[idx].addr, SetLow(w, breakPoints[idx].saved));
        if bpIdx == idx {
          bpIdx := -1;
          process.SetRegs(regs);
        }
      }
      breakPoints := breakPoints[..idx] + breakPoints[idx + 1..];
    }

    method CheckIfBp() returns (report: Report)
      requires process.AtStop()
      modifies this`bpIdx, this`regs
      ensures Checked(old(View())) == Done(View(), report)
    {
      regs := process.core.regs;
      bpIdx := -1;
      var i := 0;
      while i < |breakPoints|
        invariant 0 <= i <= |breakPoints| && bpIdx == -1 && regs == process.core.regs
        invariant FirstMatch(breakPoints, regs.rip - 1, i) == FirstMatch(breakPoints, regs.rip - 1, 0)
      {
        if breakPoints[i].addr == regs.rip - 1 {
          bpIdx := i;
          break;
        }
        i := i + 1;
      }
      report := Quiet;
      if bpIdx != -1 {
        regs := regs.(rip := regs.rip - 1);
        var code := ReadHit();
        report := Hit(regs.rip, code);
      }
    }

    /** Reads the two words at a breakpoint that was hit, and puts the byte it saved first. */
    method ReadHit() returns (code: seq<byte>)
      requires 0 <= bpIdx < |breakPoints|
      ensures code == HitCode(View())
    {
      code := [];
      var i := 0;
      while i < 2
        invariant 0 <= i <= 2
        invariant code == Peeked(process.text, regs.rip, i)
      {
        var w := process.Peek(regs.rip + WORD_SIZE * i);
        code := code + BytesOf(w, WORD_SIZE);
        i := i + 1;
      }
      code := code[0 := breakPoints[bpIdx].saved];
    }

    method SetReg(name: string, value: int) returns (report: Report)
      requires Ready()
      modifies this`bpIdx, this`regs, process`core, process`seen
      ensures Ready() && SetRegister(old(View()), name, value) == Done(View(), report)
    {
      report := Quiet;
      if current == RUNNING && name in REG_NAMES {
        regs := Assign(regs, name, value);
        process.SetRegs(regs);
        if name == "rip" {
          report := CheckIfBp();
        }
      }
    }

    /** The loop of `exec_impl`: each address is moved to where it is mapped, then armed. */
    method RebaseAndArm()
      modifies this`breakPoints, process`text
      ensures breakPoints == Rebased(old(breakPoints), baseAddr)
      ensures process.text == Install(old(process.text), breakPoints)
    {
      ghost var was, bps := breakPoints, Rebased(breakPoints, baseAddr);
      var i := 0;
      while i < |breakPoints|
        invariant 0 <= i <= |breakPoints| == |bps|
        invariant forall j :: 0 <= j < |bps| ==> breakPoints[j] == if j < i then bps[j] else was[j]
        invariant process.text == Install(old(process.text), bps[..i])
      {
        breakPoints := breakPoints[i := breakPoints[i].(addr := breakPoints[i].addr + baseAddr)];
        assert bps[..i + 1][..i] == bps[..i];
        var w := process.Peek(breakPoints[i].addr);
        PokeIsPatch(process.text, breakPoints[i].addr, INT3);
        process.Poke(breakPoints[i].addr, SetLow(w, INT3));
        i := i + 1;
      }
      assert bps[..i] == bps == breakPoints;
    }

    /** Reads the load base off the process map; a program linked to run where it lies has base 0. */
    method Locate(l: Launch)
      requires Ready() && current == LOADED
      modifies this`baseAddr, this`lastAddr
      ensures baseAddr == LoadBase(old(View()), l) && lastAddr == l.mapEnd
    {
      var t := eh.file.shdr[textIdx];
      baseAddr, lastAddr := l.mapStart, l.mapEnd;
      if baseAddr + t.offset == t.addr {
        baseAddr := 0;
      }
    }

    /** The debugger's half of a new process. */
    method Begin(l: Launch)
      requires Ready() && current == LOADED
      modifies this, process
      ensures process.AtStop() && View() == Launched(old(View()), l)
    {
      Locate(l);
      targetPid := l.pid;
      process.Launch(l);
      RebaseAndArm();
      if lastDisasm != -1 {
        lastDisasm := lastDisasm + baseAddr;
      }
      current := RUNNING;
    }

    /** The loop of `program_terminated`. */
    method Unrebase()
      modifies this`breakPoints
      ensures breakPoints == Rebased(old(breakPoints), -baseAddr)
    {
      ghost var was, bps := breakPoints, Rebased(breakPoints, -baseAddr);
      var i := 0;
      while i < |breakPoints|
        invariant 0 <= i <= |breakPoints| == |bps|
        invariant forall j :: 0 <= j < |bps| ==> breakPoints[j] == if j < i then bps[j] else was[j]
      {
        breakPoints := breakPoints[i := breakPoints[i].(addr := breakPoints[i].addr - baseAddr)];
        i := i + 1;
      }
    }

    method ProgramTerminated()
      modifies this
      ensures View() == Terminated(old(View()))
    {
      current, targetPid := LOADED, 0;
      Unrebase();
      if lastDisasm != -1 {
        lastDisasm := lastDisasm - baseAddr;
      }
      baseAddr, lastDump, bpIdx := -1, -1, -1;
    }

    /**
     Sends the process off. `rearm` is the kernel's answer to the write that puts the current
     breakpoint back: it lands after that many instructions, or it is refused.
     */
    method ContinueImpl(mode: Mode, rearm: Option<nat>)
      requires Ready() && current == RUNNING && (bpIdx == -1 || 0 <= bpIdx < |breakPoints|)
      modifies process
      ensures var p, k := Prepared(old(View())), if rearm.Some? then rearm.value else 0;
              var lands := rearm.Some? && bpIdx != -1;
              && process.mode == mode && process.origin == old(process.origin) && process.from == old(process.from)
              && (process.condition.Halted? || process.seen == p.tracee.core)
              && process.text == (if lands then Patch(p.tracee.text, breakPoints[bpIdx].addr, INT3) else p.tracee.text)
              && process.After(Run(host.cpu, mode, p.tracee.text, p.tracee.core, if lands then k else 0))
    {
      ghost var p := Prepared(View());
      var w := 0;
      if bpIdx != -1 {
        var bp := breakPoints[bpIdx];
        w := process.Peek(bp.addr);
        PokeIsPatch(process.text, bp.addr, bp.saved);
        PokeAgainIsPatch(process.text, bp.addr, bp.saved, INT3);
        w := SetLow(w, bp.saved);
        process.Poke(bp.addr, w);
        process.SetRegs(regs);
      }
      process.Resume(mode);
      if bpIdx != -1 {
        w := SetLow(w, INT3);
        if rearm.Some? {
          process.Advance(rearm.value);
          process.Poke(breakPoints[bpIdx].addr, w);
        }
      }
    }

    /** `waitpid` after a resumption, and what `run` does with its answer. */
    method Wait(fuel: nat) returns (report: Option<Report>)
      requires Lifecycle(View()) && current == RUNNING && process.cpu == host.cpu
      requires process.condition == Halted ==> process.AtStop()
      modifies this, process
      ensures old(process.condition) == Flying ==>
                match Run(host.cpu, old(process.mode), old(process.text), old(process.core), fuel)
                case Running(_) => report == None
                case Stopped(c) =>
                  && Ready() && report.Some?
                  && Done(View(), report.value) == Checked(old(View()).(tracee := old(process.View()).(core := c)))
                case Exited(code) => Ready() && report == Some(Ended(code)) && View() == Terminated(old(View()))
      ensures old(process.condition) == Halted ==>
                Ready() && report.Some? && Done(View(), report.value) == Checked(old(View()))
      ensures old(process.condition).Dead? ==>
                Ready() && report == Some(Ended(old(process.condition).code)) && View() == Terminated(old(View()))
    {
      if process.condition == Flying {
        process.Advance(fuel);
      }
      match process.condition
      case Flying => report := None;
      case Halted =>
        var r := CheckIfBp();
        report := Some(r);
      case Dead(code) =>
        TerminatedKeepsLifecycle(View());
        ProgramTerminated();
        report := Some(Ended(code));
    }

    /** A resumption as `run` carries it out; None while the process has not stopped. */
    method Go(mode: Mode, sched: Sched) returns (report: Option<Report>)
      requires Ready() && current == RUNNING && (bpIdx == -1 || 0 <= bpIdx < |breakPoints|)
      modifies this, process
      ensures Resume(host, old(View()), mode, sched)
           == if report.None? then Blocked else Done(View(), report.value)
      ensures report.Some? ==> Ready()
    {
      ghost var s := View();
      ContinueImpl(mode, sched.rearm);
      report := Wait(sched.fuel);
    }

    // ---------------------------------------------------------------- showing code and memory

    /** Peeks the next word into the buffer, unless the kernel reports in `errno` that it cannot. */
    method AppendWord(start: int, code: seq<byte>, size: nat) returns (ok: bool, longer: seq<byte>)
      requires Copied(process.text, start, code, size) && size + WORD_SIZE <= CODE_BYTES
      ensures ok == Readable(process.text, start + size)
      ensures Copied(process.text, start, longer, if ok then size + WORD_SIZE else size)
    {
      var w := process.Peek(start + size);
      ok, longer := Readable(process.text, start + size), code;
      if ok {
        CopyWord(process.text, start, code, size);
        longer := code[..size] + BytesOf(w, WORD_SIZE) + code[size + WORD_SIZE..];
      }
    }

    /** Reads words until one cannot be read; what was not read stays zero. */
    method ReadLive(start: int) returns (code: seq<byte>, size: nat)
      ensures size == WORD_SIZE * ReadableWords(process.text, start, 0) <= |code|
      ensures code == LiveBytes(process.text, start)
    {
      code := seq<byte>(CODE_BYTES, _ => 0);
      size := 0;
      var i := 0;
      while i < CODE_WORDS
        invariant 0 <= i <= CODE_WORDS && size == WORD_SIZE * i
        invariant ReadableWords(process.text, start, i) == ReadableWords(process.text, start, 0)
        invariant Copied(process.text, start, code, size)
      {
        var ok;
        ok, code := AppendWord(start, code, size);
        if !ok {
          break;
        }
        size := size + WORD_SIZE;
        i := i + 1;
      }
      CopiedIsLive(process.text, start, code, size);
    }

    method OverlaySaved(buffer: seq<byte>, start: int, size: nat) returns (code: seq<byte>)
      requires size <= |buffer|
      ensures code == Overlay(buffer, breakPoints, start, size)
    {
      code := buffer;
      var i := 0;
      while i < |breakPoints|
        invariant 0 <= i <= |breakPoints|
        invariant code == Overlay(buffer, breakPoints[..i], start, size)
      {
        var bp := breakPoints[i];
        assert breakPoints[..i + 1][..i] == breakPoints[..i];
        if start <= bp.addr < start + size {
          code := code[bp.addr - start := bp.saved];
        }
        i := i + 1;
      }
      assert breakPoints[..i] == breakPoints;
    }

    method DisAsm(at: Option<int>) returns (lines: seq<(int, nat)>)
      requires Ready()
      modifies this`lastDisasm
      ensures Ready() && View() == AfterDisasm(host, old(View()), at)
      ensures lines == Disassembled(host, old(View()), at)
    {
      lines := [];
      if current == BEGIN || (at.None? && lastDisasm == -1) {
        return;
      }
      var start := if at.Some? then at.value else lastDisasm;
      if current == LOADED {
        var t := eh.file.shdr[textIdx];
        if !(t.addr <= start < t.addr + t.size) {
          return;
        }
      }
      if start != -1 {
        var code, end := ReadCode(start);
        lines, lastDisasm := PrintLines(start, end, host.sizes(code));
      }
    }

    method ReadCode(start: int) returns (code: seq<byte>, end: int)
      requires Ready() && current != BEGIN
      ensures code == CodeAt(View(), start) && end == CodeEnd(View(), start)
    {
      if current == LOADED {
        code := ReadFile(start);
        end := eh.file.shdr[textIdx].addr + eh.file.shdr[textIdx].size;
      } else {
        var size;
        code, size := ReadLive(start);
        code := OverlaySaved(code, start, size);
        end := start + size;
      }
    }

    method ReadFile(start: int) returns (code: seq<byte>)
      requires Ready() && current == LOADED
      ensures code == FileBytes(View(), start)
    {
      var file, pos := eh.file, eh.file.shdr[textIdx].offset + start - eh.file.shdr[textIdx].addr;
      code := seq<byte>(CODE_BYTES, j requires 0 <= j < CODE_BYTES =>
        if 0 <= pos + j < |file.bytes| then file.bytes[pos + j] else 0);
      ghost var expected := FileBytes(View(), start);
      assert forall j :: 0 <= j < CODE_BYTES ==> code[j] == FileByte(View(), start + j) == expected[j];
    }

    static method PrintLines(start: int, end: int, sizes: seq<nat>) returns (lines: seq<(int, nat)>, next: int)
      ensures lines == Lines(start, end, sizes) && next == LinesEnd(start, lines)
    {
      lines, next := [], start;
      var i := 0;
      while i < |sizes| && next < end
        invariant 0 <= i <= |sizes| && next == LinesEnd(start, lines)
        invariant lines + Lines(next, end, sizes[i..]) == Lines(start, end, sizes)
      {
        assert sizes[i..][1..] == sizes[i + 1..];
        ghost var rest := Lines(next + sizes[i], end, sizes[i + 1..]);
        assert lines + ([(next, sizes[i])] + rest) == lines + [(next, sizes[i])] + rest;
        lines := lines + [(next, sizes[i])];
        next := next + sizes[i];
        i := i + 1;
      }
    }

    method DumpMem(from: Option<int>)
      requires Ready()
      modifies this`lastDump
      ensures Ready() && View() == AfterDump(old(View()), from)
    {
      if current != RUNNING || (from.None? && lastDump == -1) {
        return;
      }
      var start := if from.Some? then from.value else lastDump;
      ghost var first := start;
      var i := 0;
      while i < 10
        invariant 0 <= i <= 10
        invariant DumpEnd(process.text, start, i) == DumpEnd(process.text, first, 0)
      {
        if i % 2 == 0 && !Readable(process.text, start) {
          break;
        }
        start := start + WORD_SIZE;
        i := i + 1;
      }
      lastDump := start;
    }

    // ---------------------------------------------------------------- the command loop

    method ExecImpl(l: Launch, sched: Option<Sched>) returns (report: Option<Report>)
      requires Ready() && (sched.Some? ==> bpIdx == -1 || 0 <= bpIdx < |breakPoints|)
      modifies this, process
      ensures report.Some? ==> Ready()
      ensures Session.Perform(host, old(View()), if sched.Some? then Exec(l, sched.value) else Start(l))
           == if report.None? then Blocked else Done(View(), report.value)
    {
      if current == BEGIN {
        return Some(Quiet);
      }
      if current == LOADED {
        LaunchedKeepsLifecycle(View(), l);
        Begin(l);
      }
      if sched.None? {
        var r := CheckIfBp();
        report := Some(r);
      } else {
        report := Go(Cont, sched.value);
      }
    }

    /** One round of `run`: the command, and the wait when it let the process go. */
    method Perform(cmd: Command) returns (report: Option<Report>)
      requires Ready() && Session.Perform(host, View(), cmd) != Undefined
      modifies this, process
      ensures report.Some? ==> Ready()
      ensures Session.Perform(host, old(View()), cmd)
           == if report.None? then Blocked else Done(View(), report.value)
    {
      report := Some(Quiet);
      match cmd
      case Load(file) => LoadProg(file);
      case Break(addr) => SetBp(addr);
      case Delete(idx) => DeleteBp(idx);
      case Show =>
      case Disasm(at) => var _ := DisAsm(at);
      case Dump(from) => DumpMem(from);
      case SetReg(name, value) =>
        var r := SetReg(name, value);
        report := Some(r);
      case Start(l) => report := ExecImpl(l, None);
      case Exec(l, sched) => report := ExecImpl(l, Some(sched));
      case Continue(sched) => if current == RUNNING { report := Go(Cont, sched); }
      case StepInto(sched) => if current == RUNNING { report := Go(Single, sched); }
    }

    /** The command loop itself, over a whole input. */
    method RunAll(cmds: seq<Command>) returns (report: Option<Report>)
      requires Ready() && RunSession(host, View(), cmds) != Undefined
      modifies this, process
      ensures report.Some? ==> Ready()
      ensures RunSession(host, old(View()), cmds)
           == if report.None? then Blocked else Done(View(), report.value)
    {
      report := Some(Quiet);
      ghost var s := View();
      var i := 0;
      while i < |cmds| && report.Some?
        invariant 0 <= i <= |cmds|
        invariant report.Some? ==> Ready()
        invariant RunSession(host, s, cmds[..i]) == if report.None? then Blocked else Done(View(), report.value)
      {
        NextCommand(host, s, cmds, i);
        report := Perform(cmds[i]);
        i := i + 1;
      }
      if report.None? {
        PrefixReturns(host, s, cmds, i);
      } else {
        assert cmds[..i] == cmds;
      }
    }
  }
}
