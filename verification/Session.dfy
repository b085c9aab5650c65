/**
 The debugger's commands as functions on its whole state.
 What the kernel decides (where a program is mapped, how long a resumption runs,
 when a write to a running process lands) comes in as an argument of the command.
 */
module Session {
  import opened Words
  import opened Wrappers
  import opened Machine
  import Elf

  datatype Phase = BEGIN | LOADED | RUNNING

  datatype BP = BP(addr: int, saved: byte)

  /**
   The traced process. `origin` and `from` are history: its memory as it was mapped and the
   point its undebugged run is counted from. No command reads them.
   */
  datatype Tracee = Tracee(core: Core, text: Memory, origin: Memory, from: Core)

  datatype State = State(
    phase: Phase,
    elf: Option<Elf.File>,
    textIdx: int,
    bps: seq<BP>,
    base: int,
    last: int,
    lastDisasm: int,
    lastDump: int,
    bpIdx: int,
    regs: Regs,
    pid: int,
    tracee: Tracee)

  /** A new process as `fork`, `execvp` and `/proc/<pid>/maps` show it. */
  datatype Launch = Launch(pid: int, mapStart: int, mapEnd: int, text: Memory, core: Core)

  /**
   `rearm` says when the write that puts a stepped-over breakpoint back takes effect:
   after that many instructions (or at the stop, if the process stops sooner), or never.
   `fuel` is how many further instructions the debugger waits for.
   */
  datatype Sched = Sched(rearm: Option<nat>, fuel: nat)

  /** The processor, and the sizes of the instructions the disassembler finds in a buffer. */
  datatype Host = Host(cpu: Cpu, sizes: seq<byte> -> seq<nat>)

  datatype Command =
    | Load(file: Option<Elf.File>)
    | Break(addr: int)
    | Delete(idx: nat)
    | Show
    | Disasm(at: Option<int>)
    | Dump(from: Option<int>)
    | SetReg(name: string, value: int)
    | Start(launch: Launch)
    | Exec(launch: Launch, sched: Sched)
    | Continue(sched: Sched)
    | StepInto(sched: Sched)

  /** A hit shows its address and the bytes that the instruction there is disassembled from. */
  datatype Report = Quiet | Hit(addr: int, code: seq<byte>) | Ended(status: int)

  /** `Blocked`: the process has not stopped yet. `Undefined`: `bp_idx` indexes past the breakpoint list. */
  datatype Outcome = Done(s: State, report: Report) | Blocked | Undefined

  // ------------------------------------------------------------------ lifecycle

  /** What holds between any two commands, whatever was typed. */
  predicate Lifecycle(s: State) {
    && (s.phase != RUNNING ==> s.bpIdx == -1 && s.base == -1 && s.lastDump == -1 && s.pid == 0)
    && (s.phase == BEGIN ==> s.bps == [] && s.elf == None && s.textIdx == -1 && s.lastDisasm == -1)
    && (s.phase != BEGIN ==> s.elf.Some? && 0 <= s.textIdx < |s.elf.value.shdr|)
    && -1 <= s.bpIdx
  }

  function TextSection(s: State): Elf.Shdr
    requires Lifecycle(s) && s.phase != BEGIN
  {
    s.elf.value.shdr[s.textIdx]
  }

  function Addrs(bps: seq<BP>): set<int> {
    set i | 0 <= i < |bps| :: bps[i].addr
  }

  function LoadProg(s: State, file: Option<Elf.File>): State {
    if s.phase != BEGIN || file.None? || Elf.TextIndex(file.value).None? then s
    else s.(phase := LOADED, elf := file, textIdx := Elf.TextIndex(file.value).value)
  }

  // ------------------------------------------------------------------ breakpoints

  /** The byte at a link-time address of a section; 0 stands for a read past the end of the file. */
  function ByteAt(f: Elf.File, t: Elf.Shdr, addr: int): byte {
    var pos := t.offset + addr - t.addr;
    if 0 <= pos < |f.bytes| then f.bytes[pos] else 0
  }

  function FileByte(s: State, addr: int): byte
    requires Lifecycle(s) && s.phase != BEGIN
  {
    ByteAt(s.elf.value, TextSection(s), addr)
  }

  predicate Accepts(s: State, addr: int)
    requires Lifecycle(s)
  {
    && addr !in Addrs(s.bps)
    && match s.phase
       case BEGIN => false
       case LOADED => TextSection(s).addr <= addr < TextSection(s).addr + TextSection(s).size
       case RUNNING => TextSection(s).addr + s.base <= addr <= s.last
  }

  function SetBp(s: State, addr: int): State
    requires Lifecycle(s)
  {
    if !Accepts(s, addr) then s
    else if s.phase == LOADED then s.(bps := s.bps + [BP(addr, FileByte(s, addr))])
    else s.(bps := s.bps + [BP(addr, LowByte(PeekText(s.tracee.text, addr)))],
            tracee := s.tracee.(text := Patch(s.tracee.text, addr, INT3)))
  }

  function DeleteBp(s: State, idx: nat): State {
    if idx >= |s.bps| then s
    else
      var rest := s.bps[..idx] + s.bps[idx + 1..];
      if s.phase != RUNNING then s.(bps := rest)
      else
        var text := Patch(s.tracee.text, s.bps[idx].addr, s.bps[idx].saved);
        if s.bpIdx == idx then
          s.(bps := rest, bpIdx := -1, tracee := s.tracee.(text := text, core := s.tracee.core.(regs := s.regs)))
        else
          s.(bps := rest, tracee := s.tracee.(text := text))
  }

  function FirstMatch(bps: seq<BP>, addr: int, i: nat): (k: int)
    requires i <= |bps|
    ensures k == -1 <==> forall j :: i <= j < |bps| ==> bps[j].addr != addr
    ensures k != -1 ==> i <= k < |bps| && bps[k].addr == addr && forall j :: i <= j < k ==> bps[j].addr != addr
    decreases |bps| - i
  {
    if i == |bps| then -1 else if bps[i].addr == addr then i else FirstMatch(bps, addr, i + 1)
  }

  function CheckIfBp(s: State): State {
    var live := s.tracee.core.regs;
    var k := FirstMatch(s.bps, live.rip - 1, 0);
    s.(bpIdx := k, regs := if k != -1 then live.(rip := live.rip - 1) else live)
  }

  /** What `n` peeks in a row give, readable or not. */
  function Peeked(text: Memory, start: int, n: nat): (r: seq<byte>)
    ensures |r| == WORD_SIZE * n
    decreases n, start
  {
    if n == 0 then []
    else Peeked(text, start, n - 1) + BytesOf(PeekText(text, start + WORD_SIZE * (n - 1)), WORD_SIZE)
  }

  /** The buffer `check_if_bp` disassembles one instruction from: two words, with only the first byte put right. */
  function HitCode(s: State): (code: seq<byte>)
    requires 0 <= s.bpIdx < |s.bps|
    ensures |code| == 2 * WORD_SIZE
  {
    Peeked(s.tracee.text, s.regs.rip, 2)[0 := s.bps[s.bpIdx].saved]
  }

  function Checked(s: State): Outcome {
    var t := CheckIfBp(s);
    Done(t, if t.bpIdx != -1 then Hit(t.regs.rip, HitCode(t)) else Quiet)
  }

  const REG_NAMES: set<string> := {
    "r15", "r14", "r13", "r12", "rbp", "rbx", "r11", "r10", "r9", "r8", "rax", "rcx", "rdx", "rsi", "rdi",
    "orig_rax", "rip", "cs", "eflags", "rsp", "ss", "fs_base", "gs_base", "ds", "es", "fs", "gs"
  }

  function Assign(r: Regs, name: string, value: int): Regs {
    if name == "rip" then r.(rip := value) else r.(rest := r.rest[name := value])
  }

  /** Writing any register writes the whole cached set back; only `rip` looks for a breakpoint again. */
  function SetRegister(s: State, name: string, value: int): Outcome {
    if s.phase != RUNNING || name !in REG_NAMES then Done(s, Quiet)
    else
      var r := Assign(s.regs, name, value);
      var t := s.(regs := r, tracee := s.tracee.(core := s.tracee.core.(regs := r)));
      if name == "rip" then Checked(t) else Done(t, Quiet)
  }

  // ------------------------------------------------------------------ starting and ending

  function Rebased(bps: seq<BP>, delta: int): (r: seq<BP>)
    ensures |r| == |bps| && forall i :: 0 <= i < |r| ==> r[i] == BP(bps[i].addr + delta, bps[i].saved)
  {
    seq(|bps|, i requires 0 <= i < |bps| => BP(bps[i].addr + delta, bps[i].saved))
  }

  /** Arms one breakpoint after another. */
  function Install(text: Memory, bps: seq<BP>): Memory {
    if bps == [] then text
    else Patch(Install(text, bps[..|bps| - 1]), bps[|bps| - 1].addr, INT3)
  }

  function LoadBase(s: State, l: Launch): int
    requires Lifecycle(s) && s.phase != BEGIN
  {
    if l.mapStart + TextSection(s).offset == TextSection(s).addr then 0 else l.mapStart
  }

  /** A started process, before anything has looked at its registers. */
  function Launched(s: State, l: Launch): State
    requires Lifecycle(s) && s.phase == LOADED
  {
    var b := LoadBase(s, l);
    var bps := Rebased(s.bps, b);
    s.(phase := RUNNING, pid := l.pid, base := b, last := l.mapEnd, bps := bps,
       lastDisasm := if s.lastDisasm != -1 then s.lastDisasm + b else -1,
       tracee := Tracee(l.core, Install(l.text, bps), l.text, l.core))
  }

  function Terminated(s: State): State {
    s.(phase := LOADED, pid := 0, bps := Rebased(s.bps, -s.base),
       lastDisasm := if s.lastDisasm != -1 then s.lastDisasm - s.base else -1,
       base := -1, lastDump := -1, bpIdx := -1)
  }

  // ------------------------------------------------------------------ resuming

  /** Before a resumption: the current breakpoint's byte is put back and `rip` is moved onto it. */
  function Prepared(s: State): State
    requires s.bpIdx == -1 || 0 <= s.bpIdx < |s.bps|
  {
    if s.bpIdx == -1 then s
    else s.(tracee := s.tracee.(text := Patch(s.tracee.text, s.bps[s.bpIdx].addr, s.bps[s.bpIdx].saved),
                                core := s.tracee.core.(regs := s.regs)))
  }

  /** One resumption, with the breakpoint at `site` put back on the way; gives the text it ends with. */
  function Fly(cpu: Cpu, mode: Mode, text: Memory, c: Core, site: Option<int>, sched: Sched): (Status, Memory) {
    if site.None? || sched.rearm.None? then (Run(cpu, mode, text, c, sched.fuel), text)
    else
      var early := Run(cpu, mode, text, c, sched.rearm.value);
      var armed := Patch(text, site.value, INT3);
      if early.Running? then (Run(cpu, mode, armed, early.core, sched.fuel), armed)
      else (early, armed)
  }

  function Site(s: State): Option<int>
    requires s.bpIdx == -1 || 0 <= s.bpIdx < |s.bps|
  {
    if s.bpIdx == -1 then None else Some(s.bps[s.bpIdx].addr)
  }

  function Resume(h: Host, s: State, mode: Mode, sched: Sched): Outcome {
    if !(s.bpIdx == -1 || 0 <= s.bpIdx < |s.bps|) then Undefined
    else
      var p := Prepared(s);
      var (status, text) := Fly(h.cpu, mode, p.tracee.text, p.tracee.core, Site(s), sched);
      match status
      case Running(_) => Blocked
      case Stopped(c) => Checked(p.(tracee := p.tracee.(core := c, text := text)))
      case Exited(code) => Done(Terminated(p.(tracee := p.tracee.(text := text))), Ended(code))
  }

  // ------------------------------------------------------------------ showing code and memory

  const CODE_BYTES: nat := 112
  const CODE_WORDS: nat := 14

  /** How many of the words from the `i`-th on can be read one after the other, in all. */
  function ReadableWords(text: Memory, start: int, i: nat): (n: nat)
    requires i <= CODE_WORDS
    ensures i <= n <= CODE_WORDS
    ensures forall j :: i <= j < n ==> Readable(text, start + WORD_SIZE * j)
    ensures n < CODE_WORDS ==> !Readable(text, start + WORD_SIZE * n)
    decreases CODE_WORDS - i, start
  {
    if i == CODE_WORDS || !Readable(text, start + WORD_SIZE * i) then i
    else ReadableWords(text, start, i + 1)
  }

  /** Live memory where it can be read, zeros after that. */
  function LiveBytes(text: Memory, start: int): seq<byte> {
    var size := WORD_SIZE * ReadableWords(text, start, 0);
    seq<byte>(CODE_BYTES, j requires 0 <= j < CODE_BYTES =>
      if j < size && start + j in text then text[start + j] else 0)
  }

  /** Saved bytes laid over the first `size` bytes of a buffer, one breakpoint after another. */
  function Overlay(code: seq<byte>, bps: seq<BP>, start: int, size: int): (r: seq<byte>)
    requires size <= |code|
    ensures |r| == |code|
  {
    if bps == [] then code
    else
      var under := Overlay(code, bps[..|bps| - 1], start, size);
      var bp := bps[|bps| - 1];
      if start <= bp.addr < start + size then under[bp.addr - start := bp.saved] else under
  }

  function FileBytes(s: State, start: int): seq<byte>
    requires Lifecycle(s) && s.phase != BEGIN
  {
    seq<byte>(CODE_BYTES, j requires 0 <= j < CODE_BYTES => FileByte(s, start + j))
  }

  /** The buffer handed to the disassembler. */
  function CodeAt(s: State, start: int): seq<byte>
    requires Lifecycle(s) && s.phase != BEGIN
  {
    if s.phase == LOADED then FileBytes(s, start)
    else Overlay(LiveBytes(s.tracee.text, start), s.bps, start, WORD_SIZE * ReadableWords(s.tracee.text, start, 0))
  }

  function CodeEnd(s: State, start: int): int
    requires Lifecycle(s) && s.phase != BEGIN
  {
    if s.phase == LOADED then TextSection(s).addr + TextSection(s).size
    else start + WORD_SIZE * ReadableWords(s.tracee.text, start, 0)
  }

  /** Printed instructions, as address and size, up to the first that starts at or past `end`. */
  function Lines(start: int, end: int, sizes: seq<nat>): seq<(int, nat)>
    decreases |sizes|
  {
    if sizes == [] || start >= end then []
    else [(start, sizes[0])] + Lines(start + sizes[0], end, sizes[1..])
  }

  function LinesEnd(start: int, lines: seq<(int, nat)>): int {
    if lines == [] then start else lines[|lines| - 1].0 + lines[|lines| - 1].1
  }

  /** The address a `disasm` works from, or None when it only prints a message. */
  function DisasmFrom(s: State, at: Option<int>): Option<int>
    requires Lifecycle(s)
  {
    if s.phase == BEGIN || (at.None? && s.lastDisasm == -1) then None
    else
      var start := if at.Some? then at.value else s.lastDisasm;
      if start == -1 then None
      else if s.phase == LOADED && !(TextSection(s).addr <= start < TextSection(s).addr + TextSection(s).size) then None
      else Some(start)
  }

  function Disassembled(h: Host, s: State, at: Option<int>): seq<(int, nat)>
    requires Lifecycle(s)
  {
    match DisasmFrom(s, at)
    case None => []
    case Some(start) => Lines(start, CodeEnd(s, start), h.sizes(CodeAt(s, start)))
  }

  function AfterDisasm(h: Host, s: State, at: Option<int>): State
    requires Lifecycle(s)
  {
    match DisasmFrom(s, at)
    case None => s
    case Some(start) => s.(lastDisasm := LinesEnd(start, Disassembled(h, s, at)))
  }

  /** A dump reads ten words, two to a line, and gives up at a line whose first word is unreadable. */
  function DumpEnd(text: Memory, start: int, i: nat): int
    decreases 10 - i, start
  {
    if i >= 10 || (i % 2 == 0 && !Readable(text, start)) then start else DumpEnd(text, start + WORD_SIZE, i + 1)
  }

  function AfterDump(s: State, from: Option<int>): State {
    if s.phase != RUNNING || (from.None? && s.lastDump == -1) then s
    else s.(lastDump := DumpEnd(s.tracee.text, if from.Some? then from.value else s.lastDump, 0))
  }

  // ------------------------------------------------------------------ one command

  function Perform(h: Host, s: State, cmd: Command): Outcome
    requires Lifecycle(s)
  {
    match cmd
    case Load(file) => Done(LoadProg(s, file), Quiet)
    case Break(addr) => Done(SetBp(s, addr), Quiet)
    case Delete(idx) => Done(DeleteBp(s, idx), Quiet)
    case Show => Done(s, Quiet)
    case Disasm(at) => Done(AfterDisasm(h, s, at), Quiet)
    case Dump(from) => Done(AfterDump(s, from), Quiet)
    case SetReg(name, value) => SetRegister(s, name, value)
    case Start(l) =>
      if s.phase == BEGIN then Done(s, Quiet)
      else Checked(if s.phase == LOADED then Launched(s, l) else s)
    case Exec(l, sched) =>
      if s.phase == BEGIN then Done(s, Quiet)
      else Resume(h, if s.phase == LOADED then Launched(s, l) else s, Cont, sched)
    case Continue(sched) => if s.phase != RUNNING then Done(s, Quiet) else Resume(h, s, Cont, sched)
    case StepInto(sched) => if s.phase != RUNNING then Done(s, Quiet) else Resume(h, s, Single, sched)
  }

  lemma LaunchedKeepsLifecycle(s: State, l: Launch)
    requires Lifecycle(s) && s.phase == LOADED
    ensures Lifecycle(Launched(s, l))
  {
  }

  lemma TerminatedKeepsLifecycle(s: State)
    requires Lifecycle(s) && s.phase == RUNNING
    ensures Lifecycle(Terminated(s))
  {
  }

  /** The state moves a command can make; a program can also start and end within one `run`. */
  predicate Moves(from: Phase, to: Phase) {
    || from == to
    || (from == BEGIN && to == LOADED)
    || (from == LOADED && to == RUNNING)
    || (from == RUNNING && to == LOADED)
  }

  predicate Lives(from: Phase, o: Outcome) {
    o.Done? ==> Lifecycle(o.s) && Moves(from, o.s.phase)
  }

  lemma ResumeKeepsLifecycle(h: Host, s: State, mode: Mode, sched: Sched)
    requires Lifecycle(s) && s.phase == RUNNING
    ensures var o := Resume(h, s, mode, sched);
            o.Done? ==> Lifecycle(o.s) && (o.s.phase == RUNNING || o.s.phase == LOADED)
  {
  }

  lemma SetBpKeepsLifecycle(s: State, addr: int)
    requires Lifecycle(s)
    ensures Lifecycle(SetBp(s, addr)) && SetBp(s, addr).phase == s.phase
  {
  }

  lemma DeleteBpKeepsLifecycle(s: State, idx: nat)
    requires Lifecycle(s)
    ensures Lifecycle(DeleteBp(s, idx)) && DeleteBp(s, idx).phase == s.phase
  {
  }

  lemma CheckKeepsLifecycle(s: State)
    requires Lifecycle(s) && s.phase == RUNNING
    ensures Lifecycle(CheckIfBp(s)) && CheckIfBp(s).phase == RUNNING
  {
  }

  lemma ListingKeepsLifecycle(h: Host, s: State, at: Option<int>)
    requires Lifecycle(s)
    ensures Lifecycle(AfterDisasm(h, s, at)) && AfterDisasm(h, s, at).phase == s.phase
  {
    if s.phase == BEGIN {
      assert DisasmFrom(s, at) == None;
    }
  }

  lemma StartKeepsLifecycle(h: Host, s: State, l: Launch)
    requires Lifecycle(s)
    ensures Lives(s.phase, Perform(h, s, Start(l)))
  {
    if s.phase == LOADED {
      LaunchedKeepsLifecycle(s, l);
      CheckKeepsLifecycle(Launched(s, l));
    } else if s.phase == RUNNING {
      CheckKeepsLifecycle(s);
    }
  }

  lemma PerformKeepsLifecycle(h: Host, s: State, cmd: Command)
    requires Lifecycle(s)
    ensures Lives(s.phase, Perform(h, s, cmd))
  {
    match cmd
    case Load(_) =>
    case Break(addr) => SetBpKeepsLifecycle(s, addr);
    case Delete(idx) => DeleteBpKeepsLifecycle(s, idx);
    case Show =>
    case Disasm(at) => ListingKeepsLifecycle(h, s, at);
    case Dump(_) =>
    case SetReg(_, _) =>
    case Start(l) => StartKeepsLifecycle(h, s, l);
    case Exec(l, sched) =>
      if s.phase == LOADED {
        LaunchedKeepsLifecycle(s, l);
        ResumeKeepsLifecycle(h, Launched(s, l), Cont, sched);
      } else if s.phase == RUNNING {
        ResumeKeepsLifecycle(h, s, Cont, sched);
      }
    case Continue(sched) => if s.phase == RUNNING { ResumeKeepsLifecycle(h, s, Cont, sched); }
    case StepInto(sched) => if s.phase == RUNNING { ResumeKeepsLifecycle(h, s, Single, sched); }
  }

  /** The debugger's state before its first command. */
  function Fresh(regs: Regs): State {
    var none := Core(regs, map[]);
    State(BEGIN, None, -1, [], -1, 0, -1, -1, -1, regs, 0, Tracee(none, map[], map[], none))
  }

  /** A whole session: commands in order until one does not return. */
  function RunSession(h: Host, s: State, cmds: seq<Command>): (o: Outcome)
    requires Lifecycle(s)
    ensures o.Done? ==> Lifecycle(o.s)
    decreases |cmds|
  {
    if cmds == [] then Done(s, Quiet)
    else
      var before := RunSession(h, s, cmds[..|cmds| - 1]);
      if !before.Done? then before
      else
        PerformKeepsLifecycle(h, before.s, cmds[|cmds| - 1]);
        Perform(h, before.s, cmds[|cmds| - 1])
  }

  /** A session that stops returning stays that way. */
  lemma {:induction false} PrefixReturns(h: Host, s: State, cmds: seq<Command>, k: nat)
    requires Lifecycle(s) && k <= |cmds| && !RunSession(h, s, cmds[..k]).Done?
    ensures RunSession(h, s, cmds) == RunSession(h, s, cmds[..k])
    decreases |cmds|
  {
    if k == |cmds| {
      assert cmds[..k] == cmds;
    } else {
      var n := |cmds| - 1;
      assert cmds[..n][..k] == cmds[..k];
      PrefixReturns(h, s, cmds[..n], k);
    }
  }

  lemma NextCommand(h: Host, s: State, cmds: seq<Command>, i: nat)
    requires Lifecycle(s) && i < |cmds| && RunSession(h, s, cmds[..i]).Done?
    ensures RunSession(h, s, cmds[..i + 1]) == Perform(h, RunSession(h, s, cmds[..i]).s, cmds[i])
    ensures RunSession(h, s, cmds) != Undefined ==> RunSession(h, s, cmds[..i + 1]) != Undefined
  {
    assert cmds[..i + 1][..i] == cmds[..i];
    if RunSession(h, s, cmds[..i + 1]) == Undefined {
      PrefixReturns(h, s, cmds, i + 1);
    }
  }
}
