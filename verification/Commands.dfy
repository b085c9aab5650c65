/** What each command does, told in the file's bytes, addresses and registers themselves. */
module Commands {
  import opened Words
  import opened Wrappers
  import opened Machine
  import opened Session
  import opened Invariants
  import Elf

  // ------------------------------------------------------------------ `load`

  /** The header string table calls section `k` ".text". */
  predicate CallsText(f: Elf.File, k: nat)
    requires k < |f.shdr|
  {
    && 0 <= f.shstrndx < |f.shdr|
    && var names, at := f.shdr[f.shstrndx], f.shdr[k].name;
       && 0 <= names.offset && names.offset + names.size <= |f.bytes| && 0 <= at && at + 6 <= names.size
       && f.bytes[names.offset + at..names.offset + at + 6] == [0x2e, 0x74, 0x65, 0x78, 0x74, 0]
  }

  /** A file that can be debugged: every string table (kind 3) is in it, and one of them names a `.text`. */
  predicate Acceptable(f: Elf.File) {
    && f.phnum > 0 && 0 <= f.shstrndx < |f.shdr| && f.shdr[f.shstrndx].kind == 3
    && (forall i: nat :: i < |f.shdr| && f.shdr[i].kind == 3 ==> Elf.InFile(f, i))
    && exists k: nat :: k < |f.shdr| && CallsText(f, k)
  }

  /** The first section called `.text`, by the header string table's own bytes. */
  predicate FirstCalled(f: Elf.File, k: nat) {
    k < |f.shdr| && CallsText(f, k) && forall j: nat :: j < k ==> !CallsText(f, j)
  }

  /** Once there is a file, the chosen section is the first called `.text`. */
  predicate TextChosen(s: State) {
    s.phase != BEGIN ==>
      s.elf.Some? && 0 <= s.textIdx && FirstCalled(s.elf.value, s.textIdx)
  }

  lemma NamedIsCalled(f: Elf.File, k: nat)
    requires k < |f.shdr| && 0 <= f.shstrndx < |f.shdr| && Elf.Section(f, f.shstrndx).Some?
    ensures Elf.NamedText(Elf.Section(f, f.shstrndx).value, f.shdr[k].name) <==> CallsText(f, k)
  {
    Elf.SectionIsRead(f, f.shstrndx);
    var names, t, at := Elf.Section(f, f.shstrndx).value, f.shdr[f.shstrndx], f.shdr[k].name;
    if 0 <= at && at + 6 <= |names| {
      assert names[at..at + 6] == f.bytes[t.offset + at..t.offset + at + 6];
    }
  }

  lemma TablesInFile(f: Elf.File)
    ensures (forall i: nat :: i < |f.shdr| && Elf.IsStrTab(f, i) ==> Elf.Section(f, i).Some?)
       <==> (forall i: nat :: i < |f.shdr| && f.shdr[i].kind == 3 ==> Elf.InFile(f, i))
  {
    forall i: nat | i < |f.shdr|
      ensures Elf.Section(f, i).Some? <==> Elf.InFile(f, i)
      ensures Elf.IsStrTab(f, i) <==> f.shdr[i].kind == 3
    {
      Elf.SectionIsRead(f, i);
    }
  }

  lemma AcceptedNamesText(f: Elf.File)
    requires Elf.TextIndex(f).Some?
    ensures Acceptable(f) && FirstCalled(f, Elf.TextIndex(f).value)
  {
    Elf.TextIndexExact(f);
    TablesInFile(f);
    var k := Elf.TextIndex(f).value;
    forall j: nat | j < |f.shdr|
      ensures Elf.NamedText(Elf.Section(f, f.shstrndx).value, f.shdr[j].name) <==> CallsText(f, j)
    {
      NamedIsCalled(f, j);
    }
    assert CallsText(f, k);
  }

  lemma AcceptableHasText(f: Elf.File)
    requires Acceptable(f)
    ensures Elf.TextIndex(f).Some?
  {
    Elf.TextIndexExact(f);
    TablesInFile(f);
    var k: nat :| k < |f.shdr| && CallsText(f, k);
    var names: nat := f.shstrndx;
    assert Elf.IsStrTab(f, names);
    NamedIsCalled(f, k);
  }

  /** `load` takes the file if nothing is loaded yet and it is acceptable, and otherwise changes nothing. */
  lemma LoadDoes(h: Host, s: State, file: Option<Elf.File>)
    requires Lifecycle(s)
    ensures var o := Perform(h, s, Load(file));
            && o.Done? && o.report == Quiet
            && if s.phase == BEGIN && file.Some? && Acceptable(file.value) then
                 o.s == s.(phase := LOADED, elf := file, textIdx := o.s.textIdx) && TextChosen(o.s)
               else o.s == s
  {
    if file.Some? {
      if Elf.TextIndex(file.value).Some? {
        AcceptedNamesText(file.value);
      } else if Acceptable(file.value) {
        AcceptableHasText(file.value);
      }
    }
  }

  lemma PerformKeepsText(h: Host, s: State, cmd: Command)
    requires Lifecycle(s) && TextChosen(s)
    ensures var o := Perform(h, s, cmd); o.Done? ==> TextChosen(o.s)
  {
    if s.phase != BEGIN {
      PerformKeepsFile(h, s, cmd);
    } else if cmd.Load? {
      LoadDoes(h, s, cmd.file);
    }
  }

  /** Whatever was typed, the section that addresses are checked against is the first called `.text`. */
  lemma {:induction false} SessionKeepsText(h: Host, s: State, cmds: seq<Command>)
    requires Lifecycle(s) && TextChosen(s)
    ensures var o := RunSession(h, s, cmds); o.Done? ==> TextChosen(o.s)
    decreases |cmds|
  {
    if cmds != [] {
      var n := |cmds| - 1;
      SessionKeepsText(h, s, cmds[..n]);
      var before := RunSession(h, s, cmds[..n]);
      if before.Done? {
        PerformKeepsText(h, before.s, cmds[n]);
      }
    }
  }

  // ------------------------------------------------------------------ `break` and `delete`

  /** `k` is `m` with `b` at `a`, where a whole word can be written there. */
  ghost predicate Rewrites(m: Memory, k: Memory, a: int, b: byte) {
    k.Keys == m.Keys && forall x :: x in m ==> k[x] == if x == a && Readable(m, a) then b else m[x]
  }

  lemma PatchRewrites(m: Memory, a: int, b: byte)
    ensures Rewrites(m, Patch(m, a, b), a, b)
  {
  }

  /** An address that is not listed yet, in `.text` before the launch, up to the mapping's end after it. */
  predicate InRange(s: State, addr: int)
    requires Lifecycle(s)
  {
    && (forall i :: 0 <= i < |s.bps| ==> s.bps[i].addr != addr)
    && s.phase != BEGIN
    && var t := s.elf.value.shdr[s.textIdx];
       if s.phase == LOADED then t.addr <= addr < t.addr + t.size else t.addr + s.base <= addr <= s.last
  }

  /** The saved byte: the file's at the address's place in `.text`, or the live one, or 0xFF if it cannot be peeked. */
  predicate Saves(s: State, addr: int, b: byte)
    requires Lifecycle(s) && s.phase != BEGIN
  {
    if s.phase == RUNNING then b == if Readable(s.tracee.text, addr) then s.tracee.text[addr] else 0xFF
    else
      var f, t := s.elf.value, s.elf.value.shdr[s.textIdx];
      var pos := t.offset + (addr - t.addr);
      0 <= pos < |f.bytes| ==> b == f.bytes[pos]
  }

  /** `break` appends one breakpoint, and puts 0xCC at it in a running process; or it changes nothing. */
  lemma BreakDoes(h: Host, s: State, addr: int)
    requires Lifecycle(s)
    ensures var o := Perform(h, s, Break(addr));
            && o.Done? && o.report == Quiet
            && if !InRange(s, addr) then o.s == s
               else
                 && |o.s.bps| == |s.bps| + 1 && o.s.bps[..|s.bps|] == s.bps
                 && o.s.bps[|s.bps|].addr == addr && Saves(s, addr, o.s.bps[|s.bps|].saved)
                 && o.s == s.(bps := o.s.bps, tracee := s.tracee.(text := o.s.tracee.text))
                 && if s.phase == RUNNING then Rewrites(s.tracee.text, o.s.tracee.text, addr, 0xCC)
                    else o.s.tracee.text == s.tracee.text
  {
    assert addr in Addrs(s.bps) <==> exists i :: 0 <= i < |s.bps| && s.bps[i].addr == addr;
    if s.phase == RUNNING {
      SavedByteOfPeek(s.tracee.text, addr);
      PatchRewrites(s.tracee.text, addr, INT3);
    }
  }

  /** `delete` takes one breakpoint off the list and, in a running process, puts its byte back. */
  lemma DeleteDoes(h: Host, s: State, idx: nat)
    requires Lifecycle(s)
    ensures var o := Perform(h, s, Delete(idx));
            && o.Done? && o.report == Quiet
            && if idx >= |s.bps| then o.s == s
               else
                 && |o.s.bps| == |s.bps| - 1
                 && (forall i :: 0 <= i < |o.s.bps| ==> o.s.bps[i] == s.bps[if i < idx then i else i + 1])
                 && if s.phase != RUNNING then o.s == s.(bps := o.s.bps)
                    else
                      && Rewrites(s.tracee.text, o.s.tracee.text, s.bps[idx].addr, s.bps[idx].saved)
                      && var t := s.(bps := o.s.bps, tracee := s.tracee.(text := o.s.tracee.text));
                         o.s == if s.bpIdx != idx then t
                                else t.(bpIdx := -1, tracee := t.tracee.(core := s.tracee.core.(regs := s.regs)))
  {
    if idx < |s.bps| && s.phase == RUNNING {
      PatchRewrites(s.tracee.text, s.bps[idx].addr, s.bps[idx].saved);
    }
  }

  // ------------------------------------------------------------------ looking at a stopped process

  /**
   What is shown of live registers: they themselves, or, when a listed address is one before `rip`, a hit of
   the first such, with `rip` there.
   */
  predicate Looks(o: Outcome, live: Regs, bps: seq<BP>) {
    && o.Done? && o.s.bps == bps
    && if forall i :: 0 <= i < |bps| ==> bps[i].addr != live.rip - 1 then
         o.s.bpIdx == -1 && o.s.regs == live && o.report == Quiet
       else
         && 0 <= o.s.bpIdx < |bps| && bps[o.s.bpIdx].addr == live.rip - 1
         && (forall i :: 0 <= i < o.s.bpIdx ==> bps[i].addr != live.rip - 1)
         && o.s.regs == live.(rip := live.rip - 1) && o.report.Hit? && o.report.addr == live.rip - 1
  }

  lemma CheckedLooks(s: State)
    ensures Looks(Checked(s), s.tracee.core.regs, s.bps)
    ensures Checked(s).s == s.(bpIdx := Checked(s).s.bpIdx, regs := Checked(s).s.regs)
  {
  }

  /** `set` changes one register and writes all that are shown to the process; `rip` is then looked at. */
  lemma SetDoes(h: Host, s: State, name: string, value: int)
    requires Lifecycle(s)
    ensures var o := Perform(h, s, SetReg(name, value));
            && o.Done?
            && if s.phase != RUNNING || name !in REG_NAMES then o.s == s && o.report == Quiet
               else
                 var r := if name == "rip" then Regs(value, s.regs.rest)
                          else Regs(s.regs.rip, s.regs.rest[name := value]);
                 var t := s.(tracee := s.tracee.(core := Core(r, s.tracee.core.data)));
                 if name == "rip" then Looks(o, r, s.bps) && o.s == t.(bpIdx := o.s.bpIdx, regs := o.s.regs)
                 else o.s == t.(regs := r) && o.report == Quiet
  {
    if s.phase == RUNNING && name == "rip" {
      var r := Assign(s.regs, name, value);
      CheckedLooks(s.(regs := r, tracee := s.tracee.(core := s.tracee.core.(regs := r))));
    }
  }

  /** Commands that only print change nothing. */
  lemma ShowDoes(h: Host, s: State)
    requires Lifecycle(s)
    ensures Perform(h, s, Show) == Done(s, Quiet)
  {
  }

  // ------------------------------------------------------------------ starting and ending

  predicate MovedBy(bps: seq<BP>, moved: seq<BP>, delta: int) {
    |moved| == |bps| && forall i :: 0 <= i < |bps| ==> moved[i] == BP(bps[i].addr + delta, bps[i].saved)
  }

  /** The listed bytes that can be written hold 0xCC, all others are as they were mapped. */
  ghost predicate Armed(mapped: Memory, text: Memory, bps: seq<BP>) {
    && text.Keys == mapped.Keys
    && (forall i :: 0 <= i < |bps| && Readable(mapped, bps[i].addr) ==>
          bps[i].addr in text && text[bps[i].addr] == 0xCC)
    && (forall x :: x in mapped && (forall i :: 0 <= i < |bps| ==> bps[i].addr != x) ==> text[x] == mapped[x])
    && (forall x :: x in mapped && !Readable(mapped, x) ==> text[x] == mapped[x])
  }

  /** `t` is `s` with a process started: addresses moved by the load base, breakpoints armed. */
  ghost predicate Begins(s: State, l: Launch, t: State)
    requires Lifecycle(s) && s.phase == LOADED
  {
    var text := s.elf.value.shdr[s.textIdx];
    && t.phase == RUNNING && t.elf == s.elf && t.textIdx == s.textIdx
    && t.pid == l.pid && t.last == l.mapEnd && t.lastDump == s.lastDump
    && t.base == (if l.mapStart + text.offset == text.addr then 0 else l.mapStart)
    && MovedBy(s.bps, t.bps, t.base)
    && t.lastDisasm == (if s.lastDisasm == -1 then -1 else s.lastDisasm + t.base)
    && t.tracee.core == l.core && t.tracee.from == l.core && t.tracee.origin == l.text
    && Armed(l.text, t.tracee.text, t.bps)
  }

  lemma InstallArms(mapped: Memory, bps: seq<BP>)
    ensures Armed(mapped, Install(mapped, bps), bps)
  {
    InstallExact(mapped, bps);
    assert Install(mapped, bps).Keys == mapped.Keys;
    forall i | 0 <= i < |bps| && Readable(mapped, bps[i].addr)
      ensures bps[i].addr in mapped && bps[i].addr in Addrs(bps)
    {
      var a := bps[i].addr;
      assert a in mapped;
    }
  }

  lemma LaunchedBegins(s: State, l: Launch)
    requires Lifecycle(s) && s.phase == LOADED
    ensures Begins(s, l, Launched(s, l)) && Launched(s, l).bpIdx == -1
  {
    InstallArms(l.text, Launched(s, l).bps);
  }

  /** `start` begins a process, or finds one there; either way it looks at its registers. */
  lemma StartDoes(h: Host, s: State, l: Launch)
    requires Lifecycle(s)
    ensures var o := Perform(h, s, Start(l));
            match s.phase
            case BEGIN => o == Done(s, Quiet)
            case LOADED => o.Done? && Begins(s, l, o.s) && Looks(o, l.core.regs, o.s.bps)
            case RUNNING => Looks(o, s.tracee.core.regs, s.bps) && o.s == s.(bpIdx := o.s.bpIdx, regs := o.s.regs)
  {
    if s.phase == LOADED {
      LaunchedBegins(s, l);
      CheckedLooks(Launched(s, l));
    } else if s.phase == RUNNING {
      CheckedLooks(s);
    }
  }

  /** `t` is `s` after its process has ended: addresses moved back, what belonged to the process forgotten. */
  predicate Ends(s: State, t: State) {
    && t.phase == LOADED && t.elf == s.elf && t.textIdx == s.textIdx
    && t.pid == 0 && t.base == -1 && t.lastDump == -1 && t.bpIdx == -1
    && MovedBy(s.bps, t.bps, -s.base)
    && t.lastDisasm == (if s.lastDisasm == -1 then -1 else s.lastDisasm - s.base)
  }

  /** A stopped process again: only its registers, its data and the byte it started from can be others. */
  ghost predicate Stops(s: State, sched: Sched, o: Outcome)
    requires s.bpIdx == -1 || 0 <= s.bpIdx < |s.bps|
  {
    && o.Done? && Looks(o, o.s.tracee.core.regs, s.bps)
    && o.s == s.(bpIdx := o.s.bpIdx, regs := o.s.regs,
                 tracee := s.tracee.(core := o.s.tracee.core, text := o.s.tracee.text))
    && if s.bpIdx == -1 then o.s.tracee.text == s.tracee.text
       else
         var bp := s.bps[s.bpIdx];
         Rewrites(s.tracee.text, o.s.tracee.text, bp.addr, if sched.rearm.Some? then 0xCC else bp.saved)
  }

  /** What a resumption leaves of the debugger's own state, and of the text. */
  ghost predicate Comes(s: State, sched: Sched, o: Outcome) {
    match o
    case Undefined => s.bpIdx >= |s.bps| && s.bpIdx != -1
    case Blocked => s.bpIdx < |s.bps|
    case Done(t, report) =>
      s.bpIdx < |s.bps| && -1 <= s.bpIdx && if report.Ended? then Ends(s, t) else Stops(s, sched, o)
  }

  lemma PatchTwiceRewrites(m: Memory, a: int, b: byte, c: byte)
    ensures Rewrites(m, Patch(Patch(m, a, b), a, c), a, c)
  {
    SameKeysSameReadable(m, Patch(m, a, b));
  }

  lemma ResumeComes(h: Host, s: State, mode: Mode, sched: Sched)
    requires Lifecycle(s) && s.phase == RUNNING
    ensures Comes(s, sched, Resume(h, s, mode, sched))
  {
    if s.bpIdx < |s.bps| {
      var p := Prepared(s);
      var (status, text) := Fly(h.cpu, mode, p.tracee.text, p.tracee.core, Site(s), sched);
      if s.bpIdx != -1 {
        var bp := s.bps[s.bpIdx];
        PatchRewrites(s.tracee.text, bp.addr, bp.saved);
        PatchTwiceRewrites(s.tracee.text, bp.addr, bp.saved, INT3);
      }
      if status.Stopped? {
        CheckedLooks(p.(tracee := p.tracee.(core := status.core, text := text)));
      }
    }
  }

  /** `run`, `cont` and `si` resume a process, the first one that it has begun if there was none. */
  lemma ResumingDoes(h: Host, s: State, cmd: Command)
    requires Lifecycle(s) && (cmd.Exec? || cmd.Continue? || cmd.StepInto?)
    ensures var o := Perform(h, s, cmd);
            match s.phase
            case BEGIN => o == Done(s, Quiet)
            case LOADED =>
              if !cmd.Exec? then o == Done(s, Quiet)
              else exists t :: Begins(s, cmd.launch, t) && t.bpIdx == -1 && Comes(t, cmd.sched, o)
            case RUNNING => Comes(s, cmd.sched, o)
  {
    if s.phase == LOADED && cmd.Exec? {
      var t := Launched(s, cmd.launch);
      LaunchedBegins(s, cmd.launch);
      LaunchedKeepsLifecycle(s, cmd.launch);
      ResumeComes(h, t, Cont, cmd.sched);
      assert Begins(s, cmd.launch, t) && t.bpIdx == -1 && Comes(t, cmd.sched, Perform(h, s, cmd));
    } else if s.phase == RUNNING {
      ResumeComes(h, s, if cmd.StepInto? then Single else Cont, cmd.sched);
    }
  }
}
