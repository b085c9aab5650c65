/** Debugging does not change the run: what the user sees at each stop is a point of the undebugged run. */
module Transparency {
  import opened Words
  import opened Wrappers
  import opened Machine
  import opened Session
  import opened Invariants

  /** The process as the user sees it, and as it will be when it is resumed. */
  function Effective(s: State): Core {
    s.tracee.core.(regs := s.regs)
  }

  /** The live registers are the shown ones, or stand one past the current breakpoint, as its trap left them. */
  predicate LiveShown(s: State) {
    s.phase == RUNNING ==>
      || s.tracee.core.regs == s.regs
      || (s.bpIdx != -1 && s.tracee.core.regs == s.regs.(rip := s.regs.rip + 1))
  }

  ghost predicate Track(w: World, s: State) {
    s.phase == RUNNING ==>
      LiveShown(s) && Reaches(w.host.cpu, s.tracee.origin, s.tracee.from, At(Effective(s)))
  }

  lemma CheckSettles(s: State)
    ensures Effective(CheckIfBp(s)) == Settle(s.tracee.core, Addrs(s.bps))
    ensures LiveShown(CheckIfBp(s))
    ensures CheckIfBp(s).bpIdx != -1 <==> s.tracee.core.regs.rip - 1 in Addrs(s.bps)
  {
    if s.tracee.core.regs.rip - 1 in Addrs(s.bps) {
      var i := AddrsIndex(s.bps, s.tracee.core.regs.rip - 1);
    }
  }

  // ------------------------------------------------------------------ one resumption

  function ArmedText(s: State): Memory
    requires s.bpIdx == -1 || 0 <= s.bpIdx < |s.bps|
  {
    if s.bpIdx == -1 then Prepared(s).tracee.text
    else Patch(Prepared(s).tracee.text, s.bps[s.bpIdx].addr, INT3)
  }

  /** After how many instructions of a resumption a re-arming write lands, if there is one. */
  function Landing(s: State, sched: Sched): Option<nat> {
    if s.bpIdx == -1 then None else sched.rearm
  }

  /** How many instructions of a resumption the debugger waits for. */
  function Waited(s: State, sched: Sched): nat {
    sched.fuel + if Landing(s, sched).Some? then Landing(s, sched).value else 0
  }

  /** The text in force after `i` instructions of a resumption whose re-arming write lands after `k`. */
  function TextAt(text: Memory, armed: Memory, k: Option<nat>, i: nat): Memory {
    if k.Some? && k.value <= i then armed else text
  }

  /** Arming the current breakpoint early cannot make a step end untrapped where it otherwise would not. */
  lemma ArmedStepsOnto(cpu: Cpu, mode: Mode, text: Memory, armed: Memory, origin: Memory, listed: set<int>, c: Core)
    requires FetchesOnly(cpu) && NotInside(cpu, origin, listed, c.regs.rip)
    requires Framed(text, origin, listed) && Framed(armed, origin, listed)
    requires c.regs.rip in text ==> text[c.regs.rip] == armed[c.regs.rip] || armed[c.regs.rip] == INT3
    requires !StepsOnto(cpu, mode, text, c, listed)
    ensures !StepsOnto(cpu, mode, armed, c, listed)
  {
    var rip := c.regs.rip;
    if rip !in armed || armed[rip] != INT3 {
      SameInstruction(cpu, text, origin, listed, c);
      SameInstruction(cpu, armed, origin, listed, c);
    }
  }

  lemma FlyMatches(cpu: Cpu, mode: Mode, text: Memory, origin: Memory, listed: set<int>, c: Core,
                   site: Option<int>, sched: Sched)
    requires FetchesOnly(cpu) && Framed(text, origin, listed) && OnStarts(cpu, origin, listed, c)
    requires site.Some? ==> Framed(Patch(text, site.value, INT3), origin, listed)
    requires !StepsOnto(cpu, mode, text, c, listed)
    ensures Matches(cpu, origin, listed, c, Fly(cpu, mode, text, c, site, sched).0)
  {
    RunMatches(cpu, mode, text, origin, listed, c, sched.fuel);
    if site.Some? && sched.rearm.Some? {
      var k, armed := sched.rearm.value, Patch(text, site.value, INT3);
      RunMatches(cpu, mode, text, origin, listed, c, k);
      var early := Run(cpu, mode, text, c, k);
      if early.Running? {
        var d := early.core;
        var m: nat :| Undebugged(cpu, origin, c, m) == At(d);
        OnStartsLater(cpu, origin, listed, c, m);
        if mode == Single {
          RunningSingleIsFresh(cpu, text, c, k);
          ArmedStepsOnto(cpu, mode, text, armed, origin, listed, c);
        }
        RunMatches(cpu, mode, armed, origin, listed, d, sched.fuel);
        MatchesLater(cpu, origin, listed, c, d, Run(cpu, mode, armed, d, sched.fuel));
      }
    }
  }

  lemma RunningSingleIsFresh(cpu: Cpu, text: Memory, c: Core, k: nat)
    requires Run(cpu, Single, text, c, k).Running?
    ensures k == 0 && Run(cpu, Single, text, c, k).core == c
  {
  }

  lemma MatchesLater(cpu: Cpu, origin: Memory, listed: set<int>, c: Core, d: Core, s: Status)
    requires Reaches(cpu, origin, c, At(d)) && Matches(cpu, origin, listed, d, s)
    ensures Matches(cpu, origin, listed, c, s)
  {
    match s
    case Running(e) => ReachesTrans(cpu, origin, c, d, At(e));
    case Stopped(e) => ReachesTrans(cpu, origin, c, d, At(Settle(e, listed)));
    case Exited(code) => ReachesTrans(cpu, origin, c, d, Gone(code));
  }

  /** What a resumption needs: a current breakpoint that exists, and breakpoints on instruction starts. */
  ghost predicate Resumable(w: World, s: State, mode: Mode) {
    && s.bpIdx < |s.bps| && (s.bpIdx == -1 || 0 <= s.bpIdx)
    && OnStarts(w.host.cpu, s.tracee.origin, Addrs(s.bps), Prepared(s).tracee.core)
    && !StepsOnto(w.host.cpu, mode, Prepared(s).tracee.text, Prepared(s).tracee.core, Addrs(s.bps))
  }

  /** An outcome that tells the truth about the undebugged run. */
  ghost predicate Truthful(w: World, o: Outcome) {
    match o
    case Blocked => true
    case Undefined => false
    case Done(t, report) =>
      && Track(w, t)
      && (report.Hit? ==> t.phase == RUNNING && report.addr in Addrs(t.bps) && Effective(t).regs.rip == report.addr)
      && (report.Ended? ==> t.phase == LOADED
                            && Reaches(w.host.cpu, t.tracee.origin, t.tracee.from, Gone(report.status)))
  }

  lemma CheckedIsTruthful(w: World, s: State)
    requires s.phase == RUNNING
    requires Reaches(w.host.cpu, s.tracee.origin, s.tracee.from, At(Settle(s.tracee.core, Addrs(s.bps))))
    ensures Truthful(w, Checked(s))
  {
    CheckSettles(s);
  }

  /** What is shown after a stop at `d`: it settled, and the breakpoint that it settled on. */
  predicate ShowsStop(o: Outcome, d: Core, listed: set<int>) {
    && o.Done? && Effective(o.s) == Settle(d, listed) && !o.report.Ended?
    && (o.report.Hit? <==> d.regs.rip - 1 in listed)
    && (o.report.Hit? ==> o.report.addr == d.regs.rip - 1)
  }

  /** How a resumption ended, and what is shown of it. */
  predicate Shows(o: Outcome, s: Status, listed: set<int>) {
    match s
    case Running(_) => o.Blocked?
    case Stopped(d) => ShowsStop(o, d, listed)
    case Exited(code) => o.Done? && o.report == Ended(code)
  }

  lemma ResumeShows(h: Host, s: State, mode: Mode, sched: Sched)
    requires s.phase == RUNNING && (s.bpIdx == -1 || 0 <= s.bpIdx < |s.bps|)
    ensures var p := Prepared(s).tracee;
            Shows(Resume(h, s, mode, sched), Fly(h.cpu, mode, p.text, p.core, Site(s), sched).0, Addrs(s.bps))
  {
    var p := Prepared(s);
    var (status, text) := Fly(h.cpu, mode, p.tracee.text, p.tracee.core, Site(s), sched);
    if status.Stopped? {
      CheckSettles(p.(tracee := p.tracee.(core := status.core, text := text)));
    }
  }

  lemma ResumeIsTruthful(w: World, s: State, mode: Mode, sched: Sched)
    requires Inv(w, s) && s.phase == RUNNING && FetchesOnly(w.host.cpu) && Resumable(w, s, mode)
    requires Reaches(w.host.cpu, s.tracee.origin, s.tracee.from, At(Prepared(s).tracee.core))
    ensures Truthful(w, Resume(w.host, s, mode, sched))
  {
    var cpu, listed := w.host.cpu, Addrs(s.bps);
    var p := Prepared(s).tracee;
    PreparedKeepsText(w, s);
    FlyKeepsText(w, s, p, mode, Sched(Some(0), 0));
    FlyMatches(cpu, mode, p.text, p.origin, listed, p.core, Site(s), sched);
    var (status, text) := Fly(cpu, mode, p.text, p.core, Site(s), sched);
    MatchesLater(cpu, p.origin, listed, p.from, p.core, status);
    if status.Stopped? {
      CheckedIsTruthful(w, Prepared(s).(tracee := p.(core := status.core, text := text)));
    }
  }

  // ------------------------------------------------------------------ whole sessions

  /** When the live registers, looked at again, are read as what is shown already. */
  predicate RecheckSafe(s: State) {
    if s.tracee.core.regs == s.regs then s.regs.rip - 1 !in Addrs(s.bps) else s.regs.rip in Addrs(s.bps)
  }

  /** What keeps a command from changing the run; `set` changes it on purpose. */
  ghost predicate Faithful(w: World, s: State, cmd: Command)
    requires Lifecycle(s)
  {
    match cmd
    case SetReg(name, _) => s.phase == RUNNING ==> name !in REG_NAMES
    case Start(l) =>
      && (s.phase == LOADED ==> l.core.regs.rip - 1 !in Addrs(Launched(s, l).bps))
      && (s.phase == RUNNING ==> RecheckSafe(s))
    case Exec(l, _) =>
      && (s.phase == LOADED ==> Resumable(w, Launched(s, l), Cont))
      && (s.phase == RUNNING ==> Resumable(w, s, Cont))
    case Continue(_) => s.phase == RUNNING ==> Resumable(w, s, Cont)
    case StepInto(_) => s.phase == RUNNING ==> Resumable(w, s, Single)
    case _ => true
  }

  lemma StillReaches(w: World, s: State)
    requires Track(w, s) && s.phase == RUNNING && s.bpIdx < |s.bps| && (s.bpIdx == -1 || 0 <= s.bpIdx)
    ensures Reaches(w.host.cpu, s.tracee.origin, s.tracee.from, At(Prepared(s).tracee.core))
  {
    assert Prepared(s).tracee.core == Effective(s);
  }

  lemma FreshReaches(w: World, s: State, l: Launch)
    requires Lifecycle(s) && s.phase == LOADED
    ensures var t := Launched(s, l).tracee; Reaches(w.host.cpu, t.origin, t.from, At(t.core))
  {
    ReachesStep(w.host.cpu, l.text, l.core);
  }

  lemma ResumingIsTruthful(w: World, s: State, cmd: Command)
    requires Inv(w, s) && Track(w, s) && FetchesOnly(w.host.cpu) && Sound(w, s, cmd) && Faithful(w, s, cmd)
    requires cmd.Exec? || cmd.Continue? || cmd.StepInto?
    ensures Truthful(w, Perform(w.host, s, cmd))
  {
    if s.phase == LOADED && cmd.Exec? {
      LaunchedKeepsInv(w, s, cmd.launch);
      FreshReaches(w, s, cmd.launch);
      ResumeIsTruthful(w, Launched(s, cmd.launch), Cont, cmd.sched);
    } else if s.phase == RUNNING {
      StillReaches(w, s);
      ResumeIsTruthful(w, s, if cmd.StepInto? then Single else Cont, cmd.sched);
    }
  }

  lemma StartIsTruthful(w: World, s: State, l: Launch)
    requires Inv(w, s) && Track(w, s) && Faithful(w, s, Start(l))
    ensures Truthful(w, Perform(w.host, s, Start(l)))
  {
    if s.phase == LOADED {
      FreshReaches(w, s, l);
      CheckedIsTruthful(w, Launched(s, l));
    } else if s.phase == RUNNING {
      CheckedIsTruthful(w, s);
    }
  }

  lemma PerformIsTruthful(w: World, s: State, cmd: Command)
    requires Inv(w, s) && Track(w, s) && FetchesOnly(w.host.cpu) && Sound(w, s, cmd) && Faithful(w, s, cmd)
    ensures Truthful(w, Perform(w.host, s, cmd))
  {
    match cmd
    case Start(l) => StartIsTruthful(w, s, l);
    case Exec(_, _) => ResumingIsTruthful(w, s, cmd);
    case Continue(_) => ResumingIsTruthful(w, s, cmd);
    case StepInto(_) => ResumingIsTruthful(w, s, cmd);
    case _ =>
  }

  predicate ShowsMappedText(o: Outcome) {
    o.Done? && o.s.phase == RUNNING ==> Restore(o.s.tracee.text, o.s.bps) == o.s.tracee.origin
  }

  ghost predicate FaithfulSession(w: World, s: State, cmds: seq<Command>)
    requires Lifecycle(s)
    decreases |cmds|
  {
    cmds != [] ==>
      var n := |cmds| - 1;
      var before := RunSession(w.host, s, cmds[..n]);
      FaithfulSession(w, s, cmds[..n]) && (before.Done? ==> Faithful(w, before.s, cmds[n]))
  }

  /**
   Transparency: after any session, over any number of runs and load bases, the effective state is a
   point of the undebugged run (registers and data, and the text once saved bytes are put back), a
   reported breakpoint is a listed address that run stands on, and a reported exit is that run's exit.
   */
  lemma {:induction false} SessionIsTransparent(w: World, s: State, cmds: seq<Command>)
    requires Inv(w, s) && Track(w, s) && FetchesOnly(w.host.cpu)
    requires SoundSession(w, s, cmds) && FaithfulSession(w, s, cmds)
    ensures Truthful(w, RunSession(w.host, s, cmds))
    ensures ShowsMappedText(RunSession(w.host, s, cmds))
    decreases |cmds|
  {
    SessionKeepsInv(w, s, cmds);
    var o := RunSession(w.host, s, cmds);
    if o.Done? && o.s.phase == RUNNING {
      RestoredIsMapped(w, o.s);
    }
    if cmds != [] {
      var n := |cmds| - 1;
      SessionIsTransparent(w, s, cmds[..n]);
      SessionKeepsInv(w, s, cmds[..n]);
      var before := RunSession(w.host, s, cmds[..n]);
      if before.Done? {
        PerformIsTruthful(w, before.s, cmds[n]);
      }
    }
  }

  lemma ResumeShowsLive(h: Host, s: State, mode: Mode, sched: Sched)
    ensures var o := Resume(h, s, mode, sched); o.Done? ==> LiveShown(o.s)
  {
  }

  lemma PerformKeepsLive(h: Host, s: State, cmd: Command)
    requires Lifecycle(s) && LiveShown(s)
    ensures var o := Perform(h, s, cmd); o.Done? ==> LiveShown(o.s)
  {
    match cmd
    case Exec(l, sched) =>
      if s.phase != BEGIN {
        ResumeShowsLive(h, if s.phase == LOADED then Launched(s, l) else s, Cont, sched);
      }
    case Continue(sched) => ResumeShowsLive(h, s, Cont, sched);
    case StepInto(sched) => ResumeShowsLive(h, s, Single, sched);
    case _ =>
  }

  /** Whatever was typed, at every prompt the live registers are the shown ones but for a trap's one byte. */
  lemma {:induction false} SessionKeepsLive(h: Host, s: State, cmds: seq<Command>)
    requires Lifecycle(s) && LiveShown(s)
    ensures var o := RunSession(h, s, cmds); o.Done? ==> LiveShown(o.s)
    decreases |cmds|
  {
    if cmds != [] {
      var n := |cmds| - 1;
      SessionKeepsLive(h, s, cmds[..n]);
      var before := RunSession(h, s, cmds[..n]);
      if before.Done? {
        PerformKeepsLive(h, before.s, cmds[n]);
      }
    }
  }

  // ------------------------------------------------------------------ what is shown of a hit

  /** A reported hit is of the current breakpoint, with the code read at it. */
  predicate OfCurrent(o: Outcome) {
    o.Done? && o.report.Hit? ==>
      && o.s.phase == RUNNING && 0 <= o.s.bpIdx < |o.s.bps|
      && o.s.bps[o.s.bpIdx].addr == o.s.regs.rip == o.report.addr
      && o.report.code == HitCode(o.s)
  }

  lemma CheckedHitsCurrent(s: State)
    ensures s.phase == RUNNING ==> OfCurrent(Checked(s))
  {
  }

  lemma ResumeHitsCurrent(h: Host, s: State, mode: Mode, sched: Sched)
    requires s.phase == RUNNING
    ensures OfCurrent(Resume(h, s, mode, sched))
  {
    if s.bpIdx == -1 || 0 <= s.bpIdx < |s.bps| {
      var p := Prepared(s);
      var (status, text) := Fly(h.cpu, mode, p.tracee.text, p.tracee.core, Site(s), sched);
      if status.Stopped? {
        CheckedHitsCurrent(p.(tracee := p.tracee.(core := status.core, text := text)));
      }
    }
  }

  lemma PerformHitsCurrent(h: Host, s: State, cmd: Command)
    requires Lifecycle(s)
    ensures OfCurrent(Perform(h, s, cmd))
  {
    match cmd
    case Start(l) => CheckedHitsCurrent(if s.phase == LOADED then Launched(s, l) else s);
    case Exec(l, sched) =>
      if s.phase != BEGIN {
        ResumeHitsCurrent(h, if s.phase == LOADED then Launched(s, l) else s, Cont, sched);
      }
    case Continue(sched) => if s.phase == RUNNING { ResumeHitsCurrent(h, s, Cont, sched); }
    case StepInto(sched) => if s.phase == RUNNING { ResumeHitsCurrent(h, s, Single, sched); }
    case _ =>
  }

  /** The `j`-th byte shown is the program's own, or 0xFF where its word could not be read. */
  predicate ShowsByte(t: Tracee, addr: int, code: seq<byte>, j: nat)
    requires j < |code|
  {
    if j == 0 || Readable(t.text, addr + j - j % WORD_SIZE) then addr + j in t.origin && code[j] == t.origin[addr + j]
    else code[j] == 0xFF
  }

  /** The whole instruction shown at a hit is the program's own, when no listed address lies inside it. */
  ghost predicate ShowsOwnInstruction(w: World, o: Outcome) {
    o.Done? && o.report.Hit? && NotInside(w.host.cpu, o.s.tracee.origin, Addrs(o.s.bps), o.report.addr) ==>
      forall j: nat :: j < |o.report.code| && j < w.host.cpu.length(o.s.tracee.origin, o.report.addr)
        ==> ShowsByte(o.s.tracee, o.report.addr, o.report.code, j)
  }

  lemma {:induction false} AllOnes(n: nat, j: nat)
    requires j < n
    ensures BytesOf(Capacity(n) - 1, n)[j] == 0xFF
    decreases n
  {
    assert (Capacity(n) - 1) / 256 == Capacity(n - 1) - 1;
    if j > 0 {
      AllOnes(n - 1, j - 1);
    }
  }

  lemma FailedPeekShows(text: Memory, addr: int, j: nat)
    requires !Readable(text, addr) && j < WORD_SIZE
    ensures BytesOf(PeekText(text, addr), WORD_SIZE)[j] == 0xFF
  {
    assert Capacity(8) == 0x1_0000_0000_0000_0000;
    var n: nat := WORD_SIZE;
    AllOnes(n, j);
  }

  lemma {:induction false} PeekedByte(text: Memory, start: int, n: nat, j: nat)
    requires j < WORD_SIZE * n
    ensures var a := start + j - j % WORD_SIZE;
            if !Readable(text, a) then Peeked(text, start, n)[j] == 0xFF
            else start + j in text && Peeked(text, start, n)[j] == text[start + j]
    decreases n
  {
    if j < WORD_SIZE * (n - 1) {
      PeekedByte(text, start, n - 1, j);
    } else {
      var a, k := start + WORD_SIZE * (n - 1), j - WORD_SIZE * (n - 1);
      assert j % WORD_SIZE == k;
      if Readable(text, a) {
        BytesOfPeek(text, a);
        assert a + k in text;
      } else {
        FailedPeekShows(text, a, k);
      }
    }
  }

  lemma HitByte(s: State, j: nat)
    requires 0 <= s.bpIdx < |s.bps| && 0 < j < 2 * WORD_SIZE
    ensures var a := s.regs.rip + j - j % WORD_SIZE;
            if !Readable(s.tracee.text, a) then HitCode(s)[j] == 0xFF
            else s.regs.rip + j in s.tracee.text && HitCode(s)[j] == s.tracee.text[s.regs.rip + j]
  {
    PeekedByte(s.tracee.text, s.regs.rip, 2, j);
  }

  /** Although only its first byte is put right, the instruction shown at a hit is the program's own. */
  lemma HitShowsOwnInstruction(w: World, o: Outcome)
    requires OfCurrent(o) && (o.Done? ==> Inv(w, o.s))
    ensures ShowsOwnInstruction(w, o)
  {
    if o.Done? && o.report.Hit? && NotInside(w.host.cpu, o.s.tracee.origin, Addrs(o.s.bps), o.report.addr) {
      var s, a := o.s, o.report.addr;
      SavedIsOrigin(w, s, s.bpIdx);
      forall j: nat | j < |o.report.code| && j < w.host.cpu.length(s.tracee.origin, a)
        ensures ShowsByte(s.tracee, a, o.report.code, j)
      {
        if j > 0 {
          HitByte(s, j);
          assert a + j !in Addrs(s.bps);
        }
      }
    }
  }

  /** So it is after every session, wherever breakpoints are set. */
  lemma SessionShowsOwnInstructions(w: World, s: State, cmds: seq<Command>)
    requires Inv(w, s) && SoundSession(w, s, cmds)
    ensures ShowsOwnInstruction(w, RunSession(w.host, s, cmds))
  {
    SessionKeepsInv(w, s, cmds);
    if cmds != [] {
      var before := RunSession(w.host, s, cmds[..|cmds| - 1]);
      if before.Done? {
        PerformHitsCurrent(w.host, before.s, cmds[|cmds| - 1]);
      }
    }
    HitShowsOwnInstruction(w, RunSession(w.host, s, cmds));
  }
}
