/** Where the debugger does what is expected of it exactly under a condition, that condition. */
module Exactness {
  import opened Words
  import opened Wrappers
  import opened Machine
  import opened Session
  import opened Invariants
  import opened Transparency

  // ------------------------------------------------------------------ `start`

  /** A new process's `start` leaves it at its entry exactly when no breakpoint lies one before the entry. */
  lemma StartKeepsEntryIff(w: World, s: State, l: Launch)
    requires Lifecycle(s) && s.phase == LOADED
    ensures Effective(Perform(w.host, s, Start(l)).s) == l.core
       <==> l.core.regs.rip - 1 !in Addrs(Launched(s, l).bps)
  {
    CheckSettles(Launched(s, l));
  }

  /**
   `start` on a running process looks at the live registers again: the state shown is kept exactly when no
   listed address lies one before a shown `rip` that the process stands at, and when one still lies at a
   shown `rip` that it stands one past.
   */
  lemma RecheckKeepsStateIff(h: Host, s: State, l: Launch)
    requires Lifecycle(s) && s.phase == RUNNING && LiveShown(s)
    ensures Effective(Perform(h, s, Start(l)).s) == Effective(s) <==> RecheckSafe(s)
  {
    CheckSettles(s);
  }

  // ------------------------------------------------------------------ `si`

  /** The text that the first instruction of a resumption meets. */
  function FirstText(s: State, sched: Sched): Memory
    requires s.bpIdx == -1 || 0 <= s.bpIdx < |s.bps|
  {
    TextAt(Prepared(s).tracee.text, ArmedText(s), Landing(s, sched), 0)
  }

  /** The next instruction is an armed breakpoint's INT3. */
  predicate Absorbed(s: State, sched: Sched)
    requires s.bpIdx == -1 || 0 <= s.bpIdx < |s.bps|
  {
    Trapping(FirstText(s, sched), s.regs.rip) && s.regs.rip in Addrs(s.bps)
  }

  lemma StepStatus(cpu: Cpu, text: Memory, c: Core, site: Option<int>, sched: Sched)
    ensures var k := if site.None? then None else sched.rearm;
            var first := TextAt(text, if site.None? then text else Patch(text, site.value, INT3), k, 0);
            Fly(cpu, Single, text, c, site, sched).0
            == if sched.fuel == 0 && (k.None? || k.value == 0) then Running(c)
               else match Execute(cpu, first, c)
                    case Next(d) => Stopped(d)
                    case Trap(d) => Stopped(d)
                    case Exit(code) => Exited(code)
  {
  }

  lemma OneStep(cpu: Cpu, origin: Memory, c: Core)
    ensures Undebugged(cpu, origin, c, 1)
         == match Execute(cpu, origin, c)
            case Next(d) => At(d)
            case Trap(d) => At(d)
            case Exit(code) => Gone(code)
  {
    match Execute(cpu, origin, c)
    case Next(d) => assert Undebugged(cpu, origin, d, 0) == At(d);
    case Trap(d) => assert Undebugged(cpu, origin, d, 0) == At(d);
    case Exit(_) =>
  }

  /** What is shown after one instruction. */
  predicate ShowsStep(o: Outcome, e: Exec, listed: set<int>) {
    match e
    case Exit(code) => o.Done? && o.report == Ended(code)
    case Next(d) => ShowsStop(o, d, listed)
    case Trap(d) => ShowsStop(o, d, listed)
  }

  /** One instruction of the prepared process, settled. */
  lemma StepOutcome(h: Host, s: State, sched: Sched)
    requires s.phase == RUNNING && LiveShown(s) && (s.bpIdx == -1 || 0 <= s.bpIdx < |s.bps|)
    ensures Prepared(s).tracee.core == Effective(s)
    ensures var o := Resume(h, s, Single, sched);
            if Waited(s, sched) == 0 then o.Blocked?
            else ShowsStep(o, Execute(h.cpu, FirstText(s, sched), Effective(s)), Addrs(s.bps))
  {
    var p := Prepared(s);
    StepStatus(h.cpu, p.tracee.text, p.tracee.core, Site(s), sched);
    ResumeShows(h, s, Single, sched);
  }

  lemma AbsorbedStep(o: Outcome, c: Core, listed: set<int>)
    requires ShowsStep(o, Trap(AtRip(c, c.regs.rip + 1)), listed) && c.regs.rip in listed
    ensures o.Done? && Effective(o.s) == c && o.report.Hit? && o.report.addr == c.regs.rip
  {
    assert AtRip(AtRip(c, c.regs.rip + 1), c.regs.rip) == c;
  }

  /** The state shown is the instruction's result exactly when no listed address is one before its `rip`. */
  predicate ShowsResultIff(o: Outcome, p: Progress, listed: set<int>) {
    && o.Done?
    && match p
       case Gone(code) => o.report == Ended(code)
       case At(d) => Effective(o.s) == d <==> d.regs.rip - 1 !in listed
  }

  lemma ExecutedStep(cpu: Cpu, origin: Memory, c: Core, listed: set<int>, o: Outcome)
    requires ShowsStep(o, Execute(cpu, origin, c), listed)
    ensures ShowsResultIff(o, Undebugged(cpu, origin, c, 1), listed)
  {
    OneStep(cpu, origin, c);
  }

  lemma StepShown(cpu: Cpu, text: Memory, origin: Memory, listed: set<int>, c: Core, o: Outcome)
    requires FetchesOnly(cpu) && Framed(text, origin, listed) && NotInside(cpu, origin, listed, c.regs.rip)
    requires ShowsStep(o, Execute(cpu, text, c), listed)
    ensures if Trapping(text, c.regs.rip) && c.regs.rip in listed then
              o.Done? && Effective(o.s) == c && o.report.Hit? && o.report.addr == c.regs.rip
            else ShowsResultIff(o, Undebugged(cpu, origin, c, 1), listed)
  {
    if Trapping(text, c.regs.rip) && c.regs.rip in listed {
      AbsorbedStep(o, c, listed);
    } else {
      SameInstruction(cpu, text, origin, listed, c);
      ExecutedStep(cpu, origin, c, listed, o);
    }
  }

  lemma FirstTextFramed(w: World, s: State, sched: Sched)
    requires Inv(w, s) && s.phase == RUNNING && (s.bpIdx == -1 || 0 <= s.bpIdx < |s.bps|)
    ensures Framed(FirstText(s, sched), s.tracee.origin, Addrs(s.bps))
  {
    PreparedKeepsText(w, s);
    FlyKeepsText(w, s, Prepared(s).tracee, Single, Sched(Some(0), 0));
  }

  /**
   Whenever the re-arming write lands, `si` absorbs a breakpoint trap and changes nothing, or executes one
   instruction of the undebugged run; the state it then shows is that instruction's result exactly when
   no listed address lies one before the new `rip`.
   */
  lemma StepRefinesIff(w: World, s: State, sched: Sched)
    requires Inv(w, s) && LiveShown(s) && s.phase == RUNNING && FetchesOnly(w.host.cpu)
    requires s.bpIdx == -1 || 0 <= s.bpIdx < |s.bps|
    requires NotInside(w.host.cpu, s.tracee.origin, Addrs(s.bps), s.regs.rip)
    ensures var o := Perform(w.host, s, StepInto(sched));
            if Waited(s, sched) == 0 then o.Blocked?
            else
              && o.Done?
              && if Absorbed(s, sched) then
                   Effective(o.s) == Effective(s) && o.report.Hit? && o.report.addr == s.regs.rip
                 else
                   ShowsResultIff(o, Undebugged(w.host.cpu, s.tracee.origin, Effective(s), 1), Addrs(s.bps))
  {
    var o, c, listed := Resume(w.host, s, Single, sched), Effective(s), Addrs(s.bps);
    StepOutcome(w.host, s, sched);
    if Waited(s, sched) > 0 {
      FirstTextFramed(w, s, sched);
      StepShown(w.host.cpu, FirstText(s, sched), s.tracee.origin, listed, c, o);
    }
  }

  // ------------------------------------------------------------------ `set`

  /**
   `set` writes the registers the user is shown, one of them changed, back to the process; `rip` then
   shows the value given exactly when no listed address lies one before it.
   */
  lemma SetShowsValueIff(w: World, s: State, name: string, value: int)
    requires Inv(w, s) && s.phase == RUNNING && name in REG_NAMES
    ensures var o := Perform(w.host, s, SetReg(name, value));
            && o.Done? && o.s.tracee.text == s.tracee.text
            && if name == "rip" then
                 Effective(o.s) == AtRip(Effective(s), value) <==> value - 1 !in Addrs(s.bps)
               else
                 Effective(o.s).regs == s.regs.(rest := s.regs.rest[name := value])
  {
    var r := Assign(s.regs, name, value);
    if name == "rip" {
      CheckSettles(s.(regs := r, tracee := s.tracee.(core := s.tracee.core.(regs := r))));
    }
  }

  // ------------------------------------------------------------------ `delete`

  /** The current breakpoint, if any, is the only one at the address the user is shown. */
  ghost predicate Coherent(s: State) {
    s.bpIdx == -1 || (0 <= s.bpIdx < |s.bps| && s.bps[s.bpIdx].addr == s.regs.rip)
  }

  lemma CurrentIsOnlyMatch(w: World, s: State, i: nat)
    requires Inv(w, s) && Coherent(s) && s.bpIdx != -1 && i < |s.bps|
    ensures s.bps[i].addr == s.regs.rip <==> i == s.bpIdx
  {
    if i < s.bpIdx {} else if s.bpIdx < i {}
  }

  /** `delete` keeps `bp_idx` coherent exactly when it does not erase below it. */
  lemma DeleteKeepsCoherenceIff(w: World, s: State, idx: nat)
    requires Inv(w, s) && s.phase == RUNNING && Coherent(s) && idx < |s.bps|
    ensures Coherent(DeleteBp(s, idx)) <==> !(idx < s.bpIdx)
  {
    var t := DeleteBp(s, idx);
    if idx < s.bpIdx < |t.bps| {
      assert t.bps[s.bpIdx] == s.bps[s.bpIdx + 1];
      CurrentIsOnlyMatch(w, s, s.bpIdx + 1);
    }
  }

  /** It leaves `bp_idx` past the end, so that resuming is undefined, exactly when it also was the last. */
  lemma DeleteLeavesDanglingIff(s: State, sched: Sched, h: Host, idx: nat)
    requires Lifecycle(s) && s.phase == RUNNING && s.bpIdx < |s.bps| && idx < |s.bps|
    ensures Perform(h, DeleteBp(s, idx), Continue(sched)) == Undefined <==> idx < s.bpIdx == |s.bps| - 1
  {
  }

  lemma PerformKeepsCoherence(h: Host, s: State, cmd: Command)
    requires Lifecycle(s) && Coherent(s)
    requires cmd.Delete? && s.phase == RUNNING ==> !(cmd.idx < s.bpIdx)
    ensures var o := Perform(h, s, cmd); o != Undefined && (o.Done? ==> Coherent(o.s))
  {
    if cmd.Break? && Accepts(s, cmd.addr) && s.bpIdx != -1 {
      assert SetBp(s, cmd.addr).bps[s.bpIdx] == s.bps[s.bpIdx];
    }
  }

  /** No `delete` of the session erases below the current breakpoint. */
  ghost predicate NoLowDeletes(h: Host, s: State, cmds: seq<Command>)
    requires Lifecycle(s)
    decreases |cmds|
  {
    cmds != [] ==>
      var n := |cmds| - 1;
      var before := RunSession(h, s, cmds[..n]);
      NoLowDeletes(h, s, cmds[..n]) && (before.Done? && cmds[n].Delete? ==> !(cmds[n].idx < before.s.bpIdx))
  }

  /** Without such a `delete`, `bp_idx` is coherent at every prompt and no command is undefined. */
  lemma {:induction false} SessionKeepsCoherence(h: Host, s: State, cmds: seq<Command>)
    requires Lifecycle(s) && Coherent(s) && NoLowDeletes(h, s, cmds)
    ensures var o := RunSession(h, s, cmds); o != Undefined && (o.Done? ==> Coherent(o.s))
    decreases |cmds|
  {
    if cmds != [] {
      var n := |cmds| - 1;
      SessionKeepsCoherence(h, s, cmds[..n]);
      var before := RunSession(h, s, cmds[..n]);
      if before.Done? {
        PerformKeepsCoherence(h, before.s, cmds[n]);
      }
    }
  }

  /** One outcome is another but for what is remembered of breakpoints: the same process, the same ending. */
  predicate SameFlight(o: Outcome, r: Outcome) {
    && (o.Blocked? <==> r.Blocked?) && (o.Done? <==> r.Done?)
    && (o.Done? ==> o.s.tracee == r.s.tracee && (o.report.Ended? || r.report.Ended? ==> o.report == r.report))
  }

  lemma DeletedFliesAlike(h: Host, s: State, mode: Mode, sched: Sched)
    requires s.phase == RUNNING && 0 <= s.bpIdx < |s.bps|
    ensures Prepared(DeleteBp(s, s.bpIdx)).tracee == Prepared(s).tracee
    ensures SameFlight(Resume(h, DeleteBp(s, s.bpIdx), mode, sched), Resume(h, s, mode, Sched(None, sched.fuel)))
  {
  }

  lemma DeletedByteIsMapped(w: World, s: State, mode: Mode, sched: Sched)
    requires Inv(w, s) && s.phase == RUNNING && 0 <= s.bpIdx < |s.bps|
    ensures var a, o := s.bps[s.bpIdx].addr, Resume(w.host, DeleteBp(s, s.bpIdx), mode, sched);
            o.Done? && o.s.phase == RUNNING ==> a in o.s.tracee.origin && o.s.tracee.text[a] == o.s.tracee.origin[a]
  {
    var deleted := DeleteBp(s, s.bpIdx);
    SavedIsOrigin(w, s, s.bpIdx);
    DeleteBpKeepsInv(w, s, s.bpIdx);
    AddrsOfErase(s.bps, s.bpIdx);
    ResumeKeepsInv(w, deleted, mode, sched);
  }

  /**
   Deleting the breakpoint the process stands on and resuming is resuming over it with the re-arming
   write refused: the same instructions from the same registers and memory, ending in the same process;
   and the deleted breakpoint's byte is the mapped one when it stops.
   */
  lemma DeletingIsNeverRearming(w: World, s: State, mode: Mode, sched: Sched)
    requires Inv(w, s) && s.phase == RUNNING && 0 <= s.bpIdx < |s.bps|
    ensures var a, deleted := s.bps[s.bpIdx].addr, DeleteBp(s, s.bpIdx);
            var o := Resume(w.host, deleted, mode, sched);
            && Prepared(deleted).tracee == Prepared(s).tracee
            && SameFlight(o, Resume(w.host, s, mode, Sched(None, sched.fuel)))
            && (o.Done? && o.s.phase == RUNNING ==>
                  a in o.s.tracee.origin && o.s.tracee.text[a] == o.s.tracee.origin[a])
  {
    DeletedFliesAlike(w.host, s, mode, sched);
    DeletedByteIsMapped(w, s, mode, sched);
  }

  /** And that byte stays the mapped one, over any number of commands and runs, until the address is listed again. */
  lemma DeletedStaysMapped(w: World, s: State, cmds: seq<Command>)
    requires Inv(w, s) && s.phase == RUNNING && 0 <= s.bpIdx < |s.bps|
    requires var t := DeleteBp(s, s.bpIdx); Lifecycle(t) && SoundSession(w, t, cmds)
    ensures var a, o := s.bps[s.bpIdx].addr, RunSession(w.host, DeleteBp(s, s.bpIdx), cmds);
            o.Done? && o.s.phase == RUNNING && a in o.s.tracee.origin && a !in Addrs(o.s.bps) ==>
              a in o.s.tracee.text && o.s.tracee.text[a] == o.s.tracee.origin[a]
  {
    DeleteBpKeepsInv(w, s, s.bpIdx);
    UnlistedIsMapped(w, DeleteBp(s, s.bpIdx), cmds, s.bps[s.bpIdx].addr);
  }
}
