/** Which breakpoints are armed at each prompt, and which of them a resumption can pass over. */
module Arming {
  import opened Words
  import opened Wrappers
  import opened Machine
  import opened Session
  import opened Invariants
  import opened Transparency

  // ------------------------------------------------------------------ what is armed at a prompt

  /** Every breakpoint whose byte can be written at all holds INT3. */
  ghost predicate AllArmed(s: State) {
    s.phase == RUNNING ==>
      forall i :: 0 <= i < |s.bps| && Readable(s.tracee.text, s.bps[i].addr) ==>
        Trapping(s.tracee.text, s.bps[i].addr)
  }

  /** The resumption, if the command is one, gets the breakpoint it steps over written back. */
  predicate Lands(s: State, cmd: Command) {
    (cmd.Exec? || cmd.Continue? || cmd.StepInto?) && s.phase == RUNNING && s.bpIdx != -1 ==> cmd.sched.rearm.Some?
  }

  /** The text a resumption ends with, in which no breakpoint but the current one has changed. */
  lemma FlownText(h: Host, s: State, mode: Mode, sched: Sched)
    requires s.phase == RUNNING && (s.bpIdx == -1 || 0 <= s.bpIdx < |s.bps|)
    ensures var o := Resume(h, s, mode, sched);
            o.Done? ==>
              o.s.tracee.text == if Landing(s, sched).Some? then ArmedText(s) else Prepared(s).tracee.text
  {
  }

  /**
   After a resumption from a breakpoint that stops, that breakpoint is armed exactly when its re-arming
   write landed on a byte that can be written, or when the program has an INT3 of its own there.
   */
  lemma RearmedIff(w: World, s: State, mode: Mode, sched: Sched)
    requires Inv(w, s) && s.phase == RUNNING && 0 <= s.bpIdx < |s.bps|
    requires var o := Resume(w.host, s, mode, sched); o.Done? && o.s.phase == RUNNING
    ensures var bp := s.bps[s.bpIdx];
            Trapping(Resume(w.host, s, mode, sched).s.tracee.text, bp.addr)
            <==> (sched.rearm.Some? && Readable(s.tracee.text, bp.addr)) || bp.saved == INT3
  {
    SavedIsOrigin(w, s, s.bpIdx);
    PreparedKeepsText(w, s);
    SameKeysSameReadable(s.tracee.text, Prepared(s).tracee.text);
    FlownText(w.host, s, mode, sched);
  }

  lemma ResumeKeepsArmed(h: Host, s: State, mode: Mode, sched: Sched)
    requires AllArmed(s) && s.phase == RUNNING && (s.bpIdx != -1 ==> sched.rearm.Some?)
    ensures var o := Resume(h, s, mode, sched); o.Done? ==> AllArmed(o.s)
  {
    if s.bpIdx == -1 || 0 <= s.bpIdx < |s.bps| {
      var o, p := Resume(h, s, mode, sched), Prepared(s).tracee.text;
      FlownText(h, s, mode, sched);
      SameKeysSameReadable(s.tracee.text, p);
      SameKeysSameReadable(p, ArmedText(s));
      if o.Done? && o.s.phase == RUNNING {
        assert o.s.bps == s.bps;
        assert s.bpIdx == -1 ==> o.s.tracee.text == s.tracee.text;
      }
    }
  }

  lemma LaunchedArmed(s: State, l: Launch)
    requires Lifecycle(s) && s.phase == LOADED
    ensures AllArmed(Launched(s, l))
  {
    var t := Launched(s, l);
    InstallExact(l.text, t.bps);
    SameKeysSameReadable(l.text, t.tracee.text);
    forall i | 0 <= i < |t.bps| && Readable(t.tracee.text, t.bps[i].addr)
      ensures Trapping(t.tracee.text, t.bps[i].addr)
    {
      assert t.bps[i].addr in Addrs(t.bps);
      assert Readable(l.text, t.bps[i].addr);
    }
  }

  lemma SetBpKeepsArmed(s: State, addr: int)
    requires Lifecycle(s) && AllArmed(s)
    ensures AllArmed(SetBp(s, addr))
  {
    SameKeysSameReadable(s.tracee.text, Patch(s.tracee.text, addr, INT3));
  }

  lemma DeleteBpKeepsArmed(s: State, idx: nat)
    requires Lifecycle(s) && AllArmed(s) && Distinct(s.bps)
    ensures AllArmed(DeleteBp(s, idx))
  {
    if idx < |s.bps| && s.phase == RUNNING {
      var t := DeleteBp(s, idx);
      SameKeysSameReadable(s.tracee.text, t.tracee.text);
      assert forall i :: 0 <= i < |t.bps| ==> t.bps[i] == s.bps[if i < idx then i else i + 1];
    }
  }

  /** A process started here, or the one there is already. */
  function Target(s: State, l: Launch): State
    requires Lifecycle(s) && s.phase != BEGIN
  {
    if s.phase == LOADED then Launched(s, l) else s
  }

  lemma PerformKeepsArmed(h: Host, s: State, cmd: Command)
    requires Lifecycle(s) && AllArmed(s) && Distinct(s.bps) && Lands(s, cmd)
    ensures var o := Perform(h, s, cmd); o.Done? ==> AllArmed(o.s)
  {
    match cmd
    case Load(_) =>
    case Break(addr) => SetBpKeepsArmed(s, addr);
    case Delete(idx) => DeleteBpKeepsArmed(s, idx);
    case Start(l) => if s.phase == LOADED { LaunchedArmed(s, l); }
    case Exec(l, sched) =>
      if s.phase != BEGIN {
        if s.phase == LOADED {
          LaunchedArmed(s, l);
        }
        ResumeKeepsArmed(h, Target(s, l), Cont, sched);
      }
    case Continue(sched) => if s.phase == RUNNING { ResumeKeepsArmed(h, s, Cont, sched); }
    case StepInto(sched) => if s.phase == RUNNING { ResumeKeepsArmed(h, s, Single, sched); }
    case _ => ViewingKeepsFields(h, s, cmd);
  }

  ghost predicate LandingSession(h: Host, s: State, cmds: seq<Command>)
    requires Lifecycle(s)
    decreases |cmds|
  {
    cmds != [] ==>
      var n := |cmds| - 1;
      var before := RunSession(h, s, cmds[..n]);
      LandingSession(h, s, cmds[..n]) && (before.Done? ==> Lands(before.s, cmds[n]))
  }

  /** When every re-arming write of a session lands, every writable breakpoint is armed at every prompt. */
  lemma {:induction false} SessionKeepsArmed(h: Host, s: State, cmds: seq<Command>)
    requires Lifecycle(s) && AllArmed(s) && Distinct(s.bps) && LandingSession(h, s, cmds)
    ensures var o := RunSession(h, s, cmds); o.Done? ==> AllArmed(o.s) && Distinct(o.s.bps)
    decreases |cmds|
  {
    if cmds != [] {
      var n := |cmds| - 1;
      SessionKeepsArmed(h, s, cmds[..n]);
      var before := RunSession(h, s, cmds[..n]);
      if before.Done? {
        PerformKeepsArmed(h, before.s, cmds[n]);
        PerformKeepsDistinct(h, before.s, cmds[n]);
      }
    }
  }

  // ------------------------------------------------------------------ runs over a text that changes

  predicate GoesOn(text: Memory, p: Progress) {
    p.At? && !Trapping(text, p.core.regs.rip)
  }

  /** The undebugged run meets no INT3 of the text in force in its first `n` instructions. */
  ghost predicate Clear(cpu: Cpu, text: Memory, armed: Memory, k: Option<nat>, origin: Memory, c: Core, n: nat) {
    forall i: nat :: i < n ==> GoesOn(TextAt(text, armed, k, i), Undebugged(cpu, origin, c, i))
  }

  /** The process keeps up with the undebugged run for `n` instructions without a trap; then it is as `s` says. */
  ghost predicate EndsAt(cpu: Cpu, text: Memory, armed: Memory, k: Option<nat>, origin: Memory, c: Core,
                         n: nat, s: Status) {
    && Clear(cpu, text, armed, k, origin, c, n)
    && var p := Undebugged(cpu, origin, c, n);
       match s
       case Running(d) => p == At(d)
       case Exited(code) => p == Gone(code)
       case Stopped(d) =>
         p.At? && Trapping(TextAt(text, armed, k, n), p.core.regs.rip) && d == AtRip(p.core, p.core.regs.rip + 1)
  }

  lemma EndsOneLater(cpu: Cpu, text: Memory, origin: Memory, c: Core, d: Core, n: nat, s: Status)
    requires Execute(cpu, origin, c) == Next(d) && !Trapping(text, c.regs.rip)
    requires EndsAt(cpu, text, text, None, origin, d, n, s)
    ensures EndsAt(cpu, text, text, None, origin, c, n + 1, s)
  {
    assert forall i: nat :: Undebugged(cpu, origin, c, i + 1) == Undebugged(cpu, origin, d, i);
    forall i: nat | i < n + 1
      ensures GoesOn(text, Undebugged(cpu, origin, c, i))
    {
      if i == 0 {
        assert Undebugged(cpu, origin, c, 0) == At(c);
      } else {
        assert GoesOn(TextAt(text, text, None, i - 1), Undebugged(cpu, origin, d, i - 1));
      }
    }
  }

  /** With one text in force. */
  lemma {:induction false} RunEnds(cpu: Cpu, text: Memory, origin: Memory, listed: set<int>, c: Core, fuel: nat)
    returns (n: nat)
    requires FetchesOnly(cpu) && Framed(text, origin, listed) && OnStarts(cpu, origin, listed, c)
    ensures var s := Run(cpu, Cont, text, c, fuel);
            && EndsAt(cpu, text, text, None, origin, c, n, s)
            && n <= fuel && (s.Running? ==> n == fuel) && (s.Stopped? ==> n < fuel)
    decreases fuel
  {
    n := 0;
    assert Undebugged(cpu, origin, c, 0) == At(c);
    if fuel > 0 && !Trapping(text, c.regs.rip) {
      OnStartsLater(cpu, origin, listed, c, 0);
      SameInstruction(cpu, text, origin, listed, c);
      match Execute(cpu, text, c)
      case Exit(_) =>
        n := 1;
      case Next(d) =>
        assert Undebugged(cpu, origin, d, 0) == At(d);
        assert Undebugged(cpu, origin, c, 1) == At(d);
        OnStartsLater(cpu, origin, listed, c, 1);
        var m := RunEnds(cpu, text, origin, listed, d, fuel - 1);
        EndsOneLater(cpu, text, origin, c, d, m, Run(cpu, Cont, text, d, fuel - 1));
        n := m + 1;
    }
  }

  lemma GoesOnLater(cpu: Cpu, text: Memory, armed: Memory, k: nat, origin: Memory, c: Core, d: Core, n: nat, i: nat)
    requires Clear(cpu, text, text, None, origin, c, k) && Undebugged(cpu, origin, c, k) == At(d)
    requires Clear(cpu, armed, armed, None, origin, d, n) && i < k + n
    ensures GoesOn(TextAt(text, armed, Some(k), i), Undebugged(cpu, origin, c, i))
  {
    if i < k {
      assert GoesOn(TextAt(text, text, None, i), Undebugged(cpu, origin, c, i));
    } else {
      UndebuggedAdds(cpu, origin, c, k, i - k);
      assert GoesOn(TextAt(armed, armed, None, i - k), Undebugged(cpu, origin, d, i - k));
    }
  }

  /** The run goes on under the new text from where it is when the write lands. */
  lemma EndsLater(cpu: Cpu, text: Memory, armed: Memory, k: nat, origin: Memory, c: Core, d: Core, n: nat, s: Status)
    requires Clear(cpu, text, text, None, origin, c, k) && Undebugged(cpu, origin, c, k) == At(d)
    requires EndsAt(cpu, armed, armed, None, origin, d, n, s)
    ensures EndsAt(cpu, text, armed, Some(k), origin, c, k + n, s)
  {
    UndebuggedAdds(cpu, origin, c, k, n);
    forall i: nat | i < k + n
      ensures GoesOn(TextAt(text, armed, Some(k), i), Undebugged(cpu, origin, c, i))
    {
      GoesOnLater(cpu, text, armed, k, origin, c, d, n, i);
    }
  }

  /** A continued flight ends at the first INT3 in force, if the undebugged run comes to one. */
  lemma FlyEnds(cpu: Cpu, text: Memory, origin: Memory, listed: set<int>, c: Core, site: Option<int>, sched: Sched)
    returns (n: nat)
    requires FetchesOnly(cpu) && Framed(text, origin, listed) && OnStarts(cpu, origin, listed, c)
    requires site.Some? ==> Framed(Patch(text, site.value, INT3), origin, listed)
    ensures var k := if site.None? then None else sched.rearm;
            var armed := if site.None? then text else Patch(text, site.value, INT3);
            var s, waited := Fly(cpu, Cont, text, c, site, sched).0, sched.fuel + if k.Some? then k.value else 0;
            && EndsAt(cpu, text, armed, k, origin, c, n, s)
            && (s.Running? ==> n == waited) && (s.Stopped? ==> n < waited)
  {
    var k := if site.None? then None else sched.rearm;
    var armed := if site.None? then text else Patch(text, site.value, INT3);
    if k.None? {
      n := RunEnds(cpu, text, origin, listed, c, sched.fuel);
    } else {
      n := RunEnds(cpu, text, origin, listed, c, k.value);
      var early := Run(cpu, Cont, text, c, k.value);
      if early.Running? {
        OnStartsLater(cpu, origin, listed, c, n);
        var m := RunEnds(cpu, armed, origin, listed, early.core, sched.fuel);
        EndsLater(cpu, text, armed, n, origin, c, early.core, m, Run(cpu, Cont, armed, early.core, sched.fuel));
        n := n + m;
      }
    }
  }

  /** A stop off the list is at an INT3 of the program's own, which the undebugged run steps past. */
  lemma SettledStop(cpu: Cpu, text: Memory, origin: Memory, listed: set<int>, c: Core, n: nat) returns (m: nat)
    requires Framed(text, origin, listed)
    requires Undebugged(cpu, origin, c, n).At? && Trapping(text, Undebugged(cpu, origin, c, n).core.regs.rip)
    ensures var e := Undebugged(cpu, origin, c, n).core;
            && Undebugged(cpu, origin, c, m) == At(Settle(AtRip(e, e.regs.rip + 1), listed))
            && m == if e.regs.rip in listed then n else n + 1
  {
    var e := Undebugged(cpu, origin, c, n).core;
    var d := AtRip(e, e.regs.rip + 1);
    if e.regs.rip in listed {
      m := n;
      assert AtRip(d, e.regs.rip) == e;
    } else {
      m := n + 1;
      UndebuggedAdds(cpu, origin, c, n, 1);
      assert Execute(cpu, origin, e) == Trap(d);
      assert Undebugged(cpu, origin, d, 0) == At(d);
    }
  }

  /** There is only one such end: where a trap comes first in time, the process has stopped at it. */
  lemma EndsAtFirstTrap(cpu: Cpu, text: Memory, armed: Memory, k: Option<nat>, origin: Memory, c: Core,
                        n: nat, m: nat, s: Status)
    requires Clear(cpu, text, armed, k, origin, c, n) && Undebugged(cpu, origin, c, n).At?
    requires Trapping(TextAt(text, armed, k, n), Undebugged(cpu, origin, c, n).core.regs.rip)
    requires EndsAt(cpu, text, armed, k, origin, c, m, s) && (s.Running? ==> n < m)
    ensures m == n && s.Stopped?
  {
    assert m < n ==> GoesOn(TextAt(text, armed, k, m), Undebugged(cpu, origin, c, m));
    assert n < m ==> GoesOn(TextAt(text, armed, k, n), Undebugged(cpu, origin, c, n));
  }

  // ------------------------------------------------------------------ no breakpoint is passed over

  /**
   A breakpoint that does not trap after `i` instructions: the one the process starts from until its
   re-arming write lands, if it does and the program has no INT3 there; or one that is not armed.
   */
  predicate MayPass(s: State, sched: Sched, a: int, i: nat)
    requires s.bpIdx == -1 || 0 <= s.bpIdx < |s.bps|
  {
    if s.bpIdx == -1 || a != s.bps[s.bpIdx].addr then !Trapping(s.tracee.text, a)
    else
      && s.bps[s.bpIdx].saved != INT3
      && !(sched.rearm.Some? && sched.rearm.value <= i && Readable(s.tracee.text, a))
  }

  lemma MayPassIff(w: World, s: State, sched: Sched, a: int, i: nat)
    requires Inv(w, s) && s.phase == RUNNING && (s.bpIdx == -1 || 0 <= s.bpIdx < |s.bps|)
    ensures MayPass(s, sched, a, i)
       <==> !Trapping(TextAt(Prepared(s).tracee.text, ArmedText(s), Landing(s, sched), i), a)
  {
    SameKeysSameReadable(s.tracee.text, Prepared(s).tracee.text);
    if s.bpIdx != -1 {
      SavedIsOrigin(w, s, s.bpIdx);
    }
  }

  /** Every listed address that the undebugged run stands on before its `m`-th instruction may be passed. */
  ghost predicate NothingMissed(w: World, s: State, sched: Sched, m: nat)
    requires s.bpIdx == -1 || 0 <= s.bpIdx < |s.bps|
  {
    forall i: nat :: i < m ==>
      && Undebugged(w.host.cpu, s.tracee.origin, Prepared(s).tracee.core, i).At?
      && var rip := Undebugged(w.host.cpu, s.tracee.origin, Prepared(s).tracee.core, i).core.regs.rip;
         rip in Addrs(s.bps) ==> MayPass(s, sched, rip, i)
  }

  /** How the flight ended is where the undebugged run is after `m` instructions. */
  ghost predicate Reached(w: World, s: State, sched: Sched, m: nat, status: Status)
    requires s.bpIdx == -1 || 0 <= s.bpIdx < |s.bps|
  {
    var p := Undebugged(w.host.cpu, s.tracee.origin, Prepared(s).tracee.core, m);
    match status
    case Running(d) => p == At(d)
    case Exited(code) => p == Gone(code)
    case Stopped(d) =>
      && p == At(Settle(d, Addrs(s.bps)))
      && (d.regs.rip - 1 in Addrs(s.bps) ==> !MayPass(s, sched, d.regs.rip - 1, m))
  }

  /** The state's flight, with the texts and the landing time that belong to it. */
  ghost predicate FlightEndsAt(w: World, s: State, sched: Sched, n: nat, status: Status)
    requires s.bpIdx == -1 || 0 <= s.bpIdx < |s.bps|
  {
    var p := Prepared(s).tracee;
    && EndsAt(w.host.cpu, p.text, ArmedText(s), Landing(s, sched), p.origin, p.core, n, status)
    && (status.Running? ==> n == Waited(s, sched)) && (status.Stopped? ==> n < Waited(s, sched))
  }

  lemma FlightEnds(w: World, s: State, sched: Sched) returns (n: nat)
    requires Inv(w, s) && s.phase == RUNNING && FetchesOnly(w.host.cpu) && Resumable(w, s, Cont)
    ensures var p := Prepared(s).tracee;
            FlightEndsAt(w, s, sched, n, Fly(w.host.cpu, Cont, p.text, p.core, Site(s), sched).0)
    ensures Framed(Prepared(s).tracee.text, s.tracee.origin, Addrs(s.bps))
    ensures Framed(ArmedText(s), s.tracee.origin, Addrs(s.bps))
  {
    var p := Prepared(s).tracee;
    PreparedKeepsText(w, s);
    FlyKeepsText(w, s, p, Cont, Sched(Some(0), 0));
    n := FlyEnds(w.host.cpu, p.text, p.origin, Addrs(s.bps), p.core, Site(s), sched);
  }

  lemma FlightMissesNothing(w: World, s: State, sched: Sched) returns (m: nat)
    requires Inv(w, s) && s.phase == RUNNING && FetchesOnly(w.host.cpu) && Resumable(w, s, Cont)
    ensures var p := Prepared(s).tracee;
            var status := Fly(w.host.cpu, Cont, p.text, p.core, Site(s), sched).0;
            Reached(w, s, sched, m, status) && (status.Running? ==> m == Waited(s, sched))
    ensures NothingMissed(w, s, sched, m)
  {
    var cpu, listed, p := w.host.cpu, Addrs(s.bps), Prepared(s).tracee;
    var k, armed := Landing(s, sched), ArmedText(s);
    var n := FlightEnds(w, s, sched);
    var status := Fly(cpu, Cont, p.text, p.core, Site(s), sched).0;
    m := n;
    if status.Stopped? {
      m := SettledStop(cpu, TextAt(p.text, armed, k, n), p.origin, listed, p.core, n);
      MayPassIff(w, s, sched, status.core.regs.rip - 1, n);
    }
    forall i: nat | i < n
      ensures Undebugged(cpu, p.origin, p.core, i).At?
      ensures MayPass(s, sched, Undebugged(cpu, p.origin, p.core, i).core.regs.rip, i)
    {
      assert GoesOn(TextAt(p.text, armed, k, i), Undebugged(cpu, p.origin, p.core, i));
      MayPassIff(w, s, sched, Undebugged(cpu, p.origin, p.core, i).core.regs.rip, i);
    }
  }

  /**
   What is shown, or the exit reported, is where the undebugged run is after `m` instructions; while the
   process has not stopped, they are all that the debugger has waited for.
   */
  ghost predicate Arrives(w: World, s: State, sched: Sched, m: nat, o: Outcome)
    requires s.bpIdx == -1 || 0 <= s.bpIdx < |s.bps|
  {
    var p := Undebugged(w.host.cpu, s.tracee.origin, Prepared(s).tracee.core, m);
    match o
    case Undefined => false
    case Blocked => p.At? && m == Waited(s, sched)
    case Done(t, report) =>
      match report
      case Ended(code) => p == Gone(code)
      case Quiet => p == At(Effective(t))
      case Hit(a, _) => p == At(Effective(t)) && !MayPass(s, sched, a, m)
  }

  /**
   `cont` misses nothing: up to where it ended, or for as long as the debugger has waited, the undebugged
   run has stood on no listed address that cannot be passed; whatever is armed, and whenever the
   re-arming write lands.
   */
  lemma ContinueMissesNothing(w: World, s: State, sched: Sched) returns (m: nat)
    requires Inv(w, s) && s.phase == RUNNING && FetchesOnly(w.host.cpu) && Resumable(w, s, Cont)
    ensures Arrives(w, s, sched, m, Resume(w.host, s, Cont, sched))
    ensures NothingMissed(w, s, sched, m)
  {
    m := FlightMissesNothing(w, s, sched);
    ResumeShows(w.host, s, Cont, sched);
  }

  // ------------------------------------------------------------------ and the first one is hit

  /** A process does not go past `a` after `i` instructions: a breakpoint there traps, or the program itself. */
  predicate Blocks(s: State, sched: Sched, a: int, i: nat)
    requires s.bpIdx == -1 || 0 <= s.bpIdx < |s.bps|
  {
    if a in Addrs(s.bps) then !MayPass(s, sched, a, i) else Trapping(s.tracee.origin, a)
  }

  lemma BlocksIff(w: World, s: State, sched: Sched, a: int, i: nat)
    requires Inv(w, s) && s.phase == RUNNING && (s.bpIdx == -1 || 0 <= s.bpIdx < |s.bps|)
    requires Framed(Prepared(s).tracee.text, s.tracee.origin, Addrs(s.bps))
    requires Framed(ArmedText(s), s.tracee.origin, Addrs(s.bps))
    ensures Blocks(s, sched, a, i)
       <==> Trapping(TextAt(Prepared(s).tracee.text, ArmedText(s), Landing(s, sched), i), a)
  {
    MayPassIff(w, s, sched, a, i);
  }

  predicate Unblocked(s: State, sched: Sched, p: Progress, i: nat)
    requires s.bpIdx == -1 || 0 <= s.bpIdx < |s.bps|
  {
    p.At? && !Blocks(s, sched, p.core.regs.rip, i)
  }

  ghost predicate Open(w: World, s: State, sched: Sched, n: nat)
    requires s.bpIdx == -1 || 0 <= s.bpIdx < |s.bps|
  {
    forall i: nat :: i < n ==>
      Unblocked(s, sched, Undebugged(w.host.cpu, s.tracee.origin, Prepared(s).tracee.core, i), i)
  }

  /** The undebugged run first comes to something that blocks it after `n` instructions: a listed address. */
  ghost predicate ComesFirst(w: World, s: State, sched: Sched, n: nat)
    requires s.bpIdx == -1 || 0 <= s.bpIdx < |s.bps|
  {
    && Open(w, s, sched, n)
    && var p := Undebugged(w.host.cpu, s.tracee.origin, Prepared(s).tracee.core, n);
       p.At? && p.core.regs.rip in Addrs(s.bps) && Blocks(s, sched, p.core.regs.rip, n)
  }

  predicate HitAt(o: Outcome, p: Progress) {
    o.Done? && o.report.Hit? && p == At(Effective(o.s)) && o.report.addr == o.s.regs.rip
  }

  lemma OpenIffClear(w: World, s: State, sched: Sched, n: nat)
    requires Inv(w, s) && s.phase == RUNNING && (s.bpIdx == -1 || 0 <= s.bpIdx < |s.bps|)
    requires Framed(Prepared(s).tracee.text, s.tracee.origin, Addrs(s.bps))
    requires Framed(ArmedText(s), s.tracee.origin, Addrs(s.bps))
    ensures var p := Prepared(s).tracee;
            Open(w, s, sched, n)
            <==> Clear(w.host.cpu, p.text, ArmedText(s), Landing(s, sched), p.origin, p.core, n)
  {
    var p, armed, k := Prepared(s).tracee, ArmedText(s), Landing(s, sched);
    forall i: nat
      ensures Unblocked(s, sched, Undebugged(w.host.cpu, p.origin, p.core, i), i)
         <==> GoesOn(TextAt(p.text, armed, k, i), Undebugged(w.host.cpu, p.origin, p.core, i))
    {
      var q := Undebugged(w.host.cpu, p.origin, p.core, i);
      if q.At? {
        BlocksIff(w, s, sched, q.core.regs.rip, i);
      }
    }
    if Open(w, s, sched, n) {
      forall i: nat | i < n
        ensures GoesOn(TextAt(p.text, armed, k, i), Undebugged(w.host.cpu, p.origin, p.core, i))
      {
        assert Unblocked(s, sched, Undebugged(w.host.cpu, p.origin, p.core, i), i);
      }
    }
    if Clear(w.host.cpu, p.text, armed, k, p.origin, p.core, n) {
      forall i: nat | i < n
        ensures Unblocked(s, sched, Undebugged(w.host.cpu, p.origin, p.core, i), i)
      {
        assert GoesOn(TextAt(p.text, armed, k, i), Undebugged(w.host.cpu, p.origin, p.core, i));
      }
    }
  }

  /** A listed address that is come to first, before the debugger has stopped waiting, is hit. */
  lemma FirstIsHit(w: World, s: State, sched: Sched, n: nat)
    requires Inv(w, s) && s.phase == RUNNING && FetchesOnly(w.host.cpu) && Resumable(w, s, Cont)
    requires ComesFirst(w, s, sched, n) && n < Waited(s, sched)
    ensures HitAt(Resume(w.host, s, Cont, sched),
                  Undebugged(w.host.cpu, s.tracee.origin, Prepared(s).tracee.core, n))
  {
    var cpu, p := w.host.cpu, Prepared(s).tracee;
    var q := Undebugged(cpu, p.origin, p.core, n);
    var m := FlightEnds(w, s, sched);
    OpenIffClear(w, s, sched, n);
    BlocksIff(w, s, sched, q.core.regs.rip, n);
    var status := Fly(cpu, Cont, p.text, p.core, Site(s), sched).0;
    EndsAtFirstTrap(cpu, p.text, ArmedText(s), Landing(s, sched), p.origin, p.core, n, m, status);
    ResumeShows(w.host, s, Cont, sched);
    assert AtRip(AtRip(q.core, q.core.regs.rip + 1), q.core.regs.rip) == q.core;
  }

  lemma HitIsFirst(w: World, s: State, sched: Sched) returns (n: nat)
    requires Inv(w, s) && s.phase == RUNNING && FetchesOnly(w.host.cpu) && Resumable(w, s, Cont)
    requires var o := Resume(w.host, s, Cont, sched); o.Done? && o.report.Hit?
    ensures ComesFirst(w, s, sched, n) && n < Waited(s, sched)
  {
    n := FlightEnds(w, s, sched);
    ResumeShows(w.host, s, Cont, sched);
    OpenIffClear(w, s, sched, n);
    var q := Undebugged(w.host.cpu, s.tracee.origin, Prepared(s).tracee.core, n);
    BlocksIff(w, s, sched, q.core.regs.rip, n);
  }

  /**
   `cont` reports a hit exactly when the undebugged run comes to a blocking listed address, before
   anything else that blocks and within the time waited; and the hit is there.
   */
  lemma ContinueHitsIff(w: World, s: State, sched: Sched)
    requires Inv(w, s) && s.phase == RUNNING && FetchesOnly(w.host.cpu) && Resumable(w, s, Cont)
    ensures var o := Resume(w.host, s, Cont, sched);
            o.Done? && o.report.Hit? <==> exists n: nat :: n < Waited(s, sched) && ComesFirst(w, s, sched, n)
    ensures forall n: nat :: n < Waited(s, sched) && ComesFirst(w, s, sched, n) ==>
              HitAt(Resume(w.host, s, Cont, sched),
                    Undebugged(w.host.cpu, s.tracee.origin, Prepared(s).tracee.core, n))
  {
    forall n: nat | n < Waited(s, sched) && ComesFirst(w, s, sched, n)
      ensures HitAt(Resume(w.host, s, Cont, sched),
                    Undebugged(w.host.cpu, s.tracee.origin, Prepared(s).tracee.core, n))
    {
      FirstIsHit(w, s, sched, n);
    }
    var o := Resume(w.host, s, Cont, sched);
    if o.Done? && o.report.Hit? {
      var n := HitIsFirst(w, s, sched);
    }
  }

  // ------------------------------------------------------------------ with every breakpoint armed

  /** No breakpoint that can be armed is passed but the one started from, before its write lands. */
  ghost predicate OnlySitePassed(w: World, s: State, sched: Sched, m: nat)
    requires s.bpIdx == -1 || 0 <= s.bpIdx < |s.bps|
  {
    forall i: nat :: i < m ==>
      && Undebugged(w.host.cpu, s.tracee.origin, Prepared(s).tracee.core, i).At?
      && var rip := Undebugged(w.host.cpu, s.tracee.origin, Prepared(s).tracee.core, i).core.regs.rip;
         rip in Addrs(s.bps) && Readable(s.tracee.text, rip) ==>
           && s.bpIdx != -1 && rip == s.bps[s.bpIdx].addr
           && sched.rearm.Some? && i < sched.rearm.value
  }

  lemma ArmedMeansOnlySite(w: World, s: State, sched: Sched, m: nat)
    requires s.phase == RUNNING && AllArmed(s) && (s.bpIdx == -1 || 0 <= s.bpIdx < |s.bps|)
    requires (s.bpIdx != -1 ==> sched.rearm.Some?) && NothingMissed(w, s, sched, m)
    ensures OnlySitePassed(w, s, sched, m)
  {
    forall a, i: nat | a in Addrs(s.bps) && Readable(s.tracee.text, a) && MayPass(s, sched, a, i)
      ensures s.bpIdx != -1 && a == s.bps[s.bpIdx].addr && sched.rearm.Some? && i < sched.rearm.value
    {
      var j := AddrsIndex(s.bps, a);
    }
  }

  /**
   With every writable breakpoint armed, what blocks: an INT3 of the program's own, and a writable
   breakpoint, but for the one started from until it is written back.
   */
  predicate Guarded(s: State, sched: Sched, a: int, i: nat)
    requires s.bpIdx == -1 || 0 <= s.bpIdx < |s.bps|
  {
    || Trapping(s.tracee.origin, a)
    || (&& a in Addrs(s.bps) && Readable(s.tracee.text, a)
        && (s.bpIdx != -1 && a == s.bps[s.bpIdx].addr ==> sched.rearm.Some? && sched.rearm.value <= i))
  }

  lemma GuardedIff(w: World, s: State, sched: Sched, a: int, i: nat)
    requires Inv(w, s) && s.phase == RUNNING && AllArmed(s) && (s.bpIdx == -1 || 0 <= s.bpIdx < |s.bps|)
    ensures Guarded(s, sched, a, i) <==> Blocks(s, sched, a, i)
  {
    if a in Addrs(s.bps) {
      var j := AddrsIndex(s.bps, a);
      SavedIsOrigin(w, s, j);
      if s.bpIdx != -1 {
        SavedIsOrigin(w, s, s.bpIdx);
      }
    }
  }

  predicate Unguarded(s: State, sched: Sched, p: Progress, i: nat)
    requires s.bpIdx == -1 || 0 <= s.bpIdx < |s.bps|
  {
    p.At? && !Guarded(s, sched, p.core.regs.rip, i)
  }

  /** The undebugged run first comes to something guarded after `n` instructions: a listed address. */
  ghost predicate GuardedFirst(w: World, s: State, sched: Sched, n: nat)
    requires s.bpIdx == -1 || 0 <= s.bpIdx < |s.bps|
  {
    var c := Prepared(s).tracee.core;
    && (forall i: nat :: i < n ==> Unguarded(s, sched, Undebugged(w.host.cpu, s.tracee.origin, c, i), i))
    && var p := Undebugged(w.host.cpu, s.tracee.origin, c, n);
       p.At? && p.core.regs.rip in Addrs(s.bps) && Guarded(s, sched, p.core.regs.rip, n)
  }

  lemma GuardedFirstIff(w: World, s: State, sched: Sched, n: nat)
    requires Inv(w, s) && s.phase == RUNNING && AllArmed(s) && (s.bpIdx == -1 || 0 <= s.bpIdx < |s.bps|)
    ensures GuardedFirst(w, s, sched, n) <==> ComesFirst(w, s, sched, n)
  {
    var c := Prepared(s).tracee.core;
    forall i: nat
      ensures var p := Undebugged(w.host.cpu, s.tracee.origin, c, i);
              && (Unguarded(s, sched, p, i) <==> Unblocked(s, sched, p, i))
              && (p.At? ==> (Guarded(s, sched, p.core.regs.rip, i) <==> Blocks(s, sched, p.core.regs.rip, i)))
    {
      var p := Undebugged(w.host.cpu, s.tracee.origin, c, i);
      if p.At? {
        GuardedIff(w, s, sched, p.core.regs.rip, i);
      }
    }
  }

  // ------------------------------------------------------------------ over whole sessions

  /** The state that a session's last command, a `run` or `cont`, resumes a process from. */
  function Departure(h: Host, s: State, cmds: seq<Command>): Option<State>
    requires Lifecycle(s)
  {
    if cmds == [] || !RunSession(h, s, cmds[..|cmds| - 1]).Done? then None
    else
      var b := RunSession(h, s, cmds[..|cmds| - 1]).s;
      match cmds[|cmds| - 1]
      case Exec(l, _) => if b.phase == BEGIN then None else Some(Target(b, l))
      case Continue(_) => if b.phase == RUNNING then Some(b) else None
      case _ => None
  }

  lemma DepartureHolds(w: World, s: State, cmds: seq<Command>)
    requires Inv(w, s) && AllArmed(s) && SoundSession(w, s, cmds)
    requires Departure(w.host, s, cmds).Some? && LandingSession(w.host, s, cmds[..|cmds| - 1])
    ensures var t, sched := Departure(w.host, s, cmds).value, cmds[|cmds| - 1].sched;
            && Inv(w, t) && t.phase == RUNNING && AllArmed(t)
            && (LandingSession(w.host, s, cmds) && t.bpIdx != -1 ==> sched.rearm.Some?)
            && RunSession(w.host, s, cmds) == Resume(w.host, t, Cont, sched)
  {
    var n := |cmds| - 1;
    var b := RunSession(w.host, s, cmds[..n]).s;
    SessionKeepsInv(w, s, cmds[..n]);
    SessionKeepsArmed(w.host, s, cmds[..n]);
    if b.phase == LOADED {
      LaunchedKeepsInv(w, b, cmds[n].launch);
      LaunchedArmed(b, cmds[n].launch);
    }
  }

  /**
   Nothing is missed: after any session whose re-arming writes all land, a `run` or `cont` passes no
   breakpoint that can be armed, but for the one it starts from until that one is written back; neither up to
   where it stopped or ended, nor for as long as the debugger has waited.
   */
  lemma SessionMissesNothing(w: World, s: State, cmds: seq<Command>) returns (m: nat)
    requires Inv(w, s) && AllArmed(s) && FetchesOnly(w.host.cpu)
    requires SoundSession(w, s, cmds) && LandingSession(w.host, s, cmds)
    requires var t := Departure(w.host, s, cmds); t.Some? && Resumable(w, t.value, Cont)
    ensures var t, sched := Departure(w.host, s, cmds).value, cmds[|cmds| - 1].sched;
            && Arrives(w, t, sched, m, RunSession(w.host, s, cmds))
            && OnlySitePassed(w, t, sched, m)
  {
    DepartureHolds(w, s, cmds);
    var t, sched := Departure(w.host, s, cmds).value, cmds[|cmds| - 1].sched;
    m := ContinueMissesNothing(w, t, sched);
    ArmedMeansOnlySite(w, t, sched, m);
  }

  /**
   After any session whose re-arming writes have landed so far, a `run` or `cont` reports a hit exactly when
   the undebugged program comes to a guarded breakpoint first and in time, and the hit is there. What is
   guarded depends on the program, the list and the landing time alone.
   */
  lemma SessionHitsIff(w: World, s: State, cmds: seq<Command>)
    requires Inv(w, s) && AllArmed(s) && FetchesOnly(w.host.cpu) && SoundSession(w, s, cmds)
    requires var t := Departure(w.host, s, cmds); t.Some? && Resumable(w, t.value, Cont)
    requires LandingSession(w.host, s, cmds[..|cmds| - 1])
    ensures var t, sched := Departure(w.host, s, cmds).value, cmds[|cmds| - 1].sched;
            var o := RunSession(w.host, s, cmds);
            && (o.Done? && o.report.Hit? <==>
                  exists n: nat :: n < Waited(t, sched) && GuardedFirst(w, t, sched, n))
            && forall n: nat :: n < Waited(t, sched) && GuardedFirst(w, t, sched, n) ==>
                 HitAt(o, Undebugged(w.host.cpu, t.tracee.origin, Prepared(t).tracee.core, n))
  {
    DepartureHolds(w, s, cmds);
    var t, sched := Departure(w.host, s, cmds).value, cmds[|cmds| - 1].sched;
    ContinueHitsIff(w, t, sched);
    forall n: nat
      ensures GuardedFirst(w, t, sched, n) <==> ComesFirst(w, t, sched, n)
    {
      GuardedFirstIff(w, t, sched, n);
    }
  }
}
