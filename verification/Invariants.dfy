/** What every session keeps: where breakpoints lie, what their saved bytes are, what tracee memory holds. */
module Invariants {
  import opened Words
  import opened Wrappers
  import opened Machine
  import opened Session
  import Elf

  /**
   The program under test as the debugger's addresses see it: `image` holds the bytes of its executable
   mapping, each at its address less the load base that the debugger works with, and `hi` is the mapping's end.
   */
  datatype World = World(host: Host, image: Memory, hi: int)

  ghost predicate MappedAt(w: World, mem: Memory, base: int) {
    forall a :: a in w.image ==> a + base in mem && mem[a + base] == w.image[a]
  }

  /** A process shows the same image as every other, from the base the debugger computes for it. */
  ghost predicate LaunchMatches(w: World, s: State, l: Launch)
    requires Lifecycle(s) && s.phase == LOADED
  {
    MappedAt(w, l.text, LoadBase(s, l)) && l.mapEnd == w.hi + LoadBase(s, l)
  }

  function Shift(s: State): int {
    if s.phase == RUNNING then s.base else 0
  }

  /** The breakpoint list with link-time addresses. */
  function Relative(s: State): seq<BP> {
    Rebased(s.bps, -Shift(s))
  }

  ghost predicate Distinct(bps: seq<BP>) {
    forall i, j :: 0 <= i < j < |bps| ==> bps[i].addr != bps[j].addr
  }

  /** Each breakpoint lies in the image, and its saved byte is the image's. */
  ghost predicate SavedRight(w: World, bps: seq<BP>, shift: int) {
    forall i :: 0 <= i < |bps| ==> bps[i].addr - shift in w.image && bps[i].saved == w.image[bps[i].addr - shift]
  }

  /** Tracee memory is what was mapped, but for INT3 at listed addresses; the mapping holds the image. */
  ghost predicate TextInv(w: World, t: Tracee, listed: set<int>, base: int) {
    Framed(t.text, t.origin, listed) && MappedAt(w, t.origin, base)
  }

  ghost predicate Inv(w: World, s: State) {
    && Lifecycle(s)
    && Distinct(s.bps)
    && SavedRight(w, s.bps, Shift(s))
    && (s.phase == RUNNING ==> TextInv(w, s.tracee, Addrs(s.bps), s.base) && s.last == w.hi + s.base)
  }

  // ------------------------------------------------------------------ installing breakpoints

  /** Arming any list of addresses changes exactly the readable listed bytes, however close they lie. */
  lemma {:induction false} InstallExact(text: Memory, bps: seq<BP>)
    ensures Install(text, bps).Keys == text.Keys
    ensures forall x :: x in text ==>
              Install(text, bps)[x] == if x in Addrs(bps) && Readable(text, x) then INT3 else text[x]
    decreases |bps|
  {
    if bps != [] {
      var rest, bp := bps[..|bps| - 1], bps[|bps| - 1];
      InstallExact(text, rest);
      SameKeysSameReadable(Install(text, rest), text);
      assert bps == rest + [bp];
      AddrsOfAppend(rest, bp);
    }
  }

  lemma InstallOrderIndependent(text: Memory, bps: seq<BP>, other: seq<BP>)
    requires Addrs(bps) == Addrs(other)
    ensures Install(text, bps) == Install(text, other)
  {
    InstallExact(text, bps);
    InstallExact(text, other);
    var m, n := Install(text, bps), Install(text, other);
    assert forall x :: x in text ==> m[x] == n[x];
    assert m.Keys == n.Keys;
  }

  /** Word-wide arming and disarming of different addresses commute, even within one word. */
  lemma PokesCommute(text: Memory, a: int, x: byte, b: int, y: byte)
    requires a != b
    ensures PokeByte(PokeByte(text, a, x), b, y) == PokeByte(PokeByte(text, b, y), a, x)
  {
    PokeIsPatch(text, a, x);
    PokeIsPatch(text, b, y);
    var first, second := Patch(text, a, x), Patch(text, b, y);
    PokeIsPatch(first, b, y);
    PokeIsPatch(second, a, x);
    SameKeysSameReadable(first, text);
    SameKeysSameReadable(second, text);
  }

  // ------------------------------------------------------------------ addresses of a changed list

  lemma AddrsIndex(bps: seq<BP>, a: int) returns (i: int)
    requires a in Addrs(bps)
    ensures 0 <= i < |bps| && bps[i].addr == a
  {
    i :| 0 <= i < |bps| && bps[i].addr == a;
  }

  lemma AddrsOfAppend(bps: seq<BP>, bp: BP)
    ensures Addrs(bps + [bp]) == Addrs(bps) + {bp.addr}
  {
    assert (bps + [bp])[|bps|] == bp;
    forall x | x in Addrs(bps) ensures x in Addrs(bps + [bp]) {
      var i := AddrsIndex(bps, x);
      assert (bps + [bp])[i] == bps[i];
    }
  }

  function Erase(bps: seq<BP>, idx: nat): seq<BP>
    requires idx < |bps|
  {
    bps[..idx] + bps[idx + 1..]
  }

  lemma AddrsOfErase(bps: seq<BP>, idx: nat)
    requires idx < |bps| && Distinct(bps)
    ensures Addrs(Erase(bps, idx)) == Addrs(bps) - {bps[idx].addr} && Distinct(Erase(bps, idx))
  {
    var rest := Erase(bps, idx);
    forall x | x in Addrs(bps) - {bps[idx].addr} ensures x in Addrs(rest) {
      var i := AddrsIndex(bps, x);
      assert rest[if i < idx then i else i - 1].addr == x;
    }
    forall x | x in Addrs(rest) ensures x in Addrs(bps) - {bps[idx].addr} {
      var i := AddrsIndex(rest, x);
      assert rest[i] == bps[if i < idx then i else i + 1];
    }
  }

  // ------------------------------------------------------------------ each command keeps the invariant

  lemma PatchKeepsText(w: World, t: Tracee, listed: set<int>, base: int, a: int, b: byte)
    requires TextInv(w, t, listed, base)
    requires a in t.origin && b != t.origin[a] ==> a in listed && b == INT3
    ensures TextInv(w, t.(text := Patch(t.text, a, b)), listed, base)
  {
    SameKeysSameReadable(t.text, Patch(t.text, a, b));
  }

  /** Putting the mapped byte back makes an address free to be unlisted. */
  lemma RestoreUnlists(w: World, t: Tracee, listed: set<int>, base: int, a: int, b: byte)
    requires TextInv(w, t, listed, base) && a in t.origin && b == t.origin[a]
    ensures TextInv(w, t.(text := Patch(t.text, a, b)), listed - {a}, base)
  {
    SameKeysSameReadable(t.text, Patch(t.text, a, b));
  }

  /** In a running process, a listed byte's saved value is what was mapped there. */
  lemma SavedIsOrigin(w: World, s: State, i: nat)
    requires SavedRight(w, s.bps, s.base) && MappedAt(w, s.tracee.origin, s.base) && i < |s.bps|
    ensures s.bps[i].addr in s.tracee.origin && s.tracee.origin[s.bps[i].addr] == s.bps[i].saved
  {
    var r := s.bps[i].addr - s.base;
    assert r in w.image;
    assert r + s.base == s.bps[i].addr;
  }

  /** The file's byte for an address of a section; past the end of the file, where the source reads nothing, 0. */
  predicate FileHolds(f: Elf.File, t: Elf.Shdr, addr: int, b: byte) {
    var pos := t.offset + (addr - t.addr);
    if 0 <= pos < |f.bytes| then f.bytes[pos] == b else b == 0
  }

  /**
   The condition under which an accepted breakpoint saves the right byte: the address is in the image, and
   its byte is what the file has there, or can be peeked, or is the 0xFF that a failed peek gives.
   */
  predicate SafeBreak(w: World, s: State, addr: int)
    requires Lifecycle(s)
  {
    && addr - Shift(s) in w.image
    && (s.phase == LOADED ==> FileHolds(s.elf.value, TextSection(s), addr, w.image[addr]))
    && (s.phase == RUNNING ==> Readable(s.tracee.text, addr) || w.image[addr - s.base] == 0xFF)
  }

  /**
   `break` keeps every saved byte right exactly under `SafeBreak`: on a running process the bound check lets the
   address just past the mapping through, and a failed peek saves 0xFF.
   */
  lemma BreakSavesRightByteIff(w: World, s: State, addr: int)
    requires Inv(w, s) && Accepts(s, addr)
    ensures SavedRight(w, SetBp(s, addr).bps, Shift(s)) <==> SafeBreak(w, s, addr)
  {
    var t := SetBp(s, addr);
    var n := |s.bps|;
    assert t.bps[n].addr == addr && forall i :: 0 <= i < n ==> t.bps[i] == s.bps[i];
    if s.phase == RUNNING {
      SavedByteOfPeek(s.tracee.text, addr);
      if addr - s.base in w.image {
        assert addr - s.base + s.base == addr;
        assert addr in s.tracee.text && s.tracee.text[addr] == s.tracee.origin[addr];
      }
    }
  }

  lemma AppendDistinct(bps: seq<BP>, bp: BP)
    requires Distinct(bps) && bp.addr !in Addrs(bps)
    ensures Distinct(bps + [bp])
  {
    var longer := bps + [bp];
    forall i, j | 0 <= i < j < |longer|
      ensures longer[i].addr != longer[j].addr
    {
      if j == |bps| {
        assert bps[i].addr in Addrs(bps);
      }
    }
  }

  lemma ArmingKeepsText(w: World, t: Tracee, listed: set<int>, base: int, a: int)
    requires TextInv(w, t, listed, base)
    ensures TextInv(w, t.(text := Patch(t.text, a, INT3)), listed + {a}, base)
  {
    SameKeysSameReadable(t.text, Patch(t.text, a, INT3));
  }

  /** An accepted breakpoint keeps the list right under `SafeBreak`. */
  lemma SetBpKeepsList(w: World, s: State, addr: int)
    requires Inv(w, s) && Accepts(s, addr) && SafeBreak(w, s, addr)
    ensures Distinct(SetBp(s, addr).bps) && SavedRight(w, SetBp(s, addr).bps, Shift(s))
  {
    AppendDistinct(s.bps, SetBp(s, addr).bps[|s.bps|]);
    BreakSavesRightByteIff(w, s, addr);
  }

  lemma SetBpKeepsInv(w: World, s: State, addr: int)
    requires Inv(w, s)
    requires Accepts(s, addr) ==> SafeBreak(w, s, addr)
    ensures Inv(w, SetBp(s, addr))
  {
    if Accepts(s, addr) {
      SetBpKeepsList(w, s, addr);
      if s.phase == RUNNING {
        AddrsOfAppend(s.bps, SetBp(s, addr).bps[|s.bps|]);
        ArmingKeepsText(w, s.tracee, Addrs(s.bps), s.base, addr);
      }
    }
  }

  lemma DeleteBpKeepsInv(w: World, s: State, idx: nat)
    requires Inv(w, s)
    ensures Inv(w, DeleteBp(s, idx))
  {
    if idx < |s.bps| {
      AddrsOfErase(s.bps, idx);
      var rest := Erase(s.bps, idx);
      assert forall i :: 0 <= i < |rest| ==> rest[i] == s.bps[if i < idx then i else i + 1];
      assert SavedRight(w, rest, Shift(s));
      if s.phase == RUNNING {
        SavedIsOrigin(w, s, idx);
        RestoreUnlists(w, s.tracee, Addrs(s.bps), s.base, s.bps[idx].addr, s.bps[idx].saved);
      }
    }
  }

  lemma RebasedKeepsList(w: World, bps: seq<BP>, shift: int, delta: int)
    requires Distinct(bps) && SavedRight(w, bps, shift)
    ensures Distinct(Rebased(bps, delta)) && SavedRight(w, Rebased(bps, delta), shift + delta)
  {
    forall i | 0 <= i < |bps|
      ensures var r := Rebased(bps, delta)[i];
              r.addr - (shift + delta) in w.image && r.saved == w.image[r.addr - (shift + delta)]
    {
      assert Rebased(bps, delta)[i].addr - (shift + delta) == bps[i].addr - shift;
    }
  }

  lemma InstalledText(w: World, t: Tracee, mem: Memory, bps: seq<BP>, base: int)
    requires t.origin == mem && t.text == Install(mem, bps) && MappedAt(w, mem, base)
    ensures TextInv(w, t, Addrs(bps), base)
  {
    InstallExact(mem, bps);
    SameKeysSameReadable(mem, t.text);
  }

  /** Moving every breakpoint by the change of load base keeps what the invariant says of the list. */
  lemma InvOfRebased(w: World, s: State, t: State, delta: int)
    requires Inv(w, s) && Lifecycle(t) && s.phase != BEGIN && t.phase != BEGIN
    requires t.elf == s.elf && t.textIdx == s.textIdx
    requires t.bps == Rebased(s.bps, delta) && Shift(t) == Shift(s) + delta
    requires t.phase == RUNNING ==> TextInv(w, t.tracee, Addrs(t.bps), t.base) && t.last == w.hi + t.base
    ensures Inv(w, t)
  {
    RebasedKeepsList(w, s.bps, Shift(s), delta);
  }

  lemma LaunchedKeepsInv(w: World, s: State, l: Launch)
    requires Inv(w, s) && s.phase == LOADED && LaunchMatches(w, s, l)
    ensures Inv(w, Launched(s, l))
  {
    var b := LoadBase(s, l);
    InstalledText(w, Launched(s, l).tracee, l.text, Rebased(s.bps, b), b);
    InvOfRebased(w, s, Launched(s, l), b);
  }

  lemma TerminatedKeepsInv(w: World, s: State)
    requires Inv(w, s) && s.phase == RUNNING
    ensures Inv(w, Terminated(s))
  {
    InvOfRebased(w, s, Terminated(s), -s.base);
  }

  /** The invariant says nothing about registers, `bp_idx` or the remembered addresses. */
  lemma InvOfSameList(w: World, s: State, t: State)
    requires Inv(w, s) && s.phase == RUNNING && Lifecycle(t)
    requires t.phase == RUNNING && t.elf == s.elf && t.textIdx == s.textIdx
    requires t.bps == s.bps && t.base == s.base && t.last == s.last
    requires TextInv(w, t.tracee, Addrs(s.bps), s.base)
    ensures Inv(w, t)
  {
  }

  lemma PreparedKeepsText(w: World, s: State)
    requires Inv(w, s) && s.phase == RUNNING && s.bpIdx < |s.bps|
    ensures TextInv(w, Prepared(s).tracee, Addrs(s.bps), s.base)
  {
    if s.bpIdx != -1 {
      SavedIsOrigin(w, s, s.bpIdx);
      PatchKeepsText(w, s.tracee, Addrs(s.bps), s.base, s.bps[s.bpIdx].addr, s.bps[s.bpIdx].saved);
    }
  }

  lemma FlyKeepsText(w: World, s: State, t: Tracee, mode: Mode, sched: Sched)
    requires s.bpIdx == -1 || 0 <= s.bpIdx < |s.bps|
    requires TextInv(w, t, Addrs(s.bps), s.base)
    ensures TextInv(w, t.(text := Fly(w.host.cpu, mode, t.text, t.core, Site(s), sched).1), Addrs(s.bps), s.base)
  {
    if s.bpIdx != -1 {
      assert s.bps[s.bpIdx].addr in Addrs(s.bps);
      PatchKeepsText(w, t, Addrs(s.bps), s.base, s.bps[s.bpIdx].addr, INT3);
    }
  }

  /** The state as the process has come to rest, before anything looks at its registers. */
  function Flown(h: Host, s: State, mode: Mode, sched: Sched, c: Core): State
    requires s.bpIdx == -1 || 0 <= s.bpIdx < |s.bps|
  {
    var p := Prepared(s);
    p.(tracee := p.tracee.(core := c, text := Fly(h.cpu, mode, p.tracee.text, p.tracee.core, Site(s), sched).1))
  }

  lemma FlownKeepsInv(w: World, s: State, mode: Mode, sched: Sched, c: Core)
    requires Inv(w, s) && s.phase == RUNNING && s.bpIdx < |s.bps|
    ensures Inv(w, Flown(w.host, s, mode, sched, c))
  {
    PreparedKeepsText(w, s);
    FlyKeepsText(w, s, Prepared(s).tracee, mode, sched);
    InvOfSameList(w, s, Flown(w.host, s, mode, sched, c));
  }

  lemma CheckKeepsInv(w: World, s: State)
    requires Inv(w, s) && s.phase == RUNNING
    ensures Inv(w, CheckIfBp(s))
  {
    InvOfSameList(w, s, CheckIfBp(s));
  }

  lemma ResumeKeepsInv(w: World, s: State, mode: Mode, sched: Sched)
    requires Inv(w, s) && s.phase == RUNNING
    ensures var o := Resume(w.host, s, mode, sched);
            o.Done? ==> Inv(w, o.s)
  {
    if s.bpIdx < |s.bps| {
      var p := Prepared(s).tracee;
      match Fly(w.host.cpu, mode, p.text, p.core, Site(s), sched).0
      case Running(_) =>
      case Stopped(c) =>
        FlownKeepsInv(w, s, mode, sched, c);
        CheckKeepsInv(w, Flown(w.host, s, mode, sched, c));
      case Exited(_) =>
        FlownKeepsInv(w, s, mode, sched, p.core);
        TerminatedKeepsInv(w, Flown(w.host, s, mode, sched, p.core));
    }
  }

  /** What the environment and the user owe for the invariant; everything else is free. */
  ghost predicate Sound(w: World, s: State, cmd: Command)
    requires Lifecycle(s)
  {
    match cmd
    case Break(addr) => Accepts(s, addr) ==> SafeBreak(w, s, addr)
    case Start(l) => s.phase == LOADED ==> LaunchMatches(w, s, l)
    case Exec(l, _) => s.phase == LOADED ==> LaunchMatches(w, s, l)
    case _ => true
  }

  ghost predicate Kept(w: World, s: State, cmd: Command)
    requires Lifecycle(s)
  {
    var o := Perform(w.host, s, cmd);
    o.Done? ==> Inv(w, o.s)
  }

  lemma ResumingKeepsInv(w: World, s: State, cmd: Command)
    requires Inv(w, s) && Sound(w, s, cmd) && (cmd.Start? || cmd.Exec? || cmd.Continue? || cmd.StepInto?)
    ensures Kept(w, s, cmd)
  {
    if s.phase == LOADED && (cmd.Start? || cmd.Exec?) {
      LaunchedKeepsInv(w, s, cmd.launch);
      var t := Launched(s, cmd.launch);
      if cmd.Start? {
        CheckKeepsInv(w, t);
      } else {
        ResumeKeepsInv(w, t, Cont, cmd.sched);
      }
    } else if s.phase == RUNNING {
      if cmd.Start? {
        CheckKeepsInv(w, s);
      } else {
        ResumeKeepsInv(w, s, if cmd.StepInto? then Single else Cont, cmd.sched);
      }
    }
  }

  lemma BreakKept(w: World, s: State, addr: int)
    requires Inv(w, s) && Sound(w, s, Break(addr))
    ensures Kept(w, s, Break(addr))
  {
    SetBpKeepsInv(w, s, addr);
    assert Perform(w.host, s, Break(addr)) == Done(SetBp(s, addr), Quiet);
  }

  lemma DeleteKept(w: World, s: State, idx: nat)
    requires Inv(w, s)
    ensures Kept(w, s, Delete(idx))
  {
    DeleteBpKeepsInv(w, s, idx);
    assert Perform(w.host, s, Delete(idx)) == Done(DeleteBp(s, idx), Quiet);
  }

  lemma ViewingKeepsFields(h: Host, s: State, cmd: Command)
    requires Lifecycle(s) && (cmd.Show? || cmd.Disasm? || cmd.Dump? || cmd.SetReg?)
    ensures var o := Perform(h, s, cmd);
            && o.Done? && Lifecycle(o.s) && o.s.phase == s.phase && o.s.elf == s.elf && o.s.textIdx == s.textIdx
            && o.s.bps == s.bps && o.s.base == s.base && o.s.last == s.last
            && o.s.tracee.text == s.tracee.text && o.s.tracee.origin == s.tracee.origin
  {
  }

  lemma ViewingKeepsInv(w: World, s: State, cmd: Command)
    requires Inv(w, s) && (cmd.Show? || cmd.Disasm? || cmd.Dump? || cmd.SetReg?)
    ensures Kept(w, s, cmd)
  {
    ViewingKeepsFields(w.host, s, cmd);
    if s.phase == RUNNING {
      InvOfSameList(w, s, Perform(w.host, s, cmd).s);
    }
  }

  /** Every command keeps the invariant. */
  lemma PerformKeepsInv(w: World, s: State, cmd: Command)
    requires Inv(w, s) && Sound(w, s, cmd)
    ensures Kept(w, s, cmd)
  {
    match cmd
    case Load(_) =>
    case Break(addr) => BreakKept(w, s, addr);
    case Delete(idx) => DeleteKept(w, s, idx);
    case Show => ViewingKeepsInv(w, s, cmd);
    case Disasm(_) => ViewingKeepsInv(w, s, cmd);
    case Dump(_) => ViewingKeepsInv(w, s, cmd);
    case SetReg(_, _) => ViewingKeepsInv(w, s, cmd);
    case _ => ResumingKeepsInv(w, s, cmd);
  }

  /** Puts every saved byte back, one breakpoint after another: tracee memory as the user is meant to see it. */
  function Restore(text: Memory, bps: seq<BP>): Memory {
    if bps == [] then text
    else
      var bp := bps[|bps| - 1];
      Patch(Restore(text, bps[..|bps| - 1]), bp.addr, bp.saved)
  }

  lemma {:induction false} RestoreExact(text: Memory, origin: Memory, bps: seq<BP>)
    requires text.Keys == origin.Keys
    requires forall i :: 0 <= i < |bps| ==> bps[i].addr in origin && bps[i].saved == origin[bps[i].addr]
    ensures Restore(text, bps).Keys == text.Keys
    ensures forall x :: x in text ==>
              Restore(text, bps)[x] == if x in Addrs(bps) && Readable(text, x) then origin[x] else text[x]
    decreases |bps|
  {
    if bps != [] {
      var rest, bp := bps[..|bps| - 1], bps[|bps| - 1];
      RestoreExact(text, origin, rest);
      SameKeysSameReadable(Restore(text, rest), text);
      assert bps == rest + [bp];
      AddrsOfAppend(rest, bp);
    }
  }

  /** With every saved byte put back, tracee memory is what was mapped. */
  lemma RestoredIsMapped(w: World, s: State)
    requires Inv(w, s) && s.phase == RUNNING
    ensures Restore(s.tracee.text, s.bps) == s.tracee.origin
  {
    var text, origin := s.tracee.text, s.tracee.origin;
    forall i | 0 <= i < |s.bps|
      ensures s.bps[i].addr in origin && s.bps[i].saved == origin[s.bps[i].addr]
    {
      SavedIsOrigin(w, s, i);
    }
    RestoreExact(text, origin, s.bps);
    var m := Restore(text, s.bps);
    assert m.Keys == origin.Keys;
    assert forall x :: x in text ==> m[x] == origin[x];
  }

  /** Every command of a session is given in a state where it is `Sound`. */
  ghost predicate SoundSession(w: World, s: State, cmds: seq<Command>)
    requires Lifecycle(s)
    decreases |cmds|
  {
    cmds != [] ==>
      var n := |cmds| - 1;
      var before := RunSession(w.host, s, cmds[..n]);
      SoundSession(w, s, cmds[..n]) && (before.Done? ==> Sound(w, before.s, cmds[n]))
  }

  lemma {:induction false} SessionKeepsInv(w: World, s: State, cmds: seq<Command>)
    requires Inv(w, s) && SoundSession(w, s, cmds)
    ensures var o := RunSession(w.host, s, cmds); o.Done? ==> Inv(w, o.s)
    decreases |cmds|
  {
    if cmds != [] {
      var n := |cmds| - 1;
      SessionKeepsInv(w, s, cmds[..n]);
      var before := RunSession(w.host, s, cmds[..n]);
      if before.Done? {
        PerformKeepsInv(w, before.s, cmds[n]);
      }
    }
  }

  // ------------------------------------------------------------------ the list over whole sessions

  /** What one command does to the base-relative list. */
  datatype Edit = Keep | Append(bp: BP) | Remove(idx: nat)

  /** Only `break` and `delete` edit the list. */
  function EditBy(s: State, cmd: Command): Edit
    requires Lifecycle(s)
  {
    match cmd
    case Break(addr) =>
      if !Accepts(s, addr) then Keep
      else if s.phase == LOADED then Append(BP(addr, FileByte(s, addr)))
      else Append(BP(addr - s.base, LowByte(PeekText(s.tracee.text, addr))))
    case Delete(idx) => Remove(idx)
    case _ => Keep
  }

  function Edited(bps: seq<BP>, e: Edit): seq<BP> {
    match e
    case Keep => bps
    case Append(bp) => bps + [bp]
    case Remove(idx) => if idx < |bps| then Erase(bps, idx) else bps
  }

  lemma RebasedTwice(bps: seq<BP>, delta: int)
    ensures Rebased(Rebased(bps, delta), 0) == Rebased(bps, delta)
    ensures Rebased(Rebased(bps, delta), -delta) == Rebased(bps, 0)
  {
  }

  lemma RebasedErase(bps: seq<BP>, idx: nat, delta: int)
    requires idx < |bps|
    ensures Rebased(Erase(bps, idx), delta) == Erase(Rebased(bps, delta), idx)
  {
  }

  lemma RebasedAppend(bps: seq<BP>, bp: BP, delta: int)
    ensures Rebased(bps + [bp], delta) == Rebased(bps, delta) + [BP(bp.addr + delta, bp.saved)]
  {
  }

  lemma LaunchedConservesList(s: State, l: Launch)
    requires Lifecycle(s) && s.phase == LOADED
    ensures Relative(Launched(s, l)) == Relative(s)
  {
    RebasedTwice(s.bps, LoadBase(s, l));
  }

  lemma ResumeConservesList(h: Host, s: State, mode: Mode, sched: Sched)
    requires s.phase == RUNNING
    ensures var o := Resume(h, s, mode, sched); o.Done? ==> Relative(o.s) == Relative(s)
  {
    RebasedTwice(s.bps, -s.base);
  }

  lemma SetBpAppends(s: State, addr: int)
    requires Lifecycle(s)
    ensures Relative(SetBp(s, addr)) == Edited(Relative(s), EditBy(s, Break(addr)))
  {
    if Accepts(s, addr) {
      RebasedAppend(s.bps, SetBp(s, addr).bps[|s.bps|], -Shift(s));
    }
  }

  lemma DeletedList(s: State, idx: nat)
    requires idx < |s.bps|
    ensures DeleteBp(s, idx).bps == Erase(s.bps, idx) && Shift(DeleteBp(s, idx)) == Shift(s)
  {
  }

  lemma DeleteBpErases(s: State, idx: nat)
    requires Lifecycle(s)
    ensures Relative(DeleteBp(s, idx)) == Edited(Relative(s), EditBy(s, Delete(idx)))
  {
    if idx < |s.bps| {
      DeletedList(s, idx);
      RebasedErase(s.bps, idx, -Shift(s));
      assert Edited(Relative(s), Remove(idx)) == Erase(Relative(s), idx);
    }
  }

  lemma StartConservesList(h: Host, s: State, cmd: Command)
    requires Lifecycle(s) && (cmd.Start? || cmd.Exec?)
    ensures var o := Perform(h, s, cmd); o.Done? ==> Relative(o.s) == Relative(s)
  {
    if s.phase != BEGIN {
      var t := if s.phase == LOADED then Launched(s, cmd.launch) else s;
      if s.phase == LOADED {
        LaunchedConservesList(s, cmd.launch);
      }
      if cmd.Exec? {
        ResumeConservesList(h, t, Cont, cmd.sched);
      } else {
        assert Relative(CheckIfBp(t)) == Relative(t);
      }
    }
  }

  /** Whatever the file, the memory and the load bases are, a command does to the list what `EditBy` says. */
  lemma PerformEditsList(h: Host, s: State, cmd: Command)
    requires Lifecycle(s)
    ensures var o := Perform(h, s, cmd); o.Done? ==> Relative(o.s) == Edited(Relative(s), EditBy(s, cmd))
  {
    match cmd
    case Load(_) =>
    case Break(addr) => SetBpAppends(s, addr);
    case Delete(idx) => DeleteBpErases(s, idx);
    case Show =>
    case Disasm(_) => ViewingKeepsFields(h, s, cmd);
    case Dump(_) => ViewingKeepsFields(h, s, cmd);
    case SetReg(_, _) => ViewingKeepsFields(h, s, cmd);
    case Start(_) => StartConservesList(h, s, cmd);
    case Exec(_, _) => StartConservesList(h, s, cmd);
    case Continue(sched) => if s.phase == RUNNING { ResumeConservesList(h, s, Cont, sched); }
    case StepInto(sched) => if s.phase == RUNNING { ResumeConservesList(h, s, Single, sched); }
  }

  /** The list a session's edits leave, one after another. */
  function EditedBy(h: Host, s: State, cmds: seq<Command>): seq<BP>
    requires Lifecycle(s)
    decreases |cmds|
  {
    if cmds == [] then Relative(s)
    else
      var n := |cmds| - 1;
      var before := RunSession(h, s, cmds[..n]);
      var bps := EditedBy(h, s, cmds[..n]);
      if before.Done? then Edited(bps, EditBy(before.s, cmds[n])) else bps
  }

  /**
   Conservation: over any session, any number of runs and any load bases, the base-relative list is the
   one its own `break` and `delete` commands make.
   */
  lemma {:induction false} SessionConservesList(h: Host, s: State, cmds: seq<Command>)
    requires Lifecycle(s)
    ensures var o := RunSession(h, s, cmds); o.Done? ==> Relative(o.s) == EditedBy(h, s, cmds)
    decreases |cmds|
  {
    if cmds != [] {
      var n := |cmds| - 1;
      SessionConservesList(h, s, cmds[..n]);
      var before := RunSession(h, s, cmds[..n]);
      if before.Done? {
        PerformEditsList(h, before.s, cmds[n]);
      }
    }
  }

  /** In particular a session without `break` and `delete` leaves the list alone. */
  lemma {:induction false} UneditedSession(h: Host, s: State, cmds: seq<Command>)
    requires Lifecycle(s) && forall k :: 0 <= k < |cmds| ==> !cmds[k].Break? && !cmds[k].Delete?
    ensures EditedBy(h, s, cmds) == Relative(s)
    decreases |cmds|
  {
    if cmds != [] {
      var n := |cmds| - 1;
      UneditedSession(h, s, cmds[..n]);
      assert !cmds[n].Break? && !cmds[n].Delete?;
    }
  }

  // ------------------------------------------------------------------ where breakpoints can lie

  lemma DistinctShifted(bps: seq<BP>, delta: int)
    ensures Distinct(Rebased(bps, delta)) <==> Distinct(bps)
  {
    var r := Rebased(bps, delta);
    assert forall i :: 0 <= i < |bps| ==> bps[i].addr == r[i].addr - delta;
  }

  lemma UnlistedShifted(bps: seq<BP>, a: int, delta: int)
    requires a !in Addrs(bps)
    ensures a + delta !in Addrs(Rebased(bps, delta))
  {
    assert forall i :: 0 <= i < |bps| ==> bps[i].addr in Addrs(bps);
  }

  lemma EditedKeepsDistinct(s: State, cmd: Command)
    requires Lifecycle(s) && Distinct(Relative(s))
    ensures Distinct(Edited(Relative(s), EditBy(s, cmd)))
  {
    var bps := Relative(s);
    match EditBy(s, cmd)
    case Keep =>
    case Append(bp) =>
      UnlistedShifted(s.bps, cmd.addr, -Shift(s));
      AppendDistinct(bps, bp);
    case Remove(idx) =>
      if idx < |bps| {
        AddrsOfErase(bps, idx);
      }
  }

  lemma PerformKeepsDistinct(h: Host, s: State, cmd: Command)
    requires Lifecycle(s) && Distinct(s.bps)
    ensures var o := Perform(h, s, cmd); o.Done? ==> Distinct(o.s.bps)
  {
    PerformEditsList(h, s, cmd);
    var o := Perform(h, s, cmd);
    if o.Done? {
      DistinctShifted(s.bps, -Shift(s));
      EditedKeepsDistinct(s, cmd);
      DistinctShifted(o.s.bps, -Shift(o.s));
    }
  }

  /** No breakpoint lies below the start of `.text`. */
  ghost predicate Above(s: State)
    requires Lifecycle(s)
  {
    s.phase != BEGIN ==> forall i :: 0 <= i < |s.bps| ==> TextSection(s).addr <= s.bps[i].addr - Shift(s)
  }

  ghost predicate NoneBelow(bps: seq<BP>, lo: int) {
    forall i :: 0 <= i < |bps| ==> lo <= bps[i].addr
  }

  lemma AboveIff(s: State)
    requires Lifecycle(s) && s.phase != BEGIN
    ensures Above(s) <==> NoneBelow(Relative(s), TextSection(s).addr)
  {
    assert forall i :: 0 <= i < |s.bps| ==> Relative(s)[i].addr == s.bps[i].addr - Shift(s);
  }

  lemma PerformKeepsFile(h: Host, s: State, cmd: Command)
    requires Lifecycle(s) && s.phase != BEGIN
    ensures var o := Perform(h, s, cmd);
            o.Done? ==> o.s.phase != BEGIN && o.s.elf == s.elf && o.s.textIdx == s.textIdx
  {
  }

  lemma EditedStaysAbove(s: State, cmd: Command)
    requires Lifecycle(s) && s.phase != BEGIN && NoneBelow(Relative(s), TextSection(s).addr)
    ensures NoneBelow(Edited(Relative(s), EditBy(s, cmd)), TextSection(s).addr)
  {
  }

  lemma PerformKeepsAbove(h: Host, s: State, cmd: Command)
    requires Lifecycle(s) && Above(s)
    ensures var o := Perform(h, s, cmd); o.Done? ==> Lifecycle(o.s) && Above(o.s)
  {
    PerformKeepsLifecycle(h, s, cmd);
    PerformEditsList(h, s, cmd);
    var o := Perform(h, s, cmd);
    if o.Done? && s.phase != BEGIN {
      PerformKeepsFile(h, s, cmd);
      AboveIff(s);
      EditedStaysAbove(s, cmd);
      AboveIff(o.s);
    } else if o.Done? {
      assert Relative(o.s) == [];
      assert |o.s.bps| == |Relative(o.s)|;
    }
  }

  /**
   Whatever was typed, and wherever a program was mapped: breakpoint addresses are distinct, and none lies
   below the start of `.text`, moved by the load base.
   */
  lemma {:induction false} BreakpointsStayInText(h: Host, s: State, cmds: seq<Command>)
    requires Lifecycle(s) && Above(s) && Distinct(s.bps)
    ensures var o := RunSession(h, s, cmds); o.Done? ==> Above(o.s) && Distinct(o.s.bps)
    decreases |cmds|
  {
    if cmds != [] {
      var n := |cmds| - 1;
      BreakpointsStayInText(h, s, cmds[..n]);
      var before := RunSession(h, s, cmds[..n]);
      if before.Done? {
        PerformKeepsAbove(h, before.s, cmds[n]);
        PerformKeepsDistinct(h, before.s, cmds[n]);
      }
    }
  }

  // ------------------------------------------------------------------ when the debugger finds the load base

  /** The program, whose link-time addresses `w` has, is mapped `bias` above them. */
  ghost predicate LoadedAt(w: World, l: Launch, bias: int) {
    MappedAt(w, l.text, bias) && l.mapEnd == w.hi + bias
  }

  /** The start of the executable mapping stands for the bias, unless it is where the program was linked to run. */
  predicate FindsBase(s: State, l: Launch, bias: int)
    requires Lifecycle(s) && s.phase == LOADED
  {
    if l.mapStart + TextSection(s).offset == TextSection(s).addr then bias == 0 else l.mapStart == bias
  }

  ghost predicate PlacedAt(before: seq<BP>, after: seq<BP>, bias: int) {
    |after| == |before| && forall i :: 0 <= i < |after| ==> after[i].addr == before[i].addr + bias
  }

  /**
   Exactly under `FindsBase` a launch is one that the theorems are about, in link-time addresses; and exactly
   then breakpoints set before it, if there are any, come to lie on the instructions they were set on.
   */
  lemma LaunchMatchesIff(w: World, s: State, l: Launch, bias: int)
    requires Lifecycle(s) && s.phase == LOADED && LoadedAt(w, l, bias)
    ensures LaunchMatches(w, s, l) <==> FindsBase(s, l, bias)
    ensures PlacedAt(s.bps, Launched(s, l).bps, bias) <==> s.bps == [] || FindsBase(s, l, bias)
  {
    var after := Launched(s, l).bps;
    assert forall i :: 0 <= i < |after| ==> after[i].addr == s.bps[i].addr + LoadBase(s, l);
    if s.bps != [] {
      assert after[0].addr == s.bps[0].addr + LoadBase(s, l);
    }
  }

  /** `v` is `w` with every address higher by `delta`. */
  ghost predicate Relabelled(w: World, v: World, delta: int) {
    && v.host == w.host && v.hi == w.hi + delta && |v.image| == |w.image|
    && forall b :: b in v.image ==> b - delta in w.image && v.image[b] == w.image[b - delta]
  }

  /** Any launch is one that the theorems are about, in the debugger's own addresses, right base or not. */
  lemma RelabelledLaunchMatches(w: World, v: World, s: State, l: Launch, bias: int)
    requires Lifecycle(s) && s.phase == LOADED && LoadedAt(w, l, bias)
    requires Relabelled(w, v, bias - LoadBase(s, l))
    ensures LaunchMatches(v, s, l)
  {
    var base := LoadBase(s, l);
    forall b | b in v.image
      ensures b + base in l.text && l.text[b + base] == v.image[b]
    {
      assert b - (bias - base) + bias == b + base;
    }
  }

  /** The loaded file's `.text` section is wholly in the file and is part of the image. */
  ghost predicate FileMatches(w: World, s: State)
    requires Lifecycle(s)
  {
    s.phase != BEGIN ==>
      var t := TextSection(s);
      && 0 <= t.offset && t.offset + t.size <= |s.elf.value.bytes|
      && (forall a :: t.addr <= a < t.addr + t.size ==>
            a in w.image && s.elf.value.bytes[t.offset + (a - t.addr)] == w.image[a])
  }

  /** With the file's own image in link-time addresses, what a command owes comes down to these guards. */
  lemma SoundAsLinked(w: World, s: State, cmd: Command, bias: int)
    requires Lifecycle(s) && FileMatches(w, s)
    requires s.phase == RUNNING && cmd.Break? && Accepts(s, cmd.addr) ==> SafeBreak(w, s, cmd.addr)
    requires s.phase == LOADED && (cmd.Start? || cmd.Exec?) ==>
               LoadedAt(w, cmd.launch, bias) && FindsBase(s, cmd.launch, bias)
    ensures Sound(w, s, cmd)
  {
    if s.phase == LOADED && (cmd.Start? || cmd.Exec?) {
      LaunchMatchesIff(w, s, cmd.launch, bias);
    }
  }

  // ------------------------------------------------------------------ addresses that are remembered

  /** The address `disasm` remembers, with the load base taken off. */
  function RelativeDisasm(s: State): Option<int> {
    if s.lastDisasm == -1 then None else Some(s.lastDisasm - Shift(s))
  }

  /** Starting and ending a process keep it exactly unless moving it lands on -1, which stands for none. */
  lemma DisasmAddressMovesIff(s: State, l: Launch)
    requires Lifecycle(s)
    ensures s.phase == LOADED ==>
              (RelativeDisasm(Launched(s, l)) == RelativeDisasm(s)
               <==> s.lastDisasm == -1 || s.lastDisasm + LoadBase(s, l) != -1)
    ensures s.phase == RUNNING ==>
              (RelativeDisasm(Terminated(s)) == RelativeDisasm(s)
               <==> s.lastDisasm == -1 || s.lastDisasm - s.base != -1)
  {
  }

  // ------------------------------------------------------------------ addresses that are not listed

  /** After any session, a byte at an address that is not listed is the mapped one. */
  lemma UnlistedIsMapped(w: World, s: State, cmds: seq<Command>, a: int)
    requires Inv(w, s) && SoundSession(w, s, cmds)
    ensures var o := RunSession(w.host, s, cmds);
            o.Done? && o.s.phase == RUNNING && a in o.s.tracee.origin && a !in Addrs(o.s.bps) ==>
              a in o.s.tracee.text && o.s.tracee.text[a] == o.s.tracee.origin[a]
  {
    SessionKeepsInv(w, s, cmds);
  }

  /** Once every breakpoint is deleted, tracee memory is exactly what was mapped. */
  lemma NoBreakpointsNoPatches(w: World, s: State, cmds: seq<Command>)
    requires Inv(w, s) && SoundSession(w, s, cmds)
    ensures var o := RunSession(w.host, s, cmds);
            o.Done? && o.s.phase == RUNNING && o.s.bps == [] ==> o.s.tracee.text == o.s.tracee.origin
  {
    SessionKeepsInv(w, s, cmds);
    var o := RunSession(w.host, s, cmds);
    if o.Done? && o.s.phase == RUNNING && o.s.bps == [] {
      UnlistedIsUnpatched(w, o.s);
    }
  }

  lemma UnlistedIsUnpatched(w: World, s: State)
    requires Inv(w, s) && s.phase == RUNNING && s.bps == []
    ensures s.tracee.text == s.tracee.origin
  {
    var t := s.tracee;
    assert forall x :: x in t.text ==> t.text[x] == t.origin[x];
  }
}
