/** The trap patcher: at every trap it writes the next byte of a table over the INT3 and runs on from there. */
module Patcher {
  import opened Words
  import opened Machine
  import opened Sdb

  /** How patching ends; `Overrun` stands for a read past the table. */
  datatype End = Finished(code: int) | Waiting | PokeFailed | Overrun

  datatype Patched = Patched(end: End, traps: seq<int>, text: Memory)

  /** After a trap: back onto the patched byte, with `rdx` taken from `rax`. */
  function Rewound(c: Core): Core {
    var rest := c.regs.rest;
    Core(Regs(c.regs.rip - 1, if "rax" in rest then rest["rdx" := rest["rax"]] else rest), c.data)
  }

  /** What is left to happen from a resumption on: the traps still to come and the text at the end. */
  function Patching(cpu: Cpu, text: Memory, c: Core, table: seq<byte>, fuel: nat): Patched
    decreases |table|
  {
    match Run(cpu, Cont, text, c, fuel)
    case Running(_) => Patched(Waiting, [], text)
    case Exited(code) => Patched(Finished(code), [], text)
    case Stopped(d) =>
      if table == [] then Patched(Overrun, [], text)
      else if !Readable(text, d.regs.rip - 1) then Patched(PokeFailed, [], text)
      else
        var rest := Patching(cpu, Patch(text, d.regs.rip - 1, table[0]), Rewound(d), table[1..], fuel);
        rest.(traps := [d.regs.rip - 1] + rest.traps)
  }

  function Traps(text: Memory): set<int> {
    set a | a in text && text[a] == INT3
  }

  function CountTraps(s: seq<byte>): nat {
    if s == [] then 0 else (if s[0] == INT3 then 1 else 0) + CountTraps(s[1..])
  }

  /** A stop is a trap: the byte before `rip` is INT3. */
  lemma {:induction false} StopsAtTrap(cpu: Cpu, text: Memory, c: Core, fuel: nat)
    ensures match Run(cpu, Cont, text, c, fuel)
            case Stopped(d) => d.regs.rip - 1 in Traps(text)
            case _ => true
    decreases fuel
  {
    if fuel > 0 {
      match Execute(cpu, text, c)
      case Next(d) => StopsAtTrap(cpu, text, d, fuel - 1);
      case Trap(_) =>
      case Exit(_) =>
    }
  }

  /** `final` comes from `text` by writing table bytes one after the other, each over an INT3 then present. */
  predicate Fills(text: Memory, traps: seq<int>, table: seq<byte>, final: Memory)
    decreases |traps|
  {
    && |traps| <= |table|
    && if traps == [] then final == text
       else traps[0] in Traps(text) && Fills(text[traps[0] := table[0]], traps[1..], table[1..], final)
  }

  lemma {:induction false} PatchingFills(cpu: Cpu, text: Memory, c: Core, table: seq<byte>, fuel: nat)
    ensures var p := Patching(cpu, text, c, table, fuel); Fills(text, p.traps, table, p.text)
    decreases |table|
  {
    var s := Run(cpu, Cont, text, c, fuel);
    if s.Stopped? && table != [] && Readable(text, s.core.regs.rip - 1) {
      var a := s.core.regs.rip - 1;
      StopsAtTrap(cpu, text, c, fuel);
      PatchingFills(cpu, Patch(text, a, table[0]), Rewound(s.core), table[1..], fuel);
      var p := Patching(cpu, text, c, table, fuel);
      assert p.traps[1..] == Patching(cpu, Patch(text, a, table[0]), Rewound(s.core), table[1..], fuel).traps;
    }
  }

  lemma TrapsAfterWrite(text: Memory, a: int, b: byte)
    requires a in Traps(text)
    ensures Traps(text[a := b]) == if b == INT3 then Traps(text) else Traps(text) - {a}
  {
    if b == INT3 {
      assert text[a := b] == text;
    }
  }

  lemma {:induction false} FillsConserves(text: Memory, traps: seq<int>, table: seq<byte>, final: Memory)
    requires Fills(text, traps, table, final)
    ensures final.Keys == text.Keys && Traps(final) <= Traps(text)
    ensures forall k :: 0 <= k < |traps| ==> traps[k] in Traps(text)
    ensures |Traps(final)| + |traps| == |Traps(text)| + CountTraps(table[..|traps|])
    decreases |traps|
  {
    if traps != [] {
      TrapsAfterWrite(text, traps[0], table[0]);
      FillsConserves(text[traps[0] := table[0]], traps[1..], table[1..], final);
      assert table[..|traps|][1..] == table[1..][..|traps| - 1];
    }
  }

  lemma {:induction false} FillsWrites(text: Memory, traps: seq<int>, table: seq<byte>, final: Memory)
    requires Fills(text, traps, table, final) && INT3 !in table
    ensures forall i, j :: 0 <= i < j < |traps| ==> traps[i] != traps[j]
    ensures forall k :: 0 <= k < |traps| ==> traps[k] in final && final[traps[k]] == table[k]
    ensures forall x :: x in text && x !in traps ==> x in final && final[x] == text[x]
    decreases |traps|
  {
    if traps != [] {
      var a, next := traps[0], text[traps[0] := table[0]];
      TrapsAfterWrite(text, a, table[0]);
      FillsConserves(next, traps[1..], table[1..], final);
      FillsWrites(next, traps[1..], table[1..], final);
      assert a !in traps[1..];
      assert forall k :: 0 < k < |traps| ==> traps[k] == traps[1..][k - 1] && table[k] == table[1..][k - 1];
    }
  }

  lemma {:induction false} NoTraps(s: seq<byte>)
    requires INT3 !in s
    ensures CountTraps(s) == 0
  {
    if s != [] {
      NoTraps(s[1..]);
    }
  }

  /**
   Conservation: INT3 bytes in the text plus table bytes consumed is constant, a consumed byte that is
   itself INT3 counting for nothing; and every trap is at a byte that was INT3 to begin with.
   */
  lemma PatchingConserves(cpu: Cpu, text: Memory, c: Core, table: seq<byte>, fuel: nat)
    ensures var p := Patching(cpu, text, c, table, fuel);
            && |p.traps| <= |table|
            && (forall k :: 0 <= k < |p.traps| ==> p.traps[k] in Traps(text))
            && p.text.Keys == text.Keys && Traps(p.text) <= Traps(text)
            && |Traps(p.text)| + |p.traps| == |Traps(text)| + CountTraps(table[..|p.traps|])
  {
    PatchingFills(cpu, text, c, table, fuel);
    var p := Patching(cpu, text, c, table, fuel);
    FillsConserves(text, p.traps, table, p.text);
  }

  /**
   With no INT3 in the table the trapped addresses are distinct, the k-th holds the k-th table byte,
   every other byte is as it was, and there are at most as many stops as there were INT3 bytes.
   */
  lemma PatchingWritesTable(cpu: Cpu, text: Memory, c: Core, table: seq<byte>, fuel: nat)
    requires INT3 !in table
    ensures var p := Patching(cpu, text, c, table, fuel);
            && |p.traps| <= |table| && p.text.Keys == text.Keys
            && (forall i, j :: 0 <= i < j < |p.traps| ==> p.traps[i] != p.traps[j])
            && (forall k :: 0 <= k < |p.traps| ==> p.traps[k] in p.text && p.text[p.traps[k]] == table[k])
            && (forall x :: x in text && x !in p.traps ==> x in p.text && p.text[x] == text[x])
            && |p.traps| <= |Traps(text)|
  {
    PatchingFills(cpu, text, c, table, fuel);
    var p := Patching(cpu, text, c, table, fuel);
    FillsConserves(text, p.traps, table, p.text);
    FillsWrites(text, p.traps, table, p.text);
    NoTraps(table[..|p.traps|]);
  }

  /** A table at least as long as the number of INT3 bytes, with none of its own, is never overrun. */
  lemma LongTableSuffices(cpu: Cpu, text: Memory, c: Core, table: seq<byte>, fuel: nat)
    requires INT3 !in table && |Traps(text)| <= |table|
    ensures Patching(cpu, text, c, table, fuel).end != Overrun
  {
    var p := Patching(cpu, text, c, table, fuel);
    if p.end == Overrun {
      OverrunUsesTable(cpu, text, c, table, fuel);
      PatchingConserves(cpu, text, c, table, fuel);
      NoTraps(table[..|p.traps|]);
    }
  }

  /** Running past the table means that all of it was used and a trap is still there to be met. */
  lemma {:induction false} OverrunUsesTable(cpu: Cpu, text: Memory, c: Core, table: seq<byte>, fuel: nat)
    requires Patching(cpu, text, c, table, fuel).end == Overrun
    ensures var p := Patching(cpu, text, c, table, fuel); |p.traps| == |table| && Traps(p.text) != {}
    decreases |table|
  {
    StopsAtTrap(cpu, text, c, fuel);
    var d := Run(cpu, Cont, text, c, fuel).core;
    if table != [] {
      OverrunUsesTable(cpu, Patch(text, d.regs.rip - 1, table[0]), Rewound(d), table[1..], fuel);
    }
  }

  // ------------------------------------------------------------------ where the child goes on

  /** `next` is `stopped` moved back onto the byte that trapped, with `rdx` as `rax` was, and all else alike. */
  predicate GoesBack(stopped: Core, next: Core) {
    && next.regs.rip == stopped.regs.rip - 1 && next.data == stopped.data
    && next.regs.rest - {"rdx"} == stopped.regs.rest - {"rdx"}
    && ("rax" in stopped.regs.rest ==>
          "rdx" in next.regs.rest && next.regs.rest["rdx"] == stopped.regs.rest["rax"])
  }

  lemma RewoundGoesBack(c: Core)
    ensures GoesBack(c, Rewound(c))
  {
  }

  /** One resumption of the child: the text and the registers and data that it goes on with. */
  datatype Leg = Leg(text: Memory, start: Core)

  function Outcome(cpu: Cpu, leg: Leg, fuel: nat): Status {
    Run(cpu, Cont, leg.text, leg.start, fuel)
  }

  /**
   From one resumption to the next: the child stopped one past `a`, which then holds `b`, and goes on
   from `a`; no other byte of its text is another.
   */
  ghost predicate Follows(cpu: Cpu, leg: Leg, next: Leg, a: int, b: byte, fuel: nat) {
    && Outcome(cpu, leg, fuel).Stopped?
    && Outcome(cpu, leg, fuel).core.regs.rip == a + 1
    && GoesBack(Outcome(cpu, leg, fuel).core, next.start) && next.start.regs.rip == a
    && a in leg.text && next.text == leg.text[a := b]
  }

  /** How the last resumption explains the end. */
  predicate EndsWith(cpu: Cpu, leg: Leg, table: seq<byte>, used: nat, end: End, fuel: nat) {
    match Outcome(cpu, leg, fuel)
    case Running(_) => end == Waiting
    case Exited(code) => end == Finished(code)
    case Stopped(d) =>
      if used >= |table| then end == Overrun else end == PokeFailed && !Readable(leg.text, d.regs.rip - 1)
  }

  /** The resumptions one after another, with a trap and a table byte between each and the next. */
  ghost predicate Journey(cpu: Cpu, legs: seq<Leg>, table: seq<byte>, p: Patched, fuel: nat) {
    && |legs| == |p.traps| + 1 && |p.traps| <= |table|
    && (forall k :: 0 <= k < |p.traps| ==> Follows(cpu, legs[k], legs[k + 1], p.traps[k], table[k], fuel))
    && p.text == legs[|p.traps|].text
    && EndsWith(cpu, legs[|p.traps|], table, |p.traps|, p.end, fuel)
  }

  /**
   The whole loop: the child goes on from each trapped address in turn, over a text whose byte there is the
   next of the table, and what it does after the last of them is how the patching ends.
   */
  lemma {:induction false} PatchingIsJourney(cpu: Cpu, text: Memory, c: Core, table: seq<byte>, fuel: nat)
    returns (legs: seq<Leg>)
    ensures Journey(cpu, legs, table, Patching(cpu, text, c, table, fuel), fuel) && legs[0] == Leg(text, c)
    decreases |table|
  {
    var s := Run(cpu, Cont, text, c, fuel);
    legs := [Leg(text, c)];
    if s.Stopped? && table != [] && Readable(text, s.core.regs.rip - 1) {
      var a := s.core.regs.rip - 1;
      var patched := Patch(text, a, table[0]);
      var rest := PatchingIsJourney(cpu, patched, Rewound(s.core), table[1..], fuel);
      RewoundGoesBack(s.core);
      JourneyBegins(cpu, Leg(text, c), a, rest, table, Patching(cpu, patched, Rewound(s.core), table[1..], fuel), fuel);
      legs := legs + rest;
    }
  }

  lemma JourneyBegins(cpu: Cpu, leg: Leg, a: int, rest: seq<Leg>, table: seq<byte>, p: Patched, fuel: nat)
    requires table != [] && Journey(cpu, rest, table[1..], p, fuel)
    requires Follows(cpu, leg, rest[0], a, table[0], fuel)
    ensures Journey(cpu, [leg] + rest, table, p.(traps := [a] + p.traps), fuel)
  {
    var legs, q := [leg] + rest, p.(traps := [a] + p.traps);
    forall k | 0 <= k < |q.traps|
      ensures Follows(cpu, legs[k], legs[k + 1], q.traps[k], table[k], fuel)
    {
      if k > 0 {
        assert Follows(cpu, rest[k - 1], rest[k], p.traps[k - 1], table[1..][k - 1], fuel);
      }
    }
  }

  /** The instruction carried out after the `k`-th stop is the patched one, where it starts, and not a trap. */
  lemma RunsPatched(cpu: Cpu, legs: seq<Leg>, table: seq<byte>, p: Patched, fuel: nat, k: nat)
    requires Journey(cpu, legs, table, p, fuel) && k < |p.traps| && table[k] != INT3
    ensures var leg := legs[k + 1];
            && leg.start.regs.rip == p.traps[k] && p.traps[k] in leg.text && leg.text[p.traps[k]] == table[k]
            && Execute(cpu, leg.text, leg.start)
               == match cpu.step(leg.text, leg.start) case Goes(d) => Next(d) case Exits(code) => Exit(code)
  {
    assert Follows(cpu, legs[k], legs[k + 1], p.traps[k], table[k], fuel);
  }

  /** One stop: patch the byte that trapped, rewind, and let the process go on. */
  method PatchTrap(child: Process, b: byte) returns (ok: bool)
    requires child.AtStop()
    modifies child
    ensures ok == Readable(old(child.text), old(child.core).regs.rip - 1)
    ensures ok ==> child.text == Patch(old(child.text), old(child.core).regs.rip - 1, b)
                   && child.core == Rewound(old(child.core)) && child.condition == Flying && child.mode == Cont
    ensures ok ==> child.core.regs.rip == old(child.core).regs.rip - 1 && child.core.data == old(child.core).data
    ensures ok && "rax" in old(child.core).regs.rest ==>
              child.core.regs.rest == old(child.core).regs.rest["rdx" := old(child.core).regs.rest["rax"]]
    ensures !ok ==> child.text == old(child.text) && child.core == old(child.core)
  {
    var at := child.core.regs.rip - 1;
    var code := child.Peek(at);
    ok := Readable(child.text, at);
    if ok {
      PokeIsPatch(child.text, at, b);
      child.Poke(at, SetLow(code, b));
      child.SetRegs(Rewound(child.core).regs);
      child.Resume(Cont);
    }
  }

  function Before(traps: seq<int>, rest: Patched): Patched {
    rest.(traps := traps + rest.traps)
  }

  lemma PatchingStep(cpu: Cpu, text: Memory, c: Core, d: Core, traps: seq<int>, table: seq<byte>, fuel: nat)
    requires Run(cpu, Cont, text, c, fuel) == Stopped(d) && table != [] && Readable(text, d.regs.rip - 1)
    ensures Before(traps, Patching(cpu, text, c, table, fuel))
         == Before(traps + [d.regs.rip - 1],
                   Patching(cpu, Patch(text, d.regs.rip - 1, table[0]), Rewound(d), table[1..], fuel))
  {
    var rest := Patching(cpu, Patch(text, d.regs.rip - 1, table[0]), Rewound(d), table[1..], fuel);
    assert traps + ([d.regs.rip - 1] + rest.traps) == traps + [d.regs.rip - 1] + rest.traps;
  }

  /** The loop of `main` from its first PTRACE_CONT on. */
  method PatchLoop(child: Process, table: seq<byte>, fuel: nat) returns (end: End, ghost traps: seq<int>)
    requires child.AtStop()
    modifies child
    ensures Patched(end, traps, child.text) == Patching(child.cpu, old(child.text), old(child.core), table, fuel)
  {
    traps := [];
    ghost var whole := Patching(child.cpu, child.text, child.core, table, fuel);
    var idx := 0;
    child.Resume(Cont);
    assert table[0..] == table;
    while true
      invariant 0 <= idx <= |table| && child.condition == Flying && child.mode == Cont
      invariant whole == Before(traps, Patching(child.cpu, child.text, child.core, table[idx..], fuel))
      decreases |table| - idx
    {
      ghost var c := child.core;
      child.Advance(fuel);
      if child.condition.Dead? {
        end := Finished(child.condition.code);
        return;
      }
      if child.condition == Flying {
        end := Waiting;
        return;
      }
      if idx == |table| {
        end := Overrun;
        return;
      }
      ghost var text, d := child.text, child.core;
      var at := child.core.regs.rip - 1;
      var ok := PatchTrap(child, table[idx]);
      if !ok {
        end := PokeFailed;
        return;
      }
      PatchingStep(child.cpu, text, c, d, traps, table[idx..], fuel);
      assert table[idx..][1..] == table[idx + 1..];
      idx := idx + 1;
      traps := traps + [at];
    }
  }
}
