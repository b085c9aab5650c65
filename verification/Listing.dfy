/** What `disasm` shows: the program's own bytes, in consecutive pieces. */
module Listing {
  import opened Words
  import opened Wrappers
  import opened Session
  import opened Invariants

  /** Overlaying saved bytes that are right replaces exactly the listed bytes in range by right ones. */
  lemma {:induction false} OverlayRestores(code: seq<byte>, bps: seq<BP>, start: int, size: int, origin: Memory, j: nat)
    requires size <= |code| && j < |code|
    requires forall i :: 0 <= i < |bps| ==> bps[i].addr in origin && bps[i].saved == origin[bps[i].addr]
    ensures start + j in Addrs(bps) && j < size ==> start + j in origin
    ensures Overlay(code, bps, start, size)[j]
         == if start + j in Addrs(bps) && j < size then origin[start + j] else code[j]
    decreases |bps|
  {
    if bps != [] {
      var rest, bp := bps[..|bps| - 1], bps[|bps| - 1];
      OverlayRestores(code, rest, start, size, origin, j);
      assert bps == rest + [bp];
      AddrsOfAppend(rest, bp);
    }
  }

  /** How much of the buffer was read from live memory. */
  function BytesRead(s: State, start: int): nat {
    WORD_SIZE * ReadableWords(s.tracee.text, start, 0)
  }

  lemma ReadBytesAreMapped(text: Memory, start: int, j: nat)
    requires j < WORD_SIZE * ReadableWords(text, start, 0)
    ensures start + j in text && LiveBytes(text, start)[j] == text[start + j]
  {
    var i := j / WORD_SIZE;
    assert Readable(text, start + WORD_SIZE * i);
    var x := start + j;
    assert start + WORD_SIZE * i <= x < start + WORD_SIZE * i + WORD_SIZE;
  }

  /**
   While running, the bytes given to the disassembler are the mapped ones wherever they were read,
   whatever breakpoints are set, and zero after that.
   */
  lemma DisasmHidesBreakpoints(w: World, s: State, start: int, j: nat)
    requires Inv(w, s) && s.phase == RUNNING && j < CODE_BYTES
    ensures j < BytesRead(s, start) ==> start + j in s.tracee.origin
    ensures CodeAt(s, start)[j] == if j < BytesRead(s, start) then s.tracee.origin[start + j] else 0
  {
    var t, size := s.tracee, BytesRead(s, start);
    var code := LiveBytes(t.text, start);
    forall i | 0 <= i < |s.bps|
      ensures s.bps[i].addr in t.origin && s.bps[i].saved == t.origin[s.bps[i].addr]
    {
      SavedIsOrigin(w, s, i);
    }
    OverlayRestores(code, s.bps, start, size, t.origin, j);
    if j < size {
      ReadBytesAreMapped(t.text, start, j);
    }
  }

  /** Before the launch they are the file's, from the address's place in `.text` on; nothing is read past its end. */
  lemma DisasmReadsFile(s: State, start: int, j: nat)
    requires Lifecycle(s) && s.phase == LOADED && j < CODE_BYTES
    ensures var f, t := s.elf.value, s.elf.value.shdr[s.textIdx];
            var pos := t.offset + (start - t.addr) + j;
            |CodeAt(s, start)| == 112 && CodeAt(s, start)[j] == if 0 <= pos < |f.bytes| then f.bytes[pos] else 0
  {
    assert CodeAt(s, start)[j] == FileByte(s, start + j);
  }

  // ------------------------------------------------------------------ one listing

  /** The `i`-th line has the `i`-th size, begins where the one before it ended, and before `end`. */
  predicate LineIs(lines: seq<(int, nat)>, start: int, end: int, sizes: seq<nat>, i: nat)
    requires i < |lines| <= |sizes|
  {
    && lines[i].1 == sizes[i] && lines[i].0 < end
    && lines[i].0 == if i == 0 then start else lines[i - 1].0 + lines[i - 1].1
  }

  /** All the lines are so; after the last comes `next`, and no further line only if nothing is left before `end`. */
  ghost predicate Lists(lines: seq<(int, nat)>, start: int, end: int, sizes: seq<nat>, next: int) {
    && |lines| <= |sizes|
    && (forall i: nat :: i < |lines| ==> LineIs(lines, start, end, sizes, i))
    && next == (if lines == [] then start else lines[|lines| - 1].0 + lines[|lines| - 1].1)
    && (|lines| < |sizes| ==> end <= next)
  }

  lemma ListsOneMore(rest: seq<(int, nat)>, start: int, end: int, sizes: seq<nat>, next: int)
    requires sizes != [] && start < end && Lists(rest, start + sizes[0], end, sizes[1..], next)
    ensures Lists([(start, sizes[0])] + rest, start, end, sizes, next)
  {
    var lines := [(start, sizes[0])] + rest;
    forall i: nat | i < |lines|
      ensures LineIs(lines, start, end, sizes, i)
    {
      if i > 0 {
        assert LineIs(rest, start + sizes[0], end, sizes[1..], i - 1);
      }
    }
  }

  lemma {:induction false} LinesList(start: int, end: int, sizes: seq<nat>)
    ensures Lists(Lines(start, end, sizes), start, end, sizes, LinesEnd(start, Lines(start, end, sizes)))
    decreases |sizes|
  {
    if sizes != [] && start < end {
      var rest := Lines(start + sizes[0], end, sizes[1..]);
      LinesList(start + sizes[0], end, sizes[1..]);
      ListsOneMore(rest, start, end, sizes, LinesEnd(start + sizes[0], rest));
    }
  }

  /** `disasm` lists something: an address is given or remembered, and it lies in `.text` before the launch. */
  predicate HasStart(s: State, at: Option<int>)
    requires Lifecycle(s)
  {
    && s.phase != BEGIN && (at.Some? || s.lastDisasm != -1)
    && var t, start := s.elf.value.shdr[s.textIdx], if at.Some? then at.value else s.lastDisasm;
       start != -1 && (s.phase == LOADED ==> t.addr <= start < t.addr + t.size)
  }

  lemma StartsAt(s: State, at: Option<int>)
    requires Lifecycle(s)
    ensures DisasmFrom(s, at)
         == if HasStart(s, at) then Some(if at.Some? then at.value else s.lastDisasm) else None
  {
  }

  lemma ListsFrom(h: Host, s: State, at: Option<int>, start: int)
    requires Lifecycle(s) && DisasmFrom(s, at) == Some(start)
    ensures s.phase != BEGIN
    ensures var o, lines := AfterDisasm(h, s, at), Disassembled(h, s, at);
            && o == s.(lastDisasm := o.lastDisasm)
            && Lists(lines, start, CodeEnd(s, start), h.sizes(CodeAt(s, start)), o.lastDisasm)
  {
    LinesList(start, CodeEnd(s, start), h.sizes(CodeAt(s, start)));
  }

  /**
   A listing begins at the address given, or else at the one remembered. It shows the decoder's instructions
   of the bytes there up to the end of `.text`, or of what could be read of a running process, and
   remembers where it ended.
   */
  lemma DisasmDoes(h: Host, s: State, at: Option<int>)
    requires Lifecycle(s)
    ensures var o, lines := Perform(h, s, Disasm(at)), Disassembled(h, s, at);
            && o.Done? && o.report == Quiet && o.s == s.(lastDisasm := o.s.lastDisasm)
            && if !HasStart(s, at) then lines == [] && o.s == s
               else
                 var t, start := s.elf.value.shdr[s.textIdx], if at.Some? then at.value else s.lastDisasm;
                 var end := if s.phase == LOADED then t.addr + t.size else start + BytesRead(s, start);
                 Lists(lines, start, end, h.sizes(CodeAt(s, start)), o.s.lastDisasm)
  {
    StartsAt(s, at);
    if HasStart(s, at) {
      ListsFrom(h, s, at, if at.Some? then at.value else s.lastDisasm);
    }
  }

  // ------------------------------------------------------------------ consecutive listings

  /** Each line starts where the one before it ended; the first starts at `start`. */
  ghost predicate Tiles(start: int, lines: seq<(int, nat)>) {
    forall i :: 0 <= i < |lines| ==> lines[i].0 == LinesEnd(start, lines[..i])
  }

  lemma {:induction false} LinesTile(start: int, end: int, sizes: seq<nat>)
    ensures Tiles(start, Lines(start, end, sizes))
    decreases |sizes|
  {
    if sizes != [] && start < end {
      var rest := Lines(start + sizes[0], end, sizes[1..]);
      LinesTile(start + sizes[0], end, sizes[1..]);
      TilesAppend(start, [(start, sizes[0])], rest);
    }
  }

  lemma TilesAppend(start: int, first: seq<(int, nat)>, second: seq<(int, nat)>)
    requires Tiles(start, first) && Tiles(LinesEnd(start, first), second)
    ensures Tiles(start, first + second) && LinesEnd(start, first + second) == LinesEnd(LinesEnd(start, first), second)
  {
    var both := first + second;
    forall i | 0 <= i < |both|
      ensures both[i].0 == LinesEnd(start, both[..i])
    {
      if i < |first| {
        assert both[..i] == first[..i];
      } else {
        assert both[..i] == first + second[..i - |first|];
      }
    }
  }

  /** All lines that a session's `disasm` commands print. */
  function Printed(h: Host, s: State, cmds: seq<Command>): seq<(int, nat)>
    requires Lifecycle(s)
    decreases |cmds|
  {
    if cmds == [] then []
    else
      var n := |cmds| - 1;
      var before := RunSession(h, s, cmds[..n]);
      if before.Done? && cmds[n].Disasm? then Printed(h, s, cmds[..n]) + Disassembled(h, before.s, cmds[n].at)
      else Printed(h, s, cmds[..n])
  }

  /** `disasm` is used without an address, and no process begins or ends. */
  ghost predicate OneLife(h: Host, s: State, cmds: seq<Command>)
    requires Lifecycle(s)
    decreases |cmds|
  {
    cmds != [] ==>
      var n := |cmds| - 1;
      var before, after := RunSession(h, s, cmds[..n]), RunSession(h, s, cmds);
      && OneLife(h, s, cmds[..n])
      && (cmds[n].Disasm? ==> cmds[n].at == None)
      && (cmds[n].Exec? ==> s.phase == RUNNING)
      && (after.Done? ==> after.s.phase == s.phase)
  }

  lemma KeepsLastDisasm(h: Host, s: State, cmd: Command)
    requires Lifecycle(s) && !cmd.Disasm? && (cmd.Exec? ==> s.phase == RUNNING)
    requires Perform(h, s, cmd).Done? && Perform(h, s, cmd).s.phase == s.phase
    ensures Perform(h, s, cmd).s.lastDisasm == s.lastDisasm
  {
  }

  lemma DisassembledTiles(h: Host, s: State)
    requires Lifecycle(s)
    ensures Tiles(s.lastDisasm, Disassembled(h, s, None))
    ensures AfterDisasm(h, s, None).lastDisasm == LinesEnd(s.lastDisasm, Disassembled(h, s, None))
  {
    if DisasmFrom(s, None).Some? {
      LinesTile(s.lastDisasm, CodeEnd(s, s.lastDisasm), h.sizes(CodeAt(s, s.lastDisasm)));
    }
  }

  /**
   Successive listings tile the code: however other commands come between them, the lines have no gap
   and no overlap, and the remembered address is the end of the last.
   */
  lemma {:induction false} ListingsTile(h: Host, s: State, cmds: seq<Command>)
    requires Lifecycle(s) && OneLife(h, s, cmds) && RunSession(h, s, cmds).Done?
    ensures RunSession(h, s, cmds).s.phase == s.phase
    ensures Tiles(s.lastDisasm, Printed(h, s, cmds))
    ensures RunSession(h, s, cmds).s.lastDisasm == LinesEnd(s.lastDisasm, Printed(h, s, cmds))
    decreases |cmds|
  {
    if cmds != [] {
      var n := |cmds| - 1;
      ListingsTile(h, s, cmds[..n]);
      var before := RunSession(h, s, cmds[..n]).s;
      if cmds[n].Disasm? {
        DisassembledTiles(h, before);
        TilesAppend(s.lastDisasm, Printed(h, s, cmds[..n]), Disassembled(h, before, None));
      } else {
        KeepsLastDisasm(h, before, cmds[n]);
      }
    }
  }

  // ------------------------------------------------------------------ consecutive dumps

  predicate WordAt(text: Memory, start: int, d: nat) {
    Readable(text, start + WORD_SIZE * d)
  }

  /** From word `i` of a dump on: words are read up to the first line that cannot be begun, or to the tenth. */
  lemma {:induction false} DumpEndsAtLine(text: Memory, start: int, i: nat) returns (n: nat)
    requires i <= 10
    ensures i + n <= 10 && DumpEnd(text, start, i) == start + WORD_SIZE * n
    ensures i + n < 10 ==> (i + n) % 2 == 0 && !WordAt(text, start, n)
    ensures forall d: nat :: d < n && (i + d) % 2 == 0 ==> WordAt(text, start, d)
    decreases 10 - i
  {
    if i == 10 || (i % 2 == 0 && !Readable(text, start)) {
      n := 0;
    } else {
      var m := DumpEndsAtLine(text, start + WORD_SIZE, i + 1);
      n := m + 1;
      forall d: nat | d < n && (i + d) % 2 == 0
        ensures WordAt(text, start, d)
      {
        if d > 0 {
          assert WordAt(text, start + WORD_SIZE, d - 1);
        }
      }
    }
  }

  /**
   A dump remembers where its lines ended: after five of them, or before the first whose first word
   cannot be read; so the next one, given no address, goes on there.
   */
  lemma DumpsFollow(h: Host, s: State, from: Option<int>) returns (lines: nat)
    requires Lifecycle(s)
    ensures var o, start := Perform(h, s, Dump(from)), if from.Some? then from.value else s.lastDump;
            && o.Done? && o.report == Quiet
            && if s.phase != RUNNING || (from.None? && s.lastDump == -1) then o.s == s
               else
                 && o.s == s.(lastDump := start + 16 * lines) && lines <= 5
                 && (lines < 5 ==> !WordAt(s.tracee.text, start, 2 * lines))
                 && forall d: nat :: d < 2 * lines && d % 2 == 0 ==> WordAt(s.tracee.text, start, d)
  {
    var n := DumpEndsAtLine(s.tracee.text, if from.Some? then from.value else s.lastDump, 0);
    lines := n / 2;
  }
}
