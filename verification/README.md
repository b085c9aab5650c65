# A breakpoint debugger and its neighbours, verified

This project models the `SDB` debugger, the trap patcher, the ELF table loader and two x86 programs, and
proves what they keep and compute.

- `Words`: tracee memory, and the 8-byte peeks and pokes of `ptrace`.
- `Machine`: the traced process. The processor is abstract and deterministic, and looks at no text outside
  the instruction it executes (`FetchesOnly`). `Undebugged` is the run without patches; INT3 leaves `rip` one
  past itself.
- `Session`: every command as a function on the debugger's whole state. What the kernel decides comes in
  with the command: where a program is mapped, how long the debugger waits, and when (or whether) the write
  that re-arms a stepped-over breakpoint takes effect. Linux accepts that write only once the process has
  stopped again; the model allows every landing time, so the theorems hold for each.
- `Commands`: what each command does, told in the file's bytes, addresses and registers themselves.
- `Invariants`, `Transparency`, `Arming`, `Listing`: theorems over all command sequences: what memory and the
  list hold, that what is shown is true of the undebugged run, that no armed breakpoint is missed, what
  listings show. `Exactness`: the exact conditions of what does not always hold. `Counterexamples`: for each
  such failure, the commands that lead a new debugger to it, with a file it accepts.
- `Sdb`: the debugger as a class that updates its fields and a process in place; its loops are the source's,
  and each method is proved equal to its `Session` function. `Debugging` carries the theorems over to it.
- `Elf`, `Tokenizer`, `Patcher`: the table loader, `split`, and the patching loop.
- `X86`, `BubbleSort`, `BinaryPrinter`, `Processor`: a processor with flags and jumps, the two programs as
  instruction lists, and a device that runs them in place.

Some results are exact conditions because the plain statement is false of the code.

- `delete` does not move `bp_idx` when a lower entry is erased. Coherence is lost exactly then; the memory
  invariant and transparency are not, unless `bp_idx` was the last index, and then the next resumption indexes
  past the list.
- `check_if_bp` cannot tell a trap from a process that merely stands one past a breakpoint. `si`, `set rip`,
  and `start` (also on a running process) show the true state exactly when no listed address is one before a
  `rip` reached without a trap.
- `break` on a running process accepts the address just past the mapping, and saves 0xFF when the word at the
  address cannot be read. Saved bytes stay right exactly outside these cases.
- The write that re-arms a stepped-over breakpoint may be refused. The breakpoint then is armed after the
  stop exactly if the program has an INT3 of its own there, and a later `cont` passes it; `MayPass` says exactly
  which breakpoints a resumption passes and when. When every such write lands, none is missed.
- The address `disasm` remembers follows the load base unless the moved value is -1, which stands for none.
- The load base. The debugger takes the start of the executable mapping for the load bias, or 0 when that start
  and the section's file offset add up to its link address. `FindsBase` says exactly when this is right; where
  it is wrong, breakpoints set before the launch go elsewhere. The theorems do not assume it: they are told in
  the debugger's own addresses, and any mapping fits them (`RelabelledLaunchMatches`). What they then ask of
  `break` before a launch (`SafeBreak`) is that the file's byte is the one that will be mapped there.

The assumptions are parameters of the theorems: `FetchesOnly`; `LaunchMatches` (every launch in a session maps
the same image, relative to the base that the debugger computes); `SafeBreak`; `OnStarts` (no listed address
strictly inside an instruction that the undebugged run executes). For a file that holds its mapped text and a
base that is found, `LaunchMatches` holds, and `SafeBreak` is owed on a running process only (`SoundAsLinked`).

## Model

| member | source | states |
|---|---|---|
| `Words.PokeIsPatch` | homework4/0756706_samuel/sdb.cpp:184-188 | the peek, mask and poke of one 8-byte little-endian word changes exactly the addressed byte, and nothing when the word is not mapped |
| `Words.PokeAgainIsPatch` | homework4/0756706_samuel/sdb.cpp:623-638 | the re-arming poke, which reuses the word computed before the resumption, again changes exactly that byte |
| `Words.SavedByteOfPeek` | homework4/0756706_samuel/sdb.cpp:184-185 | the byte saved from a peek is the addressed byte, or 0xFF when the peek fails |
| `Machine.RunMatches` | homework4/0756706_samuel/sdb.cpp:618-646 | every outcome of continuing or stepping over patched text is, once a stop is read as `check_if_bp` reads it, a point of the undebugged run; an exit is that run's exit |
| `Machine.ContStopsAtFirstTrap` | homework4/0756706_samuel/sdb.cpp:618-646 | a continued process stops if and only if the undebugged run comes to an INT3 of the patched text, and at the first one |
| `Session.PerformKeepsLifecycle` | homework4/0756706_samuel/sdb.cpp:39-52 | outside RUNNING `bp_idx`, `base_addr` and `last_dump` are -1 and the pid is 0; BEGIN has no breakpoints and no file; the only moves are BEGIN to LOADED, LOADED to RUNNING and RUNNING to LOADED |
| `Commands.LoadDoes` | homework4/0756706_samuel/sdb.cpp:87-140 | `load` takes the file if and only if nothing is loaded, it has program headers, all its string tables (kind 3) are in the file, and its header string table's bytes name a `.text` section; otherwise nothing changes |
| `Commands.SessionKeepsText` | homework4/0756706_samuel/sdb.cpp:113-131 | after any session the section that is worked with is the first whose name, by the bytes of the header string table, is `.text` |
| `Commands.BreakDoes` | homework4/0756706_samuel/sdb.cpp:142-191 | `break` is accepted if and only if the address is not listed and lies in `.text`, or, while running, from `.text` plus the base up to the mapping's end; it then appends one breakpoint with the file's byte at offset + (address - section address), or the live byte (0xFF if unreadable), and puts 0xCC there; nothing else changes |
| `Commands.DeleteDoes` | homework4/0756706_samuel/sdb.cpp:194-218 | `delete` removes one entry and puts its byte back; for the current one the shown registers are written and the index is dropped; nothing else changes |
| `Commands.SetDoes` | homework4/0756706_samuel/sdb.cpp:416-437 | `set` writes all shown registers, one of them changed, to a running process; for `rip` the registers are then looked at |
| `Commands.StartDoes` | homework4/0756706_samuel/sdb.cpp:559-616 | the state after `start`: base, addresses and remembered address moved, 0xCC at the listed bytes and the mapped bytes elsewhere, and the first breakpoint one before `rip` hit |
| `Commands.ResumingDoes` | homework4/0756706_samuel/sdb.cpp:618-663 | `run`, `cont` and `si`: after a stop only registers, data and the byte started from can differ, which then holds 0xCC if its re-arming write landed and the saved byte if not; after an end all addresses are moved back and base, pid, index and dump address are forgotten |
| `Invariants.InstallExact` | homework4/0756706_samuel/sdb.cpp:596-602 | arming a list of any length word by word puts INT3 at exactly the readable listed addresses, however close they lie |
| `Invariants.InstallOrderIndependent` | homework4/0756706_samuel/sdb.cpp:596-602 | two lists with the same addresses arm memory alike |
| `Invariants.PokesCommute` | homework4/0756706_samuel/sdb.cpp:203-206 | arming and disarming different addresses commute, inside one word too |
| `Invariants.BreakSavesRightByteIff` | homework4/0756706_samuel/sdb.cpp:161-189 | an accepted `break` keeps saved bytes right if and only if the address is in the program's image and the file's byte is the image's (before the launch), or its word can be read or its byte is 0xFF (on a running process) |
| `Invariants.PerformKeepsInv` | homework4/0756706_samuel/sdb.cpp:142-218 | every command keeps: distinct addresses, saved bytes equal to the program's, tracee memory equal to what was mapped but for INT3 at listed addresses |
| `Invariants.SessionKeepsInv` | homework4/0756706_samuel/sdb.cpp:54-85 | the same invariant, with every breakpoint in the image and its saved byte right, over every sequence of commands, runs and load bases |
| `Invariants.RestoredIsMapped` | homework4/0756706_samuel/sdb.cpp:287-291 | with every saved byte put back, the tracee's text is exactly what was mapped |
| `Invariants.NoBreakpointsNoPatches` | homework4/0756706_samuel/sdb.cpp:194-218 | whenever all breakpoints have been deleted, tracee memory is exactly what was mapped |
| `Invariants.PerformEditsList` | homework4/0756706_samuel/sdb.cpp:142-218 | whatever the file and memory hold, a command does to the base-relative list one append (`break` accepted), one erasure (`delete` in range) or nothing; loading, starting, running, stopping and ending conserve it |
| `Invariants.SessionConservesList` | homework4/0756706_samuel/sdb.cpp:648-663 | after any session, over any number of runs and load bases, the base-relative list of addresses and saved bytes is the one its own `break` and `delete` commands make |
| `Invariants.UneditedSession` | homework4/0756706_samuel/sdb.cpp:594-604 | in particular, a session without `break` and `delete` leaves it alone |
| `Invariants.BreakpointsStayInText` | homework4/0756706_samuel/sdb.cpp:144-191 | whatever is typed and wherever programs are mapped, addresses are pairwise distinct and never below the start of `.text` moved by the load base |
| `Invariants.LaunchMatchesIff` | homework4/0756706_samuel/sdb.cpp:593-602 | the debugger's load base is the bias the program was mapped with, and breakpoints set before the launch lie on their own instructions, if and only if the mapping starts at the bias, or the bias is 0 and start and file offset add up to the link address |
| `Invariants.RelabelledLaunchMatches` | homework4/0756706_samuel/sdb.cpp:593-595 | a launch whose base is not found is still one the theorems are about, in the debugger's own addresses |
| `Invariants.SoundAsLinked` | homework4/0756706_samuel/sdb.cpp:161-189 | for a file that holds its mapped text and a base that is found, only `break` on a running process owes anything |
| `Invariants.UnlistedIsMapped` | homework4/0756706_samuel/sdb.cpp:194-218 | after any sound session the byte at an address that is not listed is the mapped one |
| `Invariants.DisasmAddressMovesIff` | homework4/0756706_samuel/sdb.cpp:603-604 | the remembered `disasm` address moves with the load base exactly, unless the moved value is -1 |
| `Transparency.SessionIsTransparent` | homework4/0756706_samuel/sdb.cpp:559-705 | for every command sequence: what the user sees at each prompt is a point of the undebugged run (registers, data, and text with saved bytes put back), a reported breakpoint is a listed address that run stands on, a reported exit is that run's exit; for every landing time of the re-arming write |
| `Transparency.ResumeIsTruthful` | homework4/0756706_samuel/sdb.cpp:618-646 | the same for one resumption, from any state that satisfies the invariant |
| `Transparency.SessionKeepsLive` | homework4/0756706_samuel/sdb.cpp:623-630 | whatever was typed, at every prompt the live registers are the shown ones, or stand one past the current breakpoint as its trap left them |
| `Arming.RearmedIff` | homework4/0756706_samuel/sdb.cpp:632-638 | after a resumption from a breakpoint that stops, that address holds INT3 if and only if the re-arming write landed on a byte that can be written or the saved byte is itself INT3 |
| `Arming.SessionKeepsArmed` | homework4/0756706_samuel/sdb.cpp:632-638 | when every re-arming write of a session lands, every writable breakpoint holds INT3 at every prompt |
| `Arming.ContinueMissesNothing` | homework4/0756706_samuel/sdb.cpp:618-646 | whatever is armed and whenever the re-arming write lands: up to where `cont` ended, or for all the time waited while it has not, the undebugged run stands on no listed address whose byte traps then |
| `Arming.ContinueHitsIff` | homework4/0756706_samuel/sdb.cpp:618-685 | `cont` reports a hit if and only if the undebugged run comes, within the time waited and before any trap of its own, to a listed address whose byte traps then; and the first such is what it reports |
| `Arming.MayPassIff` | homework4/0756706_samuel/sdb.cpp:623-638 | the breakpoints that do not trap after i instructions: the one started from, unless its write has landed or the program has an INT3 there, and those that hold no INT3 |
| `Arming.SessionMissesNothing` | homework4/0756706_samuel/sdb.cpp:559-646 | after any session whose re-arming writes land, `run` and `cont` pass no breakpoint that can be armed, but for the one started from before its own write lands; also while they have not stopped |
| `Arming.SessionHitsIff` | homework4/0756706_samuel/sdb.cpp:559-685 | after any session whose re-arming writes have landed, `run` and `cont` report a hit if and only if the program itself comes in time and first to a writable breakpoint (the one started from only once it is written back); and the hit is there |
| `Exactness.StartKeepsEntryIff` | homework4/0756706_samuel/sdb.cpp:609-613 | `start` leaves a new process at its entry if and only if no breakpoint lies one before the entry |
| `Exactness.RecheckKeepsStateIff` | homework4/0756706_samuel/sdb.cpp:566-613 | `start` on a running process keeps the shown state if and only if: the process stands at the shown `rip` and no listed address is one before it, or it stands one past a shown `rip` that is still listed |
| `Exactness.StepRefinesIff` | homework4/0756706_samuel/sdb.cpp:665-685 | for every landing time: `si` absorbs the trap of a breakpoint in force and changes nothing, or executes one instruction; it then shows that instruction's result if and only if no listed address is one before the new `rip` |
| `Exactness.SetShowsValueIff` | homework4/0756706_samuel/sdb.cpp:428-434 | `set` writes the shown registers back with one changed and leaves memory alone; `set rip` shows the value given if and only if no listed address is one before it |
| `Transparency.HitShowsOwnInstruction` | homework4/0756706_samuel/sdb.cpp:680-701 | every byte shown of the instruction at a hit is the program's own, although only the first is put right; 0xFF where a later word cannot be read |
| `Transparency.SessionShowsOwnInstructions` | homework4/0756706_samuel/sdb.cpp:680-701 | the same of every hit that any session reports |
| `Exactness.CurrentIsOnlyMatch` | homework4/0756706_samuel/sdb.cpp:670-684 | a coherent `bp_idx` is the only index whose address is the shown `rip` |
| `Exactness.DeleteKeepsCoherenceIff` | homework4/0756706_samuel/sdb.cpp:207-214 | `delete` keeps `bp_idx` on the breakpoint the process stands on if and only if it does not erase below it |
| `Exactness.DeleteLeavesDanglingIff` | homework4/0756706_samuel/sdb.cpp:207-214 | the next resumption indexes past the list if and only if `delete` erased below a `bp_idx` that was the last index |
| `Exactness.SessionKeepsCoherence` | homework4/0756706_samuel/sdb.cpp:670-684 | over every session without such a deletion `bp_idx` is -1 or the index of the breakpoint at the shown `rip`, and no command is undefined |
| `Exactness.DeletingIsNeverRearming` | homework4/0756706_samuel/sdb.cpp:201-214 | deleting the current breakpoint and resuming is resuming over it with the re-arming write refused, and its byte is the mapped one when the process stops |
| `Exactness.DeletedStaysMapped` | homework4/0756706_samuel/sdb.cpp:201-214 | after every further sound session that byte is the mapped one, unless the address is listed again |
| `Listing.OverlayRestores` | homework4/0756706_samuel/sdb.cpp:287-291 | the overlay loop replaces exactly the listed bytes in range by the saved ones |
| `Listing.DisasmHidesBreakpoints` | homework4/0756706_samuel/sdb.cpp:273-292 | for every start address the buffer given to the disassembler equals the mapped bytes wherever it was read, and is zero after that |
| `Listing.DisasmReadsFile` | homework4/0756706_samuel/sdb.cpp:242-258 | before the launch the 112 bytes given to the disassembler are the file's from offset + (start - section address) on, zero past its end |
| `Listing.DisasmDoes` | homework4/0756706_samuel/sdb.cpp:230-312 | `disasm` lists from the address given, or else the one remembered; the i-th line has the decoder's i-th size and begins before the end of `.text`, or of the bytes read while running; it stops only when sizes run out or the end is reached, and remembers where; without a usable start nothing changes |
| `Listing.ListingsTile` | homework4/0756706_samuel/sdb.cpp:296-312 | argument-less `disasm` commands, with other commands between them, print lines without gap or overlap, and the remembered address is the end of the last |
| `Listing.DumpsFollow` | homework4/0756706_samuel/sdb.cpp:439-497 | `dump` of a running process changes only the remembered address, to where its lines ended: after five, or before the first whose first word cannot be read |
| `Counterexamples.NothingElseIsWrong` | homework4/0756706_samuel/sdb.cpp:97-134 | the file, with `.text` behind a header, and its mapping in the sessions below are what the theorems assume; the load base is found if and only if the program is linked at its file offset or mapped where it is linked |
| `Counterexamples.DeletingBelowDangles` | homework4/0756706_samuel/sdb.cpp:207-214 | `load`, two `break`s, `run` to the second, `delete 0`: `bp_idx` is past the end and `cont` is undefined |
| `Counterexamples.SteppingOffOneByteInstruction` | homework4/0756706_samuel/sdb.cpp:670-684 | `load`, `break`, `run`, `si` over the one-byte instruction there: the breakpoint's address is shown, not the next |
| `Counterexamples.SettingRipPastBreakpoint` | homework4/0756706_samuel/sdb.cpp:433-434 | `load`, `break`, `start`, `set rip` to one past the breakpoint: the breakpoint's address is shown |
| `Counterexamples.StartingPastBreakpoint` | homework4/0756706_samuel/sdb.cpp:609-613 | `load`, `break` at one before the entry, `start`: a hit is reported though nothing has been executed |
| `Counterexamples.RestartingPastBreakpoint` | homework4/0756706_samuel/sdb.cpp:566-613 | `load`, `start`, `break` at one before `rip`, `start`: a hit is reported though nothing has been executed |
| `Counterexamples.BreakPastTheEnd` | homework4/0756706_samuel/sdb.cpp:175-176 | `load`, `start`, `break` just past the mapping: it is accepted, with 0xFF saved for a byte that does not exist |
| `Counterexamples.BreakNearTheEnd` | homework4/0756706_samuel/sdb.cpp:184-186 | `load`, `start`, `break` in the last seven mapped bytes: 0xFF is saved for the program's 0x90 |
| `Counterexamples.RefusedRearmIsPassed` | homework4/0756706_samuel/sdb.cpp:632-638 | `load`, `break`, `run`, `cont` with the re-arming write refused: the process never stops, although the undebugged run comes back to the breakpoint every four instructions |
| `Counterexamples.DisasmAddressIsForgotten` | homework4/0756706_samuel/sdb.cpp:655-657 | `load`, `start`, `disasm` at one below the load base, `cont` to the end: the remembered address is taken for none |
| `Counterexamples.BreakpointGoesElsewhere` | homework4/0756706_samuel/sdb.cpp:593-602 | `load`, `break`, `start` of a program linked at 0x1000 and mapped 0x10000 above: the breakpoint goes to an unmapped address and its instruction is not armed |
| `Sdb.Process.Advance` | homework4/0756706_samuel/sdb.cpp:73 | a resumed process is, after at most `n` instructions, what the run relation says |
| `Sdb.SDB.LoadProg` | homework4/0756706_samuel/sdb.cpp:87-140 | the file is taken if and only if its tables load and name a `.text` section; the first such section is used |
| `Sdb.SDB.SetBp` | homework4/0756706_samuel/sdb.cpp:142-192 | duplicates and addresses out of range leave the state alone; otherwise one breakpoint is appended, with the file's byte, or with the live byte and INT3 poked over it |
| `Sdb.SDB.DeleteBp` | homework4/0756706_samuel/sdb.cpp:194-218 | the whole new state: entry erased, byte put back while running, registers written back when it was the current one |
| `Sdb.SDB.CheckIfBp` | homework4/0756706_samuel/sdb.cpp:665-692 | registers are fetched, the first breakpoint one before `rip` becomes current and `rip` is moved onto it; two words are read there and the saved byte is put first |
| `Sdb.SDB.SetReg` | homework4/0756706_samuel/sdb.cpp:416-437 | the cached registers with one changed are written to the process; `rip` looks for a breakpoint again |
| `Sdb.SDB.RebaseAndArm` | homework4/0756706_samuel/sdb.cpp:596-602 | every address is moved by the base and memory is the list's installation |
| `Sdb.SDB.Begin` | homework4/0756706_samuel/sdb.cpp:592-606 | the whole state after a process has been started |
| `Sdb.SDB.ProgramTerminated` | homework4/0756706_samuel/sdb.cpp:648-663 | the whole state after a process has ended, addresses moved back |
| `Sdb.SDB.ContinueImpl` | homework4/0756706_samuel/sdb.cpp:618-646 | byte put back, registers written, process resumed, and the byte re-armed when that write is accepted |
| `Sdb.SDB.Wait` | homework4/0756706_samuel/sdb.cpp:71-79 | what the command loop does with a stop, an exit or neither |
| `Sdb.SDB.ReadLive` | homework4/0756706_samuel/sdb.cpp:273-286 | words are read until one cannot be; the rest of the buffer is zero |
| `Sdb.SDB.OverlaySaved` | homework4/0756706_samuel/sdb.cpp:287-291 | saved bytes are laid over what was read |
| `Sdb.SDB.DisAsm` | homework4/0756706_samuel/sdb.cpp:230-317 | the printed lines and the new remembered address |
| `Sdb.SDB.PrintLines` | homework4/0756706_samuel/sdb.cpp:303-307 | lines up to the first instruction at or past the end, and where they end |
| `Sdb.SDB.DumpMem` | homework4/0756706_samuel/sdb.cpp:439-497 | the remembered dump address after up to ten words, given up at an unreadable line |
| `Sdb.SDB.ExecImpl` | homework4/0756706_samuel/sdb.cpp:559-616 | `start` and `run` in each lifecycle state, `start` on a running process included |
| `Sdb.SDB.Perform` | homework4/0756706_samuel/sdb.cpp:64-83 | one round of the command loop is one step of the session |
| `Sdb.SDB.RunAll` | homework4/0756706_samuel/sdb.cpp:54-85 | the command loop over a whole input is the session the theorems are about |
| `Debugging.Debug` | homework4/0756706_samuel/sdb.cpp:789-798 | a new debugger given any suitable commands: none is undefined, and what it then shows is true of the undebugged run and of the program's memory, hits included; breakpoints are armed when re-arming writes landed |
| `Tokenizer.Split` | homework4/0756706_samuel/sdb.cpp:500-512 | terminates and gives the tokens of the input |
| `Tokenizer.TokensAreClean` | homework4/0756706_samuel/sdb.cpp:500-512 | tokens are never none, free of the delimiter, and only the first and last may be empty |
| `Tokenizer.JoinTokens` | homework4/0756706_samuel/sdb.cpp:500-512 | joining the tokens gives the input with each delimiter run collapsed |
| `Tokenizer.TokensOfJoin` | homework4/0756706_samuel/sdb.cpp:500-512 | splitting undoes joining for every list that splitting can give |
| `Tokenizer.TokensUnique` | homework4/0756706_samuel/sdb.cpp:500-512 | the tokens are the only such list that joins to the collapsed input |
| `Tokenizer.SplitJoinSplit` | homework4/0756706_samuel/sdb.cpp:500-512 | split after join after split is split |
| `Elf.ListAgreesWithTable` | homework4/0756706_samuel/elftool.c:172-192 | ids strictly decrease, and a search finds an entry if and only if the index is a string-table section, with that section's bytes |
| `Elf.LoadFailsIffUnreadable` | homework4/0756706_samuel/elftool.c:178-197 | loading the string tables fails if and only if some string-table section cannot be read in full |
| `Elf.SymbolsUseLinkedTable` | homework4/0756706_samuel/elftool.c:211-238 | a symbol table loads if and only if its link names a string-table section and its own bytes are in the file; its names are that section's bytes, its entries its own, and its count that of the whole 16-byte (32-bit class) or 24-byte (64-bit) entries |
| `Elf.SectionIsRead` | homework4/0756706_samuel/elftool.c:183-187 | a section is read if and only if its range lies in the file, and gives the bytes from its offset on |
| `Elf.TextIndexExact` | homework4/0756706_samuel/sdb.cpp:97-134 | `load_prog` succeeds exactly on readable tables whose header string table names a `.text` section, and takes the first so named |
| `Elf.Handle.LoadStrtab` | homework4/0756706_samuel/elftool.c:172-198 | the prepending loop builds the list of the section table, or the null list on a failed read |
| `Elf.Handle.FindTab` | homework4/0756706_samuel/elftool.c:221-226 | the list search by section index |
| `Elf.Handle.LoadSymbols` | homework4/0756706_samuel/elftool.c:211-293 | the first section of a kind, with the names of the table it links to |
| `Elf.Handle.LoadAll` | homework4/0756706_samuel/elftool.c:90-105 | all tables are loaded, or none is kept |
| `Elf.Handle.FindText` | homework4/0756706_samuel/sdb.cpp:113-120 | the first section named `.text`, or -1 |
| `Patcher.StopsAtTrap` | homework4/NoMoreTraps/write_tracee.cpp:61-68 | every stop of the child is one past an INT3 byte |
| `Patcher.PatchingConserves` | homework4/NoMoreTraps/write_tracee.cpp:59-80 | INT3 bytes in the text plus table bytes consumed (less those that are INT3) is constant, and every trap is at an original INT3 |
| `Patcher.PatchingWritesTable` | homework4/NoMoreTraps/write_tracee.cpp:59-80 | with no INT3 in the table: trapped addresses are distinct, the k-th holds the k-th table byte, all else is unchanged, stops are at most the initial INT3 count |
| `Patcher.LongTableSuffices` | homework4/NoMoreTraps/write_tracee.cpp:71-71 | a table at least as long as the INT3 count is never read past its end |
| `Patcher.PatchTrap` | homework4/NoMoreTraps/write_tracee.cpp:66-79 | one stop: the trapped byte is overwritten, `rip` is moved back by one, `rdx` is set to `rax`, other registers and data are kept, the child is resumed |
| `Patcher.RewoundGoesBack` | homework4/NoMoreTraps/write_tracee.cpp:74-77 | the registers that a stop is resumed with, one by one |
| `Patcher.PatchingIsJourney` | homework4/NoMoreTraps/write_tracee.cpp:59-80 | the whole loop: after its k-th stop the child goes on from the k-th trapped address, over a text that differs from the one before in that byte alone, which is the k-th of the table, with `rdx` as `rax` was; what it does after the last stop is how the patching ends |
| `Patcher.RunsPatched` | homework4/NoMoreTraps/write_tracee.cpp:66-79 | the first instruction carried out after the k-th stop is the one that starts with the k-th table byte at the k-th trapped address, unless that byte is itself INT3 |
| `Patcher.PatchLoop` | homework4/NoMoreTraps/write_tracee.cpp:60-80 | the loop terminates, with the traps, text and ending of the patching it is specified by |
| `X86.CmpDecides` | homework3/bubble_2502.asm:5-11 | after `cmp`, `jge` is taken in signed order and `jae` in unsigned order; the zero flag means equal |
| `X86.IncSays` | homework3/bubble_2502.asm:19-30 | `inc` adds one modulo 2^32, keeps the carry, and sets the other flags by the result |
| `X86.ShlSays` | homework3/dispbin_2505.asm:6-12 | `shl` by one: carry and result together are twice the half register |
| `BubbleSort.Turn` | homework3/bubble_2502.asm:3-13 | one turn of the inner loop makes one comparison and exchanges the two words unless they are in order |
| `BubbleSort.NextPass` | homework3/bubble_2502.asm:14-21 | with `edx` at its bound another pass begins while `ecx` is below its bound, and the program exits after that |
| `BubbleSort.Swap` | homework3/bubble_2502.asm:22-28 | the exchange of two words in memory, all else untouched |
| `BubbleSort.PassSettlesOne` | homework3/bubble_2502.asm:3-31 | each pass puts the largest unsettled word in its place |
| `BubbleSort.SortsAnyWords` | homework3/bubble_2502.asm:1-33 | for any number of words (10 with bound 9 as written): halts without a fault after n passes of n-1 comparisons (counted), words in ascending unsigned order, a permutation, no other memory changed |
| `BinaryPrinter.DigitSteps` | homework3/dispbin_2505.asm:7-26 | one digit: a bit is shifted out of AH or AL and its character stored |
| `BinaryPrinter.PrintsAx` | homework3/dispbin_2505.asm:1-27 | for every AX: halts without a fault with sixteen '0' or '1' whose value is AX, AH and AL zero, nothing else touched |
| `BinaryPrinter.DigitsDetermineValue` | homework3/dispbin_2505.asm:14-26 | digit strings of one length are equal if and only if their values are |
| `Processor.Chip.Execute` | homework3/bubble_2502.asm:1-33 | the fetch-and-execute loop reaches the halted state of the run relation |
| `Processor.Sort` | homework3/bubble_2502.asm:1-33 | the sort carried out in the processor's own memory |
| `Processor.Print` | homework3/dispbin_2505.asm:1-27 | the printer carried out in the processor's own memory |

## Left out

- Session.SetRegister: the names are checked against the register table, but register values are unbounded integers; 64-bit wrap-around of registers and addresses is not modelled (user addresses are far below 2^63).
- Session.FileByte: a read past the end of the file leaves the saved byte indeterminate in the source and is 0 here; `SafeBreak` asks that the byte saved is the one mapped.
- Transparency.SessionIsTransparent: excludes `set` on a running process, which changes the run on purpose; `Exactness.SetShowsValueIff`, `Transparency.SessionKeepsLive` and `Exactness.SessionKeepsCoherence` cover it.
- Words.PokeText: a write that runs into an unmapped page is refused as a whole here; Linux reports the error after it has stored the bytes before that page, so arming an address in the last seven mapped bytes overwrites them.
- Machine.FetchesOnly: the tracee neither reads nor writes its own text, so text and data are separate memories; the debugger's peeks of the program's writable memory are not modelled.
- Elf.Handle.LoadSymbols: the source tests an uninitialised pointer when no string table matches; the model takes the failing branch. The entries' fields are not decoded.
- Elf.NamedText: a section name offset outside the string table reads out of bounds in the source and is no match here.
- Elf.Handle.LoadStrtab: list nodes are values, since no node is changed once it has been prepended; freeing and aliasing are not captured.
- Tokenizer.Split: a zero character as delimiter is excluded; the library's `find` is a function.
- Patcher.PatchLoop: how long one resumption of the child may run is a parameter; a child that never stops ends as `Waiting`.
- BubbleSort.Program: the bound 9 is a parameter, with the data inside the 32-bit address space.
- Signals other than the trap, failing `fork`, `waitpid` or `/proc` parsing, and several threads.
- The command-name table, number parsing and its exceptions, `help`, `vmmap`, `get`, `list` and all message text: they change no state (`Show` stands for them).
- Sdb.SDB.DumpMem: the bytes it prints are not modelled, only the address it remembers, of which `Listing.DumpsFollow` says what it means.
- The instruction decoder: its sizes are a parameter, and no relation to the processor is assumed.
- `homework3/recur_2518.asm` and the straight-line exercises, `homework1`, `homework2`, and the counting and tracing programs: I/O plumbing or one-step arithmetic.
