/** The debugger as it is used: the theorems about sessions, told of the object that runs them. */
module Debugging {
  import opened Wrappers
  import opened Machine
  import opened Session
  import opened Invariants
  import opened Transparency
  import opened Exactness
  import opened Arming
  import opened Sdb

  lemma FreshHolds(w: World, regs: Regs)
    ensures Inv(w, Fresh(regs)) && Track(w, Fresh(regs)) && Coherent(Fresh(regs)) && AllArmed(Fresh(regs))
  {
  }

  /**
   A new debugger given any commands, each in a state that suits it: no command is undefined, and when
   the last returns, what the user sees is true of the undebugged run and of the program's own memory, and
   so are the bytes shown for a hit; breakpoints are armed if every write that re-armed one took effect.
   */
  method Debug(host: Host, ghost w: World, regs: Regs, cmds: seq<Command>) returns (sdb: SDB, report: Option<Report>)
    requires w.host == host && FetchesOnly(host.cpu)
    requires SoundSession(w, Fresh(regs), cmds) && FaithfulSession(w, Fresh(regs), cmds)
    ensures report.Some? ==>
              && sdb.Ready() && Inv(w, sdb.View())
              && Truthful(w, Done(sdb.View(), report.value))
              && ShowsMappedText(Done(sdb.View(), report.value))
              && ShowsOwnInstruction(w, Done(sdb.View(), report.value))
              && (LandingSession(host, Fresh(regs), cmds) ==> AllArmed(sdb.View()))
  {
    FreshHolds(w, regs);
    SessionKeepsInv(w, Fresh(regs), cmds);
    SessionIsTransparent(w, Fresh(regs), cmds);
    SessionShowsOwnInstructions(w, Fresh(regs), cmds);
    if LandingSession(host, Fresh(regs), cmds) {
      SessionKeepsArmed(host, Fresh(regs), cmds);
    }
    sdb := new SDB(host, regs);
    report := sdb.RunAll(cmds);
  }
}
