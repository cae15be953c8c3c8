/** State snapshots (vehement/VM.Snapshotting.cs). The C# copies clone the
    register and memory arrays; with value semantics a snapshot shares
    nothing with the machine by construction. */
module Snapshots {
  import opened Results
  import opened Bytes
  import opened Words
  import opened Machine

  /** `StateSnapshot`. Its halted field is never assigned, so it is always
      false. */
  datatype StateSnapshot = StateSnapshot(layout: Layout, regs: seq<u16>, mem: seq<byte>, halted: bool)

  /** `StateSnapshot.Create` / `GetSnapshot`: every layout field, both
      arrays, and not the halted flag. */
  function Create(vm: Vm): (s: StateSnapshot)
    ensures !s.halted
  {
    StateSnapshot(vm.layout, vm.regs, vm.mem, false)
  }

  /** `RestoreSnapshot`: everything the snapshot holds except the
      "disallow executing outside the program segment" switch; the machine's
      own halted flag is kept. */
  function Restore(vm: Vm, s: StateSnapshot): (r: Vm)
    ensures r.halted == vm.halted
    ensures r.layout.disallowExecutingOutsideProgramSegment == vm.layout.disallowExecutingOutsideProgramSegment
  {
    var layout := s.layout.(disallowExecutingOutsideProgramSegment := vm.layout.disallowExecutingOutsideProgramSegment);
    Vm(layout, s.regs, s.mem, vm.halted)
  }

  /** Restoring a snapshot of `saved` into `live` brings back `saved` except
      for the two things the restore does not carry over. */
  lemma RestoreAfterCreate(saved: Vm, live: Vm)
    ensures Restore(live, Create(saved)) ==
              saved.(halted := live.halted,
                     layout := saved.layout.(disallowExecutingOutsideProgramSegment := live.layout.disallowExecutingOutsideProgramSegment))
    ensures live.halted == saved.halted &&
            live.layout.disallowExecutingOutsideProgramSegment == saved.layout.disallowExecutingOutsideProgramSegment
            ==> Restore(live, Create(saved)) == saved
  {
  }

  /** When the two left-out parts agree, a restored machine replays exactly
      what the saved one would have done. */
  lemma RestoreReplays(v: Variant, half: HalfOps, saved: Vm, live: Vm, count: int)
    requires live.halted == saved.halted
    requires live.layout.disallowExecutingOutsideProgramSegment == saved.layout.disallowExecutingOutsideProgramSegment
    ensures RunInstructions(Stepper(v, half), Restore(live, Create(saved)), count) ==
            RunInstructions(Stepper(v, half), saved, count)
  {
    RestoreAfterCreate(saved, live);
  }

  /** Taking a snapshot of a restored machine gives the snapshot back, up to
      the switch the restore skipped. */
  lemma CreateAfterRestore(live: Vm, s: StateSnapshot)
    requires !s.halted
    ensures Create(Restore(live, s)) ==
              s.(layout := s.layout.(disallowExecutingOutsideProgramSegment := live.layout.disallowExecutingOutsideProgramSegment))
  {
  }

  /** A halted machine stays halted across a restore, so a snapshot taken
      before `HALT` cannot resume it. */
  lemma RestoreKeepsHalt(live: Vm, s: StateSnapshot, v: Variant, half: HalfOps)
    requires live.halted
    ensures Step(v, half, Restore(live, s)) == Ok(Restore(live, s))
  {
  }
}
