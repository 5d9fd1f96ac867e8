/**
 Nobody waits in vain: at every moment with work to do and no error or shutdown, exactly
 one background call is scheduled or running, and a writer that waits in MakeRoomForWrite
 is woken by the end of that call or by the error that ends it.
 */
module EngineWake {
  import opened Wrappers
  import opened History
  import opened Compaction
  import opened WriteGroup
  import opened EngineState
  import opened EngineSteps
  import opened EngineInvariants

  lemma WriterKeepsWake(s: State, a: WriterAction, s': State)
    requires WakeInv(s) && WriterStep(s, a, s')
    ensures WakeInv(s')
  {
    hide AllOps, IsGroup, Retirees, MemSet;
  }

  lemma ReaderKeepsWake(s: State, a: ReaderAction, s': State)
    requires WakeInv(s) && ReaderStep(s, a, s')
    ensures WakeInv(s')
  {
  }

  lemma BackKeepsWake(s: State, a: BackAction, s': State)
    requires WakeInv(s) && BackStep(s, a, s')
    ensures WakeInv(s')
  {
    if a.AInstall? {
      InstallKeepsWake(s, s', a.level0, a.needs);
    } else {
      hide Obsolete, FlushEdit, CompactEdit, ApplyEdit, Survivors, Merged, BaseLevelSound, TablesOf, IsSmallestSnapshot, Install;
    }
  }

  lemma InstallKeepsWake(s: State, s': State, level0: nat, needs: bool)
    requires WakeInv(s) && Install(s, s', level0, needs)
    ensures WakeInv(s')
  {
    hide Obsolete, ApplyEdit;
  }
}
