/** How much of the backing store can be in use, and when an eviction is sure to find a slot. */
module PagingCapacity {
  import opened Grid
  import opened PagingState

  /** A number below M * V for each key that can be filed: the table and pages 1 to V - 1. */
  function Code(s: State, i: int): int {
    if 0 <= i < |s.store| then KeyCode(s.virtPages, s.store[i].pid, s.store[i].page) else 0
  }

  function KeyCode(virtPages: nat, p: int, n: int): int {
    At(virtPages, p, if n == TABLE then 0 else n)
  }

  ghost function LiveSlots(s: State): set<int> {
    set i | 0 <= i < |s.store| && s.store[i].Used() && s.store[i].page != DEAD
  }

  lemma CodesInjective(s: State)
    requires s.Inv()
    ensures forall i | i in LiveSlots(s) :: 0 <= Code(s, i) < |s.proc| * s.virtPages
    ensures forall i, j | i in LiveSlots(s) && j in LiveSlots(s) && Code(s, i) == Code(s, j) :: i == j
  {
    forall i | i in LiveSlots(s)
      ensures 0 <= Code(s, i) < |s.proc| * s.virtPages
    {
      assert s.SlotOk(s.store[i]);
      AtInRange(s.virtPages, |s.proc|, s.store[i].pid, if s.store[i].page == TABLE then 0 else s.store[i].page);
    }
    forall i, j | i in LiveSlots(s) && j in LiveSlots(s) && Code(s, i) == Code(s, j)
      ensures i == j
    {
      assert s.SlotOk(s.store[i]) && s.SlotOk(s.store[j]);
      AtInjective(s.virtPages, s.store[i].pid, if s.store[i].page == TABLE then 0 else s.store[i].page,
                  s.store[j].pid, if s.store[j].page == TABLE then 0 else s.store[j].page);
      assert s.store[j].Holds(s.store[i].pid, s.store[i].page);
    }
  }

  ghost function UsedSlots(s: State): set<int> {
    set i | 0 <= i < |s.store| && s.store[i].Used()
  }

  lemma UsedIsLiveOrDead(s: State)
    ensures |UsedSlots(s)| == |LiveSlots(s)| + |DeadSlots(s.store)|
  {
    assert UsedSlots(s) == LiveSlots(s) + DeadSlots(s.store);
  }

  lemma NoFreeSlot(s: State)
    ensures FreeSlot(s.store, 0) == |s.store| ==> |UsedSlots(s)| == |s.store|
  {
    if FreeSlot(s.store, 0) == |s.store| { assert UsedSlots(s) == Below(|s.store|); }
  }

  /** Slots in use never exceed MAX_PROCESSES times the virtual pages, plus the dead slots. */
  lemma SlotsInUse(s: State)
    requires s.Inv()
    ensures |UsedSlots(s)| <= |s.proc| * s.virtPages + |DeadSlots(s.store)|
  {
    CodesInjective(s);
    InjectionFits(LiveSlots(s), i => Code(s, i), |s.proc| * s.virtPages, {});
    UsedIsLiveOrDead(s);
  }

  /** A process with something in memory has its table there, so the table's code is not in use. */
  lemma TableCodeUnused(s: State, p: int, n: int)
    requires s.Inv() && s.Live(p, n)
    ensures 0 <= KeyCode(s.virtPages, p, TABLE) < |s.proc| * s.virtPages
    ensures forall i | i in LiveSlots(s) :: Code(s, i) != KeyCode(s.virtPages, p, TABLE)
  {
    AtInRange(s.virtPages, |s.proc|, p, 0);
    forall i | i in LiveSlots(s) && Code(s, i) == KeyCode(s.virtPages, p, TABLE)
      ensures s.store[i].Holds(p, TABLE) && !s.Live(p, TABLE)
    {
      var slot := s.store[i];
      assert s.SlotOk(slot);
      AtInjective(s.virtPages, slot.pid, if slot.page == TABLE then 0 else slot.page, p, 0);
    }
    assert s.Live(p, TABLE);
  }

  /** As long as the store is not overfull, whatever is in memory can be evicted without loss. */
  lemma RoomToEvict(s: State, p: int, n: int)
    requires s.Inv() && s.Live(p, n) && !s.Overfull()
    ensures FreeSlot(s.store, 0) < |s.store|
  {
    CodesInjective(s);
    TableCodeUnused(s, p, n);
    InjectionLeavesGap(LiveSlots(s), i => Code(s, i), |s.proc| * s.virtPages, KeyCode(s.virtPages, p, TABLE), {});
    UsedIsLiveOrDead(s);
    NoFreeSlot(s);
  }
}
