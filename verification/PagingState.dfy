/** State, invariant and observable contents of the demand-paged machine.

    Pages and page tables are named alike by a key (p, n): process p's page n, or its page table
    when n is -1. */
module PagingState {
  import opened PageBits

  const TABLE := -1
  /** The page number that a page gets in the backing store when it is not found in any table. */
  const DEAD := -2

  datatype Slot = Slot(data: seq<Page>, pid: int, page: int, write: bool)
  {
    predicate Used() { pid >= 0 }

    predicate Holds(p: int, n: int) { pid == p && page == n }
  }

  /** What a process has at one of its pages, wherever that page is kept. */
  datatype PageView = Absent | Visible(write: bool, data: seq<Page>)

  /** `mem` is main memory frame by frame, `proc` the hardware table of page tables, `store` the
      backing store and `robin` the next frame to evict. `dropped` is a history variable: the
      number of evictions that found no free slot. */
  datatype State = State(pageSize: nat, virtPages: nat, mem: seq<seq<Page>>, proc: seq<Page>,
                         store: seq<Slot>, robin: nat, dropped: nat)
  {
    /** PAGE_FRAMES is at least two and fits the frame field, a page table fits in one page, and
        process ids fit the procc field. */
    ghost predicate Shape() {
      && 1 <= virtPages <= pageSize
      && 2 <= |mem| <= 16
      && |proc| <= 4
      && robin < |mem|
      && (forall f | 0 <= f < |mem| :: |mem[f]| == pageSize)
      && (forall i | 0 <= i < |store| :: |store[i].data| == pageSize)
    }

    predicate Named(p: int, n: int) {
      && 0 <= p < |proc|
      && (n == TABLE || (proc[p].frame < |mem| && 0 <= n < |mem[proc[p].frame]|))
    }

    /** The table entry for key (p, n); a table's own entry is in the hardware table. */
    function Entry(p: int, n: int): Page
      requires Named(p, n)
    {
      if n == TABLE then proc[p] else mem[proc[p].frame][n]
    }

    function SetEntry(p: int, n: int, e: Page): State
      requires Named(p, n)
    {
      if n == TABLE then this.(proc := proc[p := e])
      else this.(mem := mem[proc[p].frame := mem[proc[p].frame][n := e]])
    }

    /** Key (p, n) is in main memory. */
    predicate Live(p: int, n: int) {
      && Named(p, n)
      && proc[p].valid
      && Entry(p, n).valid
      && Entry(p, n).frame < |mem|
    }

    ghost predicate Allocated(f: int) {
      exists p, n :: Live(p, n) && Entry(p, n).frame == f
    }

    // ---------------------------------------------------------------- invariant

    predicate EntryOk(e: Page, p: int, n: int) {
      && e.procc == p
      && (e.valid ==> e.frame < |mem| && n < virtPages)
    }

    ghost predicate TableOk(p: int)
      requires Shape() && 0 <= p < |proc|
    {
      && proc[p].procc == p
      && proc[p].frame < |mem|
      && (forall n | 0 <= n < pageSize :: EntryOk(mem[proc[p].frame][n], p, n))
    }

    ghost predicate TablesOk()
      requires Shape()
    {
      forall p | 0 <= p < |proc| && proc[p].valid :: TableOk(p)
    }

    /** No frame is used twice, be it for tables or for pages, within or across processes. */
    ghost predicate Disjoint() {
      forall p, n, q, m ::
        Live(p, n) && Live(q, m) && Entry(p, n).frame == Entry(q, m).frame ==> p == q && n == m
    }

    predicate Blank(data: seq<Page>, p: int) {
      forall n | 0 <= n < |data| :: !data[n].valid && data[n].procc == p
    }

    predicate SlotOk(t: Slot) {
      && t.pid < |proc|
      && (t.page == DEAD || t.page == TABLE || 1 <= t.page < virtPages)
      && !Live(t.pid, t.page)
      && (t.page == TABLE ==> Blank(t.data, t.pid))
    }

    ghost predicate SlotsOk() {
      && (forall i | 0 <= i < |store| && store[i].Used() :: SlotOk(store[i]))
      && (forall i, j | 0 <= i < |store| && 0 <= j < |store| && store[i].Used() && store[i].page != DEAD ::
            store[j].Holds(store[i].pid, store[i].page) ==> i == j)
    }

    ghost predicate Inv() {
      Shape() && TablesOk() && Disjoint() && SlotsOk()
    }

    // ---------------------------------------------------------------- observation

    function Stored(p: int, n: int): (r: nat)
      ensures r <= |store|
    {
      FindSlot(store, p, n, 0)
    }

    function View(p: int, n: int): PageView {
      if Live(p, n) then Visible(Entry(p, n).write, mem[Entry(p, n).frame])
      else if Stored(p, n) < |store| then Visible(store[Stored(p, n)].write, store[Stored(p, n)].data)
      else Absent
    }

    predicate HasTable(p: int) {
      Live(p, TABLE) || Stored(p, TABLE) < |store|
    }

    ghost predicate HasDead(p: int) {
      exists i :: 0 <= i < |store| && store[i].Holds(p, DEAD)
    }

    ghost function PageZeros(): set<int> {
      set p | 0 <= p < |proc| && Live(p, 0)
    }

    /** How many slots are dead or may become so: each page 0 in memory can leave one behind. */
    ghost function Doomed(): nat {
      |DeadSlots(store)| + |PageZeros()|
    }

    /** Dead slots have taken up the room that the tables and pages of all processes may need. */
    ghost predicate Overfull() {
      |DeadSlots(store)| + |proc| * virtPages > |store|
    }
  }

  /** Slots that hold an evicted page 0. Nothing ever looks for them, so they are never freed. */
  ghost function DeadSlots(store: seq<Slot>): set<int> {
    set i | 0 <= i < |store| && store[i].Used() && store[i].page == DEAD
  }

  /** The first slot from i on that holds page n of process p, or the number of slots. */
  function FindSlot(store: seq<Slot>, p: int, n: int, i: nat): (r: nat)
    requires i <= |store|
    ensures i <= r <= |store|
    ensures r < |store| ==> store[r].Holds(p, n)
    ensures forall k | i <= k < r :: !store[k].Holds(p, n)
    decreases |store| - i
  {
    if i == |store| || store[i].Holds(p, n) then i else FindSlot(store, p, n, i + 1)
  }

  /** The first unused slot from i on, or the number of slots. */
  function FreeSlot(store: seq<Slot>, i: nat): (r: nat)
    requires i <= |store|
    ensures i <= r <= |store|
    ensures r < |store| ==> !store[r].Used()
    ensures forall k | i <= k < r :: store[k].Used()
    decreases |store| - i
  {
    if i == |store| || !store[i].Used() then i else FreeSlot(store, i + 1)
  }
}
