/** The order of evictions: free_frame goes round the frames, one after the other. */
module PagingRobin {
  import opened PagingState
  import opened PagingFrames

  /** How far it is from frame a forward to frame b, around n frames. */
  function Distance(a: int, b: int, n: int): int {
    if a <= b then b - a else b - a + n
  }

  /** States in which free_frame is called for pid one after the other: nothing else moves robin, and
      pid's table, if it is in memory, stays in frame f. */
  ghost predicate Calls(states: seq<State>, pid: int, f: int) {
    && (forall i | 0 <= i < |states| ::
          && states[i].Inv() && Full(states[i]) && 0 <= pid < |states[i].proc| && |states[i].mem| == |states[0].mem|
          && (states[i].Live(pid, TABLE) ==> states[i].proc[pid].frame == f))
    && (forall i | 0 <= i < |states| - 1 :: states[i + 1].robin == FreeFrame(states[i], pid).0.robin)
  }

  /** Each call brings robin nearer to any frame that it does not return and that is not f. */
  lemma CallComesNearer(s: State, pid: int, f: int, g: int)
    requires s.Inv() && Full(s) && 0 <= pid < |s.proc| && (s.Live(pid, TABLE) ==> s.proc[pid].frame == f)
    requires 0 <= g < |s.mem| && g != f && FreeFrame(s, pid).1 != g
    ensures 0 <= Distance(FreeFrame(s, pid).0.robin, g, |s.mem|) < Distance(s.robin, g, |s.mem|) < |s.mem|
  {
  }

  lemma {:induction false} FrameInTurn(states: seq<State>, pid: int, f: int, g: int) returns (i: nat)
    requires Calls(states, pid, f) && states != [] && 0 <= g < |states[0].mem| && g != f
    requires Distance(states[0].robin, g, |states[0].mem|) < |states|
    ensures i < |states| && FreeFrame(states[i], pid).1 == g
    decreases |states|
  {
    var s := states[0];
    if FreeFrame(s, pid).1 == g {
      i := 0;
    } else {
      CallComesNearer(s, pid, f, g);
      var rest := states[1..];
      assert forall j | 0 <= j < |rest| :: rest[j] == states[j + 1];
      assert states[0 + 1].robin == FreeFrame(states[0], pid).0.robin;
      i := FrameInTurn(rest, pid, f, g);
      i := i + 1;
    }
  }

  /** Round robin: in as many calls for pid as there are frames, every frame but that of pid's table is
      returned. */
  lemma EveryFrameInTurn(states: seq<State>, pid: int, f: int, g: int) returns (i: nat)
    requires Calls(states, pid, f) && states != [] && |states| == |states[0].mem|
    requires 0 <= g < |states[0].mem| && g != f
    ensures i < |states| && FreeFrame(states[i], pid).1 == g
  {
    i := FrameInTurn(states, pid, f, g);
  }
}
