/** Background jobs of the shell: a table of trackers whose job numbers are renumbered whenever a
    job ends. The live numbers refine a list in launch order. */
module Jobs {
  import Grid

  /** A tracker is in use when its pid is not 0; one that is not keeps its old number. */
  datatype Tracker = Tracker(pid: int, jobnum: int)

  datatype State = State(trackers: seq<Tracker>, counter: int)

  /** The first tracker from i on with the given pid, or the number of trackers. */
  function Find(trackers: seq<Tracker>, pid: int, i: nat): (r: nat)
    requires i <= |trackers|
    ensures i <= r <= |trackers|
    ensures r < |trackers| ==> trackers[r].pid == pid
    ensures forall k | i <= k < r :: trackers[k].pid != pid
    decreases |trackers| - i
  {
    if i == |trackers| || trackers[i].pid == pid then i else Find(trackers, pid, i + 1)
  }

  function Decremented(trackers: seq<Tracker>, n: int): (r: seq<Tracker>)
    ensures |r| == |trackers|
    ensures forall i | 0 <= i < |trackers| ::
        r[i] == trackers[i].(jobnum := trackers[i].jobnum - if trackers[i].jobnum > n then 1 else 0)
  {
    seq(|trackers|, i requires 0 <= i < |trackers| =>
      trackers[i].(jobnum := trackers[i].jobnum - if trackers[i].jobnum > n then 1 else 0))
  }

  /** Start a job: the first free tracker gets the next number. */
  function Launch(s: State, pid: int): State
    requires Find(s.trackers, 0, 0) < |s.trackers|
  {
    State(s.trackers[Find(s.trackers, 0, 0) := Tracker(pid, s.counter)], s.counter + 1)
  }

  /** A job ends: later jobs move down one number, and its tracker becomes free. */
  function Finish(s: State, pid: int): State
    requires Find(s.trackers, pid, 0) < |s.trackers|
  {
    var i := Find(s.trackers, pid, 0);
    var moved := Decremented(s.trackers, s.trackers[i].jobnum);
    State(moved[i := moved[i].(pid := 0)], s.counter - 1)
  }

  // ------------------------------------------------------------------ the list

  /** The jobs in launch order are those in the table. Job k of the list has the tracker home[k] and
      the number k + 1, and every other tracker is free. */
  ghost predicate Represents(s: State, jobs: seq<int>, home: seq<int>) {
    && s.counter == |jobs| + 1 && |home| == |jobs|
    && (forall k | 0 <= k < |jobs| :: jobs[k] > 0)
    && (forall j, k | 0 <= j < k < |jobs| :: jobs[j] != jobs[k])
    && (forall k | 0 <= k < |jobs| :: 0 <= home[k] < |s.trackers| && s.trackers[home[k]] == Tracker(jobs[k], k + 1))
    && (forall i | 0 <= i < |s.trackers| && s.trackers[i].pid != 0 ::
          1 <= s.trackers[i].jobnum <= |jobs| && home[s.trackers[i].jobnum - 1] == i)
  }

  function Without<T>(list: seq<T>, k: nat): (r: seq<T>)
    requires k < |list|
    ensures |r| == |list| - 1
    ensures forall i | 0 <= i < |r| :: r[i] == list[if i < k then i else i + 1]
  {
    list[..k] + list[k + 1..]
  }

  /** Launching appends. */
  lemma LaunchAppends(s: State, jobs: seq<int>, home: seq<int>, pid: int)
    requires Represents(s, jobs, home) && Find(s.trackers, 0, 0) < |s.trackers| && pid > 0 && pid !in jobs
    ensures Represents(Launch(s, pid), jobs + [pid], home + [Find(s.trackers, 0, 0)])
  {
  }

  /** The tracker found for a live job is the one with its place in the list as its number. */
  lemma NumberIsPlace(s: State, jobs: seq<int>, home: seq<int>, k: nat)
    requires Represents(s, jobs, home) && k < |jobs|
    ensures Find(s.trackers, jobs[k], 0) == home[k] && s.trackers[home[k]].jobnum == k + 1
  {
    var i := Find(s.trackers, jobs[k], 0);
    assert s.trackers[home[k]].pid == jobs[k];
    assert s.trackers[i].pid == jobs[k];
    var j := s.trackers[i].jobnum - 1;
    assert home[j] == i && jobs[j] == jobs[k];
  }

  lemma FinishedPlace(s: State, jobs: seq<int>, home: seq<int>, k: nat, m: nat)
    requires Represents(s, jobs, home) && k < |jobs| && m < |jobs| - 1
    requires Find(s.trackers, jobs[k], 0) == home[k]
    ensures var t := Finish(s, jobs[k]); var i := Without(home, k)[m];
      0 <= i < |t.trackers| && t.trackers[i] == Tracker(Without(jobs, k)[m], m + 1)
  {
    var m' := if m < k then m else m + 1;
    assert s.trackers[home[m']] == Tracker(jobs[m'], m' + 1) && s.trackers[home[k]] == Tracker(jobs[k], k + 1);
  }

  lemma FinishedHome(s: State, jobs: seq<int>, home: seq<int>, k: nat, i: nat)
    requires Represents(s, jobs, home) && k < |jobs| && i < |s.trackers|
    requires Find(s.trackers, jobs[k], 0) == home[k]
    ensures var t := Finish(s, jobs[k]);
      t.trackers[i].pid != 0 ==>
        1 <= t.trackers[i].jobnum <= |jobs| - 1 && Without(home, k)[t.trackers[i].jobnum - 1] == i
  {
    if i != home[k] && s.trackers[i].pid != 0 {
      assert home[s.trackers[i].jobnum - 1] == i && s.trackers[home[k]].jobnum == k + 1;
    }
  }

  /** Completing job k + 1 removes that place, and later jobs move up. */
  lemma FinishRemoves(s: State, jobs: seq<int>, home: seq<int>, k: nat)
    requires Represents(s, jobs, home) && k < |jobs|
    ensures Find(s.trackers, jobs[k], 0) < |s.trackers|
    ensures Represents(Finish(s, jobs[k]), Without(jobs, k), Without(home, k))
  {
    NumberIsPlace(s, jobs, home, k);
    var t, list, place := Finish(s, jobs[k]), Without(jobs, k), Without(home, k);
    forall m | 0 <= m < |list| ensures 0 <= place[m] < |t.trackers| && t.trackers[place[m]] == Tracker(list[m], m + 1) {
      FinishedPlace(s, jobs, home, k, m);
    }
    forall i | 0 <= i < |t.trackers| && t.trackers[i].pid != 0
      ensures 1 <= t.trackers[i].jobnum <= |list| && place[t.trackers[i].jobnum - 1] == i
    {
      FinishedHome(s, jobs, home, k, i);
    }
  }

  lemma FreeMeansRoom(s: State, jobs: seq<int>, home: seq<int>)
    requires Represents(s, jobs, home) && Find(s.trackers, 0, 0) < |s.trackers|
    ensures |jobs| < |s.trackers|
  {
    var place := k => if 0 <= k < |home| then home[k] else 0;
    forall j, k | j in Grid.Below(|jobs|) && k in Grid.Below(|jobs|) && place(j) == place(k) ensures j == k {
      assert s.trackers[home[j]] == Tracker(jobs[j], j + 1) && s.trackers[home[k]] == Tracker(jobs[k], k + 1);
    }
    Grid.InjectionLeavesGap(Grid.Below(|jobs|), place, |s.trackers|, Find(s.trackers, 0, 0), {});
  }

  lemma BusyMeansNoRoom(s: State, jobs: seq<int>, home: seq<int>)
    requires Represents(s, jobs, home) && Find(s.trackers, 0, 0) == |s.trackers|
    ensures |s.trackers| <= |jobs|
  {
    var number := i => if 0 <= i < |s.trackers| then s.trackers[i].jobnum - 1 else 0;
    forall i | i in Grid.Below(|s.trackers|) ensures 0 <= number(i) < |jobs| && home[number(i)] == i {
      assert s.trackers[i].pid != 0;
    }
    Grid.InjectionFits(Grid.Below(|s.trackers|), number, |jobs|, {});
  }

  /** There is a free tracker exactly while fewer jobs run than there are trackers. */
  lemma FreeTrackerIff(s: State, jobs: seq<int>, home: seq<int>)
    requires Represents(s, jobs, home)
    ensures Find(s.trackers, 0, 0) < |s.trackers| <==> |jobs| < |s.trackers|
  {
    if Find(s.trackers, 0, 0) < |s.trackers| { FreeMeansRoom(s, jobs, home); } else { BusyMeansNoRoom(s, jobs, home); }
  }

  // ------------------------------------------------------------------ runs

  /** A job starts with process pid, or the job at place k ends. */
  datatype Event = Launched(pid: int) | Finished(k: nat)

  /** What may happen to a list of jobs when there are `room` trackers. */
  predicate Possible(jobs: seq<int>, e: Event, room: nat) {
    match e
    case Launched(pid) => pid > 0 && pid !in jobs && |jobs| < room
    case Finished(k) => k < |jobs|
  }

  function ListStep(jobs: seq<int>, e: Event): seq<int>
    requires e.Finished? ==> e.k < |jobs|
  {
    match e case Launched(pid) => jobs + [pid] case Finished(k) => Without(jobs, k)
  }

  /** A run of the list: the lists before each event, and the last. */
  ghost predicate ListRun(lists: seq<seq<int>>, events: seq<Event>, room: nat) {
    && |lists| == |events| + 1
    && (forall i | 0 <= i < |events| ::
          Possible(lists[i], events[i], room) && lists[i + 1] == ListStep(lists[i], events[i]))
  }

  /** The table after the same events. */
  ghost function TableRun(s: State, lists: seq<seq<int>>, events: seq<Event>, i: nat): State
    requires ListRun(lists, events, |s.trackers|) && i <= |events|
  {
    if i == 0 then s
    else
      var t := TableRun(s, lists, events, i - 1);
      match events[i - 1]
      case Launched(pid) => if Find(t.trackers, 0, 0) < |t.trackers| then Launch(t, pid) else t
      case Finished(k) =>
        assert Possible(lists[i - 1], events[i - 1], |s.trackers|);
        if Find(t.trackers, lists[i - 1][k], 0) < |t.trackers| then Finish(t, lists[i - 1][k]) else t
  }

  /** At every moment of every run the table represents the list: numbers are places, and no launch
      and no completion fails to find its tracker. */
  lemma {:induction false} TableRefinesList(s: State, lists: seq<seq<int>>, events: seq<Event>, i: nat)
    returns (home: seq<int>)
    requires ListRun(lists, events, |s.trackers|) && i <= |events|
    requires lists[0] == [] && Represents(s, [], [])
    ensures Represents(TableRun(s, lists, events, i), lists[i], home)
    ensures |TableRun(s, lists, events, i).trackers| == |s.trackers|
  {
    if i == 0 {
      home := [];
    } else {
      home := TableRefinesList(s, lists, events, i - 1);
      var t := TableRun(s, lists, events, i - 1);
      var e := events[i - 1];
      assert Possible(lists[i - 1], e, |s.trackers|) && lists[i - 1 + 1] == ListStep(lists[i - 1], e);
      if e.Launched? {
        FreeTrackerIff(t, lists[i - 1], home);
        LaunchAppends(t, lists[i - 1], home, e.pid);
        home := home + [Find(t.trackers, 0, 0)];
      } else {
        FinishRemoves(t, lists[i - 1], home, e.k);
        home := Without(home, e.k);
      }
    }
  }

  // ------------------------------------------------------------------ the program

  class JobTable {
    const trackers: array<Tracker>
    var jobCounter: int

    function Table(): State
      reads this, trackers
    {
      State(trackers[..], jobCounter)
    }

    constructor (size: nat)
      ensures fresh(trackers) && trackers.Length == size && Represents(Table(), [], [])
    {
      trackers := new Tracker[size](_ => Tracker(0, 0));
      jobCounter := 1;
    }

    method FindProcess(pid: int) returns (r: nat)
      ensures r == Find(trackers[..], pid, 0)
    {
      r := 0;
      while r < trackers.Length
        invariant 0 <= r <= trackers.Length && Find(trackers[..], pid, 0) == Find(trackers[..], pid, r)
      {
        if trackers[r].pid == pid { return; }
        r := r + 1;
      }
    }

    method DecrementJobs(n: int)
      modifies this`jobCounter, trackers
      ensures trackers[..] == Decremented(old(trackers[..]), n) && jobCounter == old(jobCounter) - 1
    {
      for i := 0 to trackers.Length
        invariant forall k | 0 <= k < i :: trackers[k] == Decremented(old(trackers[..]), n)[k]
        invariant forall k | i <= k < trackers.Length :: trackers[k] == old(trackers[k])
        invariant jobCounter == old(jobCounter)
      {
        if trackers[i].jobnum > n { trackers[i] := trackers[i].(jobnum := trackers[i].jobnum - 1); }
      }
      jobCounter := jobCounter - 1;
    }

    /** Start a background job whose process is pid. The program dereferences a null pointer where
        this returns true, which is exactly when every tracker has a job. */
    method LaunchJob(pid: int, ghost jobs: seq<int>, ghost home: seq<int>) returns (crash: bool)
      requires Represents(Table(), jobs, home) && pid > 0 && pid !in jobs
      modifies this`jobCounter, trackers
      ensures crash <==> |jobs| >= trackers.Length
      ensures if crash then Table() == old(Table())
        else
          && Find(old(trackers[..]), 0, 0) < trackers.Length && Table() == Launch(old(Table()), pid)
          && Represents(Table(), jobs + [pid], home + [Find(old(trackers[..]), 0, 0)])
    {
      FreeTrackerIff(Table(), jobs, home);
      var i := FindProcess(0);
      if i == trackers.Length { return true; }
      LaunchAppends(Table(), jobs, home, pid);
      trackers[i] := trackers[i].(jobnum := jobCounter);
      jobCounter := jobCounter + 1;
      trackers[i] := trackers[i].(pid := pid);
      assert trackers[..] == Launch(old(Table()), pid).trackers;
      return false;
    }

    /** The process of the job at place k has ended. */
    method FinishJob(pid: int, ghost jobs: seq<int>, ghost home: seq<int>, ghost k: nat)
      requires Represents(Table(), jobs, home) && k < |jobs| && jobs[k] == pid
      modifies this`jobCounter, trackers
      ensures Find(old(trackers[..]), pid, 0) < trackers.Length && Table() == Finish(old(Table()), pid)
      ensures Represents(Table(), Without(jobs, k), Without(home, k))
    {
      FinishRemoves(Table(), jobs, home, k);
      var i := FindProcess(pid);
      DecrementJobs(trackers[i].jobnum);
      trackers[i] := trackers[i].(pid := 0);
      assert trackers[..] == Finish(old(Table()), pid).trackers;
    }
  }
}
