/** Who can still get the department to change hands: exactly when some run lets a team in, given the
    people who may still come. */
module DepartmentHandover {
  import opened Department

  // ------------------------------------------------------------------ runs by given people

  /** A run from s to u in which only people of H enter. */
  ghost predicate Path(states: seq<State>, events: seq<Event>, s: State, u: State, team: int -> Team, H: set<int>) {
    && Run(states, events, team) && states[0] == s && states[|events|] == u
    && (forall i | 0 <= i < |events| && events[i].Enters? :: events[i].h in H)
  }

  ghost predicate Leads(s: State, u: State, team: int -> Team, H: set<int>) {
    exists states, events :: Path(states, events, s, u, team, H)
  }

  lemma LeadsNowhere(s: State, team: int -> Team, H: set<int>)
    ensures Leads(s, s, team, H)
  {
    assert Path([s], [], s, s, team, H);
  }

  lemma LeadsStep(s: State, e: Event, u: State, team: int -> Team, H: set<int>)
    requires Enabled(s, e, team) && (e.Enters? ==> e.h in H) && Leads(Next(s, e), u, team, H)
    ensures Leads(s, u, team, H)
  {
    var states, events :| Path(states, events, Next(s, e), u, team, H);
    assert Path([s] + states, [e] + events, s, u, team, H);
  }

  lemma LeadsOn(s: State, t: State, u: State, team: int -> Team, H: set<int>)
    requires Leads(s, t, team, H) && Leads(t, u, team, H)
    ensures Leads(s, u, team, H)
  {
    var before, first :| Path(before, first, s, t, team, H);
    var after, second :| Path(after, second, t, u, team, H);
    var states, events := before + after[1..], first + second;
    forall i | 0 <= i < |events|
      ensures Enabled(states[i], events[i], team) && states[i + 1] == Next(states[i], events[i])
    {
      if i >= |first| {
        var j := i - |first|;
        assert states[i] == after[j] && states[i + 1] == after[j + 1];
      }
    }
    assert Path(states, events, s, u, team, H);
  }

  // ------------------------------------------------------------------ letting a team in

  predicate HasChair(s: State) {
    exists i :: 0 <= i < |s.chairs| && s.chairs[i].Chair?
  }

  /** A member of the team who is outside may enter now. */
  predicate Admits(s: State, team: Team) {
    s.alignment == Settled(team) && FirstFree(s.chairs, 0) < |s.chairs|
  }

  lemma ChairsStay(s: State, e: Event)
    requires HasChair(s) && (e.Enters? ==> FirstFree(s.chairs, 0) < |s.chairs|)
    ensures HasChair(Next(s, e))
  {
    var i :| 0 <= i < |s.chairs| && s.chairs[i].Chair?;
    assert Next(s, e).chairs[i].Chair?;
  }

  lemma EmptyHasRoom(s: State)
    requires HasChair(s) && AllEmpty(s)
    ensures FirstFree(s.chairs, 0) < |s.chairs|
  {
    var i :| 0 <= i < |s.chairs| && s.chairs[i].Chair?;
    assert !Occupied(s, i);
  }

  lemma SomebodyIn(s: State) returns (h: int)
    requires !AllEmpty(s)
    ensures IsIn(s, h)
  {
    var i :| 0 <= i < |s.chairs| && Occupied(s, i);
    h := s.chairs[i].hum;
  }

  /** A department that drains can be left by all, and then it belongs to its new owners. */
  lemma {:induction false} DrainsTo(s: State, team: int -> Team, H: set<int>) returns (u: State)
    requires Inv(s, team) && s.alignment.Draining? && HasChair(s)
    ensures Leads(s, u, team, H) && u.alignment == Settled(s.alignment.team) && AllEmpty(u) && HasChair(u)
    decreases |Occupants(s)|
  {
    var h := SomebodyIn(s);
    var e := Leaves(h, false);
    var t := Next(s, e);
    StepInv(s, e, team);
    DrainStep(s, e, team);
    ChairsStay(s, e);
    EmptyIffNobody(s);
    EmptyIffNobody(t);
    if t.alignment.Draining? {
      u := DrainsTo(t, team, H);
    } else {
      u := t;
      LeadsNowhere(t, team, H);
    }
    LeadsStep(s, e, u, team, H);
  }

  /** A settled department with somebody in it can be handed over. */
  lemma HandsOver(s: State, team: int -> Team, H: set<int>) returns (u: State)
    requires Inv(s, team) && s.alignment.Settled? && !AllEmpty(s) && HasChair(s)
    ensures Leads(s, u, team, H) && u.alignment == Settled(Other(s.alignment.team)) && AllEmpty(u) && HasChair(u)
  {
    var h := SomebodyIn(s);
    var e := Leaves(h, true);
    var t := Next(s, e);
    StepInv(s, e, team);
    ChairsStay(s, e);
    if t.alignment.Draining? {
      u := DrainsTo(t, team, H);
    } else {
      u := t;
      LeadsNowhere(t, team, H);
    }
    LeadsStep(s, e, u, team, H);
  }

  /** An empty department can be handed over by a visitor of its team. */
  lemma VisitorHandsOver(s: State, h: int, team: int -> Team, H: set<int>) returns (u: State)
    requires AllEmpty(s) && s.alignment == Settled(team(h)) && HasChair(s) && h in H && h != NOBODY
    ensures Leads(s, u, team, H) && u.alignment == Settled(Other(team(h))) && AllEmpty(u) && HasChair(u)
  {
    EmptyHasRoom(s);
    assert Inv(s, team);
    var e := Enters(h, false);
    assert !IsIn(s, h) by {
      if i :| 0 <= i < |s.chairs| && s.chairs[i] == Chair(h) { assert Occupied(s, i); }
    }
    var t := Next(s, e);
    StepInv(s, e, team);
    ChairsStay(s, e);
    assert Occupied(t, FirstFree(s.chairs, 0));
    u := HandsOver(t, team, H);
    LeadsStep(s, e, u, team, H);
  }

  /** The owners of a settled department can come in, now or when somebody has left. */
  lemma OwnersComeIn(s: State, team: int -> Team, H: set<int>) returns (u: State)
    requires Inv(s, team) && s.alignment.Settled? && HasChair(s)
    ensures Leads(s, u, team, H) && Admits(u, s.alignment.team)
  {
    if FirstFree(s.chairs, 0) < |s.chairs| {
      u := s;
      LeadsNowhere(s, team, H);
    } else {
      var i :| 0 <= i < |s.chairs| && s.chairs[i].Chair?;
      assert Occupied(s, i);
      var e := Leaves(s.chairs[i].hum, false);
      u := Next(s, e);
      assert u.chairs[i] == Chair(NOBODY);
      LeadsNowhere(u, team, H);
      LeadsStep(s, e, u, team, H);
    }
  }

  // ------------------------------------------------------------------ being shut out

  /** The rivals of T own the department or are about to, nobody of them is inside, and nobody of
      them may still come. */
  predicate ShutOut(s: State, T: Team, team: int -> Team, H: set<int>) {
    && s.alignment.team == Other(T) && (s.alignment.Draining? || AllEmpty(s))
    && (forall h | h in H :: team(h) == T)
  }

  lemma StaysShutOut(s: State, e: Event, T: Team, team: int -> Team, H: set<int>)
    requires ShutOut(s, T, team, H) && Enabled(s, e, team) && (e.Enters? ==> e.h in H)
    ensures ShutOut(Next(s, e), T, team, H)
  {
    if e.Leaves? && s.alignment.Settled? {
      var i :| 0 <= i < |s.chairs| && s.chairs[i] == Chair(e.h);
      assert Occupied(s, i);
    }
    if e.Leaves? && Next(s, e).alignment.Settled? {
      var t := State(s.alignment, Vacate(s.chairs, e.h));
      assert forall i | 0 <= i < |t.chairs| :: Occupied(Next(s, e), i) == Occupied(t, i);
    }
  }

  lemma {:induction false} ShutOutAlong(states: seq<State>, events: seq<Event>, s: State, u: State, T: Team,
                                        team: int -> Team, H: set<int>, i: nat)
    requires Path(states, events, s, u, team, H) && ShutOut(s, T, team, H) && i <= |events|
    ensures ShutOut(states[i], T, team, H)
  {
    if i > 0 {
      ShutOutAlong(states, events, s, u, T, team, H, i - 1);
      assert states[i - 1 + 1] == Next(states[i - 1], events[i - 1]);
      StaysShutOut(states[i - 1], events[i - 1], T, team, H);
    }
  }

  lemma ShutOutForEver(s: State, u: State, T: Team, team: int -> Team, H: set<int>)
    requires ShutOut(s, T, team, H) && Leads(s, u, team, H)
    ensures !Admits(u, T)
  {
    var states, events :| Path(states, events, s, u, team, H);
    ShutOutAlong(states, events, s, u, T, team, H, |events|);
  }

  // ------------------------------------------------------------------ theorems

  lemma ComesIn(s: State, T: Team, team: int -> Team, H: set<int>) returns (u: State)
    requires Inv(s, team) && HasChair(s) && NOBODY !in H && !ShutOut(s, T, team, H)
    ensures Leads(s, u, team, H) && Admits(u, T)
  {
    var t := s;
    LeadsNowhere(s, team, H);
    if s.alignment.Draining? { t := DrainsTo(s, team, H); }
    if t.alignment.team != T {
      var v := t;
      if AllEmpty(t) {
        var h :| h in H && team(h) != T;
        v := VisitorHandsOver(t, h, team, H);
      } else {
        v := HandsOver(t, team, H);
      }
      LeadsOn(s, t, v, team, H);
      t := v;
    }
    if AllEmpty(t) {
      EmptyHasRoom(t);
      u := t;
    } else {
      u := OwnersComeIn(t, team, H);
      LeadsOn(s, t, u, team, H);
    }
  }

  /** Some run by the people of H and those inside lets team T in, exactly when the department is T's
      or is becoming T's, or it is settled with somebody inside, or some rival of T may still come. */
  lemma ComesInIff(s: State, T: Team, team: int -> Team, H: set<int>)
    requires Inv(s, team) && HasChair(s) && NOBODY !in H
    ensures (exists u :: Leads(s, u, team, H) && Admits(u, T)) <==>
            || s.alignment.team == T
            || (s.alignment.Settled? && !AllEmpty(s))
            || (exists h :: h in H && team(h) == Other(T))
  {
    if ShutOut(s, T, team, H) {
      forall u | Leads(s, u, team, H) ensures !Admits(u, T) { ShutOutForEver(s, u, T, team, H); }
    } else {
      var u := ComesIn(s, T, team, H);
    }
  }

  /** A member of the owning team visits an empty department while no rival is waiting, and goes. If
      only rivals come after that, they never get in. */
  lemma RivalsWaitForEver(s: State, h: int, team: int -> Team, H: set<int>) returns (u: State)
    requires AllEmpty(s) && s.alignment == Settled(team(h)) && HasChair(s) && h != NOBODY
    requires forall k | k in H :: team(k) == Other(team(h))
    ensures exists states :: Path(states, [Enters(h, false), Leaves(h, false)], s, u, team, {h})
    ensures forall v | Leads(u, v, team, H) :: !Admits(v, Other(team(h)))
  {
    EmptyHasRoom(s);
    var i := FirstFree(s.chairs, 0);
    var enter, leave := Enters(h, false), Leaves(h, false);
    assert !IsIn(s, h) by {
      if k :| 0 <= k < |s.chairs| && s.chairs[k] == Chair(h) { assert Occupied(s, k); }
    }
    var t := Next(s, enter);
    assert t.chairs[i] == Chair(h);
    u := Next(t, leave);
    assert Path([s, t, u], [enter, leave], s, u, team, {h});
    assert AllEmpty(u) by {
      forall k | 0 <= k < |u.chairs| ensures !Occupied(u, k) { assert !Occupied(s, k); }
    }
    forall v | Leads(u, v, team, H) ensures !Admits(v, Other(team(h))) {
      ShutOutForEver(u, v, Other(team(h)), team, H);
    }
  }
}
