/** The user ids of a process and the system calls that change them. The group id calls are the same
    functions with set_user and the security hook always succeeding. */
module Credentials {

  datatype Cred = Cred(uid: int, euid: int, suid: int, fsuid: int)

  /** An id argument; -1 leaves the id as it is. */
  datatype Arg = Keep | Id(id: int)

  datatype Call =
    | Setuid(id: int)
    | Setreuid(r: Arg, e: Arg)
    | Setresuid(r: Arg, e: Arg, s: Arg)
    | Setfsuid(id: int)

  /** What the rest of the kernel answers during a call: whether the caller has CAP_SETUID, the ids
      given map to valid ids, there is memory for new credentials, and set_user and the security
      hook agree. */
  datatype Env = Env(capable: bool, valid: bool, memory: bool, user: bool, hook: bool)

  function Pick(a: Arg, current: int): int {
    match a case Keep => current case Id(x) => x
  }

  predicate Among(a: Arg, ids: set<int>) {
    a.Keep? || a.id in ids
  }

  /** An id goes from old to now as the argument says. */
  predicate Takes(a: Arg, before: int, now: int) {
    (a.Id? ==> now == a.id) && (a.Keep? ==> now == before)
  }

  function Ids(c: Cred): set<int> {
    {c.uid, c.euid, c.suid}
  }

  /** Whether the caller may make the change. */
  predicate Allowed(c: Cred, call: Call, capable: bool) {
    capable ||
    match call
    case Setuid(id) => id == c.uid || id == c.suid
    case Setreuid(r, e) => Among(r, {c.uid, c.euid}) && Among(e, Ids(c))
    case Setresuid(r, e, s) => Among(r, Ids(c)) && Among(e, Ids(c)) && Among(s, Ids(c))
    case Setfsuid(id) => id in Ids(c) || id == c.fsuid
  }

  /** The credentials that the call asks for. */
  function Wanted(c: Cred, call: Call, capable: bool): Cred {
    match call
    case Setuid(id) => if capable then Cred(id, id, id, id) else c.(euid := id, fsuid := id)
    case Setreuid(r, e) =>
      var euid := Pick(e, c.euid);
      Cred(Pick(r, c.uid), euid, if r.Id? || (e.Id? && e.id != c.uid) then euid else c.suid, euid)
    case Setresuid(r, e, s) => Cred(Pick(r, c.uid), Pick(e, c.euid), Pick(s, c.suid), Pick(e, c.euid))
    case Setfsuid(id) => c.(fsuid := id)
  }

  /** Nothing but permission can make the call fail. */
  predicate Cooperates(env: Env) {
    env.valid && env.memory && env.user && env.hook
  }

  /** The new credentials, and whether they were committed. set_user is asked only when the real id
      changes, and setfsuid commits nothing when it changes nothing. */
  function Do(c: Cred, call: Call, env: Env): (r: (Cred, bool))
    // what fails
    ensures !r.1 ==> r.0 == c
    ensures r.1 ==> env.valid && env.memory && env.hook && (r.0.uid != c.uid ==> env.user)
    // who may
    ensures Cooperates(env) && env.capable && !call.Setfsuid? ==> r.1
    ensures Cooperates(env) && !env.capable && call.Setuid? ==> (r.1 <==> call.id == c.uid || call.id == c.suid)
    ensures Cooperates(env) && !env.capable && call.Setreuid? ==>
      (r.1 <==> Among(call.r, {c.uid, c.euid}) && Among(call.e, {c.uid, c.euid, c.suid}))
    ensures Cooperates(env) && !env.capable && call.Setresuid? ==>
      (r.1 <==> forall a | a in {call.r, call.e, call.s} :: Among(a, {c.uid, c.euid, c.suid}))
    ensures Cooperates(env) && call.Setfsuid? ==>
      (r.1 <==> call.id != c.fsuid && (env.capable || call.id in {c.uid, c.euid, c.suid}))
    // what happens
    ensures r.1 && call.Setuid? && env.capable ==> r.0 == Cred(call.id, call.id, call.id, call.id)
    ensures r.1 && call.Setuid? && !env.capable ==> r.0 == Cred(c.uid, call.id, c.suid, call.id)
    ensures r.1 && (call.Setreuid? || call.Setresuid?) ==>
      && Takes(call.r, c.uid, r.0.uid) && Takes(call.e, c.euid, r.0.euid) && r.0.fsuid == r.0.euid
    ensures r.1 && call.Setresuid? ==> Takes(call.s, c.suid, r.0.suid)
    ensures r.1 && call.Setreuid? ==>
      r.0.suid == if call.r.Id? || (call.e.Id? && r.0.euid != c.uid) then r.0.euid else c.suid
    ensures r.1 && call.Setfsuid? ==> r.0 == Cred(c.uid, c.euid, c.suid, call.id)
  {
    var t := Wanted(c, call, env.capable);
    if env.valid && env.memory && Allowed(c, call, env.capable) && env.hook &&
       (t.uid != c.uid ==> env.user) && (call.Setfsuid? ==> t != c)
    then (t, true) else (c, false)
  }

  // ------------------------------------------------------------------ one call

  /** Without the capability no call brings in an id that the process did not have. */
  lemma UnprivilegedStep(c: Cred, call: Call, env: Env)
    requires !env.capable
    ensures var t := Do(c, call, env).0;
      && Ids(t) <= Ids(c)
      && t.fsuid in Ids(c) + {c.fsuid}
  {
  }

  /** Swapping the real and effective ids with setreuid, and swapping again, restores both. */
  lemma SwapTwice(c: Cred, env: Env)
    requires env.valid && env.memory && env.user && env.hook
    ensures var (t, ok) := Do(c, Setreuid(Id(c.euid), Id(c.uid)), env);
      var (u, again) := Do(t, Setreuid(Id(t.euid), Id(t.uid)), env);
      ok && again && t.uid == c.euid && t.euid == c.uid && u.uid == c.uid && u.euid == c.euid
  {
  }

  // ------------------------------------------------------------------ runs

  ghost function Run(c: Cred, calls: seq<(Call, Env)>): Cred
    decreases |calls|
  {
    if calls == [] then c else Run(Do(c, calls[0].0, calls[0].1).0, calls[1..])
  }

  predicate Unprivileged(calls: seq<(Call, Env)>) {
    forall i | 0 <= i < |calls| :: !calls[i].1.capable
  }

  /** Over every run without the capability, real, effective and saved ids stay among the initial
      ones, and the filesystem id among those and its own initial value. */
  lemma {:induction false} IdsStayInside(c: Cred, calls: seq<(Call, Env)>)
    requires Unprivileged(calls)
    ensures Ids(Run(c, calls)) <= Ids(c)
    ensures Run(c, calls).fsuid in Ids(c) + {c.fsuid}
    decreases |calls|
  {
    if calls != [] {
      var t := Do(c, calls[0].0, calls[0].1).0;
      UnprivilegedStep(c, calls[0].0, calls[0].1);
      IdsStayInside(t, calls[1..]);
    }
  }

  /** The ids are drawn from c's, and the fs id is one of them unless nothing has changed. */
  predicate Reachable(c: Cred, t: Cred) {
    && Ids(t) <= Ids(c)
    && (t.fsuid in Ids(t) || t == c)
  }

  lemma StepReachable(c: Cred, t: Cred, call: Call, env: Env)
    requires Reachable(c, t) && !env.capable
    ensures Reachable(c, Do(t, call, env).0)
  {
    UnprivilegedStep(t, call, env);
  }

  lemma {:induction false} RunReachable(c: Cred, t: Cred, calls: seq<(Call, Env)>)
    requires Reachable(c, t) && Unprivileged(calls)
    ensures Reachable(c, Run(t, calls))
    decreases |calls|
  {
    if calls != [] {
      StepReachable(c, t, calls[0].0, calls[0].1);
      RunReachable(c, Do(t, calls[0].0, calls[0].1).0, calls[1..]);
    }
  }

  /** And nothing else limits them. The credentials that a process can reach without the capability are
      exactly its own and those whose real, effective and saved ids are drawn from the ids that it has
      and whose fs id is one of these three. */
  lemma ReachableIff(c: Cred, t: Cred)
    ensures (exists calls :: Unprivileged(calls) && Run(c, calls) == t) <==>
            t == c || (Ids(t) <= Ids(c) && t.fsuid in Ids(t))
  {
    forall calls | Unprivileged(calls) ensures Reachable(c, Run(c, calls)) { RunReachable(c, c, calls); }
    if t == c {
      assert Run(c, []) == t;
    } else if Ids(t) <= Ids(c) && t.fsuid in Ids(t) {
      var env := Env(false, true, true, true, true);
      var first := (Setresuid(Id(t.uid), Id(t.euid), Id(t.suid)), env);
      var second := (Setfsuid(t.fsuid), env);
      var calls := [first, second];
      var u := Do(c, first.0, env).0;
      assert u == t.(fsuid := t.euid) && Do(u, second.0, env).0 == t;
      assert calls[1..] == [second] && calls[1..][1..] == [];
      assert Run(c, calls) == Run(u, [second]) == Run(t, []);
      assert Unprivileged(calls);
    }
  }

  /** A capable process that sets its id gives up its others for good: once the capability is gone,
      no run brings any of them back. */
  lemma SetuidIsForGood(c: Cred, id: int, env: Env, calls: seq<(Call, Env)>)
    requires env.capable && Unprivileged(calls) && Do(c, Setuid(id), env).1
    ensures Run(Do(c, Setuid(id), env).0, calls) == Cred(id, id, id, id)
  {
    EqualIdsStay(id, calls);
  }

  /** So does setreuid with the same id twice: a program can drop its privileges completely. */
  lemma SetreuidIsForGood(c: Cred, id: int, env: Env, calls: seq<(Call, Env)>)
    requires Unprivileged(calls) && Do(c, Setreuid(Id(id), Id(id)), env).1
    ensures Run(Do(c, Setreuid(Id(id), Id(id)), env).0, calls) == Cred(id, id, id, id)
  {
    EqualIdsStay(id, calls);
  }

  /** A process that swaps its real and effective ids acts as the other meanwhile, and needs no
      capability to swap back. */
  lemma SwapKeepsTheWayBack(c: Cred, env: Env, back: Env)
    requires Cooperates(env) && Cooperates(back) && !back.capable
    ensures var t := Do(c, Setreuid(Id(c.euid), Id(c.uid)), env).0;
      && t.fsuid == c.uid
      && Do(t, Setreuid(Id(t.euid), Id(t.uid)), back) == (Cred(c.uid, c.euid, c.euid, c.euid), true)
  {
  }

  /** Once all four ids are equal they stay so. */
  lemma EqualIdsStay(id: int, calls: seq<(Call, Env)>)
    requires Unprivileged(calls)
    ensures Run(Cred(id, id, id, id), calls) == Cred(id, id, id, id)
  {
    var c := Cred(id, id, id, id);
    var t := Run(c, calls);
    IdsStayInside(c, calls);
    assert t.uid in Ids(t) && t.euid in Ids(t) && t.suid in Ids(t);
  }

  // ------------------------------------------------------------------ the calls

  class Task {
    var cred: Cred

    constructor (cred: Cred)
      ensures this.cred == cred
    {
      this.cred := cred;
    }

    method SysSetuid(kuid: int, env: Env) returns (ok: bool)
      modifies this
      ensures (cred, ok) == Do(old(cred), Setuid(kuid), env)
    {
      if !env.valid { return false; }
      if !env.memory { return false; }
      var draft := cred;
      if env.capable {
        draft := draft.(suid := kuid, uid := kuid);
        if kuid != cred.uid && !env.user { return false; }
      } else if kuid != cred.uid && kuid != draft.suid {
        return false;
      }
      draft := draft.(fsuid := kuid, euid := kuid);
      if !env.hook { return false; }
      cred := draft;
      return true;
    }

    method SysSetreuid(r: Arg, e: Arg, env: Env) returns (ok: bool)
      modifies this
      ensures (cred, ok) == Do(old(cred), Setreuid(r, e), env)
    {
      if !env.valid { return false; }
      if !env.memory { return false; }
      var draft := cred;
      if r.Id? {
        draft := draft.(uid := r.id);
        if cred.uid != r.id && cred.euid != r.id && !env.capable { return false; }
      }
      if e.Id? {
        draft := draft.(euid := e.id);
        if cred.uid != e.id && cred.euid != e.id && cred.suid != e.id && !env.capable { return false; }
      }
      if draft.uid != cred.uid && !env.user { return false; }
      if r.Id? || (e.Id? && e.id != cred.uid) { draft := draft.(suid := draft.euid); }
      draft := draft.(fsuid := draft.euid);
      if !env.hook { return false; }
      cred := draft;
      return true;
    }

    method SysSetresuid(r: Arg, e: Arg, s: Arg, env: Env) returns (ok: bool)
      modifies this
      ensures (cred, ok) == Do(old(cred), Setresuid(r, e, s), env)
    {
      if !env.valid { return false; }
      if !env.memory { return false; }
      if !env.capable {
        if r.Id? && r.id != cred.uid && r.id != cred.euid && r.id != cred.suid { return false; }
        if e.Id? && e.id != cred.uid && e.id != cred.euid && e.id != cred.suid { return false; }
        if s.Id? && s.id != cred.uid && s.id != cred.euid && s.id != cred.suid { return false; }
      }
      var draft := cred;
      if r.Id? {
        draft := draft.(uid := r.id);
        if r.id != cred.uid && !env.user { return false; }
      }
      if e.Id? { draft := draft.(euid := e.id); }
      if s.Id? { draft := draft.(suid := s.id); }
      draft := draft.(fsuid := draft.euid);
      if !env.hook { return false; }
      cred := draft;
      return true;
    }

    /** The call itself returns the filesystem id from before it. */
    method SysSetfsuid(kuid: int, env: Env) returns (before: int, ok: bool)
      modifies this
      ensures before == old(cred).fsuid
      ensures (cred, ok) == Do(old(cred), Setfsuid(kuid), env)
    {
      before := cred.fsuid;
      if !env.valid { return before, false; }
      if !env.memory { return before, false; }
      if kuid == cred.uid || kuid == cred.euid || kuid == cred.suid || kuid == cred.fsuid || env.capable {
        if kuid != cred.fsuid {
          if env.hook {
            cred := cred.(fsuid := kuid);
            return before, true;
          }
        }
      }
      return before, false;
    }
  }
}
