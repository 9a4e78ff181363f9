/** The leaders of one process: every lock on one shared session, taken, checked, lost and given back
    (packages/eventstore/src/Leader.ts). A step is one region that runs without giving way: what is done between two
    awaits. The permit orders attempts and releases; checks run beside them. */
module Leadership {
  import opened Options

  datatype Status = Leading | Lost | Closed

  /** What a leader knows about itself; `failures` counts consecutive failed checks. */
  datatype LeaderState = LeaderState(status: Status, failures: nat)

  const LEADING := LeaderState(Leading, 0)

  function AfterCheck(s: LeaderState, alive: bool, failuresBeforeLost: real): LeaderState {
    if !s.status.Leading? then s
    else if alive then LEADING
    else LeaderState(if (s.failures + 1) as real >= failuresBeforeLost then Lost else Leading, s.failures + 1)
  }

  function AfterRelease(s: LeaderState): LeaderState {
    LeaderState(Closed, s.failures)
  }

  function Checks(s: LeaderState, answers: seq<bool>, failuresBeforeLost: real): LeaderState {
    if answers == [] then s
    else AfterCheck(Checks(s, answers[..|answers| - 1], failuresBeforeLost), answers[|answers| - 1], failuresBeforeLost)
  }

  /** The number of failed checks at the end of the answers. */
  function FailedTail(answers: seq<bool>): nat {
    if answers == [] || answers[|answers| - 1] then 0 else 1 + FailedTail(answers[..|answers| - 1])
  }

  predicate HasFailedRun(answers: seq<bool>, n: real) {
    exists k :: 0 <= k <= |answers| && FailedTail(answers[..k]) as real >= n
  }

  /** A leader is lost exactly when so many checks in a row failed; one good check in between starts the count again. */
  lemma {:induction false} LostAfterARun(answers: seq<bool>, n: real)
    requires n >= 1.0
    ensures var s := Checks(LEADING, answers, n);
            (s.status == Lost <==> HasFailedRun(answers, n)) && s.status != Closed
            && (s.status == Leading ==> s.failures == FailedTail(answers) && (s.failures as real) < n)
  {
    if answers != [] {
      var front := answers[..|answers| - 1];
      LostAfterARun(front, n);
      assert answers[..|answers|] == answers;
      assert forall k :: 0 <= k <= |front| ==> front[..k] == answers[..k];
      if HasFailedRun(front, n) {
        var k :| 0 <= k <= |front| && FailedTail(front[..k]) as real >= n;
        assert FailedTail(answers[..k]) as real >= n;
      }
      if HasFailedRun(answers, n) {
        var k :| 0 <= k <= |answers| && FailedTail(answers[..k]) as real >= n;
        assert k <= |front| ==> FailedTail(front[..k]) as real >= n;
      }
    } else {
      assert FailedTail(answers[..0]) == 0;
    }
  }

  // ---- The sessions of a process ----

  datatype Member = Member(key: int, session: nat, state: LeaderState)

  /** `held`: by key, the member the session holds the lock for. `givenBack`: how often its connection was. */
  datatype Session = Session(held: map<int, nat>, leased: bool, abandoned: bool, givenBack: nat)

  datatype Phase = Asking | Leasing

  /** Who has the permit: an attempt (`again`: the one more after a shared session failed), or a release. */
  datatype Permit = Free | Trying(key: int, session: nat, phase: Phase, again: bool) | Releasing(member: nat)

  /** `pending`: abandoned sessions whose late statement is still being interrupted. */
  datatype Leaders = Leaders(current: Option<nat>, sessions: map<nat, Session>, members: map<nat, Member>, permit: Permit, pending: set<nat>)

  datatype Reply = Yes | No | Error | NoAnswer

  datatype Act =
    | Begin(key: int, spare: nat, reserved: bool)
    | Answer(reply: Reply, member: nat, lease: bool, spare: nat, reserved: bool)
    | LeaseAnswer(reply: Reply, member: nat)
    | Check(members: seq<nat>, answer: Option<set<int>>, failuresBeforeLost: real)
    | Release(member: nat)
    | Unlocked
    | GiveBack(session: nat)

  predicate Leads(s: Leaders, m: nat) {
    m in s.members && s.members[m].state.status.Leading?
  }

  /** Whether a session still has a member that leads. */
  predicate HasLeader(s: Leaders, sid: nat) {
    sid in s.sessions && exists k :: k in s.sessions[sid].held && Leads(s, s.sessions[sid].held[k])
  }

  function LoseAll(s: Leaders, sid: nat): map<nat, Member> {
    map m | m in s.members :: if s.members[m].session == sid && s.members[m].state.status.Leading?
                              then s.members[m].(state := LeaderState(Lost, s.members[m].state.failures)) else s.members[m]
  }

  function WithSession(s: Leaders, sid: nat, session: Session): Leaders {
    s.(sessions := s.sessions[sid := session])
  }

  /** The connection goes back to the pool. */
  function CloseSession(s: Leaders, sid: nat): Leaders
    requires sid in s.sessions
  {
    WithSession(s, sid, s.sessions[sid].(givenBack := s.sessions[sid].givenBack + 1))
  }

  function Abandon(s: Leaders, sid: nat): Leaders
    requires sid in s.sessions
  {
    WithSession(s, sid, s.sessions[sid].(abandoned := true)).(members := LoseAll(s, sid), pending := s.pending + {sid}, permit := Free)
  }

  /** `once` up to its first statement: a session without a leader is let go, a key held here is refused, and without a
      session one is reserved, if the pool gives one. */
  function Once(s: Leaders, key: int, spare: nat, reserved: bool, again: bool): Leaders {
    var current := if s.current.Some? && HasLeader(s, s.current.value) then s.current else None;
    var s1 := s.(current := current, permit := Free);
    if current.Some? then
      if key in s.sessions[current.value].held then s1 else s1.(permit := Trying(key, current.value, Asking, again))
    else if !reserved then s1
    else WithSession(s1, spare, Session(map[], false, false, 0)).(permit := Trying(key, spare, Asking, again))
  }

  /** The attempt got nothing on a session that holds nothing. */
  function GivenUp(s: Leaders, sid: nat): Leaders
    requires sid in s.sessions
  {
    CloseSession(s, sid).(permit := Free)
  }

  /** A failed statement on a session that holds locks: its leaders are lost with it, and the attempt is made once more. */
  function FailedOnShared(s: Leaders, sid: nat, key: int, spare: nat, reserved: bool, again: bool): Leaders {
    var lost := s.(members := LoseAll(s, sid), permit := Free);
    if again then lost else Once(lost, key, spare, reserved, true)
  }

  function Join(s: Leaders, key: int, sid: nat, member: nat): Leaders
    requires sid in s.sessions
  {
    var session := s.sessions[sid];
    WithSession(s, sid, session.(held := session.held[key := member]))
      .(members := s.members[member := Member(key, sid, LEADING)], current := Some(sid), permit := Free)
  }

  /** The lock was taken: the session's first sets the lease before it counts. */
  function Granted(s: Leaders, member: nat, lease: bool): Leaders
    requires s.permit.Trying? && s.permit.session in s.sessions
  {
    if s.sessions[s.permit.session].held == map[] && lease then s.(permit := s.permit.(phase := Leasing))
    else Join(s, s.permit.key, s.permit.session, member)
  }

  function CheckOne(members: map<nat, Member>, m: nat, answer: Option<set<int>>, failuresBeforeLost: real): map<nat, Member> {
    if m !in members then members
    else members[m := members[m].(state := AfterCheck(members[m].state, answer.Some? && members[m].key in answer.value, failuresBeforeLost))]
  }

  function CheckAll(members: map<nat, Member>, ms: seq<nat>, answer: Option<set<int>>, failuresBeforeLost: real): map<nat, Member> {
    if ms == [] then members
    else CheckOne(CheckAll(members, ms[..|ms| - 1], answer, failuresBeforeLost), ms[|ms| - 1], answer, failuresBeforeLost)
  }

  predicate CanAct(s: Leaders, act: Act) {
    match act
    case Begin(key, spare, reserved) => s.permit.Free? && spare !in s.sessions
    case Answer(reply, member, lease, spare, reserved) =>
      s.permit.Trying? && s.permit.phase.Asking? && s.permit.session in s.sessions && member !in s.members && spare !in s.sessions
    case LeaseAnswer(reply, member) =>
      s.permit.Trying? && s.permit.phase.Leasing? && s.permit.session in s.sessions && member !in s.members && !reply.No?
    case Check(ms, answer, n) => n >= 1.0
    case Release(m) => s.permit.Free? && m in s.members && s.members[m].session in s.sessions
    case Unlocked => s.permit.Releasing? && s.permit.member in s.members && s.members[s.permit.member].session in s.sessions
    case GiveBack(sid) => sid in s.pending && sid in s.sessions
  }

  function Does(s: Leaders, act: Act): Leaders
    requires CanAct(s, act)
  {
    match act
    case Begin(key, spare, reserved) => Once(s, key, spare, reserved, false)
    case Answer(reply, member, lease, spare, reserved) =>
      var Trying(key, sid, _, again) := s.permit;
      var first := s.sessions[sid].held == map[];
      (match reply
       case Yes => Granted(s, member, lease)
       case No => if first then GivenUp(s, sid) else s.(permit := Free)
       case Error => if first then GivenUp(s, sid) else FailedOnShared(s, sid, key, spare, reserved, again)
       case NoAnswer => Abandon(s, sid))
    case LeaseAnswer(reply, member) =>
      var Trying(key, sid, _, _) := s.permit;
      (match reply
       case Yes => Join(WithSession(s, sid, s.sessions[sid].(leased := true)), key, sid, member)
       case NoAnswer => Abandon(s, sid)
       case _ => GivenUp(s, sid))
    case Check(ms, answer, n) => s.(members := CheckAll(s.members, ms, answer, n))
    case Release(m) =>
      var member := s.members[m];
      if member.state.status.Closed? then s
      else
        var session := s.sessions[member.session];
        WithSession(s, member.session, session.(held := session.held - {member.key}))
          .(members := s.members[m := member.(state := AfterRelease(member.state))], permit := if session.abandoned then Free else Releasing(m))
    case Unlocked =>
      var sid := s.members[s.permit.member].session;
      (if s.sessions[sid].held == map[] then CloseSession(s, sid) else s).(permit := Free)
    case GiveBack(sid) => CloseSession(s, sid).(pending := s.pending - {sid})
  }

  // ---- What every step keeps ----

  ghost predicate MembersOk(s: Leaders) {
    && (forall m :: m in s.members ==> s.members[m].session in s.sessions)
    && (forall m :: m in s.members && !s.members[m].state.status.Closed? ==>
          var held := s.sessions[s.members[m].session].held; s.members[m].key in held && held[s.members[m].key] == m)
    && (forall sid, k :: sid in s.sessions && k in s.sessions[sid].held ==>
          var m := s.sessions[sid].held[k];
          m in s.members && s.members[m].key == k && s.members[m].session == sid && !s.members[m].state.status.Closed?)
  }

  ghost predicate LeadersOk(s: Leaders) {
    && (s.current.Some? ==> s.current.value in s.sessions)
    && forall m :: Leads(s, m) ==>
         s.current == Some(s.members[m].session)
         && var session := s.sessions[s.members[m].session]; !session.abandoned && session.givenBack == 0
  }

  ghost predicate SessionsOk(s: Leaders) {
    && s.pending <= s.sessions.Keys
    && forall sid :: sid in s.sessions ==>
         var session := s.sessions[sid];
         && session.givenBack <= 1
         && (sid in s.pending ==> session.abandoned && session.givenBack == 0)
         && (session.abandoned && sid !in s.pending ==> session.givenBack == 1)
         && (!session.abandoned && session.givenBack == 1 ==> session.held == map[])
  }

  ghost predicate PermitOk(s: Leaders) {
    match s.permit
    case Free => true
    case Trying(key, sid, phase, again) =>
      && sid in s.sessions
      && var session := s.sessions[sid];
         && !session.abandoned && session.givenBack == 0 && key !in session.held
         && (if session.held == map[] then s.current == None else s.current == Some(sid))
         && (phase.Leasing? ==> session.held == map[])
    case Releasing(m) =>
      && m in s.members && s.members[m].session in s.sessions
      && var session := s.sessions[s.members[m].session]; !session.abandoned && session.givenBack == 0
  }

  ghost predicate LeadershipOk(s: Leaders) {
    MembersOk(s) && LeadersOk(s) && SessionsOk(s) && PermitOk(s)
  }

  /** A member that stopped leading never leads again. */
  ghost predicate NeverAgain(s: Leaders, s': Leaders) {
    forall m :: m in s.members ==> m in s'.members && (Leads(s', m) ==> Leads(s, m))
  }

  lemma {:induction false} ChecksOnlyLose(members: map<nat, Member>, ms: seq<nat>, answer: Option<set<int>>, n: real)
    ensures var after := CheckAll(members, ms, answer, n);
            after.Keys == members.Keys
            && forall m :: m in members ==>
                 after[m].key == members[m].key && after[m].session == members[m].session
                 && (after[m].state.status.Closed? <==> members[m].state.status.Closed?)
                 && (after[m].state.status.Leading? ==> members[m].state.status.Leading?)
  {
    if ms != [] {
      ChecksOnlyLose(members, ms[..|ms| - 1], answer, n);
    }
  }

  lemma CheckKeeps(s: Leaders, act: Act)
    requires LeadershipOk(s) && act.Check? && CanAct(s, act)
    ensures LeadershipOk(Does(s, act)) && NeverAgain(s, Does(s, act))
  {
    ChecksOnlyLose(s.members, act.members, act.answer, act.failuresBeforeLost);
  }

  lemma OnceKeeps(s: Leaders, key: int, spare: nat, reserved: bool, again: bool)
    requires LeadershipOk(s) && s.permit.Free? && spare !in s.sessions
    ensures LeadershipOk(Once(s, key, spare, reserved, again)) && NeverAgain(s, Once(s, key, spare, reserved, again))
  {
    var current := if s.current.Some? && HasLeader(s, s.current.value) then s.current else None;
    LetsGoKeeps(s, current);
    var s1 := s.(current := current);
    if current.Some? {
      TriesKeep(s1, key, current.value, again);
    } else if reserved {
      ReserveKeeps(s1, key, spare, again);
    }
  }

  /** Letting go of a session without a leader. */
  lemma LetsGoKeeps(s: Leaders, current: Option<nat>)
    requires LeadershipOk(s) && s.permit.Free?
    requires current == if s.current.Some? && HasLeader(s, s.current.value) then s.current else None
    ensures LeadershipOk(s.(current := current))
  {
    forall m | Leads(s, m) ensures s.current.Some? && HasLeader(s, s.current.value) {
      assert s.members[m].key in s.sessions[s.members[m].session].held;
    }
  }

  lemma TriesKeep(s: Leaders, key: int, sid: nat, again: bool)
    requires LeadershipOk(s) && s.permit.Free? && s.current == Some(sid) && HasLeader(s, sid)
    ensures key !in s.sessions[sid].held ==> LeadershipOk(s.(permit := Trying(key, sid, Asking, again)))
  {
  }

  lemma ReserveKeeps(s: Leaders, key: int, spare: nat, again: bool)
    requires LeadershipOk(s) && s.permit.Free? && s.current.None? && spare !in s.sessions
    ensures LeadershipOk(WithSession(s, spare, Session(map[], false, false, 0)).(permit := Trying(key, spare, Asking, again)))
  {
  }

  lemma JoinKeeps(s: Leaders, key: int, sid: nat, member: nat)
    requires LeadershipOk(s) && s.permit.Trying? && s.permit.key == key && s.permit.session == sid && member !in s.members
    ensures LeadershipOk(Join(s, key, sid, member)) && NeverAgain(s, Join(s, key, sid, member))
  {
  }

  lemma AbandonKeeps(s: Leaders, sid: nat)
    requires LeadershipOk(s) && s.permit.Trying? && s.permit.session == sid
    ensures LeadershipOk(Abandon(s, sid)) && NeverAgain(s, Abandon(s, sid))
  {
  }

  lemma LoseAllKeeps(s: Leaders, sid: nat)
    requires LeadershipOk(s) && s.permit.Trying? && s.permit.session == sid
    ensures var lost := s.(members := LoseAll(s, sid), permit := Free); LeadershipOk(lost) && NeverAgain(s, lost)
  {
  }

  /** A session that leads nobody and holds nothing is given back. */
  lemma CloseKeeps(s: Leaders, sid: nat)
    requires LeadershipOk(s) && sid in s.sessions && s.permit.Free?
    requires s.sessions[sid].givenBack == 0 && s.sessions[sid].held == map[] && !s.sessions[sid].abandoned
    ensures LeadershipOk(CloseSession(s, sid)) && NeverAgain(s, CloseSession(s, sid))
  {
  }

  lemma PermitFreed(s: Leaders)
    requires LeadershipOk(s)
    ensures LeadershipOk(s.(permit := Free))
  {
  }

  lemma GivenUpKeeps(s: Leaders)
    requires LeadershipOk(s) && s.permit.Trying? && s.sessions[s.permit.session].held == map[]
    ensures LeadershipOk(GivenUp(s, s.permit.session)) && NeverAgain(s, GivenUp(s, s.permit.session))
  {
    PermitFreed(s);
    CloseKeeps(s.(permit := Free), s.permit.session);
  }

  lemma FailedOnSharedKeeps(s: Leaders, spare: nat, reserved: bool)
    requires LeadershipOk(s) && s.permit.Trying? && spare !in s.sessions
    ensures var s' := FailedOnShared(s, s.permit.session, s.permit.key, spare, reserved, s.permit.again);
            LeadershipOk(s') && NeverAgain(s, s')
  {
    LoseAllKeeps(s, s.permit.session);
    OnceKeeps(s.(members := LoseAll(s, s.permit.session), permit := Free), s.permit.key, spare, reserved, true);
  }

  lemma YesKeeps(s: Leaders, member: nat, lease: bool)
    requires LeadershipOk(s) && s.permit.Trying? && s.permit.phase.Asking? && member !in s.members
    ensures var s' := Granted(s, member, lease); LeadershipOk(s') && NeverAgain(s, s')
  {
    if s.sessions[s.permit.session].held == map[] && lease {
    } else {
      JoinKeeps(s, s.permit.key, s.permit.session, member);
    }
  }

  lemma AnswerKeeps(s: Leaders, act: Act)
    requires LeadershipOk(s) && act.Answer? && CanAct(s, act)
    ensures LeadershipOk(Does(s, act)) && NeverAgain(s, Does(s, act))
  {
    match act.reply
    case Yes => YesKeeps(s, act.member, act.lease);
    case NoAnswer => AbandonKeeps(s, s.permit.session);
    case No =>
      if s.sessions[s.permit.session].held == map[] { GivenUpKeeps(s); }
    case Error =>
      if s.sessions[s.permit.session].held == map[] {
        GivenUpKeeps(s);
      } else {
        FailedOnSharedKeeps(s, act.spare, act.reserved);
      }
  }

  lemma LeaseAnswerKeeps(s: Leaders, act: Act)
    requires LeadershipOk(s) && act.LeaseAnswer? && CanAct(s, act)
    ensures LeadershipOk(Does(s, act)) && NeverAgain(s, Does(s, act))
  {
    var Trying(key, sid, _, _) := s.permit;
    match act.reply
    case Yes => JoinKeeps(WithSession(s, sid, s.sessions[sid].(leased := true)), key, sid, act.member);
    case NoAnswer => AbandonKeeps(s, sid);
    case _ => GivenUpKeeps(s);
  }

  lemma ReleaseKeeps(s: Leaders, act: Act)
    requires LeadershipOk(s) && act.Release? && CanAct(s, act)
    ensures LeadershipOk(Does(s, act)) && NeverAgain(s, Does(s, act))
  {
  }

  lemma UnlockedKeeps(s: Leaders, act: Act)
    requires LeadershipOk(s) && act.Unlocked? && CanAct(s, act)
    ensures LeadershipOk(Does(s, act)) && NeverAgain(s, Does(s, act))
  {
    var sid := s.members[s.permit.member].session;
    PermitFreed(s);
    if s.sessions[sid].held == map[] { CloseKeeps(s.(permit := Free), sid); }
  }

  lemma GiveBackKeeps(s: Leaders, act: Act)
    requires LeadershipOk(s) && act.GiveBack? && CanAct(s, act)
    ensures LeadershipOk(Does(s, act)) && NeverAgain(s, Does(s, act))
  {
  }

  lemma StepKeepsLeadership(s: Leaders, act: Act)
    requires LeadershipOk(s) && CanAct(s, act)
    ensures LeadershipOk(Does(s, act)) && NeverAgain(s, Does(s, act))
  {
    match act
    case Begin(key, spare, reserved) => OnceKeeps(s, key, spare, reserved, false);
    case Answer(_, _, _, _, _) => AnswerKeeps(s, act);
    case LeaseAnswer(_, _) => LeaseAnswerKeeps(s, act);
    case Check(_, _, _) => CheckKeeps(s, act);
    case Release(_) => ReleaseKeeps(s, act);
    case Unlocked => UnlockedKeeps(s, act);
    case GiveBack(_) => GiveBackKeeps(s, act);
  }

  // ---- Every run ----

  const NO_LEADERS := Leaders(None, map[], map[], Free, {})

  ghost predicate IsRun(run: seq<Leaders>, acts: seq<Act>) {
    && |run| == |acts| + 1
    && run[0] == NO_LEADERS
    && forall k :: 0 <= k < |acts| ==> CanAct(run[k], acts[k]) && run[k + 1] == Does(run[k], acts[k])
  }

  lemma {:induction false} EveryStateIsOk(run: seq<Leaders>, acts: seq<Act>, k: nat)
    requires IsRun(run, acts) && k < |run|
    ensures LeadershipOk(run[k])
  {
    if k > 0 {
      EveryStateIsOk(run, acts, k - 1);
      StepKeepsLeadership(run[k - 1], acts[k - 1]);
    }
  }

  /** In every run: at most one member per key leads; it leads on the current session, which is neither abandoned nor
      given back; and no session's connection is given back twice. */
  lemma LeadersAreAlone(run: seq<Leaders>, acts: seq<Act>, k: nat, a: nat, b: nat)
    requires IsRun(run, acts) && k < |run| && Leads(run[k], a) && Leads(run[k], b)
    ensures run[k].members[a].key == run[k].members[b].key ==> a == b
    ensures run[k].current == Some(run[k].members[a].session)
    ensures run[k].members[a].session in run[k].sessions && !run[k].sessions[run[k].members[a].session].abandoned
    ensures forall sid :: sid in run[k].sessions ==> run[k].sessions[sid].givenBack <= 1
    ensures run[k].sessions[run[k].members[a].session].givenBack == 0
  {
    EveryStateIsOk(run, acts, k);
  }

  lemma {:induction false} StoppedForGood(run: seq<Leaders>, acts: seq<Act>, i: nat, j: nat, m: nat)
    requires IsRun(run, acts) && i <= j < |run| && m in run[i].members && !Leads(run[i], m)
    ensures m in run[j].members && !Leads(run[j], m)
    decreases j
  {
    if i < j {
      StoppedForGood(run, acts, i, j - 1, m);
      EveryStateIsOk(run, acts, j - 1);
      StepKeepsLeadership(run[j - 1], acts[j - 1]);
    }
  }

  // ---- What each step does ----

  /** The leaders of the session are lost, and nobody else changes. */
  ghost predicate OnlyLoses(s: Leaders, s': Leaders, sid: nat) {
    && s'.members.Keys == s.members.Keys
    && forall m :: m in s.members ==>
         if s.members[m].session == sid && s.members[m].state.status.Leading?
         then s'.members[m] == Member(s.members[m].key, sid, LeaderState(Lost, s.members[m].state.failures))
         else s'.members[m] == s.members[m]
  }

  /** An attempt asks on the session it finds with a leader, unless the session holds the key; without one it asks on a new
      connection, if there is one. */
  ghost predicate Attempts(s: Leaders, s': Leaders, key: int, spare: nat, reserved: bool, again: bool) {
    && s'.members == s.members && s'.pending == s.pending
    && if s.current.Some? && HasLeader(s, s.current.value)
       then s'.current == s.current && s'.sessions == s.sessions
            && s'.permit == if key in s.sessions[s.current.value].held then Free else Trying(key, s.current.value, Asking, again)
       else s'.current == None
            && s'.sessions == (if reserved then s.sessions[spare := Session(map[], false, false, 0)] else s.sessions)
            && s'.permit == if reserved then Trying(key, spare, Asking, again) else Free
  }

  /** Only the new member starts to lead, on the session of its attempt. */
  ghost predicate Joins(s: Leaders, s': Leaders, member: nat, leased: bool)
    requires s.permit.Trying? && s.permit.session in s.sessions
  {
    var session := s.sessions[s.permit.session];
    && s'.members == s.members[member := Member(s.permit.key, s.permit.session, LEADING)]
    && s'.sessions == s.sessions[s.permit.session := Session(session.held[s.permit.key := member], leased, session.abandoned, session.givenBack)]
    && s'.current == Some(s.permit.session) && s'.permit == Free && s'.pending == s.pending
  }

  /** The connection goes back, and nothing else changes. */
  ghost predicate GoesBack(s: Leaders, s': Leaders, sid: nat)
    requires sid in s.sessions
  {
    && s'.members == s.members && s'.current == s.current
    && s'.sessions == s.sessions[sid := s.sessions[sid].(givenBack := s.sessions[sid].givenBack + 1)]
  }

  /** The session is abandoned, its leaders with it, until its late statement is interrupted. */
  ghost predicate IsAbandoned(s: Leaders, s': Leaders, sid: nat)
    requires sid in s.sessions
  {
    && OnlyLoses(s, s', sid) && s'.current == s.current
    && s'.sessions == s.sessions[sid := s.sessions[sid].(abandoned := true)]
    && s'.pending == s.pending + {sid} && s'.permit == Free
  }

  lemma BeginsExactly(s: Leaders, act: Act)
    requires act.Begin? && CanAct(s, act)
    ensures Attempts(s, Does(s, act), act.key, act.spare, act.reserved, false)
  {
  }

  /** What an attempt's answer does: the session's first lock waits for the lease, another joins; a refusal or a failure on a
      session that holds nothing gives the connection back; a failure on a shared one loses its leaders, and is tried once
      more; no answer in time abandons the session. */
  lemma AnswersExactly(s: Leaders, act: Act)
    requires LeadershipOk(s) && act.Answer? && CanAct(s, act)
    ensures var s' := Does(s, act);
            var sid := s.permit.session;
            var first := s.sessions[sid].held == map[];
            match act.reply
            case Yes => if first && act.lease then s' == s.(permit := Trying(s.permit.key, sid, Leasing, s.permit.again))
                        else Joins(s, s', act.member, s.sessions[sid].leased)
            case No => if first then GoesBack(s, s', sid) && s'.permit == Free && s'.pending == s.pending else s' == s.(permit := Free)
            case Error =>
              if first then GoesBack(s, s', sid) && s'.permit == Free && s'.pending == s.pending
              else
                && OnlyLoses(s, s', sid) && s'.pending == s.pending
                && if s.permit.again then s'.permit == Free && s'.sessions == s.sessions && s'.current == s.current
                   else s'.current == None
                        && s'.sessions == (if act.reserved then s.sessions[act.spare := Session(map[], false, false, 0)] else s.sessions)
                        && s'.permit == if act.reserved then Trying(s.permit.key, act.spare, Asking, true) else Free
            case NoAnswer => IsAbandoned(s, s', sid)
  {
    if act.reply.Error? && s.sessions[s.permit.session].held != map[] {
      NobodyLeadsThere(s, s.permit.session);
    }
  }

  lemma NobodyLeadsThere(s: Leaders, sid: nat)
    requires LeadershipOk(s) && sid in s.sessions
    ensures !HasLeader(s.(members := LoseAll(s, sid), permit := Free), sid)
  {
  }

  /** What the lease's answer does: its first lock counts; without an answer the session is abandoned; else it goes back. */
  lemma LeaseAnswersExactly(s: Leaders, act: Act)
    requires act.LeaseAnswer? && CanAct(s, act)
    ensures var s' := Does(s, act);
            var sid := s.permit.session;
            match act.reply
            case Yes => Joins(s, s', act.member, true)
            case NoAnswer => IsAbandoned(s, s', sid)
            case _ => GoesBack(s, s', sid) && s'.permit == Free && s'.pending == s.pending
  {
  }

  /** A release closes its member and its lock; on a live session the unlock is awaited. */
  lemma ReleasesExactly(s: Leaders, act: Act)
    requires act.Release? && CanAct(s, act)
    ensures var s', member := Does(s, act), s.members[act.member];
            var session := s.sessions[member.session];
            if member.state.status.Closed? then s' == s
            else
              && s'.members == s.members[act.member := Member(member.key, member.session, LeaderState(Closed, member.state.failures))]
              && s'.sessions == s.sessions[member.session := session.(held := session.held - {member.key})]
              && s'.permit == (if session.abandoned then Free else Releasing(act.member))
              && s'.current == s.current && s'.pending == s.pending
  {
  }

  /** The last unlock gives the connection back, and so does the interrupt of an abandoned session. */
  lemma GivesBackExactly(s: Leaders, act: Act)
    requires (act.Unlocked? || act.GiveBack?) && CanAct(s, act)
    ensures act.Unlocked? ==>
              var sid := s.members[s.permit.member].session;
              Does(s, act).permit == Free && Does(s, act).pending == s.pending
              && if s.sessions[sid].held == map[] then GoesBack(s, Does(s, act), sid) else Does(s, act) == s.(permit := Free)
    ensures act.GiveBack? ==> GoesBack(s, Does(s, act), act.session) && Does(s, act).pending == s.pending - {act.session} && Does(s, act).permit == s.permit
  {
  }

  // ---- What a check does ----

  predicate IsDistinct(ms: seq<nat>) {
    forall i, j :: 0 <= i < j < |ms| ==> ms[i] != ms[j]
  }

  /** The state of a member after a check that asked for it: a key among those that came back starts the count again; anything
      else, no answer too, is one failure more, and so many lose the leader. */
  predicate IsChecked(before: Member, after: Member, answer: Option<set<int>>, failuresBeforeLost: real) {
    && after.key == before.key && after.session == before.session
    && if !before.state.status.Leading? then after.state == before.state
       else if answer.Some? && before.key in answer.value then after.state == LeaderState(Leading, 0)
       else after.state.failures == before.state.failures + 1
            && (if (before.state.failures + 1) as real >= failuresBeforeLost then after.state.status.Lost? else after.state.status.Leading?)
  }

  lemma {:induction false} ChecksExactly(members: map<nat, Member>, ms: seq<nat>, answer: Option<set<int>>, n: real, m: nat)
    requires IsDistinct(ms) && m in members
    ensures m in CheckAll(members, ms, answer, n)
    ensures if m in ms then IsChecked(members[m], CheckAll(members, ms, answer, n)[m], answer, n) else CheckAll(members, ms, answer, n)[m] == members[m]
  {
    if ms != [] {
      var front := ms[..|ms| - 1];
      ChecksExactly(members, front, answer, n, m);
      ChecksOnlyLose(members, front, answer, n);
      assert m in ms <==> m in front || m == ms[|ms| - 1];
    }
  }

  // ---- Silence ----

  /** Between two states, every check that asked for the member failed: its key was not in the answer, or none came. */
  ghost predicate OnlyFailedChecks(run: seq<Leaders>, acts: seq<Act>, i: nat, j: nat, m: nat, failuresBeforeLost: real)
    requires i <= j <= |acts| < |run|
  {
    forall k :: i <= k < j ==> IsSilentFor(run[k], acts[k], m, failuresBeforeLost)
  }

  ghost predicate IsSilentFor(s: Leaders, act: Act, m: nat, failuresBeforeLost: real) {
    act.Check? && m in act.members ==>
      && IsDistinct(act.members) && act.failuresBeforeLost == failuresBeforeLost
      && (m in s.members && act.answer.Some? ==> s.members[m].key !in act.answer.value)
  }

  /** How many checks asked for the member. */
  function ChecksOf(acts: seq<Act>, i: nat, j: nat, m: nat): nat
    requires i <= j <= |acts|
    decreases j
  {
    if i == j then 0 else ChecksOf(acts, i, j - 1, m) + if acts[j - 1].Check? && m in acts[j - 1].members then 1 else 0
  }

  /** No other step touches a member that still leads. */
  lemma OthersLeaveItAlone(s: Leaders, act: Act, m: nat)
    requires LeadershipOk(s) && CanAct(s, act) && m in s.members && !act.Check? && Leads(Does(s, act), m)
    ensures Does(s, act).members[m] == s.members[m]
  {
  }

  lemma CheckLeavesItAlone(s: Leaders, act: Act, m: nat)
    requires act.Check? && CanAct(s, act) && m in s.members && m !in act.members
    ensures m in Does(s, act).members && Does(s, act).members[m] == s.members[m]
  {
    NotAsked(s.members, act.members, act.answer, act.failuresBeforeLost, m);
  }

  lemma {:induction false} NotAsked(members: map<nat, Member>, ms: seq<nat>, answer: Option<set<int>>, n: real, m: nat)
    requires m in members && m !in ms
    ensures m in CheckAll(members, ms, answer, n) && CheckAll(members, ms, answer, n)[m] == members[m]
  {
    if ms != [] {
      NotAsked(members, ms[..|ms| - 1], answer, n, m);
    }
  }

  /** In every run: a member that still leads after some failed checks counted every one of them, and they were too few. */
  lemma {:induction false} SilenceIsCounted(run: seq<Leaders>, acts: seq<Act>, i: nat, j: nat, m: nat, n: real)
    requires IsRun(run, acts) && i <= j < |run| && m in run[i].members && OnlyFailedChecks(run, acts, i, j, m, n)
    requires Leads(run[i], m) && (run[i].members[m].state.failures as real) < n && Leads(run[j], m)
    ensures run[j].members[m].state.failures == run[i].members[m].state.failures + ChecksOf(acts, i, j, m)
    ensures (run[j].members[m].state.failures as real) < n
    decreases j
  {
    if i < j {
      LedBefore(run, acts, i, j, m);
      SilenceIsCounted(run, acts, i, j - 1, m, n);
      EveryStateIsOk(run, acts, j - 1);
      assert IsSilentFor(run[j - 1], acts[j - 1], m, n);
      StepCounts(run[j - 1], acts[j - 1], m, n);
    }
  }

  /** Who leads now led before. */
  lemma LedBefore(run: seq<Leaders>, acts: seq<Act>, i: nat, j: nat, m: nat)
    requires IsRun(run, acts) && i < j < |run| && m in run[i].members && Leads(run[j], m)
    ensures Leads(run[j - 1], m)
  {
    StillThere(run, acts, i, j - 1, m);
    NobodyIsRevived(run, acts, j - 1);
  }

  lemma NobodyIsRevived(run: seq<Leaders>, acts: seq<Act>, k: nat)
    requires IsRun(run, acts) && k < |acts|
    ensures NeverAgain(run[k], run[k + 1])
  {
    EveryStateIsOk(run, acts, k);
    StepKeepsLeadership(run[k], acts[k]);
  }

  lemma {:induction false} StillThere(run: seq<Leaders>, acts: seq<Act>, i: nat, j: nat, m: nat)
    requires IsRun(run, acts) && i <= j < |run| && m in run[i].members
    ensures m in run[j].members
    decreases j
  {
    if i < j {
      StillThere(run, acts, i, j - 1, m);
      EveryStateIsOk(run, acts, j - 1);
      StepKeepsLeadership(run[j - 1], acts[j - 1]);
    }
  }

  lemma StepCounts(s: Leaders, act: Act, m: nat, n: real)
    requires LeadershipOk(s) && CanAct(s, act) && Leads(s, m) && IsSilentFor(s, act, m, n) && Leads(Does(s, act), m)
    requires (s.members[m].state.failures as real) < n
    ensures Does(s, act).members[m].state.failures == s.members[m].state.failures + (if act.Check? && m in act.members then 1 else 0)
    ensures (Does(s, act).members[m].state.failures as real) < n
  {
    if act.Check? && m in act.members {
      ChecksExactly(s.members, act.members, act.answer, n, m);
    } else if act.Check? {
      CheckLeavesItAlone(s, act, m);
    } else {
      OthersLeaveItAlone(s, act, m);
    }
  }

  /** In every run: after so many checks without a good one in between, the member does not lead. */
  lemma SilenceEndsLeadership(run: seq<Leaders>, acts: seq<Act>, i: nat, j: nat, m: nat, n: real)
    requires IsRun(run, acts) && i <= j < |run| && m in run[i].members && OnlyFailedChecks(run, acts, i, j, m, n)
    requires Leads(run[i], m) ==> (run[i].members[m].state.failures as real) < n
    requires ChecksOf(acts, i, j, m) as real >= n
    ensures !Leads(run[j], m)
  {
    if Leads(run[j], m) {
      if !Leads(run[i], m) {
        StoppedForGood(run, acts, i, j, m);
      }
      SilenceIsCounted(run, acts, i, j, m, n);
      assert false;
    }
  }
}
