/** The leaders of one client with one set of options, as the object the attempts, checks and releases update in place
    (packages/eventstore/src/Leader.ts:145-395). Each method is one region between two awaits and does exactly the step
    of the machine, whose runs are safe (Leadership.LeadersAreAlone). */
module LeaderSessions {
  import opened Options
  import opened L = Leadership

  class Sessions {
    var current: Option<nat>
    var sessions: map<nat, Session>
    var members: map<nat, Member>
    var permit: Permit
    var pending: set<nat>
    const failuresBeforeLost: real

    ghost function State(): Leaders
      reads this
    {
      Leaders(current, sessions, members, permit, pending)
    }

    ghost predicate Valid()
      reads this
    {
      LeadershipOk(State()) && failuresBeforeLost >= 1.0
    }

    /** The option is raised to one check at least (204). */
    constructor (failures: real)
      ensures Valid() && State() == NO_LEADERS && (failures >= 1.0 ==> failuresBeforeLost == failures)
    {
      current, sessions, members, permit, pending := None, map[], map[], Permit.Free, {};
      failuresBeforeLost := if failures >= 1.0 then failures else 1.0;
    }

    /** Every leader of the session is lost; their releases run later. */
    method LoseAll(sid: nat)
      requires LeadershipOk(State()) && sid in sessions
      modifies `members
      ensures members == L.LoseAll(old(State()), sid)
    {
      ghost var before := members;
      var held := sessions[sid].held;
      var todo: set<int> := held.Keys;
      while todo != {}
        invariant todo <= held.Keys && members.Keys == before.Keys
        invariant forall m :: m in before ==>
                    members[m] == if before[m].session == sid && before[m].state.status.Leading? && before[m].key !in todo
                                  then before[m].(state := LeaderState(Lost, before[m].state.failures)) else before[m]
        decreases |todo|
      {
        assert (forall k :: k !in todo) ==> todo == {};
        var k :| k in todo;
        var m := held[k];
        if members[m].state.status.Leading? {
          members := members[m := members[m].(state := LeaderState(Lost, members[m].state.failures))];
        }
        todo := todo - {k};
      }
    }

    /** `closeSession`: the connection goes back, once. */
    method CloseSession(sid: nat)
      requires sid in sessions
      modifies `sessions
      ensures sessions == old(sessions)[sid := old(sessions)[sid].(givenBack := old(sessions)[sid].givenBack + 1)]
    {
      sessions := sessions[sid := sessions[sid].(givenBack := sessions[sid].givenBack + 1)];
    }

    method Abandon(sid: nat)
      requires LeadershipOk(State()) && sid in sessions
      modifies this
      ensures State() == L.Abandon(old(State()), sid)
      ensures NeverAgain(old(State()), State()) && forall m :: Leads(State(), m) ==> members[m].session != sid
    {
      LoseAll(sid);
      sessions := sessions[sid := sessions[sid].(abandoned := true)];
      pending := pending + {sid};
      permit := Permit.Free;
    }

    /** One attempt up to its first statement. */
    method Once(key: int, spare: nat, reserved: bool, again: bool)
      requires LeadershipOk(State()) && permit.Free? && spare !in sessions
      modifies this
      ensures State() == L.Once(old(State()), key, spare, reserved, again)
      ensures LeadershipOk(State()) && NeverAgain(old(State()), State())
    {
      OnceKeeps(State(), key, spare, reserved, again);
      if current.Some? && !HasLeader(Leaders(current, sessions, members, permit, pending), current.value) {
        current := None;
      }
      if current.Some? {
        if key in sessions[current.value].held { return; }
        permit := Trying(key, current.value, Asking, again);
      } else if reserved {
        sessions := sessions[spare := Session(map[], false, false, 0)];
        permit := Trying(key, spare, Asking, again);
      }
    }

    method Begin(key: int, spare: nat, reserved: bool)
      requires Valid() && permit.Free? && spare !in sessions
      modifies this
      ensures Valid() && State() == Does(old(State()), Act.Begin(key, spare, reserved))
      ensures NeverAgain(old(State()), State())
    {
      StepKeepsLeadership(State(), Act.Begin(key, spare, reserved));
      Once(key, spare, reserved, false);
    }

    /** Only the new member starts to lead. */
    method Join(key: int, sid: nat, member: nat)
      requires sid in sessions && member !in members
      modifies this
      ensures State() == L.Join(old(State()), key, sid, member)
      ensures Leads(State(), member) && NeverAgain(old(State()), State())
    {
      sessions := sessions[sid := sessions[sid].(held := sessions[sid].held[key := member])];
      members := members[member := Member(key, sid, LEADING)];
      current := Some(sid);
      permit := Permit.Free;
    }

    /** A failed statement on a session that holds locks: its leaders are lost, and the attempt is made once more. */
    method FailedOnShared(sid: nat, key: int, spare: nat, reserved: bool, again: bool)
      requires LeadershipOk(State()) && permit.Trying? && permit.session == sid && spare !in sessions
      modifies this
      ensures State() == L.FailedOnShared(old(State()), sid, key, spare, reserved, again)
    {
      LoseAllKeeps(State(), sid);
      LoseAll(sid);
      permit := Permit.Free;
      if !again { Once(key, spare, reserved, true); }
    }

    /** The attempt's statement came back, failed, or did not answer in time. */
    method Answer(reply: Reply, member: nat, lease: bool, spare: nat, reserved: bool)
      requires Valid() && CanAct(State(), Act.Answer(reply, member, lease, spare, reserved))
      modifies this
      ensures Valid() && State() == Does(old(State()), Act.Answer(reply, member, lease, spare, reserved))
      ensures NeverAgain(old(State()), State())
    {
      StepKeepsLeadership(State(), Act.Answer(reply, member, lease, spare, reserved));
      var Trying(key, sid, _, again) := permit;
      var first := sessions[sid].held == map[];
      match reply {
        case NoAnswer => Abandon(sid);
        case Error =>
          if first {
            CloseSession(sid);
            permit := Permit.Free;
          } else {
            FailedOnShared(sid, key, spare, reserved, again);
          }
        case No =>
          if first { CloseSession(sid); }
          permit := Permit.Free;
        case Yes =>
          if first && lease {
            permit := Trying(key, sid, Leasing, again);
          } else {
            Join(key, sid, member);
          }
      }
    }

    method LeaseAnswer(reply: Reply, member: nat)
      requires Valid() && CanAct(State(), Act.LeaseAnswer(reply, member))
      modifies this
      ensures Valid() && State() == Does(old(State()), Act.LeaseAnswer(reply, member))
      ensures NeverAgain(old(State()), State())
    {
      StepKeepsLeadership(State(), Act.LeaseAnswer(reply, member));
      var sid := permit.session;
      match reply {
        case NoAnswer => Abandon(sid);
        case Yes =>
          sessions := sessions[sid := sessions[sid].(leased := true)];
          Join(permit.key, sid, member);
        case Error =>
          CloseSession(sid);
          permit := Permit.Free;
      }
    }

    /** One check's answer, applied to the given leaders; `lost` are those to be released by it. */
    method Check(ms: seq<nat>, answer: Option<set<int>>) returns (lost: set<nat>)
      requires Valid() && forall m :: m in ms ==> m in members
      modifies `members
      ensures Valid() && State() == Does(old(State()), Act.Check(ms, answer, failuresBeforeLost))
      ensures NeverAgain(old(State()), State())
      ensures forall m :: m in members ==> (m in lost <==> old(Leads(State(), m)) && members[m].state.status.Lost?)
      ensures IsDistinct(ms) ==> forall m :: m in old(members) ==>
                m in members && if m in ms then IsChecked(old(members)[m], members[m], answer, failuresBeforeLost) else members[m] == old(members)[m]
    {
      StepKeepsLeadership(State(), Act.Check(ms, answer, failuresBeforeLost));
      if IsDistinct(ms) {
        forall m | m in members
          ensures m in CheckAll(members, ms, answer, failuresBeforeLost)
          ensures if m in ms then IsChecked(members[m], CheckAll(members, ms, answer, failuresBeforeLost)[m], answer, failuresBeforeLost)
                  else CheckAll(members, ms, answer, failuresBeforeLost)[m] == members[m]
        {
          ChecksExactly(members, ms, answer, failuresBeforeLost, m);
        }
      }
      lost := CheckEach(ms, answer);
    }

    method CheckEach(ms: seq<nat>, answer: Option<set<int>>) returns (lost: set<nat>)
      requires forall m :: m in ms ==> m in members
      modifies `members
      ensures members == CheckAll(old(members), ms, answer, failuresBeforeLost)
      ensures forall m :: m in members ==> (m in lost <==> old(m in members && members[m].state.status.Leading?) && members[m].state.status.Lost?)
    {
      ghost var before := members;
      lost := {};
      for i := 0 to |ms|
        invariant members == CheckAll(before, ms[..i], answer, failuresBeforeLost)
        invariant members.Keys == before.Keys
        invariant forall m :: m in members ==> (m in lost <==> before[m].state.status.Leading? && members[m].state.status.Lost?)
      {
        var m := ms[i];
        assert ms[..i + 1][..i] == ms[..i];
        ChecksOnlyLose(before, ms[..i], answer, failuresBeforeLost);
        if members[m].state.status.Leading? {
          var alive := answer.Some? && members[m].key in answer.value;
          members := members[m := members[m].(state := AfterCheck(members[m].state, alive, failuresBeforeLost))];
          if members[m].state.status.Lost? { lost := lost + {m}; }
        }
      }
      assert ms[..|ms|] == ms;
    }

    /** A release up to the unlock. */
    method Release(m: nat)
      requires Valid() && CanAct(State(), Act.Release(m))
      modifies this
      ensures Valid() && State() == Does(old(State()), Act.Release(m))
      ensures NeverAgain(old(State()), State())
    {
      StepKeepsLeadership(State(), Act.Release(m));
      var member := members[m];
      if member.state.status.Closed? { return; }
      var session := sessions[member.session];
      members := members[m := member.(state := AfterRelease(member.state))];
      sessions := sessions[member.session := session.(held := session.held - {member.key})];
      if !session.abandoned { permit := Releasing(m); }
    }

    method Unlocked()
      requires Valid() && CanAct(State(), Act.Unlocked)
      modifies this
      ensures Valid() && State() == Does(old(State()), Act.Unlocked)
      ensures NeverAgain(old(State()), State())
    {
      StepKeepsLeadership(State(), Act.Unlocked);
      var sid := members[permit.member].session;
      if sessions[sid].held == map[] { CloseSession(sid); }
      permit := Permit.Free;
    }

    /** The late statement of an abandoned session was interrupted. */
    method GiveBack(sid: nat)
      requires Valid() && CanAct(State(), Act.GiveBack(sid))
      modifies this
      ensures Valid() && State() == Does(old(State()), Act.GiveBack(sid))
      ensures NeverAgain(old(State()), State())
    {
      StepKeepsLeadership(State(), Act.GiveBack(sid));
      CloseSession(sid);
      pending := pending - {sid};
    }
  }
}
