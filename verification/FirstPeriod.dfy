/** A model with a period, and a run in which a command opens its first one: the statements about periods are about something.
    The period an event says is in its data; the level's tag is the year. */
module FirstPeriod {
  import opened Options
  import opened Events
  import opened Store
  import opened Commands
  import opened CommandRuns
  import opened OneByOne
  import opened Completion
  import opened Journal
  import M = Models
  import opened Periods
  import opened PeriodRuns
  import opened PeriodLoads
  import opened FastPath
  import RS = ReadSnapshot

  const ACCOUNT := Tag("account", "1")

  function ACCOUNTS(): Periodic<int> {
    Periodic(M.Model([M.Entry("Opened", false, None, (s, e, id) => s)], "account", "1", [], 0), "Opened", "Closed",
             (e: Event) => e.data, k => [Tag("year", k)],
             (s, k) => Event("Opened", [ACCOUNT, Tag("year", k)], k), (s, k) => Event("Closed", [ACCOUNT, Tag("year", k)], k))
  }

  /** Its boundary in a year. */
  function InYear(key: string): Query {
    Query([QueryItem(["Opened", "Closed"], [ACCOUNT, Tag("year", key)])], false)
  }

  lemma LowerAccount()
    ensures M.Lower("account") == "account"
  {
  }

  /** It meets what the statements about periods ask of a model. */
  lemma ItIsAPeriodModel(key: string)
    ensures Faithful(ACCOUNTS()) && BindsByOwnKey(ACCOUNTS()) && TagsTell(ACCOUNTS(), key)
    ensures ACCOUNTS().openedType != ACCOUNTS().closedType
  {
    var p := ACCOUNTS();
    LowerAccount();
    forall s, k
      ensures QueryMatches(TrackingQuery(p), p.opening(s, k)) && QueryMatches(TrackingQuery(p), p.closing(s, k))
      ensures (M.HasAll(p.tagsOf(key), p.opening(s, k)) <==> k == key) && (M.HasAll(p.tagsOf(key), p.closing(s, k)) <==> k == key)
    {
      assert TrackingQuery(p).items[0] in TrackingQuery(p).items;
      assert p.opening(s, k).tags == p.closing(s, k).tags == [ACCOUNT, Tag("year", k)];
      assert "year"[0] != "account"[0];
      assert p.tagsOf(key) == [Tag("year", key)];
      assert Tag("year", key) in p.tagsOf(key);
      assert [ACCOUNT, Tag("year", k)][1] == Tag("year", k);
    }
    assert p.model.entries[0].etype == p.openedType && M.KeysOf(p.model, p.model.entries[0]) == ["account"];
    assert "Opened"[0] != "Closed"[0];
  }

  lemma InYearIsTheBoundary(key: string)
    ensures M.IsBoundary(In(ACCOUNTS(), key), false, InYear(key))
  {
    var p := ACCOUNTS();
    var m := In(p, key);
    LowerAccount();
    assert "Opened"[0] != "Closed"[0];
    assert |m.entries| == 2 && m.entries[0].etype == "Opened" && m.entries[1].etype == "Closed";
    assert M.TagsFor(M.Way(false, "account"), m.id, m.scope) == [ACCOUNT, Tag("year", key)];
    forall e ensures ConditionMatches(InYear(key), e) <==> M.Reads(m, false, e) {
      if ConditionMatches(InYear(key), e) {
        var i := if e.etype == "Opened" then 0 else 1;
        assert M.BindsBy(m, i, M.Way(false, "account"));
        assert M.HasAll(M.TagsFor(M.Way(false, "account"), m.id, m.scope), e);
      }
      if M.Reads(m, false, e) {
        var i, way :| 0 <= i < |m.entries| && M.BindsBy(m, i, way) && e.etype == m.entries[i].etype && M.HasAll(M.TagsFor(way, m.id, m.scope), e);
        assert way == M.Way(false, "account");
        assert ItemMatches(InYear(key).items[0], e);
      }
    }
  }

  // ---- The run ----

  const NOTHING_YET := RS.Parts(1, 1, [])

  function First(key: string): Read {
    Read(InYear(key), NOTHING_YET, 1, [])
  }

  function Track(): Read {
    Read(TrackingQuery(ACCOUNTS()), NOTHING_YET, 1, [])
  }

  function Opening(key: string): Event {
    ACCOUNTS().opening(0, key)
  }

  function ItsLoading(key: string): Loading<int> {
    Loading(["year"], key, First(key), Track(), First(key),
            Turned(key, 0, LoadTurn(LoadOne(First(key)), LoadOne(Track()), None), [Opening(key)]))
  }

  lemma OpeningCarriesItsTags(key: string)
    ensures Carries(ACCOUNTS(), ["year"], Opening(key))
  {
    assert Opening(key).tags == [ACCOUNT, Tag("year", key)];
    assert ACCOUNT in Opening(key).tags && Tag("year", key) in Opening(key).tags;
    forall k | k in ["account"] + ["year"] ensures HasKey(Opening(key).tags, k) {
      assert k == "account" || k == "year";
    }
  }

  lemma NothingIsTracked(key: string)
    ensures Tracking(ACCOUNTS(), EventsOf([])) == None && !IsOpen(ACCOUNTS(), First(key)) && !Holds([], "Closed")
    ensures TurnOf(ACCOUNTS(), None, key, First(key), First(key)) == [Opening(key)]
    ensures Opened(ACCOUNTS(), StateOf(In(ACCOUNTS(), key), []), Opening(key)) == 0
  {
    assert EventsOf([]) == [];
  }

  lemma ItTurns(key: string)
    ensures IsLoading(ACCOUNTS(), ItsLoading(key))
  {
    InYearIsTheBoundary(key);
    OpeningCarriesItsTags(key);
    NothingIsTracked(key);
    var out := ItsLoading(key).out;
    assert TurnedTo(ACCOUNTS(), None, key, First(key), Track(), First(key)) == out;
    assert Turns(ACCOUNTS(), ["year"], key, First(key), Track(), First(key), out);
    assert IsLoad(ACCOUNTS(), ["year"], key, First(key), Track(), First(key), out);
  }

  function ItsAttempt(key: string): Attempt {
    Attempt(Some(Plan.Turn(First(key), Track(), None)), [Opening(key)], None, [], None, [], None)
  }

  function HasRead(key: string): Db {
    With(EMPTY, 0, BEGUN.(loads := [First(key), Track()]))
  }

  function HasReadOnce(key: string): Db {
    With(EMPTY, 0, BEGUN.(loads := [First(key)]))
  }

  lemma ItReadsOnce(key: string)
    ensures Reached(HasReadOnce(key)) && IsReading(HasReadOnce(key), 0)
  {
    Starts();
    Begins(EMPTY, 0);
    var begun := With(EMPTY, 0, BEGUN);
    Reads(begun, 0, InYear(key), NOTHING_YET, []);
    assert [] + [First(key)] == [First(key)];
    assert With(begun, 0, BEGUN.(loads := [First(key)])) == HasReadOnce(key);
  }

  lemma ItReads(key: string)
    ensures Reached(HasRead(key)) && IsReading(HasRead(key), 0) && HasTheLocks(HasRead(key), 0)
  {
    var once := HasReadOnce(key);
    ItReadsOnce(key);
    assert TakenIn(once, None, NOTHING_YET);
    Reads(once, 0, TrackingQuery(ACCOUNTS()), NOTHING_YET, []);
    assert [First(key)] + [Track()] == [First(key), Track()];
    assert With(once, 0, BEGUN.(loads := [First(key), Track()])) == HasRead(key);
  }

  lemma ItsRequest(key: string) returns (req: Request)
    ensures OutcomeOf(ItsAttempt(key)) == Boundary(req) && req.events == [Opening(key)]
    ensures ProperAttempt(ItsAttempt(key)) && forall read :: Depends(ItsAttempt(key), read) ==> read == First(key) || read == Track()
  {
    assert [Opening(key)] + [] == [Opening(key)];
    req := OutcomeOf(ItsAttempt(key)).request;
  }

  lemma ItBrings(key: string)
    ensures Brings(ItsAttempt(key), ACCOUNTS(), ItsLoading(key))
  {
    var l := ItsLoading(key);
    assert Tracking(ACCOUNTS(), []) == None;
    assert IsAround([Opening(key)], [], l.out.turn, []);
    assert Tracked(ACCOUNTS(), []) == [];
  }

  function Ended(key: string, req: Request): Db {
    CommittedAt(WrittenAt(HasRead(key), 0, req, Opening(key)), 0)
  }

  lemma ItEnds(key: string, req: Request)
    requires OutcomeOf(ItsAttempt(key)) == Boundary(req) && req.events == [Opening(key)]
    ensures Reached(Ended(key, req))
  {
    ItReads(key);
    assert VerdictOf(HasRead(key), None, req.condition) == Ok;
    Writes(HasRead(key), 0, req, Opening(key));
    Commits(WrittenAt(HasRead(key), 0, req, Opening(key)), 0);
  }

  lemma ItsState(key: string, req: Request)
    requires ProperAttempt(ItsAttempt(key)) && forall read :: Depends(ItsAttempt(key), read) ==> read == First(key) || read == Track()
    ensures var db := Ended(key, req);
            && 0 in db.txs && db.txs[0].status == Committed && db.txs[0].xid == Some(1) && Runs(db, 0, ItsAttempt(key), req)
            && db.rows == {Row(1, 1, Opening(key))} && IsCommitted(db, Row(1, 1, Opening(key)))
  {
    assert Ended(key, req).txs[0].loads == [First(key), Track()];
  }

  /** A committed opening in a state of some run, and all of the entity's were appended by a command that loaded the period. */
  lemma APeriodOpens(key: string)
    ensures exists db, r: Row :: Reached(db) && OnlyByLoading(db, ACCOUNTS()) && IsCommitted(db, r) && r.event == Opening(key)
                            && QueryMatches(TrackingQuery(ACCOUNTS()), r.event)
  {
    var req := ItsRequest(key);
    ItEnds(key, req);
    ItsState(key, req);
    ItTurns(key);
    ItBrings(key);
    var db := Ended(key, req);
    assert TurnsByLoading(db, ACCOUNTS(), 0, ItsAttempt(key), req, ItsLoading(key));
    ItIsTracked(key);
  }

  lemma ItIsTracked(key: string)
    ensures QueryMatches(TrackingQuery(ACCOUNTS()), Opening(key))
  {
    ItIsAPeriodModel(key);
  }
}
