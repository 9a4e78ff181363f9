/** A run of the store in which a strict command reads, appends and commits: the statements about commands are about
    something. */
module FirstCommand {
  import opened Options
  import opened Events
  import opened Store
  import opened Commands
  import opened CommandRuns
  import opened OneByOne
  import RS = ReadSnapshot

  const OPENED := Event("Opened", [], "")
  const ALL_OPENED := Query([QueryItem(["Opened"], [])], false)
  const NOTHING_YET := RS.Parts(1, 1, [])
  const FIRST_READ := Read(ALL_OPENED, NOTHING_YET, 1, [])
  const ATTEMPT := Attempt(Some(One(FIRST_READ)), [], None, [], None, [OPENED], None)

  /** The store with one transaction, 0, that has read. */
  function HasRead(): Db {
    With(EMPTY, 0, BEGUN.(loads := [FIRST_READ]))
  }

  lemma TheFirstReads()
    ensures Reached(HasRead()) && IsReading(HasRead(), 0) && HasTheLocks(HasRead(), 0)
  {
    Starts();
    Begins(EMPTY, 0);
    var begun := With(EMPTY, 0, BEGUN);
    Reads(begun, 0, ALL_OPENED, NOTHING_YET, []);
    assert [] + [FIRST_READ] == [FIRST_READ];
    assert With(begun, 0, BEGUN.(loads := [FIRST_READ])).txs == HasRead().txs;
  }

  lemma ItsRequest() returns (req: Request)
    ensures OutcomeOf(ATTEMPT) == Boundary(req) && req.events == [OPENED]
    ensures ProperAttempt(ATTEMPT) && forall read :: Depends(ATTEMPT, read) <==> read == FIRST_READ
  {
    assert [] + [OPENED] == [OPENED];
    req := OutcomeOf(ATTEMPT).request;
  }

  /** Its append is accepted in a state of some run, and its row committed in another. */
  lemma ACommandAppends() returns (req: Request)
    ensures OutcomeOf(ATTEMPT) == Boundary(req) && Depends(ATTEMPT, FIRST_READ)
    ensures exists db :: Reached(db) && IsRunning(db, 0) && Runs(db, 0, ATTEMPT, req)
    ensures exists db, row: Row :: Reached(db) && HasStatus(db, row.xid, Committed) && db.owners[row.xid] == 0 && Runs(db, 0, ATTEMPT, req)
                              && IsCommitted(db, row) && QueryMatches(ALL_OPENED, row.event)
  {
    req := ItsRequest();
    TheFirstReads();
    assert VerdictOf(HasRead(), None, req.condition) == Ok;
    Writes(HasRead(), 0, req, OPENED);
    var accepted := WrittenAt(HasRead(), 0, req, OPENED);
    Commits(accepted, 0);
    var committed := CommittedAt(accepted, 0);
    assert Runs(accepted, 0, ATTEMPT, req) && Runs(committed, 0, ATTEMPT, req);
    assert ItemMatches(ALL_OPENED.items[0], OPENED);
    assert IsCommitted(committed, Row(1, 1, OPENED));
  }
}
