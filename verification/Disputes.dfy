/**
 Disputes as two services write them: DisputesService (creation, update, administrative
 resolution) and DisputeBlockchainService (arbiters, votes, resolution through the contract).
 Each service method is one atomic step; a contract call that throws is `chainOk == false`.
 */
module Disputes {
  import opened RentContract
  import opened Wrappers

  datatype Status = Open | UnderReview | Resolved | Rejected | Withdrawn

  datatype Agreement = Agreement(landlord: nat, tenant: nat, status: AgreementStatus)

  datatype User = User(isAdmin: bool)

  datatype Dispute = Dispute(
    agreement: nat, initiatedBy: nat, status: Status, favorLandlord: int, favorTenant: int, chainOutcome: Option<bool>)

  datatype Arbiter = Arbiter(address: string, totalVotes: int, totalResolved: int)

  datatype Vote = Vote(dispute: nat, arbiter: nat, favorLandlord: bool)

  datatype Db = Db(
    users: map<nat, User>, agreements: map<nat, Agreement>, disputes: map<nat, Dispute>,
    arbiters: map<nat, Arbiter>, votes: seq<Vote>)

  datatype Error =
    | NotFound | UserNotFound | Forbidden | ActiveDisputeExists | InvalidTransition | NotUnderReview
    | ArbiterExists | AlreadyResolved | AlreadyVoted | ChainFailed | NoSuchArbiter

  predicate IsActive(s: Status) {
    s == Open || s == UnderReview
  }

  /** The transition table of `isValidStatusTransition`. */
  predicate ValidTransition(from: Status, to: Status) {
    match from
    case Open => to == UnderReview || to == Withdrawn
    case UnderReview => to == Resolved || to == Rejected || to == Open
    case Resolved => false
    case Rejected => to == Open
    case Withdrawn => false
  }

  function ActiveDisputes(db: Db, agreement: nat): set<nat> {
    set d | d in db.disputes && db.disputes[d].agreement == agreement && IsActive(db.disputes[d].status)
  }

  /** Every dispute refers to an agreement. */
  ghost predicate ForeignKeys(db: Db) {
    forall d :: d in db.disputes ==> db.disputes[d].agreement in db.agreements
  }

  // ---- DisputesService ------------------------------------------------------------------

  function Created(db: Db, id: nat, agreement: nat, user: nat): Result<Db, Error> {
    if agreement !in db.agreements then Err(NotFound)
    else if user !in db.users then Err(UserNotFound)
    else if && db.agreements[agreement].landlord != user && db.agreements[agreement].tenant != user
            && !db.users[user].isAdmin then Err(Forbidden)
    else if ActiveDisputes(db, agreement) != {} then Err(ActiveDisputeExists)
    else Ok(db.(disputes := db.disputes[id := Dispute(agreement, user, Open, 0, 0, None)],
                agreements := db.agreements[agreement := db.agreements[agreement].(status := Disputed)]))
  }

  predicate MayUpdate(db: Db, d: Dispute, user: nat)
    requires user in db.users && d.agreement in db.agreements
  {
    var a := db.agreements[d.agreement];
    && (db.users[user].isAdmin || d.initiatedBy == user || a.landlord == user || a.tenant == user)
    && (db.users[user].isAdmin || d.status == Open)
  }

  function Updated(db: Db, id: nat, status: Option<Status>, user: nat): Result<Db, Error>
    requires ForeignKeys(db)
  {
    if id !in db.disputes then Err(NotFound)
    else if user !in db.users then Err(UserNotFound)
    else if !MayUpdate(db, db.disputes[id], user) then Err(Forbidden)
    else if status.None? then Ok(db)
    else if !ValidTransition(db.disputes[id].status, status.value) then Err(InvalidTransition)
    else Ok(db.(disputes := db.disputes[id := db.disputes[id].(status := status.value)]))
  }

  function ResolvedByAdmin(db: Db, id: nat, user: nat): Result<Db, Error>
    requires ForeignKeys(db)
  {
    if id !in db.disputes then Err(NotFound)
    else if user !in db.users || !db.users[user].isAdmin then Err(Forbidden)
    else if db.disputes[id].status != UnderReview then Err(NotUnderReview)
    else
      var a := db.disputes[id].agreement;
      Ok(db.(disputes := db.disputes[id := db.disputes[id].(status := Resolved)],
             agreements := if db.agreements[a].status == Disputed
                           then db.agreements[a := db.agreements[a].(status := Active)] else db.agreements))
  }

  // ---- DisputeBlockchainService ---------------------------------------------------------

  function ArbiterAdded(db: Db, id: nat, address: string, chainOk: bool): Result<Db, Error> {
    if exists a :: a in db.arbiters && db.arbiters[a].address == address then Err(ArbiterExists)
    else if !chainOk then Err(ChainFailed)
    else Ok(db.(arbiters := db.arbiters[id := Arbiter(address, 0, 0)]))
  }

  predicate HasVoted(db: Db, id: nat, arbiter: nat) {
    exists i :: 0 <= i < |db.votes| && db.votes[i].dispute == id && db.votes[i].arbiter == arbiter
  }

  /** Saving a vote of an unknown arbiter violates the foreign key. */
  function Voted(db: Db, id: nat, arbiter: nat, favorLandlord: bool, chainOk: bool): Result<Db, Error> {
    if id !in db.disputes then Err(NotFound)
    else if db.disputes[id].status == Resolved then Err(AlreadyResolved)
    else if HasVoted(db, id, arbiter) then Err(AlreadyVoted)
    else if !chainOk then Err(ChainFailed)
    else if arbiter !in db.arbiters then Err(NoSuchArbiter)
    else
      var d, a := db.disputes[id], db.arbiters[arbiter];
      Ok(db.(votes := db.votes + [Vote(id, arbiter, favorLandlord)],
             disputes := db.disputes[id := if favorLandlord then d.(favorLandlord := d.favorLandlord + 1)
                                           else d.(favorTenant := d.favorTenant + 1)],
             arbiters := db.arbiters[arbiter := a.(totalVotes := a.totalVotes + 1)]))
  }

  /** One resolved dispute credited to every arbiter who voted on it, vote by vote. */
  function Credited(arbiters: map<nat, Arbiter>, votes: seq<Vote>, id: nat): map<nat, Arbiter> {
    if votes == [] then arbiters
    else
      var before := Credited(arbiters, votes[..|votes| - 1], id);
      var v := votes[|votes| - 1];
      if v.dispute == id && v.arbiter in before
      then before[v.arbiter := before[v.arbiter].(totalResolved := before[v.arbiter].totalResolved + 1)]
      else before
  }

  function ResolvedOnChain(db: Db, id: nat, chainOk: bool, favorLandlord: bool): Result<Db, Error> {
    if id !in db.disputes then Err(NotFound)
    else if db.disputes[id].status == Resolved then Err(AlreadyResolved)
    else if !chainOk then Err(ChainFailed)
    else
      var resolved := db.disputes[id].(status := Resolved, chainOutcome := Some(favorLandlord));
      Ok(db.(disputes := db.disputes[id := resolved], arbiters := Credited(db.arbiters, db.votes, id)))
  }

  /** A refused call leaves the tables alone. */
  function After(db: Db, r: Result<Db, Error>): Db {
    if r.Ok? then r.value else db
  }

  function ErrorOf(r: Result<Db, Error>): Option<Error> {
    if r.Ok? then None else Some(r.error)
  }

  class Tables {
    var users: map<nat, User>
    var agreements: map<nat, Agreement>
    var disputes: map<nat, Dispute>
    var arbiters: map<nat, Arbiter>
    var votes: seq<Vote>

    constructor (users: map<nat, User>, agreements: map<nat, Agreement>)
      ensures View() == Db(users, agreements, map[], map[], [])
    {
      this.users, this.agreements := users, agreements;
      disputes, arbiters, votes := map[], map[], [];
    }

    function View(): Db
      reads this
    {
      Db(users, agreements, disputes, arbiters, votes)
    }
  }

  class DisputesService {
    const tables: Tables

    constructor (tables: Tables)
      ensures this.tables == tables
    {
      this.tables := tables;
    }

    method CreateDispute(id: nat, agreement: nat, user: nat) returns (error: Option<Error>)
      modifies tables
      ensures var r := Created(old(tables.View()), id, agreement, user);
              tables.View() == After(old(tables.View()), r) && error == ErrorOf(r)
    {
      if agreement !in tables.agreements {
        return Some(NotFound);
      }
      if user !in tables.users {
        return Some(UserNotFound);
      }
      var a := tables.agreements[agreement];
      if a.landlord != user && a.tenant != user && !tables.users[user].isAdmin {
        return Some(Forbidden);
      }
      if ActiveDisputes(tables.View(), agreement) != {} {
        return Some(ActiveDisputeExists);
      }
      tables.disputes := tables.disputes[id := Dispute(agreement, user, Open, 0, 0, None)];
      tables.agreements := tables.agreements[agreement := a.(status := Disputed)];
      error := None;
    }

    method Update(id: nat, status: Option<Status>, user: nat) returns (error: Option<Error>)
      requires ForeignKeys(tables.View())
      modifies tables
      ensures var r := Updated(old(tables.View()), id, status, user);
              tables.View() == After(old(tables.View()), r) && error == ErrorOf(r)
    {
      if id !in tables.disputes {
        return Some(NotFound);
      }
      var d := tables.disputes[id];
      if user !in tables.users {
        return Some(UserNotFound);
      }
      if !MayUpdate(tables.View(), d, user) {
        return Some(Forbidden);
      }
      if status.Some? {
        if !ValidTransition(d.status, status.value) {
          return Some(InvalidTransition);
        }
        tables.disputes := tables.disputes[id := d.(status := status.value)];
      }
      error := None;
    }

    method ResolveDispute(id: nat, user: nat) returns (error: Option<Error>)
      requires ForeignKeys(tables.View())
      modifies tables
      ensures var r := ResolvedByAdmin(old(tables.View()), id, user);
              tables.View() == After(old(tables.View()), r) && error == ErrorOf(r)
    {
      if id !in tables.disputes {
        return Some(NotFound);
      }
      if user !in tables.users || !tables.users[user].isAdmin {
        return Some(Forbidden);
      }
      var d := tables.disputes[id];
      if d.status != UnderReview {
        return Some(NotUnderReview);
      }
      tables.disputes := tables.disputes[id := d.(status := Resolved)];
      var a := tables.agreements[d.agreement];
      if a.status == Disputed {
        tables.agreements := tables.agreements[d.agreement := a.(status := Active)];
      }
      error := None;
    }
  }

  class DisputeBlockchainService {
    const tables: Tables

    constructor (tables: Tables)
      ensures this.tables == tables
    {
      this.tables := tables;
    }

    method AddArbiter(id: nat, address: string, chainOk: bool) returns (error: Option<Error>)
      modifies tables
      ensures var r := ArbiterAdded(old(tables.View()), id, address, chainOk);
              tables.View() == After(old(tables.View()), r) && error == ErrorOf(r)
    {
      if exists a :: a in tables.arbiters && tables.arbiters[a].address == address {
        return Some(ArbiterExists);
      }
      if !chainOk {
        return Some(ChainFailed);
      }
      tables.arbiters := tables.arbiters[id := Arbiter(address, 0, 0)];
      error := None;
    }

    method SubmitVote(id: nat, arbiter: nat, favorLandlord: bool, chainOk: bool) returns (error: Option<Error>)
      modifies tables
      ensures var r := Voted(old(tables.View()), id, arbiter, favorLandlord, chainOk);
              tables.View() == After(old(tables.View()), r) && error == ErrorOf(r)
    {
      if id !in tables.disputes {
        return Some(NotFound);
      }
      var d := tables.disputes[id];
      if d.status == Resolved {
        return Some(AlreadyResolved);
      }
      if HasVoted(tables.View(), id, arbiter) {
        return Some(AlreadyVoted);
      }
      if !chainOk {
        return Some(ChainFailed);
      }
      if arbiter !in tables.arbiters {
        return Some(NoSuchArbiter);
      }
      tables.votes := tables.votes + [Vote(id, arbiter, favorLandlord)];
      if favorLandlord {
        d := d.(favorLandlord := d.favorLandlord + 1);
      } else {
        d := d.(favorTenant := d.favorTenant + 1);
      }
      tables.disputes := tables.disputes[id := d];
      var a := tables.arbiters[arbiter];
      tables.arbiters := tables.arbiters[arbiter := a.(totalVotes := a.totalVotes + 1)];
      error := None;
    }

    method ResolveDispute(id: nat, chainOk: bool, favorLandlord: bool) returns (error: Option<Error>)
      modifies tables
      ensures var r := ResolvedOnChain(old(tables.View()), id, chainOk, favorLandlord);
              tables.View() == After(old(tables.View()), r) && error == ErrorOf(r)
    {
      if id !in tables.disputes {
        return Some(NotFound);
      }
      var d := tables.disputes[id];
      if d.status == Resolved {
        return Some(AlreadyResolved);
      }
      if !chainOk {
        return Some(ChainFailed);
      }
      ghost var start := tables.View();
      tables.disputes := tables.disputes[id := d.(status := Resolved, chainOutcome := Some(favorLandlord))];
      var votes := tables.votes;
      for i := 0 to |votes|
        invariant tables.View() == start.(disputes := tables.disputes, arbiters := Credited(start.arbiters,
                  votes[..i], id))
        invariant tables.disputes == start.disputes[id := d.(status := Resolved, chainOutcome := Some(favorLandlord))]
      {
        var v := votes[i];
        assert votes[..i + 1][..i] == votes[..i];
        if v.dispute == id && v.arbiter in tables.arbiters {
          var a := tables.arbiters[v.arbiter];
          tables.arbiters := tables.arbiters[v.arbiter := a.(totalResolved := a.totalResolved + 1)];
        }
      }
      assert votes[..|votes|] == votes;
      error := None;
    }
  }
}
