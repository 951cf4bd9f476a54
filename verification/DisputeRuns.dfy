/**
 Runs that mix the operations of both dispute services: tallies, absorption of RESOLVED, and
 the number of active disputes of an agreement.
 */
module DisputeRuns {
  import opened RentContract
  import opened Wrappers
  import opened Disputes
  import opened Sets

  datatype Label =
    | Create(id: nat, agreement: nat, user: nat)
    | Update(id: nat, status: Option<Status>, user: nat)
    | AdminResolve(id: nat, user: nat)
    | AddArbiter(id: nat, address: string, chainOk: bool)
    | SubmitVote(id: nat, arbiter: nat, favorLandlord: bool, chainOk: bool)
    | ChainResolve(id: nat, chainOk: bool, favorLandlord: bool)

  /** New rows get fresh primary keys. */
  predicate Enabled(db: Db, l: Label) {
    (l.Create? ==> l.id !in db.disputes) && (l.AddArbiter? ==> l.id !in db.arbiters)
  }

  function Apply(db: Db, l: Label): Result<Db, Error>
    requires ForeignKeys(db)
  {
    match l
    case Create(id, agreement, user) => Created(db, id, agreement, user)
    case Update(id, status, user) => Updated(db, id, status, user)
    case AdminResolve(id, user) => ResolvedByAdmin(db, id, user)
    case AddArbiter(id, address, ok) => ArbiterAdded(db, id, address, ok)
    case SubmitVote(id, arbiter, favor, ok) => Voted(db, id, arbiter, favor, ok)
    case ChainResolve(id, ok, favor) => ResolvedOnChain(db, id, ok, favor)
  }

  function Next(db: Db, l: Label): Db
    requires ForeignKeys(db)
  {
    After(db, Apply(db, l))
  }

  /** Arbitrary users and agreements, no disputes, arbiters or votes yet. */
  ghost predicate IsRun(states: seq<Db>, labels: seq<Label>) {
    && |states| == |labels| + 1
    && states[0].disputes == map[] && states[0].arbiters == map[] && states[0].votes == []
    && (forall i {:trigger labels[i]} :: 0 <= i < |labels| ==>
          ForeignKeys(states[i]) && Enabled(states[i], labels[i]) && states[i + 1] == Next(states[i], labels[i]))
  }

  // ---- RESOLVED is absorbing ------------------------------------------------------------

  /** A resolved dispute is never changed again, by either service. */
  lemma ResolvedIsFrozen(db: Db, l: Label, d: nat)
    requires ForeignKeys(db) && Enabled(db, l) && d in db.disputes && db.disputes[d].status == Resolved
    ensures d in Next(db, l).disputes && Next(db, l).disputes[d] == db.disputes[d]
  {
  }

  lemma {:induction false} ResolvedIsAbsorbing(states: seq<Db>, labels: seq<Label>, i: nat, j: nat, d: nat)
    requires IsRun(states, labels) && i <= j < |states|
    requires d in states[i].disputes && states[i].disputes[d].status == Resolved
    ensures d in states[j].disputes && states[j].disputes[d] == states[i].disputes[d]
  {
    if i < j {
      ResolvedIsAbsorbing(states, labels, i, j - 1, d);
      ResolvedIsFrozen(states[j - 1], labels[j - 1], d);
    }
  }

  lemma ExtendRun(states: seq<Db>, labels: seq<Label>, l: Label) returns (states': seq<Db>, labels': seq<Label>)
    requires IsRun(states, labels) && ForeignKeys(states[|labels|]) && Enabled(states[|labels|], l)
    ensures IsRun(states', labels') && states' == states + [Next(states[|labels|], l)] && labels' == labels + [l]
  {
    states', labels' := states + [Next(states[|labels|], l)], labels + [l];
    forall i | 0 <= i < |labels'|
      ensures ForeignKeys(states'[i]) && Enabled(states'[i], labels'[i])
              && states'[i + 1] == Next(states'[i], labels'[i])
    {
      if i < |labels| {
        assert labels'[i] == labels[i] && states'[i] == states[i] && states'[i + 1] == states[i + 1];
      }
    }
  }

  // ---- WITHDRAWN is not terminal --------------------------------------------------------

  /** The only step that moves a withdrawn dispute is its resolution through the blockchain service. */
  predicate ResolvesOnChain(l: Label, d: nat) {
    l.ChainResolve? && l.id == d && l.chainOk
  }

  lemma WithdrawnMovesIff(db: Db, l: Label, d: nat)
    requires ForeignKeys(db) && Enabled(db, l) && d in db.disputes && db.disputes[d].status == Withdrawn
    ensures d in Next(db, l).disputes
    ensures Next(db, l).disputes[d].status != Withdrawn <==> ResolvesOnChain(l, d)
    ensures ResolvesOnChain(l, d) ==> Next(db, l).disputes[d].status == Resolved
  {
  }

  /**
   In every run a withdrawn dispute stays WITHDRAWN if and only if no later step resolves it on chain;
   else it is RESOLVED.
   */
  lemma {:induction false} WithdrawnStaysIff(states: seq<Db>, labels: seq<Label>, i: nat, j: nat, d: nat)
    requires IsRun(states, labels) && i <= j < |states|
    requires d in states[i].disputes && states[i].disputes[d].status == Withdrawn
    ensures d in states[j].disputes
    ensures states[j].disputes[d].status == Withdrawn <==> forall k :: i <= k < j ==> !ResolvesOnChain(labels[k], d)
    ensures states[j].disputes[d].status == Withdrawn || states[j].disputes[d].status == Resolved
  {
    if i < j {
      WithdrawnStaysIff(states, labels, i, j - 1, d);
      if states[j - 1].disputes[d].status == Withdrawn {
        WithdrawnMovesIff(states[j - 1], labels[j - 1], d);
      } else {
        ResolvedIsFrozen(states[j - 1], labels[j - 1], d);
      }
    }
  }

  /** For every party of every agreement, a run that opens a dispute, withdraws it and resolves it on chain. */
  lemma WithdrawnThenResolved(db: Db, d: nat, a: nat, user: nat, favorLandlord: bool)
    returns (states: seq<Db>, labels: seq<Label>)
    requires db.disputes == map[] && db.arbiters == map[] && db.votes == [] && a in db.agreements && user in db.users
    requires user == db.agreements[a].landlord || user == db.agreements[a].tenant
    ensures IsRun(states, labels) && states[0] == db && |labels| == 3
    ensures d in states[2].disputes && states[2].disputes[d].status == Withdrawn
    ensures d in states[3].disputes && states[3].disputes[d].status == Resolved
  {
    assert ActiveDisputes(db, a) == {};
    states, labels := [db], [];
    states, labels := ExtendRun(states, labels, Create(d, a, user));
    states, labels := ExtendRun(states, labels, Update(d, Some(Withdrawn), user));
    states, labels := ExtendRun(states, labels, ChainResolve(d, true, favorLandlord));
  }

  // ---- Who may do what --------------------------------------------------------------------

  predicate IsParty(db: Db, agreement: nat, user: nat) {
    agreement in db.agreements && (db.agreements[agreement].landlord == user || db.agreements[agreement].tenant == user)
  }

  predicate IsAdmin(db: Db, user: nat) {
    user in db.users && db.users[user].isAdmin
  }

  /**
   A dispute is opened exactly by a known party or admin on an agreement without an active one; then it is OPEN,
   with no votes.
   */
  lemma CreationIff(db: Db, id: nat, agreement: nat, user: nat)
    requires id !in db.disputes
    ensures Created(db, id, agreement, user).Ok?
            <==> && agreement in db.agreements && user in db.users
                 && (IsParty(db, agreement, user) || IsAdmin(db, user))
                 && forall d :: d in db.disputes && db.disputes[d].agreement == agreement ==>
                      db.disputes[d].status != Open && db.disputes[d].status != UnderReview
    ensures Created(db, id, agreement, user).Ok? ==>
              var after := Created(db, id, agreement, user).value;
              && after.disputes == db.disputes[id := Dispute(agreement, user, Open, 0, 0, None)]
              && agreement in after.agreements && after.agreements[agreement].status == Disputed
              && after.agreements - {agreement} == db.agreements - {agreement}
              && (after.votes, after.arbiters, after.users) == (db.votes, db.arbiters, db.users)
  {
    forall d | d in db.disputes && db.disputes[d].agreement == agreement
      ensures d in ActiveDisputes(db, agreement)
              <==> db.disputes[d].status == Open || db.disputes[d].status == UnderReview
    {
    }
    if ActiveDisputes(db, agreement) != {} {
      var d :| d in ActiveDisputes(db, agreement);
      assert db.disputes[d].agreement == agreement;
    }
  }

  /** The six transitions that an update may make. */
  lemma TransitionIff(from: Status, to: Status)
    ensures ValidTransition(from, to)
            <==> (from, to) in {(Open, UnderReview), (Open, Withdrawn), (UnderReview, Resolved),
                                (UnderReview, Rejected), (UnderReview, Open), (Rejected, Open)}
  {
  }

  /**
   An admin may make every valid transition; the initiator and the parties only those of an OPEN dispute; nobody
   else any.
   */
  lemma UpdateIff(db: Db, id: nat, status: Option<Status>, user: nat)
    requires ForeignKeys(db)
    ensures Updated(db, id, status, user).Ok?
            <==> && id in db.disputes && user in db.users
                 && (|| IsAdmin(db, user)
                     || (&& db.disputes[id].status == Open
                         && (db.disputes[id].initiatedBy == user || IsParty(db, db.disputes[id].agreement, user))))
                 && (status.Some? ==> ValidTransition(db.disputes[id].status, status.value))
    ensures Updated(db, id, status, user).Ok? ==>
              var after := Updated(db, id, status, user).value;
              && after == db.(disputes := after.disputes) && after.disputes.Keys == db.disputes.Keys
              && (forall d :: d in db.disputes && d != id ==> after.disputes[d] == db.disputes[d])
              && after.disputes[id] == db.disputes[id].(status := after.disputes[id].status)
              && after.disputes[id].status == if status.Some? then status.value else db.disputes[id].status
  {
  }

  /** Only an admin resolves directly, and only a dispute under review. */
  lemma AdminResolutionIff(db: Db, id: nat, user: nat)
    requires ForeignKeys(db)
    ensures ResolvedByAdmin(db, id, user).Ok?
            <==> id in db.disputes && IsAdmin(db, user) && db.disputes[id].status == UnderReview
    ensures ResolvedByAdmin(db, id, user).Ok? ==>
              var after, a := ResolvedByAdmin(db, id, user).value, db.disputes[id].agreement;
              && after.disputes == db.disputes[id := db.disputes[id].(status := Resolved)]
              && a in after.agreements && after.agreements - {a} == db.agreements - {a}
              && (db.agreements[a].status == Disputed ==> after.agreements[a] == db.agreements[a].(status := Active))
              && (db.agreements[a].status != Disputed ==> after.agreements[a] == db.agreements[a])
  {
  }

  /**
   A vote is taken exactly on an unresolved dispute from a known arbiter who has not voted on it, if the contract
   takes it.
   */
  lemma VoteIff(db: Db, id: nat, arbiter: nat, favorLandlord: bool, chainOk: bool)
    ensures Voted(db, id, arbiter, favorLandlord, chainOk).Ok?
            <==> && id in db.disputes && db.disputes[id].status != Resolved && arbiter in db.arbiters && chainOk
                 && forall v :: v in db.votes ==> v.dispute != id || v.arbiter != arbiter
    ensures Voted(db, id, arbiter, favorLandlord, chainOk).Ok? ==>
              Voted(db, id, arbiter, favorLandlord, chainOk).value.votes
              == db.votes + [Vote(id, arbiter, favorLandlord)]
  {
    if HasVoted(db, id, arbiter) {
      var i :| 0 <= i < |db.votes| && db.votes[i].dispute == id && db.votes[i].arbiter == arbiter;
      assert db.votes[i] in db.votes;
    }
  }

  /** An arbiter is added exactly under a new address, if the contract takes it. */
  lemma ArbiterIff(db: Db, id: nat, address: string, chainOk: bool)
    ensures ArbiterAdded(db, id, address, chainOk).Ok?
            <==> chainOk && forall a :: a in db.arbiters ==> db.arbiters[a].address != address
    ensures ArbiterAdded(db, id, address, chainOk).Ok? ==>
              ArbiterAdded(db, id, address, chainOk).value == db.(arbiters := db.arbiters[id := Arbiter(address, 0, 0)])
  {
  }

  /** What the error says: first what is missing, then who may not, then what the tables do not allow. */
  lemma RefusalsOfDisputesService(db: Db, id: nat, agreement: nat, user: nat, status: Option<Status>)
    requires ForeignKeys(db)
    ensures Created(db, id, agreement, user) == Err(NotFound) <==> agreement !in db.agreements
    ensures Created(db, id, agreement, user) == Err(UserNotFound) <==> agreement in db.agreements && user !in db.users
    ensures Created(db, id, agreement, user) == Err(Forbidden)
            <==> && agreement in db.agreements && user in db.users
                 && !IsParty(db, agreement, user) && !IsAdmin(db, user)
    ensures Updated(db, id, status, user) == Err(NotFound) <==> id !in db.disputes
    ensures Updated(db, id, status, user) == Err(UserNotFound) <==> id in db.disputes && user !in db.users
    ensures Updated(db, id, status, user) == Err(InvalidTransition)
            <==> && Updated(db, id, None, user).Ok? && status.Some?
                 && !ValidTransition(db.disputes[id].status, status.value)
    ensures ResolvedByAdmin(db, id, user) == Err(NotFound) <==> id !in db.disputes
    ensures ResolvedByAdmin(db, id, user) == Err(Forbidden) <==> id in db.disputes && !IsAdmin(db, user)
    ensures var r := Created(db, id, agreement, user);
            r.Err? ==> r.error in {NotFound, UserNotFound, Forbidden, ActiveDisputeExists}
    ensures var r := Updated(db, id, status, user);
            r.Err? ==> r.error in {NotFound, UserNotFound, Forbidden, InvalidTransition}
    ensures var r := ResolvedByAdmin(db, id, user);
            r.Err? ==> r.error in {NotFound, Forbidden, NotUnderReview}
  {
  }

  /** A call that would be refused anyway does not reach the contract. */
  lemma RefusalsOfBlockchainService(db: Db, id: nat, arbiter: nat, favor: bool, address: string, chainOk: bool)
    ensures Voted(db, id, arbiter, favor, chainOk) == Err(NotFound) <==> id !in db.disputes
    ensures Voted(db, id, arbiter, favor, chainOk) == Err(AlreadyResolved)
            <==> id in db.disputes && db.disputes[id].status == Resolved
    ensures Voted(db, id, arbiter, favor, chainOk) == Err(AlreadyVoted)
            <==> id in db.disputes && db.disputes[id].status != Resolved && HasVoted(db, id, arbiter)
    ensures Voted(db, id, arbiter, favor, chainOk) == Err(NoSuchArbiter)
            <==> && id in db.disputes && db.disputes[id].status != Resolved && !HasVoted(db, id, arbiter)
                 && chainOk && arbiter !in db.arbiters
    ensures Voted(db, id, arbiter, favor, false).Err?
    ensures Voted(db, id, arbiter, favor, false).error == ChainFailed
            <==> id in db.disputes && db.disputes[id].status != Resolved && !HasVoted(db, id, arbiter)
    ensures ArbiterAdded(db, id, address, chainOk) == Err(ArbiterExists)
            <==> exists a :: a in db.arbiters && db.arbiters[a].address == address
    ensures ResolvedOnChain(db, id, chainOk, favor) == Err(NotFound) <==> id !in db.disputes
    ensures ResolvedOnChain(db, id, chainOk, favor) == Err(AlreadyResolved)
            <==> id in db.disputes && db.disputes[id].status == Resolved
    ensures ResolvedOnChain(db, id, chainOk, favor) == Err(ChainFailed)
            <==> id in db.disputes && db.disputes[id].status != Resolved && !chainOk
  {
  }

  /** In every run the initiator of a dispute is a party of its agreement or an admin. */
  lemma {:induction false} InitiatorIsParty(states: seq<Db>, labels: seq<Label>, i: nat, d: nat)
    requires IsRun(states, labels) && i < |states| && d in states[i].disputes
    ensures states[i].users == states[0].users
    ensures var x := states[i].disputes[d];
            IsParty(states[i], x.agreement, x.initiatedBy) || IsAdmin(states[i], x.initiatedBy)
  {
    if i > 0 {
      UsersStay(states, labels, i);
      assert states[i] == Next(states[i - 1], labels[i - 1]);
      if d in states[i - 1].disputes {
        InitiatorIsParty(states, labels, i - 1, d);
      }
    }
  }

  lemma {:induction false} UsersStay(states: seq<Db>, labels: seq<Label>, i: nat)
    requires IsRun(states, labels) && i < |states|
    ensures states[i].users == states[0].users
  {
    if i > 0 {
      UsersStay(states, labels, i - 1);
      assert states[i] == Next(states[i - 1], labels[i - 1]);
    }
  }

  /** The step resolves the dispute through the contract, or an admin does. */
  predicate ResolvesWithAuthority(db: Db, l: Label, d: nat) {
    || ResolvesOnChain(l, d)
    || (l.AdminResolve? && l.id == d && IsAdmin(db, l.user))
    || (l.Update? && l.id == d && l.status == Some(Resolved) && IsAdmin(db, l.user))
  }

  /** In every run a RESOLVED dispute was resolved by an admin or through the contract. */
  lemma {:induction false} ResolutionHasAuthority(states: seq<Db>, labels: seq<Label>, i: nat, d: nat) returns (k: nat)
    requires IsRun(states, labels) && i < |states|
    requires d in states[i].disputes && states[i].disputes[d].status == Resolved
    ensures k < i && ResolvesWithAuthority(states[k], labels[k], d)
  {
    assert states[i] == Next(states[i - 1], labels[i - 1]);
    if d in states[i - 1].disputes && states[i - 1].disputes[d].status == Resolved {
      k := ResolutionHasAuthority(states, labels, i - 1, d);
    } else {
      k := i - 1;
    }
  }

  lemma OutcomeIsOldOrTheContracts(db: Db, l: Label, d: nat)
    requires ForeignKeys(db) && Enabled(db, l)
    requires d in Next(db, l).disputes && Next(db, l).disputes[d].chainOutcome.Some?
    ensures || (d in db.disputes && db.disputes[d].chainOutcome == Next(db, l).disputes[d].chainOutcome)
            || l == ChainResolve(d, true, Next(db, l).disputes[d].chainOutcome.value)
  {
  }

  /** In every run the outcome a dispute carries is the one the contract gave when it resolved that dispute. */
  lemma {:induction false} OutcomeIsTheContracts(states: seq<Db>, labels: seq<Label>, i: nat, d: nat) returns (k: nat)
    requires IsRun(states, labels) && i < |states|
    requires d in states[i].disputes && states[i].disputes[d].chainOutcome.Some?
    ensures k < i && labels[k] == ChainResolve(d, true, states[i].disputes[d].chainOutcome.value)
  {
    assert ForeignKeys(states[i - 1]) && states[i] == Next(states[i - 1], labels[i - 1]);
    OutcomeIsOldOrTheContracts(states[i - 1], labels[i - 1], d);
    if d in states[i - 1].disputes && states[i - 1].disputes[d].chainOutcome == states[i].disputes[d].chainOutcome {
      k := OutcomeIsTheContracts(states, labels, i - 1, d);
    } else {
      k := i - 1;
    }
  }

  /** A resolution through the contract succeeds on every unresolved dispute and records the side it favours. */
  lemma ChainResolutionIff(db: Db, id: nat, chainOk: bool, favorLandlord: bool)
    ensures ResolvedOnChain(db, id, chainOk, favorLandlord).Ok?
            <==> id in db.disputes && db.disputes[id].status != Resolved && chainOk
    ensures ResolvedOnChain(db, id, chainOk, favorLandlord).Ok? ==>
              var after := ResolvedOnChain(db, id, chainOk, favorLandlord).value;
              && after.disputes
                 == db.disputes[id := db.disputes[id].(status := Resolved, chainOutcome := Some(favorLandlord))]
              && after.agreements == db.agreements && after.votes == db.votes
  {
  }

  // ---- Tallies -------------------------------------------------------------------------

  function CountIf(votes: seq<Vote>, p: Vote -> bool): nat {
    if votes == [] then 0
    else CountIf(votes[..|votes| - 1], p) + if p(votes[|votes| - 1]) then 1 else 0
  }

  function ForSide(d: nat, favorLandlord: bool): Vote -> bool {
    (v: Vote) => v.dispute == d && v.favorLandlord == favorLandlord
  }

  function By(a: nat): Vote -> bool {
    (v: Vote) => v.arbiter == a
  }

  function ByOn(a: nat, d: nat): Vote -> bool {
    (v: Vote) => v.arbiter == a && v.dispute == d
  }

  /** The arbiter's votes on disputes that were resolved through the blockchain service. */
  function ByOnChainResolved(a: nat, disputes: map<nat, Dispute>): Vote -> bool {
    (v: Vote) => v.arbiter == a && v.dispute in disputes && disputes[v.dispute].chainOutcome.Some?
  }

  lemma CountAppend(votes: seq<Vote>, v: Vote, p: Vote -> bool)
    ensures CountIf(votes + [v], p) == CountIf(votes, p) + if p(v) then 1 else 0
  {
    assert (votes + [v])[..|votes|] == votes;
  }

  lemma {:induction false} CountAgree(votes: seq<Vote>, p: Vote -> bool, q: Vote -> bool)
    requires forall i :: 0 <= i < |votes| ==> p(votes[i]) == q(votes[i])
    ensures CountIf(votes, p) == CountIf(votes, q)
  {
    if votes != [] {
      CountAgree(votes[..|votes| - 1], p, q);
    }
  }

  lemma {:induction false} CountSplit(votes: seq<Vote>, p: Vote -> bool, q: Vote -> bool, r: Vote -> bool)
    requires forall i :: 0 <= i < |votes| ==>
               (p(votes[i]) <==> q(votes[i]) || r(votes[i])) && !(q(votes[i]) && r(votes[i]))
    ensures CountIf(votes, p) == CountIf(votes, q) + CountIf(votes, r)
  {
    if votes != [] {
      CountSplit(votes[..|votes| - 1], p, q, r);
    }
  }

  lemma {:induction false} CountNone(votes: seq<Vote>, p: Vote -> bool)
    requires forall i :: 0 <= i < |votes| ==> !p(votes[i])
    ensures CountIf(votes, p) == 0
  {
    if votes != [] {
      CountNone(votes[..|votes| - 1], p);
    }
  }

  ghost predicate OneVoteEach(votes: seq<Vote>) {
    forall i, j :: 0 <= i < j < |votes| ==> votes[i].dispute != votes[j].dispute || votes[i].arbiter != votes[j].arbiter
  }

  ghost predicate VotesRefer(db: Db) {
    forall i :: 0 <= i < |db.votes| ==> db.votes[i].dispute in db.disputes && db.votes[i].arbiter in db.arbiters
  }

  ghost predicate DisputeTally(db: Db, d: nat)
    requires d in db.disputes
  {
    && db.disputes[d].favorLandlord == CountIf(db.votes, ForSide(d, true))
    && db.disputes[d].favorTenant == CountIf(db.votes, ForSide(d, false))
    && (db.disputes[d].chainOutcome.Some? ==> db.disputes[d].status == Resolved)
  }

  ghost predicate ArbiterTally(db: Db, a: nat)
    requires a in db.arbiters
  {
    && db.arbiters[a].totalVotes == CountIf(db.votes, By(a))
    && db.arbiters[a].totalResolved == CountIf(db.votes, ByOnChainResolved(a, db.disputes))
  }

  ghost predicate Tallied(db: Db) {
    && ForeignKeys(db) && OneVoteEach(db.votes) && VotesRefer(db)
    && (forall d :: d in db.disputes ==> DisputeTally(db, d))
    && (forall a :: a in db.arbiters ==> ArbiterTally(db, a))
  }

  /** Steps that touch no votes, arbiters, counters or chain outcomes keep every tally. */
  lemma QuietStepKeepsTallied(db: Db, db': Db)
    requires Tallied(db) && ForeignKeys(db') && db'.votes == db.votes && db'.arbiters == db.arbiters
    requires db.disputes.Keys <= db'.disputes.Keys
    requires forall d :: d in db.disputes ==>
               db'.disputes[d] == db.disputes[d].(status := db'.disputes[d].status)
               && (db.disputes[d].status == Resolved ==> db'.disputes[d].status == Resolved)
    requires forall d :: d in db'.disputes && d !in db.disputes ==>
               db'.disputes[d].favorLandlord == 0 == db'.disputes[d].favorTenant && db'.disputes[d].chainOutcome.None?
    ensures Tallied(db')
  {
    forall d | d in db'.disputes ensures DisputeTally(db', d) {
      if d in db.disputes {
        assert DisputeTally(db, d);
      } else {
        CountNone(db.votes, ForSide(d, true));
        CountNone(db.votes, ForSide(d, false));
      }
    }
    forall a | a in db'.arbiters ensures ArbiterTally(db', a) {
      assert ArbiterTally(db, a);
      CountAgree(db.votes, ByOnChainResolved(a, db.disputes), ByOnChainResolved(a, db'.disputes));
    }
  }

  lemma AddArbiterKeepsTallied(db: Db, l: Label)
    requires Tallied(db) && l.AddArbiter? && Enabled(db, l)
    ensures Tallied(Next(db, l))
  {
    var db' := Next(db, l);
    forall d | d in db'.disputes ensures DisputeTally(db', d) {
      assert DisputeTally(db, d);
    }
    forall a | a in db'.arbiters ensures ArbiterTally(db', a) {
      if a in db.arbiters {
        assert ArbiterTally(db, a);
      } else {
        CountNone(db.votes, By(a));
        CountNone(db.votes, ByOnChainResolved(a, db.disputes));
      }
    }
  }

  lemma VoteKeepsDisputeTally(db: Db, l: Label, d: nat)
    requires Tallied(db) && l.SubmitVote? && Apply(db, l).Ok? && d in db.disputes
    ensures DisputeTally(Next(db, l), d)
  {
    var v := Vote(l.id, l.arbiter, l.favorLandlord);
    assert DisputeTally(db, d);
    CountAppend(db.votes, v, ForSide(d, true));
    CountAppend(db.votes, v, ForSide(d, false));
  }

  lemma VoteKeepsArbiterTally(db: Db, l: Label, a: nat)
    requires Tallied(db) && l.SubmitVote? && Apply(db, l).Ok? && a in db.arbiters
    ensures ArbiterTally(Next(db, l), a)
  {
    var v := Vote(l.id, l.arbiter, l.favorLandlord);
    var disputes' := Next(db, l).disputes;
    assert DisputeTally(db, l.id) && ArbiterTally(db, a) && db.disputes[l.id].chainOutcome.None?;
    assert !ByOnChainResolved(a, disputes')(v);
    CountAppend(db.votes, v, By(a));
    CountAppend(db.votes, v, ByOnChainResolved(a, disputes'));
    CountAgree(db.votes, ByOnChainResolved(a, db.disputes), ByOnChainResolved(a, disputes'));
  }

  lemma VoteKeepsRows(db: Db, l: Label)
    requires ForeignKeys(db) && OneVoteEach(db.votes) && VotesRefer(db) && l.SubmitVote? && Apply(db, l).Ok?
    ensures var db' := Next(db, l);
            && ForeignKeys(db') && OneVoteEach(db'.votes) && VotesRefer(db')
            && db'.disputes.Keys == db.disputes.Keys && db'.arbiters.Keys == db.arbiters.Keys
  {
  }

  lemma VoteKeepsTallied(db: Db, l: Label)
    requires Tallied(db) && l.SubmitVote? && Apply(db, l).Ok?
    ensures Tallied(Next(db, l))
  {
    VoteKeepsRows(db, l);
    forall d | d in db.disputes ensures DisputeTally(Next(db, l), d) {
      VoteKeepsDisputeTally(db, l, d);
    }
    forall a | a in db.arbiters ensures ArbiterTally(Next(db, l), a) {
      VoteKeepsArbiterTally(db, l, a);
    }
  }

  lemma {:induction false} CreditedCounts(arbiters: map<nat, Arbiter>, votes: seq<Vote>, d: nat, a: nat)
    ensures Credited(arbiters, votes, d).Keys == arbiters.Keys
    ensures a in arbiters ==>
              Credited(arbiters, votes, d)[a]
              == arbiters[a].(totalResolved := arbiters[a].totalResolved + CountIf(votes, ByOn(a, d)))
  {
    if votes != [] {
      CreditedCounts(arbiters, votes[..|votes| - 1], d, a);
    }
  }

  lemma ChainResolveKeepsTallied(db: Db, l: Label)
    requires Tallied(db) && l.ChainResolve? && Apply(db, l).Ok?
    ensures Tallied(Next(db, l))
  {
    var db' := Next(db, l);
    assert DisputeTally(db, l.id);
    CreditedCounts(db.arbiters, db.votes, l.id, 0);
    forall d | d in db'.disputes ensures DisputeTally(db', d) {
      assert DisputeTally(db, d);
    }
    forall a | a in db'.arbiters ensures ArbiterTally(db', a) {
      assert ArbiterTally(db, a);
      CreditedCounts(db.arbiters, db.votes, l.id, a);
      CountSplit(db.votes, ByOnChainResolved(a, db'.disputes), ByOnChainResolved(a, db.disputes), ByOn(a, l.id));
    }
  }

  lemma CreateKeepsTallied(db: Db, l: Label)
    requires Tallied(db) && l.Create? && Enabled(db, l)
    ensures Tallied(Next(db, l))
  {
    QuietStepKeepsTallied(db, Next(db, l));
  }

  lemma StatusChangeKeepsTallied(db: Db, l: Label)
    requires Tallied(db) && (l.Update? || l.AdminResolve?)
    ensures Tallied(Next(db, l))
  {
    QuietStepKeepsTallied(db, Next(db, l));
  }

  lemma StepKeepsTallied(db: Db, l: Label)
    requires Tallied(db) && Enabled(db, l)
    ensures Tallied(Next(db, l))
  {
    match l
    case Create(_, _, _) => CreateKeepsTallied(db, l);
    case Update(_, _, _) => StatusChangeKeepsTallied(db, l);
    case AdminResolve(_, _) => StatusChangeKeepsTallied(db, l);
    case AddArbiter(_, _, _) => AddArbiterKeepsTallied(db, l);
    case SubmitVote(_, _, _, _) =>
      if Apply(db, l).Ok? {
        VoteKeepsTallied(db, l);
      }
    case ChainResolve(_, _, _) =>
      if Apply(db, l).Ok? {
        ChainResolveKeepsTallied(db, l);
      }
  }

  /**
   In every run of both services: one vote per arbiter and dispute, dispute counters equal to the
   stored votes per side, and arbiter totals equal to their votes and to their votes on disputes
   resolved through the blockchain service.
   */
  lemma {:induction false} RunIsTallied(states: seq<Db>, labels: seq<Label>, i: nat)
    requires IsRun(states, labels) && i < |states|
    ensures Tallied(states[i])
  {
    if i > 0 {
      RunIsTallied(states, labels, i - 1);
      StepKeepsTallied(states[i - 1], labels[i - 1]);
    }
  }

  // ---- Active disputes of an agreement --------------------------------------------------

  /** Whether the step reopens a rejected dispute of the agreement. */
  predicate Reopens(db: Db, l: Label, agreement: nat)
    requires ForeignKeys(db)
  {
    && l.Update? && l.status == Some(Open) && Apply(db, l).Ok?
    && db.disputes[l.id].status == Rejected && db.disputes[l.id].agreement == agreement
  }

  /** How many of the first `n` steps reopened a rejected dispute of the agreement. */
  ghost function Reopenings(states: seq<Db>, labels: seq<Label>, agreement: nat, n: nat): nat
    requires IsRun(states, labels) && n <= |labels|
  {
    if n == 0 then 0
    else
      assert labels[n - 1] in labels;
      Reopenings(states, labels, agreement, n - 1) + if Reopens(states[n - 1], labels[n - 1], agreement) then 1 else 0
  }

  /** Only a creation (from none) or a reopening adds an active dispute. */
  lemma StepBoundsActive(db: Db, l: Label, a: nat)
    requires ForeignKeys(db) && Enabled(db, l)
    ensures ForeignKeys(Next(db, l))
    ensures var now, before := ActiveDisputes(Next(db, l), a), ActiveDisputes(db, a);
            now <= before || (Reopens(db, l, a) && now <= before + {l.id}) || (before == {} && l.Create?
              && now <= {l.id})
  {
  }

  lemma CardinalityStep(now: set<nat>, before: set<nat>, x: nat)
    requires now <= before + {x}
    ensures |now| <= |before| + 1
    ensures now <= before ==> |now| <= |before|
  {
    SubsetSize(now, before + {x});
    if now <= before {
      SubsetSize(now, before);
    }
  }

  /** The active disputes of an agreement number at most one plus the reopenings so far. */
  lemma {:induction false} ActiveBoundedByReopenings(states: seq<Db>, labels: seq<Label>, a: nat, n: nat)
    requires IsRun(states, labels) && n <= |labels|
    ensures |ActiveDisputes(states[n], a)| <= 1 + Reopenings(states, labels, a, n)
  {
    if n == 0 {
      assert ActiveDisputes(states[0], a) == {};
    } else {
      ActiveBoundedByReopenings(states, labels, a, n - 1);
      var db, l := states[n - 1], labels[n - 1];
      StepBoundsActive(db, l, a);
      var now, before := ActiveDisputes(states[n], a), ActiveDisputes(db, a);
      if now <= before {
        CardinalityStep(now, before, 0);
      } else {
        CardinalityStep(now, before, l.id);
      }
    }
  }

  /** While an agreement had no reopening, each of its active disputes finds it DISPUTED. */
  ghost predicate Flagged(db: Db, a: nat) {
    forall d :: d in ActiveDisputes(db, a) ==> a in db.agreements && db.agreements[a].status == Disputed
  }

  lemma StepKeepsFlagged(db: Db, l: Label, a: nat)
    requires ForeignKeys(db) && Enabled(db, l) && Flagged(db, a) && !Reopens(db, l, a)
    requires |ActiveDisputes(db, a)| <= 1
    ensures Flagged(Next(db, l), a)
  {
    var db' := Next(db, l);
    forall d | d in ActiveDisputes(db', a) ensures a in db'.agreements && db'.agreements[a].status == Disputed {
      StepBoundsActive(db, l, a);
      if l.AdminResolve? && d in ActiveDisputes(db, a) && l.id in ActiveDisputes(db, a) {
        SubsetSize({d, l.id}, ActiveDisputes(db, a));
      }
    }
  }

  lemma {:induction false} ActiveDisputeMeansDisputed(states: seq<Db>, labels: seq<Label>, a: nat, n: nat)
    requires IsRun(states, labels) && n <= |labels| && Reopenings(states, labels, a, n) == 0
    ensures Flagged(states[n], a)
  {
    if n > 0 {
      ActiveDisputeMeansDisputed(states, labels, a, n - 1);
      ActiveBoundedByReopenings(states, labels, a, n - 1);
      StepKeepsFlagged(states[n - 1], labels[n - 1], a);
    }
  }

  // ---- Exactly when these fail ----------------------------------------------------------

  /** A rejected dispute is reopened while another dispute of the agreement is active. */
  predicate ReopensBesideActive(db: Db, l: Label, a: nat)
    requires ForeignKeys(db)
  {
    Reopens(db, l, a) && ActiveDisputes(db, a) != {}
  }

  lemma SecondActiveIff(db: Db, l: Label, a: nat)
    requires ForeignKeys(db) && Enabled(db, l) && |ActiveDisputes(db, a)| <= 1
    ensures |ActiveDisputes(Next(db, l), a)| > 1 <==> ReopensBesideActive(db, l, a)
  {
    var now, before := ActiveDisputes(Next(db, l), a), ActiveDisputes(db, a);
    StepBoundsActive(db, l, a);
    if ReopensBesideActive(db, l, a) {
      assert now == before + {l.id};
    } else if now <= before {
      SubsetSize(now, before);
    } else {
      SubsetSize(now, {l.id});
    }
  }

  ghost predicate StepReopensBesideActive(states: seq<Db>, labels: seq<Label>, a: nat, i: nat)
    requires IsRun(states, labels) && i < |labels|
  {
    assert labels[i] in labels;
    ReopensBesideActive(states[i], labels[i], a)
  }

  /**
   In every run an agreement has at most one active dispute throughout if and only if none is reopened
   beside an active one.
   */
  lemma {:induction false} OneActiveThroughoutIff(states: seq<Db>, labels: seq<Label>, a: nat, n: nat)
    requires IsRun(states, labels) && n <= |labels|
    ensures (forall i :: 0 <= i <= n ==> |ActiveDisputes(states[i], a)| <= 1)
            <==> forall i :: 0 <= i < n ==> !StepReopensBesideActive(states, labels, a, i)
  {
    if n == 0 {
      assert ActiveDisputes(states[0], a) == {};
    } else {
      OneActiveThroughoutIff(states, labels, a, n - 1);
      if |ActiveDisputes(states[n - 1], a)| <= 1 {
        SecondActiveIff(states[n - 1], labels[n - 1], a);
        assert StepReopensBesideActive(states, labels, a, n - 1) <==> |ActiveDisputes(states[n], a)| > 1;
      }
    }
  }

  /** A reopening finds the agreement not DISPUTED, or an admin resolves one active dispute and another stays active. */
  predicate LosesFlag(db: Db, l: Label, a: nat)
    requires ForeignKeys(db)
  {
    || (Reopens(db, l, a) && db.agreements[a].status != Disputed)
    || (l.AdminResolve? && Apply(db, l).Ok? && db.disputes[l.id].agreement == a && ActiveDisputes(db, a) - {l.id} != {})
  }

  lemma FlagIsLostIff(db: Db, l: Label, a: nat)
    requires ForeignKeys(db) && Enabled(db, l) && Flagged(db, a)
    ensures !Flagged(Next(db, l), a) <==> LosesFlag(db, l, a)
  {
    var db' := Next(db, l);
    if LosesFlag(db, l, a) {
      var d :| d in if l.AdminResolve? then ActiveDisputes(db, a) - {l.id} else {l.id};
      assert d in ActiveDisputes(db', a);
      assert l.AdminResolve? ==> l.id in ActiveDisputes(db, a);
    } else {
      forall d | d in ActiveDisputes(db', a) ensures a in db'.agreements && db'.agreements[a].status == Disputed {
        StepBoundsActive(db, l, a);
        assert l.AdminResolve? && Apply(db, l).Ok? ==> d in ActiveDisputes(db, a) - {l.id};
      }
    }
  }

  ghost predicate StepLosesFlag(states: seq<Db>, labels: seq<Label>, a: nat, i: nat)
    requires IsRun(states, labels) && i < |labels|
  {
    assert labels[i] in labels;
    LosesFlag(states[i], labels[i], a)
  }

  /** In every run each active dispute finds its agreement DISPUTED throughout if and only if no such step occurs. */
  lemma {:induction false} FlaggedThroughoutIff(states: seq<Db>, labels: seq<Label>, a: nat, n: nat)
    requires IsRun(states, labels) && n <= |labels|
    ensures (forall i :: 0 <= i <= n ==> Flagged(states[i], a))
            <==> forall i :: 0 <= i < n ==> !StepLosesFlag(states, labels, a, i)
  {
    if n > 0 {
      FlaggedThroughoutIff(states, labels, a, n - 1);
      if Flagged(states[n - 1], a) {
        FlagIsLostIff(states[n - 1], labels[n - 1], a);
        assert StepLosesFlag(states, labels, a, n - 1) <==> !Flagged(states[n], a);
      }
    }
  }

  lemma RejectedBesideOpen(db: Db, a: nat, first: nat, second: nat, admin: nat)
    returns (states: seq<Db>, labels: seq<Label>)
    requires db.disputes == map[] && db.arbiters == map[] && db.votes == [] && first != second
    requires a in db.agreements && admin in db.users && db.users[admin].isAdmin
    ensures IsRun(states, labels) && states[0] == db && |labels| == 4
    ensures states[4] == db.(disputes := map[first := Dispute(a, admin, Rejected, 0, 0, None),
                                             second := Dispute(a, admin, Open, 0, 0, None)],
                             agreements := db.agreements[a := db.agreements[a].(status := Disputed)])
  {
    assert ActiveDisputes(db, a) == {};
    states, labels := [db], [];
    states, labels := ExtendRun(states, labels, Create(first, a, admin));
    states, labels := ExtendRun(states, labels, Update(first, Some(UnderReview), admin));
    states, labels := ExtendRun(states, labels, Update(first, Some(Rejected), admin));
    assert states[3].disputes == map[first := Dispute(a, admin, Rejected, 0, 0, None)];
    assert ActiveDisputes(states[3], a) == {};
    states, labels := ExtendRun(states, labels, Create(second, a, admin));
    assert states[4].disputes == map[first := Dispute(a, admin, Rejected, 0, 0, None),
                                     second := Dispute(a, admin, Open, 0, 0, None)];
  }

  /**
   For every agreement and admin, a run that rejects one dispute, opens a second and reopens the first: two are
   active; when the second is resolved the first is still active on an agreement that is ACTIVE again.
   */
  lemma ReopeningAddsSecondActive(db: Db, a: nat, first: nat, second: nat, admin: nat)
    returns (states: seq<Db>, labels: seq<Label>)
    requires db.disputes == map[] && db.arbiters == map[] && db.votes == [] && first != second
    requires a in db.agreements && admin in db.users && db.users[admin].isAdmin
    ensures IsRun(states, labels) && states[0] == db && |labels| == 7
    ensures ActiveDisputes(states[5], a) == {first, second}
    ensures ActiveDisputes(states[7], a) == {first}
    ensures a in states[7].agreements && states[7].agreements[a].status == Active
  {
    states, labels := RejectedBesideOpen(db, a, first, second, admin);
    states, labels := ExtendRun(states, labels, Update(first, Some(Open), admin));
    states, labels := ExtendRun(states, labels, Update(second, Some(UnderReview), admin));
    states, labels := ExtendRun(states, labels, AdminResolve(second, admin));
  }

}
