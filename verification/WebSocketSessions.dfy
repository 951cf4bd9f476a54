/**
 WebSocketSessionService: sessions and per-user id lists kept in a cache with expiry, and the
 cap on a user's live sessions. Each service method runs as one step at one instant.
 */
module WebSocketSessions {
  import opened Wrappers
  import opened Sets
  import opened TtlStore

  const SESSION_TTL := 24 * 60 * 60 * 1000
  const IDLE_TTL := 30 * 60 * 1000
  const MAX_CONNECTIONS := 5

  datatype Session = Session(user: string, connection: string, connectedAt: int, lastActivity: int)

  /** The two families of cache keys: sessions by id, and id lists by user. */
  datatype Sessions = Sessions(sessions: Store<Session>, lists: Store<seq<string>>)

  function Ids(s: Sessions, user: string, now: int): seq<string> {
    var l := Get(s.lists, user, now);
    if l.Some? then l.value else []
  }

  function Without(ids: seq<string>, id: string): (r: seq<string>)
    ensures forall x :: x in r <==> x in ids && x != id
    ensures |r| <= |ids|
  {
    if ids == [] then []
    else
      assert ids == [ids[0]] + ids[1..];
      (if ids[0] == id then [] else [ids[0]]) + Without(ids[1..], id)
  }

  /** `deleteSession`: a visible session also leaves its user's list, which is written back. */
  function Deleted(s: Sessions, id: string, now: int): Sessions {
    var found := Get(s.sessions, id, now);
    Sessions(Delete(s.sessions, id),
             if found.None? then s.lists
             else Put(s.lists, found.value.user, Without(Ids(s, found.value.user, now), id), SESSION_TTL, now))
  }

  /** The earliest connected among the visible sessions of a list; the first one in case of a tie. */
  function Oldest(s: Sessions, ids: seq<string>, now: int): (r: Option<string>)
    ensures r.Some? ==> r.value in ids && Live(s.sessions, r.value, now)
    ensures forall id :: id in ids && Live(s.sessions, id, now) ==>
              r.Some? && s.sessions[r.value].value.connectedAt <= s.sessions[id].value.connectedAt
  {
    if ids == [] then None
    else
      assert ids == [ids[0]] + ids[1..];
      var rest := Oldest(s, ids[1..], now);
      if !Live(s.sessions, ids[0], now) then rest
      else if rest.Some? && s.sessions[rest.value].value.connectedAt < s.sessions[ids[0]].value.connectedAt then rest
      else Some(ids[0])
  }

  function Evicted(s: Sessions, user: string, now: int): Sessions {
    var oldest := Oldest(s, Ids(s, user, now), now);
    if oldest.None? then s else Deleted(s, oldest.value, now)
  }

  function Created(s: Sessions, user: string, connection: string, id: string, now: int): Sessions {
    var t := if |Ids(s, user, now)| >= MAX_CONNECTIONS then Evicted(s, user, now) else s;
    Sessions(Put(t.sessions, id, Session(user, connection, now, now), SESSION_TTL, now),
             Put(t.lists, user, Ids(t, user, now) + [id], SESSION_TTL, now))
  }

  /** What remains of the idle time, capped by the absolute lifetime. */
  function ActivityTtl(x: Session, now: int): int {
    var remaining := SESSION_TTL - (now - x.connectedAt);
    if IDLE_TTL < remaining then IDLE_TTL else remaining
  }

  function Touched(s: Sessions, id: string, now: int): Sessions {
    var found := Get(s.sessions, id, now);
    if found.None? then s
    else if ActivityTtl(found.value, now) <= 0 then Deleted(s, id, now)
    else s.(sessions := Put(s.sessions, id, found.value.(lastActivity := now), ActivityTtl(found.value, now), now))
  }

  predicate Idle(x: Session, now: int) {
    now - x.lastActivity > IDLE_TTL
  }

  function Validated(s: Sessions, id: string, now: int): (Sessions, bool) {
    var found := Get(s.sessions, id, now);
    if found.None? then (s, false)
    else if Idle(found.value, now) then (Deleted(s, id, now), false)
    else (s, true)
  }

  function DeletedEach(s: Sessions, ids: seq<string>, now: int): Sessions
    decreases |ids|
  {
    if ids == [] then s else DeletedEach(Deleted(s, ids[0], now), ids[1..], now)
  }

  function DeletedAll(s: Sessions, user: string, now: int): Sessions {
    var t := DeletedEach(s, Ids(s, user, now), now);
    t.(lists := Delete(t.lists, user))
  }

  class WebSocketSessionService {
    var sessions: Store<Session>
    var lists: Store<seq<string>>

    constructor ()
      ensures View() == Sessions(map[], map[])
    {
      sessions, lists := map[], map[];
    }

    function View(): Sessions
      reads this
    {
      Sessions(sessions, lists)
    }

    method RemoveUserConnection(user: string, id: string, now: int)
      modifies this`lists
      ensures lists == Put(old(lists), user, Without(old(Ids(View(), user, now)), id), SESSION_TTL, now)
    {
      var ids := Ids(View(), user, now);
      lists := Put(lists, user, Without(ids, id), SESSION_TTL, now);
    }

    method DeleteSession(id: string, now: int)
      modifies this
      ensures View() == Deleted(old(View()), id, now)
    {
      var found := Get(sessions, id, now);
      if found.Some? {
        RemoveUserConnection(found.value.user, id, now);
      }
      sessions := sessions - {id};
    }

    method EvictOldestConnection(user: string, now: int)
      modifies this
      ensures View() == Evicted(old(View()), user, now)
    {
      var oldest := Oldest(View(), Ids(View(), user, now), now);
      if oldest.Some? {
        DeleteSession(oldest.value, now);
      }
    }

    method CreateSession(user: string, connection: string, id: string, now: int) returns (session: Session)
      modifies this
      ensures View() == Created(old(View()), user, connection, id, now)
      ensures session == Session(user, connection, now, now)
    {
      var ids := Ids(View(), user, now);
      if |ids| >= MAX_CONNECTIONS {
        EvictOldestConnection(user, now);
      }
      session := Session(user, connection, now, now);
      sessions := Put(sessions, id, session, SESSION_TTL, now);
      ids := Ids(View(), user, now);
      lists := Put(lists, user, ids + [id], SESSION_TTL, now);
    }

    method UpdateActivity(id: string, now: int)
      modifies this
      ensures View() == Touched(old(View()), id, now)
    {
      var found := Get(sessions, id, now);
      if found.None? {
        return;
      }
      var remaining := SESSION_TTL - (now - found.value.connectedAt);
      var ttl := if IDLE_TTL < remaining then IDLE_TTL else remaining;
      if ttl <= 0 {
        DeleteSession(id, now);
        return;
      }
      sessions := Put(sessions, id, found.value.(lastActivity := now), ttl, now);
    }

    method ValidateSession(id: string, now: int) returns (ok: bool)
      modifies this
      ensures (View(), ok) == Validated(old(View()), id, now)
    {
      var found := Get(sessions, id, now);
      if found.None? {
        return false;
      }
      if now - found.value.lastActivity > IDLE_TTL {
        DeleteSession(id, now);
        return false;
      }
      ok := true;
    }

    method DeleteAllUserSessions(user: string, now: int)
      modifies this
      ensures View() == DeletedAll(old(View()), user, now)
    {
      var ids := Ids(View(), user, now);
      ghost var whole := DeletedEach(View(), ids, now);
      for i := 0 to |ids|
        invariant DeletedEach(View(), ids[i..], now) == whole
      {
        assert ids[i..][0] == ids[i] && ids[i..][1..] == ids[i + 1..];
        DeleteSession(ids[i], now);
      }
      lists := lists - {user};
    }
  }

  // ---- Runs ----------------------------------------------------------------------------

  datatype State = State(now: int, s: Sessions, used: set<string>)

  datatype Label =
    | Tick(d: nat)
    | Create(user: string, connection: string, id: string)
    | Touch(id: string)
    | Remove(id: string)
    | Validate(id: string)
    | RemoveAll(user: string)

  /** Session ids are drawn fresh. */
  predicate Enabled(x: State, l: Label) {
    l.Create? ==> l.id !in x.used
  }

  function Next(x: State, l: Label): State {
    match l
    case Tick(d) => x.(now := x.now + d)
    case Create(user, connection, id) => x.(s := Created(x.s, user, connection, id, x.now), used := x.used + {id})
    case Touch(id) => x.(s := Touched(x.s, id, x.now))
    case Remove(id) => x.(s := Deleted(x.s, id, x.now))
    case Validate(id) => x.(s := Validated(x.s, id, x.now).0)
    case RemoveAll(user) => x.(s := DeletedAll(x.s, user, x.now))
  }

  ghost predicate IsRun(states: seq<State>, labels: seq<Label>) {
    && |states| == |labels| + 1
    && states[0].s == Sessions(map[], map[]) && states[0].used == {}
    && (forall i {:trigger labels[i]} :: 0 <= i < |labels| ==>
          Enabled(states[i], labels[i]) && states[i + 1] == Next(states[i], labels[i]))
  }

  /** The user's sessions that are still visible. */
  function LiveOf(s: Sessions, user: string, now: int): set<string> {
    set id | id in s.sessions && now < s.sessions[id].expiresAt && s.sessions[id].value.user == user
  }

  /** A live session ends within a day of its connection, and is in its user's list, which lasts that whole day. */
  ghost predicate Tracked(s: Sessions, id: string, now: int) {
    Live(s.sessions, id, now) ==>
      var x := s.sessions[id];
      && x.value.connectedAt <= x.value.lastActivity <= now
      && x.expiresAt <= x.value.connectedAt + SESSION_TTL
      && x.value.user in s.lists
      && x.value.connectedAt + SESSION_TTL <= s.lists[x.value.user].expiresAt
      && id in s.lists[x.value.user].value
  }

  /** Only known ids are stored or listed, and a listed session belongs to the list's user. */
  ghost predicate Owned(s: Sessions, used: set<string>) {
    && s.sessions.Keys <= used
    && (forall u, id :: u in s.lists && id in s.lists[u].value ==>
          id in used && (id in s.sessions ==> s.sessions[id].value.user == u))
  }

  ghost predicate Inv(x: State) {
    && (forall id :: Tracked(x.s, id, x.now))
    && Owned(x.s, x.used)
    && (forall u :: |LiveOf(x.s, u, x.now)| <= MAX_CONNECTIONS)
  }

  lemma {:induction false} SetOfSeq(ids: seq<string>, a: set<string>)
    requires forall id :: id in a ==> id in ids
    ensures |a| <= |ids|
  {
    if ids != [] {
      assert forall id :: id in a - {ids[0]} ==> id in ids[1..];
      SetOfSeq(ids[1..], a - {ids[0]});
    } else {
      assert a == {};
    }
  }

  /** Deletion removes exactly that session from the live ones and keeps the rest tracked. */
  lemma DeletedKeeps(s: Sessions, id: string, now: int, used: set<string>)
    requires Owned(s, used) && forall i :: Tracked(s, i, now)
    ensures Owned(Deleted(s, id, now), used) && forall i :: Tracked(Deleted(s, id, now), i, now)
    ensures forall u :: LiveOf(Deleted(s, id, now), u, now) == LiveOf(s, u, now) - {id}
  {
    var t := Deleted(s, id, now);
    forall i ensures Tracked(t, i, now) {
      assert Tracked(s, i, now);
    }
  }

  lemma {:induction false} DeletedEachKeeps(s: Sessions, ids: seq<string>, now: int, used: set<string>)
    requires Owned(s, used) && forall i :: Tracked(s, i, now)
    ensures var t := DeletedEach(s, ids, now);
            && Owned(t, used) && (forall i :: Tracked(t, i, now))
            && (forall u :: LiveOf(t, u, now) == LiveOf(s, u, now) - (set id | id in ids))
    decreases |ids|
  {
    if ids != [] {
      DeletedKeeps(s, ids[0], now, used);
      DeletedEachKeeps(Deleted(s, ids[0], now), ids[1..], now, used);
      assert (set id | id in ids) == {ids[0]} + (set id | id in ids[1..]);
    }
  }

  lemma LiveAreListed(s: Sessions, user: string, now: int)
    requires forall i :: Tracked(s, i, now)
    ensures forall id :: id in LiveOf(s, user, now) ==> id in Ids(s, user, now)
    ensures |LiveOf(s, user, now)| <= |Ids(s, user, now)|
  {
    forall id | id in LiveOf(s, user, now) ensures id in Ids(s, user, now) {
      assert Tracked(s, id, now);
    }
    SetOfSeq(Ids(s, user, now), LiveOf(s, user, now));
  }

  /** Before the new session is added, room is made: at most four of the user's sessions are live. */
  lemma RoomIsMade(s: Sessions, user: string, now: int, used: set<string>)
    requires Owned(s, used) && (forall i :: Tracked(s, i, now))
    requires forall u :: |LiveOf(s, u, now)| <= MAX_CONNECTIONS
    ensures var t := if |Ids(s, user, now)| >= MAX_CONNECTIONS then Evicted(s, user, now) else s;
            && Owned(t, used) && (forall i :: Tracked(t, i, now))
            && (forall u :: LiveOf(t, u, now) <= LiveOf(s, u, now))
            && |LiveOf(t, user, now)| < MAX_CONNECTIONS
  {
    LiveAreListed(s, user, now);
    if |Ids(s, user, now)| >= MAX_CONNECTIONS {
      var oldest := Oldest(s, Ids(s, user, now), now);
      if oldest.Some? {
        DeletedKeeps(s, oldest.value, now, used);
        assert oldest.value in LiveOf(s, user, now);
      } else {
        assert LiveOf(s, user, now) == {};
      }
    }
  }

  lemma AddedKeeps(t: Sessions, user: string, connection: string, id: string, now: int, used: set<string>)
    requires Owned(t, used) && id !in used && forall i :: Tracked(t, i, now)
    ensures var r := Sessions(Put(t.sessions, id, Session(user, connection, now, now), SESSION_TTL, now),
                              Put(t.lists, user, Ids(t, user, now) + [id], SESSION_TTL, now));
            && Owned(r, used + {id}) && (forall i :: Tracked(r, i, now))
            && (forall u :: LiveOf(r, u, now) == LiveOf(t, u, now) + if u == user then {id} else {})
  {
    var r := Sessions(Put(t.sessions, id, Session(user, connection, now, now), SESSION_TTL, now),
                      Put(t.lists, user, Ids(t, user, now) + [id], SESSION_TTL, now));
    forall i ensures Tracked(r, i, now) {
      assert Tracked(t, i, now);
    }
  }

  lemma CreateKeepsInv(x: State, l: Label)
    requires Inv(x) && l.Create? && Enabled(x, l)
    ensures Inv(Next(x, l))
  {
    var t := if |Ids(x.s, l.user, x.now)| >= MAX_CONNECTIONS then Evicted(x.s, l.user, x.now) else x.s;
    RoomIsMade(x.s, l.user, x.now, x.used);
    AddedKeeps(t, l.user, l.connection, l.id, x.now, x.used);
    forall u ensures |LiveOf(Next(x, l).s, u, x.now)| <= MAX_CONNECTIONS {
      SubsetSize(LiveOf(t, u, x.now), LiveOf(x.s, u, x.now));
    }
  }

  /** In a tracked state the remaining lifetime is positive, so the source's delete branch is never taken. */
  lemma ActivityNeverDeletes(s: Sessions, id: string, now: int)
    requires Tracked(s, id, now) && Live(s.sessions, id, now)
    ensures ActivityTtl(s.sessions[id].value, now) > 0
  {
  }

  lemma TouchKeepsInv(x: State, l: Label)
    requires Inv(x) && l.Touch?
    ensures Inv(Next(x, l))
  {
    var y := Next(x, l);
    assert Tracked(x.s, l.id, x.now);
    forall i ensures Tracked(y.s, i, y.now) {
      assert Tracked(x.s, i, x.now);
    }
    forall u ensures |LiveOf(y.s, u, y.now)| <= MAX_CONNECTIONS {
      assert LiveOf(y.s, u, y.now) == LiveOf(x.s, u, x.now);
    }
  }

  lemma TickKeepsInv(x: State, l: Label)
    requires Inv(x) && l.Tick?
    ensures Inv(Next(x, l))
  {
    var y := Next(x, l);
    forall i ensures Tracked(y.s, i, y.now) {
      assert Tracked(x.s, i, x.now);
    }
    forall u ensures |LiveOf(y.s, u, y.now)| <= MAX_CONNECTIONS {
      SubsetSize(LiveOf(y.s, u, y.now), LiveOf(x.s, u, x.now));
    }
  }

  lemma DeletionKeepsInv(x: State, t: Sessions)
    requires Inv(x) && Owned(t, x.used) && (forall i :: Tracked(t, i, x.now))
    requires forall u :: LiveOf(t, u, x.now) <= LiveOf(x.s, u, x.now)
    ensures Inv(x.(s := t))
  {
    forall u ensures |LiveOf(t, u, x.now)| <= MAX_CONNECTIONS {
      SubsetSize(LiveOf(t, u, x.now), LiveOf(x.s, u, x.now));
    }
  }

  /** Deleting all of a user's sessions leaves none of them live and touches nobody else's. */
  lemma DeletedAllKeeps(s: Sessions, user: string, now: int, used: set<string>)
    requires Owned(s, used) && forall i :: Tracked(s, i, now)
    ensures var t := DeletedAll(s, user, now);
            && Owned(t, used) && (forall i :: Tracked(t, i, now))
            && LiveOf(t, user, now) == {} && (forall u :: u != user ==> LiveOf(t, u, now) == LiveOf(s, u, now))
            && Ids(t, user, now) == []
  {
    var ids := Ids(s, user, now);
    var each := DeletedEach(s, ids, now);
    var t := DeletedAll(s, user, now);
    DeletedEachKeeps(s, ids, now, used);
    LiveAreListed(s, user, now);
    assert LiveOf(each, user, now) == {};
    forall i ensures Tracked(t, i, now) {
      assert Tracked(each, i, now) && i !in LiveOf(each, user, now);
    }
    forall u | u != user ensures LiveOf(t, u, now) == LiveOf(s, u, now) {
      assert LiveOf(t, u, now) == LiveOf(each, u, now);
      forall id | id in LiveOf(s, u, now) ensures id !in ids {
      }
    }
  }

  lemma StepKeepsInv(x: State, l: Label)
    requires Inv(x) && Enabled(x, l)
    ensures Inv(Next(x, l))
  {
    match l
    case Tick(_) => TickKeepsInv(x, l);
    case Create(_, _, _) => CreateKeepsInv(x, l);
    case Touch(_) => TouchKeepsInv(x, l);
    case Remove(id) =>
      DeletedKeeps(x.s, id, x.now, x.used);
      DeletionKeepsInv(x, Deleted(x.s, id, x.now));
    case Validate(id) =>
      DeletedKeeps(x.s, id, x.now, x.used);
      DeletionKeepsInv(x, Deleted(x.s, id, x.now));
    case RemoveAll(user) =>
      DeletedAllKeeps(x.s, user, x.now, x.used);
      DeletionKeepsInv(x, DeletedAll(x.s, user, x.now));
  }

  lemma {:induction false} RunKeepsInv(states: seq<State>, labels: seq<Label>, i: nat)
    requires IsRun(states, labels) && i < |states|
    ensures Inv(states[i])
  {
    if i == 0 {
      forall u ensures LiveOf(states[0].s, u, states[0].now) == {} {
      }
    } else {
      RunKeepsInv(states, labels, i - 1);
      StepKeepsInv(states[i - 1], labels[i - 1]);
    }
  }

  /** In every reachable state a user has at most five live sessions, each within 24 hours of its connection. */
  lemma AtMostFiveLiveSessions(states: seq<State>, labels: seq<Label>, i: nat, user: string)
    requires IsRun(states, labels) && i < |states|
    ensures |LiveOf(states[i].s, user, states[i].now)| <= 5
    ensures forall id :: id in LiveOf(states[i].s, user, states[i].now) ==>
              states[i].now < states[i].s.sessions[id].value.connectedAt + 24 * 3_600_000
  {
    RunKeepsInv(states, labels, i);
    forall id | id in LiveOf(states[i].s, user, states[i].now)
      ensures states[i].now < states[i].s.sessions[id].value.connectedAt + SESSION_TTL
    {
      assert Tracked(states[i].s, id, states[i].now);
    }
  }

  // ---- The tracked list is not capped -----------------------------------------------------

  lemma {:induction false} WithoutShrinks(ids: seq<string>, id: string)
    requires id in ids
    ensures |Without(ids, id)| < |ids|
  {
    if ids[0] != id {
      WithoutShrinks(ids[1..], id);
    }
  }

  /**
   With the cap reached, the list grows if and only if none of its sessions is live, since then nothing is
   evicted.
   */
  lemma ListGrowsIff(s: Sessions, user: string, connection: string, id: string, now: int, used: set<string>)
    requires Owned(s, used) && |Ids(s, user, now)| >= MAX_CONNECTIONS
    ensures |Ids(Created(s, user, connection, id, now), user, now)| > |Ids(s, user, now)|
            <==> forall x :: x in Ids(s, user, now) ==> !Live(s.sessions, x, now)
  {
    var ids := Ids(s, user, now);
    var oldest := Oldest(s, ids, now);
    if oldest.Some? {
      WithoutShrinks(ids, oldest.value);
      assert s.sessions[oldest.value].value.user == user;
      assert Ids(Evicted(s, user, now), user, now) == Without(ids, oldest.value);
    }
  }

  /** A list within the cap outgrows it if and only if it is full and none of its sessions is live. */
  lemma ListOutgrowsCapIff(s: Sessions, user: string, connection: string, id: string, now: int, used: set<string>)
    requires Owned(s, used) && |Ids(s, user, now)| <= MAX_CONNECTIONS
    ensures |Ids(Created(s, user, connection, id, now), user, now)| > MAX_CONNECTIONS
            <==> |Ids(s, user, now)| == MAX_CONNECTIONS && forall x :: x in Ids(s, user, now) ==>
                 !Live(s.sessions, x, now)
  {
    if |Ids(s, user, now)| == MAX_CONNECTIONS {
      ListGrowsIff(s, user, connection, id, now, used);
    }
  }

  lemma ExtendRun(states: seq<State>, labels: seq<Label>, l: Label) returns (states': seq<State>, labels': seq<Label>)
    requires IsRun(states, labels) && Enabled(states[|labels|], l)
    ensures IsRun(states', labels') && states' == states + [Next(states[|labels|], l)] && labels' == labels + [l]
  {
    states', labels' := states + [Next(states[|labels|], l)], labels + [l];
    forall i | 0 <= i < |labels'|
      ensures Enabled(states'[i], labels'[i]) && states'[i + 1] == Next(states'[i], labels'[i])
    {
      if i < |labels| {
        assert labels'[i] == labels[i] && states'[i] == states[i] && states'[i + 1] == states[i + 1];
      }
    }
  }

  /** The user's list is exactly `ids`, and none of these sessions is live. */
  ghost predicate Stale(x: State, user: string, ids: seq<string>) {
    && Ids(x.s, user, x.now) == ids && (forall id :: id in x.used ==> id in ids)
    && (forall id :: !Live(x.s.sessions, id, x.now))
  }

  /** A session connected to, used once at that instant and then left alone expires; its id stays listed. */
  lemma AbandonedSession(x: State, user: string, connection: string, id: string, ids: seq<string>)
    requires Stale(x, user, ids) && id !in ids
    ensures var y := Next(Next(Next(x, Create(user, connection, id)), Touch(id)), Tick(IDLE_TTL));
            Stale(y, user, ids + [id])
  {
    var one := Next(x, Create(user, connection, id));
    assert Oldest(x.s, ids, x.now).None?;
    assert Ids(one.s, user, one.now) == ids + [id];
    var two := Next(one, Touch(id));
    assert two.s.sessions == x.s.sessions[id := Timed(Session(user, connection, x.now, x.now), x.now + IDLE_TTL)];
    assert two.s.lists == one.s.lists;
    var late := x.now + IDLE_TTL;
    forall i ensures !Live(two.s.sessions, i, late) {
      assert i != id ==> !Live(x.s.sessions, i, x.now);
    }
  }

  /**
   For every user and every list of distinct ids, however long, a run whose tracked list is that list,
   with no live session.
   */
  lemma {:induction false} StaleListOutgrowsCap(user: string, connection: string, ids: seq<string>, start: int)
    returns (states: seq<State>, labels: seq<Label>)
    requires forall i, j :: 0 <= i < j < |ids| ==> ids[i] != ids[j]
    ensures IsRun(states, labels) && states[0].now == start && Stale(states[|labels|], user, ids)
  {
    if ids == [] {
      states, labels := [State(start, Sessions(map[], map[]), {})], [];
    } else {
      var last := |ids| - 1;
      states, labels := StaleListOutgrowsCap(user, connection, ids[..last], start);
      assert ids[..last] + [ids[last]] == ids;
      AbandonedSession(states[|labels|], user, connection, ids[last], ids[..last]);
      states, labels := ExtendRun(states, labels, Create(user, connection, ids[last]));
      states, labels := ExtendRun(states, labels, Touch(ids[last]));
      states, labels := ExtendRun(states, labels, Tick(IDLE_TTL));
    }
  }

  // ---- Which sessions are valid -----------------------------------------------------------

  /**
   `validateSession` answers true exactly for a live session that was active in the last 30 minutes; else the
   session is gone.
   */
  lemma ValidIff(s: Sessions, id: string, now: int)
    ensures Validated(s, id, now).1
            <==> Live(s.sessions, id, now) && now - s.sessions[id].value.lastActivity <= 30 * 60_000
    ensures Validated(s, id, now).1 ==> Validated(s, id, now).0 == s
    ensures !Validated(s, id, now).1 ==> !Live(Validated(s, id, now).0.sessions, id, now)
  {
  }

  /** The session of `user` is live and counts as active until `until`. */
  ghost predicate ActiveUntil(s: Sessions, id: string, user: string, connectedAt: int, until: int) {
    && id in s.sessions && s.sessions[id].value.user == user && s.sessions[id].value.connectedAt == connectedAt
    && until <= s.sessions[id].expiresAt && until <= s.sessions[id].value.lastActivity + IDLE_TTL
  }

  /** 30 minutes on, or the end of the session's 24 hours if that is earlier. */
  function ActiveEnd(x: Session, now: int): int {
    var last := x.connectedAt + 24 * 3_600_000;
    if now + 30 * 60_000 < last then now + 30 * 60_000 else last
  }

  /** Activity keeps a session for the idle time, but never beyond 24 hours from its connection. */
  lemma TouchActivates(s: Sessions, id: string, now: int)
    requires Live(s.sessions, id, now) && Tracked(s, id, now)
    ensures var x := s.sessions[id].value;
            var end := ActiveEnd(x, now);
            && ActiveUntil(Touched(s, id, now), id, x.user, x.connectedAt, end)
            && Touched(s, id, now).sessions[id].expiresAt == end
            && Touched(s, id, now).sessions[id].value.lastActivity == now
            && Touched(s, id, now).lists == s.lists
  {
  }

  /** A new session is active for the idle time and stored for 24 hours. */
  lemma CreationActivates(s: Sessions, user: string, connection: string, id: string, now: int)
    ensures var t := Created(s, user, connection, id, now);
            && ActiveUntil(t, id, user, now, now + IDLE_TTL) && t.sessions[id].expiresAt == now + SESSION_TTL
            && t.sessions[id].value == Session(user, connection, now, now)
  {
  }

  /**
   The step may end the session: it removes it or all of its user's, or connects the user again, which may
   evict it.
   */
  predicate MayEnd(l: Label, id: string, user: string) {
    match l
    case Remove(i) => i == id
    case RemoveAll(u) => u == user
    case Create(u, _, i) => u == user || i == id
    case _ => false
  }

  lemma StepKeepsActive(x: State, l: Label, id: string, user: string, connectedAt: int, until: int)
    requires Inv(x) && Enabled(x, l) && !MayEnd(l, id, user)
    requires x.now < until && until <= connectedAt + SESSION_TTL && ActiveUntil(x.s, id, user, connectedAt, until)
    ensures ActiveUntil(Next(x, l).s, id, user, connectedAt, until)
  {
    assert Tracked(x.s, id, x.now);
    match l
    case RemoveAll(other) => DeletedEachSpares(x.s, Ids(x.s, other, x.now), x.now, id);
    case _ =>
  }

  lemma {:induction false} DeletedEachSpares(s: Sessions, ids: seq<string>, now: int, id: string)
    requires id !in ids
    ensures id in s.sessions ==>
              id in DeletedEach(s, ids, now).sessions && DeletedEach(s, ids, now).sessions[id] == s.sessions[id]
    decreases |ids|
  {
    if ids != [] {
      DeletedEachSpares(Deleted(s, ids[0], now), ids[1..], now, id);
    }
  }

  lemma {:induction false} ClockIsMonotone(states: seq<State>, labels: seq<Label>, i: nat, j: nat)
    requires IsRun(states, labels) && i <= j < |states|
    ensures states[i].now <= states[j].now
  {
    if i < j {
      ClockIsMonotone(states, labels, i, j - 1);
      assert states[j] == Next(states[j - 1], labels[j - 1]);
    }
  }

  lemma {:induction false} ActiveStays(
    states: seq<State>, labels: seq<Label>, i: nat, j: nat, id: string, user: string, connectedAt: int, until: int)
    requires IsRun(states, labels) && i <= j < |states| && states[j].now < until && until <= connectedAt + SESSION_TTL
    requires ActiveUntil(states[i].s, id, user, connectedAt, until)
    requires forall k :: i <= k < j ==> !MayEnd(labels[k], id, user)
    ensures ActiveUntil(states[j].s, id, user, connectedAt, until)
  {
    if i < j {
      ClockIsMonotone(states, labels, j - 1, j);
      ActiveStays(states, labels, i, j - 1, id, user, connectedAt, until);
      RunKeepsInv(states, labels, j - 1);
      assert Enabled(states[j - 1], labels[j - 1]) && states[j] == Next(states[j - 1], labels[j - 1]);
      StepKeepsActive(states[j - 1], labels[j - 1], id, user, connectedAt, until);
    }
  }

  /**
   In every run a session in use stays valid: after activity on it, and without a step that may end it, it is
   validated at every later instant before 30 minutes have passed and before its 24 hours end.
   */
  lemma ActiveSessionIsValid(states: seq<State>, labels: seq<Label>, i: nat, j: nat, id: string)
    requires IsRun(states, labels) && i < j < |states| && labels[i] == Touch(id)
    requires Live(states[i].s.sessions, id, states[i].now)
    requires var x := states[i].s.sessions[id].value;
             && states[j].now < states[i].now + 30 * 60_000 && states[j].now < x.connectedAt + 24 * 3_600_000
             && forall k :: i < k < j ==> !MayEnd(labels[k], id, x.user)
    ensures Validated(states[j].s, id, states[j].now) == (states[j].s, true)
  {
    var x := states[i].s.sessions[id].value;
    var now := states[i].now;
    var end := ActiveEnd(x, now);
    RunKeepsInv(states, labels, i);
    assert Tracked(states[i].s, id, now);
    TouchActivates(states[i].s, id, now);
    assert states[i + 1] == Next(states[i], labels[i]);
    ActiveStays(states, labels, i + 1, j, id, x.user, x.connectedAt, end);
  }

  /** The same for a new session, without any activity on it. */
  lemma NewSessionIsValid(states: seq<State>, labels: seq<Label>, i: nat, j: nat)
    requires IsRun(states, labels) && i < j < |states| && labels[i].Create?
    requires states[j].now < states[i].now + 30 * 60_000
    requires forall k :: i < k < j ==> !MayEnd(labels[k], labels[i].id, labels[i].user)
    ensures Validated(states[j].s, labels[i].id, states[j].now) == (states[j].s, true)
  {
    var now := states[i].now;
    CreationActivates(states[i].s, labels[i].user, labels[i].connection, labels[i].id, now);
    assert states[i + 1] == Next(states[i], labels[i]);
    ActiveStays(states, labels, i + 1, j, labels[i].id, labels[i].user, now, now + IDLE_TTL);
  }

  /** The sort by connection instant is stable: of several sessions connected first, the one listed first is taken. */
  lemma {:induction false} OldestIsListedFirst(s: Sessions, ids: seq<string>, now: int) returns (k: nat)
    requires Oldest(s, ids, now).Some?
    ensures k < |ids| && ids[k] == Oldest(s, ids, now).value && Live(s.sessions, ids[k], now)
    ensures forall j :: 0 <= j < k && Live(s.sessions, ids[j], now) ==>
              s.sessions[ids[k]].value.connectedAt < s.sessions[ids[j]].value.connectedAt
  {
    if Oldest(s, ids, now) == Some(ids[0]) && Live(s.sessions, ids[0], now) {
      k := 0;
    } else {
      k := OldestIsListedFirst(s, ids[1..], now);
      k := k + 1;
      assert forall j :: 1 <= j < |ids| ==> ids[j] == ids[1..][j - 1];
    }
  }

  /** An eviction takes the session connected first among the user's live ones, and no other. */
  lemma EvictsTheOldest(s: Sessions, user: string, now: int, used: set<string>)
    requires Owned(s, used) && (forall i :: Tracked(s, i, now)) && LiveOf(s, user, now) != {}
    ensures exists id :: id in LiveOf(s, user, now)
              && LiveOf(Evicted(s, user, now), user, now) == LiveOf(s, user, now) - {id}
              && forall x :: x in LiveOf(s, user, now) ==>
                   s.sessions[id].value.connectedAt <= s.sessions[x].value.connectedAt
  {
    LiveAreListed(s, user, now);
    var oldest := Oldest(s, Ids(s, user, now), now);
    var x :| x in LiveOf(s, user, now);
    assert x in Ids(s, user, now) && Live(s.sessions, x, now);
    DeletedKeeps(s, oldest.value, now, used);
    assert oldest.value in LiveOf(s, user, now);
  }
}
