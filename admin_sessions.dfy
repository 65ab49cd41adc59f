/**
 * The admin session manager (`adminSessions`): password sign-in mints a
 * session with a four-hour lifetime, and tokens can be validated, revoked,
 * extended and swept. The clock reading `now` and the random token bytes
 * are parameters.
 */
module AdminSessions {
  import opened Wrappers
  import opened Seqs
  import opened AgentTypes
  import opened Store
  import opened JsText
  import opened Helpers

  /** `SESSION_EXPIRY_MS`: four hours. */
  const SESSION_EXPIRY_MS: int := 4 * 60 * 60 * 1000

  const NOT_FOUND: string := "Session not found"
  const EXPIRED: string := "Session expired"

  function HasToken(token: string): Doc<AdminSession> -> bool {
    (s: Doc<AdminSession>) => s.fields.token == token
  }

  /** The session a token names: the first match on index `by_token`. */
  function FindByToken(t: Table<AdminSession>, token: string): (r: Option<Doc<AdminSession>>)
    ensures r.Some? ==> r.value.fields.token == token && r.value.id in t.docs && t.docs[r.value.id] == r.value.fields
  {
    First(t, HasToken(token))
  }

  /** No stored session carries the token exactly when the lookup finds nothing. */
  lemma FindByTokenNone(t: Table<AdminSession>, token: string)
    requires TableValid(t)
    ensures FindByToken(t, token).None? <==> forall id :: id in t.docs ==> t.docs[id].token != token
  {
    if FindByToken(t, token).None? {
      forall id | id in t.docs ensures t.docs[id].token != token {
        FirstNoneMeansNoMatch(t, HasToken(token), id);
      }
    }
  }

  /** The lookup returns the lowest-id session with that token. */
  lemma FindByTokenLowest(t: Table<AdminSession>, token: string, id: Id)
    requires TableValid(t)
    requires id in t.docs && t.docs[id].token == token
    ensures FindByToken(t, token).Some? && FindByToken(t, token).value.id <= id
  {
    WhereMember(t, HasToken(token), Doc(id, t.docs[id]));
  }

  // ---------------------------------------------------------------------
  // validate

  /** `validate`: a token-free view of a live session, or why there is none. */
  function Validate(t: Table<AdminSession>, token: string, now: int): (r: SessionValidation)
    ensures r.valid <==> r.session.Some?
    ensures r.valid <==> r.error.None?
    ensures r.error == Some(NOT_FOUND) <==> FindByToken(t, token).None?
    ensures r.error == Some(EXPIRED) <==>
      FindByToken(t, token).Some? && IsSessionExpired(FindByToken(t, token).value.fields.expiresAt, now)
    ensures r.valid ==>
      var v := r.session.value;
      && v.id in t.docs
      && t.docs[v.id] == AdminSession(token, v.userId, v.expiresAt, v.createdAt)
      && now < v.expiresAt
  {
    match FindByToken(t, token)
    case None => SessionValidation(false, None, Some(NOT_FOUND))
    case Some(s) =>
      if IsSessionExpired(s.fields.expiresAt, now) then SessionValidation(false, None, Some(EXPIRED))
      else SessionValidation(true, Some(SessionView(s.id, s.fields.userId, s.fields.expiresAt, s.fields.createdAt)), None)
  }

  /** "Session not found" means no stored session has the token at all. */
  lemma ValidateNotFound(t: Table<AdminSession>, token: string, now: int)
    requires TableValid(t)
    ensures Validate(t, token, now).error == Some(NOT_FOUND)
        <==> forall id :: id in t.docs ==> t.docs[id].token != token
  {
    FindByTokenNone(t, token);
  }

  // ---------------------------------------------------------------------
  // cleanupExpiredSessions

  /** The sessions still live at `now` (`expiresAt > now`). */
  function Surviving(docs: map<Id, AdminSession>, now: int): map<Id, AdminSession> {
    map k | k in docs && !IsSessionExpired(docs[k].expiresAt, now) :: docs[k]
  }

  /** The ids of the sessions that have expired by `now` (`expiresAt <= now`). */
  function ExpiredIds(docs: map<Id, AdminSession>, now: int): set<Id> {
    set k | k in docs && IsSessionExpired(docs[k].expiresAt, now)
  }

  /** Sweeping splits the table: the survivors and the expired ids add up to all sessions. */
  lemma SweepSizes(docs: map<Id, AdminSession>, now: int)
    ensures |Surviving(docs, now)| + |ExpiredIds(docs, now)| == |docs|
    ensures Surviving(docs, now) == docs - ExpiredIds(docs, now)
  {
    var gone := ExpiredIds(docs, now);
    SurvivingIsDifference(docs, now);
    assert (docs - gone).Keys == docs.Keys - gone;
    SubsetSplit(docs.Keys, gone);
  }

  lemma SurvivingIsDifference(docs: map<Id, AdminSession>, now: int)
    ensures Surviving(docs, now) == docs - ExpiredIds(docs, now)
  {
    assert Surviving(docs, now).Keys == (docs - ExpiredIds(docs, now)).Keys;
  }

  /** A subset and what is left of the set without it add up to the set. */
  lemma SubsetSplit(all: set<Id>, part: set<Id>)
    requires part <= all
    ensures |all - part| + |part| == |all|
  {
    assert (all - part) + part == all;
    assert (all - part) * part == {};
  }

  /** A live session inserted before the sweep survives it. */
  lemma SurvivingInsert(docs: map<Id, AdminSession>, id: Id, s: AdminSession, now: int)
    requires !IsSessionExpired(s.expiresAt, now)
    ensures Surviving(docs[id := s], now) == Surviving(docs, now)[id := s]
  {
  }

  /** The expired ids among documents already visited by the sweep. */
  function ExpiredAmong(ds: seq<Doc<AdminSession>>, now: int): set<Id> {
    set j | 0 <= j < |ds| && IsSessionExpired(ds[j].fields.expiresAt, now) :: ds[j].id
  }

  lemma ExpiredAmongSnoc(ds: seq<Doc<AdminSession>>, i: nat, now: int)
    requires i < |ds|
    ensures ExpiredAmong(ds[..i + 1], now)
         == ExpiredAmong(ds[..i], now) + (if IsSessionExpired(ds[i].fields.expiresAt, now) then {ds[i].id} else {})
  {
    var s, s' := ds[..i], ds[..i + 1];
    assert forall j :: 0 <= j < i ==> s'[j] == s[j];
    assert s'[i] == ds[i];
  }

  /** One turn of the sweep: the visited session is stored and not yet deleted. */
  lemma SweepStep(start: Table<AdminSession>, i: nat, now: int)
    requires i < |Collect(start)|
    ensures var all := Collect(start);
      var before, after := ExpiredAmong(all[..i], now), ExpiredAmong(all[..i + 1], now);
      && all[i].id in start.docs && all[i].id !in before
      && (IsSessionExpired(all[i].fields.expiresAt, now) ==> after == before + {all[i].id} && |after| == |before| + 1)
      && (!IsSessionExpired(all[i].fields.expiresAt, now) ==> after == before)
  {
    var all := Collect(start);
    ExpiredAmongSnoc(all, i, now);
    forall c | c in ExpiredAmong(all[..i], now) ensures c < all[i].id {
      var j :| 0 <= j < i && IsSessionExpired(all[..i][j].fields.expiresAt, now) && all[..i][j].id == c;
      assert all[j] == all[..i][j];
    }
  }

  lemma ExpiredAmongCollect(t: Table<AdminSession>, now: int)
    requires TableValid(t)
    ensures ExpiredAmong(Collect(t), now) == ExpiredIds(t.docs, now)
  {
    var all := Collect(t);
    forall k | k in ExpiredIds(t.docs, now) ensures k in ExpiredAmong(all, now) {
      CollectMember(t, Doc(k, t.docs[k]));
      var j :| 0 <= j < |all| && all[j] == Doc(k, t.docs[k]);
      assert IsSessionExpired(all[j].fields.expiresAt, now);
    }
  }

  /** Removing one more key from a map with some keys removed. */
  lemma RemoveOneMore(docs: map<Id, AdminSession>, gone: set<Id>, id: Id)
    ensures (docs - gone) - {id} == docs - (gone + {id})
  {
  }

  /**
   * `cleanupExpiredSessions`: deletes, in creation order, every session with
   * `expiresAt <= now`, and reports how many it deleted.
   */
  method CleanupExpiredSessions(db: Db, now: int) returns (deletedCount: nat)
    requires db.Valid()
    modifies db`sessions
    ensures db.Valid()
    ensures db.sessions.docs == Surviving(old(db.sessions.docs), now)
    ensures db.sessions.next == old(db.sessions.next)
    ensures deletedCount == |ExpiredIds(old(db.sessions.docs), now)|
    ensures deletedCount == |old(db.sessions.docs)| - |db.sessions.docs|
  {
    var start := db.sessions;
    var all := Collect(db.sessions);
    deletedCount := 0;
    var i := 0;
    while i < |all|
      invariant 0 <= i <= |all|
      invariant db.Valid()
      invariant db.sessions.next == start.next
      invariant ExpiredAmong(all[..i], now) <= start.docs.Keys
      invariant db.sessions.docs == start.docs - ExpiredAmong(all[..i], now)
      invariant deletedCount == |ExpiredAmong(all[..i], now)|
    {
      var s := all[i];
      SweepStep(start, i, now);
      if s.fields.expiresAt <= now {
        RemoveOneMore(start.docs, ExpiredAmong(all[..i], now), s.id);
        var removed := Delete(db.sessions, s.id);
        db.sessions := removed.value;
        deletedCount := deletedCount + 1;
      }
      i := i + 1;
    }
    assert all[..i] == all;
    ExpiredAmongCollect(start, now);
    SweepSizes(start.docs, now);
  }

  // ---------------------------------------------------------------------
  // authenticate

  datatype AuthError = PasswordNotConfigured | InvalidPassword

  datatype AuthSuccess = AuthSuccess(sessionId: Id, token: string, expiresAt: int)

  /** The session `authenticate` mints at `now`. */
  function NewSession(token: string, now: int): (s: AdminSession)
    ensures !IsSessionExpired(s.expiresAt, now)
    ensures s.expiresAt - s.createdAt == 14400000
  {
    AdminSession(token, "admin", now + SESSION_EXPIRY_MS, now)
  }

  /**
   * `authenticate`: checks the configured password, inserts a fresh session
   * and sweeps the expired ones (the cleanup the handler means to run).
   */
  method Authenticate(db: Db, configured: Option<string>, password: string, random: seq<byte>, now: int)
    returns (r: Result<AuthSuccess, AuthError>)
    requires db.Valid()
    requires |random| == 32
    modifies db`sessions
    ensures db.Valid()
    ensures r == Err(PasswordNotConfigured) <==> !Truthy(configured)
    ensures r == Err(InvalidPassword) <==> Truthy(configured) && password != configured.value
    ensures r.Err? ==> db.sessions == old(db.sessions)
    ensures r.Ok? ==> r.value.sessionId !in old(db.sessions.docs)
    ensures r.Ok? ==> r.value.token == GenerateSecureToken(random) && r.value.expiresAt == now + SESSION_EXPIRY_MS
    ensures r.Ok? ==>
      db.sessions.docs == Surviving(old(db.sessions.docs), now)[r.value.sessionId := NewSession(r.value.token, now)]
  {
    if !Truthy(configured) {
      return Err(PasswordNotConfigured);
    }
    if password != configured.value {
      return Err(InvalidPassword);
    }
    var token := GenerateSecureToken(random);
    var before := db.sessions.docs;
    var (t, id) := Insert(db.sessions, NewSession(token, now));
    db.sessions := t;
    var _ := CleanupExpiredSessions(db, now);
    SurvivingInsert(before, id, NewSession(token, now), now);
    return Ok(AuthSuccess(id, token, now + SESSION_EXPIRY_MS));
  }

  // ---------------------------------------------------------------------
  // invalidate

  /** The table after `invalidate(token)`: the session the token names is gone, if there was one. */
  function Invalidated(t: Table<AdminSession>, token: string): (r: Table<AdminSession>)
    ensures r.next == t.next && r.docs.Keys <= t.docs.Keys
    ensures forall id :: id in t.docs && t.docs[id].token != token ==> id in r.docs && r.docs[id] == t.docs[id]
    ensures FindByToken(t, token).None? ==> r == t
    ensures FindByToken(t, token).Some? ==> FindByToken(t, token).value.id !in r.docs && |r.docs| == |t.docs| - 1
  {
    match FindByToken(t, token)
    case None => t
    case Some(s) => Table(t.docs - {s.id}, t.next)
  }

  /** With a token carried by at most one session, invalidating again changes nothing. */
  lemma InvalidateIdempotent(t: Table<AdminSession>, token: string)
    requires TableValid(t)
    requires forall a, b :: a in t.docs && b in t.docs && t.docs[a].token == token && t.docs[b].token == token ==> a == b
    ensures Invalidated(Invalidated(t, token), token) == Invalidated(t, token)
  {
    var once := Invalidated(t, token);
    assert TableValid(once);
    forall id | id in once.docs ensures once.docs[id].token != token {
      FindByTokenNone(t, token);
      assert once.docs[id] == t.docs[id];
    }
    FindByTokenNone(once, token);
  }

  /** `invalidate`: deletes the session the token names; an unknown token is not an error. */
  method Invalidate(db: Db, token: string) returns (success: bool)
    requires db.Valid()
    modifies db`sessions
    ensures db.Valid()
    ensures success
    ensures db.sessions == Invalidated(old(db.sessions), token)
  {
    var session := FindByToken(db.sessions, token);
    if session.Some? {
      var removed := Delete(db.sessions, session.value.id);
      db.sessions := removed.value;
    }
    return true;
  }

  // ---------------------------------------------------------------------
  // getActiveSessions

  /** A session as `getActiveSessions` lists it: no token. */
  datatype ActiveSession = ActiveSession(id: Id, createdAt: int, expiresAt: int)

  function OfUser(userId: string): Doc<AdminSession> -> bool {
    (s: Doc<AdminSession>) => s.fields.userId == userId
  }

  function LiveAt(now: int): Doc<AdminSession> -> bool {
    (s: Doc<AdminSession>) => !IsSessionExpired(s.fields.expiresAt, now)
  }

  /** The live sessions of a user are stored, are the user's, and come in ascending id order. */
  lemma LiveSessionsStored(t: Table<AdminSession>, userId: string, now: int, live: seq<Doc<AdminSession>>)
    requires live == Filter(Where(t, OfUser(userId)), LiveAt(now))
    ensures forall i :: 0 <= i < |live| ==>
      && live[i].id in t.docs && t.docs[live[i].id] == live[i].fields
      && live[i].fields.userId == userId && now < live[i].fields.expiresAt
    ensures forall i, j :: 0 <= i < j < |live| ==> live[i].id < live[j].id
  {
    var mine := Where(t, OfUser(userId));
    forall i | 0 <= i < |live|
      ensures && live[i].id in t.docs && t.docs[live[i].id] == live[i].fields
              && live[i].fields.userId == userId && now < live[i].fields.expiresAt
    {
      FilterMember(mine, LiveAt(now), live[i]);
    }
    FilterSorted(mine, LiveAt(now), (a: Doc<AdminSession>, b: Doc<AdminSession>) => a.id < b.id);
  }

  /** `getActiveSessions`: the user's live sessions, oldest id first. */
  function GetActiveSessions(t: Table<AdminSession>, userId: string, now: int): (r: seq<ActiveSession>)
    ensures forall i :: 0 <= i < |r| ==>
      && r[i].id in t.docs
      && t.docs[r[i].id].userId == userId
      && t.docs[r[i].id].createdAt == r[i].createdAt
      && t.docs[r[i].id].expiresAt == r[i].expiresAt
      && now < r[i].expiresAt
    ensures forall i, j :: 0 <= i < j < |r| ==> r[i].id < r[j].id
  {
    var mine := Where(t, OfUser(userId));
    var live := Filter(mine, LiveAt(now));
    LiveSessionsStored(t, userId, now, live);
    seq(|live|, i requires 0 <= i < |live| => ActiveSession(live[i].id, live[i].fields.createdAt, live[i].fields.expiresAt))
  }

  /** Every live session of the user is listed. */
  lemma ActiveSessionsComplete(t: Table<AdminSession>, userId: string, now: int, id: Id)
    requires TableValid(t)
    requires id in t.docs && t.docs[id].userId == userId && now < t.docs[id].expiresAt
    ensures ActiveSession(id, t.docs[id].createdAt, t.docs[id].expiresAt) in GetActiveSessions(t, userId, now)
  {
    var d := Doc(id, t.docs[id]);
    var mine := Where(t, OfUser(userId));
    WhereMember(t, OfUser(userId), d);
    FilterMember(mine, LiveAt(now), d);
    var live := Filter(mine, LiveAt(now));
    var j :| 0 <= j < |live| && live[j] == d;
    assert GetActiveSessions(t, userId, now)[j] == ActiveSession(id, t.docs[id].createdAt, t.docs[id].expiresAt);
  }

  // ---------------------------------------------------------------------
  // extendSession

  datatype ExtendError = SessionNotFound | SessionAlreadyExpired

  /** The session with a new lifetime starting at `now`. */
  function Extended(s: AdminSession, now: int): (r: AdminSession)
    ensures r.token == s.token && r.userId == s.userId && r.createdAt == s.createdAt
    ensures !IsSessionExpired(r.expiresAt, now)
    ensures IsSessionExpired(r.expiresAt, now + SESSION_EXPIRY_MS)
  {
    s.(expiresAt := now + SESSION_EXPIRY_MS)
  }

  /** `extendSession`: refuses unknown and expired tokens, else restarts the lifetime. */
  method ExtendSession(db: Db, token: string, now: int) returns (r: Result<int, ExtendError>)
    requires db.Valid()
    modifies db`sessions
    ensures db.Valid()
    ensures r == Err(SessionNotFound) <==> FindByToken(old(db.sessions), token).None?
    ensures r == Err(SessionAlreadyExpired) <==>
      FindByToken(old(db.sessions), token).Some?
      && IsSessionExpired(FindByToken(old(db.sessions), token).value.fields.expiresAt, now)
    ensures r.Err? ==> db.sessions == old(db.sessions)
    ensures r.Ok? ==> r.value == now + SESSION_EXPIRY_MS
    ensures r.Ok? ==>
      var s := FindByToken(old(db.sessions), token).value;
      db.sessions == Table(old(db.sessions.docs)[s.id := Extended(s.fields, now)], old(db.sessions.next))
  {
    var session := FindByToken(db.sessions, token);
    if session.None? {
      return Err(SessionNotFound);
    }
    var s := session.value;
    if IsSessionExpired(s.fields.expiresAt, now) {
      return Err(SessionAlreadyExpired);
    }
    var patched := Replace(db.sessions, s.id, Extended(s.fields, now));
    db.sessions := patched.value;
    return Ok(now + SESSION_EXPIRY_MS);
  }

  /** After an extension the same token validates, for the same session, at that clock reading. */
  lemma ExtendedTokenValidates(t: Table<AdminSession>, token: string, now: int)
    requires TableValid(t)
    requires FindByToken(t, token).Some?
    ensures
      var s := FindByToken(t, token).value;
      var t' := Table(t.docs[s.id := Extended(s.fields, now)], t.next);
      Validate(t', token, now).valid && Validate(t', token, now).session.value.id == s.id
  {
    var s := FindByToken(t, token).value;
    var t' := Table(t.docs[s.id := Extended(s.fields, now)], t.next);
    FindByTokenLowest(t', token, s.id);
    var s' := FindByToken(t', token).value;
    if s'.id != s.id {
      FindByTokenLowest(t, token, s'.id);
    }
  }

  // ---------------------------------------------------------------------
  // getSessionStats

  datatype SessionStats = SessionStats(
    total: nat,
    active: nat,
    expired: nat,
    oldestActive: Option<int>,
    newestActive: Option<int>)

  function CreatedTimes(ss: seq<Doc<AdminSession>>): (r: seq<int>)
    ensures |r| == |ss| && forall i :: 0 <= i < |ss| ==> r[i] == ss[i].fields.createdAt
  {
    seq(|ss|, i requires 0 <= i < |ss| => ss[i].fields.createdAt)
  }

  /** `getSessionStats` at `now`. */
  function GetSessionStats(t: Table<AdminSession>, now: int): (r: SessionStats)
    requires TableValid(t)
    ensures r.total == |t.docs|
    ensures r.active == Count(Collect(t), LiveAt(now))
    ensures r.expired == Count(Collect(t), Not(LiveAt(now)))
    ensures r.total == r.active + r.expired
    ensures r.oldestActive.Some? <==> r.active > 0
    ensures r.newestActive.Some? <==> r.active > 0
  {
    var all := Collect(t);
    var active := Filter(all, LiveAt(now));
    var expired := Filter(all, Not(LiveAt(now)));
    CollectSize(t);
    FilterComplement(all, LiveAt(now));
    SessionStats(
      |all|, |active|, |expired|,
      if |active| > 0 then Some(MinOf(CreatedTimes(active))) else None,
      if |active| > 0 then Some(MaxOf(CreatedTimes(active))) else None)
  }

  /** Counting the expired sessions over a prefix of id-ordered documents gives as many as the sweep finds there. */
  lemma {:induction false} ExpiredCountPrefix(ds: seq<Doc<AdminSession>>, now: int, i: nat)
    requires i <= |ds|
    requires forall a, b :: 0 <= a < b < |ds| ==> ds[a].id < ds[b].id
    ensures Count(ds[..i], Not(LiveAt(now))) == |ExpiredAmong(ds[..i], now)|
  {
    if i == 0 {
      assert ds[..0] == [];
      assert ExpiredAmong(ds[..0], now) == {};
    } else {
      ExpiredCountPrefix(ds, now, i - 1);
      FreshAmong(ds, i - 1, now);
      ExpiredCountStep(ds, i - 1, now);
    }
  }

  /** In id-ordered documents, an id is not among the expired ids before it. */
  lemma FreshAmong(ds: seq<Doc<AdminSession>>, i: nat, now: int)
    requires i < |ds|
    requires forall a, b :: 0 <= a < b < |ds| ==> ds[a].id < ds[b].id
    ensures ds[i].id !in ExpiredAmong(ds[..i], now)
  {
    forall c | c in ExpiredAmong(ds[..i], now) ensures c < ds[i].id {
      var j :| 0 <= j < i && IsSessionExpired(ds[..i][j].fields.expiresAt, now) && ds[..i][j].id == c;
      assert ds[j] == ds[..i][j];
    }
  }

  /** One more document adds one to the count and one id to the expired set, or to neither. */
  lemma ExpiredCountStep(ds: seq<Doc<AdminSession>>, i: nat, now: int)
    requires i < |ds| && ds[i].id !in ExpiredAmong(ds[..i], now)
    requires Count(ds[..i], Not(LiveAt(now))) == |ExpiredAmong(ds[..i], now)|
    ensures Count(ds[..i + 1], Not(LiveAt(now))) == |ExpiredAmong(ds[..i + 1], now)|
  {
    ExpiredAmongSnoc(ds, i, now);
    assert ds[..i + 1] == ds[..i] + [ds[i]];
    FilterSnoc(ds[..i], ds[i], Not(LiveAt(now)));
  }

  /**
   * The statistics agree with the sweep: `active` is the number of sessions
   * `cleanupExpiredSessions` keeps at the same instant, `expired` the number it deletes.
   */
  lemma StatsMatchSweep(t: Table<AdminSession>, now: int)
    requires TableValid(t)
    ensures GetSessionStats(t, now).active == |Surviving(t.docs, now)|
    ensures GetSessionStats(t, now).expired == |ExpiredIds(t.docs, now)|
  {
    var all := Collect(t);
    ExpiredCountPrefix(all, now, |all|);
    assert all[..|all|] == all;
    ExpiredAmongCollect(t, now);
    SweepSizes(t.docs, now);
    CollectSize(t);
    FilterComplement(all, LiveAt(now));
  }

  /** The oldest and newest creation times bound those of every live session, and are attained. */
  lemma StatsBounds(t: Table<AdminSession>, now: int, id: Id)
    requires TableValid(t)
    requires id in t.docs && now < t.docs[id].expiresAt
    ensures GetSessionStats(t, now).oldestActive.Some?
    ensures GetSessionStats(t, now).oldestActive.value <= t.docs[id].createdAt <= GetSessionStats(t, now).newestActive.value
    ensures exists k :: k in t.docs && now < t.docs[k].expiresAt && t.docs[k].createdAt == GetSessionStats(t, now).oldestActive.value
    ensures exists k :: k in t.docs && now < t.docs[k].expiresAt && t.docs[k].createdAt == GetSessionStats(t, now).newestActive.value
  {
    var all := Collect(t);
    var active := Filter(all, LiveAt(now));
    var d := Doc(id, t.docs[id]);
    CollectMember(t, d);
    FilterMember(all, LiveAt(now), d);
    var j :| 0 <= j < |active| && active[j] == d;
    assert CreatedTimes(active)[j] == t.docs[id].createdAt;
    LiveAttains(t, now, MinOf(CreatedTimes(active)));
    LiveAttains(t, now, MaxOf(CreatedTimes(active)));
  }

  /** A creation time among the live sessions' is that of a stored live session. */
  lemma LiveAttains(t: Table<AdminSession>, now: int, m: int)
    requires m in CreatedTimes(Filter(Collect(t), LiveAt(now)))
    ensures exists k :: k in t.docs && now < t.docs[k].expiresAt && t.docs[k].createdAt == m
  {
    var active := Filter(Collect(t), LiveAt(now));
    var w :| 0 <= w < |active| && CreatedTimes(active)[w] == m;
    FilterMember(Collect(t), LiveAt(now), active[w]);
    assert active[w].id in t.docs && now < t.docs[active[w].id].expiresAt;
  }
}
