/** Rotating refresh tokens, after backend/app/modules/auth/service.py. Requests are atomic.
    A raw token is a fresh value and its digest is injective, so the token of a session is
    the session's place in the table. */
module Sessions {

  import opened Wrappers

  datatype Session = Session(
    user: nat, family: nat, expiresAt: int, revokedAt: Option<int>, replacedBy: Option<nat>)
  {
    predicate Revoked() { revokedAt.Some? }
    predicate IsActive(now: int) { revokedAt.None? && expiresAt > now }
  }

  datatype State = State(sessions: seq<Session>, nextFamily: nat, activeUsers: set<nat>)

  datatype Refusal = AccountDisabled | InvalidToken | TokenReused | TokenExpired

  datatype Response = Issued(token: nat) | Refused(why: Refusal) | Done

  datatype Request =
    | SignIn(user: nat)
    | Refresh(token: nat)
    | Logout(token: nat)
    | LogoutAll(user: nat)
    | ResetPassword(user: nat)
    | SetAccount(user: nat, enabled: bool)

  const TTL_SECONDS := 30 * 86400

  // ----- specification ---------------------------------------------------

  /** Stamp every unrevoked session that is chosen. */
  function Revoke(s: seq<Session>, chosen: Session -> bool, now: int): (r: seq<Session>)
    ensures |r| == |s|
    ensures forall i :: 0 <= i < |s| ==>
              r[i] == if chosen(s[i]) && !s[i].Revoked() then s[i].(revokedAt := Some(now)) else s[i]
  {
    if s == [] then []
    else
      var x := s[0];
      [if chosen(x) && !x.Revoked() then x.(revokedAt := Some(now)) else x] + Revoke(s[1..], chosen, now)
  }

  function RevokeFamily(s: seq<Session>, family: nat, now: int): seq<Session> {
    Revoke(s, (x: Session) => x.family == family, now)
  }

  function RevokeUser(s: seq<Session>, user: nat, now: int): seq<Session> {
    Revoke(s, (x: Session) => x.user == user, now)
  }

  function Issue(s: seq<Session>, user: nat, family: nat, now: int): seq<Session> {
    s + [Session(user, family, now + TTL_SECONDS, None, None)]
  }

  function Rotate(s: State, token: nat, now: int): (State, Response) {
    if token >= |s.sessions| then (s, Refused(InvalidToken))
    else
      var record := s.sessions[token];
      if record.Revoked() then
        (s.(sessions := RevokeFamily(s.sessions, record.family, now)), Refused(TokenReused))
      else if !record.IsActive(now) then (s, Refused(TokenExpired))
      else if record.user !in s.activeUsers then (s, Refused(AccountDisabled))
      else
        var successor := |s.sessions|;
        var issued := Issue(s.sessions, record.user, record.family, now);
        (s.(sessions := issued[token := record.(revokedAt := Some(now), replacedBy := Some(successor))]),
         Issued(successor))
  }

  function Step(s: State, request: Request, now: int): (State, Response) {
    match request
    case SignIn(user) =>
      if user !in s.activeUsers then (s, Refused(AccountDisabled))
      else (State(Issue(s.sessions, user, s.nextFamily, now), s.nextFamily + 1, s.activeUsers), Issued(|s.sessions|))
    case Refresh(token) => Rotate(s, token, now)
    case Logout(token) =>
      if token < |s.sessions| && !s.sessions[token].Revoked()
      then (s.(sessions := s.sessions[token := s.sessions[token].(revokedAt := Some(now))]), Done)
      else (s, Done)
    case LogoutAll(user) => (s.(sessions := RevokeUser(s.sessions, user, now)), Done)
    case ResetPassword(user) => (s.(sessions := RevokeUser(s.sessions, user, now)), Done)
    case SetAccount(user, enabled) =>
      (s.(activeUsers := if enabled then s.activeUsers + {user} else s.activeUsers - {user}), Done)
  }

  datatype Timed = Timed(request: Request, now: int)

  function Run(s: State, requests: seq<Timed>): State
    decreases |requests|
  {
    if requests == [] then s
    else Run(Step(s, requests[0].request, requests[0].now).0, requests[1..])
  }

  const EMPTY := State([], 0, {})

  // ----- the service -----------------------------------------------------

  class AuthService {
    var sessions: seq<Session>
    var nextFamily: nat
    var activeUsers: set<nat>

    ghost function Now(): State
      reads this
    {
      State(sessions, nextFamily, activeUsers)
    }

    constructor ()
      ensures Now() == EMPTY
    {
      sessions, nextFamily, activeUsers := [], 0, {};
    }

    /** Add one session, in the given family or in a new one. */
    method IssueSession(user: nat, family: Option<nat>, now: int) returns (token: nat)
      modifies this
      ensures token == |old(sessions)| && activeUsers == old(activeUsers)
      ensures sessions == Issue(old(sessions), user, if family.Some? then family.value else old(nextFamily), now)
      ensures nextFamily == old(nextFamily) + if family.Some? then 0 else 1
    {
      token := |sessions|;
      var f := nextFamily;
      match family {
        case Some(given) => f := given;
        case None => nextFamily := nextFamily + 1;
      }
      sessions := sessions + [Session(user, f, now + TTL_SECONDS, None, None)];
    }

    method Login(user: nat, now: int) returns (response: Response)
      modifies this
      ensures (Now(), response) == Step(old(Now()), SignIn(user), now)
    {
      if user !in activeUsers {
        return Refused(AccountDisabled);
      }
      var token := IssueSession(user, None, now);
      response := Issued(token);
    }

    method RotateSession(token: nat, now: int) returns (response: Response)
      modifies this
      ensures (Now(), response) == Step(old(Now()), Refresh(token), now)
    {
      if token >= |sessions| {
        return Refused(InvalidToken);
      }
      var record := sessions[token];
      if record.Revoked() {
        sessions := RevokeFamily(sessions, record.family, now);
        return Refused(TokenReused);
      }
      if !record.IsActive(now) {
        return Refused(TokenExpired);
      }
      if record.user !in activeUsers {
        return Refused(AccountDisabled);
      }
      var successor := IssueSession(record.user, Some(record.family), now);
      sessions := sessions[token := sessions[token].(revokedAt := Some(now), replacedBy := Some(successor))];
      response := Issued(successor);
    }

    method RevokeSession(token: nat, now: int)
      modifies this
      ensures Now() == Step(old(Now()), Logout(token), now).0
    {
      if token < |sessions| && !sessions[token].Revoked() {
        sessions := sessions[token := sessions[token].(revokedAt := Some(now))];
      }
    }

    method RevokeAllSessions(user: nat, now: int)
      modifies this
      ensures Now() == Step(old(Now()), LogoutAll(user), now).0
    {
      sessions := RevokeUser(sessions, user, now);
    }
  }

  // ----- what every request keeps ----------------------------------------

  /** `j` is the next session of `i`'s family. */
  ghost predicate IsNext(s: seq<Session>, i: nat, j: nat) {
    i < j < |s| && s[j].family == s[i].family && forall k :: i < k < j ==> s[k].family != s[i].family
  }

  ghost predicate IsNewest(s: seq<Session>, i: nat) {
    i < |s| && forall k :: i < k < |s| ==> s[k].family != s[i].family
  }

  /** A session is linked to the next of its family once there is one, and only the newest
      of a family may be unrevoked. */
  ghost predicate Linked(s: seq<Session>) {
    forall i :: 0 <= i < |s| ==>
      match s[i].replacedBy
      case None => IsNewest(s, i)
      case Some(j) => s[i].Revoked() && IsNext(s, i, j)
  }

  ghost predicate Valid(s: State) {
    && Linked(s.sessions)
    && (forall i :: 0 <= i < |s.sessions| ==> s.sessions[i].family < s.nextFamily)
    && (forall i, j :: 0 <= i < j < |s.sessions| && s.sessions[i].family == s.sessions[j].family ==>
          s.sessions[i].user == s.sessions[j].user)
  }

  /** Revocation and family, user and link of every session, as the chain sees them. */
  ghost predicate SameButRevoked(s: seq<Session>, r: seq<Session>) {
    |r| == |s| && forall i :: 0 <= i < |s| ==>
      && r[i].user == s[i].user && r[i].family == s[i].family && r[i].replacedBy == s[i].replacedBy
      && (s[i].Revoked() ==> r[i].Revoked())
  }

  lemma RevokingKeepsLinks(s: seq<Session>, r: seq<Session>)
    requires Linked(s) && SameButRevoked(s, r)
    ensures Linked(r)
  {
    forall i | 0 <= i < |r|
      ensures match r[i].replacedBy
              case None => IsNewest(r, i)
              case Some(j) => r[i].Revoked() && IsNext(r, i, j)
    {
      assert s[i].replacedBy.None? ==> IsNewest(s, i);
      assert s[i].replacedBy.Some? ==> IsNext(s, i, s[i].replacedBy.value);
    }
  }

  lemma RotatingKeepsLinks(s: State, token: nat, now: int)
    requires Valid(s) && token < |s.sessions| && !s.sessions[token].Revoked()
    requires s.sessions[token].IsActive(now) && s.sessions[token].user in s.activeUsers
    ensures Valid(Rotate(s, token, now).0)
  {
    var a, r := s.sessions, Rotate(s, token, now).0.sessions;
    assert IsNewest(a, token);
    forall i | 0 <= i < |r|
      ensures match r[i].replacedBy
              case None => IsNewest(r, i)
              case Some(j) => r[i].Revoked() && IsNext(r, i, j)
    {
      if i < |a| && i != token {
        match a[i].replacedBy
        case None =>
          assert IsNewest(a, i);
          assert a[i].family != a[token].family;
        case Some(j) =>
          assert IsNext(a, i, j);
      }
    }
  }

  lemma SigningInKeepsLinks(s: State, user: nat, now: int)
    requires Valid(s)
    ensures Valid(State(Issue(s.sessions, user, s.nextFamily, now), s.nextFamily + 1, s.activeUsers))
  {
    var a, r := s.sessions, Issue(s.sessions, user, s.nextFamily, now);
    forall i | 0 <= i < |r|
      ensures match r[i].replacedBy
              case None => IsNewest(r, i)
              case Some(j) => r[i].Revoked() && IsNext(r, i, j)
    {
      if i < |a| {
        match a[i].replacedBy
        case None => assert IsNewest(a, i);
        case Some(j) => assert IsNext(a, i, j);
      }
    }
  }

  lemma RevokingKeepsValid(s: State, r: seq<Session>)
    requires Valid(s) && SameButRevoked(s.sessions, r)
    ensures Valid(s.(sessions := r))
  {
    RevokingKeepsLinks(s.sessions, r);
  }

  lemma RefreshKeepsValid(s: State, token: nat, now: int)
    requires Valid(s)
    ensures Valid(Rotate(s, token, now).0)
  {
    if token < |s.sessions| && s.sessions[token].Revoked() {
      RevokingKeepsValid(s, RevokeFamily(s.sessions, s.sessions[token].family, now));
    } else if token < |s.sessions| && s.sessions[token].IsActive(now) && s.sessions[token].user in s.activeUsers {
      RotatingKeepsLinks(s, token, now);
    }
  }

  lemma StepKeepsValid(s: State, request: Request, now: int)
    requires Valid(s)
    ensures Valid(Step(s, request, now).0)
  {
    match request
    case SignIn(user) => if user in s.activeUsers { SigningInKeepsLinks(s, user, now); }
    case Refresh(token) => RefreshKeepsValid(s, token, now);
    case Logout(_) => RevokingKeepsValid(s, Step(s, request, now).0.sessions);
    case LogoutAll(user) => RevokingKeepsValid(s, RevokeUser(s.sessions, user, now));
    case ResetPassword(user) => RevokingKeepsValid(s, RevokeUser(s.sessions, user, now));
    case SetAccount(_, _) =>
  }

  /** A family with sessions, all of them revoked. */
  ghost predicate Dead(s: State, family: nat) {
    family < s.nextFamily &&
    forall i :: 0 <= i < |s.sessions| && s.sessions[i].family == family ==> s.sessions[i].Revoked()
  }

  /** Sessions are only added, keep their family and user, and never come back from revocation. */
  ghost predicate Grows(s: State, s': State) {
    && |s.sessions| <= |s'.sessions| && s.nextFamily <= s'.nextFamily
    && forall i :: 0 <= i < |s.sessions| ==>
         && s'.sessions[i].family == s.sessions[i].family
         && s'.sessions[i].user == s.sessions[i].user
         && (s.sessions[i].Revoked() ==> s'.sessions[i].Revoked())
  }

  lemma StepGrows(s: State, request: Request, now: int)
    ensures Grows(s, Step(s, request, now).0)
  {}

  lemma StepKeepsDead(s: State, request: Request, now: int, family: nat)
    requires Dead(s, family)
    ensures Dead(Step(s, request, now).0, family)
  {
    StepGrows(s, request, now);
  }

  // ----- every run -------------------------------------------------------

  lemma {:induction false} RunKeepsValid(s: State, requests: seq<Timed>)
    requires Valid(s)
    ensures Valid(Run(s, requests)) && Grows(s, Run(s, requests))
    decreases |requests|
  {
    if requests != [] {
      var head := requests[0];
      StepKeepsValid(s, head.request, head.now);
      StepGrows(s, head.request, head.now);
      RunKeepsValid(Step(s, head.request, head.now).0, requests[1..]);
    }
  }

  /** A family whose sessions are all revoked never gains an unrevoked one again. */
  lemma {:induction false} DeadStaysDead(s: State, requests: seq<Timed>, family: nat)
    requires Dead(s, family)
    ensures Dead(Run(s, requests), family)
    decreases |requests|
  {
    if requests != [] {
      StepKeepsDead(s, requests[0].request, requests[0].now, family);
      DeadStaysDead(Step(s, requests[0].request, requests[0].now).0, requests[1..], family);
    }
  }

  /** The sessions reached by following the links from `i`. */
  function Chain(s: seq<Session>, i: nat): (r: seq<nat>)
    decreases |s| - i
  {
    if i >= |s| then []
    else match s[i].replacedBy
         case None => [i]
         case Some(j) => if j > i then [i] + Chain(s, j) else [i]
  }

  lemma {:induction false} ChainAscends(s: seq<Session>, i: nat)
    requires Linked(s) && i < |s|
    ensures var c := Chain(s, i);
            && c != [] && c[0] == i
            && (forall a, b :: 0 <= a < b < |c| ==> c[a] < c[b])
    decreases |s| - i
  {
    if s[i].replacedBy.Some? {
      var j := s[i].replacedBy.value;
      assert IsNext(s, i, j);
      ChainAscends(s, j);
      var rest := Chain(s, j);
      forall b | 0 <= b < |rest| ensures rest[b] > i {
        assert b > 0 ==> rest[0] < rest[b];
      }
    }
  }

  lemma {:induction false} ChainMembers(s: seq<Session>, i: nat, k: nat)
    requires Linked(s) && i < |s|
    ensures k in Chain(s, i) <==> i <= k < |s| && s[k].family == s[i].family
    ensures Chain(s, i) != [] && IsNewest(s, Chain(s, i)[|Chain(s, i)| - 1])
    decreases |s| - i
  {
    match s[i].replacedBy {
      case None =>
        assert IsNewest(s, i);
      case Some(j) =>
        assert IsNext(s, i, j);
        ChainMembers(s, j, k);
        assert Chain(s, i) == [i] + Chain(s, j);
    }
  }

  /** Following links visits exactly the later sessions of the family, in order of issue, and
      stops at the newest. */
  lemma ChainIsTheFamily(s: seq<Session>, i: nat)
    requires Linked(s) && i < |s|
    ensures var c := Chain(s, i);
            && c != [] && c[0] == i && IsNewest(s, c[|c| - 1])
            && (forall a, b :: 0 <= a < b < |c| ==> c[a] < c[b])
            && (forall k: nat :: k in c <==> i <= k < |s| && s[k].family == s[i].family)
  {
    ChainAscends(s, i);
    forall k: nat ensures k in Chain(s, i) <==> i <= k < |s| && s[k].family == s[i].family {
      ChainMembers(s, i, k);
    }
    ChainMembers(s, i, i);
  }

  /** In every reachable state each family has at most one unrevoked session, the newest,
      and its links run through the whole family to that session. */
  lemma FamiliesAreChains(requests: seq<Timed>, i: nat, j: nat)
    requires var s := Run(EMPTY, requests).sessions; i <= j < |s| && s[i].family == s[j].family
    ensures var s := Run(EMPTY, requests).sessions;
            && (!s[i].Revoked() && !s[j].Revoked() ==> i == j)
            && (!s[i].Revoked() ==> IsNewest(s, i))
            && j in Chain(s, i) && IsNewest(s, Chain(s, i)[|Chain(s, i)| - 1])
            && s[i].user == s[j].user
  {
    RunKeepsValid(EMPTY, requests);
    ChainIsTheFamily(Run(EMPTY, requests).sessions, i);
  }

  /** In every reachable state a token is accepted exactly when it is the newest of its family,
      unrevoked, unexpired and of an active account; its successor is then the newest, for the
      same user and a full lifetime. Only reuse changes anything on refusal. */
  lemma AcceptedIff(requests: seq<Timed>, token: nat, now: int)
    ensures var s := Run(EMPTY, requests);
            var (after, response) := Step(s, Refresh(token), now);
            && (response.Issued? <==>
                  && IsNewest(s.sessions, token) && !s.sessions[token].Revoked()
                  && now < s.sessions[token].expiresAt && s.sessions[token].user in s.activeUsers)
            && (response.Issued? ==>
                  && IsNewest(after.sessions, response.token)
                  && after.sessions[token].replacedBy == Some(response.token)
                  && after.sessions[response.token]
                     == Session(s.sessions[token].user, s.sessions[token].family, now + TTL_SECONDS, None, None))
            && (response.Refused? && response.why != TokenReused ==> after == s)
  {
    RunKeepsValid(EMPTY, requests);
    var s := Run(EMPTY, requests);
    if token < |s.sessions| && s.sessions[token].replacedBy.None? {
      assert IsNewest(s.sessions, token);
    }
  }

  /** A token is exchanged at most once: after the first exchange every later presentation
      is treated as theft, whatever happened in between. */
  lemma TokenExchangedOnce(before: seq<Timed>, token: nat, now: int, between: seq<Timed>, later: int)
    requires Step(Run(EMPTY, before), Refresh(token), now).1.Issued?
    ensures var s := Run(Step(Run(EMPTY, before), Refresh(token), now).0, between);
            Step(s, Refresh(token), later).1 == Refused(TokenReused)
  {
    var s := Run(EMPTY, before);
    RunKeepsValid(EMPTY, before);
    StepKeepsValid(s, Refresh(token), now);
    RunKeepsValid(Step(s, Refresh(token), now).0, between);
  }

  /** Presenting a revoked token ends its family for good: no token ever issued in that
      family, before or after, is accepted again. */
  lemma ReuseEndsTheFamily(before: seq<Timed>, token: nat, now: int, after: seq<Timed>, other: nat, later: int)
    requires var s := Run(EMPTY, before); token < |s.sessions| && s.sessions[token].Revoked()
    requires var s := Run(EMPTY, before); var s' := Run(Step(s, Refresh(token), now).0, after);
             other < |s'.sessions| && s'.sessions[other].family == s.sessions[token].family
    ensures var s := Run(EMPTY, before); var s' := Run(Step(s, Refresh(token), now).0, after);
            Step(s', Refresh(other), later).1 == Refused(TokenReused)
  {
    var s := Run(EMPTY, before);
    RunKeepsValid(EMPTY, before);
    DeadStaysDead(Step(s, Refresh(token), now).0, after, s.sessions[token].family);
  }

  /** Signing out everywhere, or resetting the password, kills every family of the user. */
  lemma SigningOutEverywhereIsFinal(before: seq<Timed>, user: nat, reset: bool, now: int,
                                    after: seq<Timed>, token: nat, later: int)
    requires var s := Run(EMPTY, before); token < |s.sessions| && s.sessions[token].user == user
    ensures var request := if reset then ResetPassword(user) else LogoutAll(user);
            var s' := Run(Step(Run(EMPTY, before), request, now).0, after);
            forall t :: 0 <= t < |s'.sessions| && s'.sessions[t].family == Run(EMPTY, before).sessions[token].family ==>
              Step(s', Refresh(t), later).1 == Refused(TokenReused)
  {
    var s := Run(EMPTY, before);
    var request := if reset then ResetPassword(user) else LogoutAll(user);
    var family := s.sessions[token].family;
    RunKeepsValid(EMPTY, before);
    assert Dead(Step(s, request, now).0, family) by {
      forall i | 0 <= i < |s.sessions| && s.sessions[i].family == family
        ensures s.sessions[i].user == user
      {
        assert i < token || i == token || token < i;
      }
    }
    DeadStaysDead(Step(s, request, now).0, after, family);
  }

  // ----- what one request touches ----------------------------------------

  /** Which sessions a request is about. */
  predicate Concerns(s: State, request: Request, now: int, i: nat)
    requires i < |s.sessions|
  {
    match request
    case Logout(token) => token == i
    case LogoutAll(user) => s.sessions[i].user == user
    case ResetPassword(user) => s.sessions[i].user == user
    case Refresh(token) =>
      && token < |s.sessions|
      && if s.sessions[token].Revoked() then s.sessions[i].family == s.sessions[token].family
         else token == i && now < s.sessions[i].expiresAt && s.sessions[i].user in s.activeUsers
    case _ => false
  }

  /** A request revokes exactly the unrevoked sessions it is about, at its own time, and leaves
      every other session as it was, one that was revoked already included. */
  lemma TouchedIff(s: State, request: Request, now: int, i: nat)
    requires i < |s.sessions|
    ensures var r := Step(s, request, now).0.sessions;
            && i < |r|
            && (r[i] != s.sessions[i] <==> !s.sessions[i].Revoked() && Concerns(s, request, now, i))
            && (r[i] != s.sessions[i] ==> r[i].revokedAt == Some(now))
            && (r[i].replacedBy != s.sessions[i].replacedBy ==> request == Refresh(i))
  {}

  /** A refresh is refused for the first of these that holds: the token is unknown, revoked, expired,
      or its account disabled; otherwise it is the one request besides a sign-in that adds a session. */
  lemma RefusedBecause(s: State, token: nat, now: int)
    ensures var response := Step(s, Refresh(token), now).1;
            && (response == Refused(InvalidToken) <==> token >= |s.sessions|)
            && (response == Refused(TokenReused) <==> token < |s.sessions| && s.sessions[token].Revoked())
            && (response == Refused(TokenExpired)
                <==> token < |s.sessions| && !s.sessions[token].Revoked() && s.sessions[token].expiresAt <= now)
            && (response == Refused(AccountDisabled)
                <==> token < |s.sessions| && !s.sessions[token].Revoked() && now < s.sessions[token].expiresAt
                     && s.sessions[token].user !in s.activeUsers)
  {}

  lemma SessionsAdded(s: State, request: Request, now: int)
    ensures var (after, response) := Step(s, request, now);
            && |after.sessions| == |s.sessions| + (if response.Issued? then 1 else 0)
            && (response.Issued? ==> (request.SignIn? || request.Refresh?) && response.token == |s.sessions|)
  {}

  // ----- signing in and out ----------------------------------------------

  /** Signing in to an active account opens a family of its own, and its token is accepted for
      thirty days. */
  lemma SignInIsAccepted(before: seq<Timed>, user: nat, now: int, later: int)
    requires user in Run(EMPTY, before).activeUsers
    ensures var (s, response) := Step(Run(EMPTY, before), SignIn(user), now);
            && response.Issued? && response.token < |s.sessions| && s.sessions[response.token].user == user
            && (Step(s, Refresh(response.token), later).1.Issued? <==> later < now + 30 * 24 * 3600)
            && forall i :: 0 <= i < response.token ==> s.sessions[i].family != s.sessions[response.token].family
  {
    RunKeepsValid(EMPTY, before);
  }

  /** After a logout the token is treated as stolen for good, whatever follows. */
  lemma LogoutIsFinal(before: seq<Timed>, token: nat, now: int, after: seq<Timed>, later: int)
    requires token < |Run(EMPTY, before).sessions|
    ensures var s := Run(Step(Run(EMPTY, before), Logout(token), now).0, after);
            Step(s, Refresh(token), later).1 == Refused(TokenReused)
  {
    var s := Run(EMPTY, before);
    RunKeepsValid(EMPTY, before);
    StepKeepsValid(s, Logout(token), now);
    RunKeepsValid(Step(s, Logout(token), now).0, after);
  }

  lemma LogoutKillsTheFamily(s: State, token: nat, now: int)
    requires Valid(s) && token < |s.sessions| && !s.sessions[token].Revoked()
    ensures Dead(Step(s, Logout(token), now).0, s.sessions[token].family)
  {
    forall i | 0 <= i < |s.sessions| && s.sessions[i].family == s.sessions[token].family && !s.sessions[i].Revoked()
      ensures i == token
    {
      OneUnrevoked(s.sessions, i, token);
    }
  }

  /** A logout with a token not yet revoked ends its family: no token of it, old or new, is accepted
      again. */
  lemma LogoutEndsTheFamily(before: seq<Timed>, token: nat, now: int, after: seq<Timed>, other: nat, later: int)
    requires var s := Run(EMPTY, before); token < |s.sessions| && !s.sessions[token].Revoked()
    requires var s := Run(EMPTY, before); var s' := Run(Step(s, Logout(token), now).0, after);
             other < |s'.sessions| && s'.sessions[other].family == s.sessions[token].family
    ensures var s := Run(EMPTY, before); var s' := Run(Step(s, Logout(token), now).0, after);
            Step(s', Refresh(other), later).1 == Refused(TokenReused)
  {
    var s := Run(EMPTY, before);
    RunKeepsValid(EMPTY, before);
    LogoutKillsTheFamily(s, token, now);
    DeadStaysDead(Step(s, Logout(token), now).0, after, s.sessions[token].family);
  }

  lemma OneUnrevoked(s: seq<Session>, i: nat, j: nat)
    requires Linked(s) && i < |s| && j < |s| && s[i].family == s[j].family
    requires !s[i].Revoked() && !s[j].Revoked()
    ensures i == j
  {
    assert IsNewest(s, i) && IsNewest(s, j);
  }

  // ----- accounts --------------------------------------------------------

  /** No request of the run enables the account. */
  predicate NeverEnables(requests: seq<Timed>, user: nat) {
    forall i :: 0 <= i < |requests| ==> requests[i].request != SetAccount(user, true)
  }

  lemma {:induction false} DisabledStays(s: State, requests: seq<Timed>, user: nat)
    requires user !in s.activeUsers && NeverEnables(requests, user)
    ensures user !in Run(s, requests).activeUsers
    decreases |requests|
  {
    if requests != [] {
      DisabledStays(Step(s, requests[0].request, requests[0].now).0, requests[1..], user);
    }
  }

  /** A disabled account can neither sign in nor refresh any of its sessions, until it is enabled:
      then it signs in again, and those neither revoked nor expired are accepted again. */
  lemma DisabledIsShutOut(before: seq<Timed>, user: nat, now: int, between: seq<Timed>, later: int, token: nat)
    requires NeverEnables(between, user)
    ensures var s := Run(Step(Run(EMPTY, before), SetAccount(user, false), now).0, between);
            && Step(s, SignIn(user), later).1 == Refused(AccountDisabled)
            && (token < |s.sessions| && s.sessions[token].user == user ==>
                  Step(s, Refresh(token), later).1.Refused?)
            && var enabled := Step(s, SetAccount(user, true), now).0;
            && Step(enabled, SignIn(user), later).1.Issued?
            && (token < |s.sessions| && s.sessions[token].user == user ==>
                  (Step(enabled, Refresh(token), later).1.Issued? <==> s.sessions[token].IsActive(later)))
  {
    DisabledStays(Step(Run(EMPTY, before), SetAccount(user, false), now).0, between, user);
  }

  /** Switching one account touches neither sessions nor any other account. */
  lemma OtherAccountsStand(s: State, user: nat, enabled: bool, now: int, other: nat)
    ensures var after := Step(s, SetAccount(user, enabled), now).0;
            && after.sessions == s.sessions
            && (other in after.activeUsers <==> if other == user then enabled else other in s.activeUsers)
  {}
}
