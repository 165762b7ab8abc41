/** Refresh-token rotation: register, login, refresh and logout, one request at a time. */
module Tokens {
  import opened Clock
  import opened Wrappers
  import opened Ordering
  import Slugs

  datatype Kind = Access | Refresh

  /** A token is its claims; the unique `jti` makes equal claims mean equal tokens. */
  datatype Token = Token(sub: Id, email: string, kind: Kind, jti: Id)

  datatype User = User(email: string, password: string)

  datatype Row = Row(user: Id, revoked: Option<Time>, expires: Time)

  /** Rows are found by the token's hash, which is assumed injective; `ttlDays` is a setting. */
  datatype Auth = Auth(users: map<Id, User>, tokens: map<Token, Row>, ttlDays: int)

  datatype Request =
    | Register(email: string, password: string)
    | Login(email: string, password: string)
    | Rotate(token: Token, decodes: bool)   // `decodes`: signature and time claims accepted
    | Logout(user: Id)

  datatype Reply = Denied(error: Error) | Granted(user: Id, access: Token, refresh: Token) | LoggedOut

  /** The clock, and the ids a request may draw. */
  datatype Draw = Draw(now: Time, user: Id, access: Id, refresh: Id)


  ghost function ByEmail(users: map<Id, User>, email: string): Option<Id> {
    if exists u :: u in users && users[u].email == Slugs.Lower(email) then
      var u :| u in users && users[u].email == Slugs.Lower(email);
      Some(u)
    else None
  }

  predicate IsValid(tokens: map<Token, Row>, t: Token, now: Time) {
    t in tokens && tokens[t].revoked == None && !(tokens[t].expires < now)
  }

  function Revoked(tokens: map<Token, Row>, t: Token, now: Time): map<Token, Row> {
    if t in tokens then tokens[t := tokens[t].(revoked := Some(now))] else tokens
  }

  function AllRevoked(tokens: map<Token, Row>, user: Id, now: Time): map<Token, Row> {
    map t | t in tokens ::
      if tokens[t].user == user && tokens[t].revoked == None then tokens[t].(revoked := Some(now)) else tokens[t]
  }

  function NewRow(user: Id, days: int, now: Time): Row { Row(user, None, now + days * DAY) }

  /** A fresh pair of tokens, the refresh token stored. */
  function Granting(s: Auth, user: Id, email: string, draw: Draw): (Reply, Auth) {
    var refresh := Token(user, email, Refresh, draw.refresh);
    (Granted(user, Token(user, email, Access, draw.access), refresh),
     s.(tokens := s.tokens[refresh := NewRow(user, s.ttlDays, draw.now)]))
  }

  ghost function Serve(s: Auth, req: Request, draw: Draw): (Reply, Auth) {
    match req
    case Register(email, password) =>
      if ByEmail(s.users, email).Some? then (Denied(Conflict), s)
      else
        var user := User(Slugs.Lower(email), password);
        Granting(s.(users := s.users[draw.user := user]), draw.user, user.email, draw)
    case Login(email, password) =>
      (match ByEmail(s.users, email)
       case None => (Denied(Unauthorized), s)
       case Some(u) =>
         if s.users[u].password != password then (Denied(Unauthorized), s)
         else Granting(s, u, s.users[u].email, draw))
    case Rotate(t, decodes) =>
      if !decodes || t.kind != Refresh || !IsValid(s.tokens, t, draw.now) then (Denied(Unauthorized), s)
      else Granting(s.(tokens := Revoked(s.tokens, t, draw.now)), t.sub, t.email, draw)
    case Logout(user) => (LoggedOut, s.(tokens := AllRevoked(s.tokens, user, draw.now)))
  }

  // ----- The service as it runs

  class AuthService {
    var users: map<Id, User>
    var tokens: map<Token, Row>
    const ttlDays: int

    ghost function State(): Auth reads this { Auth(users, tokens, ttlDays) }

    constructor (ttlDays: int)
      ensures State() == Auth(map[], map[], ttlDays)
    {
      users, tokens := map[], map[];
      this.ttlDays := ttlDays;
    }

    method GetByEmail(email: string) returns (u: Option<Id>)
      requires UniqueEmails(users)
      ensures u == ByEmail(users, email)
    {
      var wanted := Slugs.Lower(email);
      if v :| v in users && users[v].email == wanted { return Some(v); }
      return None;
    }

    method CreateToken(user: Id, t: Token, days: int, now: Time)
      modifies this`tokens
      ensures tokens == old(tokens)[t := NewRow(user, days, now)]
    {
      tokens := tokens[t := Row(user, None, now + days * DAY)];
    }

    method Revoke(t: Token, now: Time)
      modifies this`tokens
      ensures tokens == Revoked(old(tokens), t, now)
    {
      if t in tokens { tokens := tokens[t := tokens[t].(revoked := Some(now))]; }
    }

    method RevokeAllForUser(user: Id, now: Time)
      modifies this`tokens
      ensures tokens == AllRevoked(old(tokens), user, now)
    {
      var selected := set t | t in tokens && tokens[t].user == user && tokens[t].revoked == None;
      ghost var all := selected;
      while selected != {}
        invariant selected <= all <= old(tokens).Keys
        invariant tokens == map t | t in old(tokens) ::
                              if t in all - selected then old(tokens)[t].(revoked := Some(now)) else old(tokens)[t]
        decreases |selected|
      {
        var t :| t in selected;
        tokens := tokens[t := tokens[t].(revoked := Some(now))];
        selected := selected - {t};
      }
      assert forall t :: t in old(tokens) ==>
        (t in all - selected <==> old(tokens)[t].user == user && old(tokens)[t].revoked == None);
    }

    method Grant(user: Id, email: string, draw: Draw) returns (reply: Reply)
      modifies this`tokens
      ensures (reply, State()) == Granting(old(State()), user, email, draw)
    {
      var refresh := Token(user, email, Refresh, draw.refresh);
      CreateToken(user, refresh, ttlDays, draw.now);
      return Granted(user, Token(user, email, Access, draw.access), refresh);
    }

    method Register(email: string, password: string, draw: Draw) returns (reply: Reply)
      requires UniqueEmails(users)
      modifies this
      ensures (reply, State()) == Serve(old(State()), Request.Register(email, password), draw)
    {
      var existing := GetByEmail(email);
      if existing.Some? { return Denied(Conflict); }
      var user := User(Slugs.Lower(email), password);
      users := users[draw.user := user];
      reply := Grant(draw.user, user.email, draw);
    }

    method Login(email: string, password: string, draw: Draw) returns (reply: Reply)
      requires UniqueEmails(users)
      modifies this
      ensures (reply, State()) == Serve(old(State()), Request.Login(email, password), draw)
    {
      var found := GetByEmail(email);
      if found.None? || users[found.value].password != password { return Denied(Unauthorized); }
      reply := Grant(found.value, users[found.value].email, draw);
    }

    method RefreshTokens(t: Token, decodes: bool, draw: Draw) returns (reply: Reply)
      modifies this
      ensures (reply, State()) == Serve(old(State()), Rotate(t, decodes), draw)
    {
      if !decodes || t.kind != Refresh { return Denied(Unauthorized); }
      if !IsValid(tokens, t, draw.now) { return Denied(Unauthorized); }
      Revoke(t, draw.now);
      reply := Grant(t.sub, t.email, draw);
    }

    method Logout(user: Id, draw: Draw) returns (reply: Reply)
      modifies this
      ensures (reply, State()) == Serve(old(State()), Request.Logout(user), draw)
    {
      RevokeAllForUser(user, draw.now);
      return LoggedOut;
    }
  }

  // ----- Runs

  /** `chains` records, for each token issued, the login or registration its rotation started from. */
  datatype World = World(auth: Auth, issued: Id, now: Time, chains: map<Token, Id>)

  datatype Event = Event(request: Request, delay: nat)

  /** Ids are numbered in the order they are drawn; three are set aside for each request. */
  function DrawOf(w: World, ev: Event): Draw {
    Draw(w.now + ev.delay, w.issued, w.issued + 1, w.issued + 2)
  }

  ghost function ReplyOf(w: World, ev: Event): Reply {
    Serve(w.auth, ev.request, DrawOf(w, ev)).0
  }

  ghost function Next(w: World, ev: Event): World {
    var (reply, auth) := Serve(w.auth, ev.request, DrawOf(w, ev));
    var chains :=
      if !reply.Granted? then w.chains
      else if ev.request.Rotate? && ev.request.token in w.chains
      then w.chains[reply.refresh := w.chains[ev.request.token]]
      else w.chains[reply.refresh := reply.refresh.jti];
    World(auth, w.issued + 3, w.now + ev.delay, chains)
  }

  ghost function Run(w: World, events: seq<Event>): World
    decreases |events|
  {
    if events == [] then w else Run(Next(w, events[0]), events[1..])
  }

  function Start(ttlDays: int): World { World(Auth(map[], map[], ttlDays), 0, 0, map[]) }

  ghost predicate UniqueEmails(users: map<Id, User>) {
    forall u, v :: u in users && v in users && u != v ==> users[u].email != users[v].email
  }

  /** Unrevoked, whether or not expired. */
  ghost predicate Open(s: Auth, t: Token) { t in s.tokens && s.tokens[t].revoked == None }

  ghost predicate UsersInv(w: World) {
    UniqueEmails(w.auth.users) && forall u :: u in w.auth.users ==> u < w.issued
  }

  /** The stored user is the token's subject, who is known by the token's email. */
  ghost predicate RowsInv(w: World) {
    && w.chains.Keys == w.auth.tokens.Keys
    && forall t :: t in w.auth.tokens ==>
         t.kind == Refresh && t.jti < w.issued && w.chains[t] < w.issued
         && w.auth.tokens[t].user == t.sub && t.sub in w.auth.users && t.email == w.auth.users[t.sub].email
  }

  /** At most one token of a chain is unrevoked. */
  ghost predicate ChainsInv(w: World)
    requires w.chains.Keys == w.auth.tokens.Keys
  {
    forall t, u :: Open(w.auth, t) && Open(w.auth, u) && w.chains[t] == w.chains[u] ==> t == u
  }

  ghost predicate Inv(w: World) {
    UsersInv(w) && RowsInv(w) && ChainsInv(w)
  }

  /** A chain that has no open token may get a new one. */
  lemma OpenedKeepsChains(w: World, next: World, t: Token, chain: Id)
    requires RowsInv(w) && ChainsInv(w) && t !in w.auth.tokens
    requires forall u :: Open(w.auth, u) ==> w.chains[u] != chain
    requires next.chains == w.chains[t := chain] && next.chains.Keys == next.auth.tokens.Keys
    requires forall u :: Open(next.auth, u) && u != t ==> Open(w.auth, u)
    ensures ChainsInv(next)
  {
  }

  lemma GrantKeepsRows(w: World, user: Id, email: string, draw: Draw, chain: Id, issued: Id, now: Time)
    requires UsersInv(w) && RowsInv(w) && user in w.auth.users && email == w.auth.users[user].email
    requires w.issued <= draw.refresh < issued && chain < issued
    ensures var (reply, auth) := Granting(w.auth, user, email, draw);
            var next := World(auth, issued, now, w.chains[reply.refresh := chain]);
            UsersInv(next) && RowsInv(next) && reply.refresh !in w.auth.tokens
  {
  }

  lemma GrantKeepsInv(w: World, user: Id, email: string, draw: Draw, chain: Id, issued: Id, now: Time)
    requires Inv(w) && user in w.auth.users && email == w.auth.users[user].email
    requires w.issued <= draw.refresh < issued && chain < issued
    requires forall t :: Open(w.auth, t) ==> w.chains[t] != chain
    ensures var (reply, auth) := Granting(w.auth, user, email, draw);
            Inv(World(auth, issued, now, w.chains[reply.refresh := chain]))
  {
    var (reply, auth) := Granting(w.auth, user, email, draw);
    GrantKeepsRows(w, user, email, draw, chain, issued, now);
    OpenedKeepsChains(w, World(auth, issued, now, w.chains[reply.refresh := chain]), reply.refresh, chain);
  }

  lemma RevokedKeepsInv(w: World, t: Token, now: Time)
    requires Inv(w) && Open(w.auth, t)
    ensures var next := w.(auth := w.auth.(tokens := Revoked(w.auth.tokens, t, now)));
            Inv(next) && forall u :: Open(next.auth, u) ==> next.chains[u] != w.chains[t]
  {
    var next := w.(auth := w.auth.(tokens := Revoked(w.auth.tokens, t, now)));
    assert next.auth.tokens.Keys == w.auth.tokens.Keys;
    forall u | u in next.auth.tokens ensures next.auth.tokens[u].user == w.auth.tokens[u].user {}
    assert UsersInv(next) && RowsInv(next);
    forall u | Open(next.auth, u) ensures Open(w.auth, u) && u != t {}
    assert ChainsInv(next);
  }

  lemma AllRevokedKeepsInv(w: World, user: Id, issued: Id, now: Time)
    requires Inv(w) && w.issued <= issued
    ensures Inv(World(w.auth.(tokens := AllRevoked(w.auth.tokens, user, now)), issued, now, w.chains))
  {
  }

  lemma RotateKeepsInv(w: World, ev: Event)
    requires Inv(w) && ev.request.Rotate? && ReplyOf(w, ev).Granted?
    ensures Inv(Next(w, ev))
  {
    var draw, t := DrawOf(w, ev), ev.request.token;
    var revoked := w.(auth := w.auth.(tokens := Revoked(w.auth.tokens, t, draw.now)));
    RevokedKeepsInv(w, t, draw.now);
    GrantKeepsInv(revoked, t.sub, t.email, draw, w.chains[t], w.issued + 3, draw.now);
  }

  lemma UserAdded(w: World, user: User)
    requires Inv(w) && forall u :: u in w.auth.users ==> w.auth.users[u].email != user.email
    ensures Inv(w.(auth := w.auth.(users := w.auth.users[w.issued := user]), issued := w.issued + 1))
  {
  }

  lemma RegisterKeepsInv(w: World, ev: Event)
    requires Inv(w) && ev.request.Register? && ReplyOf(w, ev).Granted?
    ensures Inv(Next(w, ev))
  {
    var draw, user := DrawOf(w, ev), User(Slugs.Lower(ev.request.email), ev.request.password);
    var ready := w.(auth := w.auth.(users := w.auth.users[w.issued := user]), issued := w.issued + 1);
    UserAdded(w, user);
    GrantKeepsInv(ready, draw.user, user.email, draw, draw.refresh, w.issued + 3, draw.now);
  }

  lemma LoginKeepsInv(w: World, ev: Event)
    requires Inv(w) && ev.request.Login? && ReplyOf(w, ev).Granted?
    ensures Inv(Next(w, ev))
  {
    var draw, user := DrawOf(w, ev), ReplyOf(w, ev).user;
    GrantKeepsInv(w, user, w.auth.users[user].email, draw, draw.refresh, w.issued + 3, draw.now);
  }

  lemma DeniedKeepsInv(w: World, ev: Event)
    requires Inv(w) && ReplyOf(w, ev).Denied?
    ensures Next(w, ev).auth == w.auth && Inv(Next(w, ev))
  {
    var next := World(w.auth, w.issued + 3, w.now + ev.delay, w.chains);
    assert Next(w, ev) == next;
    assert Inv(next);
  }

  lemma LogoutKeepsInv(w: World, ev: Event)
    requires Inv(w) && ev.request.Logout?
    ensures Inv(Next(w, ev))
  {
    AllRevokedKeepsInv(w, ev.request.user, w.issued + 3, w.now + ev.delay);
  }

  /** Emails stay unique, every stored `user_id` is its token's `sub`, and every chain of
      rotations has at most one unrevoked token. */
  lemma InvKept(w: World, ev: Event)
    requires Inv(w)
    ensures Inv(Next(w, ev))
  {
    if ReplyOf(w, ev).Denied? {
      DeniedKeepsInv(w, ev);
    } else if ev.request.Logout? {
      LogoutKeepsInv(w, ev);
    } else if ev.request.Rotate? {
      RotateKeepsInv(w, ev);
    } else if ev.request.Register? {
      RegisterKeepsInv(w, ev);
    } else {
      LoginKeepsInv(w, ev);
    }
  }

  lemma {:induction false} InvAlways(w: World, events: seq<Event>)
    requires Inv(w)
    ensures Inv(Run(w, events))
    decreases |events|
  {
    if events != [] {
      InvKept(w, events[0]);
      InvAlways(Next(w, events[0]), events[1..]);
    }
  }

  lemma ReachableInv(ttlDays: int, events: seq<Event>)
    ensures Inv(Run(Start(ttlDays), events))
  {
    InvAlways(Start(ttlDays), events);
  }

  // ----- Revocation is final, so a token is rotated at most once

  lemma RevokedStays(w: World, ev: Event, t: Token)
    requires Inv(w) && t in w.auth.tokens && !Open(w.auth, t)
    ensures t in Next(w, ev).auth.tokens && Next(w, ev).auth.tokens[t] == w.auth.tokens[t]
    ensures ev.request.Rotate? && ev.request.token == t ==> ReplyOf(w, ev) == Denied(Unauthorized)
  {
  }

  /** `revoked_at` is written once: a revoked row never changes again. */
  lemma {:induction false} RevocationIsFinal(w: World, events: seq<Event>, t: Token)
    requires Inv(w) && t in w.auth.tokens && !Open(w.auth, t)
    ensures t in Run(w, events).auth.tokens && Run(w, events).auth.tokens[t] == w.auth.tokens[t]
    decreases |events|
  {
    if events != [] {
      InvKept(w, events[0]);
      RevokedStays(w, events[0], t);
      RevocationIsFinal(Next(w, events[0]), events[1..], t);
    }
  }

  lemma RotatedOut(w: World, ev: Event)
    requires Inv(w) && ev.request.Rotate? && ReplyOf(w, ev).Granted?
    ensures var t, next := ev.request.token, Next(w, ev);
            && t in next.auth.tokens && !Open(next.auth, t)
            && Open(next.auth, ReplyOf(w, ev).refresh) && next.chains[ReplyOf(w, ev).refresh] == w.chains[t]
            && ReplyOf(w, ev).refresh.sub == t.sub && ReplyOf(w, ev).refresh !in w.auth.tokens
  {
  }

  /** Whatever happens after a successful refresh, presenting the same token again is refused. */
  lemma RotatedAtMostOnce(w: World, first: Event, between: seq<Event>, again: Event)
    requires Inv(w) && first.request.Rotate? && again.request.Rotate?
    requires first.request.token == again.request.token && ReplyOf(w, first).Granted?
    ensures ReplyOf(Run(Next(w, first), between), again) == Denied(Unauthorized)
  {
    var t, next := first.request.token, Next(w, first);
    RotatedOut(w, first);
    InvKept(w, first);
    RevocationIsFinal(next, between, t);
    InvAlways(next, between);
    RevokedStays(Run(next, between), again, t);
  }

  // ----- Who may log in

  lemma {:induction false} RunSnoc(w: World, events: seq<Event>, ev: Event)
    ensures Run(w, events + [ev]) == Next(Run(w, events), ev)
    decreases |events|
  {
    if events == [] {
      assert ([] + [ev])[0] == ev && ([] + [ev])[1..] == [];
    } else {
      assert (events + [ev])[1..] == events[1..] + [ev];
      RunSnoc(Next(w, events[0]), events[1..], ev);
    }
  }

  /** What the i-th request of a run was answered. */
  ghost function ReplyAt(w: World, events: seq<Event>, i: nat): Reply
    requires i < |events|
  {
    ReplyOf(Run(w, events[..i]), events[i])
  }

  /** The i-th request registered this email, whatever its letters' case, with this password. */
  ghost predicate RegisteredAt(w: World, events: seq<Event>, i: nat, email: string, password: string) {
    && i < |events| && events[i].request.Register?
    && Slugs.Lower(events[i].request.email) == Slugs.Lower(email)
    && events[i].request.password == password
    && ReplyAt(w, events, i).Granted?
  }

  /** The users are exactly those whom a registration created, with the data they gave. */
  ghost predicate UsersRegistered(w: World, events: seq<Event>) {
    var users := Run(w, events).auth.users;
    && (forall u :: u in users ==> exists i: nat :: Made(w, events, i, u, users[u]))
    && (forall i: nat :: i < |events| && events[i].request.Register? && ReplyAt(w, events, i).Granted? ==>
          ReplyAt(w, events, i).user in users
          && Made(w, events, i, ReplyAt(w, events, i).user, users[ReplyAt(w, events, i).user]))
  }

  ghost predicate Made(w: World, events: seq<Event>, i: nat, u: Id, user: User) {
    && i < |events| && events[i].request.Register? && ReplyAt(w, events, i).Granted?
    && ReplyAt(w, events, i).user == u
    && user.email == Slugs.Lower(events[i].request.email) && user.password == events[i].request.password
  }

  lemma UsersStep(w: World, ev: Event)
    requires Inv(w)
    ensures Next(w, ev).auth.users ==
            if ev.request.Register? && ReplyOf(w, ev).Granted?
            then w.auth.users[w.issued := User(Slugs.Lower(ev.request.email), ev.request.password)]
            else w.auth.users
    ensures ev.request.Register? && ReplyOf(w, ev).Granted? ==>
              ReplyOf(w, ev).user == w.issued && w.issued !in w.auth.users
  {
  }

  lemma StillMade(w: World, events: seq<Event>, ev: Event, i: nat)
    requires i < |events|
    ensures ReplyAt(w, events + [ev], i) == ReplyAt(w, events, i) && (events + [ev])[i] == events[i]
  {
    assert (events + [ev])[..i] == events[..i];
  }

  lemma UsersRegisteredStep(w: World, events: seq<Event>, ev: Event)
    requires Inv(Run(w, events)) && UsersRegistered(w, events)
    ensures UsersRegistered(w, events + [ev])
  {
    hide Inv, Serve;
    var m, all := Run(w, events), events + [ev];
    RunSnoc(w, events, ev);
    UsersStep(m, ev);
    var users := Run(w, all).auth.users;
    assert all[..|events|] == events;
    forall u | u in users ensures exists i: nat :: Made(w, all, i, u, users[u]) {
      if u in m.auth.users && m.auth.users[u] == users[u] {
        var i: nat :| Made(w, events, i, u, users[u]);
        StillMade(w, events, ev, i);
        assert Made(w, all, i, u, users[u]);
      } else {
        assert Made(w, all, |events|, u, users[u]);
      }
    }
    forall i: nat | i < |all| && all[i].request.Register? && ReplyAt(w, all, i).Granted?
      ensures ReplyAt(w, all, i).user in users
              && Made(w, all, i, ReplyAt(w, all, i).user, users[ReplyAt(w, all, i).user])
    {
      if i < |events| {
        StillMade(w, events, ev, i);
        assert Made(w, events, i, ReplyAt(w, events, i).user, m.auth.users[ReplyAt(w, events, i).user]);
      }
    }
  }

  lemma {:induction false} UsersRegisteredAlways(ttlDays: int, events: seq<Event>)
    ensures UsersRegistered(Start(ttlDays), events)
    decreases |events|
  {
    if events != [] {
      var most := events[..|events| - 1];
      UsersRegisteredAlways(ttlDays, most);
      ReachableInv(ttlDays, most);
      assert events == most + [events[|events| - 1]];
      UsersRegisteredStep(Start(ttlDays), most, events[|events| - 1]);
    }
  }

  lemma LoginReply(w: World, email: string, password: string, delay: nat)
    requires Inv(w)
    ensures var reply := ReplyOf(w, Event(Login(email, password), delay));
            && (reply.Granted? ==> reply.user in w.auth.users
                                   && w.auth.users[reply.user] == User(Slugs.Lower(email), password))
            && (forall u :: u in w.auth.users && w.auth.users[u] == User(Slugs.Lower(email), password) ==>
                  reply.Granted? && reply.user == u)
            && (!reply.Granted? ==> reply == Denied(Unauthorized))
  {
  }

  lemma RegisterReply(w: World, email: string, password: string, delay: nat)
    requires Inv(w)
    ensures var reply := ReplyOf(w, Event(Register(email, password), delay));
            && (reply == Denied(Conflict) <==>
                exists u :: u in w.auth.users && w.auth.users[u].email == Slugs.Lower(email))
            && (reply != Denied(Conflict) ==> reply.Granted? && reply.user !in w.auth.users)
  {
  }

  /** Over every run: a login is granted exactly when its email was registered with exactly its password,
      and then to the user whom that registration created; otherwise it is refused. */
  lemma LoginAnswered(ttlDays: int, events: seq<Event>, email: string, password: string, delay: nat)
    ensures var reply := ReplyOf(Run(Start(ttlDays), events), Event(Login(email, password), delay));
            && (reply.Granted? <==> exists i: nat :: RegisteredAt(Start(ttlDays), events, i, email, password))
            && (forall i: nat :: RegisteredAt(Start(ttlDays), events, i, email, password) ==>
                  reply.Granted? && reply.user == ReplyAt(Start(ttlDays), events, i).user)
            && (!reply.Granted? ==> reply == Denied(Unauthorized))
  {
    hide Inv, Serve, Run;
    var w := Start(ttlDays);
    var m := Run(w, events);
    ReachableInv(ttlDays, events);
    UsersRegisteredAlways(ttlDays, events);
    LoginReply(m, email, password, delay);
    var reply := ReplyOf(m, Event(Login(email, password), delay));
    if reply.Granted? {
      var i: nat :| Made(w, events, i, reply.user, m.auth.users[reply.user]);
      assert RegisteredAt(w, events, i, email, password);
    }
    forall i: nat | RegisteredAt(w, events, i, email, password)
      ensures reply.Granted? && reply.user == ReplyAt(w, events, i).user
    {
      assert Made(w, events, i, ReplyAt(w, events, i).user, m.auth.users[ReplyAt(w, events, i).user]);
    }
  }

  /** A registration is a conflict exactly when its email has been registered before, under any password;
      otherwise it creates a new user. */
  lemma RegisterAnswered(ttlDays: int, events: seq<Event>, email: string, password: string, delay: nat)
    ensures var end := Run(Start(ttlDays), events);
            var reply := ReplyOf(end, Event(Register(email, password), delay));
            && (reply == Denied(Conflict) <==>
                exists i: nat, p :: RegisteredAt(Start(ttlDays), events, i, email, p))
            && (reply != Denied(Conflict) ==> reply.Granted? && reply.user !in end.auth.users)
  {
    hide Inv, Serve, Run;
    var w := Start(ttlDays);
    var m := Run(w, events);
    ReachableInv(ttlDays, events);
    UsersRegisteredAlways(ttlDays, events);
    RegisterReply(m, email, password, delay);
    if u :| u in m.auth.users && m.auth.users[u].email == Slugs.Lower(email) {
      var i: nat :| Made(w, events, i, u, m.auth.users[u]);
      assert RegisteredAt(w, events, i, email, m.auth.users[u].password);
    }
    if i: nat, p :| RegisteredAt(w, events, i, email, p) {
      assert Made(w, events, i, ReplyAt(w, events, i).user, m.auth.users[ReplyAt(w, events, i).user]);
    }
  }

  // ----- What is granted, and what a revocation writes

  lemma GrantShape(w: World, ev: Event)
    requires ReplyOf(w, ev).Granted?
    ensures var reply := ReplyOf(w, ev);
            && reply.refresh == Token(reply.user, reply.access.email, Refresh, w.issued + 2)
            && reply.access == Token(reply.user, reply.access.email, Access, w.issued + 1)
            && reply.refresh in Next(w, ev).auth.tokens
            && (ev.request.Rotate? ==> reply.user == ev.request.token.sub)
  {
  }

  /** In every reachable state whoever is granted tokens gets one of each kind, both new and for the same
      known user and email; only the refresh token is stored, and an access token never refreshes. */
  lemma GrantedTokens(w: World, ev: Event)
    requires Inv(w) && ReplyOf(w, ev).Granted?
    ensures var reply, next := ReplyOf(w, ev), Next(w, ev);
            && reply.access.kind == Access && reply.refresh.kind == Refresh
            && reply.access.sub == reply.refresh.sub == reply.user && reply.user in next.auth.users
            && reply.access.email == reply.refresh.email == next.auth.users[reply.user].email
            && reply.access.jti != reply.refresh.jti
            && reply.refresh in next.auth.tokens && reply.refresh !in w.auth.tokens
            && reply.access !in next.auth.tokens
            && (ev.request.Rotate? ==> reply.user == ev.request.token.sub)
  {
    hide Serve;
    GrantShape(w, ev);
    InvKept(w, ev);
  }

  /** A token that does not decode, that is an access token, or that was never stored is refused. */
  lemma NeverRefreshes(w: World, ev: Event)
    requires ev.request.Rotate?
    requires !ev.request.decodes || ev.request.token.kind == Access || ev.request.token !in w.auth.tokens
    ensures ReplyOf(w, ev) == Denied(Unauthorized) && Next(w, ev).auth == w.auth
  {
  }

  /** A revocation stamps the open rows it closes with the time it happens: the presented token's, or all
      of the user's. Every other stored row stays as it was. */
  lemma RevocationStamps(w: World, ev: Event, t: Token)
    requires Inv(w) && t in w.auth.tokens
    ensures var closes := Open(w.auth, t) &&
                          (ev.request == Logout(t.sub)
                           || (ev.request.Rotate? && ev.request.token == t && ReplyOf(w, ev).Granted?));
            && t in Next(w, ev).auth.tokens
            && Next(w, ev).auth.tokens[t] ==
               if closes then w.auth.tokens[t].(revoked := Some(w.now + ev.delay)) else w.auth.tokens[t]
  {
    hide Serve, Inv;
    if !Open(w.auth, t) {
      RevokedStays(w, ev, t);
    } else if ev.request == Logout(t.sub) || (ev.request.Rotate? && ev.request.token == t) {
      ClosingRow(w, ev, t);
    } else {
      SparedRow(w, ev, t);
    }
  }

  lemma ClosingRow(w: World, ev: Event, t: Token)
    requires Inv(w) && Open(w.auth, t)
    requires ev.request == Logout(t.sub) || (ev.request.Rotate? && ev.request.token == t)
    ensures ReplyOf(w, ev).Denied? <==> ev.request.Rotate? && !ReplyOf(w, ev).Granted?
    ensures t in Next(w, ev).auth.tokens
    ensures Next(w, ev).auth.tokens[t] ==
            if ReplyOf(w, ev).Denied? then w.auth.tokens[t]
            else w.auth.tokens[t].(revoked := Some(w.now + ev.delay))
  {
    if ReplyOf(w, ev).Granted? { assert ReplyOf(w, ev).refresh != t; }
  }

  lemma SparedRow(w: World, ev: Event, t: Token)
    requires Inv(w) && Open(w.auth, t)
    requires ev.request != Logout(t.sub) && (ev.request.Rotate? ==> ev.request.token != t)
    ensures t in Next(w, ev).auth.tokens && Next(w, ev).auth.tokens[t] == w.auth.tokens[t]
  {
    if ReplyOf(w, ev).Granted? { assert ReplyOf(w, ev).refresh != t; }
  }

  // ----- When a token is accepted

  /** No request in the run closes the token: its user does not log out, and nobody presents it. */
  predicate Spared(events: seq<Event>, t: Token) {
    forall i :: 0 <= i < |events| ==>
      events[i].request != Logout(t.sub) && events[i].request != Rotate(t, true)
  }

  lemma SparedStep(w: World, ev: Event, t: Token)
    requires Inv(w) && Open(w.auth, t)
    requires ev.request != Logout(t.sub) && ev.request != Rotate(t, true)
    ensures Open(Next(w, ev).auth, t) && Next(w, ev).auth.tokens[t] == w.auth.tokens[t]
  {
    if ReplyOf(w, ev).Granted? { assert ReplyOf(w, ev).refresh != t; }
  }

  lemma ClosingStep(w: World, ev: Event, t: Token)
    requires Inv(w) && Open(w.auth, t)
    requires ev.request == Logout(t.sub) || ev.request == Rotate(t, true)
    requires w.now + ev.delay <= w.auth.tokens[t].expires
    ensures t in Next(w, ev).auth.tokens && !Open(Next(w, ev).auth, t)
    ensures Next(w, ev).auth.tokens[t].expires == w.auth.tokens[t].expires
  {
  }

  lemma {:induction false} ClockAdvances(w: World, events: seq<Event>)
    ensures w.now <= Run(w, events).now
    decreases |events|
  {
    if events != [] { ClockAdvances(Next(w, events[0]), events[1..]); }
  }

  lemma {:induction false} SparedStaysOpen(w: World, events: seq<Event>, t: Token)
    requires Inv(w) && Open(w.auth, t) && Spared(events, t)
    ensures Open(Run(w, events).auth, t) && Run(w, events).auth.tokens[t] == w.auth.tokens[t]
    decreases |events|
  {
    if events != [] {
      SparedStep(w, events[0], t);
      InvKept(w, events[0]);
      SparedStaysOpen(Next(w, events[0]), events[1..], t);
    }
  }

  lemma {:induction false} NotSparedCloses(w: World, events: seq<Event>, t: Token)
    requires Inv(w) && Open(w.auth, t) && !Spared(events, t)
    requires Run(w, events).now <= w.auth.tokens[t].expires
    ensures !Open(Run(w, events).auth, t)
    decreases |events|
  {
    hide Serve, Inv;
    var ev, next := events[0], Next(w, events[0]);
    InvKept(w, ev);
    ClockAdvances(next, events[1..]);
    if ev.request == Logout(t.sub) || ev.request == Rotate(t, true) {
      ClosingStep(w, ev, t);
      RevocationIsFinal(next, events[1..], t);
    } else {
      SparedStep(w, ev, t);
      assert forall i :: 0 <= i < |events[1..]| ==> events[1..][i] == events[i + 1];
      NotSparedCloses(next, events[1..], t);
    }
  }

  lemma GrantedIsOpen(w: World, ev: Event)
    requires Inv(w) && ReplyOf(w, ev).Granted?
    ensures var t := ReplyOf(w, ev).refresh;
            Open(Next(w, ev).auth, t) && Next(w, ev).auth.tokens[t].expires == w.now + ev.delay + w.auth.ttlDays * DAY
  {
  }

  /** An issued token that decodes is accepted exactly when its lifetime has not passed, its user has
      not logged out, and it has not been presented before. */
  lemma AcceptedExactlyWhen(w: World, first: Event, between: seq<Event>, delay: nat)
    requires Inv(w) && ReplyOf(w, first).Granted?
    ensures var t, end := ReplyOf(w, first).refresh, Run(Next(w, first), between);
            ReplyOf(end, Event(Rotate(t, true), delay)).Granted? <==>
              Spared(between, t) && end.now + delay <= w.now + first.delay + w.auth.ttlDays * 86_400_000_000
  {
    var t, next := ReplyOf(w, first).refresh, Next(w, first);
    var end := Run(next, between);
    GrantedIsOpen(w, first);
    InvKept(w, first);
    if Spared(between, t) {
      SparedStaysOpen(next, between, t);
    } else if end.now <= next.auth.tokens[t].expires {
      NotSparedCloses(next, between, t);
    } else {
      ExpiryKept(next, between, t);
    }
  }

  lemma ExpiryStep(w: World, ev: Event, t: Token)
    requires Inv(w) && t in w.auth.tokens
    ensures t in Next(w, ev).auth.tokens && Next(w, ev).auth.tokens[t].expires == w.auth.tokens[t].expires
  {
    if ReplyOf(w, ev).Granted? {
      assert ReplyOf(w, ev).refresh != t;
    } else if ReplyOf(w, ev).Denied? {
      DeniedKeepsInv(w, ev);
    }
  }

  lemma {:induction false} ExpiryKept(w: World, events: seq<Event>, t: Token)
    requires Inv(w) && t in w.auth.tokens
    ensures t in Run(w, events).auth.tokens && Run(w, events).auth.tokens[t].expires == w.auth.tokens[t].expires
    decreases |events|
  {
    if events != [] {
      ExpiryStep(w, events[0], t);
      InvKept(w, events[0]);
      ExpiryKept(Next(w, events[0]), events[1..], t);
    }
  }

  // ----- Conservation

  ghost function OpenTokens(s: Auth, user: Id): set<Token> {
    set t | t in s.tokens && s.tokens[t].revoked == None && s.tokens[t].user == user
  }

  /** How one request moves a user's tally of unrevoked tokens. */
  ghost function Moved(tally: int, req: Request, reply: Reply, user: Id): int {
    if reply.LoggedOut? && req == Logout(user) then 0
    else if reply.Granted? && !req.Rotate? && reply.user == user then tally + 1
    else tally
  }

  lemma GrantTally(s: Auth, user: Id, email: string, draw: Draw, u: Id)
    requires Token(user, email, Refresh, draw.refresh) !in s.tokens
    ensures |OpenTokens(Granting(s, user, email, draw).1, u)| ==
            |OpenTokens(s, u)| + (if u == user then 1 else 0)
  {
    var t := Token(user, email, Refresh, draw.refresh);
    assert OpenTokens(Granting(s, user, email, draw).1, u) ==
           if u == user then OpenTokens(s, u) + {t} else OpenTokens(s, u);
  }

  lemma RevokeTally(s: Auth, t: Token, now: Time, u: Id)
    requires Open(s, t)
    ensures |OpenTokens(s.(tokens := Revoked(s.tokens, t, now)), u)| ==
            |OpenTokens(s, u)| - (if u == s.tokens[t].user then 1 else 0)
  {
    assert OpenTokens(s.(tokens := Revoked(s.tokens, t, now)), u) == OpenTokens(s, u) - {t};
  }

  lemma RevokeAllTally(s: Auth, user: Id, now: Time, u: Id)
    ensures |OpenTokens(s.(tokens := AllRevoked(s.tokens, user, now)), u)| ==
            if u == user then 0 else |OpenTokens(s, u)|
  {
    assert OpenTokens(s.(tokens := AllRevoked(s.tokens, user, now)), u) ==
           if u == user then {} else OpenTokens(s, u);
  }

  lemma TallyStep(w: World, ev: Event, user: Id)
    requires Inv(w)
    ensures |OpenTokens(Next(w, ev).auth, user)| ==
            Moved(|OpenTokens(w.auth, user)|, ev.request, ReplyOf(w, ev), user)
    ensures ReplyOf(w, ev).Denied? ==> Next(w, ev).auth == w.auth
  {
    var draw, reply := DrawOf(w, ev), ReplyOf(w, ev);
    if reply.LoggedOut? {
      RevokeAllTally(w.auth, ev.request.user, draw.now, user);
    } else if reply.Granted? && ev.request.Rotate? {
      var t := ev.request.token;
      RevokeTally(w.auth, t, draw.now, user);
      GrantTally(w.auth.(tokens := Revoked(w.auth.tokens, t, draw.now)), t.sub, t.email, draw, user);
    } else if reply.Granted? {
      var email := Slugs.Lower(ev.request.email);
      var users := if ev.request.Register? then w.auth.users[draw.user := User(email, ev.request.password)]
                   else w.auth.users;
      GrantTally(w.auth.(users := users), reply.user, users[reply.user].email, draw, user);
      assert OpenTokens(w.auth.(users := users), user) == OpenTokens(w.auth, user);
    }
  }

  ghost function Tally(w: World, events: seq<Event>, user: Id, tally: int): int
    decreases |events|
  {
    if events == [] then tally
    else Tally(Next(w, events[0]), events[1..], user, Moved(tally, events[0].request, ReplyOf(w, events[0]), user))
  }

  /** Over every run a user's unrevoked tokens number the logins and registrations since the
      user's last logout: a refresh conserves the tally, a refused request leaves it, a logout
      clears it. */
  lemma {:induction false} OpenTokensTallied(w: World, events: seq<Event>, user: Id)
    requires Inv(w)
    ensures |OpenTokens(Run(w, events).auth, user)| == Tally(w, events, user, |OpenTokens(w.auth, user)|)
    decreases |events|
  {
    if events != [] {
      TallyStep(w, events[0], user);
      InvKept(w, events[0]);
      OpenTokensTallied(Next(w, events[0]), events[1..], user);
    }
  }
}
