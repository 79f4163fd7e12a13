/**
 Administrator sessions: internal/auth/session.go over the session queries of
 internal/persistence/sqlite.go. A token is identified with its hash and a password with its
 hash (both digests taken as injective). Boolean parameters named `...Fails` are database errors.
 */
module Sessions {
  import opened Strings
  import opened Timestamps
  import opened Wrappers

  datatype Admin = Admin(username: string, password: string)

  datatype Row = Row(admin: nat, expires: string)

  datatype Session = Session(token: string, admin: nat, expires: Instant)

  /** Whether the query of `SessionAdmin` finds the token at `now`: a comparison of two texts. */
  predicate Live(sessions: map<string, Row>, token: string, now: Instant) {
    token in sessions && Less(Text(now), sessions[token].expires)
  }

  class Repository {
    var admins: map<nat, Admin>
    var sessions: map<string, Row>

    /** The schema: one administrator, and every session belongs to an existing one. */
    ghost predicate Valid()
      reads this
    {
      admins.Keys <= {1} && forall t | t in sessions :: sessions[t].admin in admins
    }

    constructor ()
      ensures Valid() && admins == map[] && sessions == map[]
    {
      admins, sessions := map[], map[];
    }

    method CreateSession(token: string, admin: nat, expires: Instant, fails: bool) returns (s: Status)
      requires Valid()
      modifies this
      ensures Valid() && admins == old(admins)
      ensures s.Done? <==> !fails && token !in old(sessions) && admin in admins
      ensures sessions == if s.Done? then old(sessions)[token := Row(admin, Text(expires))] else old(sessions)
    {
      if fails || token in sessions || admin !in admins {
        return Failed;
      }
      sessions := sessions[token := Row(admin, Text(expires))];
      s := Done;
    }

    method SessionAdmin(token: string, now: Instant, purgeFails: bool, queryFails: bool)
      returns (r: Result<Option<nat>>)
      requires Valid()
      modifies this
      ensures Valid() && admins == old(admins)
      ensures sessions == if purgeFails then old(sessions)
                          else map t | t in old(sessions) && Live(old(sessions), t, now) :: old(sessions)[t]
      ensures r.Err? <==> queryFails
      ensures r.Ok? ==> r.value == if Live(old(sessions), token, now) then Some(old(sessions)[token].admin) else None
    {
      if !purgeFails {
        sessions := map t | t in sessions && Less(Text(now), sessions[t].expires) :: sessions[t];
      }
      if queryFails {
        return Err;
      }
      if token in sessions && Less(Text(now), sessions[token].expires) {
        return Ok(Some(sessions[token].admin));
      }
      r := Ok(None);
    }

    method DeleteSession(token: string, fails: bool) returns (s: Status)
      requires Valid()
      modifies this
      ensures Valid() && admins == old(admins)
      ensures s.Failed? <==> fails
      ensures sessions == if fails then old(sessions) else old(sessions) - {token}
    {
      if fails {
        return Failed;
      }
      sessions := sessions - {token};
      s := Done;
    }

    /** One transaction: the new hash is stored and every session of the administrator goes. */
    method UpdateAdminPassword(admin: nat, password: string, fails: bool) returns (s: Status)
      requires Valid()
      modifies this
      ensures Valid()
      ensures s.Failed? <==> fails
      ensures fails ==> admins == old(admins) && sessions == old(sessions)
      ensures !fails ==> admins == map a | a in old(admins) ::
                                     if a == admin then old(admins)[a].(password := password) else old(admins)[a]
      ensures !fails ==> sessions == map t | t in old(sessions) && old(sessions)[t].admin != admin :: old(sessions)[t]
    {
      if fails {
        return Failed;
      }
      admins := map a | a in admins :: if a == admin then admins[a].(password := password) else admins[a];
      sessions := map t | t in sessions && sessions[t].admin != admin :: sessions[t];
      s := Done;
    }
  }

  /** Which of the calls of one request fail. */
  datatype Faults = Faults(purge: bool, query: bool, policy: bool, update: bool, token: bool, insert: bool)

  class Service {
    const repo: Repository

    constructor (repo: Repository)
      ensures this.repo == repo
    {
      this.repo := repo;
    }

    /** `expires` is the creation time plus the session lifetime. */
    method Create(admin: nat, token: string, expires: Instant, f: Faults) returns (r: Result<Session>)
      requires repo.Valid()
      modifies repo
      ensures repo.Valid() && repo.admins == old(repo.admins)
      ensures r.Ok? <==> !f.token && !f.insert && token !in old(repo.sessions) && admin in repo.admins
      ensures r.Ok? ==> r.value == Session(token, admin, expires)
      ensures repo.sessions ==
              if r.Ok? then old(repo.sessions)[token := Row(admin, Text(expires))] else old(repo.sessions)
    {
      if f.token {
        return Err;
      }
      var s := repo.CreateSession(token, admin, expires, f.insert);
      if s.Failed? {
        return Err;
      }
      r := Ok(Session(token, admin, expires));
    }

    method Authenticate(token: string, now: Instant, f: Faults) returns (r: Result<nat>)
      requires repo.Valid()
      modifies repo
      ensures repo.Valid() && repo.admins == old(repo.admins)
      ensures r.Ok? <==> token != "" && !f.query && Live(old(repo.sessions), token, now)
      ensures r.Ok? ==> r.value == old(repo.sessions)[token].admin && r.value in repo.admins
      ensures forall t :: t in repo.sessions ==> t in old(repo.sessions) && repo.sessions[t] == old(repo.sessions)[t]
      ensures forall t :: Live(old(repo.sessions), t, now) ==> t in repo.sessions
    {
      if token == "" {
        return Err;
      }
      var found := repo.SessionAdmin(token, now, f.purge, f.query);
      match found
      case Err => r := Err;
      case Ok(None) => r := Err;
      case Ok(Some(admin)) => r := Ok(admin);
    }

    method Logout(token: string, fails: bool) returns (s: Status)
      requires repo.Valid()
      modifies repo
      ensures repo.Valid() && repo.admins == old(repo.admins)
      ensures s.Failed? <==> token != "" && fails
      ensures token != "" && s.Done? ==> forall now :: !Live(repo.sessions, token, now)
      ensures forall t | t != token :: t in repo.sessions <==> t in old(repo.sessions)
      ensures forall t | t in repo.sessions :: t in old(repo.sessions) && repo.sessions[t] == old(repo.sessions)[t]
    {
      if token == "" {
        return Done;
      }
      s := repo.DeleteSession(token, fails);
    }

    /**
     After a password change the returned token is the only session left, whoever held the others.
     A failure after the transaction leaves no session at all; any earlier failure leaves every live
     session and the password alone.
     */
    method ChangePassword(token: string, current: string, next: string, now: Instant,
                          issued: string, expires: Instant, f: Faults)
      returns (r: Result<Session>)
      requires repo.Valid()
      modifies repo
      ensures repo.Valid()
      ensures r.Ok? ==> Live(old(repo.sessions), token, now) && old(repo.admins)[1].password == current
      ensures r.Ok? ==> r.value == Session(issued, 1, expires)
      ensures r.Ok? ==> repo.sessions == map[issued := Row(1, Text(expires))]
      ensures r.Ok? ==> repo.admins == old(repo.admins)[1 := old(repo.admins)[1].(password := next)]
      ensures r.Err? ==>
                || repo.sessions == map[]
                || (repo.admins == old(repo.admins) &&
                    forall t :: Live(old(repo.sessions), t, now) ==> Live(repo.sessions, t, now))
      ensures r.Ok? <==>
              && token != "" && Live(old(repo.sessions), token, now) && old(repo.admins)[1].password == current
              && f.(purge := false) == Faults(false, false, false, false, false, false)
    {
      var who := Authenticate(token, now, f);
      if who.Err? {
        return Err;
      }
      var admin := who.value;
      if repo.admins[admin].password != current {
        return Err;
      }
      if f.policy {
        return Err;
      }
      var s := repo.UpdateAdminPassword(admin, next, f.update);
      if s.Failed? {
        return Err;
      }
      assert repo.sessions == map[];
      r := Create(admin, issued, expires, f);
    }
  }

  /**
   When the text comparison accepts a token: across seconds it follows the clock; inside the
   expiry second it errs exactly when one trimmed fraction is a prefix of the other.
   */
  lemma AcceptanceExact(now: Instant, expiry: Instant)
    requires Valid(now) && Valid(expiry)
    ensures Less(Text(now), Text(expiry)) <==>
            if Seconds(now) != Seconds(expiry) then Seconds(now) < Seconds(expiry)
            else if now.nanos < expiry.nanos then !(Fraction(now) <= Fraction(expiry))
            else now.nanos != expiry.nanos && Fraction(expiry) <= Fraction(now)
  {
    if Seconds(now) < Seconds(expiry) {
      TextOrdersSeconds(now, expiry);
    } else if Seconds(expiry) < Seconds(now) {
      TextOrdersSeconds(expiry, now);
    } else {
      EarlierIsFewerSeconds(now, expiry);
      if now.nanos < expiry.nanos {
        TextOrdersWithinSecond(now, expiry);
      } else if expiry.nanos < now.nanos {
        TextOrdersWithinSecond(expiry, now);
      } else {
        assert Text(now) == Text(expiry);
        LessIrreflexive(Text(now));
      }
    }
  }

  /** A session is never accepted a second or more late nor refused a second or more early. */
  lemma ExpiryWithinOneSecond(sessions: map<string, Row>, token: string, now: Instant, expiry: Instant)
    requires Valid(now) && Valid(expiry)
    requires token in sessions && sessions[token].expires == Text(expiry)
    ensures Nanos(now) >= Nanos(expiry) + 1_000_000_000 ==> !Live(sessions, token, now)
    ensures Nanos(now) <= Nanos(expiry) - 1_000_000_000 ==> Live(sessions, token, now)
  {
    AcceptanceExact(now, expiry);
  }

  /** Inside one second the comparison can be wrong both ways: half a second late, half a second early. */
  lemma ComparisonCanErr()
    ensures var whole := Instant(2026, 1, 2, 3, 4, 5, 0);
            var half := Instant(2026, 1, 2, 3, 4, 5, 500_000_000);
            && Nanos(whole) < Nanos(half)
            && Less(Text(half), Text(whole)) && !Less(Text(whole), Text(half))
  {
    var whole := Instant(2026, 1, 2, 3, 4, 5, 0);
    var half := Instant(2026, 1, 2, 3, 4, 5, 500_000_000);
    assert Fraction(whole) == "" by {
      var f := Fraction(whole);
      if f != "" {
        ZeroDigits(9, |f| - 1);
      }
    }
    AcceptanceExact(half, whole);
    AcceptanceExact(whole, half);
  }

  lemma {:induction false} ZeroDigits(width: nat, i: nat)
    requires i < width
    ensures Decimal(0, width)[i] == '0'
  {
    if i < width - 1 {
      ZeroDigits(width - 1, i);
    }
  }
}
