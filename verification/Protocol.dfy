/**
 The publication protocol as interleaved steps: one certificate operation or settings save at a time
 (the manager's own lock), one user operation at a time, and the publication lock they share
 (internal/certificate/issue.go, internal/certificate/self_signed.go, internal/service/tls_settings.go,
 internal/service/users.go). A certificate operation saves its Issuing or Renewing record, orders
 the certificate and may give up without the publication lock, so those steps fall between the steps
 of a user operation. Any external call may fail.
 */
module Protocol {
  import opened Config
  import opened Coordinator
  import opened Database
  import opened Domain
  import opened Stores
  import opened TlsState
  import opened UserChanges
  import opened Wrappers

  datatype Holder = Free | ByCertificates | ByUsers

  /** Where the certificate side is; all but the first two phases hold the publication lock. */
  datatype CertPhase =
    | CertIdle
    | Ordering
    | Publishing
    | Confirming(before: World, bundle: Bundle)
    | Confirmed
    | Reverting(before: World, bundle: Bundle)
    | Degrading
    | Settings

  /** Where the user side is; `before` are the rows to restore. */
  datatype UserPhase = UserIdle | Entered | Written(before: Users) | Restoring(before: Users)

  /**
   `tlsOk` and `configOk` follow the two halves of the agreement. An undo that was not exact clears
   them; a completed publication sets both again, a successful apply the second.
   */
  datatype Sys = Sys(w: World, lock: Holder, cert: CertPhase, user: UserPhase, tlsOk: bool, configOk: bool)

  datatype Label =
    | StartOperation(saved: Option<Metadata>)
    | GiveUpOrdering(saved: Option<Metadata>)
    | EnterPublication
    | PublishSucceeds(bundle: Bundle)
    | PublishFails(restored: bool)
    | SaveConfirms(m: Metadata)
    | SaveFails
    | Complete
    | Revert(restored: bool)
    | Degrade(saved: Option<Metadata>)
    | EnterSettings
    | SaveSettings(m: Metadata)
    | SaveHostname(hostname: string)
    | LeaveSettings
    | EnterUsers
    | ChangeRow(id: nat, change: Change)
    | CreateRow(name: string, password: string)
    | LeaveUsers
    | ApplySucceeds
    | ApplyFails(exact: bool)
    | RestoreRows(restored: bool)

  function WithUsers(w: World, users: Users): World {
    w.(db := w.db.(users := users))
  }

  /** A save of a record that keeps its publication, or a failed one. */
  ghost predicate Saves(w: World, w': World, saved: Option<Metadata>) {
    if saved.None? then w' == w else SamePublication(w.db.meta, saved.value) && w' == WithMeta(w, saved.value)
  }

  ghost predicate Takes(s: Sys, l: Label, s': Sys) {
    match l
    case StartOperation(saved) =>
      s.cert.CertIdle? && Saves(s.w, s'.w, saved) && s' == s.(w := s'.w, cert := Ordering)
    case GiveUpOrdering(saved) =>
      s.cert.Ordering? && Saves(s.w, s'.w, saved) && s' == s.(w := s'.w, cert := CertIdle)
    case EnterPublication =>
      s.cert.Ordering? && s.lock.Free? && s' == s.(lock := ByCertificates, cert := Publishing)
    case PublishSucceeds(b) =>
      s.cert.Publishing? && Published(s.w, s'.w, b) && s' == s.(w := s'.w, cert := Confirming(s.w, b))
    case PublishFails(restored) =>
      && s.cert.Publishing?
      && s' == s.(w := s'.w, cert := Degrading, tlsOk := s.tlsOk && restored, configOk := s.configOk && restored)
      && (if restored then Undone(s.w, s'.w) else PointersOnly(s.w, s'.w))
    case SaveConfirms(m) =>
      && s.cert.Confirming? && m.active == Some(s.cert.bundle) && PathsMatch(Some(m))
      && s' == s.(w := WithMeta(s.w, m), cert := Confirmed)
    case SaveFails =>
      s.cert.Confirming? && s' == s.(cert := Reverting(s.cert.before, s.cert.bundle))
    case Complete =>
      && s.cert.Confirmed?
      && s' == s.(w := Completed(s.w), lock := Free, cert := CertIdle, tlsOk := true, configOk := true)
    case Revert(restored) =>
      && s.cert.Reverting?
      && s' == s.(w := s'.w, cert := Degrading, tlsOk := s.tlsOk && restored, configOk := s.configOk && restored)
      && s.w.pending.Some?
      && (if restored then Reverted(s.w, s'.w, s.w.pending.value)
          else PointersOnly(s.w, s'.w) && s'.w.pending.None?)
    case Degrade(saved) =>
      s.cert.Degrading? && Saves(s.w, s'.w, saved) && s' == s.(w := s'.w, lock := Free, cert := CertIdle)
    case EnterSettings =>
      s.cert.CertIdle? && s.lock.Free? && s' == s.(lock := ByCertificates, cert := Settings)
    case SaveSettings(m) =>
      s.cert.Settings? && Saves(s.w, s'.w, Some(m)) && s' == s.(w := s'.w)
    case SaveHostname(hostname) =>
      s.cert.Settings? && s' == s.(w := s.w.(db := s.w.db.(hostname := hostname)))
    case LeaveSettings =>
      s.cert.Settings? && s' == s.(lock := Free, cert := CertIdle)
    case EnterUsers =>
      s.lock.Free? && s.user.UserIdle? && s' == s.(lock := ByUsers, user := Entered)
    case ChangeRow(id, change) =>
      && s.user.Entered? && ChangedDb(s.w.db, id, change).Some?
      && s' == s.(w := s.w.(db := ChangedDb(s.w.db, id, change).value), user := Written(s.w.db.users))
    case CreateRow(name, password) =>
      && s.user.Entered? && !NameTaken(s.w.db.users, name)
      && s' == s.(w := s.w.(db := Inserted(s.w.db, name, password)), user := Written(s.w.db.users))
    case LeaveUsers =>
      s.user.Entered? && s' == s.(lock := Free, user := UserIdle)
    case ApplySucceeds =>
      && s.user.Written? && s' == s.(w := s'.w, lock := Free, user := UserIdle, configOk := true)
      && s'.w == s.w.(db := s'.w.db, cfg := s'.w.cfg)
      && ApplySucceeded(s.w.db, s.w.cfg, s'.w.db, s'.w.cfg)
    case ApplyFails(exact) =>
      && s.user.Written?
      && s' == s.(w := s'.w, user := Restoring(s.user.before), configOk := s.configOk && exact)
      && s'.w == s.w.(db := s.w.db.(revision := s'.w.db.revision), cfg := s'.w.cfg)
      && s.w.cfg.revisions.Keys <= s'.w.cfg.revisions.Keys
      && (exact ==> Exact(s.w.db, s.w.cfg, s'.w.db, s'.w.cfg) && (Pointing(s.w.cfg) ==> Pointing(s'.w.cfg)))
    case RestoreRows(restored) =>
      && s.user.Restoring?
      && s' == s.(w := if restored then WithUsers(s.w, s.user.before) else s.w,
                  lock := Free, user := UserIdle, configOk := s.configOk && restored)
  }

  // ----- The inductive invariant

  /** The phases and the lock holder fit together, and ids and names stay in order. */
  ghost predicate Orderly(s: Sys) {
    && (s.lock.ByUsers? <==> !s.user.UserIdle?)
    && (s.lock.ByCertificates? <==> !s.cert.CertIdle? && !s.cert.Ordering?)
    && WellKept(s.w.db.users, s.w.db.nextId)
    && (s.user.Written? || s.user.Restoring? ==> WellKept(s.user.before, s.w.db.nextId))
  }

  predicate Unconfirmed(s: Sys) {
    s.cert.Confirming? || s.cert.Reverting?
  }

  /** What a running publication rests on, however the system came to be. */
  ghost predicate Carried(s: Sys) {
    && (Unconfirmed(s) ==>
          Published(s.cert.before, s.w, s.cert.bundle) && WellKept(s.cert.before.db.users, s.cert.before.db.nextId))
    && (s.cert.Confirmed? ==> Joint(Completed(s.w)))
  }

  /** The state as it is once an open user change is undone. */
  function Settled(s: Sys): World {
    if s.user.Written? || s.user.Restoring? then WithUsers(s.w, s.user.before) else s.w
  }

  /** What each phase has to make good before it frees the lock: the certificate half. */
  ghost predicate TlsAgreed(s: Sys) {
    if Unconfirmed(s) then JointTls(s.cert.before) else s.cert.Confirmed? || JointTls(s.w)
  }

  /** The configuration half. */
  ghost predicate ConfigAgreed(s: Sys) {
    if Unconfirmed(s) then JointConfig(s.cert.before) else s.cert.Confirmed? || JointConfig(Settled(s))
  }

  ghost predicate Inv(s: Sys) {
    Orderly(s) && Carried(s) && (s.tlsOk ==> TlsAgreed(s)) && (s.configOk ==> ConfigAgreed(s))
  }

  /** The steps of the certificate manager and of the settings service. */
  predicate ByManager(l: Label) {
    || l.StartOperation? || l.GiveUpOrdering? || l.EnterPublication? || l.PublishSucceeds? || l.PublishFails?
    || l.SaveConfirms? || l.SaveFails? || l.Complete? || l.Revert? || l.Degrade?
    || l.EnterSettings? || l.SaveSettings? || l.SaveHostname? || l.LeaveSettings?
  }

  lemma ManagerKeepsUsers(s: Sys, l: Label, s': Sys)
    requires Takes(s, l, s') && ByManager(l)
    ensures s'.user == s.user && s'.w.db.users == s.w.db.users && s'.w.db.nextId == s.w.db.nextId
  {
  }

  lemma ManagerKeepsLock(s: Sys, l: Label, s': Sys)
    requires Orderly(s) && Takes(s, l, s') && ByManager(l)
    ensures s'.lock.ByUsers? <==> s.lock.ByUsers?
    ensures s'.lock.ByCertificates? <==> !s'.cert.CertIdle? && !s'.cert.Ordering?
  {
  }

  lemma OrderlyKept(s: Sys, l: Label, s': Sys)
    requires Orderly(s) && Takes(s, l, s')
    ensures Orderly(s')
  {
    if ByManager(l) {
      ManagerKeepsUsers(s, l, s');
      ManagerKeepsLock(s, l, s');
    }
  }

  lemma CarriedKept(s: Sys, l: Label, s': Sys)
    requires Orderly(s) && Carried(s) && Takes(s, l, s')
    ensures Carried(s')
  {
    if l.SaveConfirms? {
      ConfirmedIsJoint(s.cert.before, s.w, s.cert.bundle, l.m);
    }
  }

  predicate SavesRecord(l: Label) {
    l.StartOperation? || l.GiveUpOrdering? || l.Degrade? || l.SaveSettings?
  }

  /** A record saved without a publication keeps both halves, even while a user change is open. */
  lemma SaveKeeps(s: Sys, l: Label, s': Sys)
    requires Orderly(s) && Takes(s, l, s') && SavesRecord(l)
    ensures TlsAgreed(s) ==> TlsAgreed(s')
    ensures ConfigAgreed(s) ==> ConfigAgreed(s')
  {
    if s'.w != s.w {
      var m := s'.w.db.meta.value;
      MetaKeepsHalves(s.w, m);
      MetaKeepsHalves(Settled(s), m);
      assert WithMeta(Settled(s), m) == Settled(s');
    }
  }

  predicate Publishes(l: Label) {
    l.PublishSucceeds? || l.PublishFails? || l.SaveConfirms? || l.SaveFails? || l.Complete? || l.Revert?
  }

  /** The steps of a publication keep both halves; its completion establishes them. */
  lemma PublishKeeps(s: Sys, l: Label, s': Sys)
    requires Orderly(s) && Carried(s) && Takes(s, l, s') && Publishes(l)
    ensures s'.tlsOk && (l.Complete? || TlsAgreed(s)) ==> TlsAgreed(s')
    ensures s'.configOk && (l.Complete? || ConfigAgreed(s)) ==> ConfigAgreed(s')
  {
    if l == PublishFails(true) {
      UndoneKeepsHalves(s.w, s'.w);
    } else if l == Revert(true) {
      RevertKeepsHalves(s.cert.before, s.w, s.cert.bundle, s'.w);
    }
  }

  /** The steps of a user change keep both halves; a successful apply establishes the second. */
  lemma UserKeeps(s: Sys, l: Label, s': Sys)
    requires Orderly(s) && Takes(s, l, s')
    requires l.ChangeRow? || l.CreateRow? || l.ApplySucceeds? || l.ApplyFails? || l.RestoreRows?
    ensures TlsAgreed(s) ==> TlsAgreed(s')
    ensures s'.configOk && (l.ApplySucceeds? || ConfigAgreed(s)) ==> ConfigAgreed(s')
  {
    match l
    case ChangeRow(_, _) => assert Settled(s') == s.w;
    case CreateRow(_, _) =>
      assert Settled(s') == s.w.(db := s.w.db.(nextId := s.w.db.nextId + 1));
      SpentId(s.w.db);
    case ApplySucceeds => WantedDescribes(s.w.db);
    case ApplyFails(_) =>
    case RestoreRows(_) =>
  }

  lemma WantedDescribes(db: Db)
    ensures Describes(Wanted(db), db)
  {
    RenderedDescribes(db, CertPath(db.meta), KeyPath(db.meta));
  }

  lemma LockKeeps(s: Sys, l: Label, s': Sys)
    requires Orderly(s) && Takes(s, l, s')
    requires || l.EnterPublication? || l.EnterSettings? || l.SaveHostname? || l.LeaveSettings?
             || l.EnterUsers? || l.LeaveUsers?
    ensures TlsAgreed(s) ==> TlsAgreed(s')
    ensures ConfigAgreed(s) ==> ConfigAgreed(s')
  {
  }

  lemma InvKept(s: Sys, l: Label, s': Sys)
    requires Inv(s) && Takes(s, l, s')
    ensures Inv(s')
  {
    OrderlyKept(s, l, s');
    CarriedKept(s, l, s');
    OkKept(s, l, s');
    if SavesRecord(l) {
      SaveKeeps(s, l, s');
    } else if Publishes(l) {
      PublishKeeps(s, l, s');
    } else if l.ChangeRow? || l.CreateRow? || l.ApplySucceeds? || l.ApplyFails? || l.RestoreRows? {
      UserKeeps(s, l, s');
    } else {
      LockKeeps(s, l, s');
    }
  }

  /** Only a completion and a successful apply set what was cleared. */
  lemma OkKept(s: Sys, l: Label, s': Sys)
    requires Takes(s, l, s')
    ensures s'.tlsOk ==> s.tlsOk || l.Complete?
    ensures s'.configOk ==> s.configOk || l.Complete? || l.ApplySucceeds?
  {
  }

  // ----- Runs

  ghost predicate Run(states: seq<Sys>, labels: seq<Label>) {
    |states| == |labels| + 1 && forall i | 0 <= i < |labels| :: Takes(states[i], labels[i], states[i + 1])
  }

  /** A quiet start: nobody holds the lock, and what is said to agree does. */
  ghost predicate Start(s: Sys) {
    && s.lock.Free? && s.cert.CertIdle? && s.user.UserIdle? && WellKept(s.w.db.users, s.w.db.nextId)
    && (s.tlsOk ==> JointTls(s.w)) && (s.configOk ==> JointConfig(s.w))
  }

  /** A fresh installation is such a start, with both halves in agreement. */
  lemma FreshStarts(listen: string)
    ensures var db := Db("", listen, None, map[], 1, map[], None);
            Start(Sys(World(db, Disk(map[], map[], None, None), Disk(map[], map[], None, None), None, None),
                      Free, CertIdle, UserIdle, true, true))
  {
  }

  lemma {:induction false} InvAlways(states: seq<Sys>, labels: seq<Label>, i: nat)
    requires Run(states, labels) && Start(states[0]) && i <= |labels|
    ensures Inv(states[i])
  {
    if i > 0 {
      InvAlways(states, labels, i - 1);
      InvKept(states[i - 1], labels[i - 1], states[i]);
    }
  }

  /**
   In every interleaving of user changes, issue, renewal, import and settings saves, whatever fails:
   whenever the publication lock is free, each half of the agreement holds that no inexact undo has
   broken since it was last established; with both, the five stored facts agree.
   */
  lemma JointWheneverFree(states: seq<Sys>, labels: seq<Label>, i: nat)
    requires Run(states, labels) && Start(states[0]) && i <= |labels|
    requires states[i].lock.Free?
    ensures states[i].tlsOk ==> JointTls(states[i].w)
    ensures states[i].configOk ==> JointConfig(states[i].w)
    ensures states[i].tlsOk && states[i].configOk ==> Joint(states[i].w)
  {
    InvAlways(states, labels, i);
  }

  /**
   Whatever went wrong before: a completed publication puts all five facts in agreement again, and a
   successful user change the rows, the recorded revision and the configuration.
   */
  lemma Recovers(states: seq<Sys>, labels: seq<Label>, i: nat)
    requires Run(states, labels) && Start(states[0]) && i < |labels|
    ensures labels[i].Complete? ==> Joint(states[i + 1].w)
    ensures labels[i].ApplySucceeds? ==> JointConfig(states[i + 1].w)
  {
    assert Takes(states[i], labels[i], states[i + 1]);
    if labels[i].Complete? || labels[i].ApplySucceeds? {
      JointWheneverFree(states, labels, i + 1);
    }
  }

  /** The AdminUI keeps showing the same pair in every step but the completion of a confirmed publication. */
  lemma AdminMovesOnlyOnComplete(states: seq<Sys>, labels: seq<Label>, i: nat)
    requires Run(states, labels) && i < |labels| && !labels[i].Complete?
    ensures states[i + 1].w.admin == states[i].w.admin
  {
    assert Takes(states[i], labels[i], states[i + 1]);
  }

  // ----- Revocation

  /** The user of that name is revoked, and no pending undo would bring another row back. */
  ghost predicate Revoked(s: Sys, id: nat, name: string) {
    && id in s.w.db.users && s.w.db.users[id].status.UserRevoked? && s.w.db.users[id].username == name
    && (s.user.Written? || s.user.Restoring? ==>
          id in s.user.before && s.user.before[id].status.UserRevoked? && s.user.before[id].username == name)
  }

  lemma RevokedKept(s: Sys, l: Label, s': Sys, id: nat, name: string)
    requires Orderly(s) && Takes(s, l, s') && Revoked(s, id, name)
    ensures Revoked(s', id, name)
  {
    if ByManager(l) {
      ManagerKeepsUsers(s, l, s');
    }
  }

  lemma {:induction false} RevokedAlways(states: seq<Sys>, labels: seq<Label>, i: nat, j: nat, id: nat, name: string)
    requires Run(states, labels) && Start(states[0]) && i <= j <= |labels|
    requires Revoked(states[i], id, name)
    ensures Revoked(states[j], id, name)
    decreases j
  {
    if i < j {
      RevokedAlways(states, labels, i, j - 1, id, name);
      InvAlways(states, labels, j - 1);
      RevokedKept(states[j - 1], labels[j - 1], states[j], id, name);
    }
  }

  /**
   Once a revocation has gone through, the user stays revoked under that name in every later state,
   and at every later point where the lock is free and the configuration half is in agreement, the
   current credentials file does not hold the name.
   */
  lemma RevokedStaysOut(states: seq<Sys>, labels: seq<Label>, i: nat, j: nat, id: nat)
    requires Run(states, labels) && Start(states[0]) && i <= j <= |labels|
    requires states[i].lock.Free? && id in states[i].w.db.users && states[i].w.db.users[id].status.UserRevoked?
    ensures var name := states[i].w.db.users[id].username;
            && id in states[j].w.db.users && states[j].w.db.users[id].status.UserRevoked?
            && states[j].w.db.users[id].username == name
            && (states[j].lock.Free? && states[j].configOk && states[j].w.cfg.current.Some? ==>
                  var files := states[j].w.cfg.current.value;
                  && CredentialsToml in files && files[CredentialsToml].Credentials?
                  && name !in files[CredentialsToml].logins)
  {
    var name := states[i].w.db.users[id].username;
    InvAlways(states, labels, i);
    RevokedAlways(states, labels, i, j, id, name);
    InvAlways(states, labels, j);
    if states[j].lock.Free? && states[j].configOk {
      var db := states[j].w.db;
      LoginsBelowExact(db.users, db.nextId, name);
    }
  }

  /** While a user change is open, the steps of the certificate side leave its row and its place alone. */
  lemma {:induction false} OpenChangeKept(states: seq<Sys>, labels: seq<Label>, i: nat, k: nat)
    requires Run(states, labels) && i <= k <= |labels| && forall t | i <= t < k :: ByManager(labels[t])
    ensures states[k].w.db.users == states[i].w.db.users && states[k].user == states[i].user
    decreases k
  {
    if i < k {
      OpenChangeKept(states, labels, i, k - 1);
      ManagerKeepsUsers(states[k - 1], labels[k - 1], states[k]);
    }
  }

  /**
   Revoking an active or disabled user, once its apply has succeeded, keeps the name out of the current
   credentials file for good: at every later point where the lock is free and the configuration half is
   in agreement.
   */
  lemma RevokeSticks(states: seq<Sys>, labels: seq<Label>, i: nat, k: nat, j: nat, id: nat)
    requires Run(states, labels) && Start(states[0]) && i < k < j <= |labels|
    requires labels[i] == ChangeRow(id, Revoke) && labels[k].ApplySucceeds?
    requires forall t | i < t < k :: ByManager(labels[t])
    ensures id in states[i].w.db.users && !states[i].w.db.users[id].status.UserRevoked?
    ensures var name := states[i].w.db.users[id].username;
            && id in states[j].w.db.users && states[j].w.db.users[id].status.UserRevoked?
            && states[j].w.db.users[id].username == name
            && (states[j].lock.Free? && states[j].configOk ==> LoginIn(states[j].w.cfg.current, name) == None)
  {
    assert Takes(states[i], labels[i], states[i + 1]);
    InvAlways(states, labels, i);
    ChangeShows(states[i].w.db, id, Revoke);
    OpenChangeKept(states, labels, i + 1, k);
    assert Takes(states[k], labels[k], states[k + 1]);
    RevokedStaysOut(states, labels, k + 1, j, id);
  }
}
