/**
 Configuration changes made for VPN users: `ApplyManager` of internal/service/apply.go and
 `UserManager` of internal/service/users.go. Both run under the publication lock.
 */
module UserChanges {
  import opened Config
  import opened Coordinator
  import opened Database
  import opened Domain
  import opened Endpoint
  import opened Stores
  import opened TlsState
  import opened Wrappers

  datatype Action = Restart | Sighup | NoAction | Unknown

  type ConfigDisk = Disk<Files, FileName, Content>

  /** The configuration the rows ask for. */
  function Wanted(db: Db): Files {
    Rendered(db, CertPath(db.meta), KeyPath(db.meta))
  }

  /** A rollback whose calls work: a swap, or a refusal where there is no predecessor. */
  ghost predicate RolledBack(d: ConfigDisk, d': ConfigDisk) {
    if d.current.Some? && d.previous.Some? then Swapped(d, d') else d' == d
  }

  /**
   When a failed apply of `files` is taken back: there was a current revision, and it differed from
   the new one, or equals the revision the swap brings back, or there is none to swap with.
   */
  predicate UndoExact(d: ConfigDisk, files: Files) {
    d.current.Some? && (d.current != Some(files) || d.previous == d.current || d.previous.None?)
  }

  /** Applying `files` and rolling back restores the current revision exactly under that condition. */
  lemma RollbackExact(d: ConfigDisk, mid: ConfigDisk, d': ConfigDisk, files: Files)
    requires Applied(d, mid, files) && RolledBack(mid, d')
    ensures d'.current == d.current <==> UndoExact(d, files)
  {
  }

  /** `process` fails while the new configuration is taken over, `again` while the old one is. */
  datatype ApplyFaults = ApplyFaults(snapshot: bool, revision: bool, files: set<Call>, setRevision: bool,
                                     process: ProcessFaults, rollback: set<Call>, restoreRevision: bool,
                                     again: ProcessFaults)

  /** What an action asks of the process fails. */
  predicate ActionFails(action: Action, child: Process, f: ProcessFaults) {
    match action
    case Restart => RestartFails(child, f)
    case Sighup => ReloadFails(child, f)
    case NoAction => false
    case Unknown => true
  }

  /** What every failed apply leaves; `reached` tells whether the files had been applied. */
  ghost predicate ApplyFailed(db: Db, d: ConfigDisk, db': Db, d': ConfigDisk, reached: bool) {
    && db' == db.(revision := db'.revision)
    && d.revisions.Keys <= d'.revisions.Keys
    && if reached then d'.current.Some? else db' == db && Kept(d, d')
  }

  /** The undo of a failed apply was exact. */
  ghost predicate Exact(db: Db, d: ConfigDisk, db': Db, d': ConfigDisk) {
    db' == db && d'.current == d.current
  }

  ghost predicate ApplySucceeded(db: Db, d: ConfigDisk, db': Db, d': ConfigDisk) {
    db' == db.(revision := Some(Wanted(db))) && Applied(d, d', Wanted(db))
  }

  class ApplyManager {
    const repo: Store
    const files: Materializer
    const process: ReadinessProcess
    const lib: Library

    constructor (repo: Store, files: Materializer, process: ReadinessProcess, lib: Library)
      ensures this.repo == repo && this.files == files && this.process == process && this.lib == lib
    {
      this.repo, this.files, this.process, this.lib := repo, files, process, lib;
    }

    ghost predicate Valid()
      reads repo, files
    {
      repo.Valid() && files.Valid()
    }

    /** Nothing before the recorded revision fails: the rows render and the store takes their files. */
    ghost predicate Reaches(db: Db, d: ConfigDisk, f: ApplyFaults) {
      && !f.snapshot && !f.revision
      && HeadOk(db.listen, db.hostname, CertPath(db.meta), KeyPath(db.meta), lib) && RowsOk(db.users, db.rules, lib)
      && files.Takes(d, Wanted(db), f.files)
    }

    /** Nothing at all fails. */
    ghost predicate Works(db: Db, d: ConfigDisk, child: Process, action: Action, f: ApplyFaults) {
      Reaches(db, d, f) && !f.setRevision && !ActionFails(action, child, f.process)
    }

    /**
     The undo after a restart or reload that failed: swap the files back, restore the old revision, and
     bring the process back.
     */
    method TakeBack(was: Option<Files>, action: Action, f: ApplyFaults)
      requires Valid()
      modifies repo, files, process
      ensures Valid() && repo.log == old(repo.log) && files.disk.revisions == old(files.disk).revisions
      ensures repo.db == old(repo.db).(revision := repo.db.revision)
      ensures !f.restoreRevision ==> repo.db.revision == was
      ensures old(files.disk).current.Some? ==> files.disk.current.Some?
      ensures SwapWorks(f.rollback) ==> RolledBack(old(files.disk), files.disk)
      ensures action.Restart? && !RestartFails(old(process.child), f.again) ==> process.child == Started(was)
      ensures action.Sighup? && old(process.child).Started? ==>
                process.child == old(process.child) &&
                process.signals == old(process.signals) + if f.again.signal then 0 else 1
      ensures action.NoAction? || action.Unknown? ==> process.child == old(process.child)
    {
      var _ := files.Rollback(f.rollback);
      var _ := repo.SetActiveRevision(was, f.restoreRevision);
      match action
      case Restart => var _ := process.Restart(was, f.again);
      case Sighup => var _ := process.Reload(repo.db.revision, f.again);
      case _ =>
    }

    /** The process takes over what is recorded. */
    method TakeOver(action: Action, f: ProcessFaults) returns (s: Status)
      modifies process
      ensures s.Failed? <==> ActionFails(action, old(process.child), f)
      ensures s.Done? && action.Restart? ==> process.child == Started(repo.db.revision)
      ensures s.Done? && old(process.child).Started? && action.Sighup? ==>
                process.child == old(process.child) && process.signals == old(process.signals) + 1
      ensures action.NoAction? || action.Unknown? ==> process.child == old(process.child)
    {
      match action
      case Restart => s := process.Restart(repo.db.revision, f);
      case Sighup => s := process.Reload(repo.db.revision, f);
      case NoAction => s := Done;
      case Unknown => s := Failed;
    }

    /** With the files applied on `d`: record the revision and bring the process along, or undo. */
    method Activate(wanted: Files, action: Action, f: ApplyFaults, ghost d: ConfigDisk) returns (r: Result<Files>)
      requires Valid() && wanted == Wanted(repo.db) && Applied(d, files.disk, wanted)
      modifies repo, files, process
      ensures Valid() && repo.log == old(repo.log)
      ensures r.Ok? ==> r.value == wanted && ApplySucceeded(old(repo.db), d, repo.db, files.disk)
      ensures r.Err? ==> ApplyFailed(old(repo.db), d, repo.db, files.disk, true)
      ensures r.Err? && !f.restoreRevision ==> repo.db == old(repo.db)
      ensures r.Err? && SwapWorks(f.rollback) ==> (files.disk.current == d.current <==> UndoExact(d, wanted))
      ensures r.Err? <==> f.setRevision || ActionFails(action, old(process.child), f.process)
      ensures r.Ok? && action.Restart? ==> process.child == Started(Some(wanted))
      ensures r.Ok? && action.Sighup? && old(process.child).Started? ==>
                process.child == old(process.child) && process.signals == old(process.signals) + 1
      ensures r.Err? && action.Restart? && f.again == NoProcessFaults ==>
                process.child == if f.setRevision then old(process.child) else Started(old(repo.db).revision)
    {
      var was := repo.db.revision;
      ghost var mid := files.disk;
      var saved := repo.SetActiveRevision(Some(wanted), f.setRevision);
      if saved.Failed? {
        var _ := files.Rollback(f.rollback);
      } else {
        var taken := TakeOver(action, f.process);
        if taken.Done? {
          return Ok(wanted);
        }
        TakeBack(was, action, f);
      }
      if SwapWorks(f.rollback) {
        RollbackExact(d, mid, files.disk, wanted);
      }
      r := Err;
    }

    /**
     It succeeds exactly when the rows render, the store takes their files, and no other call fails, the
     restart or reload among them; `reached` tells whether the files were applied. After a failure with a
     working rollback the current configuration is as before if and only if they were not, or
     `UndoExact` holds. A restart that works leaves a child of the applied revision, and an undo that
     works one of the old revision.
     */
    method ApplyCurrentLocked(action: Action, f: ApplyFaults) returns (r: Result<Files>, ghost reached: bool)
      requires Valid()
      modifies repo, files, process
      ensures Valid() && repo.log == old(repo.log)
      ensures r.Ok? ==> r.value == Wanted(old(repo.db)) &&
                        ApplySucceeded(old(repo.db), old(files.disk), repo.db, files.disk)
      ensures r.Err? && SyncRoot !in f.files ==>
                ApplyFailed(old(repo.db), old(files.disk), repo.db, files.disk, reached)
      ensures r.Err? ==> repo.db == old(repo.db).(revision := repo.db.revision)
      ensures r.Err? && !f.restoreRevision ==> repo.db == old(repo.db)
      ensures r.Err? && SwapWorks(f.rollback) && SyncRoot !in f.files ==>
                (files.disk.current == old(files.disk).current <==>
                 !reached || UndoExact(old(files.disk), Wanted(old(repo.db))))
      ensures reached <==> Reaches(old(repo.db), old(files.disk), f)
      ensures r.Ok? <==> Works(old(repo.db), old(files.disk), old(process.child), action, f)
      ensures r.Ok? && action.Restart? ==> process.child == Started(repo.db.revision)
      ensures r.Ok? && action.Sighup? && old(process.child).Started? ==>
                process.child == old(process.child) && process.signals == old(process.signals) + 1
      ensures r.Err? && action.Restart? && f.again == NoProcessFaults ==>
                process.child == old(process.child) || process.child == Started(old(repo.db).revision)
    {
      reached := false;
      if f.snapshot {
        return Err, reached;
      }
      var snapshot := repo.Snapshot();
      if f.revision {
        return Err, reached;
      }
      var rendered := RenderFiles(snapshot, lib);
      if rendered.Err? {
        return Err, reached;
      }
      ghost var d := files.disk;
      RenderedNonempty(repo.db, CertPath(repo.db.meta), KeyPath(repo.db.meta));
      var applied := files.Apply(rendered.value, f.files);
      if applied.Err? {
        return Err, reached;
      }
      reached := true;
      r := Activate(rendered.value, action, f, d);
    }
  }

  // ----- User operations

  datatype Change = Enable | Disable | Revoke | Rotate(password: string)

  const RevokedCredential := "revoked-credential-not-exported"

  function Changed(u: User, c: Change): Option<User> {
    match c
    case Enable => if u.status.UserRevoked? then None else Some(u.(status := UserActive))
    case Disable => if u.status.UserRevoked? then None else Some(u.(status := UserDisabled))
    case Revoke =>
      if u.status.UserRevoked? then None else Some(u.(status := UserRevoked, credential := RevokedCredential))
    case Rotate(password) => if u.status.UserActive? then Some(u.(credential := password)) else None
  }

  datatype UserFaults = UserFaults(entropy: bool, read: bool, write: bool, apply: ApplyFaults, restoreRow: bool)

  /** The rows after the change, if the user exists and allows it. */
  function ChangedDb(db: Db, id: nat, c: Change): Option<Db> {
    if id !in db.users then None
    else
      match Changed(db.users[id], c)
      case None => None
      case Some(u) => Some(db.(users := db.users[id := u]))
  }

  /** What a change asks of a row and makes of it, field by field. */
  predicate Took(u: User, u': User, c: Change) {
    && u'.username == u.username
    && match c
       case Enable => !u.status.UserRevoked? && u'.status == UserActive && u'.credential == u.credential
       case Disable => !u.status.UserRevoked? && u'.status == UserDisabled && u'.credential == u.credential
       case Revoke =>
         && !u.status.UserRevoked? && u'.status == UserRevoked
         && u'.credential == "revoked-credential-not-exported"
       case Rotate(password) => u.status == UserActive && u'.status == UserActive && u'.credential == password
  }

  /** The login that the credentials file holds under that name. */
  function LoginIn(files: Option<Files>, name: string): Option<string> {
    if (files.Some? && CredentialsToml in files.value && files.value[CredentialsToml].Credentials? &&
        name in files.value[CredentialsToml].logins)
    then Some(files.value[CredentialsToml].logins[name]) else None
  }

  /**
   A change is possible exactly where `Took` finds a row for it; it changes that row alone, and the
   configuration rendered afterwards lists the user with its credential, or not at all.
   */
  lemma ChangeShows(db: Db, id: nat, c: Change)
    requires WellKept(db.users, db.nextId)
    ensures ChangedDb(db, id, c).Some? <==> id in db.users && exists u :: Took(db.users[id], u, c)
    ensures ChangedDb(db, id, c).Some? ==>
              var after := ChangedDb(db, id, c).value;
              && id in after.users && after == db.(users := db.users[id := after.users[id]])
              && Took(db.users[id], after.users[id], c)
              && LoginIn(Some(Wanted(after)), db.users[id].username) ==
                 (match c
                  case Enable => Some(db.users[id].credential)
                  case Disable => None
                  case Revoke => None
                  case Rotate(password) => Some(password))
  {
    if id in db.users && Changed(db.users[id], c).Some? {
      var u := Changed(db.users[id], c).value;
      assert Took(db.users[id], u, c);
      OwnNameFree(db.users, id);
      UpdatedKept(db.users, db.nextId, id, u);
      LoginsBelowExact(db.users[id := u], db.nextId, u.username);
    }
  }

  class UserManager {
    const repo: Store
    const apply: ApplyManager

    constructor (repo: Store, apply: ApplyManager)
      requires apply.repo == repo
      ensures this.repo == repo && this.apply == apply
    {
      this.repo, this.apply := repo, apply;
    }

    ghost predicate Valid()
      reads repo, apply.files
    {
      apply.repo == repo && apply.Valid()
    }

    /**
     Enable, Disable, Revoke and Rotate. The row, the credentials file, the active revision and the
     revision of the endpoint are all new; or, with working undo steps, the row and the recorded
     revision are as before, and so is the current configuration if and only if the restart was not
     reached or `UndoExact` holds.
     */
    method Mutate(id: nat, c: Change, f: UserFaults) returns (s: Status, ghost reached: bool)
      requires Valid()
      modifies repo, apply.files, apply.process
      ensures Valid() && repo.log == old(repo.log)
      ensures s.Done? ==>
                && ChangedDb(old(repo.db), id, c).Some?
                && ApplySucceeded(ChangedDb(old(repo.db), id, c).value, old(apply.files.disk),
                                  repo.db, apply.files.disk)
      ensures s.Done? ==>
                && id in old(repo.db).users && id in repo.db.users
                && repo.db.users == old(repo.db).users[id := repo.db.users[id]]
                && Took(old(repo.db).users[id], repo.db.users[id], c)
                && LoginIn(apply.files.disk.current, repo.db.users[id].username) ==
                   (match c
                    case Enable => Some(old(repo.db).users[id].credential)
                    case Disable => None
                    case Revoke => None
                    case Rotate(password) => Some(password))
      ensures s.Done? ==> apply.process.child == Started(repo.db.revision)
      ensures (id !in old(repo.db).users || !exists u :: Took(old(repo.db).users[id], u, c)) ==>
                s.Failed? && !reached && repo.db == old(repo.db)
      ensures s.Failed? && !f.restoreRow && !f.apply.restoreRevision ==> repo.db == old(repo.db)
      ensures s.Failed? && SwapWorks(f.apply.rollback) && SyncRoot !in f.apply.files ==>
                (apply.files.disk.current == old(apply.files.disk).current <==>
                 !reached || UndoExact(old(apply.files.disk), Wanted(ChangedDb(old(repo.db), id, c).value)))
      ensures s.Failed? && f.apply.again == NoProcessFaults ==>
                apply.process.child == old(apply.process.child) ||
                apply.process.child == Started(old(repo.db).revision)
      ensures reached <==>
                && !f.read && !f.write && !(c.Rotate? && f.entropy) && ChangedDb(old(repo.db), id, c).Some?
                && apply.Reaches(ChangedDb(old(repo.db), id, c).value, old(apply.files.disk), f.apply)
      ensures s.Done? <==>
                && !f.read && !f.write && !(c.Rotate? && f.entropy) && ChangedDb(old(repo.db), id, c).Some?
                && apply.Works(ChangedDb(old(repo.db), id, c).value, old(apply.files.disk),
                               old(apply.process.child), Restart, f.apply)
    {
      reached := false;
      ChangeShows(repo.db, id, c);
      if f.read || id !in repo.db.users {
        return Failed, reached;
      }
      var before := repo.db.users[id];
      var after := Changed(before, c);
      if after.None? || (c.Rotate? && f.entropy) {
        return Failed, reached;
      }
      OwnNameFree(repo.db.users, id);
      s := repo.UpdateUser(id, after.value, f.write);
      if s.Failed? {
        return s, reached;
      }
      var applied;
      applied, reached := apply.ApplyCurrentLocked(Restart, f.apply);
      if applied.Ok? {
        return Done, true;
      }
      OwnNameFree(repo.db.users, id);
      var _ := repo.UpdateUser(id, before, f.restoreRow);
      UpdateTwice(old(repo.db).users, id, after.value);
      s := Failed;
    }

    method Create(name: string, password: string, f: UserFaults) returns (r: Result<nat>, ghost reached: bool)
      requires Valid()
      modifies repo, apply.files, apply.process
      ensures Valid() && repo.log == old(repo.log)
      ensures r.Ok? ==>
                && r.value == old(repo.db).nextId && !NameTaken(old(repo.db).users, name) && apply.lib.nameOk(name)
                && ApplySucceeded(Inserted(old(repo.db), name, password), old(apply.files.disk),
                                  repo.db, apply.files.disk)
      ensures r.Ok? ==>
                && r.value !in old(repo.db).users
                && repo.db.users == old(repo.db).users[r.value := User(name, password, UserActive)]
                && LoginIn(apply.files.disk.current, name) == Some(password)
                && apply.process.child == Started(repo.db.revision)
      ensures r.Err? && !f.restoreRow && !f.apply.restoreRevision ==>
                repo.db == old(repo.db).(nextId := repo.db.nextId)
      ensures r.Err? && SwapWorks(f.apply.rollback) && SyncRoot !in f.apply.files ==>
                (apply.files.disk.current == old(apply.files.disk).current <==>
                 !reached || UndoExact(old(apply.files.disk), Wanted(Inserted(old(repo.db), name, password))))
      ensures r.Err? && f.apply.again == NoProcessFaults ==>
                apply.process.child == old(apply.process.child) ||
                apply.process.child == Started(old(repo.db).revision)
      ensures reached <==>
                && !f.entropy && !f.write && apply.lib.nameOk(name) && !NameTaken(old(repo.db).users, name)
                && apply.Reaches(Inserted(old(repo.db), name, password), old(apply.files.disk), f.apply)
      ensures r.Ok? <==>
                && !f.entropy && !f.write && apply.lib.nameOk(name) && !NameTaken(old(repo.db).users, name)
                && apply.Works(Inserted(old(repo.db), name, password), old(apply.files.disk),
                               old(apply.process.child), Restart, f.apply)
    {
      reached := false;
      if !apply.lib.nameOk(name) || f.entropy {
        return Err, reached;
      }
      var id := repo.InsertUser(User(name, password, UserActive), f.write);
      if id.Err? {
        return Err, reached;
      }
      InsertShows(old(repo.db), name, password);
      var applied;
      applied, reached := apply.ApplyCurrentLocked(Restart, f.apply);
      if applied.Ok? {
        return id, true;
      }
      var _ := repo.DeleteUser(id.value, f.restoreRow);
      InsertThenRemove(old(repo.db).users, id.value, User(name, password, UserActive));
      r := Err;
    }
  }

  lemma InsertShows(db: Db, name: string, password: string)
    requires WellKept(db.users, db.nextId) && !NameTaken(db.users, name)
    ensures db.nextId !in db.users
    ensures LoginIn(Some(Wanted(Inserted(db, name, password))), name) == Some(password)
  {
    var after := Inserted(db, name, password);
    UpsertUnique(db.users, db.nextId, db.nextId, User(name, password, UserActive));
    LoginsBelowExact(after.users, after.nextId, name);
  }

  lemma UpdateTwice<V>(m: map<nat, V>, k: nat, v: V)
    requires k in m
    ensures m[k := v][k := m[k]] == m
  {
  }

  function Inserted(db: Db, name: string, password: string): Db {
    db.(users := db.users[db.nextId := User(name, password, UserActive)], nextId := db.nextId + 1)
  }

  lemma InsertThenRemove<V>(m: map<nat, V>, k: nat, v: V)
    requires k !in m
    ensures m[k := v] - {k} == m
  {
  }

  /** A spent id changes nothing that is rendered. */
  lemma SpentId(db: Db)
    requires WellKept(db.users, db.nextId)
    ensures ActiveLogins(db.(nextId := db.nextId + 1)) == ActiveLogins(db)
  {
  }

  // ----- Where the rollback goes too far

  const Alice := User("alice", "alice-credential", UserRevoked)
  const Bob := User("bob", "bob-credential", UserActive)

  /** Alice was revoked; the previous revision still has her. */
  const RevokedDb := Db("vpn.example.net", "0.0.0.0:8443", Some(CurrentFiles), map[1 := Alice, 2 := Bob], 3, map[],
                       None)
  const CurrentFiles := map[VpnToml := Vpn("0.0.0.0:8443"), HostsToml := Hosts("vpn.example.net", NoPath, NoPath),
                            CredentialsToml := Credentials(map["bob" := "bob-credential"]), RulesToml := Rules(map[])]
  const PreviousFiles := CurrentFiles[CredentialsToml :=
                           Credentials(map["alice" := "alice-credential", "bob" := "bob-credential"])]
  const RevokedDisk := Disk(map[CurrentFiles := CurrentFiles, PreviousFiles := PreviousFiles], map[],
                            Some(CurrentFiles), Some(PreviousFiles))

  /**
   The first user of an installation without a configuration: the apply moves the pointer, the restart
   fails, and there is no predecessor to roll back to. Every undo call works; the row is taken out
   again, and the configuration that serves the user stays.
   */
  lemma FirstConfigurationStays(listen: string, password: string)
    ensures var db := Db("vpn.example.net", listen, None, map[], 1, map[], None);
            var files := Wanted(Inserted(db, "bob", password));
            var d: ConfigDisk := Disk(map[], map[], None, None);
            var after := Disk(map[files := files], map[], Some(files), None);
            && Applied(d, after, files) && RolledBack(after, after) && !UndoExact(d, files)
            && "bob" in files[CredentialsToml].logins && Wanted(db) != files
  {
    var db := Db("vpn.example.net", listen, None, map[], 1, map[], None);
    var users := Inserted(db, "bob", password).users;
    assert LoginsBelow(users, 0) == map[] && LoginsBelow(users, 1) == map[];
    assert LoginsBelow(users, 2) == map["bob" := password];
    assert LoginsBelow(db.users, 1) == map[];
    assert "bob" in Wanted(Inserted(db, "bob", password))[CredentialsToml].logins;
    assert "bob" !in Wanted(db)[CredentialsToml].logins;
  }

  /**
   Enabling a user who is active already renders the current revision again. If the endpoint restart
   then fails, the rollback goes back one revision further than the apply went forward: here to one
   that renders a revoked user.
   */
  lemma RollbackCanGoTooFar()
    ensures Changed(Bob, Enable) == Some(Bob)
    ensures Wanted(RevokedDb) == CurrentFiles && !UndoExact(RevokedDisk, CurrentFiles)
    ensures var after := RevokedDisk.(current := Some(PreviousFiles), previous := Some(CurrentFiles));
            Applied(RevokedDisk, RevokedDisk, CurrentFiles) && RolledBack(RevokedDisk, after)
    ensures "alice" in PreviousFiles[CredentialsToml].logins && RevokedDb.users[1].status.UserRevoked?
  {
    var users := RevokedDb.users;
    assert LoginsBelow(users, 0) == map[];
    assert LoginsBelow(users, 1) == map[];
    assert LoginsBelow(users, 2) == map[];
    assert LoginsBelow(users, 3) == map["bob" := "bob-credential"];
    assert Wanted(RevokedDb) == CurrentFiles;
    var after := RevokedDisk.(current := Some(PreviousFiles), previous := Some(CurrentFiles));
    assert Applied(RevokedDisk, RevokedDisk, CurrentFiles) && Swapped(RevokedDisk, after);
    assert CurrentFiles[CredentialsToml].logins != PreviousFiles[CredentialsToml].logins by {
      assert "alice" !in CurrentFiles[CredentialsToml].logins by {
        assert "alice"[0] != "bob"[0];
      }
    }
  }
}
