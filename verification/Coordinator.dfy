/**
 The two-phase TLS publication of internal/service/tls_apply.go: `Publish` flips the TLS pointer,
 the configuration pointer and the recorded revision and reloads the endpoint; then either
 `CompletePublished` shows the pair to the AdminUI, or `RevertLast` takes everything back.
 */
module Coordinator {
  import opened Config
  import opened Database
  import opened Domain
  import opened Endpoint
  import opened Stores
  import opened TlsState
  import opened Wrappers

  datatype Publication = Publication(oldConfig: Option<Files>, oldTls: TlsRevision, newConfig: Files,
                                     activeUser: bool, pair: Bundle)

  /** Everything the publication protocol stores. */
  datatype World = World(db: Db, tls: Disk<Bundle, PemFile, Pem>, cfg: Disk<Files, FileName, Content>,
                         pending: Option<Publication>, admin: Option<Bundle>)

  /** The configuration names these certificate paths and holds exactly the active users. */
  ghost predicate Describes(files: Files, db: Db) {
    && HostsToml in files && files[HostsToml].Hosts?
    && files[HostsToml].cert == CertPath(db.meta) && files[HostsToml].key == KeyPath(db.meta)
    && CredentialsToml in files && files[CredentialsToml] == Credentials(ActiveLogins(db))
  }

  ghost predicate Pointing<Id, Name, File>(d: Disk<Id, Name, File>) {
    && (d.current.Some? ==> d.current.value in d.revisions)
    && (d.current.None? ==> d.previous.None?)
  }

  /** Metadata, TLS store and AdminUI agree, and no publication is half done. */
  ghost predicate JointTls(w: World) {
    && w.tls.current == ActiveRevision(w.db.meta) && PathsMatch(w.db.meta)
    && (w.admin.Some? ==> w.admin == ActiveRevision(w.db.meta))
    && w.pending.None?
    && Pointing(w.tls)
  }

  /** Recorded revision, configuration store, rows and certificate paths agree. */
  ghost predicate JointConfig(w: World) {
    && w.db.revision == w.cfg.current
    && (w.cfg.current.Some? ==> Describes(w.cfg.current.value, w.db))
    && Pointing(w.cfg)
  }

  /**
   The five separately stored facts agree: the metadata's revision is the TLS store's current one,
   the recorded revision is the configuration store's current one, the current configuration names
   the metadata's paths and exactly the active users, the AdminUI shows that revision or nothing,
   and no publication is half done.
   */
  ghost predicate Joint(w: World) {
    WellKept(w.db.users, w.db.nextId) && JointTls(w) && JointConfig(w)
  }

  /** The part of the agreement that makes a publication reversible. */
  ghost predicate Aligned(w: World) {
    && w.tls.current == RevisionOf(CertPath(w.db.meta))
    && w.db.revision == w.cfg.current
    && Pointing(w.tls) && Pointing(w.cfg)
  }

  lemma JointIsAligned(w: World)
    requires Joint(w)
    ensures Aligned(w)
  {
  }

  /** The snapshot with the paths of a pair. */
  function WithPair(s: Snapshot, b: Bundle): Snapshot {
    s.(cert := PathIn(Some(b), CertPem), key := PathIn(Some(b), KeyPem))
  }

  function NewConfig(db: Db, b: Bundle): Files {
    Rendered(db, PathIn(Some(b), CertPem), PathIn(Some(b), KeyPem))
  }

  /** Both pointers and the recorded revision moved to the new pair and its configuration. */
  ghost predicate Switched(w: World, w': World, b: Bundle) {
    && w'.db == w.db.(revision := Some(NewConfig(w.db, b)))
    && Applied(w.tls, w'.tls, b)
    && Applied(w.cfg, w'.cfg, NewConfig(w.db, b))
    && w'.admin == w.admin
  }

  /** `Publish` succeeded. */
  ghost predicate Published(w: World, w': World, b: Bundle) {
    && Switched(w, w', b)
    && w'.pending == Some(Publication(w.db.revision, RevisionOf(CertPath(w.db.meta)), NewConfig(w.db, b),
                                      HasActiveUser(w.db.users), b))
  }

  /** Nothing but pointers and the recorded revision may have changed. */
  ghost predicate PointersOnly(w: World, w': World) {
    && w'.db == w.db.(revision := w'.db.revision)
    && w'.admin == w.admin
    && w.tls.revisions.Keys <= w'.tls.revisions.Keys && w.cfg.revisions.Keys <= w'.cfg.revisions.Keys
  }

  /** The three pointers are back where they were. */
  ghost predicate Undone(w: World, w': World) {
    && PointersOnly(w, w')
    && w'.pending == w.pending
    && w'.tls.current == w.tls.current && w'.cfg.current == w.cfg.current && w'.db.revision == w.db.revision
    && (w'.cfg.current.None? ==> w'.cfg.previous.None?)
    && (w'.tls.current.None? ==> w'.tls.previous.None?)
  }

  ghost predicate Reverted(w: World, w': World, p: Publication) {
    Retreated(w.(pending := None), w', p.oldConfig, p.oldTls)
  }

  function Completed(w: World): World {
    match w.pending
    case None => w
    case Some(p) => w.(admin := Some(p.pair), pending := None)
  }

  /**
   Which external calls fail; `load` is reading the published pair back for the AdminUI, `ready` the
   coordinator's own readiness check. `again` is the reload after the restored revisions.
   */
  datatype Faults = Faults(readRevision: bool, readSnapshot: bool, cancelled: bool, tls: set<Call>, load: bool,
                           configs: set<Call>, setRevision: bool, process: ProcessFaults, ready: bool,
                           restore: RestoreFaults, again: ProcessFaults)

  /** A call before the endpoint takes over fails, besides those of the two stores. */
  predicate Interrupted(f: Faults) {
    f.readRevision || f.readSnapshot || f.cancelled || f.load || f.setRevision
  }

  /** The reload or the readiness check fails; the endpoint is only called when a user is active. */
  predicate Refused(f: Faults, child: Process, active: bool) {
    active && (ReloadFails(child, f.process) || f.ready)
  }

  predicate Hindered(f: Faults, child: Process, active: bool) {
    Interrupted(f) || Refused(f, child, active)
  }

  datatype RestoreFaults = RestoreFaults(configs: set<Call>, tls: set<Call>, revision: bool)

  const NoRestoreFaults := RestoreFaults({}, {}, false)

  const NoFaults := Faults(false, false, false, {}, false, {}, false, NoProcessFaults, false, NoRestoreFaults,
                           NoProcessFaults)

  class AdminCertificate {
    var active: Option<Bundle>

    constructor ()
      ensures active == None
    {
      active := None;
    }

    /** Checks the pair; only `Activate` makes it visible. */
    method Prepare(b: Bundle, now: int, loadFails: bool) returns (r: Result<Bundle>)
      ensures r == if loadFails || !(b.notBefore <= now < b.notAfter) then Err else Ok(b)
    {
      if loadFails {
        return Err;
      }
      r := if now < b.notBefore || !(now < b.notAfter) then Err else Ok(b);
    }

    method Activate(b: Bundle)
      modifies this
      ensures active == Some(b)
    {
      active := Some(b);
    }
  }

  class TlsCoordinator {
    const repo: Store
    const tls: TlsStore
    const configs: Materializer
    const admin: AdminCertificate
    const process: ReadinessProcess
    const lib: Library
    var pending: Option<Publication>

    constructor (repo: Store, tls: TlsStore, configs: Materializer, admin: AdminCertificate,
                 process: ReadinessProcess, lib: Library)
      ensures this.repo == repo && this.tls == tls && this.configs == configs && this.admin == admin
      ensures this.process == process && this.lib == lib && pending.None?
    {
      this.repo, this.tls, this.configs, this.admin := repo, tls, configs, admin;
      this.process, this.lib := process, lib;
      pending := None;
    }

    ghost predicate Valid()
      reads this, repo, tls, configs
    {
      repo.Valid() && tls.Valid() && configs.Valid()
    }

    ghost function View(): World
      reads this, repo, tls, configs, admin
    {
      World(repo.db, tls.disk, configs.disk, pending, admin.active)
    }

    /** Applies the configuration and records its revision, or restores the old configuration. */
    method Install(files: Files, oldConfig: Option<Files>, f: Faults) returns (s: Status)
      requires Valid()
      modifies repo, configs
      ensures Valid() && repo.log == old(repo.log)
      ensures s.Done? ==>
                Applied(old(configs.disk), configs.disk, files) && repo.db == old(repo.db).(revision := Some(files))
      ensures s.Failed? ==> repo.db == old(repo.db) && old(configs.disk).revisions.Keys <= configs.disk.revisions.Keys
      ensures (s.Failed? && f.restore.configs == {} && oldConfig == old(configs.disk).current &&
               Pointing(old(configs.disk))) ==>
                configs.disk.current == oldConfig && Pointing(configs.disk)
      ensures s.Done? ==> configs.validate(files)
      ensures s.Done? <==> files != map[] && configs.Takes(old(configs.disk), files, f.configs) && !f.setRevision
    {
      var applied := configs.Apply(files, f.configs);
      if applied.Err? {
        var _ := configs.Restore(oldConfig, f.restore.configs);
        return Failed;
      }
      s := repo.SetActiveRevision(Some(files), f.setRevision);
      if s.Failed? {
        var _ := configs.Restore(oldConfig, f.restore.configs);
      }
    }

    /** From the published TLS revision to the recorded configuration revision. */
    method Prepare(snapshot: Snapshot, bundle: Bundle, now: int, f: Faults) returns (r: Result<Files>)
      requires Valid() && Shows(snapshot, repo.db)
      modifies repo, configs
      ensures Valid() && repo.log == old(repo.log)
      ensures r.Ok? ==> r.value == NewConfig(old(repo.db), bundle)
      ensures r.Ok? ==>
                Applied(old(configs.disk), configs.disk, r.value) && repo.db == old(repo.db).(revision := Some(r.value))
      ensures r.Err? ==> repo.db == old(repo.db) && old(configs.disk).revisions.Keys <= configs.disk.revisions.Keys
      ensures (r.Err? && f.restore.configs == {} && repo.db.revision == old(configs.disk).current &&
               Pointing(old(configs.disk))) ==>
                configs.disk.current == repo.db.revision && Pointing(configs.disk)
      ensures r.Ok? ==> configs.validate(r.value)
      ensures r.Ok? <==>
                && PrepareOk(old(repo.db), bundle, now) && !f.load && !f.setRevision
                && configs.Takes(old(configs.disk), NewConfig(old(repo.db), bundle), f.configs)
    {
      var pair := admin.Prepare(bundle, now, f.load);
      if pair.Err? {
        return Err;
      }
      var files := RenderFiles(WithPair(snapshot, bundle), lib);
      if files.Err? {
        return Err;
      }
      RenderedNonempty(repo.db, PathIn(Some(bundle), CertPem), PathIn(Some(bundle), KeyPem));
      var installed := Install(files.value, repo.db.revision, f);
      r := if installed.Done? then files else Err;
    }

    /** `Publish` up to the recorded revision; on an error the TLS pointer is restored. */
    method Switch(snapshot: Snapshot, bundle: Bundle, now: int, f: Faults) returns (r: Result<Files>)
      requires Valid() && Shows(snapshot, repo.db)
      modifies repo, tls, configs
      ensures Valid() && repo.log == old(repo.log)
      ensures r.Ok? ==> Switched(old(View()), View(), bundle) && r.value == NewConfig(old(repo.db), bundle)
      ensures r.Err? ==> PointersOnly(old(View()), View())
      ensures r.Err? && Aligned(old(View())) && f.restore == NoRestoreFaults && SyncRoot !in f.tls ==>
                Undone(old(View()), View())
      ensures r.Ok? ==> configs.validate(r.value)
      ensures r.Ok? <==>
                && bundle.paired && PrepareOk(old(repo.db), bundle, now) && !f.cancelled && !f.load && !f.setRevision
                && tls.Takes(old(tls.disk), bundle, f.tls)
                && configs.Takes(old(configs.disk), NewConfig(old(repo.db), bundle), f.configs)
    {
      var oldTls := RevisionOf(snapshot.cert);
      var published := tls.Publish(bundle, f.cancelled, f.tls);
      if published.Err? {
        return Err;
      }
      r := Prepare(snapshot, bundle, now, f);
      if r.Err? {
        var _ := tls.Restore(oldTls, f.restore.tls);
      }
    }

    /** Restores both stores and the recorded revision. */
    method Retreat(oldConfig: Option<Files>, oldTls: TlsRevision, f: RestoreFaults) returns (s: Status)
      requires Valid()
      modifies repo, tls, configs
      ensures Valid() && repo.log == old(repo.log)
      ensures PointersOnly(old(View()), View())
      ensures s.Done? ==> Retreated(old(View()), View(), oldConfig, oldTls)
      ensures f == NoRestoreFaults && Known(old(View()), oldConfig, oldTls) ==> s.Done?
    {
      var c := configs.Restore(oldConfig, f.configs);
      var t := tls.Restore(oldTls, f.tls);
      var d := repo.SetActiveRevision(oldConfig, f.revision);
      s := if c.Done? && t.Done? && d.Done? then Done else Failed;
    }

    /**
     It succeeds exactly when the pair and the rows pass their checks, both stores take their revisions,
     and no other call fails, the reload and the readiness check of an installation with an active user
     among them. A held child stays the one it was: it is signalled, and started anew
     only where none was held.
     */
    method Publish(bundle: Bundle, now: int, f: Faults) returns (r: Result<Bundle>)
      requires Valid()
      modifies this, repo, tls, configs, process
      ensures Valid() && repo.log == old(repo.log)
      ensures r.Ok? ==> r.value == bundle && Published(old(View()), View(), bundle)
      ensures r.Err? ==> PointersOnly(old(View()), View()) && pending == old(pending)
      ensures r.Err? && Aligned(old(View())) && f.restore == NoRestoreFaults && SyncRoot !in f.tls ==>
                Undone(old(View()), View())
      ensures r.Ok? <==>
                && Reaches(old(View()), bundle, now, f)
                && !(HasActiveUser(old(repo.db).users) && (ReloadFails(old(process.child), f.process) || f.ready))
      ensures r.Ok? ==> configs.validate(NewConfig(old(repo.db), bundle))
      ensures (NoStoreFault(f) && PublishOk(old(repo.db), bundle, now) &&
               !Hindered(f, old(process.child), HasActiveUser(old(repo.db).users))) ==> r.Ok?
      ensures old(process.child).Started? || !HasActiveUser(old(repo.db).users) ==> process.child == old(process.child)
      ensures (Reaches(old(View()), bundle, now, f) && HasActiveUser(old(repo.db).users) &&
               old(process.child).NoChild? && !f.process.read && !f.process.start) ==>
                process.child == Started(Some(NewConfig(old(repo.db), bundle)))
      ensures r.Ok? && HasActiveUser(old(repo.db).users) ==>
                (process.child == Started(repo.db.revision) <==>
                 old(process.child).NoChild? || old(process.child) == Started(Some(NewConfig(old(repo.db), bundle))))
      ensures r.Ok? && HasActiveUser(old(repo.db).users) && old(process.child).Started? ==>
                process.signals == old(process.signals) + 1
    {
      if f.readRevision || f.readSnapshot {
        return Err;
      }
      var oldConfig := repo.db.revision;
      var snapshot := repo.Snapshot();
      var oldTls := RevisionOf(snapshot.cert);
      ghost var w := View();
      var files := Switch(snapshot, bundle, now, f);
      if files.Err? {
        return Err;
      }
      r := Reload(snapshot.users, oldConfig, oldTls, files.value, bundle, f, w);
    }

    /**
     The endpoint takes over the new revision, or everything is restored; `w` is the state before. A
     reload or readiness check that fails fails the publication, where a user is active.
     */
    method Reload(users: seq<User>, oldConfig: Option<Files>, oldTls: TlsRevision, files: Files, bundle: Bundle,
                  f: Faults, ghost w: World)
      returns (r: Result<Bundle>)
      requires Valid() && Switched(w, View(), bundle) && pending == w.pending
      requires oldConfig == w.db.revision && oldTls == RevisionOf(CertPath(w.db.meta))
      requires files == NewConfig(w.db, bundle)
      requires AnyActive(users) <==> HasActiveUser(w.db.users)
      modifies this, repo, tls, configs, process
      ensures Valid() && repo.log == old(repo.log)
      ensures r.Ok? ==> r.value == bundle && Published(w, View(), bundle)
      ensures r.Err? ==> PointersOnly(w, View()) && pending == w.pending
      ensures r.Err? && Aligned(w) && f.restore == NoRestoreFaults ==> Undone(w, View())
      ensures r.Err? <==> HasActiveUser(w.db.users) && (ReloadFails(old(process.child), f.process) || f.ready)
      ensures old(process.child).Started? || !HasActiveUser(w.db.users) ==> process.child == old(process.child)
      ensures r.Ok? && HasActiveUser(w.db.users) && old(process.child).NoChild? ==>
                process.child == Started(Some(files))
      ensures r.Err? && old(process.child).NoChild? ==>
                process.child == if !f.process.read && !f.process.start then Started(Some(files))
                                 else if f.again.read || f.again.start then NoChild
                                 else Started(repo.db.revision)
      ensures old(process.child).Started? && HasActiveUser(w.db.users) ==>
                process.signals == old(process.signals) + (if f.process.signal then 0 else 1) +
                                   (if r.Ok? || f.again.signal then 0 else 1)
    {
      var activeUser := FindActive(users);
      if !activeUser {
        pending := Some(Publication(oldConfig, oldTls, files, false, bundle));
        return Ok(bundle);
      }
      var s := process.Reload(repo.db.revision, f.process);
      if s.Done? && f.ready {
        s := Failed;
      }
      if s.Done? {
        pending := Some(Publication(oldConfig, oldTls, files, true, bundle));
        return Ok(bundle);
      }
      Recover(oldConfig, oldTls, bundle, f, w);
      r := Err;
    }

    /** Everything is restored, and the endpoint is reloaded with it. */
    method Recover(oldConfig: Option<Files>, oldTls: TlsRevision, bundle: Bundle, f: Faults, ghost w: World)
      requires Valid() && Switched(w, View(), bundle) && pending == w.pending
      requires oldConfig == w.db.revision && oldTls == RevisionOf(CertPath(w.db.meta))
      modifies repo, tls, configs, process
      ensures Valid() && repo.log == old(repo.log)
      ensures PointersOnly(w, View()) && pending == w.pending
      ensures Aligned(w) && f.restore == NoRestoreFaults ==> Undone(w, View())
      ensures old(process.child).Started? ==> process.child == old(process.child)
      ensures old(process.child).NoChild? ==>
                process.child == if f.again.read || f.again.start then NoChild else Started(repo.db.revision)
      ensures process.signals == old(process.signals) +
                                 if old(process.child).Started? && !f.again.signal then 1 else 0
    {
      ghost var w1 := View();
      var _ := Retreat(oldConfig, oldTls, f.restore);
      RetreatUndoes(w, w1, View(), bundle);
      var _ := process.Reload(repo.db.revision, f.again);
    }

    /** Everything before the endpoint takes over works. */
    ghost predicate Reaches(w: World, b: Bundle, now: int, f: Faults) {
      && b.paired && PrepareOk(w.db, b, now) && !Interrupted(f)
      && tls.Takes(w.tls, b, f.tls) && configs.Takes(w.cfg, NewConfig(w.db, b), f.configs)
    }

    predicate NoStoreFault(f: Faults) {
      f.tls == {} && f.configs == {}
    }

    /** The window of the pair and the checks of the renderer; the record plays no part. */
    ghost predicate PrepareOk(db: Db, b: Bundle, now: int) {
      && b.notBefore <= now < b.notAfter
      && HeadOk(db.listen, db.hostname, PathIn(Some(b), CertPem), PathIn(Some(b), KeyPem), lib)
      && RowsOk(db.users, db.rules, lib)
    }

    ghost predicate PublishOk(db: Db, b: Bundle, now: int) {
      b.paired && PrepareOk(db, b, now) && configs.validate(NewConfig(db, b))
    }

    /** Both stores and the recorded revision first; a running installation is then reloaded if that worked. */
    method RevertLast(f: RestoreFaults, again: ProcessFaults) returns (s: Status)
      requires Valid()
      modifies this, repo, tls, configs, process
      ensures Valid() && repo.log == old(repo.log) && pending.None?
      ensures PointersOnly(old(View()), View())
      ensures old(pending).None? ==> View() == old(View()) && s.Failed? && process.child == old(process.child)
      ensures (old(pending).Some? && f == NoRestoreFaults &&
               Known(old(View()), old(pending).value.oldConfig, old(pending).value.oldTls)) ==>
                Reverted(old(View()), View(), old(pending).value)
      ensures s.Done? ==> Reverted(old(View()), View(), old(pending).value)
      ensures s.Done? && old(pending).value.activeUser ==> !ReloadFails(old(process.child), again)
      ensures old(process.child).Started? ==> process.child == old(process.child)
      ensures s.Done? && old(pending).value.activeUser && old(process.child).NoChild? ==>
                process.child == Started(repo.db.revision)
      ensures s.Done? && old(pending).value.activeUser && old(process.child).Started? ==>
                process.signals == old(process.signals) + 1
    {
      if pending.None? {
        return Failed;
      }
      var last := pending.value;
      pending := None;
      s := Retreat(last.oldConfig, last.oldTls, f);
      if s.Done? && last.activeUser {
        s := process.Reload(repo.db.revision, again);
      }
    }

    method CompletePublished()
      requires Valid()
      modifies this, admin
      ensures Valid() && View() == Completed(old(View()))
    {
      if pending.Some? {
        admin.Activate(pending.value.pair);
      }
      pending := None;
    }
  }

  /** The loop that looks for a user the endpoint has to serve. */
  method FindActive(users: seq<User>) returns (found: bool)
    ensures found <==> AnyActive(users)
  {
    found := false;
    for i := 0 to |users|
      invariant forall j | 0 <= j < i :: !users[j].status.UserActive?
    {
      if users[i].status.UserActive? {
        return true;
      }
    }
  }

  ghost predicate Retreated(w: World, w': World, config: Option<Files>, tls: TlsRevision) {
    && w'.db == w.db.(revision := config)
    && Restored(w.tls, w'.tls, tls) && Restored(w.cfg, w'.cfg, config)
    && w'.pending == w.pending && w'.admin == w.admin
  }

  lemma RetreatUndoes(w: World, w1: World, w2: World, b: Bundle)
    requires Switched(w, w1, b) && w1.pending == w.pending && PointersOnly(w1, w2)
    ensures PointersOnly(w, w2)
    ensures Aligned(w) ==> Known(w1, w.db.revision, RevisionOf(CertPath(w.db.meta)))
    ensures Aligned(w) && Retreated(w1, w2, w.db.revision, RevisionOf(CertPath(w.db.meta))) ==> Undone(w, w2)
  {
  }

  /** Both revisions to restore exist. */
  ghost predicate Known(w: World, config: Option<Files>, tls: TlsRevision) {
    && (config.Some? ==> config.value in w.cfg.revisions)
    && (tls.Some? ==> tls.value in w.tls.revisions)
  }

  lemma RenderedNonempty(db: Db, cert: PemPath, key: PemPath)
    ensures Rendered(db, cert, key) != map[]
  {
    assert VpnToml in Rendered(db, cert, key);
  }

  lemma RenderedDescribes(db: Db, cert: PemPath, key: PemPath)
    ensures var files := Rendered(db, cert, key);
            && HostsToml in files && files[HostsToml] == Hosts(db.hostname, cert, key)
            && CredentialsToml in files && files[CredentialsToml] == Credentials(ActiveLogins(db))
  {
  }

  /** The record keeps its published revision: only state, settings and errors differ. */
  ghost predicate SamePublication(was: Option<Metadata>, m: Metadata) {
    m.active == ActiveRevision(was) && m.cert == CertPath(was) && m.key == KeyPath(was)
  }

  function WithMeta(w: World, m: Metadata): World {
    w.(db := w.db.(meta := Some(m)))
  }

  lemma MetaKeepsHalves(w: World, m: Metadata)
    requires SamePublication(w.db.meta, m)
    ensures JointTls(w) ==> JointTls(WithMeta(w, m))
    ensures JointConfig(w) ==> JointConfig(WithMeta(w, m))
  {
  }

  lemma JointKeepsMeta(w: World, m: Metadata)
    requires Joint(w) && SamePublication(w.db.meta, m)
    ensures Joint(WithMeta(w, m))
  {
  }

  /** A failed publication whose restore calls succeed leaves the stored facts in agreement. */
  lemma UndoneIsJoint(w: World, w': World)
    requires Joint(w) && Undone(w, w')
    ensures Joint(w')
  {
  }

  /** The same for either half of the agreement alone. */
  lemma UndoneKeepsHalves(w: World, w': World)
    requires Undone(w, w')
    ensures JointTls(w) ==> JointTls(w')
    ensures JointConfig(w) ==> JointConfig(w')
  {
  }

  /**
   A successful publication that the metadata write confirms puts the stored facts in agreement,
   whatever they were before it.
   */
  lemma ConfirmedIsJoint(w: World, w1: World, b: Bundle, m: Metadata)
    requires WellKept(w.db.users, w.db.nextId) && Published(w, w1, b)
    requires m.active == Some(b) && PathsMatch(Some(m))
    ensures Joint(Completed(w1.(db := w1.db.(meta := Some(m)))))
  {
    RenderedDescribes(w.db, PathIn(Some(b), CertPem), PathIn(Some(b), KeyPem));
  }

  /** Reverting restores all three pointers, the very first publication included. */
  lemma RevertUndoesPublish(w: World, w1: World, b: Bundle, w2: World)
    requires Joint(w) && Published(w, w1, b)
    ensures Known(w1, w1.pending.value.oldConfig, w1.pending.value.oldTls)
    ensures Reverted(w1, w2, w1.pending.value) ==> Undone(w, w2) && Joint(w2) && w2.db == w.db
  {
    assert RevisionOf(CertPath(w.db.meta)) == w.tls.current;
  }

  /** Reverting brings back either half that was in agreement before the publication. */
  lemma RevertKeepsHalves(w: World, w1: World, b: Bundle, w2: World)
    requires Published(w, w1, b) && Reverted(w1, w2, w1.pending.value)
    ensures JointTls(w) ==> JointTls(w2)
    ensures JointConfig(w) ==> JointConfig(w2)
  {
    if JointTls(w) {
      assert RevisionOf(CertPath(w.db.meta)) == w.tls.current;
    }
  }

  // ----- What the endpoint was started with

  lemma PairsTellApart(db: Db, a: Bundle, b: Bundle)
    requires a != b
    ensures NewConfig(db, a) != NewConfig(db, b)
  {
    RenderedDescribes(db, PathIn(Some(a), CertPem), PathIn(Some(a), KeyPem));
    RenderedDescribes(db, PathIn(Some(b), CertPem), PathIn(Some(b), KeyPem));
  }

  /**
   The second publication only signals the child that the first one started: the child's command line
   names the first configuration, the recorded revision is the second one.
   */
  method OnlySignalled(c: TlsCoordinator, first: Bundle, second: Bundle, now: int)
    requires c.Valid() && HasActiveUser(c.repo.db.users) && c.process.child.NoChild?
    requires c.PublishOk(c.repo.db, first, now) && c.PublishOk(c.repo.db, second, now) && first != second
    modifies c, c.repo, c.tls, c.configs, c.process, c.admin
    ensures c.Valid() && c.process.child.Started? && c.process.child != Started(c.repo.db.revision)
    ensures c.process.child == Started(Some(NewConfig(old(c.repo.db), first)))
    ensures c.repo.db.revision == c.configs.disk.current == Some(NewConfig(old(c.repo.db), second))
    ensures c.tls.disk.current == Some(second) && c.admin.active == Some(second)
  {
    var r := c.Publish(first, now, NoFaults);
    c.CompletePublished();
    assert NewConfig(c.repo.db, second) == NewConfig(old(c.repo.db), second);
    r := c.Publish(second, now, NoFaults);
    c.CompletePublished();
    PairsTellApart(old(c.repo.db), first, second);
  }

  /**
   A publication that starts a child, finds it not ready and takes everything back leaves the child
   with the configuration that was taken back.
   */
  method TakenBackStillRuns(c: TlsCoordinator, b: Bundle, now: int)
    requires c.Valid() && HasActiveUser(c.repo.db.users) && c.process.child.NoChild?
    requires Aligned(c.View()) && c.PublishOk(c.repo.db, b, now)
    modifies c, c.repo, c.tls, c.configs, c.process
    ensures c.Valid() && Undone(old(c.View()), c.View())
    ensures c.process.child == Started(Some(NewConfig(old(c.repo.db), b)))
  {
    var r := c.Publish(b, now, NoFaults.(ready := true));
  }
}
