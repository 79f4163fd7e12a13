/**
 The certificate manager: internal/certificate/issue.go, automatic.go, self_signed.go and
 provided.go, and the settings service of internal/service/tls_settings.go that shares its records.

 `Env` holds what an operation meets outside: clock readings, what the ACME client or the mounted
 files deliver, and which calls fail. Times are nanoseconds.
 */
module Certificates {
  import opened Coordinator
  import opened Database
  import opened Domain
  import opened Endpoint
  import opened Stores
  import opened TlsState
  import opened Wrappers

  const Day: int := 24 * 3600 * 1_000_000_000

  datatype Env = Env(
    now: int,                  // when the operation looks at the stored pair
    later: int,                // when a new pair is validated and published
    identityOk: bool,          // the library accepts the identity or source settings
    load: bool,                // reading the record fails
    repairSave: bool,          // the save that marks an interrupted operation fails
    reuseSave: bool,           // the save that confirms a reused pair fails
    firstSave: bool,           // the save of Issuing or Renewing fails
    confirmSave: bool,         // the save of the published record fails
    failSave: bool,            // the save of a Degraded record fails
    client: bool, account: bool,
    obtained: Option<Bundle>,  // what the ACME order yields
    readStored: bool,          // reading the published pair back fails
    mounted: Option<Bundle>,   // the provided PEM files
    generate: bool, leaf: nat, // generating a self-signed pair fails; its fingerprint
    publish: Faults, revert: RestoreFaults, again: ProcessFaults)

  /** No call fails. */
  predicate Smooth(e: Env) {
    && e.identityOk && !e.load && !e.repairSave && !e.reuseSave && !e.firstSave && !e.confirmSave
    && !e.client && !e.account && !e.readStored && !e.generate && e.publish == NoFaults && e.now <= e.later
  }

  /** The undo calls of an operation work. */
  predicate Revertable(e: Env) {
    e.publish.restore == NoRestoreFaults && SyncRoot !in e.publish.tls && e.revert == NoRestoreFaults
  }

  function Activated(next: Metadata, b: Bundle, previous: TlsRevision): Metadata {
    next.(state := State.Active, fingerprint := Some(b.leaf), previous := previous, active := Some(b),
          cert := PathIn(Some(b), CertPem), key := PathIn(Some(b), KeyPem), failed := false)
  }

  function Failing(m: Metadata): Metadata {
    m.(state := Degraded, failed := true)
  }

  /** The record after the last part of an operation. */
  function Ended(base: Metadata, next: Metadata, b: Bundle, c: Commit, failSave: bool): Metadata {
    if c.Confirmed? then Activated(next, b, base.active)
    else if failSave then next
    else Failing(if c.NotPublished? then next else base)
  }

  /** The fields only the settings decide. */
  predicate SameSettings(a: Metadata, b: Metadata) {
    && a.source == b.source && a.mode == b.mode && a.hostname == b.hostname && a.email == b.email
    && a.providedCert == b.providedCert && a.providedKey == b.providedKey
  }

  /** A record that a failed operation may leave: settings and pair are those of `m`, which is not reset. */
  predicate Held(m: Metadata, m': Metadata) {
    SameSettings(m, m') && m'.active == m.active && (m'.state.Unconfigured? ==> m.state.Unconfigured?)
  }

  /** The record of an operation that failed after its Issuing or Renewing record `next` was saved. */
  ghost predicate Lost(m: Option<Metadata>, base: Metadata, next: Metadata, e: Env) {
    if e.failSave then m == Some(next)
    else
      || m == Some(next.(state := Degraded, failed := true))
      || (e.confirmSave && m == Some(base.(state := Degraded, failed := true)))
  }

  /** The saves besides that of the published record work. */
  predicate SavesWork(e: Env) {
    !e.repairSave && !e.reuseSave && !e.firstSave && !e.failSave
  }

  lemma LostContinues(base: Metadata, next: Metadata, m: Option<Metadata>, e: Env)
    requires Lost(m, base, next, e) && SameSettings(base, next) && next.active == base.active
    requires !next.state.Unconfigured?
    ensures Continues(base, m, true)
  {
  }

  /** Nothing keeps a failed round from being recorded. */
  predicate Recordable(m: Metadata, e: Env) {
    && SavesWork(e) && !e.load && (e.identityOk || EffectiveSource(m).Provided?)
    && !(EffectiveSource(m).LetsEncrypt? && m.mode.ManualMode?)
  }

  /** A failure is on record. */
  predicate Noted(m: Option<Metadata>) {
    m.Some? && m.value.state.Degraded? && m.value.failed
  }

  /** Nothing but the certificate record differs. */
  ghost predicate Quiet(w: World, w': World) {
    w' == w.(db := w.db.(meta := w'.db.meta))
  }

  /** What a round makes of the record: settings stay, and a failed round also keeps the pair. */
  predicate Continues(m: Metadata, m': Option<Metadata>, failed: bool) {
    m'.Some? && SameSettings(m, m'.value) && (failed ==> Held(m, m'.value))
  }

  function Generated(hostname: string, now: int, leaf: nat): Bundle {
    Bundle(leaf, {hostname}, now - 60_000_000_000, now + 365 * Day, true, true, false)
  }

  /** How a publication with its metadata write ended. */
  datatype Commit = Confirmed | NotPublished | NotSaved

  class CertManager {
    const repo: Store
    const publisher: TlsCoordinator

    constructor (repo: Store, publisher: TlsCoordinator)
      requires publisher.repo == repo
      ensures this.repo == repo && this.publisher == publisher
    {
      this.repo, this.publisher := repo, publisher;
    }

    ghost predicate Valid()
      reads publisher, repo, publisher.repo, publisher.tls, publisher.configs
    {
      publisher.repo == repo && publisher.Valid() && Lawful(repo.log)
    }

    ghost function View(): World
      reads publisher, publisher.repo, publisher.tls, publisher.configs, publisher.admin
    {
      publisher.View()
    }

    /** A call of the publication fails, the reload or the readiness check of a running installation among them. */
    ghost predicate Stopped(e: Env, db: Db)
      reads publisher, publisher.process
    {
      Hindered(e.publish, publisher.process.child, HasActiveUser(db.users))
    }

    /** The recorded pair is on disk. */
    ghost predicate OnDisk()
      reads repo, publisher, publisher.tls
    {
      ActiveRevision(repo.db.meta).Some? ==> ActiveRevision(repo.db.meta).value in publisher.tls.disk.revisions
    }

    method Save(m: Metadata, ghost check: Check, fails: bool) returns (s: Status)
      requires Valid() && RecordOk(m, check) && CheckOk(Entry(Manager, m, check)) && EdgeOk(Manager, Last(repo.log), m)
      modifies repo
      ensures Valid() && (s.Failed? <==> fails)
      ensures repo.db == (if fails then old(repo.db) else old(repo.db).(meta := Some(m)))
      ensures repo.log == (if fails then old(repo.log) else old(repo.log) + [Entry(Manager, m, check)])
      ensures Joint(old(View())) && SamePublication(old(repo.db).meta, m) ==> Joint(View())
    {
      if Joint(View()) && SamePublication(repo.db.meta, m) {
        JointKeepsMeta(View(), m);
      }
      s := repo.SaveTLSMetadata(m, fails, Manager, check);
      assert !fails ==> repo.log[..|repo.log| - 1] == old(repo.log);
    }

    /** Saves a record that is not Active and keeps the publication. */
    method Mark(m: Metadata, fails: bool) returns (s: Status)
      requires Valid() && Sane(m) && !m.state.Active? && EdgeOk(Manager, Last(repo.log), m)
      requires m.active == ActiveRevision(repo.db.meta)
      modifies repo
      ensures Valid() && (s.Failed? <==> fails)
      ensures repo.db == (if fails then old(repo.db) else old(repo.db).(meta := Some(m)))
      ensures !fails ==> Last(repo.log) == m
      ensures Joint(old(View())) ==> Joint(View())
    {
      s := Save(m, Check(m.mode, 0), fails);
    }

    /** What follows a publication that started from `w`: the record, then the pair is shown or all taken back. */
    method Confirm(next: Metadata, b: Bundle, ghost check: Check, e: Env, ghost w: World) returns (c: Commit)
      requires Valid() && Published(w, View(), b)
      requires RecordOk(next, check) && CheckOk(Entry(Manager, next, check)) && EdgeOk(Manager, Last(repo.log), next)
      requires next.active == Some(b)
      modifies repo, publisher, publisher.tls, publisher.configs, publisher.admin, publisher.process
      ensures c.Confirmed? ==> publisher.process.child == old(publisher.process.child)
      ensures Valid() && c == if e.confirmSave then NotSaved else Confirmed
      ensures c.Confirmed? ==> repo.db == old(repo.db).(meta := Some(next))
      ensures c.Confirmed? ==> repo.log == old(repo.log) + [Entry(Manager, next, check)]
      ensures c.Confirmed? ==> publisher.admin.active == Some(b)
      ensures !c.Confirmed? ==> repo.db.meta == old(repo.db).meta && repo.log == old(repo.log)
      ensures old(publisher.tls.disk).revisions.Keys <= publisher.tls.disk.revisions.Keys
      ensures c.Confirmed? ==> Joint(View())
      ensures Joint(w) && c.NotSaved? && e.revert == NoRestoreFaults ==> Undone(w, View()) && Joint(View())
    {
      ghost var w1 := View();
      var saved := Save(next, check, e.confirmSave);
      if saved.Failed? {
        var _ := publisher.RevertLast(e.revert, e.again);
        if Joint(w) && e.revert == NoRestoreFaults {
          RevertUndoesPublish(w, w1, b, View());
        }
        return NotSaved;
      }
      ConfirmedIsJoint(w, w1, b, next);
      publisher.CompletePublished();
      c := Confirmed;
    }

    /**
     Publish, write the record, then show the pair or take everything back: from an agreeing state and
     with working undo calls both pointers and the recorded revision are those on entry.
     */
    method PublishAndSave(next: Metadata, b: Bundle, ghost check: Check, e: Env) returns (c: Commit)
      requires Valid()
      requires RecordOk(next, check) && CheckOk(Entry(Manager, next, check)) && EdgeOk(Manager, Last(repo.log), next)
      requires next.active == Some(b)
      modifies repo, publisher, publisher.tls, publisher.configs, publisher.admin, publisher.process
      ensures Valid()
      ensures c.Confirmed? ==> repo.db.meta == Some(next) && repo.log == old(repo.log) + [Entry(Manager, next, check)]
      ensures c.Confirmed? ==> publisher.admin.active == Some(b) && b in publisher.tls.disk.revisions
      ensures c.Confirmed? ==> Joint(View())
      ensures !c.Confirmed? ==> repo.db.meta == old(repo.db).meta && repo.log == old(repo.log)
      ensures c.NotSaved? ==> e.confirmSave
      ensures old(publisher.tls.disk).revisions.Keys <= publisher.tls.disk.revisions.Keys
      ensures Joint(old(View())) && Revertable(e) ==> Joint(View())
      ensures Joint(old(View())) && Revertable(e) && !c.Confirmed? ==> Undone(old(View()), View())
      ensures c.Confirmed? ==>
                !e.confirmSave && publisher.PublishOk(old(repo.db), b, e.later) &&
                !old(Stopped(e, repo.db))
      ensures (publisher.NoStoreFault(e.publish) && !e.confirmSave &&
               publisher.PublishOk(old(repo.db), b, e.later) && !old(Stopped(e, repo.db))) ==> c.Confirmed?
      ensures c.NotPublished? <== old(Stopped(e, repo.db))
      ensures c.Confirmed? && HasActiveUser(old(repo.db).users) && old(publisher.process.child).NoChild? ==>
                publisher.process.child == Started(repo.db.revision)
    {
      ghost var w := View();
      var published := Try(b, e);
      if published.Err? {
        return NotPublished;
      }
      c := Confirm(next, b, check, e, w);
    }

    /** The publication alone; from an agreeing state and with working undo calls a failed one leaves agreement. */
    method Try(b: Bundle, e: Env) returns (r: Result<Bundle>)
      requires Valid()
      modifies repo, publisher, publisher.tls, publisher.configs, publisher.process
      ensures Valid() && repo.log == old(repo.log) && repo.db.meta == old(repo.db).meta
      ensures old(publisher.tls.disk).revisions.Keys <= publisher.tls.disk.revisions.Keys
      ensures r.Ok? ==> Published(old(View()), View(), b)
      ensures r.Err? && Joint(old(View())) && Revertable(e) ==> Undone(old(View()), View()) && Joint(View())
      ensures r.Ok? ==> publisher.PublishOk(old(repo.db), b, e.later) && !old(Stopped(e, repo.db))
      ensures (publisher.NoStoreFault(e.publish) && publisher.PublishOk(old(repo.db), b, e.later) &&
               !old(Stopped(e, repo.db))) ==> r.Ok?
      ensures r.Ok? && HasActiveUser(old(repo.db).users) && old(publisher.process.child).NoChild? ==>
                publisher.process.child == Started(repo.db.revision)
    {
      ghost var w := View();
      r := publisher.Publish(b, e.later, e.publish);
      if r.Err? && Joint(w) && Revertable(e) {
        JointIsAligned(w);
        UndoneIsJoint(w, View());
      }
    }

    method Fail(m: Metadata, e: Env)
      requires Valid() && PathsMatch(Some(m)) && EdgeOk(Manager, Last(repo.log), Failing(m))
      requires m.active == ActiveRevision(repo.db.meta)
      modifies repo
      ensures Valid() && repo.db == old(repo.db).(meta := repo.db.meta)
      ensures repo.db.meta == if e.failSave then old(repo.db).meta else Some(Failing(m))
      ensures Joint(old(View())) ==> Joint(View())
    {
      var _ := Mark(Failing(m), e.failSave);
    }

    /** The record of a running operation, and the one it falls back to, both with the published revision. */
    ghost predicate InProgress(base: Metadata, next: Metadata)
      reads repo
    {
      && repo.db.meta == Some(next) && Last(repo.log) == next
      && (next.state.Issuing? || next.state.Renewing?)
      && Sane(next) && PathsMatch(Some(base)) && SamePublication(Some(base), next)
    }

    /**
     The part every operation ends with: publish the validated pair and record it, or fail. A failed
     publication degrades the running record, a failed confirmation the one before the operation.
     */
    method Finish(base: Metadata, next: Metadata, b: Bundle, mode: Mode, e: Env) returns (c: Commit)
      requires Valid() && InProgress(base, next)
      requires Validated(b, next.hostname, mode, e.later) && mode == CheckMode(next)
      modifies repo, publisher, publisher.tls, publisher.configs, publisher.admin, publisher.process
      ensures Valid()
      ensures Joint(old(View())) && Revertable(e) ==> Joint(View())
      ensures c.Confirmed? ==> Joint(View())
      ensures repo.db.meta == Some(Ended(base, next, b, c, e.failSave))
      ensures c.Confirmed? ==>
                repo.log == old(repo.log) + [Entry(Manager, Activated(next, b, base.active), Check(mode, e.later))]
      ensures c.NotSaved? ==> e.confirmSave
      ensures old(OnDisk()) ==> OnDisk()
      ensures old(Stopped(e, repo.db)) ==> c.NotPublished?
      ensures Smooth(e) && publisher.PublishOk(old(repo.db), b, e.later) ==> c.Confirmed?
    {
      c := PublishAndSave(Activated(next, b, base.active), b, Check(mode, e.later), e);
      match c
      case NotPublished => Fail(next, e);
      case NotSaved => Fail(base, e);
      case Confirmed =>
    }

    /** The ACME steps up to a validated pair; `ordered` tells whether an order was placed. */
    method Order(hostname: string, mode: Mode, e: Env) returns (b: Option<Bundle>, ordered: bool)
      ensures ordered <==> !e.client && !e.account
      ensures b == if ordered && e.obtained.Some? && Validated(e.obtained.value, hostname, mode, e.later)
                   then e.obtained else None
    {
      if e.client || e.account {
        return None, false;
      }
      if e.obtained.None? || !Validated(e.obtained.value, hostname, mode, e.later) {
        return None, true;
      }
      return e.obtained, true;
    }

    /** The part issue and renewal share: order, refuse the known certificate, publish and record. */
    method Conclude(base: Metadata, next: Metadata, known: Option<nat>, e: Env)
      returns (r: Result<Metadata>, ordered: bool)
      requires Valid() && InProgress(base, next) && EffectiveSource(next).LetsEncrypt?
      modifies repo, publisher, publisher.tls, publisher.configs, publisher.admin, publisher.process
      ensures Valid()
      ensures Joint(old(View())) && Revertable(e) ==> Joint(View())
      ensures r.Ok? ==> ordered && repo.db.meta == Some(r.value)
      ensures r.Ok? ==> Serves(r.value, e.obtained, next.hostname, next.mode, e.later)
      ensures r.Ok? ==> r.value == Activated(next, e.obtained.value, base.active) && Joint(View())
      ensures r.Ok? ==> known != Some(e.obtained.value.leaf)
      ensures r.Ok? ==> repo.log == old(repo.log) + [Entry(Manager, r.value, Check(next.mode, e.later))]
      ensures r.Err? ==> Lost(repo.db.meta, base, next, e)
      ensures old(OnDisk()) ==> OnDisk()
      ensures old(Stopped(e, repo.db)) ==> r.Err?
      ensures ordered <==> !e.client && !e.account
      ensures Smooth(e) && ConcludeReady(old(repo.db), next, known, e) ==> r.Ok?
    {
      var b;
      b, ordered := Order(next.hostname, next.mode, e);
      if b.None? || known == Some(b.value.leaf) {
        Fail(next, e);
        return Err, ordered;
      }
      var c := Finish(base, next, b.value, next.mode, e);
      r := if c.Confirmed? then Ok(Activated(next, b.value, base.active)) else Err;
    }

    ghost predicate ConcludeReady(db: Db, next: Metadata, known: Option<nat>, e: Env) {
      && e.obtained.Some? && Validated(e.obtained.value, next.hostname, next.mode, e.later)
      && known != Some(e.obtained.value.leaf) && publisher.PublishOk(db, e.obtained.value, e.later)
    }

    method Issue(mode: Mode, email: string, hostname: string, e: Env) returns (r: Result<Metadata>, ordered: bool)
      requires Valid()
      modifies repo, publisher, publisher.tls, publisher.configs, publisher.admin, publisher.process
      ensures Valid()
      ensures Joint(old(View())) && Revertable(e) ==> Joint(View())
      ensures ordered <==> IssueStarts(Record(old(repo.db).meta), mode, e) && !e.client && !e.account
      ensures r.Ok? ==> ordered && repo.db.meta == Some(r.value) && Serves(r.value, e.obtained, hostname, mode, e.later)
      ensures r.Ok? ==> Joint(View())
      ensures r.Ok? ==> SameSettings(Asked(Record(old(repo.db).meta), mode, email, hostname), r.value)
      ensures r.Ok? ==> repo.log != [] && repo.log[|repo.log| - 1] == Entry(Manager, r.value, Check(mode, e.later))
      ensures r.Err? ==>
                var was := Record(old(repo.db).meta);
                if IssueStarts(was, mode, e)
                then Lost(repo.db.meta, was, Asked(was, mode, email, hostname).(state := Issuing), e)
                else repo.db == old(repo.db)
      ensures old(OnDisk()) ==> OnDisk()
      ensures old(Stopped(e, repo.db)) ==> r.Err?
      ensures Smooth(e) && IssueReady(old(repo.db), mode, hostname, e) ==> r.Ok?
    {
      if !e.identityOk || e.load {
        return Err, false;
      }
      var current := Record(repo.db.meta);
      if !EffectiveSource(current).LetsEncrypt? || !CanTransition(current.state, Issuing) || mode.ManualMode? {
        return Err, false;
      }
      var next := Asked(current, mode, email, hostname).(state := Issuing);
      var saved := Mark(next, e.firstSave);
      if saved.Failed? {
        return Err, false;
      }
      r, ordered := Conclude(current, next, None, e);
    }

    /** The operation gets as far as the Issuing record. */
    predicate IssueStarts(m: Metadata, mode: Mode, e: Env) {
      && e.identityOk && !e.load && EffectiveSource(m).LetsEncrypt? && !mode.ManualMode? && !e.firstSave
      && (m.state.Unconfigured? || m.state.Degraded? || m.state.Issuing? || m.state.Manual?)
    }

    /** The operation gets as far as the Renewing record. */
    predicate RenewStarts(m: Option<Metadata>, e: Env) {
      && e.identityOk && !e.load && m.Some? && EffectiveSource(m.value).LetsEncrypt? && !e.firstSave
      && (m.value.state.Active? || m.value.state.Degraded? || m.value.state.Renewing?)
    }

    /** The record with the settings an issue asks for. */
    function Asked(m: Metadata, mode: Mode, email: string, hostname: string): Metadata {
      m.(mode := mode, email := email, hostname := hostname)
    }

    /** What an issue needs beyond working calls. */
    ghost predicate IssueReady(db: Db, mode: Mode, hostname: string, e: Env) {
      && EffectiveSource(Record(db.meta)).LetsEncrypt? && !mode.ManualMode?
      && CanTransition(Record(db.meta).state, Issuing)
      && e.obtained.Some? && Validated(e.obtained.value, hostname, mode, e.later)
      && publisher.PublishOk(db, e.obtained.value, e.later)
    }

    method Renew(e: Env) returns (r: Result<Metadata>, ordered: bool)
      requires Valid()
      modifies repo, publisher, publisher.tls, publisher.configs, publisher.admin, publisher.process
      ensures Valid()
      ensures Joint(old(View())) && Revertable(e) ==> Joint(View())
      ensures ordered <==> RenewStarts(old(repo.db).meta, e) && !e.client && !e.account
      ensures r.Ok? ==> && ordered && old(repo.db).meta.Some? && repo.db.meta == Some(r.value)
                        && Serves(r.value, e.obtained, old(repo.db).meta.value.hostname,
                                  old(repo.db).meta.value.mode, e.later)
      ensures r.Ok? ==>
                repo.log != [] && repo.log[|repo.log| - 1] == Entry(Manager, r.value, Check(r.value.mode, e.later))
      ensures r.Ok? ==> Joint(View())
      ensures r.Ok? ==> old(repo.db).meta.value.fingerprint != Some(e.obtained.value.leaf)
      ensures old(repo.db).meta.Some? ==> Continues(old(repo.db).meta.value, repo.db.meta, r.Err?)
      ensures r.Err? ==>
                if RenewStarts(old(repo.db).meta, e)
                then Lost(repo.db.meta, old(repo.db).meta.value, old(repo.db).meta.value.(state := Renewing), e)
                else repo.db == old(repo.db)
      ensures old(OnDisk()) ==> OnDisk()
      ensures old(Stopped(e, repo.db)) ==> r.Err?
      ensures Smooth(e) && RenewReady(old(repo.db), e) ==> r.Ok?
    {
      if e.load || repo.db.meta.None? {
        return Err, false;
      }
      var current := repo.db.meta.value;
      if !EffectiveSource(current).LetsEncrypt? || !e.identityOk || !CanTransition(current.state, Renewing) {
        return Err, false;
      }
      var next := current.(state := Renewing);
      var saved := Mark(next, e.firstSave);
      if saved.Failed? {
        return Err, false;
      }
      r, ordered := Conclude(current, next, current.fingerprint, e);
    }

    ghost predicate RenewReady(db: Db, e: Env) {
      && db.meta.Some? && EffectiveSource(db.meta.value).LetsEncrypt?
      && CanTransition(db.meta.value.state, Renewing)
      && e.obtained.Some? && Validated(e.obtained.value, db.meta.value.hostname, db.meta.value.mode, e.later)
      && db.meta.value.fingerprint != Some(e.obtained.value.leaf)
      && publisher.PublishOk(db, e.obtained.value, e.later)
    }

    /** The file at a recorded path. */
    method ReadPem(path: PemPath) returns (pem: Option<Pem>)
      requires Valid()
      ensures pem == (if path.InRevision? && path.bundle in publisher.tls.disk.revisions &&
                         path.file in publisher.tls.disk.revisions[path.bundle]
                      then Some(publisher.tls.disk.revisions[path.bundle][path.file]) else None)
    {
      pem := None;
      if path.InRevision? && path.bundle in publisher.tls.disk.revisions {
        var files := publisher.tls.disk.revisions[path.bundle];
        if path.file in files {
          pem := Some(files[path.file]);
        }
      }
    }

    /** The two files at the recorded paths, a chain and the key that belongs to it. */
    method ReadStored(m: Metadata, e: Env) returns (b: Option<Bundle>)
      requires Valid()
      ensures b.Some? && PathsMatch(Some(m)) ==> b == m.active
      ensures !e.readStored && Stored(m) && PathsMatch(Some(m)) ==> b == m.active
    {
      publisher.tls.PemsInPlace();
      if e.readStored {
        return None;
      }
      var chain := ReadPem(m.cert);
      var key := ReadPem(m.key);
      if chain.None? || key.None? || !chain.value.Chain? || !key.value.Key? || chain.value.bundle != key.value.bundle {
        return None;
      }
      b := Some(chain.value.bundle);
    }

    ghost predicate Stored(m: Metadata)
      reads publisher, publisher.tls
    {
      m.active.Some? && m.active.value in publisher.tls.disk.revisions
    }

    /** An operation that a previous process left running is marked as failed. */
    method Repair(record: Metadata, e: Env) returns (r: Result<Metadata>)
      requires Valid() && repo.db.meta == Some(record)
      modifies repo
      ensures Valid() && repo.db == old(repo.db).(meta := repo.db.meta)
      ensures Joint(old(View())) ==> Joint(View())
      ensures repo.db.meta == Some(if r.Ok? then Repaired(record) else record)
      ensures r.Ok? ==> r.value == Repaired(record)
      ensures !e.repairSave ==> r.Ok?
    {
      if record.state.Issuing? || record.state.Renewing? {
        var saved := Mark(Repaired(record), e.repairSave);
        return if saved.Failed? then Err else Ok(Repaired(record));
      }
      r := Ok(record);
    }

    /** A valid pair is in place: the record becomes, or stays, Active. */
    method Reuse(current: Metadata, mode: Mode, e: Env) returns (r: Result<Metadata>)
      requires Valid() && repo.db.meta == Some(current) && current.active.Some?
      requires Validated(current.active.value, current.hostname, mode, e.now) && mode == CheckMode(current)
      requires current.state.Active? || current.state.Degraded? || EffectiveSource(current).Provided?
      modifies repo
      ensures Valid() && repo.db == old(repo.db).(meta := repo.db.meta)
      ensures Joint(old(View())) ==> Joint(View())
      ensures repo.db.meta == Some(if r.Ok? then r.value else current)
      ensures r.Ok? ==> r.value == Reused(current)
      ensures Reused(current) == current ==> r.Ok? && repo.log == old(repo.log)
      ensures !e.reuseSave ==> r.Ok?
    {
      if current.state.Active? && !(EffectiveSource(current).Provided? && current.failed) {
        return Ok(current);
      }
      var saved := Save(Reused(current), Check(mode, e.now), e.reuseSave);
      r := if saved.Failed? then Err else Ok(Reused(current));
    }

    /** The branch of `Ensure` for the letsencrypt source. */
    method EnsureAcme(record: Metadata, lead: int, e: Env) returns (r: Result<Metadata>, ordered: bool)
      requires Valid() && repo.db.meta == Some(record) && EffectiveSource(record).LetsEncrypt?
      modifies repo, publisher, publisher.tls, publisher.configs, publisher.admin, publisher.process
      ensures Valid()
      ensures Joint(old(View())) && Revertable(e) ==> Joint(View())
      ensures ordered && !e.readStored && old(Stored(record)) ==> !OutsideLead(record, lead, e.now)
      ensures r.Ok? ==> repo.db.meta == Some(r.value) && Round(record, r.value, lead, e, ordered)
      ensures r.Ok? && ordered ==> Joint(View())
      ensures Continues(record, repo.db.meta, r.Err?)
      ensures ordered ==> e.identityOk && !e.client && !e.account && !e.firstSave
      ensures r.Err? && SavesWork(e) && e.identityOk && !e.load && !record.mode.ManualMode? ==> Noted(repo.db.meta)
      ensures r.Ok? && !ordered ==> Quiet(old(View()), View())
      ensures old(OnDisk()) ==> OnDisk()
      ensures old(Stopped(e, repo.db)) ==> r.Err? || !ordered
      ensures Smooth(e) && AcmeReady(old(repo.db), record, e) ==> r.Ok?
    {
      if !e.identityOk {
        return Err, false;
      }
      var repaired := Repair(record, e);
      if repaired.Err? {
        return Err, false;
      }
      RepairKeeps(record);
      r, ordered := AcmeRound(repaired.value, lead, e);
    }

    /** The round once no operation is left running. */
    method AcmeRound(current: Metadata, lead: int, e: Env) returns (r: Result<Metadata>, ordered: bool)
      requires Valid() && repo.db.meta == Some(current) && EffectiveSource(current).LetsEncrypt?
      requires !current.state.Issuing? && !current.state.Renewing?
      modifies repo, publisher, publisher.tls, publisher.configs, publisher.admin, publisher.process
      ensures Valid()
      ensures Joint(old(View())) && Revertable(e) ==> Joint(View())
      ensures ordered && !e.readStored && old(Stored(current)) ==> !OutsideLead(current, lead, e.now)
      ensures r.Ok? ==> repo.db.meta == Some(r.value) && Round(current, r.value, lead, e, ordered)
      ensures r.Ok? && ordered ==> Joint(View())
      ensures Continues(current, repo.db.meta, r.Err?)
      ensures ordered ==> e.identityOk && !e.client && !e.account && !e.firstSave
      ensures r.Err? && SavesWork(e) && e.identityOk && !e.load && !current.mode.ManualMode? ==> Noted(repo.db.meta)
      ensures r.Ok? && !ordered ==> Quiet(old(View()), View())
      ensures old(OnDisk()) ==> OnDisk()
      ensures old(Stopped(e, repo.db)) ==> r.Err? || !ordered
      ensures Smooth(e) && AcmeReady(old(repo.db), current, e) ==> r.Ok?
    {
      var stored := ReadStored(current, e);
      if stored.Some? && OutsideLead(current, lead, e.now) {
        r := Reuse(current, current.mode, e);
        return r, false;
      }
      r, ordered := OrderAgain(current, e);
    }

    /** A first order, or a renewal of the recorded pair. */
    method OrderAgain(current: Metadata, e: Env) returns (r: Result<Metadata>, ordered: bool)
      requires Valid() && repo.db.meta == Some(current) && EffectiveSource(current).LetsEncrypt?
      requires !current.state.Issuing? && !current.state.Renewing?
      modifies repo, publisher, publisher.tls, publisher.configs, publisher.admin, publisher.process
      ensures Valid()
      ensures Joint(old(View())) && Revertable(e) ==> Joint(View())
      ensures r.Ok? ==> && ordered && repo.db.meta == Some(r.value)
                        && Serves(r.value, e.obtained, current.hostname, current.mode, e.later) && Joint(View())
      ensures Continues(current, repo.db.meta, r.Err?)
      ensures ordered ==> e.identityOk && !e.client && !e.account && !e.firstSave
      ensures r.Err? && SavesWork(e) && e.identityOk && !e.load && !current.mode.ManualMode? ==> Noted(repo.db.meta)
      ensures r.Ok? && !ordered ==> Quiet(old(View()), View())
      ensures old(OnDisk()) ==> OnDisk()
      ensures old(Stopped(e, repo.db)) ==> r.Err? || !ordered
      ensures Smooth(e) && AcmeReady(old(repo.db), current, e) ==> r.Ok?
    {
      if current.state.Unconfigured? || current.active.None? {
        // The code first marks a record that is neither unconfigured nor degraded; no lawful one gets here.
        assert current.state.Unconfigured? || current.state.Degraded?;
        r, ordered := Issue(current.mode, current.email, current.hostname, e);
      } else {
        r, ordered := Renew(e);
      }
    }

    ghost predicate AcmeReady(db: Db, m: Metadata, e: Env) {
      && !m.mode.ManualMode?
      && e.obtained.Some? && Validated(e.obtained.value, m.hostname, m.mode, e.later)
      && m.fingerprint != Some(e.obtained.value.leaf)
      && publisher.PublishOk(db, e.obtained.value, e.later)
    }

    /** Validates a pair that no ACME server vouches for, then publishes it. */
    method PublishUnmanaged(base: Metadata, next: Metadata, b: Bundle, e: Env) returns (r: Result<Metadata>)
      requires Valid() && InProgress(base, next) && !EffectiveSource(next).LetsEncrypt?
      modifies repo, publisher, publisher.tls, publisher.configs, publisher.admin, publisher.process
      ensures Valid()
      ensures Joint(old(View())) && Revertable(e) ==> Joint(View())
      ensures r.Ok? ==> repo.db.meta == Some(r.value) && Serves(r.value, Some(b), next.hostname, ManualMode, e.later)
      ensures r.Ok? ==> r.value == Activated(next, b, base.active) && Joint(View())
      ensures r.Err? ==> Lost(repo.db.meta, base, next, e)
      ensures old(OnDisk()) ==> OnDisk()
      ensures old(Stopped(e, repo.db)) ==> r.Err?
      ensures (Smooth(e) && Validated(b, next.hostname, ManualMode, e.later) &&
               publisher.PublishOk(old(repo.db), b, e.later)) ==> r.Ok?
    {
      if !Validated(b, next.hostname, ManualMode, e.later) {
        Fail(next, e);
        return Err;
      }
      var c := Finish(base, next, b, ManualMode, e);
      r := if c.Confirmed? then Ok(Activated(next, b, base.active)) else Err;
    }

    /** Marks the record Issuing or Renewing and publishes the pair `b`; None if there is none to publish. */
    method Replace(current: Metadata, b: Option<Bundle>, e: Env) returns (r: Result<Metadata>)
      requires Valid() && repo.db.meta == Some(current) && !EffectiveSource(current).LetsEncrypt?
      requires (!current.state.Issuing? && !current.state.Renewing?) || EffectiveSource(current).Provided?
      modifies repo, publisher, publisher.tls, publisher.configs, publisher.admin, publisher.process
      ensures Valid()
      ensures Joint(old(View())) && Revertable(e) ==> Joint(View())
      ensures r.Ok? ==> && b.Some? && repo.db.meta == Some(r.value) && r.value.previous == current.active
                        && Serves(r.value, b, current.hostname, ManualMode, e.later) && Joint(View())
      ensures Continues(current, repo.db.meta, r.Err?)
      ensures r.Err? ==>
                if e.firstSave then repo.db == old(repo.db)
                else Lost(repo.db.meta, current,
                          current.(state := if current.active.None? || current.state.Unconfigured? then Issuing
                                            else Renewing), e)
      ensures old(OnDisk()) ==> OnDisk()
      ensures old(Stopped(e, repo.db)) ==> r.Err?
      ensures Smooth(e) && b.Some? && ReplaceReady(old(repo.db), current, b.value, e) ==> r.Ok?
    {
      var next := Begun(current);
      var saved := Begin(current, next, e);
      if saved.Failed? {
        return Err;
      }
      r := PublishOrFail(current, next, b, e);
      if r.Err? {
        LostContinues(current, next, repo.db.meta, e);
      }
    }

    /** The record of the running operation is saved. */
    method Begin(current: Metadata, next: Metadata, e: Env) returns (s: Status)
      requires Valid() && repo.db.meta == Some(current) && next == Begun(current)
      requires (!current.state.Issuing? && !current.state.Renewing?) || EffectiveSource(current).Provided?
      modifies repo
      ensures Valid() && (s.Failed? <==> e.firstSave)
      ensures repo.db == if s.Failed? then old(repo.db) else old(repo.db).(meta := Some(next))
      ensures s.Done? ==> InProgress(current, next)
      ensures Joint(old(View())) ==> Joint(View())
    {
      s := Mark(next, e.firstSave);
    }

    /** The pair, if there is one to publish. */
    method PublishOrFail(base: Metadata, next: Metadata, b: Option<Bundle>, e: Env) returns (r: Result<Metadata>)
      requires Valid() && InProgress(base, next) && !EffectiveSource(next).LetsEncrypt?
      modifies repo, publisher, publisher.tls, publisher.configs, publisher.admin, publisher.process
      ensures Valid()
      ensures Joint(old(View())) && Revertable(e) ==> Joint(View())
      ensures r.Ok? ==> && b.Some? && repo.db.meta == Some(r.value)
                        && Serves(r.value, b, next.hostname, ManualMode, e.later)
                        && r.value == Activated(next, b.value, base.active) && Joint(View())
      ensures r.Err? ==> Lost(repo.db.meta, base, next, e)
      ensures old(OnDisk()) ==> OnDisk()
      ensures old(Stopped(e, repo.db)) ==> r.Err?
      ensures (Smooth(e) && b.Some? && Validated(b.value, next.hostname, ManualMode, e.later) &&
               publisher.PublishOk(old(repo.db), b.value, e.later)) ==> r.Ok?
    {
      if b.None? {
        Fail(next, e);
        return Err;
      }
      r := PublishUnmanaged(base, next, b.value, e);
    }

    function Begun(m: Metadata): Metadata {
      m.(state := if m.active.None? || m.state.Unconfigured? then Issuing else Renewing)
    }

    ghost predicate ReplaceReady(db: Db, m: Metadata, b: Bundle, e: Env) {
      Validated(b, m.hostname, ManualMode, e.later) && publisher.PublishOk(db, b, e.later)
    }

    /**
     The branch of `Ensure` for the self-signed source: a readable pair outside its lead is reused, and
     only such a pair; otherwise a new one is generated.
     */
    method EnsureSelfSigned(record: Metadata, lead: int, e: Env) returns (r: Result<Metadata>)
      requires Valid() && repo.db.meta == Some(record) && EffectiveSource(record).SelfSigned?
      modifies repo, publisher, publisher.tls, publisher.configs, publisher.admin, publisher.process
      ensures Valid()
      ensures Joint(old(View())) && Revertable(e) ==> Joint(View())
      ensures r.Ok? ==> repo.db.meta == Some(r.value) &&
                        (|| (&& !record.state.Unconfigured? && record.active.Some?
                             && record.active.value.notAfter - e.now >
                                (if 0 < lead <= 10_512_000_000_000_000 then lead else 2_592_000_000_000_000)
                             && Serves(r.value, record.active, record.hostname, ManualMode, e.now))
                         || (&& r.value.active.Some?
                             && r.value.active.value.notBefore == e.later - 60_000_000_000
                             && r.value.active.value.notAfter == e.later + 31_536_000_000_000_000
                             && Serves(r.value, Some(Generated(record.hostname, e.later, e.leaf)), record.hostname,
                                       ManualMode, e.later)))
      ensures (&& r.Ok? && !e.readStored && old(Stored(record)) && !record.state.Unconfigured?
               && Validated(record.active.value, record.hostname, ManualMode, e.now)
               && record.active.value.notAfter - e.now >
                  if 0 < lead <= 10_512_000_000_000_000 then lead else 2_592_000_000_000_000) ==>
                r.value.active == record.active
      ensures old(Stopped(e, repo.db)) && r.Ok? ==> r.value.active == record.active
      ensures r.Err? && SavesWork(e) && e.identityOk ==> Noted(repo.db.meta)
      ensures Continues(record, repo.db.meta, r.Err?)
      ensures old(OnDisk()) ==> OnDisk()
      ensures Smooth(e) && publisher.PublishOk(old(repo.db), Generated(record.hostname, e.later, e.leaf), e.later) ==>
                r.Ok?
    {
      if !e.identityOk {
        return Err;
      }
      var repaired := Repair(record, e);
      if repaired.Err? {
        return Err;
      }
      RepairKeeps(record);
      r := OwnRound(repaired.value, lead, e);
    }

    method OwnRound(current: Metadata, lead: int, e: Env) returns (r: Result<Metadata>)
      requires Valid() && repo.db.meta == Some(current) && EffectiveSource(current).SelfSigned?
      requires !current.state.Issuing? && !current.state.Renewing?
      modifies repo, publisher, publisher.tls, publisher.configs, publisher.admin, publisher.process
      ensures Valid()
      ensures Joint(old(View())) && Revertable(e) ==> Joint(View())
      ensures r.Ok? ==> repo.db.meta == Some(r.value) &&
                        (|| (&& OutsideOwnLead(current, lead, e.now)
                             && Serves(r.value, current.active, current.hostname, ManualMode, e.now))
                         || Serves(r.value, Some(Generated(current.hostname, e.later, e.leaf)), current.hostname,
                                   ManualMode, e.later))
      ensures r.Ok? && !e.readStored && old(Stored(current)) && OutsideOwnLead(current, lead, e.now) ==>
                r.value.active == current.active
      ensures old(Stopped(e, repo.db)) && r.Ok? ==> r.value.active == current.active
      ensures r.Err? && SavesWork(e) ==> Noted(repo.db.meta)
      ensures Continues(current, repo.db.meta, r.Err?)
      ensures old(OnDisk()) ==> OnDisk()
      ensures Smooth(e) && publisher.PublishOk(old(repo.db), Generated(current.hostname, e.later, e.leaf), e.later) ==>
                r.Ok?
    {
      var stored := ReadStored(current, e);
      if stored.Some? && OutsideOwnLead(current, lead, e.now) {
        r := Reuse(current, ManualMode, e);
        return r;
      }
      var b := Generated(current.hostname, e.later, e.leaf);
      r := Replace(current, if e.generate then None else Some(b), e);
    }

    /** A pair imported without mounted files stays as long as it is readable and valid. */
    method KeepInternal(current: Metadata, e: Env) returns (r: Result<Metadata>)
      requires Valid() && repo.db.meta == Some(current) && EffectiveSource(current).Provided? && current.active.Some?
      modifies repo
      ensures Valid() && Continues(current, repo.db.meta, r.Err?)
      ensures Joint(old(View())) ==> Joint(View())
      ensures r.Ok? ==>
                repo.db.meta == Some(r.value) && Serves(r.value, current.active, current.hostname, ManualMode, e.now)
      ensures r.Err? && SavesWork(e) ==> Noted(repo.db.meta)
      ensures Quiet(old(View()), View())
      ensures old(OnDisk()) ==> OnDisk()
      ensures (Smooth(e) && old(Stored(current)) &&
               Validated(current.active.value, current.hostname, ManualMode, e.now)) ==> r.Ok?
    {
      var stored := ReadStored(current, e);
      if stored.None? || !Validated(stored.value, current.hostname, ManualMode, e.now) {
        Fail(current, e);
        return Err;
      }
      r := Reuse(current, ManualMode, e);
    }

    /** The branch of `Ensure` for mounted PEM files (source `provided`). */
    method EnsureProvided(current: Metadata, e: Env) returns (r: Result<Metadata>)
      requires Valid() && repo.db.meta == Some(current) && EffectiveSource(current).Provided?
      modifies repo, publisher, publisher.tls, publisher.configs, publisher.admin, publisher.process
      ensures Valid()
      ensures Joint(old(View())) && Revertable(e) ==> Joint(View())
      ensures r.Ok? ==> repo.db.meta == Some(r.value) &&
                        (|| Serves(r.value, current.active, current.hostname, ManualMode, e.now)
                         || Serves(r.value, e.mounted, current.hostname, ManualMode, e.later))
      ensures (&& r.Ok? && !e.readStored && old(Stored(current)) && !current.state.Unconfigured?
               && (e.mounted == current.active || (current.providedCert == "" && current.providedKey == ""))) ==>
                Quiet(old(View()), View())
      ensures (&& r.Ok? && (current.state.Unconfigured? || e.mounted != current.active)
               && !(current.providedCert == "" && current.providedKey == "" && current.active.Some?)) ==>
                Serves(r.value, e.mounted, current.hostname, ManualMode, e.later) && Joint(View())
      ensures Continues(current, repo.db.meta, r.Err?)
      ensures old(OnDisk()) ==> OnDisk()
      ensures old(Stopped(e, repo.db)) && r.Ok? ==> r.value.active == current.active
      ensures r.Err? && SavesWork(e) ==> Noted(repo.db.meta)
      ensures Smooth(e) && old(ProvidedReady(repo.db, current, e)) ==> r.Ok?
    {
      if current.providedCert == "" && current.providedKey == "" && current.active.Some? {
        r := KeepInternal(current, e);
        return r;
      }
      if !e.identityOk || e.mounted.None? || !Validated(e.mounted.value, current.hostname, ManualMode, e.now) {
        Fail(current, e);
        return Err;
      }
      r := UseMounted(current, e);
    }

    /** A valid pair is mounted: it is published unless it is in place already. */
    method UseMounted(current: Metadata, e: Env) returns (r: Result<Metadata>)
      requires Valid() && repo.db.meta == Some(current) && EffectiveSource(current).Provided?
      requires e.mounted.Some? && Validated(e.mounted.value, current.hostname, ManualMode, e.now)
      modifies repo, publisher, publisher.tls, publisher.configs, publisher.admin, publisher.process
      ensures Valid()
      ensures Joint(old(View())) && Revertable(e) ==> Joint(View())
      ensures r.Ok? ==> repo.db.meta == Some(r.value) &&
                        (|| Serves(r.value, current.active, current.hostname, ManualMode, e.now)
                         || Serves(r.value, e.mounted, current.hostname, ManualMode, e.later))
      ensures (&& r.Ok? && !e.readStored && old(Stored(current)) && !current.state.Unconfigured?
               && e.mounted == current.active) ==> Quiet(old(View()), View())
      ensures r.Ok? && (current.state.Unconfigured? || e.mounted != current.active) ==>
                Serves(r.value, e.mounted, current.hostname, ManualMode, e.later) &&
                r.value.previous == current.active && Joint(View())
      ensures Continues(current, repo.db.meta, r.Err?)
      ensures old(OnDisk()) ==> OnDisk()
      ensures old(Stopped(e, repo.db)) && r.Ok? ==> r.value.active == current.active
      ensures r.Err? && SavesWork(e) ==> Noted(repo.db.meta)
      ensures (Smooth(e) && Validated(e.mounted.value, current.hostname, ManualMode, e.later) &&
               publisher.PublishOk(old(repo.db), e.mounted.value, e.later)) ==> r.Ok?
    {
      if current.active.Some? && !current.state.Unconfigured? {
        var stored := ReadStored(current, e);
        if stored == e.mounted {
          r := Reuse(current, ManualMode, e);
          return r;
        }
      }
      r := Replace(current, e.mounted, e);
    }

    /** A valid pair is mounted; or none is configured and the internal pair is valid. */
    ghost predicate ProvidedReady(db: Db, m: Metadata, e: Env)
      reads publisher, publisher.tls
    {
      if m.providedCert == "" && m.providedKey == "" && m.active.Some?
      then Stored(m) && Validated(m.active.value, m.hostname, ManualMode, e.now)
      else
        && e.mounted.Some?
        && Validated(e.mounted.value, m.hostname, ManualMode, e.now)
        && Validated(e.mounted.value, m.hostname, ManualMode, e.later)
        && publisher.PublishOk(db, e.mounted.value, e.later)
    }

    /**
     One background round. ACME is only contacted for the letsencrypt source, and not while the
     stored pair is readable, valid and outside its renewal lead. A round that succeeds leaves an
     Active record with a currently valid pair, and it does succeed - from every lawful record,
     interrupted ones included - when the settings are complete and no external step fails.
     */
    method Ensure(lead: int, e: Env) returns (r: Result<Option<Metadata>>, ordered: bool)
      requires Valid()
      modifies repo, publisher, publisher.tls, publisher.configs, publisher.admin, publisher.process
      ensures Valid()
      ensures Joint(old(View())) && Revertable(e) ==> Joint(View())
      ensures ordered ==> old(repo.db).meta.Some? && EffectiveSource(old(repo.db).meta.value).LetsEncrypt?
      ensures (r.Ok? && !ordered && Complete(old(repo.db).meta) &&
               EffectiveSource(old(repo.db).meta.value).LetsEncrypt?) ==>
                var b := old(repo.db).meta.value.active;
                && !old(repo.db).meta.value.state.Unconfigured?
                && b.Some? && b.value.notBefore <= e.now < b.value.notAfter
                && (|| 3 * (b.value.notAfter - e.now) > b.value.notAfter - b.value.notBefore
                    || b.value.notAfter - e.now > if lead <= 0 then 2_592_000_000_000_000 else lead)
      ensures old(repo.db).meta.Some? && !e.readStored && old(Stored(repo.db.meta.value)) ==>
                var m, b := old(repo.db).meta.value, old(repo.db).meta.value.active.value;
                (&& !m.state.Unconfigured? && Validated(b, m.hostname, m.mode, e.now)
                 && (|| 3 * (b.notAfter - e.now) > b.notAfter - b.notBefore
                     || b.notAfter - e.now > if lead <= 0 then 2_592_000_000_000_000 else lead)) ==> !ordered
      ensures Complete(old(repo.db).meta) && r.Ok? ==> repo.db.meta == r.value && CurrentlyValid(repo.db.meta, e)
      ensures Complete(old(repo.db).meta) && EffectiveSource(old(repo.db).meta.value).LetsEncrypt? && r.Ok? ==>
                repo.db.meta.Some? && Round(old(repo.db).meta.value, repo.db.meta.value, lead, e, ordered)
      ensures r.Ok? && ordered ==> Joint(View())
      ensures if old(repo.db).meta.None? then repo.db.meta.None?
              else Continues(old(repo.db).meta.value, repo.db.meta, r.Err?)
      ensures old(repo.db).meta.Some? && !Complete(old(repo.db).meta) ==> !ordered && repo.db.meta == old(repo.db).meta
      ensures old(OnDisk()) ==> OnDisk()
      ensures ordered ==> e.identityOk && !e.load && !e.client && !e.account && !e.firstSave
      ensures old(repo.db).meta.Some? && Recordable(old(repo.db).meta.value, e) && r.Err? ==> Noted(repo.db.meta)
      ensures old(Stopped(e, repo.db)) && r.Ok? ==> ActiveRevision(repo.db.meta) == ActiveRevision(old(repo.db).meta)
      ensures old(Stopped(e, repo.db)) ==> r.Err? || !ordered
      ensures Complete(old(repo.db).meta) && Smooth(e) && old(Ready(repo.db, e)) ==> r.Ok?
    {
      ordered := false;
      if e.load {
        return Err, false;
      }
      if repo.db.meta.None? {
        return Ok(None), false;
      }
      var current := repo.db.meta.value;
      var done;
      if EffectiveSource(current).SelfSigned? || EffectiveSource(current).Provided? {
        done := EnsureUnmanaged(current, lead, e);
      } else if current.hostname == "" || current.email == "" {
        return Ok(Some(current)), false;
      } else {
        LeadExact(current, lead, e.now);
        done, ordered := EnsureAcme(current, lead, e);
      }
      r := if done.Err? then Err else Ok(Some(done.value));
    }

    /** The branches of `Ensure` without ACME. */
    method EnsureUnmanaged(current: Metadata, lead: int, e: Env) returns (r: Result<Metadata>)
      requires Valid() && repo.db.meta == Some(current)
      requires EffectiveSource(current).SelfSigned? || EffectiveSource(current).Provided?
      modifies repo, publisher, publisher.tls, publisher.configs, publisher.admin, publisher.process
      ensures Valid()
      ensures Joint(old(View())) && Revertable(e) ==> Joint(View())
      ensures r.Ok? ==> repo.db.meta == Some(r.value) && CurrentlyValid(repo.db.meta, e)
      ensures Continues(current, repo.db.meta, r.Err?)
      ensures old(OnDisk()) ==> OnDisk()
      ensures Recordable(current, e) && r.Err? ==> Noted(repo.db.meta)
      ensures old(Stopped(e, repo.db)) && r.Ok? ==> r.value.active == current.active
      ensures Smooth(e) && old(Ready(repo.db, e)) ==> r.Ok?
    {
      if EffectiveSource(current).SelfSigned? {
        r := EnsureSelfSigned(current, lead, e);
      } else {
        r := EnsureProvided(current, e);
      }
    }

    ghost predicate Ready(db: Db, e: Env)
      requires db.meta.Some?
      reads publisher, publisher.tls
    {
      match EffectiveSource(db.meta.value)
      case SelfSigned => publisher.PublishOk(db, Generated(db.meta.value.hostname, e.later, e.leaf), e.later)
      case Provided => ProvidedReady(db, db.meta.value, e)
      case _ => AcmeReady(db, db.meta.value, e)
    }

    method ImportManual(hostname: string, b: Bundle, e: Env) returns (r: Result<Metadata>)
      requires Valid()
      modifies repo, publisher, publisher.tls, publisher.configs, publisher.admin, publisher.process
      ensures Valid()
      ensures Joint(old(View())) && Revertable(e) ==> Joint(View())
      ensures r.Ok? ==> repo.db.meta == Some(r.value) && Serves(r.value, Some(b), hostname, ManualMode, e.later)
      ensures r.Ok? ==> var was := Record(old(repo.db).meta);
                        && r.value.source == Provided && r.value.mode == ManualMode && !r.value.failed
                        && r.value.fingerprint == Some(b.leaf) && r.value.previous == was.active
                        && r.value.email == was.email
                        && r.value.providedCert == was.providedCert && r.value.providedKey == was.providedKey
      ensures r.Ok? ==> Joint(View())
      ensures r.Ok? ==> repo.log == old(repo.log) + [Entry(Manager, r.value, Check(ManualMode, e.later))]
      ensures r.Err? ==> repo.db.meta == old(repo.db).meta
      ensures old(Stopped(e, repo.db)) ==> r.Err?
      ensures (&& !e.load && !e.confirmSave && e.publish == NoFaults && publisher.PublishOk(old(repo.db), b, e.later)
               && hostname in b.hosts && b.notBefore <= e.later < b.notAfter && b.chained && b.paired) ==> r.Ok?
    {
      if e.load || !Validated(b, hostname, ManualMode, e.later) {
        return Err;
      }
      var current := Record(repo.db.meta);
      var next := Activated(current, b, current.active).(source := Provided, mode := ManualMode, hostname := hostname);
      var c := PublishAndSave(next, b, Check(ManualMode, e.later), e);
      r := if c.Confirmed? then Ok(next) else Err;
    }
  }

  function Reused(m: Metadata): Metadata {
    if m.state.Active? && !(EffectiveSource(m).Provided? && m.failed) then m
    else m.(state := State.Active, failed := false)
  }

  /** A successful letsencrypt round: the pair is kept, or replaced by the ordered one. */
  ghost predicate Round(m: Metadata, m': Metadata, lead: int, e: Env, ordered: bool) {
    && SameSettings(m, m') && m'.state.Active?
    && if ordered then Serves(m', e.obtained, m.hostname, m.mode, e.later)
       else OutsideLead(m, lead, e.now) && m'.active == m.active
  }

  /** A selected source with its settings. */
  predicate Complete(m: Option<Metadata>) {
    m.Some? && (EffectiveSource(m.value).LetsEncrypt? ==> m.value.hostname != "" && m.value.email != "")
  }

  /** Active on a pair for the host that was within its window when the round looked at it, or published it. */
  ghost predicate CurrentlyValid(m: Option<Metadata>, e: Env) {
    && m.Some? && m.value.state.Active? && m.value.active.Some?
    && var b := m.value.active.value;
       && m.value.hostname in b.hosts && b.chained && b.paired
       && (EffectiveSource(m.value).LetsEncrypt? && m.value.mode.Production? ==> !b.staging)
       && (b.notBefore <= e.now < b.notAfter || b.notBefore <= e.later < b.notAfter)
  }

  /** The lead of a self-signed pair: what is configured, unless that is over a third of its year. */
  function OwnLead(lead: int): int {
    if lead <= 0 || lead > 365 * Day / 3 then 30 * Day else lead
  }

  /** The recorded self-signed pair is in use, valid, and not yet due. */
  predicate OutsideOwnLead(m: Metadata, lead: int, now: int) {
    && !m.state.Unconfigured? && m.active.Some?
    && Validated(m.active.value, m.hostname, ManualMode, now)
    && now < m.active.value.notAfter - OwnLead(lead)
  }

  // ----- Settings

  /** The record with new settings; its state is reset when the pair no longer answers for them. */
  function Configured(m: Metadata, source: Source, hostname: string, email: string, mode: Mode, cert: string,
                      key: string): Metadata {
    var other := EffectiveSource(m) != source || m.providedCert != cert || m.providedKey != key;
    var kept := if other || m.hostname != hostname then m.(state := Unconfigured) else m;
    kept.(hostname := hostname, email := email, source := source, providedCert := cert, providedKey := key,
          mode := if source.LetsEncrypt? then mode else ManualMode)
  }

  lemma ConfiguredOk(m: Metadata, c: Check, source: Source, hostname: string, email: string, mode: Mode, cert: string,
                     key: string)
    requires RecordOk(m, c)
    ensures var next := Configured(m, source, hostname, email, mode, cert, key);
            && RecordOk(next, c) && EdgeOk(SettingsService, m, next)
            && next.hostname == hostname && next.source == source
            && next.active == m.active && next.cert == m.cert && next.key == m.key
            && (next.state.Active? ==> m.state.Active? && m.hostname == hostname && EffectiveSource(m) == source)
  {
  }

  class TlsSettings {
    const manager: CertManager
    const defaultMode: Mode

    constructor (manager: CertManager, defaultMode: Mode)
      ensures this.manager == manager && this.defaultMode == if defaultMode.Staging? then Staging else Production
    {
      this.manager := manager;
      this.defaultMode := if defaultMode.Staging? then Staging else Production;
    }

    function View(m: Option<Metadata>): Metadata {
      if m.None? then NoRecord.(mode := defaultMode) else m.value
    }

    method Write(m: Metadata, saveFails: bool, hostFails: bool) returns (s: Status)
      requires manager.Valid() && RecordOk(m, LastCheck(manager.repo.log))
      requires EdgeOk(SettingsService, Last(manager.repo.log), m)
      modifies manager.repo
      ensures manager.Valid()
      ensures Joint(old(manager.View())) && SamePublication(old(manager.repo.db).meta, m) ==> Joint(manager.View())
      ensures s.Done? ==> manager.repo.db == old(manager.repo.db).(meta := Some(m), hostname := m.hostname)
      ensures s.Done? <==> !saveFails && !hostFails
      ensures saveFails ==> s.Failed? && manager.repo.db == old(manager.repo.db)
    {
      if Joint(manager.View()) && SamePublication(manager.repo.db.meta, m) {
        JointKeepsMeta(manager.View(), m);
      }
      s := manager.repo.SaveTLSMetadata(m, saveFails, SettingsService, LastCheck(manager.repo.log));
      assert !saveFails ==> manager.repo.log[..|manager.repo.log| - 1] == old(manager.repo.log);
      if s.Done? {
        s := manager.repo.SetHostname(m.hostname, hostFails);
      }
    }

    /**
     Saving settings keeps the published pair in place; the state stays, or is reset when the pair no
     longer answers for the settings.
     */
    method SaveConfiguration(source: Source, hostname: string, email: string, mode: Mode, cert: string, key: string,
                             settingsOk: bool, loadFails: bool, saveFails: bool, hostFails: bool)
      returns (r: Result<Metadata>)
      requires manager.Valid() && !source.Unset?
      modifies manager.repo
      ensures manager.Valid()
      ensures Joint(old(manager.View())) ==> Joint(manager.View())
      ensures r.Ok? ==>
                && manager.repo.db.meta == Some(r.value) && r.value.hostname == hostname && r.value.source == source
                && r.value.active == ActiveRevision(old(manager.repo.db).meta)
                && (r.value.state.Active? ==>
                      && Record(old(manager.repo.db).meta).state.Active?
                      && Record(old(manager.repo.db).meta).hostname == hostname
                      && EffectiveSource(Record(old(manager.repo.db).meta)) == source)
      ensures r.Ok? ==> var was, m := Record(old(manager.repo.db).meta), r.value;
                        && manager.repo.db.hostname == hostname
                        && m.email == email && m.providedCert == cert && m.providedKey == key
                        && m.mode == (if source.LetsEncrypt? then mode else ManualMode)
                        && m.cert == was.cert && m.key == was.key
                        && m.state ==
                           if (was.hostname == hostname && EffectiveSource(was) == source &&
                               was.providedCert == cert && was.providedKey == key) then was.state else Unconfigured
      ensures r.Ok? <==>
                && settingsOk && !loadFails && !saveFails && !hostFails
                && !(source.LetsEncrypt? && mode.ManualMode?)
                && !Record(old(manager.repo.db).meta).state.Issuing?
                && !Record(old(manager.repo.db).meta).state.Renewing?
      ensures r.Err? && !hostFails ==> manager.repo.db == old(manager.repo.db)
    {
      if !settingsOk || (source.LetsEncrypt? && mode.ManualMode?) || loadFails {
        return Err;
      }
      var current := View(manager.repo.db.meta);
      if current.state.Issuing? || current.state.Renewing? {
        return Err;
      }
      var next := Configured(current, source, hostname, email, mode, cert, key);
      ConfiguredOk(current, LastCheck(manager.repo.log), source, hostname, email, mode, cert, key);
      var s := Write(next, saveFails, hostFails);
      r := if s.Done? then Ok(next) else Err;
    }

    /** The startup settings, accepted only by an installation without a host name and a certificate. */
    method ConfigureInitial(source: Source, hostname: string, email: string, cert: string, key: string,
                            settingsOk: bool, loadFails: bool, saveFails: bool, hostFails: bool)
      returns (r: Result<Metadata>)
      requires manager.Valid() && !source.Unset?
      modifies manager.repo
      ensures manager.Valid()
      ensures Joint(old(manager.View())) ==> Joint(manager.View())
      ensures r.Ok? ==> && Record(old(manager.repo.db).meta).hostname == ""
                        && ActiveRevision(old(manager.repo.db).meta).None?
                        && !r.value.state.Active? && manager.repo.db.meta == Some(r.value)
                        && manager.repo.db.hostname == hostname
                        && r.value.hostname == hostname && r.value.email == email && r.value.source == source
                        && r.value.providedCert == cert && r.value.providedKey == key
                        && (!source.LetsEncrypt? ==> r.value.mode.ManualMode?)
      ensures r.Ok? <==>
                && settingsOk && !loadFails && !saveFails && !hostFails
                && Record(old(manager.repo.db).meta).hostname == ""
                && ActiveRevision(old(manager.repo.db).meta).None?
      ensures r.Err? && !hostFails ==> manager.repo.db == old(manager.repo.db)
    {
      if !settingsOk || loadFails {
        return Err;
      }
      var current := View(manager.repo.db.meta);
      if current.hostname != "" || current.active.Some? {
        return Err;
      }
      current := current.(source := source, hostname := hostname, email := email,
                          providedCert := cert, providedKey := key,
                          mode := if source.LetsEncrypt? then current.mode else ManualMode);
      var s := Write(current, saveFails, hostFails);
      r := if s.Done? then Ok(current) else Err;
    }
  }

  function Repaired(m: Metadata): Metadata {
    if m.state.Issuing? || m.state.Renewing? then m.(state := Degraded) else m
  }

  /** Marking an interrupted operation changes neither settings nor pair, nor whether the pair is due. */
  lemma RepairKeeps(m: Metadata)
    ensures Held(m, Repaired(m)) && Held(Repaired(m), m)
    ensures forall lead, now :: OutsideLead(Repaired(m), lead, now) <==> OutsideLead(m, lead, now)
    ensures forall lead, now :: OutsideOwnLead(Repaired(m), lead, now) <==> OutsideOwnLead(m, lead, now)
  {
  }

  /** The renewal lead: 30 days unless configured, never more than a third of the lifetime. */
  function AcmeLead(lead: int, b: Bundle): int {
    var wanted := if lead <= 0 then 30 * Day else lead;
    var third := (b.notAfter - b.notBefore) / 3;
    if wanted > third then third else wanted
  }

  /**
   A usable pair is left alone as long as more than a third of its lifetime is left, or more than the
   configured lead, 30 days if none is.
   */
  lemma LeadExact(m: Metadata, lead: int, now: int)
    ensures OutsideLead(m, lead, now) <==>
            && !m.state.Unconfigured? && m.active.Some?
            && Validated(m.active.value, m.hostname, m.mode, now)
            && var b := m.active.value;
               || 3 * (b.notAfter - now) > b.notAfter - b.notBefore
               || b.notAfter - now > if lead <= 0 then 2_592_000_000_000_000 else lead
  {
  }

  /** The recorded pair is in use, valid, and not yet due for renewal. */
  predicate OutsideLead(m: Metadata, lead: int, now: int) {
    && !m.state.Unconfigured? && m.active.Some?
    && Validated(m.active.value, m.hostname, m.mode, now)
    && now < m.active.value.notAfter - AcmeLead(lead, m.active.value)
  }

  function Record(m: Option<Metadata>): Metadata {
    if m.None? then NoRecord else m.value
  }

  /** The record is Active on this pair, which is valid for the host at that time. */
  ghost predicate Serves(m: Metadata, b: Option<Bundle>, hostname: string, mode: Mode, now: int) {
    && m.state.Active? && b.Some? && m.active == b && m.hostname == hostname
    && hostname in b.value.hosts && b.value.notBefore <= now < b.value.notAfter
    && b.value.chained && b.value.paired && !(mode.Production? && b.value.staging)
  }
}
