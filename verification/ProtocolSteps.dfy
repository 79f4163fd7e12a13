/**
 The objects take the steps of the protocol: each method here makes one call on the real objects and
 gives the label of the step that call was, between the state before and the state after it.
 */
module ProtocolSteps {
  import opened Certificates
  import opened Config
  import opened Coordinator
  import opened Database
  import opened Domain
  import opened Endpoint
  import opened Protocol
  import opened Stores
  import opened TlsState
  import opened UserChanges
  import opened Wrappers

  /** Nothing was cleared. */
  predicate SameOk(s: Sys, s': Sys) {
    s'.tlsOk == s.tlsOk && s'.configOk == s.configOk
  }

  method PublishStep(c: TlsCoordinator, b: Bundle, now: int, f: Faults, ghost s: Sys)
    returns (r: Result<Bundle>, ghost l: Label, ghost s': Sys)
    requires c.Valid() && s.w == c.View() && s.cert.Publishing?
    modifies c, c.repo, c.tls, c.configs, c.process
    ensures c.Valid() && s'.w == c.View() && Takes(s, l, s') && c.repo.log == old(c.repo.log)
    ensures if r.Ok? then l == PublishSucceeds(b) else l.PublishFails?
    ensures Aligned(s.w) && f.restore == NoRestoreFaults && SyncRoot !in f.tls ==> SameOk(s, s')
  {
    r := c.Publish(b, now, f);
    if r.Ok? {
      l, s' := PublishSucceeds(b), s.(w := c.View(), cert := Confirming(s.w, b));
    } else {
      ghost var restored := Undone(s.w, c.View());
      l := PublishFails(restored);
      s' := s.(w := c.View(), cert := Degrading, tlsOk := s.tlsOk && restored, configOk := s.configOk && restored);
    }
  }

  method ConfirmStep(m: CertManager, next: Metadata, ghost check: Check, fails: bool, ghost s: Sys)
    returns (r: Status, ghost l: Label, ghost s': Sys)
    requires m.Valid() && s.w == m.View() && s.cert.Confirming? && next.active == Some(s.cert.bundle)
    requires RecordOk(next, check) && CheckOk(Entry(Manager, next, check)) && EdgeOk(Manager, Last(m.repo.log), next)
    modifies m.repo
    ensures m.Valid() && s'.w == m.View() && Takes(s, l, s')
    ensures r.Done? <==> !fails
    ensures if r.Done? then l == SaveConfirms(next) else l == SaveFails && m.repo.log == old(m.repo.log)
    ensures SameOk(s, s')
  {
    r := m.Save(next, check, fails);
    if r.Done? {
      l, s' := SaveConfirms(next), s.(w := WithMeta(s.w, next), cert := Protocol.Confirmed);
    } else {
      l, s' := SaveFails, s.(cert := Reverting(s.cert.before, s.cert.bundle));
    }
  }

  method CompleteStep(c: TlsCoordinator, ghost s: Sys) returns (ghost l: Label, ghost s': Sys)
    requires c.Valid() && s.w == c.View() && s.cert.Confirmed?
    modifies c, c.admin
    ensures c.Valid() && s'.w == c.View() && l == Complete && Takes(s, l, s') && s'.tlsOk && s'.configOk
  {
    c.CompletePublished();
    l, s' := Complete, s.(w := Completed(s.w), lock := Free, cert := CertIdle, tlsOk := true, configOk := true);
  }

  method RevertStep(c: TlsCoordinator, f: RestoreFaults, again: ProcessFaults, ghost s: Sys)
    returns (ghost l: Label, ghost s': Sys)
    requires c.Valid() && s.w == c.View() && s.cert.Reverting? && c.pending.Some?
    modifies c, c.repo, c.tls, c.configs, c.process
    ensures c.Valid() && s'.w == c.View() && l.Revert? && Takes(s, l, s') && c.repo.log == old(c.repo.log)
    ensures f == NoRestoreFaults && Known(s.w, s.w.pending.value.oldConfig, s.w.pending.value.oldTls) ==> SameOk(s, s')
  {
    var _ := c.RevertLast(f, again);
    ghost var restored := Reverted(s.w, c.View(), s.w.pending.value);
    l := Revert(restored);
    s' := s.(w := c.View(), cert := Degrading, tlsOk := s.tlsOk && restored, configOk := s.configOk && restored);
  }

  method DegradeStep(m: CertManager, record: Metadata, e: Env, ghost s: Sys) returns (ghost l: Label, ghost s': Sys)
    requires m.Valid() && s.w == m.View() && s.cert.Degrading?
    requires PathsMatch(Some(record)) && EdgeOk(Manager, Last(m.repo.log), Failing(record))
    requires SamePublication(m.repo.db.meta, record)
    modifies m.repo
    ensures m.Valid() && s'.w == m.View() && l.Degrade? && Takes(s, l, s') && SameOk(s, s')
  {
    m.Fail(record, e);
    ghost var saved := if e.failSave then None else Some(Failing(record));
    l, s' := Degrade(saved), s.(w := m.View(), lock := Free, cert := CertIdle);
  }

  method ApplyStep(a: ApplyManager, action: Action, f: ApplyFaults, ghost s: Sys)
    returns (r: Result<Files>, ghost reached: bool, ghost l: Label, ghost s': Sys)
    requires a.Valid() && s.w.db == a.repo.db && s.w.cfg == a.files.disk && s.user.Written? && SyncRoot !in f.files
    modifies a.repo, a.files, a.process
    ensures a.Valid() && s'.w == s.w.(db := a.repo.db, cfg := a.files.disk) && Takes(s, l, s')
    ensures if r.Ok? then l.ApplySucceeds? && s'.configOk else l.ApplyFails?
    ensures r.Ok? && action.Restart? ==> a.process.child == Started(a.repo.db.revision)
    ensures r.Err? && SwapWorks(f.rollback) && !f.restoreRevision ==>
              (l == ApplyFails(true) <==> !reached || UndoExact(s.w.cfg, Wanted(s.w.db)))
  {
    r, reached := a.ApplyCurrentLocked(action, f);
    ghost var w := s.w.(db := a.repo.db, cfg := a.files.disk);
    if r.Ok? {
      l, s' := ApplySucceeds, s.(w := w, lock := Free, user := UserIdle, configOk := true);
    } else {
      ghost var exact := Exact(s.w.db, s.w.cfg, w.db, w.cfg);
      l, s' := ApplyFails(exact), s.(w := w, user := Restoring(s.user.before), configOk := s.configOk && exact);
    }
  }

  method RowStep(repo: Store, id: nat, c: Change, ghost s: Sys) returns (r: Status, ghost l: Label, ghost s': Sys)
    requires repo.Valid() && s.w.db == repo.db && s.user.Entered? && id in repo.db.users
    requires Changed(repo.db.users[id], c).Some?
    modifies repo
    ensures repo.Valid() && s'.w == s.w.(db := repo.db) && r.Done? && l == ChangeRow(id, c) && Takes(s, l, s')
    ensures SameOk(s, s')
  {
    OwnNameFree(repo.db.users, id);
    r := repo.UpdateUser(id, Changed(repo.db.users[id], c).value, false);
    l, s' := ChangeRow(id, c), s.(w := s.w.(db := repo.db), user := Written(s.w.db.users));
  }

  lemma OneMoreStep(states: seq<Sys>, labels: seq<Label>, l: Label, s': Sys)
    requires Run(states, labels) && Takes(states[|labels|], l, s')
    ensures Run(states + [s'], labels + [l])
  {
  }

  /** The revisions a pending publication would restore exist. */
  ghost predicate Revertible(w: World) {
    w.pending.Some? && Known(w, w.pending.value.oldConfig, w.pending.value.oldTls)
  }

  /** Rest after an unconfirmed publication: the record is taken back with everything else. */
  method RevertRun(m: CertManager, base: Metadata, e: Env, ghost states: seq<Sys>, ghost labels: seq<Label>)
    returns (ghost states': seq<Sys>, ghost labels': seq<Label>)
    requires m.Valid() && Run(states, labels) && states[|labels|].w == m.View() && states[|labels|].cert.Reverting?
    requires m.publisher.pending.Some? && PathsMatch(Some(base)) && SamePublication(m.repo.db.meta, base)
    requires EdgeOk(Manager, Last(m.repo.log), Failing(base))
    modifies m.repo, m.publisher, m.publisher.tls, m.publisher.configs, m.publisher.process
    ensures m.Valid() && Run(states', labels') && states'[0] == states[0] && states'[|labels'|].w == m.View()
    ensures states'[|labels'|].lock.Free? && states'[|labels'|].cert.CertIdle?
    ensures e.revert == NoRestoreFaults && Revertible(states[|labels|].w) ==>
              SameOk(states[|labels|], states'[|labels'|])
  {
    ghost var l, s1;
    l, s1 := RevertStep(m.publisher, e.revert, e.again, states[|labels|]);
    OneMoreStep(states, labels, l, s1);
    states', labels' := DegradeRun(m, base, e, states + [s1], labels + [l]);
  }

  /** Rest after a publication: the record, then the pair is shown or all is taken back. */
  method ConfirmRun(m: CertManager, base: Metadata, done: Metadata, ghost check: Check, e: Env,
                    ghost states: seq<Sys>, ghost labels: seq<Label>)
    returns (ghost states': seq<Sys>, ghost labels': seq<Label>)
    requires m.Valid() && Run(states, labels) && states[|labels|].w == m.View() && states[|labels|].cert.Confirming?
    requires m.publisher.pending.Some? && done.active == Some(states[|labels|].cert.bundle)
    requires RecordOk(done, check) && CheckOk(Entry(Manager, done, check)) && EdgeOk(Manager, Last(m.repo.log), done)
    requires PathsMatch(Some(base)) && SamePublication(m.repo.db.meta, base)
    requires EdgeOk(Manager, Last(m.repo.log), Failing(base))
    modifies m.repo, m.publisher, m.publisher.tls, m.publisher.configs, m.publisher.admin, m.publisher.process
    ensures m.Valid() && Run(states', labels') && states'[0] == states[0] && states'[|labels'|].w == m.View()
    ensures states'[|labels'|].lock.Free? && states'[|labels'|].cert.CertIdle?
    ensures e.confirmSave && e.revert == NoRestoreFaults && Revertible(states[|labels|].w) ==>
              SameOk(states[|labels|], states'[|labels'|])
    ensures !e.confirmSave ==>
              && labels' == labels + [SaveConfirms(done)] + [Complete] && m.repo.db.meta == Some(done)
              && states'[|labels'|].tlsOk && states'[|labels'|].configOk
  {
    ghost var l, s1, l2, s2;
    var saved;
    saved, l, s1 := ConfirmStep(m, done, check, e.confirmSave, states[|labels|]);
    OneMoreStep(states, labels, l, s1);
    if saved.Done? {
      l2, s2 := CompleteStep(m.publisher, s1);
      OneMoreStep(states + [s1], labels + [l], l2, s2);
      return states + [s1] + [s2], labels + [l] + [l2];
    }
    states', labels' := RevertRun(m, base, e, states + [s1], labels + [l]);
  }

  /** First the publication. */
  method PublishRun(m: CertManager, b: Bundle, e: Env, ghost s: Sys)
    returns (r: Result<Bundle>, ghost states: seq<Sys>, ghost labels: seq<Label>)
    requires m.Valid() && s.w == m.View() && s.cert.Publishing?
    modifies m.publisher, m.repo, m.publisher.tls, m.publisher.configs, m.publisher.process
    ensures m.Valid() && m.repo.log == old(m.repo.log) && m.repo.db.meta == old(m.repo.db).meta
    ensures Run(states, labels) && states[0] == s && states[|labels|].w == m.View()
    ensures r.Ok? ==>
              states[|labels|].cert == Confirming(s.w, b) && Published(s.w, m.View(), b) && SameOk(s, states[|labels|])
    ensures r.Err? ==> states[|labels|].cert.Degrading?
    ensures Joint(s.w) && Revertable(e) ==> SameOk(s, states[|labels|])
    ensures Joint(s.w) && r.Ok? ==> Revertible(m.View())
  {
    ghost var l, s1;
    r, l, s1 := PublishStep(m.publisher, b, e.later, e.publish, s);
    OneMoreStep([s], [], l, s1);
    assert [] + [l] == [l];
    states, labels := [s] + [s1], [l];
    if Joint(s.w) {
      JointIsAligned(s.w);
      if r.Ok? {
        RevertUndoesPublish(s.w, s1.w, b, s1.w);
      }
    }
  }

  /** Last, after a failure, the degraded record. */
  method DegradeRun(m: CertManager, record: Metadata, e: Env, ghost states: seq<Sys>, ghost labels: seq<Label>)
    returns (ghost states': seq<Sys>, ghost labels': seq<Label>)
    requires m.Valid() && Run(states, labels) && states[|labels|].w == m.View() && states[|labels|].cert.Degrading?
    requires PathsMatch(Some(record)) && SamePublication(m.repo.db.meta, record)
    requires EdgeOk(Manager, Last(m.repo.log), Failing(record))
    modifies m.repo
    ensures m.Valid() && Run(states', labels') && states'[0] == states[0] && states'[|labels'|].w == m.View()
    ensures states'[|labels'|].lock.Free? && states'[|labels'|].cert.CertIdle?
    ensures SameOk(states[|labels|], states'[|labels'|])
  {
    ghost var l, s';
    l, s' := DegradeStep(m, record, e, states[|labels|]);
    OneMoreStep(states, labels, l, s');
    return states + [s'], labels + [l];
  }

  /** The run of `CertManager.Finish`, call by call: publish, then record or revert, then show or degrade. */
  method FinishRun(m: CertManager, base: Metadata, next: Metadata, b: Bundle, mode: Mode, e: Env, ghost s: Sys)
    returns (ghost states: seq<Sys>, ghost labels: seq<Label>)
    requires m.Valid() && m.InProgress(base, next) && s.w == m.View() && s.cert.Publishing?
    requires Validated(b, next.hostname, mode, e.later) && mode == CheckMode(next)
    modifies m.repo, m.publisher, m.publisher.tls, m.publisher.configs, m.publisher.admin, m.publisher.process
    ensures m.Valid() && Run(states, labels) && states[0] == s && states[|labels|].w == m.View()
    ensures states[|labels|].lock.Free? && states[|labels|].cert.CertIdle?
    ensures Joint(s.w) && Revertable(e) && s.tlsOk && s.configOk ==> states[|labels|].tlsOk && states[|labels|].configOk
  {
    var r;
    r, states, labels := PublishRun(m, b, e, s);
    if r.Err? {
      states, labels := DegradeRun(m, next, e, states, labels);
    } else {
      states, labels := ConfirmRun(m, base, Activated(next, b, base.active), Check(mode, e.later), e, states, labels);
    }
  }

  /** Putting the changed row back. */
  method RestoreStep(repo: Store, id: nat, row: User, fails: bool, ghost s: Sys) returns (ghost l: Label, ghost s': Sys)
    requires repo.Valid() && s.w.db == repo.db && s.user.Restoring? && id in repo.db.users
    requires id in s.user.before && s.user.before[id] == row && row.username == repo.db.users[id].username
    requires repo.db.users == s.user.before[id := repo.db.users[id]]
    modifies repo
    ensures repo.Valid() && s'.w == s.w.(db := repo.db) && Takes(s, l, s') && l == RestoreRows(!fails)
  {
    OwnNameFree(repo.db.users, id);
    var _ := repo.UpdateUser(id, row, fails);
    assert !fails ==> repo.db.users == s.user.before;
    l := RestoreRows(!fails);
    s' := s.(w := s.w.(db := repo.db), lock := Free, user := UserIdle, configOk := s.configOk && !fails);
  }

  /** The two stores a user operation works on, as the protocol sees them. */
  ghost predicate Mirrors(u: UserManager, w: World)
    reads u.repo, u.apply.files
  {
    w.db == u.repo.db && w.cfg == u.apply.files.disk
  }

  /** What follows the changed row: the apply, and the old row after a failure. */
  method ApplyRun(u: UserManager, id: nat, row: User, f: UserFaults, ghost states: seq<Sys>, ghost labels: seq<Label>)
    returns (r: Result<Files>, ghost states': seq<Sys>, ghost labels': seq<Label>)
    requires u.Valid() && Run(states, labels) && Mirrors(u, states[|labels|].w) && states[|labels|].user.Written?
    requires id in u.repo.db.users && SyncRoot !in f.apply.files
    requires var before := states[|labels|].user.before;
             id in before && before[id] == row && row.username == u.repo.db.users[id].username &&
             u.repo.db.users == before[id := u.repo.db.users[id]]
    modifies u.repo, u.apply.files, u.apply.process
    ensures u.Valid() && Run(states', labels') && states'[0] == states[0] && Mirrors(u, states'[|labels'|].w)
    ensures states'[|labels'|].lock.Free? && states'[|labels'|].user.UserIdle?
    ensures r.Ok? ==> labels' == labels + [ApplySucceeds] && u.apply.process.child == Started(u.repo.db.revision)
    ensures r.Err? ==> labels <= labels' && ApplySucceeds !in labels'[|labels|..]
    ensures r.Ok? ==> states'[|labels'|].configOk
    ensures SwapWorks(f.apply.rollback) && !f.apply.restoreRevision && !f.restoreRow && states[|labels|].configOk ==>
              r.Ok? || !UndoExact(states[|labels|].w.cfg, Wanted(states[|labels|].w.db)) || states'[|labels'|].configOk
  {
    ghost var reached, l, s1, l2, s2;
    r, reached, l, s1 := ApplyStep(u.apply, Restart, f.apply, states[|labels|]);
    OneMoreStep(states, labels, l, s1);
    if r.Ok? {
      return r, states + [s1], labels + [l];
    }
    l2, s2 := RestoreStep(u.repo, id, row, f.restoreRow, s1);
    OneMoreStep(states + [s1], labels + [l], l2, s2);
    return r, states + [s1] + [s2], labels + [l] + [l2];
  }

  function Entering(s: Sys): Sys {
    s.(lock := ByUsers, user := Entered)
  }

  lemma EntersRun(s: Sys)
    requires s.lock.Free? && s.user.UserIdle?
    ensures Run([s] + [Entering(s)], [EnterUsers]) && Run([s] + [Entering(s)] + [s], [EnterUsers] + [LeaveUsers])
  {
    OneMoreStep([s], [], EnterUsers, Entering(s));
    assert [] + [EnterUsers] == [EnterUsers];
    assert Takes(Entering(s), LeaveUsers, s);
    OneMoreStep([s] + [Entering(s)], [EnterUsers], LeaveUsers, s);
  }

  /** The changed row is written. */
  method ChangeRun(u: UserManager, id: nat, c: Change, ghost states: seq<Sys>, ghost labels: seq<Label>)
    returns (ghost states': seq<Sys>, ghost labels': seq<Label>)
    requires u.Valid() && Run(states, labels) && Mirrors(u, states[|labels|].w) && states[|labels|].user.Entered?
    requires id in u.repo.db.users && Changed(u.repo.db.users[id], c).Some?
    modifies u.repo
    ensures u.Valid() && Run(states', labels') && states'[0] == states[0] && Mirrors(u, states'[|labels'|].w)
    ensures labels' == labels + [ChangeRow(id, c)]
    ensures states'[|labels'|].user == Written(old(u.repo.db).users)
    ensures id in u.repo.db.users && u.repo.db.users == old(u.repo.db).users[id := u.repo.db.users[id]]
    ensures u.repo.db.users[id].username == old(u.repo.db).users[id].username
  {
    ghost var l, s';
    var written;
    written, l, s' := RowStep(u.repo, id, c, states[|labels|]);
    OneMoreStep(states, labels, l, s');
    return states + [s'], labels + [l];
  }

  /** The run of `UserManager.Mutate`, call by call. */
  method MutateRun(u: UserManager, id: nat, c: Change, f: UserFaults, ghost s: Sys)
    returns (r: Status, ghost states: seq<Sys>, ghost labels: seq<Label>)
    requires u.Valid() && Mirrors(u, s.w) && s.lock.Free? && s.user.UserIdle? && SyncRoot !in f.apply.files
    modifies u.repo, u.apply.files, u.apply.process
    ensures u.Valid() && Run(states, labels) && states[0] == s && Mirrors(u, states[|labels|].w)
    ensures states[|labels|].lock.Free? && states[|labels|].user.UserIdle?
    ensures r.Done? ==> states[|labels|].configOk && u.apply.process.child == Started(u.repo.db.revision)
    ensures r.Done? ==> labels == [EnterUsers, ChangeRow(id, c), ApplySucceeds]
    ensures r.Failed? ==> ApplySucceeds !in labels
  {
    EntersRun(s);
    if f.read || id !in u.repo.db.users || f.entropy || f.write || Changed(u.repo.db.users[id], c).None? {
      return Failed, [s] + [Entering(s)] + [s], [EnterUsers] + [LeaveUsers];
    }
    var row := u.repo.db.users[id];
    states, labels := ChangeRun(u, id, c, [s] + [Entering(s)], [EnterUsers]);
    var applied;
    applied, states, labels := ApplyRun(u, id, row, f, states, labels);
    r := if applied.Ok? then Done else Failed;
  }
}
