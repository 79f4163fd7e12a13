/**
 The two revision stores on disk: internal/config/materializer.go and internal/certificate/tls_store.go.

 A store keeps every disk state it ever produced, one per file system call, in `trace`; a crash
 leaves the disk in one of those states. The parameter `broken` names the calls that fail. Rename
 and symlink replacement are atomic.
 */
module Stores {
  import opened Config
  import opened Domain
  import opened Wrappers

  /** Revision directories by the revision they are named after, and the two symlinks. */
  datatype Disk<Id, Name, File> = Disk(revisions: map<Id, map<Name, File>>, stage: map<Name, File>,
                                 current: Option<Id>, previous: Option<Id>)

  datatype Call =
    | MakeStage | WriteConfig(name: FileName) | WritePem(file: PemFile) | SyncStage | ValidateStage
    | BeforeRename | Rename | SyncRevisions
    | LinkPrevious | LinkCurrent | RemoveCurrent | RemovePrevious | SyncRoot

  ghost predicate Extends<K, V>(a: map<K, V>, b: map<K, V>) {
    forall k | k in a :: k in b && b[k] == a[k]
  }

  // ----- What the pointer operations do

  /** A successful Apply or Publish of revision `id`. */
  ghost predicate Applied<Id, Name, File>(d: Disk<Id, Name, File>, d': Disk<Id, Name, File>, id: Id) {
    && d'.current == Some(id)
    && d'.previous == (if d.current == Some(id) || d.current.None? then d.previous else d.current)
    && id in d'.revisions && d.revisions.Keys <= d'.revisions.Keys
  }

  ghost predicate Swapped<Id, Name, File>(d: Disk<Id, Name, File>, d': Disk<Id, Name, File>) {
    d' == d.(current := d.previous, previous := d.current) && d.current.Some? && d.previous.Some?
  }

  ghost predicate Restored<Id, Name, File>(d: Disk<Id, Name, File>, d': Disk<Id, Name, File>, id: Option<Id>) {
    && d' == d.(current := id, previous := if id.None? then None else d.previous)
    && (id.Some? ==> id.value in d.revisions)
  }

  /** Only the revisions and the staging area differ, and no revision was lost. */
  ghost predicate Grown<Id, Name, File>(d: Disk<Id, Name, File>, d': Disk<Id, Name, File>) {
    d' == d.(revisions := d'.revisions, stage := d'.stage) && d.revisions.Keys <= d'.revisions.Keys
  }

  /** `current` untouched, nothing lost. */
  ghost predicate Kept<Id, Name, File>(d: Disk<Id, Name, File>, d': Disk<Id, Name, File>) {
    d'.current == d.current && d.revisions.Keys <= d'.revisions.Keys && (d.current.None? ==> d'.previous == d.previous)
  }

  /** Moving `current` from one revision to another works; nothing is called when they are the same. */
  predicate Moves<Id(==)>(from: Option<Id>, to: Option<Id>, broken: set<Call>) {
    from == to || ((from.Some? ==> LinkPrevious !in broken) && LinkCurrent !in broken && SyncRoot !in broken)
  }

  /** No call of a restore fails. */
  predicate RestoreWorks<Id>(to: Option<Id>, broken: set<Call>) {
    SyncRoot !in broken && if to.None? then RemoveCurrent !in broken && RemovePrevious !in broken
                           else LinkCurrent !in broken
  }

  /** No call of a rollback fails. */
  predicate SwapWorks(broken: set<Call>) {
    LinkCurrent !in broken && LinkPrevious !in broken && SyncRoot !in broken
  }

  /**
   A rollback undoes an apply exactly when the apply moved the pointer, or there was nothing to tell
   current and previous apart.
   */
  lemma RollbackUndoes<Id, Name, File>(d: Disk<Id, Name, File>, d1: Disk<Id, Name, File>, d2: Disk<Id, Name, File>,
                                       id: Id)
    requires Applied(d, d1, id) && Swapped(d1, d2) && d.current.Some?
    ensures d2.current == d.current <==> d.current != Some(id) || d.previous == d.current
  {
  }

  lemma RollbacksCancel<Id, Name, File>(d: Disk<Id, Name, File>, d1: Disk<Id, Name, File>, d2: Disk<Id, Name, File>)
    requires Swapped(d, d1) && Swapped(d1, d2)
    ensures d2 == d
  {
  }

  // ----- Histories of a store

  /** Every revision is `whole` - complete and checked - and both pointers name existing revisions. */
  ghost predicate Sound<Id(!new), Name(!new), File(!new)>(
    d: Disk<Id, Name, File>, whole: (Id, map<Name, File>) -> bool) {
    && (forall id | id in d.revisions :: whole(id, d.revisions[id]))
    && (d.current.Some? ==> d.current.value in d.revisions)
    && (d.previous.Some? ==> d.previous.value in d.revisions)
  }

  /** Every state was sound, and each step only added to the revisions. */
  ghost predicate Safe<Id(!new), Name(!new), File(!new)>(
    states: seq<Disk<Id, Name, File>>, whole: (Id, map<Name, File>) -> bool) {
    states == [] ||
    var init := states[..|states| - 1];
    var last := states[|states| - 1];
    && Safe(init, whole) && Sound(last, whole)
    && (init != [] ==> Extends(init[|init| - 1].revisions, last.revisions))
  }

  /**
   At every crash point the disk is sound - `current` is absent or names a complete, checked revision -
   and a revision that exists is never modified or removed.
   */
  lemma {:induction false} CrashSafe<Id(!new), Name(!new), File(!new)>(
    states: seq<Disk<Id, Name, File>>, whole: (Id, map<Name, File>) -> bool, i: nat, j: nat)
    requires Safe(states, whole) && i <= j < |states|
    ensures Sound(states[i], whole) && Extends(states[i].revisions, states[j].revisions)
    decreases |states|
  {
    var init := states[..|states| - 1];
    if j < |init| {
      CrashSafe(init, whole, i, j);
    } else if i < |init| {
      CrashSafe(init, whole, i, |init| - 1);
    }
  }

  /** Configuration revisions; a revision is named by the digest of its files, taken as injective. */
  class Materializer {
    const validate: Files -> bool
    var disk: Disk<Files, FileName, Content>
    ghost var trace: seq<Disk<Files, FileName, Content>>

    /** The files a revision is named after, accepted by the validator. */
    function Whole(): (Files, map<FileName, Content>) -> bool {
      (id, files) => files == id && validate(id)
    }

    ghost predicate Valid()
      reads this
    {
      trace != [] && trace[|trace| - 1] == disk && Safe(trace, Whole())
    }

    constructor (validate: Files -> bool)
      ensures Valid() && disk == Disk(map[], map[], None, None) && this.validate == validate
    {
      this.validate := validate;
      disk := Disk(map[], map[], None, None);
      trace := [Disk(map[], map[], None, None)];
    }

    /** One file system call took effect. */
    method Record(d: Disk<Files, FileName, Content>)
      requires Valid() && Sound(d, Whole()) && Extends(disk.revisions, d.revisions)
      modifies this
      ensures Valid() && disk == d && trace == old(trace) + [d]
    {
      disk := d;
      trace := trace + [d];
      assert trace[..|trace| - 1] == old(trace);
    }

    predicate Staged(files: Files, broken: set<Call>) {
      && MakeStage !in broken && SyncStage !in broken
      && forall name | name in files :: WriteConfig(name) !in broken
    }

    /** A revision that does not exist yet can be made. */
    predicate Creates(files: Files, broken: set<Call>) {
      && Staged(files, broken) && validate(files)
      && ValidateStage !in broken && BeforeRename !in broken && Rename !in broken && SyncRevisions !in broken
    }

    /** The revision exists or can be made, and the pointers can be moved to it. */
    predicate Takes(d: Disk<Files, FileName, Content>, files: Files, broken: set<Call>) {
      (files in d.revisions || Creates(files, broken)) && Moves(d.current, Some(files), broken)
    }

    method Stage(files: Files, broken: set<Call>) returns (s: Status)
      requires Valid()
      modifies this
      ensures Valid() && old(trace) <= trace
      ensures disk.(stage := old(disk).stage) == old(disk)
      ensures s.Done? ==> disk.stage == files
      ensures s.Done? <==> Staged(files, broken)
    {
      if MakeStage in broken {
        return Failed;
      }
      Record(disk.(stage := map[]));
      var left := files.Keys;
      while left != {}
        invariant Valid() && old(trace) <= trace && left <= files.Keys
        invariant disk.(stage := old(disk).stage) == old(disk)
        invariant forall name | name in files && name !in left :: WriteConfig(name) !in broken
        invariant disk.stage == map name | name in files && name !in left :: files[name]
        decreases left
      {
        var name :| name in left;
        if WriteConfig(name) in broken {
          return Failed;
        }
        Record(disk.(stage := disk.stage[name := files[name]]));
        left := left - {name};
      }
      s := if SyncStage in broken then Failed else Done;
    }

    /** Makes the revision directory exist, unless it does. */
    method Ensure(files: Files, broken: set<Call>) returns (s: Status)
      requires Valid() && files != map[]
      modifies this
      ensures Valid() && old(trace) <= trace && Grown(old(disk), disk)
      ensures s.Done? ==> files in disk.revisions
      ensures s.Done? <==> files in old(disk).revisions || Creates(files, broken)
      ensures s.Failed? && MakeStage !in broken ==> files in disk.revisions || disk.stage == map[]
    {
      if files in disk.revisions {
        return Done;
      }
      var staged := Stage(files, broken);
      if staged.Failed? || ValidateStage in broken || !validate(disk.stage) || BeforeRename in broken ||
         Rename in broken
      {
        if MakeStage !in broken {
          Record(disk.(stage := map[]));
        }
        return Failed;
      }
      Record(disk.(revisions := disk.revisions[files := disk.stage], stage := map[]));
      s := if SyncRevisions in broken then Failed else Done;
    }

    method Apply(files: Files, broken: set<Call>) returns (r: Result<Files>)
      requires Valid()
      modifies this
      ensures Valid() && old(trace) <= trace && old(disk).revisions.Keys <= disk.revisions.Keys
      ensures r.Ok? ==> r.value == files && Applied(old(disk), disk, files)
      ensures r.Err? && SyncRoot !in broken ==> Kept(old(disk), disk)
      ensures r.Ok? ==> validate(files)
      ensures r.Ok? <==> files != map[] && Takes(old(disk), files, broken)
    {
      if |files| == 0 {
        return Err;
      }
      var ensured := Ensure(files, broken);
      if ensured.Failed? {
        return Err;
      }
      var was := disk.current;
      if was == Some(files) {
        return Ok(files);
      }
      if was.Some? {
        if LinkPrevious in broken {
          return Err;
        }
        Record(disk.(previous := was));
      }
      if LinkCurrent in broken {
        return Err;
      }
      Record(disk.(current := Some(files)));
      r := if SyncRoot in broken then Err else Ok(files);
    }

    method Rollback(broken: set<Call>) returns (s: Status)
      requires Valid()
      modifies this
      ensures Valid() && old(trace) <= trace && disk.revisions == old(disk).revisions
      ensures s.Done? ==> Swapped(old(disk), disk)
      ensures s.Failed? && (old(disk).current.None? || old(disk).previous.None?) ==> disk == old(disk)
      ensures old(disk).current.Some? ==> disk.current.Some?
      ensures s.Done? <==> SwapWorks(broken) && old(disk).current.Some? && old(disk).previous.Some?
    {
      var previous := disk.previous;
      if previous.None? {
        return Failed;
      }
      var current := disk.current;
      if current.None? || LinkCurrent in broken {
        return Failed;
      }
      Record(disk.(current := previous));
      if LinkPrevious in broken {
        return Failed;
      }
      Record(disk.(previous := current));
      s := if SyncRoot in broken then Failed else Done;
    }

    method Restore(revision: Option<Files>, broken: set<Call>) returns (s: Status)
      requires Valid()
      modifies this
      ensures Valid() && old(trace) <= trace
      ensures s.Done? ==> Restored(old(disk), disk, revision)
      ensures s.Done? <==> (revision.Some? ==> revision.value in old(disk).revisions) && RestoreWorks(revision, broken)
      ensures disk.revisions == old(disk).revisions
    {
      if revision.None? {
        if RemoveCurrent in broken {
          return Failed;
        }
        Record(disk.(current := None));
        if RemovePrevious in broken {
          return Failed;
        }
        Record(disk.(previous := None));
        return if SyncRoot in broken then Failed else Done;
      }
      if revision.value !in disk.revisions || LinkCurrent in broken {
        return Failed;
      }
      Record(disk.(current := revision));
      s := if SyncRoot in broken then Failed else Done;
    }
  }

  datatype Pem = Chain(bundle: Bundle) | Key(bundle: Bundle)

  function PairFiles(b: Bundle): map<PemFile, Pem> {
    map[CertPem := Chain(b), KeyPem := Key(b)]
  }

  /** TLS revisions. */
  class TlsStore {
    var disk: Disk<Bundle, PemFile, Pem>
    ghost var trace: seq<Disk<Bundle, PemFile, Pem>>

    /** Both files of a pair whose key was checked. */
    function Whole(): (Bundle, map<PemFile, Pem>) -> bool {
      (id, files) => files == PairFiles(id) && id.paired
    }

    ghost predicate Valid()
      reads this
    {
      trace != [] && trace[|trace| - 1] == disk && Safe(trace, Whole())
    }

    constructor ()
      ensures Valid() && disk == Disk(map[], map[], None, None)
    {
      disk := Disk(map[], map[], None, None);
      trace := [Disk(map[], map[], None, None)];
    }

    /**
     In every state the store was ever in, each revision holds the chain of its pair in `cert.pem` and
     the key in `key.pem`, nothing else, and the two belong together.
     */
    lemma PemsInPlace()
      requires Valid()
      ensures forall i, b | 0 <= i < |trace| && b in trace[i].revisions ::
                trace[i].revisions[b] == map[CertPem := Chain(b), KeyPem := Key(b)] && b.paired
      ensures forall b | b in disk.revisions ::
                disk.revisions[b] == map[CertPem := Chain(b), KeyPem := Key(b)] && b.paired
    {
      forall i | 0 <= i < |trace|
        ensures Sound(trace[i], Whole())
      {
        CrashSafe(trace, Whole(), i, i);
      }
      assert disk == trace[|trace| - 1];
    }

    method Record(d: Disk<Bundle, PemFile, Pem>)
      requires Valid() && Sound(d, Whole()) && Extends(disk.revisions, d.revisions)
      modifies this
      ensures Valid() && disk == d && trace == old(trace) + [d]
    {
      disk := d;
      trace := trace + [d];
      assert trace[..|trace| - 1] == old(trace);
    }

    predicate Staged(broken: set<Call>) {
      MakeStage !in broken && SyncStage !in broken && WritePem(CertPem) !in broken && WritePem(KeyPem) !in broken
    }

    /** A revision that does not exist yet can be made. */
    predicate Creates(broken: set<Call>) {
      Staged(broken) && BeforeRename !in broken && Rename !in broken && SyncRevisions !in broken
    }

    /** The revision exists or can be made, and the pointers can be moved to it. */
    predicate Takes(d: Disk<Bundle, PemFile, Pem>, bundle: Bundle, broken: set<Call>) {
      (bundle in d.revisions || Creates(broken)) && Moves(d.current, Some(bundle), broken)
    }

    method Stage(bundle: Bundle, broken: set<Call>) returns (s: Status)
      requires Valid()
      modifies this
      ensures Valid() && old(trace) <= trace
      ensures disk.(stage := old(disk).stage) == old(disk)
      ensures s.Done? ==> disk.stage == PairFiles(bundle)
      ensures s.Done? <==> Staged(broken)
    {
      if MakeStage in broken {
        return Failed;
      }
      Record(disk.(stage := map[]));
      if WritePem(CertPem) in broken {
        return Failed;
      }
      Record(disk.(stage := map[CertPem := Chain(bundle)]));
      if WritePem(KeyPem) in broken {
        return Failed;
      }
      Record(disk.(stage := disk.stage[KeyPem := Key(bundle)]));
      s := if SyncStage in broken then Failed else Done;
    }

    /** Makes the revision directory exist, unless it does. */
    method Ensure(bundle: Bundle, broken: set<Call>) returns (s: Status)
      requires Valid() && bundle.paired
      modifies this
      ensures Valid() && old(trace) <= trace && Grown(old(disk), disk)
      ensures s.Done? ==> bundle in disk.revisions
      ensures s.Done? <==> bundle in old(disk).revisions || Creates(broken)
      ensures s.Failed? && MakeStage !in broken ==> bundle in disk.revisions || disk.stage == map[]
    {
      if bundle in disk.revisions {
        return Done;
      }
      var staged := Stage(bundle, broken);
      if staged.Failed? || BeforeRename in broken || Rename in broken {
        if MakeStage !in broken {
          Record(disk.(stage := map[]));
        }
        return Failed;
      }
      Record(disk.(revisions := disk.revisions[bundle := disk.stage], stage := map[]));
      s := if SyncRevisions in broken then Failed else Done;
    }

    method Publish(bundle: Bundle, cancelled: bool, broken: set<Call>) returns (r: Result<Bundle>)
      requires Valid()
      modifies this
      ensures Valid() && old(trace) <= trace && old(disk).revisions.Keys <= disk.revisions.Keys
      ensures r.Ok? ==> r.value == bundle && Applied(old(disk), disk, bundle)
      ensures r.Err? && SyncRoot !in broken ==> Kept(old(disk), disk)
      ensures r.Ok? ==> !cancelled && bundle.paired
      ensures r.Ok? ==> disk.revisions[bundle] == map[CertPem := Chain(bundle), KeyPem := Key(bundle)]
      ensures r.Ok? <==> !cancelled && bundle.paired && Takes(old(disk), bundle, broken)
    {
      if cancelled || !bundle.paired {
        return Err;
      }
      var ensured := Ensure(bundle, broken);
      if ensured.Failed? {
        return Err;
      }
      var was := disk.current;
      if was != Some(bundle) && was.Some? {
        if LinkPrevious in broken {
          return Err;
        }
        Record(disk.(previous := was));
      }
      if was != Some(bundle) {
        if LinkCurrent in broken {
          return Err;
        }
        Record(disk.(current := Some(bundle)));
        if SyncRoot in broken {
          return Err;
        }
      }
      r := Ok(bundle);
    }

    /** Unlike the configuration store, rolling back without a predecessor clears `current`. */
    method Rollback(cancelled: bool, broken: set<Call>) returns (s: Status)
      requires Valid()
      modifies this
      ensures Valid() && old(trace) <= trace && disk.revisions == old(disk).revisions
      ensures s.Done? ==>
                if old(disk).previous.None? then disk == old(disk).(current := None) else Swapped(old(disk), disk)
      ensures s.Done? <==>
                && !cancelled
                && if old(disk).previous.None? then RemoveCurrent !in broken && SyncRoot !in broken
                   else old(disk).current.Some? && SwapWorks(broken)
    {
      if cancelled {
        return Failed;
      }
      var previous := disk.previous;
      if previous.None? {
        if RemoveCurrent in broken {
          return Failed;
        }
        Record(disk.(current := None));
        return if SyncRoot in broken then Failed else Done;
      }
      var current := disk.current;
      if current.None? || LinkCurrent in broken {
        return Failed;
      }
      Record(disk.(current := previous));
      if LinkPrevious in broken {
        return Failed;
      }
      Record(disk.(previous := current));
      s := if SyncRoot in broken then Failed else Done;
    }

    method Restore(revision: TlsRevision, broken: set<Call>) returns (s: Status)
      requires Valid()
      modifies this
      ensures Valid() && old(trace) <= trace
      ensures s.Done? ==> Restored(old(disk), disk, revision)
      ensures s.Done? <==> (revision.Some? ==> revision.value in old(disk).revisions) && RestoreWorks(revision, broken)
      ensures disk.revisions == old(disk).revisions
    {
      if revision.None? {
        if RemoveCurrent in broken {
          return Failed;
        }
        Record(disk.(current := None));
        if RemovePrevious in broken {
          return Failed;
        }
        Record(disk.(previous := None));
        return if SyncRoot in broken then Failed else Done;
      }
      if revision.value !in disk.revisions || LinkCurrent in broken {
        return Failed;
      }
      Record(disk.(current := revision));
      s := if SyncRoot in broken then Failed else Done;
    }
  }
}
