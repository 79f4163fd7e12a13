/**
 The endpoint process as the publication code sees it: `readinessProcess` of internal/app/app.go over
 the supervisor. The command line of a child names the configuration revision it was started with
 (internal/app/app.go:89-95), and a signal does not change a command line.
 */
module Endpoint {
  import opened Config
  import opened Wrappers

  /** The revision the held command was started with; the empty revision is `Started(None)`. */
  datatype Process = NoChild | Started(revision: Option<Files>)

  /**
   Which calls fail. A `Stop` that fails may have killed the child all the same; `start` is the
   refusal of `Start` or a failed exec; `read` is reading the recorded revision.
   */
  datatype ProcessFaults = ProcessFaults(read: bool, signal: bool, stop: bool, killed: bool, start: bool, ready: bool)

  const NoProcessFaults := ProcessFaults(false, false, false, false, false, false)

  predicate RestartFails(child: Process, f: ProcessFaults) {
    (child.Started? && f.stop) || f.start || f.ready
  }

  predicate ReloadFails(child: Process, f: ProcessFaults) {
    f.ready || if child.NoChild? then f.read || f.start else f.signal
  }

  class ReadinessProcess {
    var child: Process
    /** How many reload signals held children were sent. */
    var signals: nat

    constructor ()
      ensures child == NoChild && signals == 0
    {
      child, signals := NoChild, 0;
    }

    /** A success leaves a child of that revision; a failure may leave none, the old one, or the new one not ready. */
    method Restart(revision: Option<Files>, f: ProcessFaults) returns (s: Status)
      modifies this
      ensures s.Failed? <==> RestartFails(old(child), f)
      ensures s.Done? ==> child == Started(revision)
      ensures signals == old(signals)
      ensures old(child).Started? && f.stop ==> child == if f.killed then NoChild else old(child)
      ensures !(old(child).Started? && f.stop) ==> child == if f.start then NoChild else Started(revision)
    {
      if child.Started? {
        if f.stop {
          child := if f.killed then NoChild else child;
          return Failed;
        }
        child := NoChild;
      }
      if f.start {
        return Failed;
      }
      child := Started(revision);
      s := if f.ready then Failed else Done;
    }

    /** A held child is signalled and stays the one it is; without one the recorded revision is started. */
    method Reload(recorded: Option<Files>, f: ProcessFaults) returns (s: Status)
      modifies this
      ensures s.Failed? <==> ReloadFails(old(child), f)
      ensures old(child).Started? ==> child == old(child)
      ensures signals == old(signals) + if old(child).Started? && !f.signal then 1 else 0
      ensures old(child).NoChild? ==> child == if f.read || f.start then NoChild else Started(recorded)
    {
      if child.NoChild? {
        if f.read {
          return Failed;
        }
        s := Restart(recorded, f);
        return s;
      }
      if f.signal {
        return Failed;
      }
      signals := signals + 1;
      s := if f.ready then Failed else Done;
    }
  }
}
