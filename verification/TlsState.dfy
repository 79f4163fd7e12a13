/** The persisted certificate record and its states: internal/certificate/state.go. */
module TlsState {
  import opened Domain
  import opened Wrappers

  datatype State = Unconfigured | Issuing | Active | Renewing | Degraded | Manual

  datatype Mode = Production | Staging | ManualMode

  datatype Source = Unset | LetsEncrypt | SelfSigned | Provided

  datatype Metadata = Metadata(state: State, source: Source, mode: Mode, hostname: string, email: string,
                               providedCert: string, providedKey: string, fingerprint: Option<nat>,
                               active: TlsRevision, previous: TlsRevision, cert: PemPath, key: PemPath,
                               failed: bool)

  function EffectiveSource(m: Metadata): Source {
    if !m.source.Unset? then m.source
    else if m.mode.ManualMode? || m.state.Manual? then Provided
    else LetsEncrypt
  }

  predicate CanTransition(from: State, to: State) {
    from == to ||
    match from
    case Unconfigured => to.Issuing? || to.Manual?
    case Issuing => to.Active? || to.Degraded?
    case Active => to.Renewing? || to.Manual?
    case Renewing => to.Active? || to.Degraded?
    case Degraded => to.Issuing? || to.Renewing? || to.Active? || to.Manual?
    case Manual => to.Issuing?
  }

  /** `ValidateBundle`: names, window, chain, key, and no staging issuer in production. */
  predicate Validated(b: Bundle, hostname: string, mode: Mode, now: int) {
    && hostname in b.hosts
    && b.notBefore <= now < b.notAfter
    && b.chained && b.paired
    && !(mode.Production? && b.staging)
  }

  // ----- The history of persisted records

  /** Who wrote a record: the certificate manager or the settings service. */
  datatype Writer = Manager | SettingsService

  /** With which mode and at which clock reading a pair was validated. */
  datatype Check = Check(mode: Mode, at: int)

  /** A written record, and the validation that an Active one rests on. */
  datatype Entry = Entry(writer: Writer, meta: Metadata, check: Check)

  /** What the services work with when no record exists. */
  const NoRecord := Metadata(Unconfigured, LetsEncrypt, Production, "", "", "", "", None, None, None, NoPath, NoPath,
                            false)

  function Last(log: seq<Entry>): Metadata {
    if log == [] then NoRecord else log[|log| - 1].meta
  }

  function LastCheck(log: seq<Entry>): Check {
    if log == [] then Check(ManualMode, 0) else log[|log| - 1].check
  }

  /** The stored paths lie in the active revision. */
  ghost predicate PathsMatch(m: Option<Metadata>) {
    CertPath(m) == PathIn(ActiveRevision(m), CertPem) && KeyPath(m) == PathIn(ActiveRevision(m), KeyPem)
  }

  function ActiveRevision(m: Option<Metadata>): TlsRevision {
    if m.None? then None else m.value.active
  }

  function CertPath(m: Option<Metadata>): PemPath {
    if m.None? then NoPath else m.value.cert
  }

  function KeyPath(m: Option<Metadata>): PemPath {
    if m.None? then NoPath else m.value.key
  }

  /** No retired state, and paths inside the recorded revision. */
  ghost predicate Sane(m: Metadata) {
    !m.state.Manual? && PathsMatch(Some(m))
  }

  /** An Active record names a pair that was validated for its host name, then and with that mode. */
  ghost predicate RecordOk(m: Metadata, c: Check) {
    Sane(m) && (m.state.Active? ==> m.active.Some? && Validated(m.active.value, m.hostname, c.mode, c.at))
  }

  /** The mode the manager validates with. */
  function CheckMode(m: Metadata): Mode {
    if EffectiveSource(m).LetsEncrypt? then m.mode else ManualMode
  }

  /**
   Under letsencrypt and self-signed the manager only takes edges of the table; a settings save
   keeps the state or resets it.
   */
  predicate EdgeOk(writer: Writer, from: Metadata, to: Metadata) {
    match writer
    case Manager => EffectiveSource(to).Provided? || CanTransition(from.state, to.state)
    case SettingsService => to.state == from.state || to.state.Unconfigured?
  }

  predicate CheckOk(e: Entry) {
    e.writer.Manager? && e.meta.state.Active? ==> e.check.mode == CheckMode(e.meta)
  }

  ghost predicate Lawful(log: seq<Entry>) {
    log == [] ||
    var init := log[..|log| - 1];
    && Lawful(init) && RecordOk(Last(log), LastCheck(log)) && EdgeOk(log[|log| - 1].writer, Last(init), Last(log))
    && CheckOk(log[|log| - 1])
  }

  /** What a lawful history says of each of its records. */
  lemma {:induction false} LawfulEverywhere(log: seq<Entry>, i: nat)
    requires Lawful(log) && i < |log|
    ensures RecordOk(log[i].meta, log[i].check) && CheckOk(log[i])
    ensures EdgeOk(log[i].writer, Last(log[..i]), log[i].meta)
    ensures var m, c := log[i].meta, log[i].check;
            m.state.Active? ==>
              && m.active.Some? && m.hostname in m.active.value.hosts
              && m.active.value.notBefore <= c.at < m.active.value.notAfter
              && m.active.value.chained && m.active.value.paired
              && !(c.mode.Production? && m.active.value.staging)
  {
    if i < |log| - 1 {
      LawfulEverywhere(log[..|log| - 1], i);
      assert log[..|log| - 1][..i] == log[..i];
    }
  }
}
