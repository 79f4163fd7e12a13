/** Entities shared by the configuration, certificate and publication models. */
module Domain {
  import opened Wrappers

  datatype UserStatus = UserActive | UserDisabled | UserRevoked

  datatype User = User(username: string, credential: string, status: UserStatus)

  datatype Rule = Rule(name: string, action: string, network: string)

  /**
   A PEM bundle by the facts the X.509 library reports about it: the names its leaf verifies for, its
   validity window, whether the private key belongs to the leaf, whether the chain signatures check
   out, whether its issuer is a staging one. `leaf` is the fingerprint of the leaf certificate.
   */
  datatype Bundle = Bundle(leaf: nat, hosts: set<string>, notBefore: int, notAfter: int,
                           paired: bool, chained: bool, staging: bool)

  /** A TLS revision is named by the digest of its pair, taken as injective; None is "no revision". */
  type TlsRevision = Option<Bundle>

  datatype PemFile = CertPem | KeyPem

  /** A path inside a published TLS revision, or the empty path. */
  datatype PemPath = NoPath | InRevision(bundle: Bundle, file: PemFile)

  /** `filepath.Base(filepath.Dir(path))`, with the empty path giving no revision. */
  function RevisionOf(p: PemPath): TlsRevision {
    match p
    case NoPath => None
    case InRevision(b, _) => Some(b)
  }

  function PathIn(r: TlsRevision, file: PemFile): PemPath {
    match r
    case None => NoPath
    case Some(b) => InRevision(b, file)
  }

  datatype Snapshot = Snapshot(hostname: string, listen: string, users: seq<User>, rules: seq<Rule>,
                               cert: PemPath, key: PemPath)
}
