/**
 The legacy import of internal/migration/legacy.go:119-206 as a sequence of writes that can be cut
 anywhere and started again.
 */
module Migration {
  import opened Config
  import opened Database
  import opened Domain
  import opened TlsState
  import opened Wrappers

  datatype LegacyUser = LegacyUser(username: string, password: string)

  datatype LegacyRule = LegacyRule(name: string, action: string, cidr: string, network: string)

  /** What the two certificate paths of the first host lead to. */
  datatype LegacyPair = NoPair | Unreadable | Pair(bundle: Bundle)

  datatype LegacyHost = LegacyHost(hostname: string, pair: LegacyPair)

  /** The decoded source files; the two rule tables are already joined. */
  datatype Source = Source(listen: string, hosts: seq<LegacyHost>, users: seq<LegacyUser>, rules: seq<LegacyRule>)

  /** What surrounds a run: the clock, the checks of the renderer, `fmt` for a number, the blank test. */
  datatype Env = Env(now: int, lib: Library, number: nat -> string, blank: string -> bool)

  /** Everything a run leaves behind, with the users by name. */
  datatype Target = Target(hostname: string, listen: string, users: map<string, User>, rules: map<string, RuleLine>,
                           meta: Option<Metadata>, tls: TlsRevision,
                           config: Option<Files>, revision: Option<Files>, marker: bool)

  datatype Write =
    | PutHostname(hostname: string)
    | PutListen(listen: string)
    | PutUser(user: User)
    | PutRule(name: string, line: RuleLine)
    | PublishPair(bundle: Bundle)
    | RecordPair(bundle: Bundle, host: string)

  // ----- The writes of a source

  predicate Usable(src: Source, e: Env) {
    src.hosts != [] && !e.blank(src.hosts[0].hostname) && src.users != []
  }

  predicate UsersComplete(users: seq<LegacyUser>) {
    forall i | 0 <= i < |users| :: users[i].username != "" && users[i].password != ""
  }

  /** The actions the table takes. */
  predicate ActionOk(action: string) {
    action == "allow" || action == "deny"
  }

  predicate RulesComplete(rules: seq<LegacyRule>) {
    forall i | 0 <= i < |rules| :: ActionOk(rules[i].action)
  }

  /** Users up to the first incomplete one. */
  function UserWrites(users: seq<LegacyUser>): seq<Write> {
    if users == [] || users[0].username == "" || users[0].password == "" then []
    else [PutUser(User(users[0].username, users[0].password, UserActive))] + UserWrites(users[1..])
  }

  function RuleWriteAt(r: LegacyRule, i: nat, e: Env): Write {
    PutRule(if r.name == "" then "legacy-" + e.number(i + 1) else r.name,
            RuleLine(r.action, if r.network == "" then r.cidr else r.network))
  }

  /** Rules from `i` on, up to the first whose action the table refuses. */
  function RuleWrites(rules: seq<LegacyRule>, i: nat, e: Env): seq<Write>
    requires i <= |rules|
    decreases |rules| - i
  {
    if i == |rules| || !ActionOk(rules[i].action) then []
    else [RuleWriteAt(rules[i], i, e)] + RuleWrites(rules, i + 1, e)
  }

  function PairWrites(host: LegacyHost, now: int): seq<Write> {
    if host.pair.Pair? && Validated(host.pair.bundle, host.hostname, ManualMode, now)
    then [PublishPair(host.pair.bundle), RecordPair(host.pair.bundle, host.hostname)] else []
  }

  predicate PairComplete(host: LegacyHost, now: int) {
    match host.pair
    case NoPair => true
    case Unreadable => false
    case Pair(b) => Validated(b, host.hostname, ManualMode, now)
  }

  function SettingWrites(src: Source): seq<Write>
    requires src.hosts != []
  {
    [PutHostname(src.hosts[0].hostname)] + if src.listen != "" then [PutListen(src.listen)] else []
  }

  function AccountWrites(src: Source): seq<Write>
    requires src.hosts != []
  {
    SettingWrites(src) + UserWrites(src.users)
  }

  function LaterWrites(src: Source, e: Env): seq<Write>
    requires src.hosts != []
  {
    RuleWrites(src.rules, 0, e) + if RulesComplete(src.rules) then PairWrites(src.hosts[0], e.now) else []
  }

  /** The writes before the rendering, in order, up to the first error. */
  function RowWrites(src: Source, e: Env): seq<Write>
    requires src.hosts != []
  {
    AccountWrites(src) + if UsersComplete(src.users) then LaterWrites(src, e) else []
  }

  predicate RowsComplete(src: Source, e: Env)
    requires src.hosts != []
  {
    UsersComplete(src.users) && RulesComplete(src.rules) && PairComplete(src.hosts[0], e.now)
  }

  // ----- What writes do

  function Current(m: Option<Metadata>): Metadata {
    if m.None? then NoRecord else m.value
  }

  /** The record of an imported pair; what it does not set stays. */
  function Imported(m: Metadata, b: Bundle, hostname: string): Metadata {
    m.(state := Active, source := Provided, mode := ManualMode, hostname := hostname, fingerprint := Some(b.leaf),
       previous := m.active, active := Some(b), cert := InRevision(b, CertPem), key := InRevision(b, KeyPem),
       failed := false)
  }

  function Put(t: Target, w: Write): Target {
    match w
    case PutHostname(h) => t.(hostname := h)
    case PutListen(a) => t.(listen := a)
    case PutUser(u) => t.(users := t.users[u.username := u])
    case PutRule(n, l) => t.(rules := t.rules[n := l])
    case PublishPair(b) => t.(tls := Some(b))
    case RecordPair(b, h) => t.(meta := Some(Imported(Current(t.meta), b, h)))
  }

  function PutAll(t: Target, ws: seq<Write>): Target {
    if ws == [] then t else Put(PutAll(t, ws[..|ws| - 1]), ws[|ws| - 1])
  }

  predicate RowsValid(t: Target, lib: Library) {
    && HeadOk(t.listen, t.hostname, CertPath(t.meta), KeyPath(t.meta), lib)
    && (forall n | n in t.users :: UserOk(t.users[n], lib))
    && (forall n | n in t.rules :: RuleOk(RuleOf(t.rules, n), lib))
  }

  /** Name and credential of the active users. */
  function ActiveOf(users: map<string, User>): map<string, string> {
    map n | n in users && users[n].status.UserActive? :: users[n].credential
  }

  function FilesFrom(t: Target): Files {
    map[VpnToml := Vpn(t.listen), HostsToml := Hosts(t.hostname, CertPath(t.meta), KeyPath(t.meta)),
        CredentialsToml := Credentials(ActiveOf(t.users)), RulesToml := Rules(t.rules)]
  }

  /** The last writes: configuration pointer, active revision, marker. */
  function Finished(t: Target, n: nat): Target {
    var files := Some(FilesFrom(t));
    if n == 0 then t
    else if n == 1 then t.(config := files)
    else if n == 2 then t.(config := files, revision := files)
    else t.(config := files, revision := files, marker := true)
  }

  /** What `n` more writes leave behind once the rows are written. */
  function FromRows(rows: Target, src: Source, e: Env, n: nat): Target
    requires src.hosts != []
  {
    if !RowsComplete(src, e) || !RowsValid(rows, e.lib) then rows else Finished(rows, n)
  }

  /** What is left behind by a run that is stopped before its write number `n`. */
  function After(t: Target, src: Source, e: Env, n: nat): Target {
    if t.marker || !Usable(src, e) then t
    else
      var ws := RowWrites(src, e);
      if n < |ws| then PutAll(t, ws[..n]) else FromRows(PutAll(t, ws), src, e, n - |ws|)
  }

  /** A run that is not stopped. */
  function Whole(t: Target, src: Source, e: Env): Target {
    After(t, src, e, if src.hosts == [] then 0 else |RowWrites(src, e)| + 3)
  }

  // ----- Starting again

  /** What a write replaces. */
  datatype Key = HostnameKey | ListenKey | UserKeyed(name: string) | RuleKeyed(name: string) | TlsKey | MetaKey

  function KeyOf(w: Write): Key {
    match w
    case PutHostname(_) => HostnameKey
    case PutListen(_) => ListenKey
    case PutUser(u) => UserKeyed(u.username)
    case PutRule(n, _) => RuleKeyed(n)
    case PublishPair(_) => TlsKey
    case RecordPair(_, _) => MetaKey
  }

  predicate Writes(ws: seq<Write>, k: Key) {
    exists i | 0 <= i < |ws| :: KeyOf(ws[i]) == k
  }

  function Lookup<V>(m: map<string, V>, n: string): Option<V> {
    if n in m then Some(m[n]) else None
  }

  /** What an import keeps of a record. */
  predicate SameKept(a: Option<Metadata>, b: Option<Metadata>) {
    && Current(a).email == Current(b).email
    && Current(a).providedCert == Current(b).providedCert && Current(a).providedKey == Current(b).providedKey
  }

  /** Equal but for the remembered previous revision. */
  predicate SameMeta(a: Option<Metadata>, b: Option<Metadata>) {
    || a == b
    || (a.Some? && b.Some? && a.value == b.value.(previous := a.value.previous))
  }

  predicate SameAt(a: Target, b: Target, k: Key) {
    match k
    case HostnameKey => a.hostname == b.hostname
    case ListenKey => a.listen == b.listen
    case UserKeyed(n) => Lookup(a.users, n) == Lookup(b.users, n)
    case RuleKeyed(n) => Lookup(a.rules, n) == Lookup(b.rules, n)
    case TlsKey => a.tls == b.tls
    case MetaKey => SameMeta(a.meta, b.meta)
  }

  /** Nothing differs but what `ws` will write. */
  ghost predicate SameBut(a: Target, b: Target, ws: seq<Write>) {
    && SameKept(a.meta, b.meta)
    && a.config == b.config && a.revision == b.revision && a.marker == b.marker
    && forall k: Key | !Writes(ws, k) :: SameAt(a, b, k)
  }

  /** The same outcome; only the remembered previous certificate revision may differ. */
  predicate Alike(a: Target, b: Target) {
    SameMeta(a.meta, b.meta) && a == b.(meta := a.meta)
  }

  lemma PutClears(a: Target, b: Target, w: Write, k: Key)
    requires SameKept(a.meta, b.meta) && (k == KeyOf(w) || SameAt(a, b, k))
    ensures SameAt(Put(a, w), Put(b, w), k) && SameKept(Put(a, w).meta, Put(b, w).meta)
  {
  }

  lemma {:induction false} WriteBoth(a: Target, b: Target, ws: seq<Write>)
    requires SameBut(a, b, ws)
    ensures SameBut(PutAll(a, ws), PutAll(b, ws), [])
    decreases ws
  {
    if ws != [] {
      FrontFirst(a, ws);
      FrontFirst(b, ws);
      forall k: Key | !Writes(ws[1..], k)
        ensures SameAt(Put(a, ws[0]), Put(b, ws[0]), k)
      {
        assert forall i | 0 < i < |ws| :: KeyOf(ws[i]) == KeyOf(ws[1..][i - 1]);
        PutClears(a, b, ws[0], k);
      }
      PutClears(a, b, ws[0], KeyOf(ws[0]));
      WriteBoth(Put(a, ws[0]), Put(b, ws[0]), ws[1..]);
    }
  }

  lemma {:induction false} FrontFirst(t: Target, ws: seq<Write>)
    requires ws != []
    ensures PutAll(t, ws) == PutAll(Put(t, ws[0]), ws[1..])
  {
    var init, last := ws[..|ws| - 1], ws[|ws| - 1];
    if init != [] {
      FrontFirst(t, init);
      assert ws[1..][..|ws| - 2] == init[1..];
    } else {
      assert PutAll(t, []) == t;
    }
  }

  lemma PutOneMore(t: Target, ws: seq<Write>, k: nat)
    requires k < |ws|
    ensures PutAll(t, ws[..k + 1]) == Put(PutAll(t, ws[..k]), ws[k])
  {
    assert ws[..k + 1][..k] == ws[..k];
  }

  lemma PutElsewhere(a: Target, b: Target, w: Write, k: Key)
    requires k != KeyOf(w) && SameAt(a, b, k)
    ensures SameAt(Put(a, w), b, k)
  {
  }

  lemma PutKeeps(a: Target, w: Write)
    ensures SameKept(Put(a, w).meta, a.meta)
    ensures Put(a, w).config == a.config && Put(a, w).revision == a.revision && Put(a, w).marker == a.marker
  {
  }

  lemma OneWritten(a: Target, b: Target, w: Write, ws: seq<Write>)
    requires SameBut(a, b, ws) && Writes(ws, KeyOf(w))
    ensures SameBut(Put(a, w), b, ws)
  {
    PutKeeps(a, w);
    forall k: Key | !Writes(ws, k)
      ensures SameAt(Put(a, w), b, k)
    {
      PutElsewhere(a, b, w, k);
    }
  }

  lemma {:induction false} SomeWritten(t: Target, ws: seq<Write>, n: nat)
    requires n <= |ws|
    ensures SameBut(PutAll(t, ws[..n]), t, ws)
  {
    if n > 0 {
      SomeWritten(t, ws, n - 1);
      PutOneMore(t, ws, n - 1);
      OneWritten(PutAll(t, ws[..n - 1]), t, ws[n - 1], ws);
    }
  }

  lemma SameEverywhere(a: Target, b: Target)
    requires SameBut(a, b, [])
    ensures Alike(a, b)
  {
    assert SameAt(a, b, HostnameKey) && SameAt(a, b, ListenKey) && SameAt(a, b, TlsKey) && SameAt(a, b, MetaKey);
    forall n
      ensures Lookup(a.users, n) == Lookup(b.users, n) && Lookup(a.rules, n) == Lookup(b.rules, n)
    {
      assert SameAt(a, b, UserKeyed(n)) && SameAt(a, b, RuleKeyed(n));
    }
    SameLookups(a.users, b.users);
    SameLookups(a.rules, b.rules);
  }

  lemma SameLookups<V>(a: map<string, V>, b: map<string, V>)
    requires forall n :: Lookup(a, n) == Lookup(b, n)
    ensures a == b
  {
    assert forall n :: n in a <==> Lookup(a, n).Some?;
    assert forall n :: n in b <==> Lookup(b, n).Some?;
    assert forall n | n in a :: a[n] == Lookup(a, n).value == Lookup(b, n).value;
  }

  lemma AlikeFinish(a: Target, b: Target, lib: Library)
    requires Alike(a, b)
    ensures RowsValid(a, lib) <==> RowsValid(b, lib)
    ensures Alike(Finished(a, 3), Finished(b, 3))
  {
  }

  /** The pointers and the marker do not matter to the rows. */
  lemma {:induction false} RowsIgnorePointers(t: Target, ws: seq<Write>, c: Option<Files>, r: Option<Files>, m: bool)
    ensures PutAll(t.(config := c, revision := r, marker := m), ws) ==
            PutAll(t, ws).(config := c, revision := r, marker := m)
    decreases ws
  {
    if ws != [] {
      var init := ws[..|ws| - 1];
      RowsIgnorePointers(t, init, c, r, m);
      PutIgnoresPointers(PutAll(t, init), ws[|ws| - 1], c, r, m);
    }
  }

  lemma PutIgnoresPointers(t: Target, w: Write, c: Option<Files>, r: Option<Files>, m: bool)
    ensures Put(t.(config := c, revision := r, marker := m), w) == Put(t, w).(config := c, revision := r, marker := m)
  {
  }

  lemma RowsAgain(t: Target, ws: seq<Write>, n: nat)
    requires n <= |ws|
    ensures Alike(PutAll(PutAll(t, ws[..n]), ws), PutAll(t, ws))
  {
    SomeWritten(t, ws, n);
    WriteBoth(PutAll(t, ws[..n]), t, ws);
    SameEverywhere(PutAll(PutAll(t, ws[..n]), ws), PutAll(t, ws));
  }

  lemma WholeFromRows(t: Target, src: Source, e: Env)
    requires !t.marker && Usable(src, e)
    ensures Whole(t, src, e) == FromRows(PutAll(t, RowWrites(src, e)), src, e, 3)
  {
  }

  /** A run stopped among the rows. */
  lemma RerunRows(t: Target, src: Source, e: Env, n: nat)
    requires !t.marker && Usable(src, e) && n <= |RowWrites(src, e)|
    ensures Alike(Whole(PutAll(t, RowWrites(src, e)[..n]), src, e), Whole(t, src, e))
  {
    var ws := RowWrites(src, e);
    var cut := PutAll(t, ws[..n]);
    RowsAgain(t, ws, n);
    SomeWritten(t, ws, n);
    WholeFromRows(t, src, e);
    WholeFromRows(cut, src, e);
    AlikeFinish(PutAll(cut, ws), PutAll(t, ws), e.lib);
  }

  /** A run stopped after the configuration pointer or the active revision was written. */
  lemma RerunPointers(t: Target, src: Source, e: Env, c: Option<Files>, r: Option<Files>)
    requires !t.marker && Usable(src, e) && RowsComplete(src, e)
    requires RowsValid(PutAll(t, RowWrites(src, e)), e.lib)
    ensures Alike(Whole(PutAll(t, RowWrites(src, e)).(config := c, revision := r), src, e), Whole(t, src, e))
  {
    var ws := RowWrites(src, e);
    var rows := PutAll(t, ws);
    var cut := rows.(config := c, revision := r);
    assert ws[..|ws|] == ws;
    SomeWritten(t, ws, |ws|);
    assert rows.marker == t.marker;
    RowsAgain(t, ws, |ws|);
    RowsIgnorePointers(rows, ws, c, r, false);
    WholeFromRows(t, src, e);
    WholeFromRows(cut, src, e);
    AlikeFinish(PutAll(cut, ws), rows.(config := c, revision := r), e.lib);
  }

  lemma AfterParts(t: Target, src: Source, e: Env, n: nat)
    requires !t.marker && Usable(src, e)
    ensures var ws := RowWrites(src, e);
            After(t, src, e, n) == if n <= |ws| then PutAll(t, ws[..n]) else FromRows(PutAll(t, ws), src, e, n - |ws|)
  {
    var ws := RowWrites(src, e);
    if n == |ws| {
      assert ws[..n] == ws;
      NothingMore(PutAll(t, ws), src, e);
    }
  }

  lemma NothingMore(rows: Target, src: Source, e: Env)
    requires src.hosts != []
    ensures FromRows(rows, src, e, 0) == rows
  {
  }

  /**
   A run stopped before any of its writes and started again ends like a run that is not stopped,
   whatever the target held.
   */
  lemma Rerun(t: Target, src: Source, e: Env, n: nat)
    ensures Alike(Whole(After(t, src, e, n), src, e), Whole(t, src, e))
  {
    if !t.marker && Usable(src, e) {
      AfterParts(t, src, e, n);
      var ws := RowWrites(src, e);
      var rows := PutAll(t, ws);
      assert ws[..|ws|] == ws;
      if n <= |ws| {
        RerunRows(t, src, e, n);
      } else if !RowsComplete(src, e) || !RowsValid(rows, e.lib) {
        RerunRows(t, src, e, |ws|);
      } else {
        RerunFinished(t, src, e, n - |ws|);
      }
    }
  }

  lemma RerunFinished(t: Target, src: Source, e: Env, k: nat)
    requires !t.marker && Usable(src, e) && RowsComplete(src, e) && k > 0
    requires RowsValid(PutAll(t, RowWrites(src, e)), e.lib)
    ensures Alike(Whole(Finished(PutAll(t, RowWrites(src, e)), k), src, e), Whole(t, src, e))
  {
    var ws := RowWrites(src, e);
    var rows := PutAll(t, ws);
    var cut := Finished(rows, k);
    if k < 3 {
      RowsKeepMarker(t, ws);
      assert cut == rows.(config := cut.config, revision := cut.revision);
      RerunPointers(t, src, e, cut.config, cut.revision);
    } else {
      WholeFromRows(t, src, e);
    }
  }

  lemma RowsKeepMarker(t: Target, ws: seq<Write>)
    ensures PutAll(t, ws).marker == t.marker
  {
    assert ws[..|ws|] == ws;
    SomeWritten(t, ws, |ws|);
  }

  lemma {:induction false} RuleWritesAnyTime(rules: seq<LegacyRule>, i: nat, e: Env, time: int)
    requires i <= |rules|
    ensures RuleWrites(rules, i, e.(now := time)) == RuleWrites(rules, i, e)
    decreases |rules| - i
  {
    if i < |rules| && ActionOk(rules[i].action) {
      RuleWritesAnyTime(rules, i + 1, e, time);
    }
  }

  /** Whether the pair is valid is all that the time of a run decides. */
  lemma SameAtOtherTime(t: Target, src: Source, e: Env, time: int, n: nat)
    requires Usable(src, e) && (PairComplete(src.hosts[0], time) <==> PairComplete(src.hosts[0], e.now))
    ensures After(t, src, e.(now := time), n) == After(t, src, e, n)
  {
    RuleWritesAnyTime(src.rules, 0, e, time);
  }

  /** With the pair not valid yet, a run ends like a valid one that is stopped before the pair. */
  lemma StoppedAtPair(t: Target, src: Source, e: Env, time: int, n: nat) returns (k: nat)
    requires Usable(src, e) && !PairComplete(src.hosts[0], time) && PairComplete(src.hosts[0], e.now)
    ensures After(t, src, e.(now := time), n) == After(t, src, e, k)
  {
    k := n;
    if !t.marker {
      RuleWritesAnyTime(src.rules, 0, e, time);
      AfterParts(t, src, e.(now := time), n);
      var early, ws := RowWrites(src, e.(now := time)), RowWrites(src, e);
      assert early == ws[..|early|];
      k := Least(n, |early|);
      AfterParts(t, src, e, k);
      assert early[..k] == ws[..k];
      assert early[..|early|] == early;
    }
  }

  /** A run stopped earlier, at a time when the pair was no more valid than now, makes no difference. */
  lemma RerunLater(t: Target, src: Source, e: Env, time: int, n: nat)
    requires src.hosts != [] && PairComplete(src.hosts[0], time) ==> PairComplete(src.hosts[0], e.now)
    ensures Alike(Whole(After(t, src, e.(now := time), n), src, e), Whole(t, src, e))
  {
    if Usable(src, e) {
      if PairComplete(src.hosts[0], time) <==> PairComplete(src.hosts[0], e.now) {
        SameAtOtherTime(t, src, e, time, n);
        Rerun(t, src, e, n);
      } else {
        var k := StoppedAtPair(t, src, e, time, n);
        Rerun(t, src, e, k);
      }
    }
  }

  datatype Stop = Stop(time: int, writes: nat)

  function AfterEach(t: Target, src: Source, e: Env, stops: seq<Stop>): Target {
    if stops == [] then t
    else
      var last := stops[|stops| - 1];
      After(AfterEach(t, src, e, stops[..|stops| - 1]), src, e.(now := last.time), last.writes)
  }

  /** Any number of stopped runs before the last one make no difference. */
  lemma {:induction false} Reruns(t: Target, src: Source, e: Env, stops: seq<Stop>)
    requires forall i | 0 <= i < |stops| ::
               src.hosts != [] && PairComplete(src.hosts[0], stops[i].time) ==> PairComplete(src.hosts[0], e.now)
    ensures Alike(Whole(AfterEach(t, src, e, stops), src, e), Whole(t, src, e))
  {
    if stops != [] {
      var init, last := stops[..|stops| - 1], stops[|stops| - 1];
      Reruns(t, src, e, init);
      RerunLater(AfterEach(t, src, e, init), src, e, last.time, last.writes);
    }
  }

  // ----- What a completed run leaves

  lemma {:induction false} LastAt(t: Target, ws: seq<Write>, i: nat)
    requires i < |ws| && !ws[i].RecordPair?
    requires forall j | i < j < |ws| :: KeyOf(ws[j]) != KeyOf(ws[i])
    ensures SameAt(PutAll(t, ws), Put(t, ws[i]), KeyOf(ws[i]))
    decreases ws
  {
    var init, last := ws[..|ws| - 1], ws[|ws| - 1];
    if i < |init| {
      LastAt(t, init, i);
      PutElsewhere(PutAll(t, init), Put(t, ws[i]), last, KeyOf(ws[i]));
    }
  }

  lemma {:induction false} UserWriteAt(users: seq<LegacyUser>, i: nat)
    requires UsersComplete(users) && i < |users|
    ensures |UserWrites(users)| == |users|
    ensures UserWrites(users)[i] == PutUser(User(users[i].username, users[i].password, UserActive))
    decreases users
  {
    var rest := users[1..];
    if rest != [] {
      assert forall j | 0 <= j < |rest| :: rest[j] == users[j + 1];
      UserWriteAt(rest, if i == 0 then 0 else i - 1);
    }
  }

  lemma {:induction false} RulesAreNoUsers(rules: seq<LegacyRule>, i: nat, e: Env)
    requires i <= |rules|
    ensures forall j | 0 <= j < |RuleWrites(rules, i, e)| :: RuleWrites(rules, i, e)[j].PutRule?
    decreases |rules| - i
  {
    if i < |rules| && ActionOk(rules[i].action) {
      RulesAreNoUsers(rules, i + 1, e);
    }
  }

  lemma LaterAreNoUsers(src: Source, e: Env)
    requires src.hosts != []
    ensures forall j | 0 <= j < |LaterWrites(src, e)| :: !LaterWrites(src, e)[j].PutUser?
  {
    RulesAreNoUsers(src.rules, 0, e);
  }

  /** Where the user writes lie among the row writes. */
  lemma RowUsers(src: Source, e: Env, j: nat)
    requires src.hosts != [] && UsersComplete(src.users) && j < |RowWrites(src, e)|
    ensures var n := |SettingWrites(src)|;
            RowWrites(src, e)[j].PutUser? <==> n <= j < n + |src.users|
    ensures var n := |SettingWrites(src)|;
            n <= j < n + |src.users| ==>
              RowWrites(src, e)[j] == PutUser(User(src.users[j - n].username, src.users[j - n].password, UserActive))
  {
    var n := |SettingWrites(src)|;
    LaterAreNoUsers(src, e);
    if src.users != [] {
      UserWriteAt(src.users, if n <= j < n + |src.users| then j - n else 0);
    }
  }

  predicate LastOfName(users: seq<LegacyUser>, i: nat)
    requires i < |users|
  {
    forall j | i < j < |users| :: users[j].username != users[i].username
  }

  lemma ImportedUser(t: Target, src: Source, e: Env, i: nat)
    requires src.hosts != [] && UsersComplete(src.users) && i < |src.users| && LastOfName(src.users, i)
    ensures var u := src.users[i];
            Lookup(PutAll(t, RowWrites(src, e)).users, u.username) == Some(User(u.username, u.password, UserActive))
  {
    var ws, n := RowWrites(src, e), |SettingWrites(src)|;
    UserWriteAt(src.users, i);
    RowUsers(src, e, n + i);
    forall j | n + i < j < |ws|
      ensures KeyOf(ws[j]) != KeyOf(ws[n + i])
    {
      RowUsers(src, e, j);
    }
    LastAt(t, ws, n + i);
  }

  lemma OtherUser(t: Target, src: Source, e: Env, name: string)
    requires src.hosts != [] && UsersComplete(src.users)
    requires forall i | 0 <= i < |src.users| :: src.users[i].username != name
    ensures Lookup(PutAll(t, RowWrites(src, e)).users, name) == Lookup(t.users, name)
  {
    var ws := RowWrites(src, e);
    forall j | 0 <= j < |ws|
      ensures KeyOf(ws[j]) != UserKeyed(name)
    {
      RowUsers(src, e, j);
    }
    assert ws[..|ws|] == ws;
    SomeWritten(t, ws, |ws|);
    assert SameAt(PutAll(t, ws), t, UserKeyed(name));
  }

  // ----- What a completed run leaves besides the users

  lemma NeverAt(t: Target, ws: seq<Write>, k: Key)
    requires forall j | 0 <= j < |ws| :: KeyOf(ws[j]) != k
    ensures SameAt(PutAll(t, ws), t, k) && SameKept(PutAll(t, ws).meta, t.meta)
  {
    assert ws[..|ws|] == ws;
    SomeWritten(t, ws, |ws|);
  }

  lemma {:induction false} RuleWriteSits(rules: seq<LegacyRule>, from: nat, e: Env, i: nat)
    requires from <= i < |rules| && RulesComplete(rules)
    ensures |RuleWrites(rules, from, e)| == |rules| - from
    ensures RuleWrites(rules, from, e)[i - from] == RuleWriteAt(rules[i], i, e)
    decreases |rules| - from
  {
    if from < i {
      RuleWriteSits(rules, from + 1, e, i);
    } else if from + 1 < |rules| {
      RuleWriteSits(rules, from + 1, e, from + 1);
    }
  }

  /** Where the rule writes start. */
  function RulesFrom(src: Source): nat
    requires src.hosts != []
  {
    |SettingWrites(src)| + |src.users|
  }

  /** The row writes in their four parts. */
  lemma RowParts(src: Source, e: Env)
    requires src.hosts != [] && UsersComplete(src.users) && RulesComplete(src.rules)
    ensures RowWrites(src, e) == AccountWrites(src) + (RuleWrites(src.rules, 0, e) + PairWrites(src.hosts[0], e.now))
    ensures |AccountWrites(src)| == RulesFrom(src) && |RuleWrites(src.rules, 0, e)| == |src.rules|
  {
    if src.users != [] {
      UserWriteAt(src.users, 0);
    }
    if src.rules != [] {
      RuleWriteSits(src.rules, 0, e, 0);
    }
  }

  lemma RowRules(src: Source, e: Env, j: nat)
    requires src.hosts != [] && UsersComplete(src.users) && RulesComplete(src.rules) && j < |RowWrites(src, e)|
    ensures var n := RulesFrom(src);
            RowWrites(src, e)[j].PutRule? <==> n <= j < n + |src.rules|
    ensures var n := RulesFrom(src);
            n <= j < n + |src.rules| ==> RowWrites(src, e)[j] == RuleWriteAt(src.rules[j - n], j - n, e)
  {
    var n := RulesFrom(src);
    RowParts(src, e);
    RowUsers(src, e, j);
    if n <= j < n + |src.rules| {
      RuleWriteSits(src.rules, 0, e, j - n);
    }
  }

  lemma RowEnds(src: Source, e: Env, j: nat)
    requires src.hosts != [] && UsersComplete(src.users) && RulesComplete(src.rules)
    ensures |RowWrites(src, e)| == RulesFrom(src) + |src.rules| + |PairWrites(src.hosts[0], e.now)|
    ensures var n := RulesFrom(src) + |src.rules|;
            n <= j < |RowWrites(src, e)| ==> RowWrites(src, e)[j] == PairWrites(src.hosts[0], e.now)[j - n]
    ensures j < |SettingWrites(src)| ==> RowWrites(src, e)[j] == SettingWrites(src)[j]
  {
    RowParts(src, e);
  }

  function RuleName(src: Source, e: Env, i: nat): string
    requires i < |src.rules|
  {
    if src.rules[i].name == "" then "legacy-" + e.number(i + 1) else src.rules[i].name
  }

  predicate LastOfRule(src: Source, e: Env, i: nat)
    requires i < |src.rules|
  {
    forall j | i < j < |src.rules| :: RuleName(src, e, j) != RuleName(src, e, i)
  }

  /** The writes that concern a rule, and which rule. */
  lemma RuleKeyAt(src: Source, e: Env, j: nat)
    requires src.hosts != [] && UsersComplete(src.users) && RulesComplete(src.rules) && j < |RowWrites(src, e)|
    ensures var n := RulesFrom(src);
            if n <= j < n + |src.rules| then KeyOf(RowWrites(src, e)[j]) == RuleKeyed(RuleName(src, e, j - n))
            else !KeyOf(RowWrites(src, e)[j]).RuleKeyed?
  {
    RowRules(src, e, j);
  }

  lemma ImportedRule(t: Target, src: Source, e: Env, i: nat)
    requires src.hosts != [] && UsersComplete(src.users) && RulesComplete(src.rules)
    requires i < |src.rules| && LastOfRule(src, e, i)
    ensures var r := src.rules[i];
            Lookup(PutAll(t, RowWrites(src, e)).rules, RuleName(src, e, i)) ==
            Some(RuleLine(r.action, if r.network == "" then r.cidr else r.network))
  {
    var ws, at := RowWrites(src, e), RulesFrom(src) + i;
    RowEnds(src, e, 0);
    RowRules(src, e, at);
    RuleKeyAt(src, e, at);
    forall j | at < j < |ws|
      ensures KeyOf(ws[j]) != KeyOf(ws[at])
    {
      RuleKeyAt(src, e, j);
    }
    LastAt(t, ws, at);
  }

  lemma OtherRule(t: Target, src: Source, e: Env, name: string)
    requires src.hosts != [] && UsersComplete(src.users) && RulesComplete(src.rules)
    requires forall i | 0 <= i < |src.rules| :: RuleName(src, e, i) != name
    ensures Lookup(PutAll(t, RowWrites(src, e)).rules, name) == Lookup(t.rules, name)
  {
    var ws := RowWrites(src, e);
    forall j | 0 <= j < |ws|
      ensures KeyOf(ws[j]) != RuleKeyed(name)
    {
      RuleKeyAt(src, e, j);
    }
    NeverAt(t, ws, RuleKeyed(name));
  }

  lemma ImportedSettings(t: Target, src: Source, e: Env)
    requires src.hosts != [] && UsersComplete(src.users) && RulesComplete(src.rules)
    ensures var w := PutAll(t, RowWrites(src, e));
            && w.hostname == src.hosts[0].hostname
            && w.listen == if src.listen == "" then t.listen else src.listen
  {
    var ws := RowWrites(src, e);
    RowEnds(src, e, 0);
    forall j | 0 <= j < |ws|
      ensures KeyOf(ws[j]) == HostnameKey ==> j == 0
      ensures KeyOf(ws[j]) == ListenKey ==> j == 1 && src.listen != ""
      ensures j < |SettingWrites(src)| ==> ws[j] == SettingWrites(src)[j]
    {
      RowEnds(src, e, j);
      RowRules(src, e, j);
      RowUsers(src, e, j);
    }
    LastAt(t, ws, 0);
    if src.listen == "" {
      NeverAt(t, ws, ListenKey);
    } else {
      LastAt(t, ws, 1);
    }
  }

  /** The record an imported pair gets, whatever the record before was. */
  ghost predicate RecordsPair(m: Option<Metadata>, was: Option<Metadata>, b: Bundle, hostname: string) {
    && m.Some? && m.value.state == Active && m.value.source == Provided && m.value.mode == ManualMode
    && m.value.hostname == hostname && m.value.fingerprint == Some(b.leaf) && m.value.active == Some(b)
    && m.value.cert == InRevision(b, CertPem) && m.value.key == InRevision(b, KeyPem) && !m.value.failed
    && SameKept(m, was)
  }

  /** Only the two writes of the pair, the last ones, concern it. */
  lemma PairLast(src: Source, e: Env, j: nat)
    requires src.hosts != [] && UsersComplete(src.users) && RulesComplete(src.rules)
    requires j < RulesFrom(src) + |src.rules|
    ensures j < |RowWrites(src, e)| && KeyOf(RowWrites(src, e)[j]) != TlsKey && KeyOf(RowWrites(src, e)[j]) != MetaKey
  {
    RowEnds(src, e, j);
    RowRules(src, e, j);
    RowUsers(src, e, j);
  }

  lemma ImportedPair(t: Target, src: Source, e: Env)
    requires src.hosts != [] && RowsComplete(src, e)
    ensures var w, host := PutAll(t, RowWrites(src, e)), src.hosts[0];
            match host.pair
            case Pair(b) => w.tls == Some(b) && RecordsPair(w.meta, t.meta, b, host.hostname)
            case _ => w.tls == t.tls && w.meta == t.meta
  {
    var ws, n := RowWrites(src, e), RulesFrom(src) + |src.rules|;
    RowEnds(src, e, n);
    RowEnds(src, e, n + 1);
    forall j | 0 <= j < n
      ensures KeyOf(ws[j]) != TlsKey && KeyOf(ws[j]) != MetaKey
    {
      PairLast(src, e, j);
    }
    if src.hosts[0].pair.Pair? {
      LastAt(t, ws, n);
      NeverAt(t, ws[..n + 1], MetaKey);
      assert ws[..|ws| - 1] == ws[..n + 1];
    } else {
      NeverAt(t, ws, TlsKey);
      MetaUnwritten(t, ws);
    }
  }

  lemma {:induction false} MetaUnwritten(t: Target, ws: seq<Write>)
    requires forall j | 0 <= j < |ws| :: KeyOf(ws[j]) != MetaKey
    ensures PutAll(t, ws).meta == t.meta
    decreases ws
  {
    if ws != [] {
      MetaUnwritten(t, ws[..|ws| - 1]);
      assert KeyOf(ws[|ws| - 1]) != MetaKey;
    }
  }

  /**
   A run that goes through leaves the host name and the listen address of the source, every legacy user
   active with its last password, every rule with its last line, and the given pair published and
   recorded; other users and rules, and what the source does not give, stay as they were. The
   configuration of exactly this is current and recorded.
   */
  lemma CompletedImport(t: Target, src: Source, e: Env)
    requires !t.marker && Whole(t, src, e).marker
    ensures var w := Whole(t, src, e);
            && w.config == w.revision == Some(FilesFrom(w)) && RowsValid(w, e.lib) && src.hosts != []
            && w.hostname == src.hosts[0].hostname
            && w.listen == (if src.listen == "" then t.listen else src.listen)
            && (forall i | 0 <= i < |src.users| && LastOfName(src.users, i) ::
                  var u := src.users[i];
                  Lookup(w.users, u.username) == Some(User(u.username, u.password, UserActive)))
            && (forall name | (forall i | 0 <= i < |src.users| :: src.users[i].username != name) ::
                  Lookup(w.users, name) == Lookup(t.users, name))
            && (forall i | 0 <= i < |src.rules| && LastOfRule(src, e, i) ::
                  var r := src.rules[i];
                  Lookup(w.rules, RuleName(src, e, i)) ==
                  Some(RuleLine(r.action, if r.network == "" then r.cidr else r.network)))
            && (forall name | (forall i | 0 <= i < |src.rules| :: RuleName(src, e, i) != name) ::
                  Lookup(w.rules, name) == Lookup(t.rules, name))
            && match src.hosts[0].pair
               case Pair(b) => w.tls == Some(b) && RecordsPair(w.meta, t.meta, b, w.hostname)
               case _ => w.tls == t.tls && w.meta == t.meta
  {
    WholeFromRows(t, src, e);
    RowsKeepMarker(t, RowWrites(src, e));
    ImportedUsers(t, src, e);
    ImportedRules(t, src, e);
    ImportedSettings(t, src, e);
    ImportedPair(t, src, e);
  }

  lemma ImportedUsers(t: Target, src: Source, e: Env)
    requires src.hosts != [] && UsersComplete(src.users)
    ensures var rows := PutAll(t, RowWrites(src, e));
            && (forall i | 0 <= i < |src.users| && LastOfName(src.users, i) ::
                  var u := src.users[i];
                  Lookup(rows.users, u.username) == Some(User(u.username, u.password, UserActive)))
            && (forall name | (forall i | 0 <= i < |src.users| :: src.users[i].username != name) ::
                  Lookup(rows.users, name) == Lookup(t.users, name))
  {
    var rows := PutAll(t, RowWrites(src, e));
    forall i | 0 <= i < |src.users| && LastOfName(src.users, i)
      ensures var u := src.users[i]; Lookup(rows.users, u.username) == Some(User(u.username, u.password, UserActive))
    {
      ImportedUser(t, src, e, i);
    }
    forall name | forall i | 0 <= i < |src.users| :: src.users[i].username != name
      ensures Lookup(rows.users, name) == Lookup(t.users, name)
    {
      OtherUser(t, src, e, name);
    }
  }

  lemma ImportedRules(t: Target, src: Source, e: Env)
    requires src.hosts != [] && UsersComplete(src.users) && RulesComplete(src.rules)
    ensures var rows := PutAll(t, RowWrites(src, e));
            && (forall i | 0 <= i < |src.rules| && LastOfRule(src, e, i) ::
                  var r := src.rules[i];
                  Lookup(rows.rules, RuleName(src, e, i)) ==
                  Some(RuleLine(r.action, if r.network == "" then r.cidr else r.network)))
            && (forall name | (forall i | 0 <= i < |src.rules| :: RuleName(src, e, i) != name) ::
                  Lookup(rows.rules, name) == Lookup(t.rules, name))
  {
    var rows := PutAll(t, RowWrites(src, e));
    forall i | 0 <= i < |src.rules| && LastOfRule(src, e, i)
      ensures var r := src.rules[i];
              Lookup(rows.rules, RuleName(src, e, i)) ==
              Some(RuleLine(r.action, if r.network == "" then r.cidr else r.network))
    {
      ImportedRule(t, src, e, i);
    }
    forall name | forall i | 0 <= i < |src.rules| :: RuleName(src, e, i) != name
      ensures Lookup(rows.rules, name) == Lookup(t.rules, name)
    {
      OtherRule(t, src, e, name);
    }
  }

  // ----- The import

  function ViewOf(db: Db, tls: TlsRevision, config: Option<Files>, marker: bool): Target {
    Target(db.hostname, db.listen, ByName(db), db.rules, db.meta, tls, config, db.revision, marker)
  }

  lemma {:induction false} PutConcat(t: Target, a: seq<Write>, b: seq<Write>)
    ensures PutAll(t, a + b) == PutAll(PutAll(t, a), b)
    decreases b
  {
    if b == [] {
      assert a + b == a;
    } else {
      assert (a + b)[..|a + b| - 1] == a + b[..|b| - 1];
      PutConcat(t, a, b[..|b| - 1]);
    }
  }

  /** How a part of the import ended. */
  datatype Progress = Going | Stopped | Refused

  function Least(a: nat, b: nat): nat {
    if a < b then a else b
  }

  /** The part `part` was written as far as the writes left allow. */
  ghost predicate Advanced(t: Target, t': Target, part: seq<Write>, complete: bool, left: nat, rest: nat, p: Progress) {
    && t' == PutAll(t, part[..Least(left, |part|)]) && rest == left - Least(left, |part|)
    && (p.Stopped? <==> left < |part|) && (p.Refused? <==> left >= |part| && !complete)
  }

  /** Two parts in a row. */
  lemma Chain(t: Target, t1: Target, t2: Target, a: seq<Write>, b: seq<Write>, complete: bool,
              left: nat, rest: nat, rest2: nat, p: Progress)
    requires Advanced(t, t1, a, true, left, rest, Going) && Advanced(t1, t2, b, complete, rest, rest2, p)
    ensures Advanced(t, t2, a + b, complete, left, rest2, p)
  {
    var n := Least(rest, |b|);
    assert a[..|a|] == a && (a + b)[..|a| + n] == a + b[..n];
    PutConcat(t, a, b[..n]);
  }

  /** A first part that did not go through ends the whole. */
  lemma ChainEnds(t: Target, t': Target, a: seq<Write>, b: seq<Write>, complete: bool, all: bool,
                  left: nat, rest: nat, p: Progress)
    requires Advanced(t, t', a, complete, left, rest, p) && !p.Going?
    requires !complete ==> b == [] && !all
    ensures Advanced(t, t', a + b, all, left, rest, p)
  {
    if p.Stopped? {
      assert (a + b)[..left] == a[..left];
    } else {
      assert a + b == a;
    }
  }

  /** Where a part ends after `k` of its writes. */
  lemma EndsAt(t: Target, t': Target, ws: seq<Write>, k: nat, complete: bool, left: nat, rest: nat, p: Progress)
    requires k <= |ws| && k <= left && rest == left - k && t' == PutAll(t, ws[..k])
    requires if p.Stopped? then rest == 0 && k < |ws| else k == |ws| && (p.Refused? <==> !complete)
    ensures Advanced(t, t', ws, complete, left, rest, p)
  {
  }

  lemma LoginsByName(db: Db)
    requires WellKept(db.users, db.nextId)
    ensures ActiveOf(ByName(db)) == ActiveLogins(db)
  {
    forall n
      ensures n in ActiveOf(ByName(db)) <==> n in ActiveLogins(db)
      ensures n in ActiveLogins(db) ==> ActiveOf(ByName(db))[n] == ActiveLogins(db)[n]
    {
      LoginsBelowExact(db.users, db.nextId, n);
      NamedExact(db.users, db.nextId, n);
    }
  }

  /** The rendering of a listing depends on the rows by name alone. */
  lemma RowsRender(s: Snapshot, db: Db, t: Target, lib: Library)
    requires Lists(s, db) && WellKept(db.users, db.nextId) && t == ViewOf(db, t.tls, t.config, t.marker)
    ensures Config.Valid(s, lib) <==> RowsValid(t, lib)
    ensures FilesOf(s) == FilesFrom(t)
  {
    ListedLogins(s, db);
    LoginsByName(db);
    ListedPass(s, db, lib);
    UsersOkByName(db, lib);
  }

  lemma UsersOkByName(db: Db, lib: Library)
    requires WellKept(db.users, db.nextId)
    ensures (forall i | i in db.users :: UserOk(db.users[i], lib)) <==>
              (forall n | n in ByName(db) :: UserOk(ByName(db)[n], lib))
  {
    forall i | i in db.users
      ensures db.users[i].username in ByName(db) && ByName(db)[db.users[i].username] == db.users[i]
    {
      NamedExact(db.users, db.nextId, db.users[i].username);
    }
    forall n | n in ByName(db)
      ensures exists i :: i in db.users && db.users[i] == ByName(db)[n]
    {
      NamedExact(db.users, db.nextId, n);
    }
  }

  lemma NextUser(users: seq<LegacyUser>, ws: seq<Write>, k: nat)
    requires k < |users| && k <= |ws| && ws[k..] == UserWrites(users[k..])
    ensures users[k].username == "" || users[k].password == "" ==> k == |ws|
    ensures users[k].username != "" && users[k].password != "" ==>
              && k < |ws| && ws[k] == PutUser(User(users[k].username, users[k].password, UserActive))
              && ws[k + 1..] == UserWrites(users[k + 1..])
  {
    assert users[k..][1..] == users[k + 1..];
    if k < |ws| {
      assert ws[k] == ws[k..][0] && ws[k..][1..] == ws[k + 1..];
    }
  }

  lemma {:induction false} RulesAllWritten(rules: seq<LegacyRule>, i: nat, e: Env)
    requires i <= |rules| && |RuleWrites(rules, i, e)| == |rules| - i
    ensures forall j | i <= j < |rules| :: ActionOk(rules[j].action)
    decreases |rules| - i
  {
    if i < |rules| && ActionOk(rules[i].action) {
      RulesAllWritten(rules, i + 1, e);
    }
  }

  lemma {:induction false} UsersAllWritten(users: seq<LegacyUser>)
    requires |UserWrites(users)| == |users|
    ensures UsersComplete(users)
  {
    if users != [] && users[0].username != "" && users[0].password != "" {
      UsersAllWritten(users[1..]);
      assert forall i | 0 < i < |users| :: users[i] == users[1..][i - 1];
    }
  }

  lemma NextRule(rules: seq<LegacyRule>, e: Env, ws: seq<Write>, i: nat)
    requires i < |rules| && i <= |ws| && ws[i..] == RuleWrites(rules, i, e)
    ensures !ActionOk(rules[i].action) ==> i == |ws|
    ensures ActionOk(rules[i].action) ==>
              i < |ws| && ws[i] == RuleWriteAt(rules[i], i, e) && ws[i + 1..] == RuleWrites(rules, i + 1, e)
  {
    if i < |ws| {
      assert ws[i] == ws[i..][0] && ws[i..][1..] == ws[i + 1..];
    }
  }

  class Importer {
    const store: Store
    var tls: TlsRevision
    var config: Option<Files>
    var marker: bool

    constructor (store: Store)
      ensures this.store == store && tls == None && config == None && !marker
    {
      this.store := store;
      tls := None;
      config := None;
      marker := false;
    }

    function View(): Target
      reads this, store
    {
      ViewOf(store.db, tls, config, marker)
    }

    method ImportSettings(src: Source, left: nat) returns (rest: nat, p: Progress)
      requires store.Valid() && src.hosts != []
      modifies store
      ensures store.Valid() && Advanced(old(View()), View(), SettingWrites(src), true, left, rest, p)
    {
      ghost var t, ws := View(), SettingWrites(src);
      assert PutAll(t, ws[..0]) == t;
      rest := left;
      if rest == 0 {
        return rest, Stopped;
      }
      var _ := store.SetHostname(src.hosts[0].hostname, false);
      rest := rest - 1;
      PutOneMore(t, ws, 0);
      if src.listen != "" {
        if rest == 0 {
          return rest, Stopped;
        }
        store.SetListenAddress(src.listen);
        rest := rest - 1;
        PutOneMore(t, ws, 1);
      }
      p := Going;
    }

    method ImportUsers(users: seq<LegacyUser>, left: nat) returns (rest: nat, p: Progress)
      requires store.Valid()
      modifies store
      ensures store.Valid() && Advanced(old(View()), View(), UserWrites(users), UsersComplete(users), left, rest, p)
    {
      ghost var t, ws := View(), UserWrites(users);
      rest := left;
      for k := 0 to |users|
        invariant store.Valid() && k <= |ws| && ws[k..] == UserWrites(users[k..])
        invariant k <= left && rest == left - k && View() == PutAll(t, ws[..k])
      {
        NextUser(users, ws, k);
        if users[k].username == "" || users[k].password == "" {
          EndsAt(t, View(), ws, k, false, left, rest, Refused);
          return rest, Refused;
        }
        if rest == 0 {
          EndsAt(t, View(), ws, k, UsersComplete(users), left, rest, Stopped);
          return rest, Stopped;
        }
        PutOneMore(t, ws, k);
        ImportUser(users[k]);
        rest := rest - 1;
      }
      UsersAllWritten(users);
      EndsAt(t, View(), ws, |ws|, true, left, rest, Going);
      p := Going;
    }

    method ImportUser(u: LegacyUser)
      requires store.Valid()
      modifies store
      ensures store.Valid() && View() == Put(old(View()), PutUser(User(u.username, u.password, UserActive)))
    {
      store.UpsertUser(User(u.username, u.password, UserActive));
    }

    method ImportRule(r: LegacyRule, i: nat, e: Env, left: nat) returns (p: Progress)
      requires store.Valid()
      modifies store
      ensures store.Valid() && (p.Refused? <==> !ActionOk(r.action))
      ensures p.Stopped? <==> ActionOk(r.action) && left == 0
      ensures View() == if p.Going? then Put(old(View()), RuleWriteAt(r, i, e)) else old(View())
    {
      var name := r.name;
      if name == "" {
        name := "legacy-" + e.number(i + 1);
      }
      var network := r.network;
      if network == "" {
        network := r.cidr;
      }
      if left == 0 && ActionOk(r.action) {
        return Stopped;
      }
      var s := store.UpsertRule(Rule(name, r.action, network));
      p := if s.Failed? then Refused else Going;
    }

    method ImportRules(rules: seq<LegacyRule>, e: Env, left: nat) returns (rest: nat, p: Progress)
      requires store.Valid()
      modifies store
      ensures store.Valid()
      ensures Advanced(old(View()), View(), RuleWrites(rules, 0, e), RulesComplete(rules), left, rest, p)
    {
      ghost var t, ws := View(), RuleWrites(rules, 0, e);
      rest := left;
      for i := 0 to |rules|
        invariant store.Valid() && i <= |ws| && ws[i..] == RuleWrites(rules, i, e)
        invariant i <= left && rest == left - i && View() == PutAll(t, ws[..i])
      {
        NextRule(rules, e, ws, i);
        p := ImportRule(rules[i], i, e, rest);
        if !p.Going? {
          EndsAt(t, View(), ws, i, RulesComplete(rules), left, rest, p);
          return;
        }
        rest := rest - 1;
        PutOneMore(t, ws, i);
      }
      RulesAllWritten(rules, 0, e);
      EndsAt(t, View(), ws, |ws|, true, left, rest, Going);
      p := Going;
    }

    /** The import of the pair without a coordinating publisher. */
    method ImportPair(host: LegacyHost, now: int, left: nat) returns (rest: nat, p: Progress)
      requires store.Valid()
      modifies this`tls, store
      ensures store.Valid()
      ensures Advanced(old(View()), View(), PairWrites(host, now), PairComplete(host, now), left, rest, p)
    {
      ghost var t, ws := View(), PairWrites(host, now);
      assert PutAll(t, ws[..0]) == t;
      rest := left;
      match host.pair {
        case NoPair => return rest, Going;
        case Unreadable => return rest, Refused;
        case Pair(b) =>
          if !Validated(b, host.hostname, ManualMode, now) {
            return rest, Refused;
          }
          if rest == 0 {
            return rest, Stopped;
          }
          PutOneMore(t, ws, 0);
          tls := Some(b);
          rest := rest - 1;
          if rest == 0 {
            return rest, Stopped;
          }
          PutOneMore(t, ws, 1);
          var _ := store.SaveTLSMetadata(Imported(Current(store.db.meta), b, host.hostname), false, Manager,
                                         Check(ManualMode, now));
          rest := rest - 1;
          p := Going;
      }
    }

    method Activate(e: Env, left: nat) returns (p: Progress)
      requires store.Valid() && !marker
      modifies this, store
      ensures store.Valid()
      ensures View() == if RowsValid(old(View()), e.lib) then Finished(old(View()), left) else old(View())
    {
      var s := store.ReadRows();
      RowsRender(s, store.db, View(), e.lib);
      var files := RenderFiles(s, e.lib);
      if files.Err? {
        return Refused;
      }
      if left == 0 {
        return Stopped;
      }
      config := Some(files.value);
      if left == 1 {
        return Stopped;
      }
      var _ := store.SetActiveRevision(Some(files.value), false);
      if left == 2 {
        return Stopped;
      }
      marker := true;
      p := Going;
    }

    method ImportAccounts(src: Source, cut: nat) returns (left: nat, p: Progress)
      requires store.Valid() && src.hosts != []
      modifies store
      ensures store.Valid()
      ensures Advanced(old(View()), View(), AccountWrites(src), UsersComplete(src.users), cut, left, p)
    {
      ghost var t := View();
      left, p := ImportSettings(src, cut);
      if !p.Going? {
        ChainEnds(t, View(), SettingWrites(src), UserWrites(src.users), true, UsersComplete(src.users), cut, left, p);
        return;
      }
      ghost var t1, was := View(), left;
      left, p := ImportUsers(src.users, left);
      Chain(t, t1, View(), SettingWrites(src), UserWrites(src.users), UsersComplete(src.users), cut, was, left, p);
    }

    method ImportLater(src: Source, e: Env, cut: nat) returns (left: nat, p: Progress)
      requires store.Valid() && src.hosts != []
      modifies this`tls, store
      ensures store.Valid()
      ensures Advanced(old(View()), View(), LaterWrites(src, e),
                       RulesComplete(src.rules) && PairComplete(src.hosts[0], e.now), cut, left, p)
    {
      ghost var t, first := View(), RuleWrites(src.rules, 0, e);
      ghost var more := if RulesComplete(src.rules) then PairWrites(src.hosts[0], e.now) else [];
      left, p := ImportRules(src.rules, e, cut);
      if !p.Going? {
        ChainEnds(t, View(), first, more, RulesComplete(src.rules),
                  RulesComplete(src.rules) && PairComplete(src.hosts[0], e.now), cut, left, p);
        return;
      }
      ghost var t1, was := View(), left;
      left, p := ImportPair(src.hosts[0], e.now, left);
      Chain(t, t1, View(), first, more, PairComplete(src.hosts[0], e.now), cut, was, left, p);
    }

    method ImportRows(src: Source, e: Env, cut: nat) returns (left: nat, p: Progress)
      requires store.Valid() && src.hosts != []
      modifies this`tls, store
      ensures store.Valid()
      ensures Advanced(old(View()), View(), RowWrites(src, e), RowsComplete(src, e), cut, left, p)
    {
      ghost var t, first := View(), AccountWrites(src);
      ghost var more := if UsersComplete(src.users) then LaterWrites(src, e) else [];
      left, p := ImportAccounts(src, cut);
      if !p.Going? {
        ChainEnds(t, View(), first, more, UsersComplete(src.users), RowsComplete(src, e), cut, left, p);
        return;
      }
      ghost var t1, was := View(), left;
      left, p := ImportLater(src, e, left);
      Chain(t, t1, View(), first, more, RowsComplete(src, e), cut, was, left, p);
    }

    method Run(src: Source, e: Env, cut: nat) returns (p: Progress)
      requires store.Valid()
      modifies this, store
      ensures store.Valid() && View() == After(old(View()), src, e, cut)
    {
      if marker {
        return Going;
      }
      if !Usable(src, e) {
        return Refused;
      }
      var left;
      left, p := ImportRows(src, e, cut);
      ghost var ws := RowWrites(src, e);
      assert ws[..|ws|] == ws;
      if p.Going? {
        p := Activate(e, left);
      }
    }
  }
}
