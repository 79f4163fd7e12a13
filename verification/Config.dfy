/**
 The renderer of internal/config/config.go and the revision framing of
 internal/config/materializer.go:37-51.

 `Files` gives the four files by what they say; `TextFiles` gives their text. Library checks
 (addresses, names, networks) and library printing (quoting, paths) come as the functions of `Library`.
 */
module Config {
  import opened Domain
  import opened Strings
  import opened Wrappers

  datatype RuleLine = RuleLine(action: string, network: string)

  /** What one file says; rows are keyed by the name they are sorted by. */
  datatype Content =
    | Vpn(listen: string)
    | Hosts(hostname: string, cert: PemPath, key: PemPath)
    | Credentials(logins: map<string, string>)
    | Rules(rules: map<string, RuleLine>)

  datatype FileName = VpnToml | HostsToml | CredentialsToml | RulesToml

  type Files = map<FileName, Content>

  datatype Library = Library(
    listenOk: string -> bool, hostnameOk: string -> bool, nameOk: string -> bool, networkOk: string -> bool,
    pathOk: PemPath -> bool, quote: string -> string, path: PemPath -> string)

  const CredentialsFile := "credentials.toml"
  const HostsFile := "hosts.toml"
  const RulesFile := "rules.toml"
  const VpnFile := "vpn.toml"

  // ----- Validation

  predicate DistinctUsers(users: seq<User>) {
    forall i, j | 0 <= i < j < |users| :: users[i].username != users[j].username
  }

  predicate DistinctRules(rules: seq<Rule>) {
    forall i, j | 0 <= i < j < |rules| :: rules[i].name != rules[j].name
  }

  predicate UserOk(u: User, lib: Library) {
    lib.nameOk(u.username) && 12 <= |u.credential| <= 512
  }

  predicate RuleOk(r: Rule, lib: Library) {
    lib.nameOk(r.name) && (r.action == "allow" || r.action == "deny") && lib.networkOk(r.network)
  }

  predicate HeadOk(listen: string, hostname: string, cert: PemPath, key: PemPath, lib: Library) {
    && lib.listenOk(listen)
    && (hostname == "" || lib.hostnameOk(hostname))
    && (cert.NoPath? <==> key.NoPath?)
    && (cert.InRevision? ==> lib.pathOk(cert) && lib.pathOk(key))
  }

  predicate RowsPass(users: seq<User>, rules: seq<Rule>, lib: Library) {
    && (forall i | 0 <= i < |users| :: UserOk(users[i], lib))
    && DistinctUsers(users)
    && (forall i | 0 <= i < |rules| :: RuleOk(rules[i], lib))
  }

  predicate Valid(s: Snapshot, lib: Library) {
    HeadOk(s.listen, s.hostname, s.cert, s.key, lib) && RowsPass(s.users, s.rules, lib)
  }

  method Validate(s: Snapshot, lib: Library) returns (ok: bool)
    ensures ok <==> Valid(s, lib)
    ensures ok ==>
              && (s.cert.NoPath? <==> s.key.NoPath?)
              && (forall i | 0 <= i < |s.users| :: 12 <= |s.users[i].credential| <= 512)
              && (forall i, j | 0 <= i < j < |s.users| :: s.users[i].username != s.users[j].username)
              && (forall i | 0 <= i < |s.rules| :: s.rules[i].action in {"allow", "deny"})
  {
    if !lib.listenOk(s.listen) || (s.hostname != "" && !lib.hostnameOk(s.hostname)) ||
       s.cert.NoPath? != s.key.NoPath? ||
       (s.cert.InRevision? && (!lib.pathOk(s.cert) || !lib.pathOk(s.key)))
    {
      return false;
    }
    var seen := {};
    for i := 0 to |s.users|
      invariant seen == set j | 0 <= j < i :: s.users[j].username
      invariant forall j | 0 <= j < i :: UserOk(s.users[j], lib)
      invariant DistinctUsers(s.users[..i])
    {
      var u := s.users[i];
      if !lib.nameOk(u.username) || |u.credential| < 12 || |u.credential| > 512 {
        return false;
      }
      if u.username in seen {
        return false;
      }
      seen := seen + {u.username};
    }
    assert s.users[..|s.users|] == s.users;
    for i := 0 to |s.rules|
      invariant forall j | 0 <= j < i :: RuleOk(s.rules[j], lib)
    {
      var r := s.rules[i];
      if !lib.nameOk(r.name) || (r.action != "allow" && r.action != "deny") || !lib.networkOk(r.network) {
        return false;
      }
    }
    ok := true;
  }

  // ----- What is rendered

  /** Name and credential of every active user. */
  function Logins(users: seq<User>): map<string, string> {
    if users == [] then map[]
    else
      var u := users[|users| - 1];
      var before := Logins(users[..|users| - 1]);
      if u.status.UserActive? then before[u.username := u.credential] else before
  }

  function RuleLines(rules: seq<Rule>): map<string, RuleLine> {
    if rules == [] then map[]
    else
      var r := rules[|rules| - 1];
      RuleLines(rules[..|rules| - 1])[r.name := RuleLine(r.action, r.network)]
  }

  function FilesOf(s: Snapshot): Files {
    map[VpnToml := Vpn(s.listen), HostsToml := Hosts(s.hostname, s.cert, s.key),
        CredentialsToml := Credentials(Logins(s.users)), RulesToml := Rules(RuleLines(s.rules))]
  }

  // ----- Sorted listings

  type Row<V> = (string, V)

  predicate Ascending<V>(rows: seq<Row<V>>) {
    forall i, j | 0 <= i < j < |rows| :: Less(rows[i].0, rows[j].0)
  }

  function ToMap<V>(rows: seq<Row<V>>): map<string, V> {
    if rows == [] then map[]
    else ToMap(rows[..|rows| - 1])[rows[|rows| - 1].0 := rows[|rows| - 1].1]
  }

  lemma {:induction false} ToMapKeys<V>(rows: seq<Row<V>>, k: string)
    ensures k in ToMap(rows) <==> exists i :: 0 <= i < |rows| && rows[i].0 == k
  {
    if rows != [] {
      var init := rows[..|rows| - 1];
      ToMapKeys(init, k);
      if k in ToMap(init) {
        var i :| 0 <= i < |init| && init[i].0 == k;
        assert rows[i].0 == k;
      }
      if i :| 0 <= i < |rows| && rows[i].0 == k && i < |init| {
        assert init[i].0 == k;
      }
    }
  }

  predicate Greatest(k: string, keys: set<string>) {
    k in keys && forall other | other in keys && other != k :: Less(other, k)
  }

  lemma GreatestUnique(a: string, b: string, keys: set<string>)
    requires Greatest(a, keys) && Greatest(b, keys)
    ensures a == b
  {
    if a != b {
      LessAsymmetric(a, b);
    }
  }

  lemma LastAbove<V>(rows: seq<Row<V>>, other: string)
    requires rows != [] && Ascending(rows) && other in ToMap(rows[..|rows| - 1])
    ensures Less(other, rows[|rows| - 1].0) && other != rows[|rows| - 1].0
  {
    var init := rows[..|rows| - 1];
    ToMapKeys(init, other);
    var i :| 0 <= i < |init| && init[i].0 == other;
    assert Less(rows[i].0, rows[|rows| - 1].0);
    LessIrreflexive(other);
  }

  lemma AddThenRemove<K, V>(m: map<K, V>, k: K, v: V)
    requires k !in m
    ensures m[k := v] - {k} == m
  {
  }

  lemma LastIsGreatest<V>(rows: seq<Row<V>>)
    requires rows != [] && Ascending(rows)
    ensures var k := rows[|rows| - 1].0;
            Greatest(k, ToMap(rows).Keys) && ToMap(rows[..|rows| - 1]) == ToMap(rows) - {k}
    ensures Ascending(rows[..|rows| - 1])
  {
    var init, last := rows[..|rows| - 1], rows[|rows| - 1];
    forall other | other in ToMap(init)
      ensures Less(other, last.0) && other != last.0
    {
      LastAbove(rows, other);
    }
    AddThenRemove(ToMap(init), last.0, last.1);
  }

  /** Two ascending listings of one map are the same listing. */
  lemma {:induction false} ListingUnique<V>(a: seq<Row<V>>, b: seq<Row<V>>)
    requires Ascending(a) && Ascending(b) && ToMap(a) == ToMap(b)
    ensures a == b
  {
    if a == [] || b == [] {
      if a != [] {
        LastIsGreatest(a);
      }
      if b != [] {
        LastIsGreatest(b);
      }
    } else {
      LastIsGreatest(a);
      LastIsGreatest(b);
      var x, y := a[|a| - 1], b[|b| - 1];
      GreatestUnique(x.0, y.0, ToMap(a).Keys);
      assert x.1 == ToMap(a)[x.0] && y.1 == ToMap(b)[y.0];
      ListingUnique(a[..|a| - 1], b[..|b| - 1]);
      assert a == a[..|a| - 1] + [x] && b == b[..|b| - 1] + [y];
    }
  }

  /** The listing of a map in ascending order of its keys. */
  ghost function Listing<V>(m: map<string, V>): (rows: seq<Row<V>>)
    ensures Ascending(rows) && ToMap(rows) == m
    decreases |m|
  {
    if m == map[] then []
    else
      GreatestExists(m.Keys);
      var k :| Greatest(k, m.Keys);
      assert (m - {k}).Keys == m.Keys - {k};
      Appended(Listing(m - {k}), k, m[k]);
      Listing(m - {k}) + [(k, m[k])]
  }

  lemma Appended<V>(init: seq<Row<V>>, k: string, v: V)
    requires Ascending(init) && forall other | other in ToMap(init) :: Less(other, k)
    ensures Ascending(init + [(k, v)]) && ToMap(init + [(k, v)]) == ToMap(init)[k := v]
  {
    var rows := init + [(k, v)];
    assert rows[..|init|] == init;
    forall i | 0 <= i < |init|
      ensures Less(init[i].0, k)
    {
      ToMapKeys(init, init[i].0);
    }
  }

  lemma {:induction false} GreatestExists(keys: set<string>)
    requires keys != {}
    ensures exists k :: Greatest(k, keys)
  {
    var x :| x in keys;
    var rest := keys - {x};
    assert rest + {x} == keys;
    if rest == {} {
      assert keys == {x};
      assert Greatest(x, keys);
    } else {
      GreatestExists(rest);
      var k :| Greatest(k, rest);
      GreatestOfMore(k, x, rest);
    }
  }

  lemma GreatestOfMore(k: string, x: string, rest: set<string>)
    requires Greatest(k, rest) && x !in rest
    ensures Greatest(if Less(k, x) then x else k, rest + {x})
  {
    LessTotal(k, x);
    if Less(k, x) {
      forall other | other in rest
        ensures Less(other, x)
      {
        if other != k {
          LessTransitive(other, k, x);
        }
      }
    }
  }

  // ----- Text

  function LoginText(row: Row<string>, lib: Library): string {
    "[[client]]\nusername = " + lib.quote(row.0) + "\npassword = " + lib.quote(row.1) + "\n"
  }

  function RuleText(row: Row<RuleLine>, lib: Library): string {
    "# " + row.0 + "\n[[rule]]\ncidr = " + lib.quote(row.1.network) + "\naction = " + lib.quote(row.1.action) + "\n"
  }

  function LoginsText(rows: seq<Row<string>>, lib: Library): string {
    if rows == [] then "" else LoginsText(rows[..|rows| - 1], lib) + LoginText(rows[|rows| - 1], lib)
  }

  function RulesText(rows: seq<Row<RuleLine>>, lib: Library): string {
    if rows == [] then "" else RulesText(rows[..|rows| - 1], lib) + RuleText(rows[|rows| - 1], lib)
  }

  function VpnHead(listen: string, lib: Library): string {
    "listen_address = " + lib.quote(listen) + "\ncredentials_file = " + lib.quote(CredentialsFile) +
    "\nrules_file = " + lib.quote(RulesFile)
  }

  function Protocols(): string {
    "\n\n[listen_protocols]\n" + "http1 = {}\nhttp2 = {}\n" + "quic = {}\n\n[forward_protocol]\n" +
    "direct = {}\n\n[metrics]\n"
  }

  function VpnTail(lib: Library): string {
    Protocols() + "address = " + lib.quote("127.0.0.1:9090") + "\nper_client_metrics = false\n"
  }

  function VpnText(listen: string, lib: Library): string {
    VpnHead(listen, lib) + VpnTail(lib)
  }

  function HostsText(hostname: string, cert: PemPath, key: PemPath, lib: Library): string {
    "[[main_hosts]]\nhostname = " + lib.quote(hostname) + "\n" +
    if cert.NoPath? then ""
    else "cert_chain_path = " + lib.quote(lib.path(cert)) + "\nprivate_key_path = " + lib.quote(lib.path(key)) + "\n"
  }

  function Assembled(vpn: string, hosts: string, credentials: string, rules: string): map<string, string> {
    map[VpnFile := vpn, HostsFile := hosts, CredentialsFile := credentials, RulesFile := rules]
  }

  /** The rendered files as text. */
  ghost function TextFiles(s: Snapshot, lib: Library): map<string, string> {
    Assembled(VpnText(s.listen, lib), HostsText(s.hostname, s.cert, s.key, lib),
              LoginsText(Listing(Logins(s.users)), lib), RulesText(Listing(RuleLines(s.rules)), lib))
  }

  // ----- Sorting

  predicate Ascends<T(!new)>(xs: seq<T>, key: T -> string) {
    forall i, j | 0 <= i < j < |xs| :: !Less(key(xs[j]), key(xs[i]))
  }

  /** `sort.Slice` on a copy, by a string key. */
  method SortBy<T(!new)>(input: seq<T>, key: T -> string) returns (xs: seq<T>)
    ensures Ascends(xs, key) && multiset(xs) == multiset(input)
  {
    xs := [];
    for n := 0 to |input|
      invariant Ascends(xs, key) && multiset(xs) == multiset(input[..n])
    {
      var k := |xs|;
      while k > 0 && Less(key(input[n]), key(xs[k - 1]))
        invariant 0 <= k <= |xs|
        invariant forall j | k <= j < |xs| :: Less(key(input[n]), key(xs[j]))
      {
        k := k - 1;
      }
      InsertedAscends(xs, k, input[n], key);
      InsertedMembers(xs, k, input[n]);
      assert input[..n + 1] == input[..n] + [input[n]];
      xs := xs[..k] + [input[n]] + xs[k..];
    }
    assert input[..|input|] == input;
  }

  lemma InsertedMembers<T>(xs: seq<T>, k: nat, x: T)
    requires k <= |xs|
    ensures multiset(xs[..k] + [x] + xs[k..]) == multiset(xs) + multiset{x}
  {
    assert xs == xs[..k] + xs[k..];
  }

  lemma InsertedAscends<T(!new)>(xs: seq<T>, k: nat, x: T, key: T -> string)
    requires k <= |xs| && Ascends(xs, key)
    requires forall j | k <= j < |xs| :: Less(key(x), key(xs[j]))
    requires k > 0 ==> !Less(key(x), key(xs[k - 1]))
    ensures Ascends(xs[..k] + [x] + xs[k..], key)
  {
    forall j | 0 <= j < k
      ensures !Less(key(x), key(xs[j]))
    {
      if Less(key(x), key(xs[j])) {
        NotLessChain(key(x), key(xs[j]), key(xs[k - 1]));
      }
    }
    forall j | k <= j < |xs|
      ensures !Less(key(xs[j]), key(x))
    {
      LessAsymmetric(key(x), key(xs[j]));
    }
  }

  lemma NotLessChain(a: string, b: string, c: string)
    requires Less(a, b) && !Less(c, b)
    ensures Less(a, c)
  {
    LessTotal(b, c);
    if Less(b, c) {
      LessTransitive(a, b, c);
    }
  }

  function UserKey(): User -> string {
    (u: User) => u.username
  }

  function RuleKey(): Rule -> string {
    (r: Rule) => r.name
  }

  function Name(): string -> string {
    (n: string) => n
  }

  // ----- The rendered rows are the listing of the rendered content

  function ActiveRows(users: seq<User>): seq<Row<string>> {
    if users == [] then []
    else
      var u := users[|users| - 1];
      ActiveRows(users[..|users| - 1]) + if u.status.UserActive? then [(u.username, u.credential)] else []
  }

  function RuleRows(rules: seq<Rule>): seq<Row<RuleLine>> {
    if rules == [] then []
    else
      var r := rules[|rules| - 1];
      RuleRows(rules[..|rules| - 1]) + [(r.name, RuleLine(r.action, r.network))]
  }

  lemma {:induction false} ActiveRowsListed(users: seq<User>)
    requires Ascends(users, UserKey()) && DistinctUsers(users)
    ensures Ascending(ActiveRows(users)) && ToMap(ActiveRows(users)) == Logins(users)
    ensures forall k | k in Logins(users) :: exists i :: 0 <= i < |users| && users[i].username == k
  {
    if users != [] {
      var init, u := users[..|users| - 1], users[|users| - 1];
      ActiveRowsListed(init);
      forall k | k in Logins(init)
        ensures Less(k, u.username)
        ensures exists i :: 0 <= i < |users| && users[i].username == k
      {
        var i :| 0 <= i < |init| && init[i].username == k;
        assert users[i].username == k;
        LessTotal(k, u.username);
      }
      Appended(ActiveRows(init), u.username, u.credential);
      assert ActiveRows(init) + [] == ActiveRows(init);
    }
  }

  lemma {:induction false} RuleRowsListed(rules: seq<Rule>)
    requires Ascends(rules, RuleKey()) && DistinctRules(rules)
    ensures Ascending(RuleRows(rules)) && ToMap(RuleRows(rules)) == RuleLines(rules)
    ensures forall k | k in RuleLines(rules) :: exists i :: 0 <= i < |rules| && rules[i].name == k
  {
    if rules != [] {
      var init, r := rules[..|rules| - 1], rules[|rules| - 1];
      RuleRowsListed(init);
      forall k | k in RuleLines(init)
        ensures Less(k, r.name)
        ensures exists i :: 0 <= i < |rules| && rules[i].name == k
      {
        var i :| 0 <= i < |init| && init[i].name == k;
        assert rules[i].name == k;
        LessTotal(k, r.name);
      }
      Appended(RuleRows(init), r.name, RuleLine(r.action, r.network));
    }
  }

  // ----- Order does not matter

  lemma TwiceInMultiset<T>(s: seq<T>, i: nat, j: nat)
    requires i < j < |s| && s[i] == s[j]
    ensures multiset(s)[s[i]] >= 2
  {
    assert s == s[..j] + s[j..];
    assert s[..j][i] == s[i] && s[j..][0] == s[j];
  }

  lemma OnceInMultiset<T>(s: seq<T>, x: T)
    requires multiset(s)[x] >= 2
    ensures exists i, j :: 0 <= i < j < |s| && s[i] == x && s[j] == x
  {
    var i :| 0 <= i < |s| && s[i] == x;
    assert s == s[..i] + [s[i]] + s[i + 1..];
    if x in s[..i] {
      var k :| 0 <= k < |s[..i]| && s[..i][k] == x;
      assert s[k] == x;
    } else {
      assert x in s[i + 1..];
      var k :| 0 <= k < |s[i + 1..]| && s[i + 1..][k] == x;
      assert s[i + 1 + k] == x;
    }
  }

  lemma DistinctUsersPermute(a: seq<User>, b: seq<User>)
    requires multiset(a) == multiset(b) && DistinctUsers(a)
    ensures DistinctUsers(b)
  {
    forall i, j | 0 <= i < j < |b|
      ensures b[i].username != b[j].username
    {
      if b[i] == b[j] {
        TwiceInMultiset(b, i, j);
        OnceInMultiset(a, b[i]);
      } else {
        assert b[i] in multiset(a) && b[j] in multiset(a);
        var k :| 0 <= k < |a| && a[k] == b[i];
        var l :| 0 <= l < |a| && a[l] == b[j];
        assert k < l || l < k;
      }
    }
  }

  lemma DistinctRulesPermute(a: seq<Rule>, b: seq<Rule>)
    requires multiset(a) == multiset(b) && DistinctRules(a)
    ensures DistinctRules(b)
  {
    forall i, j | 0 <= i < j < |b|
      ensures b[i].name != b[j].name
    {
      if b[i] == b[j] {
        TwiceInMultiset(b, i, j);
        OnceInMultiset(a, b[i]);
      } else {
        assert b[i] in multiset(a) && b[j] in multiset(a);
        var k :| 0 <= k < |a| && a[k] == b[i];
        var l :| 0 <= l < |a| && a[l] == b[j];
        assert k < l || l < k;
      }
    }
  }

  /** Exactly the active users are rendered, each with its own credential. */
  lemma {:induction false} LoginsExact(users: seq<User>, name: string)
    requires DistinctUsers(users)
    ensures name in Logins(users) <==> exists u :: u in users && u.username == name && u.status.UserActive?
    ensures forall u | u in users && u.status.UserActive? ::
              u.username in Logins(users) && Logins(users)[u.username] == u.credential
  {
    if users != [] {
      var init, u := users[..|users| - 1], users[|users| - 1];
      LoginsExact(init, name);
      assert users == init + [u];
      assert forall v | v in init :: v.username != u.username;
    }
  }

  lemma {:induction false} RuleLinesExact(rules: seq<Rule>, name: string)
    requires DistinctRules(rules)
    ensures name in RuleLines(rules) <==> exists r :: r in rules && r.name == name
    ensures forall r | r in rules ::
              r.name in RuleLines(rules) && RuleLines(rules)[r.name] == RuleLine(r.action, r.network)
  {
    if rules != [] {
      var init, r := rules[..|rules| - 1], rules[|rules| - 1];
      RuleLinesExact(init, name);
      assert rules == init + [r];
      assert forall v | v in init :: v.name != r.name;
    }
  }

  lemma SameMembers<T>(a: seq<T>, b: seq<T>, x: T)
    requires multiset(a) == multiset(b)
    ensures x in a <==> x in b
  {
    assert x in multiset(a) <==> x in multiset(b);
  }

  lemma LoginsPermute(a: seq<User>, b: seq<User>)
    requires multiset(a) == multiset(b) && DistinctUsers(a)
    ensures Logins(a) == Logins(b)
  {
    DistinctUsersPermute(a, b);
    forall name
      ensures name in Logins(a) <==> name in Logins(b)
      ensures name in Logins(a) ==> Logins(a)[name] == Logins(b)[name]
    {
      LoginsExact(a, name);
      LoginsExact(b, name);
      forall u
        ensures u in a <==> u in b
      {
        SameMembers(a, b, u);
      }
    }
  }

  lemma RuleLinesPermute(a: seq<Rule>, b: seq<Rule>)
    requires multiset(a) == multiset(b) && DistinctRules(a)
    ensures RuleLines(a) == RuleLines(b)
  {
    DistinctRulesPermute(a, b);
    forall name
      ensures name in RuleLines(a) <==> name in RuleLines(b)
      ensures name in RuleLines(a) ==> RuleLines(a)[name] == RuleLines(b)[name]
    {
      RuleLinesExact(a, name);
      RuleLinesExact(b, name);
      forall r
        ensures r in a <==> r in b
      {
        SameMembers(a, b, r);
      }
    }
  }

  // ----- The renderer

  method WriteCredentials(users: seq<User>, lib: Library) returns (text: string)
    ensures text == LoginsText(ActiveRows(users), lib)
  {
    text := "";
    for i := 0 to |users|
      invariant text == LoginsText(ActiveRows(users[..i]), lib)
    {
      var u := users[i];
      assert users[..i + 1][..i] == users[..i];
      var rows := ActiveRows(users[..i]);
      assert (rows + [(u.username, u.credential)])[..|rows|] == rows;
      assert rows + [] == rows;
      if u.status.UserActive? {
        text := text + LoginText((u.username, u.credential), lib);
      }
    }
    assert users[..|users|] == users;
  }

  method WriteRules(rules: seq<Rule>, lib: Library) returns (text: string)
    ensures text == RulesText(RuleRows(rules), lib)
  {
    text := "";
    for i := 0 to |rules|
      invariant text == RulesText(RuleRows(rules[..i]), lib)
    {
      var r := rules[i];
      assert rules[..i + 1][..i] == rules[..i];
      var rows := RuleRows(rules[..i]);
      assert (rows + [(r.name, RuleLine(r.action, r.network))])[..|rows|] == rows;
      text := text + RuleText((r.name, RuleLine(r.action, r.network)), lib);
    }
    assert rules[..|rules|] == rules;
  }

  /** The text of the users and rules in this order: permutations of those given, by name. */
  ghost predicate IsText(text: map<string, string>, s: Snapshot, lib: Library, users: seq<User>, rules: seq<Rule>) {
    && Ascends(users, UserKey()) && multiset(users) == multiset(s.users)
    && Ascends(rules, RuleKey()) && multiset(rules) == multiset(s.rules)
    && text == Assembled(VpnText(s.listen, lib), HostsText(s.hostname, s.cert, s.key, lib),
                         LoginsText(ActiveRows(users), lib), RulesText(RuleRows(rules), lib))
  }

  method Render(s: Snapshot, lib: Library) returns (r: Result<map<string, string>>)
    ensures r.Ok? <==> Valid(s, lib)
    ensures r.Ok? ==> exists users, rules :: IsText(r.value, s, lib, users, rules)
    ensures r.Ok? && DistinctRules(s.rules) ==> r.value == TextFiles(s, lib)
  {
    var ok := Validate(s, lib);
    if !ok {
      return Err;
    }
    var users := SortBy(s.users, UserKey());
    var rules := SortBy(s.rules, RuleKey());
    var credentials := WriteCredentials(users, lib);
    var ruleFile := WriteRules(rules, lib);
    r := Ok(Assembled(VpnText(s.listen, lib), HostsText(s.hostname, s.cert, s.key, lib), credentials, ruleFile));
    assert IsText(r.value, s, lib, users, rules);
    if DistinctRules(s.rules) {
      RenderedRows(s, users, rules);
    }
  }

  /** What the files say determines their text. */
  lemma SameFilesSameText(a: Snapshot, b: Snapshot, lib: Library)
    requires FilesOf(a) == FilesOf(b)
    ensures TextFiles(a, lib) == TextFiles(b, lib)
  {
    ContentsOf(a);
    ContentsOf(b);
  }

  lemma ContentsOf(s: Snapshot)
    ensures VpnToml in FilesOf(s) && HostsToml in FilesOf(s) && CredentialsToml in FilesOf(s) && RulesToml in FilesOf(s)
    ensures FilesOf(s)[VpnToml] == Vpn(s.listen) && FilesOf(s)[HostsToml] == Hosts(s.hostname, s.cert, s.key)
    ensures FilesOf(s)[CredentialsToml] == Credentials(Logins(s.users))
    ensures FilesOf(s)[RulesToml] == Rules(RuleLines(s.rules))
  {
  }

  /** The renderer up to the text of each file. */
  method RenderFiles(s: Snapshot, lib: Library) returns (r: Result<Files>)
    ensures r == if Valid(s, lib) then Ok(FilesOf(s)) else Err
  {
    var ok := Validate(s, lib);
    r := if ok then Ok(FilesOf(s)) else Err;
  }

  lemma RenderedRows(s: Snapshot, users: seq<User>, rules: seq<Rule>)
    requires DistinctUsers(s.users) && DistinctRules(s.rules)
    requires Ascends(users, UserKey()) && multiset(users) == multiset(s.users)
    requires Ascends(rules, RuleKey()) && multiset(rules) == multiset(s.rules)
    ensures ActiveRows(users) == Listing(Logins(s.users)) && RuleRows(rules) == Listing(RuleLines(s.rules))
  {
    DistinctUsersPermute(s.users, users);
    DistinctRulesPermute(s.rules, rules);
    LoginsPermute(s.users, users);
    RuleLinesPermute(s.rules, rules);
    ActiveRowsListed(users);
    RuleRowsListed(rules);
    ListingUnique(ActiveRows(users), Listing(Logins(s.users)));
    ListingUnique(RuleRows(rules), Listing(RuleLines(s.rules)));
  }

  // ----- The hashed bytes of a revision

  function FrameRow(row: Row<string>): string {
    row.0 + "\0" + row.1 + "\0"
  }

  function FrameRows(rows: seq<Row<string>>): string {
    if rows == [] then "" else FrameRow(rows[0]) + FrameRows(rows[1..])
  }

  /** The input of the revision digest. */
  ghost function Frame(files: map<string, string>): string {
    FrameRows(Listing(files))
  }

  predicate NoNul(s: string) {
    forall i | 0 <= i < |s| :: s[i] != '\0'
  }

  predicate RowsNoNul(rows: seq<Row<string>>) {
    forall i | 0 <= i < |rows| :: NoNul(rows[i].0) && NoNul(rows[i].1)
  }

  lemma FirstNul(a: string, x: string)
    requires NoNul(a)
    ensures var s := a + "\0" + x;
            s[|a|] == '\0' && forall i | 0 <= i < |a| :: s[i] != '\0'
    ensures (a + "\0" + x)[..|a|] == a && (a + "\0" + x)[|a| + 1..] == x
  {
  }

  /** Up to its first NUL a string determines the part before it and the part after it. */
  lemma CutAtNul(a: string, x: string, b: string, y: string)
    requires NoNul(a) && NoNul(b) && a + "\0" + x == b + "\0" + y
    ensures a == b && x == y
  {
    FirstNul(a, x);
    FirstNul(b, y);
  }

  lemma FrameRowsSplit(rows: seq<Row<string>>)
    requires rows != []
    ensures FrameRows(rows) == rows[0].0 + "\0" + (rows[0].1 + "\0" + FrameRows(rows[1..]))
    ensures FrameRows(rows) != ""
  {
    Associate(rows[0].0, "\0", rows[0].1, "\0", FrameRows(rows[1..]));
  }

  lemma Associate(a: string, b: string, c: string, d: string, e: string)
    ensures a + b + c + d + e == a + b + (c + d + e)
  {
  }

  lemma {:induction false} FrameRowsInjective(a: seq<Row<string>>, b: seq<Row<string>>)
    requires RowsNoNul(a) && RowsNoNul(b) && FrameRows(a) == FrameRows(b)
    ensures a == b
  {
    if a != [] {
      FrameRowsSplit(a);
    }
    if b != [] {
      FrameRowsSplit(b);
    }
    if a != [] && b != [] {
      var x, y := FrameRows(a[1..]), FrameRows(b[1..]);
      CutAtNul(a[0].0, a[0].1 + "\0" + x, b[0].0, b[0].1 + "\0" + y);
      CutAtNul(a[0].1, x, b[0].1, y);
      FrameRowsInjective(a[1..], b[1..]);
      assert a == [a[0]] + a[1..] && b == [b[0]] + b[1..];
    }
  }

  ghost predicate FilesNoNul(files: map<string, string>) {
    forall name | name in files :: NoNul(name) && NoNul(files[name])
  }

  lemma {:induction false} ListingNoNul(rows: seq<Row<string>>)
    requires Ascending(rows) && FilesNoNul(ToMap(rows))
    ensures RowsNoNul(rows)
  {
    if rows != [] {
      LastIsGreatest(rows);
      ListingNoNul(rows[..|rows| - 1]);
      var last := rows[|rows| - 1];
      assert last.0 in ToMap(rows) && ToMap(rows)[last.0] == last.1;
      assert forall i | 0 <= i < |rows| - 1 :: rows[i] == rows[..|rows| - 1][i];
    }
  }

  /** Unequal file sets without NUL never share the bytes that are hashed. */
  lemma FrameInjective(a: map<string, string>, b: map<string, string>)
    requires FilesNoNul(a) && FilesNoNul(b) && Frame(a) == Frame(b)
    ensures a == b
  {
    ListingNoNul(Listing(a));
    ListingNoNul(Listing(b));
    FrameRowsInjective(Listing(a), Listing(b));
  }

  /** Quoting and accepted names leave no NUL: what the printing library is expected to do. */
  ghost predicate Printable(lib: Library) {
    (forall x :: NoNul(lib.quote(x))) && (forall n :: lib.nameOk(n) ==> NoNul(n))
  }

  lemma NoNulConcat(a: string, b: string)
    requires NoNul(a) && NoNul(b)
    ensures NoNul(a + b)
  {
  }

  lemma LoginNoNul(row: Row<string>, lib: Library)
    requires Printable(lib)
    ensures NoNul(LoginText(row, lib))
  {
    NoNulConcat("[[client]]\nusername = ", lib.quote(row.0));
    NoNulConcat("[[client]]\nusername = " + lib.quote(row.0), "\npassword = ");
    NoNulConcat("[[client]]\nusername = " + lib.quote(row.0) + "\npassword = ", lib.quote(row.1));
    NoNulConcat("[[client]]\nusername = " + lib.quote(row.0) + "\npassword = " + lib.quote(row.1), "\n");
  }

  lemma {:induction false} LoginsNoNul(rows: seq<Row<string>>, lib: Library)
    requires Printable(lib)
    ensures NoNul(LoginsText(rows, lib))
  {
    if rows != [] {
      LoginsNoNul(rows[..|rows| - 1], lib);
      LoginNoNul(rows[|rows| - 1], lib);
      NoNulConcat(LoginsText(rows[..|rows| - 1], lib), LoginText(rows[|rows| - 1], lib));
    }
  }

  lemma RuleNoNul(row: Row<RuleLine>, lib: Library)
    requires Printable(lib) && NoNul(row.0)
    ensures NoNul(RuleText(row, lib))
  {
    var a := "# " + row.0;
    var b := a + "\n[[rule]]\ncidr = ";
    var c := b + lib.quote(row.1.network);
    var d := c + "\naction = ";
    NoNulConcat("# ", row.0);
    NoNulConcat(a, "\n[[rule]]\ncidr = ");
    NoNulConcat(b, lib.quote(row.1.network));
    NoNulConcat(c, "\naction = ");
    NoNulConcat(d, lib.quote(row.1.action));
    NoNulConcat(d + lib.quote(row.1.action), "\n");
  }

  lemma {:induction false} RulesNoNul(rows: seq<Row<RuleLine>>, lib: Library)
    requires Printable(lib) && forall i | 0 <= i < |rows| :: NoNul(rows[i].0)
    ensures NoNul(RulesText(rows, lib))
  {
    if rows != [] {
      RulesNoNul(rows[..|rows| - 1], lib);
      RuleNoNul(rows[|rows| - 1], lib);
      NoNulConcat(RulesText(rows[..|rows| - 1], lib), RuleText(rows[|rows| - 1], lib));
    }
  }

  lemma ProtocolsNoNul()
    ensures NoNul(Protocols())
  {
    NoNulConcat("\n\n[listen_protocols]\n", "http1 = {}\nhttp2 = {}\n");
    NoNulConcat("\n\n[listen_protocols]\n" + "http1 = {}\nhttp2 = {}\n", "quic = {}\n\n[forward_protocol]\n");
    NoNulConcat("\n\n[listen_protocols]\n" + "http1 = {}\nhttp2 = {}\n" + "quic = {}\n\n[forward_protocol]\n",
                "direct = {}\n\n[metrics]\n");
  }

  lemma VpnHeadNoNul(listen: string, lib: Library)
    requires Printable(lib)
    ensures NoNul(VpnHead(listen, lib))
  {
    var a := "listen_address = " + lib.quote(listen);
    var b := a + "\ncredentials_file = ";
    var c := b + lib.quote(CredentialsFile);
    var d := c + "\nrules_file = ";
    NoNulConcat("listen_address = ", lib.quote(listen));
    NoNulConcat(a, "\ncredentials_file = ");
    NoNulConcat(b, lib.quote(CredentialsFile));
    NoNulConcat(c, "\nrules_file = ");
    NoNulConcat(d, lib.quote(RulesFile));
  }

  lemma VpnTailNoNul(lib: Library)
    requires Printable(lib)
    ensures NoNul(VpnTail(lib))
  {
    ProtocolsNoNul();
    var a := Protocols() + "address = ";
    NoNulConcat(Protocols(), "address = ");
    NoNulConcat(a, lib.quote("127.0.0.1:9090"));
    NoNulConcat(a + lib.quote("127.0.0.1:9090"), "\nper_client_metrics = false\n");
  }

  lemma VpnNoNul(listen: string, lib: Library)
    requires Printable(lib)
    ensures NoNul(VpnText(listen, lib))
  {
    VpnHeadNoNul(listen, lib);
    VpnTailNoNul(lib);
    NoNulConcat(VpnHead(listen, lib), VpnTail(lib));
  }

  lemma HostsNoNul(hostname: string, cert: PemPath, key: PemPath, lib: Library)
    requires Printable(lib)
    ensures NoNul(HostsText(hostname, cert, key, lib))
  {
    var a := "[[main_hosts]]\nhostname = " + lib.quote(hostname);
    var b := a + "\n";
    var c := "cert_chain_path = " + lib.quote(lib.path(cert));
    var d := c + "\nprivate_key_path = ";
    var e := d + lib.quote(lib.path(key));
    NoNulConcat("[[main_hosts]]\nhostname = ", lib.quote(hostname));
    NoNulConcat(a, "\n");
    NoNulConcat("cert_chain_path = ", lib.quote(lib.path(cert)));
    NoNulConcat(c, "\nprivate_key_path = ");
    NoNulConcat(d, lib.quote(lib.path(key)));
    NoNulConcat(e, "\n");
    NoNulConcat(b, if cert.NoPath? then "" else e + "\n");
  }

  lemma {:induction false} RuleNamed(rules: seq<Rule>, n: string)
    requires n in RuleLines(rules)
    ensures exists i :: 0 <= i < |rules| && rules[i].name == n
  {
    var init, last := rules[..|rules| - 1], rules[|rules| - 1];
    if n != last.name {
      RuleNamed(init, n);
      var i :| 0 <= i < |init| && init[i].name == n;
      assert rules[i].name == n;
    }
  }

  lemma {:induction false} ListedNames<V>(rows: seq<Row<V>>)
    ensures forall i | 0 <= i < |rows| :: rows[i].0 in ToMap(rows)
  {
    forall i | 0 <= i < |rows|
      ensures rows[i].0 in ToMap(rows)
    {
      ToMapKeys(rows, rows[i].0);
    }
  }

  /** What is rendered holds no NUL. */
  lemma RenderedNoNul(s: Snapshot, lib: Library)
    requires Printable(lib) && Valid(s, lib)
    ensures FilesNoNul(TextFiles(s, lib))
  {
    VpnNoNul(s.listen, lib);
    HostsNoNul(s.hostname, s.cert, s.key, lib);
    LoginsNoNul(Listing(Logins(s.users)), lib);
    var rows := Listing(RuleLines(s.rules));
    ListedNames(rows);
    forall i | 0 <= i < |rows|
      ensures NoNul(rows[i].0)
    {
      RuleNamed(s.rules, rows[i].0);
    }
    RulesNoNul(rows, lib);
    AssembledNoNul(VpnText(s.listen, lib), HostsText(s.hostname, s.cert, s.key, lib),
                   LoginsText(Listing(Logins(s.users)), lib), RulesText(rows, lib));
  }

  lemma AssembledNoNul(vpn: string, hosts: string, credentials: string, rules: string)
    requires NoNul(vpn) && NoNul(hosts) && NoNul(credentials) && NoNul(rules)
    ensures FilesNoNul(Assembled(vpn, hosts, credentials, rules))
  {
    NamesNoNul();
  }

  lemma NamesNoNul()
    ensures NoNul(VpnFile) && NoNul(HostsFile) && NoNul(CredentialsFile) && NoNul(RulesFile)
  {
  }

  /** Two renderings share the bytes that are hashed only if they are the same files. */
  lemma RenderingsFrameApart(a: Snapshot, b: Snapshot, lib: Library)
    requires Printable(lib) && Valid(a, lib) && Valid(b, lib)
    ensures Frame(TextFiles(a, lib)) == Frame(TextFiles(b, lib)) <==> TextFiles(a, lib) == TextFiles(b, lib)
  {
    RenderedNoNul(a, lib);
    RenderedNoNul(b, lib);
    if Frame(TextFiles(a, lib)) == Frame(TextFiles(b, lib)) {
      FrameInjective(TextFiles(a, lib), TextFiles(b, lib));
    }
  }

  /** `revisionID` up to the digest: the names are sorted, then written with their data between NULs. */
  method RevisionInput(files: map<string, string>) returns (input: string)
    ensures input == Frame(files)
  {
    var names := SortNames(files.Keys);
    input := "";
    ghost var rows: seq<Row<string>> := [];
    assert FrameRows(rows) == "";
    for i := 0 to |names|
      invariant |rows| == i && forall j | 0 <= j < i :: rows[j] == (names[j], files[names[j]])
      invariant input == FrameRows(rows)
    {
      input := input + names[i];
      input := input + "\0";
      input := input + files[names[i]];
      input := input + "\0";
      FrameRowsSnoc(rows, (names[i], files[names[i]]));
      rows := rows + [(names[i], files[names[i]])];
    }
    NamedRows(files, names, rows);
    ListingUnique(rows, Listing(files));
  }

  lemma {:induction false} FrameRowsSnoc(rows: seq<Row<string>>, row: Row<string>)
    ensures FrameRows(rows + [row]) == FrameRows(rows) + row.0 + "\0" + row.1 + "\0"
  {
    if rows == [] {
      assert [row][1..] == [];
      assert rows + [row] == [row];
    } else {
      assert (rows + [row])[1..] == rows[1..] + [row];
      FrameRowsSnoc(rows[1..], row);
    }
  }

  predicate NamesAscend(names: seq<string>) {
    forall i, j | 0 <= i < j < |names| :: Less(names[i], names[j])
  }

  /** The names of a map, taken in any order and then sorted by `sort.Strings`. */
  method SortNames(keys: set<string>) returns (names: seq<string>)
    ensures NamesAscend(names)
    ensures forall k :: k in names <==> k in keys
  {
    var found: seq<string> := [];
    var left := keys;
    while left != {}
      invariant left <= keys
      invariant forall k :: k in found <==> k in keys - left
      invariant forall i, j | 0 <= i < j < |found| :: found[i] != found[j]
      decreases left
    {
      var name :| name in left;
      assert name !in found;
      found := found + [name];
      left := left - {name};
    }
    names := SortBy(found, Name());
    forall k
      ensures k in names <==> k in keys
    {
      SameMembers(names, found, k);
    }
    forall i, j | 0 <= i < j < |names|
      ensures Less(names[i], names[j])
    {
      if names[i] == names[j] {
        TwiceInMultiset(names, i, j);
        OnceInMultiset(found, names[i]);
      }
      LessTotal(names[i], names[j]);
      assert !Less(Name()(names[j]), Name()(names[i]));
    }
  }

  lemma {:induction false} NamedRows(files: map<string, string>, names: seq<string>, rows: seq<Row<string>>)
    requires NamesAscend(names) && |rows| == |names|
    requires forall k :: k in names <==> k in files
    requires forall j | 0 <= j < |names| :: rows[j] == (names[j], files[names[j]])
    ensures Ascending(rows) && ToMap(rows) == files
  {
    forall i | 0 <= i < |rows|
      ensures rows[i].0 in ToMap(rows)
    {
      ToMapKeys(rows, rows[i].0);
    }
    forall k
      ensures k in ToMap(rows) <==> k in files
      ensures k in ToMap(rows) ==> ToMap(rows)[k] == files[k]
    {
      ToMapKeys(rows, k);
      if k in files {
        var j :| 0 <= j < |names| && names[j] == k;
        assert rows[j].0 == k;
      }
      if k in ToMap(rows) {
        ToMapValue(rows, k, files);
      }
    }
  }

  lemma {:induction false} ToMapValue(rows: seq<Row<string>>, k: string, files: map<string, string>)
    requires k in ToMap(rows)
    requires forall j | 0 <= j < |rows| :: rows[j].0 in files && rows[j].1 == files[rows[j].0]
    ensures k in files && ToMap(rows)[k] == files[k]
  {
    if rows[|rows| - 1].0 != k {
      ToMapValue(rows[..|rows| - 1], k, files);
    }
  }

  /**
   Rendering the same users and rules in any order gives the same hashed bytes, hence the same
   revision.
   */
  lemma RevisionIgnoresOrder(a: Snapshot, b: Snapshot, lib: Library)
    requires multiset(a.users) == multiset(b.users) && multiset(a.rules) == multiset(b.rules)
    requires b.(users := a.users, rules := a.rules) == a
    requires DistinctUsers(a.users) && DistinctRules(a.rules)
    ensures FilesOf(a) == FilesOf(b)
    ensures Frame(TextFiles(a, lib)) == Frame(TextFiles(b, lib))
  {
    LoginsPermute(a.users, b.users);
    RuleLinesPermute(a.rules, b.rules);
    SameFilesSameText(a, b, lib);
  }
}
