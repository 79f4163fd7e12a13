/** The rows of internal/persistence/sqlite.go that the services read and write. */
module Database {
  import opened Config
  import opened Domain
  import opened Wrappers
  import opened TlsState

  type Users = map<nat, User>

  /** `revision` is the active configuration revision; `meta` the only row of tls_certificate. */
  datatype Db = Db(hostname: string, listen: string, revision: Option<Files>, users: Users, nextId: nat,
                   rules: map<string, RuleLine>, meta: Option<Metadata>)

  /** UNIQUE(username). */
  ghost predicate UniqueNames(users: Users) {
    forall i, j | i in users && j in users && i != j :: users[i].username != users[j].username
  }

  predicate NameTaken(users: Users, name: string) {
    exists i | i in users :: users[i].username == name
  }

  /** Name and credential of every active user with an id below `n`. */
  function LoginsBelow(users: Users, n: nat): map<string, string> {
    if n == 0 then map[]
    else
      var before := LoginsBelow(users, n - 1);
      if n - 1 in users && users[n - 1].status.UserActive?
      then before[users[n - 1].username := users[n - 1].credential] else before
  }

  /** Ids are handed out in order, so all users have one below `nextId`. */
  ghost predicate WellKept(users: Users, nextId: nat) {
    UniqueNames(users) && forall i | i in users :: i < nextId
  }

  function ActiveLogins(db: Db): map<string, string> {
    LoginsBelow(db.users, db.nextId)
  }

  /** Exactly the active users, each with its own credential. */
  lemma {:induction false} LoginsBelowExact(users: Users, n: nat, name: string)
    requires UniqueNames(users)
    ensures name in LoginsBelow(users, n) <==>
            exists i :: i in users && i < n && users[i].status.UserActive? && users[i].username == name
    ensures forall i | i in users && i < n && users[i].status.UserActive? && users[i].username == name ::
              LoginsBelow(users, n)[name] == users[i].credential
  {
    if n > 0 {
      LoginsBelowExact(users, n - 1, name);
    }
  }

  /** The files rendered from the rows, with the given certificate paths. */
  function Rendered(db: Db, cert: PemPath, key: PemPath): Files {
    map[VpnToml := Vpn(db.listen), HostsToml := Hosts(db.hostname, cert, key),
        CredentialsToml := Credentials(ActiveLogins(db)), RulesToml := Rules(db.rules)]
  }

  /** The snapshot lists exactly the rows. */
  ghost predicate Lists(s: Snapshot, db: Db) {
    && s.hostname == db.hostname && s.listen == db.listen
    && s.cert == CertPath(db.meta) && s.key == KeyPath(db.meta)
    && DistinctUsers(s.users)
    && (forall u :: u in s.users <==> exists i :: i in db.users && db.users[i] == u)
    && DistinctRules(s.rules) && RuleLines(s.rules) == db.rules
  }

  lemma ListedLogins(s: Snapshot, db: Db)
    requires Lists(s, db) && WellKept(db.users, db.nextId)
    ensures Logins(s.users) == ActiveLogins(db)
  {
    forall name
      ensures name in Logins(s.users) <==> name in ActiveLogins(db)
      ensures name in ActiveLogins(db) ==> Logins(s.users)[name] == ActiveLogins(db)[name]
    {
      ListedLogin(s, db, name);
    }
  }

  lemma ListedLogin(s: Snapshot, db: Db, name: string)
    requires Lists(s, db) && WellKept(db.users, db.nextId)
    ensures name in Logins(s.users) <==> name in ActiveLogins(db)
    ensures name in ActiveLogins(db) ==> Logins(s.users)[name] == ActiveLogins(db)[name]
  {
    LoginsExact(s.users, name);
    LoginsBelowExact(db.users, db.nextId, name);
    if name in ActiveLogins(db) {
      var i :| i in db.users && db.users[i].status.UserActive? && db.users[i].username == name;
      assert db.users[i] in s.users;
    }
    if name in Logins(s.users) {
      var u :| u in s.users && u.username == name && u.status.UserActive?;
      var i :| i in db.users && db.users[i] == u;
    }
  }

  /** The users below `n` by their names, whatever their ids. */
  function NamedBelow(users: Users, n: nat): map<string, User> {
    if n == 0 then map[]
    else if n - 1 in users then NamedBelow(users, n - 1)[users[n - 1].username := users[n - 1]]
    else NamedBelow(users, n - 1)
  }

  lemma {:induction false} NamedExact(users: Users, n: nat, name: string)
    requires UniqueNames(users)
    ensures name in NamedBelow(users, n) <==> exists i :: i in users && i < n && users[i].username == name
    ensures forall i | i in users && i < n && users[i].username == name :: NamedBelow(users, n)[name] == users[i]
  {
    if n > 0 {
      NamedExact(users, n - 1, name);
    }
  }

  function ByName(db: Db): map<string, User> {
    NamedBelow(db.users, db.nextId)
  }

  lemma UpsertUnique(users: Users, nextId: nat, id: nat, u: User)
    requires WellKept(users, nextId)
    requires if id in users then users[id].username == u.username else id == nextId && !NameTaken(users, u.username)
    ensures WellKept(users[id := u], if id == nextId then id + 1 else nextId)
  {
    var after := users[id := u];
    forall i, j | i in after && j in after && i != j
      ensures after[i].username != after[j].username
    {
      assert i != id ==> i in users;
      assert j != id ==> j in users;
    }
  }

  lemma {:induction false} UpsertBelow(users: Users, id: nat, u: User, n: nat)
    requires UniqueNames(users) && UniqueNames(users[id := u]) && id < n
    requires if id in users then users[id].username == u.username else forall i | i in users :: i < id
    ensures NamedBelow(users[id := u], n) == NamedBelow(users, n)[u.username := u]
  {
    var after := users[id := u];
    if n == id + 1 {
      SameBelow(users, id, u, id);
    } else {
      UpsertBelow(users, id, u, n - 1);
      assert n - 1 in after <==> n - 1 in users;
      assert n - 1 in users ==> id in after && after[n - 1].username != after[id].username;
    }
  }

  lemma {:induction false} SameBelow(users: Users, id: nat, u: User, n: nat)
    requires n <= id
    ensures NamedBelow(users[id := u], n) == NamedBelow(users, n)
  {
    if n > 0 {
      SameBelow(users, id, u, n - 1);
    }
  }

  predicate HasActiveUser(users: Users) {
    exists i | i in users :: users[i].status.UserActive?
  }

  predicate AnyActive(users: seq<User>) {
    exists i | 0 <= i < |users| :: users[i].status.UserActive?
  }

  /** What a snapshot tells its readers about the rows. */
  ghost predicate Shows(s: Snapshot, db: Db) {
    && s.hostname == db.hostname && s.listen == db.listen
    && s.cert == CertPath(db.meta) && s.key == KeyPath(db.meta)
    && Logins(s.users) == ActiveLogins(db) && RuleLines(s.rules) == db.rules
    && (AnyActive(s.users) <==> HasActiveUser(db.users))
    && forall lib :: RowsPass(s.users, s.rules, lib) <==> RowsOk(db.users, db.rules, lib)
  }

  /** The rows pass the checks of the renderer. */
  ghost predicate RowsOk(users: Users, rules: map<string, RuleLine>, lib: Library) {
    && (forall i | i in users :: UserOk(users[i], lib))
    && (forall n | n in rules :: RuleOk(RuleOf(rules, n), lib))
  }

  function RuleOf(rules: map<string, RuleLine>, n: string): Rule
    requires n in rules
  {
    Rule(n, rules[n].action, rules[n].network)
  }

  /** A listing passes the checks if and only if the rows do. */
  lemma ListedPass(s: Snapshot, db: Db, lib: Library)
    requires Lists(s, db)
    ensures RowsPass(s.users, s.rules, lib) <==> RowsOk(db.users, db.rules, lib)
  {
    forall i | 0 <= i < |s.users|
      ensures exists j :: j in db.users && db.users[j] == s.users[i]
    {
      assert s.users[i] in s.users;
    }
    forall j | j in db.users
      ensures db.users[j] in s.users
    {
    }
    ListedRules(s, db);
  }

  lemma ListedRules(s: Snapshot, db: Db)
    requires Lists(s, db)
    ensures forall i | 0 <= i < |s.rules| ::
              s.rules[i].name in db.rules && RuleOf(db.rules, s.rules[i].name) == s.rules[i]
    ensures forall n | n in db.rules :: RuleOf(db.rules, n) in s.rules
  {
    forall i | 0 <= i < |s.rules|
      ensures s.rules[i].name in db.rules && RuleOf(db.rules, s.rules[i].name) == s.rules[i]
    {
      RuleLinesExact(s.rules, s.rules[i].name);
      assert s.rules[i] in s.rules;
    }
    forall n | n in db.rules
      ensures RuleOf(db.rules, n) in s.rules
    {
      RuleLinesExact(s.rules, n);
    }
  }

  lemma ListedShows(s: Snapshot, db: Db)
    requires Lists(s, db) && WellKept(db.users, db.nextId)
    ensures Shows(s, db)
  {
    ListedLogins(s, db);
    if i :| i in db.users && db.users[i].status.UserActive? {
      assert db.users[i] in s.users;
    }
    if j :| 0 <= j < |s.users| && s.users[j].status.UserActive? {
      assert s.users[j] in s.users;
    }
    forall lib
      ensures RowsPass(s.users, s.rules, lib) <==> RowsOk(db.users, db.rules, lib)
    {
      ListedPass(s, db, lib);
    }
  }

  lemma UpdatedKept(users: Users, nextId: nat, id: nat, u: User)
    requires WellKept(users, nextId) && id in users && !NameTaken(users - {id}, u.username)
    ensures WellKept(users[id := u], nextId)
  {
    forall i | i in users && i != id
      ensures users[i].username != u.username
    {
      assert i in users - {id} && (users - {id})[i] == users[i];
    }
  }

  /** Nobody else has the name of an existing user. */
  lemma OwnNameFree(users: Users, id: nat)
    requires UniqueNames(users) && id in users
    ensures !NameTaken(users - {id}, users[id].username)
  {
  }

  class Store {
    var db: Db
    /** Every certificate record written, in order. */
    ghost var log: seq<Entry>

    ghost predicate Valid()
      reads this
    {
      && WellKept(db.users, db.nextId)
      && db.meta == if log == [] then None else Some(Last(log))
    }

    constructor (listen: string)
      ensures Valid() && log == [] && db == Db("", listen, None, map[], 1, map[], None)
    {
      db := Db("", listen, None, map[], 1, map[], None);
      log := [];
    }

    method SaveTLSMetadata(m: Metadata, fails: bool, ghost writer: Writer, ghost check: Check) returns (s: Status)
      requires Valid()
      modifies this
      ensures Valid() && (s.Failed? <==> fails)
      ensures db == (if fails then old(db) else old(db).(meta := Some(m)))
      ensures log == (if fails then old(log) else old(log) + [Entry(writer, m, check)])
    {
      if fails {
        return Failed;
      }
      db := db.(meta := Some(m));
      log := log + [Entry(writer, m, check)];
      s := Done;
    }

    method SetActiveRevision(revision: Option<Files>, fails: bool) returns (s: Status)
      requires Valid()
      modifies this`db
      ensures Valid() && (s.Failed? <==> fails)
      ensures db == if fails then old(db) else old(db).(revision := revision)
    {
      if fails {
        return Failed;
      }
      db := db.(revision := revision);
      s := Done;
    }

    method SetHostname(hostname: string, fails: bool) returns (s: Status)
      requires Valid()
      modifies this`db
      ensures Valid() && (s.Failed? <==> fails)
      ensures db == if fails then old(db) else old(db).(hostname := hostname)
    {
      if fails {
        return Failed;
      }
      db := db.(hostname := hostname);
      s := Done;
    }

    method SetListenAddress(listen: string)
      requires Valid()
      modifies this`db
      ensures Valid() && db == old(db).(listen := listen)
    {
      db := db.(listen := listen);
    }

    /** A user of that name keeps its id; otherwise the next id is used. */
    method UpsertUser(u: User)
      requires Valid()
      modifies this`db
      ensures Valid() && db == old(db).(users := db.users, nextId := db.nextId)
      ensures ByName(db) == ByName(old(db))[u.username := u]
      ensures if NameTaken(old(db).users, u.username)
              then db.users.Keys == old(db).users.Keys && db.nextId == old(db).nextId
              else db.users == old(db).users[old(db).nextId := u] && db.nextId == old(db).nextId + 1
    {
      var id := db.nextId;
      if NameTaken(db.users, u.username) {
        id :| id in db.users && db.users[id].username == u.username;
      }
      var nextId := if id == db.nextId then id + 1 else db.nextId;
      UpsertUnique(db.users, db.nextId, id, u);
      UpsertBelow(db.users, id, u, nextId);
      db := db.(users := db.users[id := u], nextId := nextId);
    }

    /** The table only takes the two actions. */
    method UpsertRule(r: Rule) returns (s: Status)
      requires Valid()
      modifies this`db
      ensures Valid() && (s.Done? <==> r.action == "allow" || r.action == "deny")
      ensures db == if s.Failed? then old(db)
                    else old(db).(rules := old(db).rules[r.name := RuleLine(r.action, r.network)])
    {
      if r.action != "allow" && r.action != "deny" {
        return Failed;
      }
      db := db.(rules := db.rules[r.name := RuleLine(r.action, r.network)]);
      s := Done;
    }

    method InsertUser(u: User, fails: bool) returns (r: Result<nat>)
      requires Valid()
      modifies this`db
      ensures Valid()
      ensures r.Ok? <==> !fails && u.status.UserActive? && !NameTaken(old(db).users, u.username)
      ensures r.Ok? ==> r.value == old(db).nextId
      ensures db == if r.Err? then old(db)
                    else old(db).(users := old(db).users[r.value := u], nextId := r.value + 1)
    {
      if fails || !u.status.UserActive? || NameTaken(db.users, u.username) {
        return Err;
      }
      r := Ok(db.nextId);
      db := db.(users := db.users[db.nextId := u], nextId := db.nextId + 1);
    }

    /** A name that another user has is refused. */
    method UpdateUser(id: nat, u: User, fails: bool) returns (s: Status)
      requires Valid()
      modifies this`db
      ensures Valid() && (s.Done? <==> !fails && id in old(db).users && !NameTaken(old(db).users - {id}, u.username))
      ensures db == if s.Failed? then old(db) else old(db).(users := old(db).users[id := u])
    {
      if fails || id !in db.users {
        return Failed;
      }
      if NameTaken(db.users - {id}, u.username) {
        return Failed;
      }
      UpdatedKept(db.users, db.nextId, id, u);
      db := db.(users := db.users[id := u]);
      s := Done;
    }

    method DeleteUser(id: nat, fails: bool) returns (s: Status)
      requires Valid()
      modifies this`db
      ensures Valid() && (s.Failed? <==> fails)
      ensures db == if fails then old(db) else old(db).(users := old(db).users - {id})
    {
      if fails {
        return Failed;
      }
      db := db.(users := db.users - {id});
      s := Done;
    }

    method ListUsers() returns (users: seq<User>)
      requires Valid()
      ensures DistinctUsers(users)
      ensures forall u :: u in users <==> exists i :: i in db.users && db.users[i] == u
    {
      users := [];
      var left := db.users.Keys;
      while left != {}
        invariant left <= db.users.Keys && DistinctUsers(users)
        invariant forall u :: u in users <==> exists i :: i in db.users && i !in left && db.users[i] == u
        decreases left
      {
        var id :| id in left;
        forall j | 0 <= j < |users|
          ensures users[j].username != db.users[id].username
        {
          assert users[j] in users;
        }
        users := users + [db.users[id]];
        left := left - {id};
      }
    }

    method ListRules() returns (rules: seq<Rule>)
      ensures DistinctRules(rules) && RuleLines(rules) == db.rules
    {
      rules := [];
      var names := db.rules.Keys;
      while names != {}
        invariant names <= db.rules.Keys && DistinctRules(rules)
        invariant forall j | 0 <= j < |rules| :: rules[j].name !in names
        invariant RuleLines(rules) == map n | n in db.rules && n !in names :: db.rules[n]
        decreases names
      {
        var n :| n in names;
        var r := Rule(n, db.rules[n].action, db.rules[n].network);
        assert (rules + [r])[..|rules|] == rules;
        rules := rules + [r];
        names := names - {n};
      }
    }

    method ReadRows() returns (s: Snapshot)
      requires Valid()
      ensures Lists(s, db)
    {
      var users := ListUsers();
      var rules := ListRules();
      s := Domain.Snapshot(db.hostname, db.listen, users, rules, CertPath(db.meta), KeyPath(db.meta));
    }

    method Snapshot() returns (s: Snapshot)
      requires Valid()
      ensures Shows(s, db)
    {
      s := ReadRows();
      ListedShows(s, db);
    }
  }
}
