/**
 Reading the rendered files back: the tables of the text hold exactly what the files say. So a
 configuration revision, which is named by the digest of its text, may as well be named by its `Files`.
 */
module RevisionNames {
  import opened Config
  import opened Domain
  import opened TableText
  import opened Wrappers

  /** The inverses of the printing library. */
  datatype Reader = Reader(unquote: string -> string, unpath: string -> PemPath)

  /** Printed values take one line and can be read again. */
  ghost predicate Readable(lib: Library, r: Reader) {
    && (forall x :: '\n' !in lib.quote(x) && r.unquote(lib.quote(x)) == x)
    && (forall p | lib.pathOk(p) :: r.unpath(lib.path(p)) == p)
    && (forall n | lib.nameOk(n) :: '\n' !in n)
  }

  // ----- Logins

  function LoginRows(row: Row<string>, lib: Library): seq<(string, string)> {
    [("username", lib.quote(row.0)), ("password", lib.quote(row.1))]
  }

  function LoginLines(rows: seq<Row<string>>, lib: Library): seq<string> {
    if rows == [] then []
    else LoginLines(rows[..|rows| - 1], lib) + TableLines("[[client]]", LoginRows(rows[|rows| - 1], lib))
  }

  lemma LoginRowsPlain(row: Row<string>, lib: Library)
    ensures PlainRows(LoginRows(row, lib))
  {
  }

  /** The lines of a table of two pairs. */
  lemma TwoRows(header: string, k: string, v: string, l: string, w: string)
    ensures TableLines(header, [(k, v), (l, w)]) == [header, k + " = " + v, l + " = " + w]
    ensures ToMap([(k, v), (l, w)]) == map[k := v][l := w]
  {
    assert [(k, v), (l, w)][..1] == [(k, v)];
    OneRow(header, k, v);
  }

  lemma OneRow(header: string, key: string, value: string)
    ensures TableLines(header, [(key, value)]) == [header, key + " = " + value]
    ensures ToMap([(key, value)]) == map[key := value]
  {
    assert [(key, value)][..0] == [];
  }

  /** The same as text: the header, and two printed values after what is written before them. */
  lemma TwoRowsText(header: string, k: string, v: string, l: string, w: string, first: string, second: string)
    requires first == header + "\n" + k + " = " && second == "\n" + l + " = "
    ensures ToText(TableLines(header, [(k, v), (l, w)])) == first + v + second + w + "\n"
  {
    TwoRows(header, k, v, l, w);
    ThreeLines(header, k + " = " + v, l + " = " + w);
    Rows(header, k, v, l, w);
  }

  lemma Rows(header: string, k: string, v: string, l: string, w: string)
    ensures header + "\n" + (k + " = " + v) + "\n" + (l + " = " + w) + "\n" ==
            (header + "\n" + k + " = ") + v + ("\n" + l + " = ") + w + "\n"
  {
  }

  lemma LoginLiterals()
    ensures "[[client]]" + "\n" + "username" + " = " == "[[client]]\nusername = "
    ensures "\n" + "password" + " = " == "\npassword = "
  {
  }

  lemma OneLoginText(row: Row<string>, lib: Library)
    ensures ToText(TableLines("[[client]]", LoginRows(row, lib))) == LoginText(row, lib)
  {
    LoginLiterals();
    TwoRowsText("[[client]]", "username", lib.quote(row.0), "password", lib.quote(row.1),
                "[[client]]\nusername = ", "\npassword = ");
  }

  /** A table takes whole lines when header, keys and values do. */
  lemma TableBreakless(header: string, k: string, v: string, l: string, w: string)
    requires '\n' !in header && '\n' !in k && '\n' !in v && '\n' !in l && '\n' !in w
    ensures Breakless(TableLines(header, [(k, v), (l, w)]))
  {
    TwoRows(header, k, v, l, w);
    NoBreak(k, " = ");
    NoBreak(k + " = ", v);
    NoBreak(l, " = ");
    NoBreak(l + " = ", w);
  }

  lemma NoBreak(a: string, b: string)
    requires '\n' !in a && '\n' !in b
    ensures '\n' !in a + b
  {
  }

  lemma BreaklessConcat(a: seq<string>, b: seq<string>)
    requires Breakless(a) && Breakless(b)
    ensures Breakless(a + b)
  {
  }

  lemma LoginBreakless(row: Row<string>, lib: Library, r: Reader)
    requires Readable(lib, r)
    ensures Breakless(TableLines("[[client]]", LoginRows(row, lib)))
  {
    TableBreakless("[[client]]", "username", lib.quote(row.0), "password", lib.quote(row.1));
  }

  lemma ThreeLines(a: string, b: string, c: string)
    ensures ToText([a, b, c]) == a + "\n" + b + "\n" + c + "\n"
  {
    assert [a, b, c][1..] == [b, c] && [b, c][1..] == [c] && [c][1..] == [];
    assert ToText([c]) == c + "\n" + "";
  }

  lemma {:induction false} LoginsTextLines(rows: seq<Row<string>>, lib: Library, r: Reader)
    requires Readable(lib, r)
    ensures ToText(LoginLines(rows, lib)) == LoginsText(rows, lib) && Breakless(LoginLines(rows, lib))
  {
    if rows != [] {
      var last := rows[|rows| - 1];
      var init, table := LoginLines(rows[..|rows| - 1], lib), TableLines("[[client]]", LoginRows(last, lib));
      LoginsTextLines(rows[..|rows| - 1], lib, r);
      OneLoginText(last, lib);
      TextConcat(init, table);
      LoginBreakless(last, lib, r);
      BreaklessConcat(init, table);
    }
  }

  function LoginTables(rows: seq<Row<string>>, lib: Library): seq<Table> {
    if rows == [] then []
    else LoginTables(rows[..|rows| - 1], lib) + [Table("[[client]]", "", ToMap(LoginRows(rows[|rows| - 1], lib)))]
  }

  lemma OneLoginSteps(s: State, row: Row<string>, lib: Library)
    ensures Steps(s, TableLines("[[client]]", LoginRows(row, lib))) ==
            State(s.tables + [Table("[[client]]", s.note, ToMap(LoginRows(row, lib)))], "")
  {
    LoginRowsPlain(row, lib);
    TableSteps(s, "[[client]]", LoginRows(row, lib));
  }

  lemma {:induction false} LoginSteps(rows: seq<Row<string>>, lib: Library)
    ensures Steps(Empty, LoginLines(rows, lib)) == State(Empty.tables + LoginTables(rows, lib), "")
  {
    if rows == [] {
      assert Empty.tables + [] == Empty.tables;
    } else {
      var init, last := rows[..|rows| - 1], rows[|rows| - 1];
      LoginSteps(init, lib);
      StepsConcat(Empty, LoginLines(init, lib), TableLines("[[client]]", LoginRows(last, lib)));
      OneLoginSteps(Steps(Empty, LoginLines(init, lib)), last, lib);
    }
  }

  /** The user names and passwords of the client tables, a later one winning. */
  function LoginsIn(tables: seq<Table>, r: Reader): map<string, string> {
    if tables == [] then map[]
    else
      var before, t := LoginsIn(tables[..|tables| - 1], r), tables[|tables| - 1].pairs;
      if tables[|tables| - 1].header == "[[client]]" && "username" in t && "password" in t
      then before[r.unquote(t["username"]) := r.unquote(t["password"])] else before
  }

  lemma LoginPairs(row: Row<string>, lib: Library, r: Reader)
    requires Readable(lib, r)
    ensures var t := ToMap(LoginRows(row, lib));
            && "username" in t && r.unquote(t["username"]) == row.0
            && "password" in t && r.unquote(t["password"]) == row.1
  {
    assert "username"[0] != "password"[0];
    TwoRows("", "username", lib.quote(row.0), "password", lib.quote(row.1));
  }

  lemma LoginsSnoc(tables: seq<Table>, pairs: map<string, string>, r: Reader)
    requires "username" in pairs && "password" in pairs
    ensures LoginsIn(tables + [Table("[[client]]", "", pairs)], r) ==
            LoginsIn(tables, r)[r.unquote(pairs["username"]) := r.unquote(pairs["password"])]
  {
    assert (tables + [Table("[[client]]", "", pairs)])[..|tables|] == tables;
  }

  lemma {:induction false} LoginsRead(rows: seq<Row<string>>, lib: Library, r: Reader)
    requires Readable(lib, r)
    ensures LoginsIn(Empty.tables + LoginTables(rows, lib), r) == ToMap(rows)
  {
    var all := Empty.tables + LoginTables(rows, lib);
    if rows == [] {
      assert all[..0] == [];
    } else {
      var init, last := rows[..|rows| - 1], rows[|rows| - 1];
      LoginsRead(init, lib, r);
      LoginPairs(last, lib, r);
      LoginsSnoc(Empty.tables + LoginTables(init, lib), ToMap(LoginRows(last, lib)), r);
      assert all == Empty.tables + LoginTables(init, lib) + [Table("[[client]]", "", ToMap(LoginRows(last, lib)))];
    }
  }

  /** The credentials file, read back. */
  lemma CredentialsRead(rows: seq<Row<string>>, lib: Library, r: Reader)
    requires Readable(lib, r)
    ensures LoginsIn(Tables(LoginsText(rows, lib)), r) == ToMap(rows)
  {
    LoginsTextLines(rows, lib, r);
    LinesOfText(LoginLines(rows, lib));
    LoginSteps(rows, lib);
    LoginsRead(rows, lib, r);
  }

  // ----- Rules

  function RulePairs(row: Row<RuleLine>, lib: Library): seq<(string, string)> {
    [("cidr", lib.quote(row.1.network)), ("action", lib.quote(row.1.action))]
  }

  /** A rule carries its name in the comment before its table. */
  function OneRule(row: Row<RuleLine>, lib: Library): seq<string> {
    ["# " + row.0] + TableLines("[[rule]]", RulePairs(row, lib))
  }

  function RuleLinesOf(rows: seq<Row<RuleLine>>, lib: Library): seq<string> {
    if rows == [] then [] else RuleLinesOf(rows[..|rows| - 1], lib) + OneRule(rows[|rows| - 1], lib)
  }

  lemma RuleLiterals()
    ensures "\n" + ("[[rule]]" + "\n" + "cidr" + " = ") == "\n[[rule]]\ncidr = "
    ensures "\n" + "action" + " = " == "\naction = "
  {
  }

  lemma RuleJoin(a: string, b: string, v: string, c: string, w: string)
    ensures (a + "\n") + (b + v + c + w + "\n") == a + ("\n" + b) + v + c + w + "\n"
  {
  }

  lemma OneRuleText(row: Row<RuleLine>, lib: Library)
    ensures ToText(OneRule(row, lib)) == RuleText(row, lib)
  {
    var first := "[[rule]]" + "\n" + "cidr" + " = ";
    RuleLiterals();
    TwoRowsText("[[rule]]", "cidr", lib.quote(row.1.network), "action", lib.quote(row.1.action), first, "\naction = ");
    RuleJoin("# " + row.0, first, lib.quote(row.1.network), "\naction = ", lib.quote(row.1.action));
    FirstLine("# " + row.0, TableLines("[[rule]]", RulePairs(row, lib)));
  }

  lemma FirstLine(line: string, rest: seq<string>)
    ensures ToText([line] + rest) == line + "\n" + ToText(rest)
  {
    assert ([line] + rest)[1..] == rest;
  }

  lemma RuleBreakless(row: Row<RuleLine>, lib: Library, r: Reader)
    requires Readable(lib, r) && lib.nameOk(row.0)
    ensures Breakless(OneRule(row, lib))
  {
    NoBreak("# ", row.0);
    TableBreakless("[[rule]]", "cidr", lib.quote(row.1.network), "action", lib.quote(row.1.action));
    BreaklessConcat(["# " + row.0], TableLines("[[rule]]", RulePairs(row, lib)));
  }

  predicate NamesOk(rows: seq<Row<RuleLine>>, lib: Library) {
    forall i | 0 <= i < |rows| :: lib.nameOk(rows[i].0)
  }

  lemma {:induction false} RulesTextLines(rows: seq<Row<RuleLine>>, lib: Library, r: Reader)
    requires Readable(lib, r) && NamesOk(rows, lib)
    ensures ToText(RuleLinesOf(rows, lib)) == RulesText(rows, lib) && Breakless(RuleLinesOf(rows, lib))
  {
    if rows != [] {
      var last := rows[|rows| - 1];
      RulesTextLines(rows[..|rows| - 1], lib, r);
      OneRuleText(last, lib);
      TextConcat(RuleLinesOf(rows[..|rows| - 1], lib), OneRule(last, lib));
      RuleBreakless(last, lib, r);
      BreaklessConcat(RuleLinesOf(rows[..|rows| - 1], lib), OneRule(last, lib));
    }
  }

  function RuleTables(rows: seq<Row<RuleLine>>, lib: Library): seq<Table> {
    if rows == [] then []
    else
      var last := rows[|rows| - 1];
      RuleTables(rows[..|rows| - 1], lib) + [Table("[[rule]]", last.0, ToMap(RulePairs(last, lib)))]
  }

  lemma RulePairsPlain(row: Row<RuleLine>, lib: Library)
    ensures PlainRows(RulePairs(row, lib))
  {
  }

  lemma OneRuleSteps(s: State, row: Row<RuleLine>, lib: Library)
    ensures Steps(s, OneRule(row, lib)) ==
            State(s.tables + [Table("[[rule]]", row.0, ToMap(RulePairs(row, lib)))], "")
  {
    var line := "# " + row.0;
    assert line[..2] == "# " && line[2..] == row.0;
    StepsOne(s, line);
    StepsConcat(s, [line], TableLines("[[rule]]", RulePairs(row, lib)));
    RulePairsPlain(row, lib);
    TableSteps(s.(note := row.0), "[[rule]]", RulePairs(row, lib));
  }

  lemma {:induction false} RuleSteps(rows: seq<Row<RuleLine>>, lib: Library)
    ensures Steps(Empty, RuleLinesOf(rows, lib)) == State(Empty.tables + RuleTables(rows, lib), "")
  {
    if rows == [] {
      assert Empty.tables + [] == Empty.tables;
    } else {
      var init, last := rows[..|rows| - 1], rows[|rows| - 1];
      RuleSteps(init, lib);
      StepsConcat(Empty, RuleLinesOf(init, lib), OneRule(last, lib));
      OneRuleSteps(Steps(Empty, RuleLinesOf(init, lib)), last, lib);
    }
  }

  /** The rules of the rule tables by the names in their comments, a later one winning. */
  function RulesIn(tables: seq<Table>, r: Reader): map<string, RuleLine> {
    if tables == [] then map[]
    else
      var before, last := RulesIn(tables[..|tables| - 1], r), tables[|tables| - 1];
      if last.header == "[[rule]]" && "cidr" in last.pairs && "action" in last.pairs
      then before[last.note := RuleLine(r.unquote(last.pairs["action"]), r.unquote(last.pairs["cidr"]))] else before
  }

  lemma PairsOfRule(row: Row<RuleLine>, lib: Library, r: Reader)
    requires Readable(lib, r)
    ensures var t := ToMap(RulePairs(row, lib));
            && "cidr" in t && r.unquote(t["cidr"]) == row.1.network
            && "action" in t && r.unquote(t["action"]) == row.1.action
  {
    assert "cidr"[0] != "action"[0];
    TwoRows("", "cidr", lib.quote(row.1.network), "action", lib.quote(row.1.action));
  }

  lemma RulesSnoc(tables: seq<Table>, note: string, pairs: map<string, string>, r: Reader)
    requires "cidr" in pairs && "action" in pairs
    ensures RulesIn(tables + [Table("[[rule]]", note, pairs)], r) ==
            RulesIn(tables, r)[note := RuleLine(r.unquote(pairs["action"]), r.unquote(pairs["cidr"]))]
  {
    assert (tables + [Table("[[rule]]", note, pairs)])[..|tables|] == tables;
  }

  lemma {:induction false} RulesRead(rows: seq<Row<RuleLine>>, lib: Library, r: Reader)
    requires Readable(lib, r)
    ensures RulesIn(Empty.tables + RuleTables(rows, lib), r) == ToMap(rows)
  {
    var all := Empty.tables + RuleTables(rows, lib);
    if rows == [] {
      assert all[..0] == [];
    } else {
      var init, last := rows[..|rows| - 1], rows[|rows| - 1];
      RulesRead(init, lib, r);
      PairsOfRule(last, lib, r);
      RulesSnoc(Empty.tables + RuleTables(init, lib), last.0, ToMap(RulePairs(last, lib)), r);
      assert all == Empty.tables + RuleTables(init, lib) + [Table("[[rule]]", last.0, ToMap(RulePairs(last, lib)))];
    }
  }

  /** The rules file, read back. */
  lemma RuleFileRead(rows: seq<Row<RuleLine>>, lib: Library, r: Reader)
    requires Readable(lib, r) && NamesOk(rows, lib)
    ensures RulesIn(Tables(RulesText(rows, lib)), r) == ToMap(rows)
  {
    RulesTextLines(rows, lib, r);
    LinesOfText(RuleLinesOf(rows, lib));
    RuleSteps(rows, lib);
    RulesRead(rows, lib, r);
  }

  // ----- Host and listen address

  /** The lines of hosts.toml. */
  function HostRows(hostname: string, cert: PemPath, key: PemPath, lib: Library): seq<(string, string)> {
    [("hostname", lib.quote(hostname))] +
    if cert.NoPath? then []
    else [("cert_chain_path", lib.quote(lib.path(cert))), ("private_key_path", lib.quote(lib.path(key)))]
  }

  function PathUnder(t: Table, key: string, r: Reader): PemPath {
    if key in t.pairs then r.unpath(r.unquote(t.pairs[key])) else NoPath
  }

  lemma HostTable(hostname: string, cert: PemPath, key: PemPath, lib: Library)
    ensures TableLines("[[main_hosts]]", HostRows(hostname, cert, key, lib)) ==
            ["[[main_hosts]]", "hostname = " + lib.quote(hostname)] +
            if cert.NoPath? then []
            else ["cert_chain_path = " + lib.quote(lib.path(cert)), "private_key_path = " + lib.quote(lib.path(key))]
  {
    var rows := HostRows(hostname, cert, key, lib);
    assert rows[..1] == [rows[0]] && rows[..1][..0] == [];
    assert "hostname" + " = " == "hostname = " && "cert_chain_path" + " = " == "cert_chain_path = " &&
           "private_key_path" + " = " == "private_key_path = ";
    assert TableLines("[[main_hosts]]", rows[..1]) == ["[[main_hosts]]", "hostname = " + lib.quote(hostname)];
    if cert.NoPath? {
      assert rows == rows[..1];
    } else {
      assert rows[..2][..1] == rows[..1];
    }
  }

  lemma HostLiterals()
    ensures "[[main_hosts]]" + ("\n" + "hostname = ") == "[[main_hosts]]\nhostname = "
    ensures "\n" + "private_key_path = " == "\nprivate_key_path = "
    ensures '\n' !in "[[main_hosts]]" && '\n' !in "hostname = "
    ensures '\n' !in "cert_chain_path = " && '\n' !in "private_key_path = "
  {
  }

  /** Two printed values in a row, as lines and as one text. */
  lemma PairText(a: string, x: string, b: string, y: string)
    ensures ToText([a + x, b + y]) == a + x + ("\n" + b) + y + "\n"
  {
    TwoLines(a + x, b + y);
  }

  lemma HeaderText(header: string, a: string, x: string)
    ensures ToText([header, a + x]) == header + ("\n" + a) + x + "\n"
  {
    TwoLines(header, a + x);
  }

  lemma HostText(hostname: string, cert: PemPath, key: PemPath, lib: Library, r: Reader)
    requires Readable(lib, r)
    ensures ToText(TableLines("[[main_hosts]]", HostRows(hostname, cert, key, lib))) ==
            HostsText(hostname, cert, key, lib)
  {
    HostTable(hostname, cert, key, lib);
    HostLiterals();
    HeaderText("[[main_hosts]]", "hostname = ", lib.quote(hostname));
    PathLines(cert, key, lib, r);
    var head := ["[[main_hosts]]", "hostname = " + lib.quote(hostname)];
    if cert.NoPath? {
      assert head + [] == head;
    } else {
      TextConcat(head, ["cert_chain_path = " + lib.quote(lib.path(cert)),
                        "private_key_path = " + lib.quote(lib.path(key))]);
    }
  }

  lemma HostBreakless(hostname: string, cert: PemPath, key: PemPath, lib: Library, r: Reader)
    requires Readable(lib, r)
    ensures Breakless(TableLines("[[main_hosts]]", HostRows(hostname, cert, key, lib)))
  {
    HostTable(hostname, cert, key, lib);
    HostLiterals();
    NoBreak("hostname = ", lib.quote(hostname));
    PathLines(cert, key, lib, r);
    BreaklessConcat(["[[main_hosts]]", "hostname = " + lib.quote(hostname)],
                    if cert.NoPath? then []
                    else ["cert_chain_path = " + lib.quote(lib.path(cert)),
                          "private_key_path = " + lib.quote(lib.path(key))]);
  }

  lemma PathLines(cert: PemPath, key: PemPath, lib: Library, r: Reader)
    requires Readable(lib, r)
    ensures var lines := ["cert_chain_path = " + lib.quote(lib.path(cert)),
                          "private_key_path = " + lib.quote(lib.path(key))];
            && Breakless(lines)
            && ToText(lines) == "cert_chain_path = " + lib.quote(lib.path(cert)) + "\nprivate_key_path = " +
                                lib.quote(lib.path(key)) + "\n"
  {
    HostLiterals();
    PairText("cert_chain_path = ", lib.quote(lib.path(cert)), "private_key_path = ", lib.quote(lib.path(key)));
    NoBreak("cert_chain_path = ", lib.quote(lib.path(cert)));
    NoBreak("private_key_path = ", lib.quote(lib.path(key)));
  }

  lemma TwoLines(a: string, b: string)
    ensures ToText([a, b]) == a + "\n" + b + "\n"
  {
    assert [a, b][1..] == [b] && [b][1..] == [];
    assert ToText([b]) == b + "\n" + "";
  }

  lemma HostRowsPlain(hostname: string, cert: PemPath, key: PemPath, lib: Library)
    ensures PlainRows(HostRows(hostname, cert, key, lib))
  {
    assert PlainKey("hostname") && PlainKey("cert_chain_path") && PlainKey("private_key_path");
  }

  lemma HostPairs(hostname: string, cert: PemPath, key: PemPath, lib: Library)
    ensures ToMap(HostRows(hostname, cert, key, lib)) ==
            if cert.NoPath? then map["hostname" := lib.quote(hostname)]
            else map["hostname" := lib.quote(hostname), "cert_chain_path" := lib.quote(lib.path(cert)),
                     "private_key_path" := lib.quote(lib.path(key))]
  {
    var rows := HostRows(hostname, cert, key, lib);
    assert rows[..1] == [rows[0]] && rows[..1][..0] == [];
    assert ToMap(rows[..1]) == map["hostname" := lib.quote(hostname)];
    if cert.NoPath? {
      assert rows == rows[..1];
    } else {
      assert rows[..2][..1] == rows[..1];
    }
  }

  /** hosts.toml, read back: one host table with the host name and, if there are any, the two paths. */
  lemma HostsRead(hostname: string, cert: PemPath, key: PemPath, lib: Library, r: Reader)
    requires Readable(lib, r)
    ensures Tables(HostsText(hostname, cert, key, lib)) ==
            Empty.tables +
            [Table("[[main_hosts]]", "",
                   if cert.NoPath? then map["hostname" := lib.quote(hostname)]
                   else map["hostname" := lib.quote(hostname), "cert_chain_path" := lib.quote(lib.path(cert)),
                            "private_key_path" := lib.quote(lib.path(key))])]
  {
    HostText(hostname, cert, key, lib, r);
    HostBreakless(hostname, cert, key, lib, r);
    LinesOfText(TableLines("[[main_hosts]]", HostRows(hostname, cert, key, lib)));
    HostRowsPlain(hostname, cert, key, lib);
    TableSteps(Empty, "[[main_hosts]]", HostRows(hostname, cert, key, lib));
    HostPairs(hostname, cert, key, lib);
  }

  // ----- The endpoint settings

  function VpnLines(listen: string, lib: Library): seq<string> {
    ["listen_address = " + lib.quote(listen), "credentials_file = " + lib.quote("credentials.toml"),
     "rules_file = " + lib.quote("rules.toml"), ""] +
    ["[listen_protocols]", "http1 = {}", "http2 = {}", "quic = {}", ""] +
    ["[forward_protocol]", "direct = {}", ""] +
    ["[metrics]", "address = " + lib.quote("127.0.0.1:9090"), "per_client_metrics = false"]
  }

  lemma FourLines(a: string, b: string, c: string, d: string)
    ensures ToText([a, b, c, d]) == a + "\n" + b + "\n" + c + "\n" + d + "\n"
  {
    assert [a, b, c, d] == [a, b] + [c, d];
    TwoLines(a, b);
    TwoLines(c, d);
    TextConcat([a, b], [c, d]);
  }

  lemma HeadLiterals()
    ensures "\n" + "credentials_file = " == "\ncredentials_file = "
    ensures "\n" + "rules_file = " == "\nrules_file = "
  {
  }

  lemma HeadJoin(a: string, x: string, b: string, y: string, c: string, z: string)
    ensures ToText([a + x, b + y, c + z, ""]) == a + x + ("\n" + b) + y + ("\n" + c) + z + "\n\n"
  {
    FourLines(a + x, b + y, c + z, "");
  }

  lemma HeadText(listen: string, lib: Library)
    ensures ToText(["listen_address = " + lib.quote(listen), "credentials_file = " + lib.quote("credentials.toml"),
                    "rules_file = " + lib.quote("rules.toml"), ""]) == VpnHead(listen, lib) + "\n\n"
  {
    HeadLiterals();
    HeadJoin("listen_address = ", lib.quote(listen), "credentials_file = ", lib.quote("credentials.toml"),
             "rules_file = ", lib.quote("rules.toml"));
  }

  lemma ListenLiteral()
    ensures "\n\n" + ("[listen_protocols]" + "\n") == "\n\n[listen_protocols]\n"
  {
  }

  lemma HttpLiteral()
    ensures "http1 = {}" + "\n" + ("http2 = {}" + "\n") == "http1 = {}\nhttp2 = {}\n"
  {
  }

  lemma ForwardLiteral()
    ensures "quic = {}" + "\n" + "\n" + ("[forward_protocol]" + "\n") == "quic = {}\n\n[forward_protocol]\n"
  {
  }

  lemma MetricsLiteral()
    ensures "direct = {}" + "\n" + "\n" + ("[metrics]" + "\n") == "direct = {}\n\n[metrics]\n"
  {
  }

  lemma FiveLines(a: string, b: string, c: string, d: string, e: string)
    ensures ToText([a, b, c, d, e]) == a + "\n" + b + "\n" + c + "\n" + d + "\n" + e + "\n"
  {
    assert [a, b, c, d, e] == [a, b] + [c, d, e];
    TwoLines(a, b);
    ThreeLines(c, d, e);
    TextConcat([a, b], [c, d, e]);
  }

  lemma Blocks(n: string, a: string, b: string, c: string, d: string, e: string, f: string, g: string)
    requires n == "\n"
    ensures "\n\n" + ToText([a, b, c, d, ""]) + ToText([e, f, ""]) + (g + n) ==
            ("\n\n" + (a + n)) + (b + n + (c + n)) + (d + n + n + (e + n)) + (f + n + n + (g + n))
  {
    FiveLines(a, b, c, d, "");
    ThreeLines(e, f, "");
  }

  lemma ProtocolText()
    ensures "\n\n" + ToText(["[listen_protocols]", "http1 = {}", "http2 = {}", "quic = {}", ""]) +
            ToText(["[forward_protocol]", "direct = {}", ""]) + ("[metrics]" + "\n") == Protocols()
  {
    Blocks("\n", "[listen_protocols]", "http1 = {}", "http2 = {}", "quic = {}", "[forward_protocol]", "direct = {}",
           "[metrics]");
    ListenLiteral();
    HttpLiteral();
    ForwardLiteral();
    MetricsLiteral();
  }

  lemma FlagLiteral()
    ensures "\n" + ("per_client_metrics = false" + "\n") == "\nper_client_metrics = false\n"
  {
  }

  lemma MetricsJoin(a: string, b: string, q: string, c: string, tail: string)
    requires "\n" + (c + "\n") == tail
    ensures ToText([a, b + q, c]) == (a + "\n") + (b + q + tail)
  {
    ThreeLines(a, b + q, c);
  }

  lemma BlockTexts(a: seq<string>, b: seq<string>, c: seq<string>, d: seq<string>)
    ensures ToText(a + b + c + d) == ToText(a) + ToText(b) + ToText(c) + ToText(d)
  {
    TextConcat(a + b + c, d);
    TextConcat(a + b, c);
    TextConcat(a, b);
  }

  /** The four parts of vpn.toml. */
  lemma VpnJoin(head: string, a: string, b: string, c: string, d: string, tail: string, protocols: string)
    requires protocols == "\n\n" + b + c + d && a == head + "\n\n"
    ensures a + b + c + (d + tail) == head + (protocols + tail)
  {
  }

  lemma VpnLinesText(listen: string, lib: Library)
    ensures ToText(VpnLines(listen, lib)) == VpnText(listen, lib)
  {
    var a := ["listen_address = " + lib.quote(listen), "credentials_file = " + lib.quote("credentials.toml"),
              "rules_file = " + lib.quote("rules.toml"), ""];
    var b := ["[listen_protocols]", "http1 = {}", "http2 = {}", "quic = {}", ""];
    var c := ["[forward_protocol]", "direct = {}", ""];
    var d := ["[metrics]", "address = " + lib.quote("127.0.0.1:9090"), "per_client_metrics = false"];
    var tail := "address = " + lib.quote("127.0.0.1:9090") + "\nper_client_metrics = false\n";
    BlockTexts(a, b, c, d);
    HeadText(listen, lib);
    ProtocolText();
    FlagLiteral();
    MetricsJoin("[metrics]", "address = ", lib.quote("127.0.0.1:9090"), "per_client_metrics = false",
                "\nper_client_metrics = false\n");
    VpnJoin(VpnHead(listen, lib), ToText(a), ToText(b), ToText(c), "[metrics]" + "\n", tail, Protocols());
    TailJoin(listen, lib);
  }

  lemma TailJoin(listen: string, lib: Library)
    ensures VpnText(listen, lib) ==
            VpnHead(listen, lib) +
            (Protocols() + ("address = " + lib.quote("127.0.0.1:9090") + "\nper_client_metrics = false\n"))
  {
    Group(Protocols(), "address = ", lib.quote("127.0.0.1:9090"), "\nper_client_metrics = false\n");
  }

  lemma Group(a: string, b: string, c: string, d: string)
    ensures a + b + c + d == a + (b + c + d)
  {
  }

  lemma FixedBreakless()
    ensures Breakless(["[listen_protocols]", "http1 = {}", "http2 = {}", "quic = {}", ""])
    ensures Breakless(["[forward_protocol]", "direct = {}", ""])
  {
  }

  lemma VpnBreakless(listen: string, lib: Library, r: Reader)
    requires Readable(lib, r)
    ensures Breakless(VpnLines(listen, lib))
  {
    var a := ["listen_address = " + lib.quote(listen), "credentials_file = " + lib.quote("credentials.toml"),
              "rules_file = " + lib.quote("rules.toml"), ""];
    var b := ["[listen_protocols]", "http1 = {}", "http2 = {}", "quic = {}", ""];
    var c := ["[forward_protocol]", "direct = {}", ""];
    var d := ["[metrics]", "address = " + lib.quote("127.0.0.1:9090"), "per_client_metrics = false"];
    HeadBreakless(listen, lib, r);
    FixedBreakless();
    MetricsBreakless(lib, r);
    BreaklessConcat(a, b);
    BreaklessConcat(a + b, c);
    BreaklessConcat(a + b + c, d);
  }

  lemma ListenKey()
    ensures PlainKey("listen_address") && "listen_address" + " = " == "listen_address = "
    ensures '\n' !in "listen_address = "
  {
  }

  lemma CredentialsKey()
    ensures PlainKey("credentials_file") && "credentials_file" + " = " == "credentials_file = "
    ensures '\n' !in "credentials_file = "
  {
  }

  lemma RulesKey()
    ensures PlainKey("rules_file") && "rules_file" + " = " == "rules_file = "
    ensures '\n' !in "rules_file = "
  {
  }

  lemma HeadBreakless(listen: string, lib: Library, r: Reader)
    requires Readable(lib, r)
    ensures Breakless(["listen_address = " + lib.quote(listen), "credentials_file = " + lib.quote("credentials.toml"),
                       "rules_file = " + lib.quote("rules.toml"), ""])
  {
    ListenKey();
    CredentialsKey();
    RulesKey();
    NoBreak("listen_address = ", lib.quote(listen));
    NoBreak("credentials_file = ", lib.quote("credentials.toml"));
    NoBreak("rules_file = ", lib.quote("rules.toml"));
  }

  lemma MetricsBreakless(lib: Library, r: Reader)
    requires Readable(lib, r)
    ensures Breakless(["[metrics]", "address = " + lib.quote("127.0.0.1:9090"), "per_client_metrics = false"])
  {
    NoBreak("address = ", lib.quote("127.0.0.1:9090"));
  }

  function HeadPairs(listen: string, lib: Library): map<string, string> {
    map["listen_address" := lib.quote(listen), "credentials_file" := lib.quote("credentials.toml"),
        "rules_file" := lib.quote("rules.toml")]
  }

  /** The lines before the first header. */
  lemma HeadSteps(listen: string, lib: Library)
    ensures Steps(Empty, ["listen_address = " + lib.quote(listen),
                          "credentials_file = " + lib.quote("credentials.toml"),
                          "rules_file = " + lib.quote("rules.toml"), ""]) ==
            State([Table("", "", HeadPairs(listen, lib))], "")
  {
    var x, y, z := lib.quote(listen), lib.quote("credentials.toml"), lib.quote("rules.toml");
    var t0 := Table("", "", map[]);
    var t1 := t0.(pairs := map["listen_address" := x]);
    var t2 := t1.(pairs := t1.pairs["credentials_file" := y]);
    var t3 := t2.(pairs := t2.pairs["rules_file" := z]);
    ListenKey();
    CredentialsKey();
    RulesKey();
    PairLine(t0, "listen_address", "listen_address = ", x);
    PairLine(t1, "credentials_file", "credentials_file = ", y);
    PairLine(t2, "rules_file", "rules_file = ", z);
    StepsFour(Empty, "listen_address = " + x, "credentials_file = " + y, "rules_file = " + z, "");
    assert t3.pairs == HeadPairs(listen, lib);
  }

  /** A pair in a text of one table so far. */
  lemma PairLine(t: Table, key: string, start: string, value: string)
    requires PlainKey(key) && start == key + " = "
    ensures Step(State([t], ""), start + value) == State([t.(pairs := t.pairs[key := value])], "")
  {
    assert start + value == key + " = " + value;
    PairStep(State([t], ""), [], t, key, value);
    assert [] + [t] == [t] && [] + [t.(pairs := t.pairs[key := value])] == [t.(pairs := t.pairs[key := value])];
  }

  lemma StepsFour(s: State, a: string, b: string, c: string, d: string)
    ensures Steps(s, [a, b, c, d]) == Step(Step(Step(Step(s, a), b), c), d)
  {
    assert [a, b, c, d] == [a] + ([b] + ([c] + [d]));
    StepsConcat(s, [a], [b] + ([c] + [d]));
    StepsOne(s, a);
    StepsConcat(Step(s, a), [b], [c] + [d]);
    StepsOne(Step(s, a), b);
    StepsConcat(Step(Step(s, a), b), [c], [d]);
    StepsOne(Step(Step(s, a), b), c);
    StepsOne(Step(Step(Step(s, a), b), c), d);
  }

  /** The lines of a table, a blank one behind them or not. */
  lemma BlockSteps(s: State, lines: seq<string>, header: string, rows: seq<(string, string)>,
                   pairs: map<string, string>)
    requires header != "" && header[0] == '[' && PlainRows(rows) && s.note == ""
    requires lines == TableLines(header, rows) || lines == TableLines(header, rows) + [""]
    requires pairs == ToMap(rows)
    ensures Steps(s, lines) == State(s.tables + [Table(header, "", pairs)], "")
  {
    TableSteps(s, header, rows);
    StepsConcat(s, TableLines(header, rows), [""]);
    StepsOne(Steps(s, TableLines(header, rows)), "");
  }

  lemma ThreeRows(header: string, k: string, v: string, l: string, w: string, m: string, x: string)
    ensures TableLines(header, [(k, v), (l, w), (m, x)]) == [header, k + " = " + v, l + " = " + w, m + " = " + x]
    ensures ToMap([(k, v), (l, w), (m, x)]) == map[k := v][l := w][m := x]
  {
    assert [(k, v), (l, w), (m, x)][..2] == [(k, v), (l, w)];
    TwoRows(header, k, v, l, w);
  }

  lemma ProtocolSteps(s: State)
    requires s.note == ""
    ensures Steps(s, ["[listen_protocols]", "http1 = {}", "http2 = {}", "quic = {}", ""]) ==
            State(s.tables + [Table("[listen_protocols]", "",
                                    map["http1" := "{}", "http2" := "{}", "quic" := "{}"])], "")
  {
    var rows := [("http1", "{}"), ("http2", "{}"), ("quic", "{}")];
    ThreeRows("[listen_protocols]", "http1", "{}", "http2", "{}", "quic", "{}");
    assert "http1" + " = " + "{}" == "http1 = {}" && "http2" + " = " + "{}" == "http2 = {}";
    assert "quic" + " = " + "{}" == "quic = {}";
    BlockSteps(s, ["[listen_protocols]", "http1 = {}", "http2 = {}", "quic = {}", ""], "[listen_protocols]", rows,
               map["http1" := "{}", "http2" := "{}", "quic" := "{}"]);
  }

  lemma ForwardSteps(s: State)
    requires s.note == ""
    ensures Steps(s, ["[forward_protocol]", "direct = {}", ""]) ==
            State(s.tables + [Table("[forward_protocol]", "", map["direct" := "{}"])], "")
  {
    OneRow("[forward_protocol]", "direct", "{}");
    assert "direct" + " = " + "{}" == "direct = {}";
    BlockSteps(s, ["[forward_protocol]", "direct = {}", ""], "[forward_protocol]", [("direct", "{}")],
               map["direct" := "{}"]);
  }

  lemma MetricsSteps(s: State, lib: Library)
    requires s.note == ""
    ensures Steps(s, ["[metrics]", "address = " + lib.quote("127.0.0.1:9090"), "per_client_metrics = false"]) ==
            State(s.tables + [Table("[metrics]", "", map["address" := lib.quote("127.0.0.1:9090"),
                                                         "per_client_metrics" := "false"])], "")
  {
    var q := lib.quote("127.0.0.1:9090");
    TwoRows("[metrics]", "address", q, "per_client_metrics", "false");
    assert "address" + " = " == "address = " && "per_client_metrics" + " = " + "false" == "per_client_metrics = false";
    BlockSteps(s, ["[metrics]", "address = " + q, "per_client_metrics = false"], "[metrics]",
               [("address", q), ("per_client_metrics", "false")],
               map["address" := q, "per_client_metrics" := "false"]);
  }

  /** vpn.toml, read back: the listen address, the other two files, and the fixed tables. */
  lemma VpnRead(listen: string, lib: Library, r: Reader)
    requires Readable(lib, r)
    ensures Tables(VpnText(listen, lib)) ==
            [Table("", "", map["listen_address" := lib.quote(listen),
                               "credentials_file" := lib.quote("credentials.toml"),
                               "rules_file" := lib.quote("rules.toml")])] +
            [Table("[listen_protocols]", "", map["http1" := "{}", "http2" := "{}", "quic" := "{}"])] +
            [Table("[forward_protocol]", "", map["direct" := "{}"])] +
            [Table("[metrics]", "", map["address" := lib.quote("127.0.0.1:9090"), "per_client_metrics" := "false"])]
  {
    var a := ["listen_address = " + lib.quote(listen), "credentials_file = " + lib.quote("credentials.toml"),
              "rules_file = " + lib.quote("rules.toml"), ""];
    var b := ["[listen_protocols]", "http1 = {}", "http2 = {}", "quic = {}", ""];
    var c := ["[forward_protocol]", "direct = {}", ""];
    var d := ["[metrics]", "address = " + lib.quote("127.0.0.1:9090"), "per_client_metrics = false"];
    VpnLinesText(listen, lib);
    VpnBreakless(listen, lib, r);
    LinesOfText(VpnLines(listen, lib));
    StepsConcat(Empty, a + b + c, d);
    StepsConcat(Empty, a + b, c);
    StepsConcat(Empty, a, b);
    HeadSteps(listen, lib);
    ProtocolSteps(Steps(Empty, a));
    ForwardSteps(Steps(Empty, a + b));
    MetricsSteps(Steps(Empty, a + b + c), lib);
  }

  // ----- All four files

  function VpnIn(tables: seq<Table>, r: Reader): Option<Content> {
    if |tables| > 0 && "listen_address" in tables[0].pairs
    then Some(Vpn(r.unquote(tables[0].pairs["listen_address"]))) else None
  }

  function HostsIn(tables: seq<Table>, r: Reader): Option<Content> {
    if |tables| > 1 && tables[1].header == "[[main_hosts]]" && "hostname" in tables[1].pairs
    then Some(Hosts(r.unquote(tables[1].pairs["hostname"]), PathUnder(tables[1], "cert_chain_path", r),
                    PathUnder(tables[1], "private_key_path", r)))
    else None
  }

  /** What the text of the four files says. */
  function FilesRead(text: map<string, string>, r: Reader): Option<Files> {
    if text.Keys != {"vpn.toml", "hosts.toml", "credentials.toml", "rules.toml"} then None
    else
      match (VpnIn(Tables(text["vpn.toml"]), r), HostsIn(Tables(text["hosts.toml"]), r))
      case (Some(vpn), Some(hosts)) =>
        Some(map[VpnToml := vpn, HostsToml := hosts,
                 CredentialsToml := Credentials(LoginsIn(Tables(text["credentials.toml"]), r)),
                 RulesToml := Rules(RulesIn(Tables(text["rules.toml"]), r))])
      case _ => None
  }

  lemma VpnContent(listen: string, lib: Library, r: Reader)
    requires Readable(lib, r)
    ensures VpnIn(Tables(VpnText(listen, lib)), r) == Some(Vpn(listen))
  {
    VpnRead(listen, lib, r);
    var t := Tables(VpnText(listen, lib))[0];
    assert t.pairs["listen_address"] == lib.quote(listen);
  }

  lemma HostsContent(s: Snapshot, lib: Library, r: Reader)
    requires Readable(lib, r) && Valid(s, lib)
    ensures HostsIn(Tables(HostsText(s.hostname, s.cert, s.key, lib)), r) == Some(Hosts(s.hostname, s.cert, s.key))
  {
    HostsRead(s.hostname, s.cert, s.key, lib, r);
    var t := Tables(HostsText(s.hostname, s.cert, s.key, lib))[1];
    assert "hostname"[0] == 'h' && "cert_chain_path"[0] == 'c' && "private_key_path"[0] == 'p';
    assert t.pairs["hostname"] == lib.quote(s.hostname);
  }

  lemma AssembledNames(vpn: string, hosts: string, credentials: string, rules: string)
    ensures var text := Assembled(vpn, hosts, credentials, rules);
            && text.Keys == {"vpn.toml", "hosts.toml", "credentials.toml", "rules.toml"}
            && text["vpn.toml"] == vpn && text["hosts.toml"] == hosts
            && text["credentials.toml"] == credentials && text["rules.toml"] == rules
  {
    assert VpnFile[0] == 'v' && HostsFile[0] == 'h' && CredentialsFile[0] == 'c' && RulesFile[0] == 'r';
  }

  lemma RulesNamed(s: Snapshot, lib: Library)
    requires Valid(s, lib)
    ensures NamesOk(Listing(RuleLines(s.rules)), lib)
  {
    var rows := Listing(RuleLines(s.rules));
    ListedNames(rows);
    forall i | 0 <= i < |rows|
      ensures lib.nameOk(rows[i].0)
    {
      RuleNamed(s.rules, rows[i].0);
    }
  }

  /** Reading what was rendered gives back the files: nothing is lost, swapped or added. */
  lemma ReadBack(s: Snapshot, lib: Library, r: Reader)
    requires Readable(lib, r) && Valid(s, lib)
    ensures FilesRead(TextFiles(s, lib), r) == Some(FilesOf(s))
  {
    var logins, rules := Listing(Logins(s.users)), Listing(RuleLines(s.rules));
    AssembledNames(VpnText(s.listen, lib), HostsText(s.hostname, s.cert, s.key, lib), LoginsText(logins, lib),
                   RulesText(rules, lib));
    VpnContent(s.listen, lib, r);
    HostsContent(s, lib, r);
    CredentialsRead(logins, lib, r);
    RulesNamed(s, lib);
    RuleFileRead(rules, lib, r);
  }

  /** Two renderings have the same text if and only if their files say the same. */
  lemma TextTellsFiles(a: Snapshot, b: Snapshot, lib: Library, r: Reader)
    requires Readable(lib, r) && Valid(a, lib) && Valid(b, lib)
    ensures TextFiles(a, lib) == TextFiles(b, lib) <==> FilesOf(a) == FilesOf(b)
  {
    ReadBack(a, lib, r);
    ReadBack(b, lib, r);
    if FilesOf(a) == FilesOf(b) {
      SameFilesSameText(a, b, lib);
    }
  }

  /** Two renderings share the bytes that are hashed if and only if their files say the same. */
  lemma NameTellsFiles(a: Snapshot, b: Snapshot, lib: Library, r: Reader)
    requires Readable(lib, r) && Printable(lib) && Valid(a, lib) && Valid(b, lib)
    ensures Frame(TextFiles(a, lib)) == Frame(TextFiles(b, lib)) <==> FilesOf(a) == FilesOf(b)
  {
    RenderingsFrameApart(a, b, lib);
    TextTellsFiles(a, b, lib, r);
  }
}
