/**
 The line form of the rendered files: comments, table headers, `key = value` lines. `Tables` reads it
 without knowing what the renderer writes.
 */
module TableText {
  import Config

  // ----- Lines

  /** Where the first line ends. */
  function LineEnd(text: string): (n: nat)
    ensures n <= |text|
  {
    if text == "" || text[0] == '\n' then 0 else 1 + LineEnd(text[1..])
  }

  function Lines(text: string): seq<string>
    decreases |text|
  {
    if text == "" then []
    else
      var n := LineEnd(text);
      [text[..n]] + if n == |text| then [] else Lines(text[n + 1..])
  }

  function ToText(lines: seq<string>): string {
    if lines == [] then "" else lines[0] + "\n" + ToText(lines[1..])
  }

  predicate Breakless(lines: seq<string>) {
    forall i | 0 <= i < |lines| :: '\n' !in lines[i]
  }

  lemma {:induction false} LineEndAt(line: string, rest: string)
    requires '\n' !in line
    ensures LineEnd(line + "\n" + rest) == |line|
  {
    var text := line + "\n" + rest;
    if line == "" {
      assert text[0] == '\n';
    } else {
      assert text[0] == line[0] && line[0] in line;
      assert text[1..] == line[1..] + "\n" + rest;
      LineEndAt(line[1..], rest);
    }
  }

  lemma {:induction false} LinesOfText(lines: seq<string>)
    requires Breakless(lines)
    ensures Lines(ToText(lines)) == lines
  {
    if lines != [] {
      var rest := ToText(lines[1..]);
      var text := lines[0] + "\n" + rest;
      LineEndAt(lines[0], rest);
      LinesOfText(lines[1..]);
      assert text[..|lines[0]|] == lines[0] && text[|lines[0]| + 1..] == rest;
      assert lines == [lines[0]] + lines[1..];
    }
  }

  lemma {:induction false} TextConcat(a: seq<string>, b: seq<string>)
    ensures ToText(a + b) == ToText(a) + ToText(b)
  {
    if a == [] {
      assert a + b == b;
    } else {
      assert (a + b)[1..] == a[1..] + b;
      TextConcat(a[1..], b);
    }
  }

  // ----- Tables

  /** A table with the comment before its header; the first table has neither. */
  datatype Table = Table(header: string, note: string, pairs: map<string, string>)

  datatype State = State(tables: seq<Table>, note: string)

  const Empty := State([Table("", "", map[])], "")

  /** Where the key of a line ends. */
  function KeyEnd(line: string): (n: nat)
    ensures n <= |line|
  {
    if line == "" || " = " <= line then 0 else 1 + KeyEnd(line[1..])
  }

  function Paired(t: Table, line: string): Table {
    var n := KeyEnd(line);
    if n + 3 <= |line| then t.(pairs := t.pairs[line[..n] := line[n + 3..]]) else t
  }

  function Step(s: State, line: string): State {
    if line == "" then s
    else if "# " <= line then s.(note := line[2..])
    else if line[0] == '[' then State(s.tables + [Table(line, s.note, map[])], "")
    else if s.tables == [] then s
    else s.(tables := s.tables[..|s.tables| - 1] + [Paired(s.tables[|s.tables| - 1], line)])
  }

  function Steps(s: State, lines: seq<string>): State
    decreases |lines|
  {
    if lines == [] then s else Steps(Step(s, lines[0]), lines[1..])
  }

  /** The tables of a text. */
  function Tables(text: string): seq<Table> {
    Steps(Empty, Lines(text)).tables
  }

  lemma {:induction false} StepsConcat(s: State, a: seq<string>, b: seq<string>)
    ensures Steps(s, a + b) == Steps(Steps(s, a), b)
    decreases |a|
  {
    if a == [] {
      assert a + b == b;
    } else {
      assert (a + b)[1..] == a[1..] + b;
      StepsConcat(Step(s, a[0]), a[1..], b);
    }
  }

  lemma {:induction false} KeyEndAt(key: string, value: string)
    requires '=' !in key && ' ' !in key
    ensures KeyEnd(key + " = " + value) == |key|
  {
    var line := key + " = " + value;
    if key == "" {
      assert " = " <= line;
    } else {
      assert line[0] == key[0] && key[0] in key;
      assert line[1..] == key[1..] + " = " + value;
      KeyEndAt(key[1..], value);
    }
  }

  predicate PlainKey(key: string) {
    key != "" && '=' !in key && ' ' !in key && key[0] != '[' && key[0] != '#'
  }

  /** A pair goes to the last table. */
  lemma PairStep(s: State, init: seq<Table>, t: Table, key: string, value: string)
    requires PlainKey(key) && s.tables == init + [t]
    ensures Step(s, key + " = " + value) == s.(tables := init + [t.(pairs := t.pairs[key := value])])
  {
    var line := key + " = " + value;
    KeyEndAt(key, value);
    assert line[0] == key[0] && line[..|key|] == key && line[|key| + 3..] == value;
    assert s.tables[..|s.tables| - 1] == init;
  }

  lemma StepsOne(s: State, line: string)
    ensures Steps(s, [line]) == Step(s, line)
  {
    assert [line][1..] == [];
    assert Steps(Step(s, line), []) == Step(s, line);
  }

  /** One table of pairs: the header, then one line each. */
  function TableLines(header: string, rows: seq<(string, string)>): seq<string> {
    if rows == [] then [header]
    else
      var last := rows[|rows| - 1];
      TableLines(header, rows[..|rows| - 1]) + [last.0 + " = " + last.1]
  }

  predicate PlainRows(rows: seq<(string, string)>) {
    forall i | 0 <= i < |rows| :: PlainKey(rows[i].0)
  }

  lemma {:induction false} TableSteps(s: State, header: string, rows: seq<(string, string)>)
    requires header != "" && header[0] == '[' && PlainRows(rows)
    ensures Steps(s, TableLines(header, rows)) == State(s.tables + [Table(header, s.note, Config.ToMap(rows))], "")
    decreases |rows|
  {
    if rows == [] {
      StepsOne(s, header);
    } else {
      var init, last := rows[..|rows| - 1], rows[|rows| - 1];
      var t := Table(header, s.note, Config.ToMap(init));
      TableSteps(s, header, init);
      StepsConcat(s, TableLines(header, init), [last.0 + " = " + last.1]);
      StepsOne(State(s.tables + [t], ""), last.0 + " = " + last.1);
      PairStep(State(s.tables + [t], ""), s.tables, t, last.0, last.1);
    }
  }
}
