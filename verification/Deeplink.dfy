/**
 The deep link rewriter of internal/clientprofile/export.go and the independent reader of the same
 tag-length-value format in scripts/verify-official-export.go.

 A payload is a sequence of entries: a tag and a length, both variable-length integers in the
 encoding of section 16 of RFC 9000, and then as many value bytes as the length says. `Layout`
 states that grammar without an algorithm; `Parse` is the reader both programs share; the methods
 are the loops of the two programs.
 */
module Deeplink {
  import opened Wrappers

  type byte = b: int | 0 <= b < 256

  // ----- Variable-length integers

  /** The two most significant bits of the first byte give the base-2 logarithm of the size. */
  function PrefixSize(first: byte): nat {
    if first < 64 then 1 else if first < 128 then 2 else if first < 192 then 4 else 8
  }

  /** The number a byte string denotes in network byte order. */
  function Network(s: seq<byte>): nat {
    if s == [] then 0 else Network(s[..|s| - 1]) * 256 + s[|s| - 1]
  }

  /** How many values fit into the bits left beside the prefix. */
  function Room(size: nat): nat {
    if size == 1 then 0x40
    else if size == 2 then 0x4000
    else if size == 4 then 0x4000_0000
    else 0x4000_0000_0000_0000
  }

  /** The two prefix bits 00, 01, 10 or 11 in front of zeros: the smallest number of that size. */
  function Prefix(size: nat): nat {
    if size == 1 then 0
    else if size == 2 then 0x4000
    else if size == 4 then 0x8000_0000
    else 0xC000_0000_0000_0000
  }

  /** Section 16 of RFC 9000: `b` is the two prefix bits followed by `v` in all remaining bits. */
  ghost predicate Encodes(b: seq<byte>, v: nat) {
    && b != []
    && |b| == PrefixSize(b[0])
    && v < Room(|b|)
    && Network(b) == Prefix(|b|) + v
  }

  datatype Number = Number(value: nat, size: nat)

  function Varint(b: seq<byte>): Option<Number> {
    if b == [] || |b| < PrefixSize(b[0]) then None
    else
      var n := PrefixSize(b[0]);
      Some(Number(Network([b[0] % 64] + b[1..n]), n))
  }

  lemma NetworkSnoc(s: seq<byte>, x: byte)
    ensures Network(s + [x]) == Network(s) * 256 + x
  {
    assert (s + [x])[..|s|] == s;
  }

  lemma NetworkNext(head: byte, b: seq<byte>, i: nat)
    requires 1 <= i < |b|
    ensures Network([head] + b[1..i + 1]) == Network([head] + b[1..i]) * 256 + b[i]
  {
    assert b[1..i + 1] == b[1..i] + [b[i]];
    assert [head] + (b[1..i] + [b[i]]) == ([head] + b[1..i]) + [b[i]];
    NetworkSnoc([head] + b[1..i], b[i]);
  }

  /** The loop of `varint`: the value never exceeds 62 bits, so the 64-bit shift cannot wrap. */
  method ReadVarint(b: seq<byte>) returns (v: nat, n: nat, ok: bool)
    ensures ok <==> Varint(b).Some?
    ensures ok ==> Varint(b) == Some(Number(v, n)) && n <= |b| && Encodes(b[..n], v)
    ensures v < 0x4000_0000_0000_0000 && (!ok ==> v == n == 0)
  {
    if |b| == 0 {
      return 0, 0, false;
    }
    n := PrefixSize(b[0]);
    if |b| < n {
      return 0, 0, false;
    }
    v := b[0] % 64;
    var i := 1;
    while i < n
      invariant 1 <= i <= n
      invariant v == Network([b[0] % 64] + b[1..i])
    {
      NetworkNext(b[0] % 64, b, i);
      v := v * 256 + b[i];
      i := i + 1;
    }
    ok := true;
    VarintEncodes(b);
  }

  function Weight(n: nat): nat {
    if n == 0 then 1 else 256 * Weight(n - 1)
  }

  lemma {:induction false} NetworkHead(a: byte, s: seq<byte>)
    ensures Network([a] + s) == a * Weight(|s|) + Network(s)
  {
    var t := [a] + s;
    if s == [] {
      assert t[..0] == [];
    } else {
      assert t[..|t| - 1] == [a] + s[..|s| - 1];
      NetworkHead(a, s[..|s| - 1]);
      assert a * Weight(|s| - 1) * 256 == a * (Weight(|s| - 1) * 256);
    }
  }

  lemma {:induction false} NetworkBound(s: seq<byte>)
    ensures Network(s) < Weight(|s|)
  {
    if s != [] {
      NetworkBound(s[..|s| - 1]);
    }
  }

  lemma Weights()
    ensures Weight(0) == 1 && Weight(1) == 0x100 && Weight(3) == 0x100_0000
    ensures Weight(7) == 0x100_0000_0000_0000
  {
    assert Weight(2) == 0x1_0000;
    assert Weight(4) == 0x1_0000_0000;
    assert Weight(5) == 0x100_0000_0000;
    assert Weight(6) == 0x1_0000_0000_0000;
  }

  /** What the loop computes is the value section 16 of RFC 9000 assigns to those bytes. */
  lemma VarintEncodes(b: seq<byte>)
    requires Varint(b).Some?
    ensures var r := Varint(b).value; 1 <= r.size <= |b| && Encodes(b[..r.size], r.value)
  {
    var n := PrefixSize(b[0]);
    var tail := b[1..n];
    NetworkHead(b[0] % 64, tail);
    NetworkHead(b[0], tail);
    NetworkBound(tail);
    PrefixArithmetic(b[0], Weight(n - 1), Network(tail));
    assert b[..n] == [b[0]] + tail;
  }

  lemma PrefixArithmetic(first: byte, weight: nat, tail: nat)
    requires weight == Weight(PrefixSize(first) - 1) && tail < weight
    ensures first % 64 * weight + tail < Room(PrefixSize(first))
    ensures first * weight + tail == Prefix(PrefixSize(first)) + (first % 64 * weight + tail)
  {
    Weights();
    if first < 64 {
      assert weight == 1;
    } else if first < 128 {
      assert weight == 0x100 && first == 64 + first % 64;
    } else if first < 192 {
      assert weight == 0x100_0000 && first == 128 + first % 64;
    } else {
      assert weight == 0x100_0000_0000_0000 && first == 192 + first % 64;
    }
  }

  /** Reading back: any encoding of a value, minimal or not, is read as that value and nothing more. */
  lemma EncodedReads(b: seq<byte>, v: nat, rest: seq<byte>)
    requires Encodes(b, v)
    ensures Varint(b + rest) == Some(Number(v, |b|))
  {
    var all := b + rest;
    assert all[0] == b[0];
    VarintEncodes(all);
    assert all[..|b|] == b;
  }

  // ----- Entries

  datatype Entry = Entry(tag: nat, value: seq<byte>, raw: seq<byte>)

  /** The bytes of one entry: an encoded tag, an encoded length and that many value bytes. */
  ghost predicate Layout(e: Entry) {
    exists i, j :: SplitsAt(e, i, j)
  }

  ghost predicate SplitsAt(e: Entry, i: nat, j: nat) {
    && i <= j <= |e.raw|
    && Encodes(e.raw[..i], e.tag)
    && Encodes(e.raw[i..j], |e.value|)
    && e.raw[j..] == e.value
  }

  function Bytes(es: seq<Entry>): seq<byte> {
    if es == [] then [] else es[0].raw + Bytes(es[1..])
  }

  datatype Cut = Cut(entry: Entry, rest: seq<byte>)

  /** One entry and what follows it, in the two steps in which both programs advance. */
  function First(raw: seq<byte>): (r: Option<Cut>)
    ensures r.Some? ==> |r.value.rest| + 2 + |r.value.entry.value| <= |raw|
  {
    match Varint(raw)
    case None => None
    case Some(tag) =>
      var afterTag := raw[tag.size..];
      match Varint(afterTag)
      case None => None
      case Some(len) =>
        var body := afterTag[len.size..];
        if len.value > |body| then None
        else
          var rest := body[len.value..];
          Some(Cut(Entry(tag.value, body[..len.value], raw[..|raw| - |rest|]), rest))
  }

  lemma Drops<T>(s: seq<T>, i: nat, j: nat, k: nat)
    requires i + j + k <= |s|
    ensures s[i..][j..][k..] == s[i + j + k..]
  {
  }

  lemma FirstSplits(raw: seq<byte>)
    requires First(raw).Some?
    ensures First(raw).value.entry.raw + First(raw).value.rest == raw
  {
    var tag := Varint(raw).value;
    var len := Varint(raw[tag.size..]).value;
    Drops(raw, tag.size, len.size, len.value);
    Pieces(raw, |raw| - |First(raw).value.rest|, |raw|);
  }

  lemma Pieces<T>(s: seq<T>, i: nat, j: nat)
    requires i <= j <= |s|
    ensures s[..i] + (s[i..j] + s[j..]) == s
  {
  }

  lemma CutPieces<T>(s: seq<T>, i: nat, j: nat, k: nat)
    requires i <= |s| && j <= |s[i..]| && k <= |s[i..][j..]|
    ensures s[..|s| - |s[i..][j..][k..]|] == s[..i] + (s[i..][..j] + s[i..][j..][..k])
  {
  }

  lemma Regroup<T>(a: seq<T>, b: seq<T>, c: seq<T>, d: seq<T>)
    ensures a + (b + (c + d)) == a + (b + c) + d
    ensures b + (c + d) == b + c + d
    ensures (a + (b + c) + d)[..|a| + |b| + |c|] == a + (b + c)
  {
  }

  lemma PiecesOf<T>(a: seq<T>, b: seq<T>, c: seq<T>)
    ensures (a + (b + c))[..|a|] == a && (a + (b + c))[|a|..] == b + c
    ensures (b + c)[..|b|] == b && (b + c)[|b|..] == c
    ensures (a + (b + c))[|a|..|a| + |b|] == b
    ensures (a + (b + c))[|a| + |b|..] == c
  {
  }

  function Parse(raw: seq<byte>): Option<seq<Entry>>
    decreases |raw|
  {
    if raw == [] then Some([])
    else
      match First(raw)
      case None => None
      case Some(cut) =>
        match Parse(cut.rest)
        case None => None
        case Some(es) => Some([cut.entry] + es)
  }

  ghost predicate AllLaidOut(es: seq<Entry>) {
    forall e | e in es :: Layout(e)
  }

  lemma FirstIsLaidOut(raw: seq<byte>)
    requires First(raw).Some?
    ensures Layout(First(raw).value.entry)
  {
    var tag := Varint(raw).value;
    var afterTag := raw[tag.size..];
    var len := Varint(afterTag).value;
    var e := First(raw).value.entry;
    VarintEncodes(raw);
    VarintEncodes(afterTag);
    var t, l := raw[..tag.size], afterTag[..len.size];
    CutPieces(raw, tag.size, len.size, len.value);
    PiecesOf(t, l, e.value);
    assert SplitsAt(e, |t|, |t| + |l|);
  }

  lemma LaidOutIsFirst(e: Entry, rest: seq<byte>)
    requires Layout(e)
    ensures First(e.raw + rest) == Some(Cut(e, rest))
  {
    var i: nat, j: nat :| SplitsAt(e, i, j);
    Pieces(e.raw, i, j);
    FirstReads(e.raw[..i], e.tag, e.raw[i..j], e.value, rest);
    Regroup(e.raw[..i], e.raw[i..j], e.value, rest);
  }

  lemma FirstReads(t: seq<byte>, tag: nat, l: seq<byte>, v: seq<byte>, rest: seq<byte>)
    requires Encodes(t, tag) && Encodes(l, |v|)
    ensures First(t + (l + (v + rest))) == Some(Cut(Entry(tag, v, t + (l + v)), rest))
  {
    var all := t + (l + (v + rest));
    PiecesOf(t, l, v + rest);
    PiecesOf(l, v, rest);
    EncodedReads(t, tag, l + (v + rest));
    EncodedReads(l, |v|, v + rest);
    Regroup(t, l, v, rest);
  }

  /** The reader accepts exactly the strings of the grammar, and their division into entries is unique. */
  lemma ParseIsGrammar(raw: seq<byte>, es: seq<Entry>)
    ensures Parse(raw) == Some(es) <==> AllLaidOut(es) && Bytes(es) == raw
  {
    if Parse(raw) == Some(es) {
      ParsedIsLaidOut(raw);
    }
    if AllLaidOut(es) && Bytes(es) == raw {
      LaidOutParses(es);
    }
  }

  lemma {:induction false} ParsedIsLaidOut(raw: seq<byte>)
    requires Parse(raw).Some?
    ensures AllLaidOut(Parse(raw).value) && Bytes(Parse(raw).value) == raw
    decreases |raw|
  {
    if raw != [] {
      var cut := First(raw).value;
      FirstIsLaidOut(raw);
      FirstSplits(raw);
      ParsedIsLaidOut(cut.rest);
      var es := Parse(cut.rest).value;
      assert ([cut.entry] + es)[1..] == es;
    }
  }

  lemma {:induction false} LaidOutParses(es: seq<Entry>)
    requires AllLaidOut(es)
    ensures Parse(Bytes(es)) == Some(es)
  {
    if es != [] {
      LaidOutIsFirst(es[0], Bytes(es[1..]));
      LaidOutParses(es[1..]);
      assert es == [es[0]] + es[1..];
    }
  }

  lemma {:induction false} BytesAppend(a: seq<Entry>, b: seq<Entry>)
    ensures Bytes(a + b) == Bytes(a) + Bytes(b)
  {
    if a == [] {
      assert a + b == b;
    } else {
      assert (a + b)[1..] == a[1..] + b;
      BytesAppend(a[1..], b);
    }
  }

  /** Every entry takes at least two bytes. */
  lemma {:induction false} EntriesTakeTwoBytes(raw: seq<byte>)
    requires Parse(raw).Some?
    ensures 2 * |Parse(raw).value| <= |raw|
    decreases |raw|
  {
    if raw != [] {
      EntriesTakeTwoBytes(First(raw).value.rest);
    }
  }

  // ----- Rewriting

  datatype Settings = Settings(http3: bool, antiDpi: bool, ipv6: bool)

  predicate Managed(tag: nat) {
    tag == 4 || tag == 9 || tag == 10
  }

  function Keep(es: seq<Entry>): seq<Entry> {
    if es == [] then []
    else if Managed(es[0].tag) then Keep(es[1..])
    else [es[0]] + Keep(es[1..])
  }

  function BoolByte(b: bool): byte {
    if b then 1 else 0
  }

  function ProtocolByte(s: Settings): byte {
    if s.http3 then 2 else 1
  }

  function OneByte(tag: byte, v: byte): Entry {
    Entry(tag, [v], [tag, 1, v])
  }

  function SettingEntries(s: Settings): seq<Entry> {
    [OneByte(4, BoolByte(s.ipv6))] + ([OneByte(9, ProtocolByte(s))] + [OneByte(10, BoolByte(s.antiDpi))])
  }

  function Tune(raw: seq<byte>, s: Settings): Option<seq<byte>> {
    match Parse(raw)
    case None => None
    case Some(es) => Some(Bytes(Keep(es) + SettingEntries(s)))
  }

  lemma {:induction false} KeepSnoc(es: seq<Entry>, e: Entry)
    ensures Keep(es + [e]) == Keep(es) + if Managed(e.tag) then [] else [e]
  {
    if es == [] {
      assert es + [e] == [e];
      assert [e][1..] == [];
    } else {
      assert (es + [e])[1..] == es[1..] + [e];
      KeepSnoc(es[1..], e);
    }
  }

  function Resume(read: seq<Entry>, tail: Option<seq<Entry>>): Option<seq<Entry>> {
    match tail
    case None => None
    case Some(es) => Some(read + es)
  }

  lemma ResumeStep(read: seq<Entry>, raw: seq<byte>)
    requires First(raw).Some?
    ensures var cut := First(raw).value;
            Resume(read, Parse(raw)) == Resume(read + [cut.entry], Parse(cut.rest))
  {
    var cut := First(raw).value;
    if Parse(cut.rest).Some? {
      var es := Parse(cut.rest).value;
      assert read + ([cut.entry] + es) == read + [cut.entry] + es;
    }
  }

  lemma BytesOne(e: Entry)
    ensures Bytes([e]) == e.raw
  {
    assert [e][1..] == [];
  }

  /** The loop of `tuneLink` on decoded bytes. */
  method TuneLink(raw: seq<byte>, s: Settings) returns (r: Option<seq<byte>>)
    ensures r == Tune(raw, s)
    ensures r.Some? ==>
              && |r.value| >= 9
              && r.value[|r.value| - 9..] ==
                 [4, 1, if s.ipv6 then 1 else 0, 9, 1, if s.http3 then 2 else 1, 10, 1, if s.antiDpi then 1 else 0]
  {
    var rest := raw;
    var out := [];
    ghost var read: seq<Entry> := [];
    assert forall es: seq<Entry> :: [] + es == es;
    while |rest| > 0
      invariant Bytes(Keep(read)) == out
      invariant Parse(raw) == Resume(read, Parse(rest))
      decreases |rest|
    {
      var entry := rest;
      var tag, n, ok := ReadVarint(rest);
      if !ok {
        return None;
      }
      rest := rest[n..];
      var size;
      size, n, ok := ReadVarint(rest);
      if !ok {
        return None;
      }
      rest := rest[n..];
      if size > |rest| {
        return None;
      }
      rest := rest[size..];
      var taken := entry[..|entry| - |rest|];
      ghost var cut := First(entry).value;
      assert cut.entry.raw == taken && cut.rest == rest && cut.entry.tag == tag;
      ResumeStep(read, entry);
      KeepSnoc(read, cut.entry);
      BytesAppend(Keep(read), [cut.entry]);
      BytesOne(cut.entry);
      assert Keep(read) + [] == Keep(read);
      read := read + [cut.entry];
      if tag != 4 && tag != 9 && tag != 10 {
        out := out + taken;
      }
    }
    assert read + [] == read;
    BytesAppend(Keep(read), SettingEntries(s));
    SettingBytes(s);
    r := Some(out + [4, 1, BoolByte(s.ipv6), 9, 1, ProtocolByte(s), 10, 1, BoolByte(s.antiDpi)]);
  }

  lemma OneByteLaidOut(tag: byte, v: byte)
    requires tag < 64
    ensures Layout(OneByte(tag, v))
  {
    var e := OneByte(tag, v);
    PiecesOf([tag], [1], [v]);
    assert e.raw == [tag] + ([1] + [v]);
    NetworkOne(tag);
    NetworkOne(1);
    assert SplitsAt(e, 1, 2);
  }

  lemma NetworkOne(b: byte)
    ensures Network([b]) == b
  {
    assert [b][..0] == [];
  }

  lemma SettingBytes(s: Settings)
    ensures Bytes(SettingEntries(s)) ==
            [4, 1, BoolByte(s.ipv6), 9, 1, ProtocolByte(s), 10, 1, BoolByte(s.antiDpi)]
  {
    var a, b, c := OneByte(4, BoolByte(s.ipv6)), OneByte(9, ProtocolByte(s)), OneByte(10, BoolByte(s.antiDpi));
    BytesAppend([a], [b] + [c]);
    BytesAppend([b], [c]);
    BytesOne(a);
    BytesOne(b);
    BytesOne(c);
  }

  lemma LaidOutTogether(a: Entry, b: Entry, c: Entry)
    requires Layout(a) && Layout(b) && Layout(c)
    ensures AllLaidOut([a, b, c])
  {
    forall e | e in [a, b, c]
      ensures Layout(e)
    {
      assert e == a || e == b || e == c;
    }
  }

  lemma SettingsLaidOut(s: Settings)
    ensures AllLaidOut(SettingEntries(s))
  {
    OneByteLaidOut(4, BoolByte(s.ipv6));
    OneByteLaidOut(9, ProtocolByte(s));
    OneByteLaidOut(10, BoolByte(s.antiDpi));
    LaidOutTogether(OneByte(4, BoolByte(s.ipv6)), OneByte(9, ProtocolByte(s)), OneByte(10, BoolByte(s.antiDpi)));
  }

  lemma {:induction false} KeepFacts(es: seq<Entry>)
    ensures forall e | e in Keep(es) :: e in es && !Managed(e.tag)
    ensures |Bytes(Keep(es))| <= |Bytes(es)|
  {
    if es != [] {
      KeepFacts(es[1..]);
    }
  }

  lemma {:induction false} KeepAppend(a: seq<Entry>, b: seq<Entry>)
    ensures Keep(a + b) == Keep(a) + Keep(b)
  {
    if a == [] {
      assert a + b == b;
    } else {
      assert (a + b)[1..] == a[1..] + b;
      KeepAppend(a[1..], b);
    }
  }

  lemma {:induction false} KeepTwice(es: seq<Entry>)
    ensures Keep(Keep(es)) == Keep(es)
  {
    if es != [] {
      KeepTwice(es[1..]);
      if !Managed(es[0].tag) {
        assert Keep(es)[1..] == Keep(es[1..]);
      }
    }
  }

  /**
   The tuned link parses; its entries are the input entries with other tags, byte for byte and in
   order, followed by one entry for each managed tag; it is at most nine bytes longer.
   */
  lemma TunedEntries(raw: seq<byte>, s: Settings)
    requires Parse(raw).Some?
    ensures Tune(raw, s).Some?
    ensures Parse(Tune(raw, s).value) == Some(Keep(Parse(raw).value) + SettingEntries(s))
    ensures |Tune(raw, s).value| <= |raw| + 9
  {
    var es := Parse(raw).value;
    ParseIsGrammar(raw, es);
    KeepFacts(es);
    SettingBytes(s);
    SettingsLaidOut(s);
    BytesAppend(Keep(es), SettingEntries(s));
    ParseIsGrammar(Tune(raw, s).value, Keep(es) + SettingEntries(s));
  }

  /** Last write wins: tuning a tuned link again is tuning the original with the newer settings. */
  lemma LastWriteWins(raw: seq<byte>, older: Settings, newer: Settings)
    requires Parse(raw).Some?
    ensures Tune(Tune(raw, older).value, newer) == Tune(raw, newer)
  {
    TunedEntries(raw, older);
    RetunedEntries(Parse(raw).value, older);
  }

  lemma RetunedEntries(es: seq<Entry>, s: Settings)
    ensures Keep(Keep(es) + SettingEntries(s)) == Keep(es)
  {
    var a, b, c := OneByte(4, BoolByte(s.ipv6)), OneByte(9, ProtocolByte(s)), OneByte(10, BoolByte(s.antiDpi));
    KeepAppend(Keep(es), SettingEntries(s));
    KeepTwice(es);
    KeepAppend([a], [b] + [c]);
    KeepAppend([b], [c]);
    assert Keep([a]) == Keep([b]) == Keep([c]) == [];
    assert Keep(es) + [] == Keep(es);
  }

  lemma {:induction false} PrefixParses(es: seq<Entry>, j: nat)
    requires j <= |es| && AllLaidOut(es)
    ensures Bytes(es[..j]) + Bytes(es[j..]) == Bytes(es)
    ensures Parse(Bytes(es[..j])) == Some(es[..j])
  {
    assert es[..j] + es[j..] == es;
    BytesAppend(es[..j], es[j..]);
    ParseIsGrammar(Bytes(es[..j]), es[..j]);
  }

  /** A truncated payload is accepted exactly when the cut falls between two entries. */
  lemma {:induction false} TruncationRejected(raw: seq<byte>, k: nat)
    requires Parse(raw).Some? && k <= |raw|
    ensures var es := Parse(raw).value;
            Parse(raw[..k]).Some? <==> exists j: nat | j <= |es| :: |Bytes(es[..j])| == k
    decreases |raw|
  {
    var es := Parse(raw).value;
    ParseIsGrammar(raw, es);
    if Parse(raw[..k]).Some? {
      TruncatedIsPrefix(raw, k);
      var short := Parse(raw[..k]).value;
      ParseIsGrammar(raw[..k], short);
      assert es[..|short|] == short;
    }
    if j: nat :| j <= |es| && |Bytes(es[..j])| == k {
      PrefixParses(es, j);
      assert raw[..k] == Bytes(es[..j]);
    }
  }

  lemma {:induction false} TruncatedIsPrefix(raw: seq<byte>, k: nat)
    requires Parse(raw).Some? && k <= |raw| && Parse(raw[..k]).Some?
    ensures Parse(raw[..k]).value <= Parse(raw).value
    decreases |raw|
  {
    if k > 0 {
      var short := First(raw[..k]).value;
      var tail := short.rest + raw[k..];
      FirstIsStable(raw, k);
      var skip := |short.entry.raw|;
      assert tail[..k - skip] == short.rest;
      TruncatedIsPrefix(tail, k - skip);
    }
  }

  lemma Reassociate(a: seq<byte>, b: seq<byte>, c: seq<byte>)
    ensures (a + b) + c == a + (b + c)
  {
  }

  lemma LaidOutFirst(e: Entry, rest: seq<byte>, more: seq<byte>, all: seq<byte>)
    requires Layout(e) && all == e.raw + rest
    ensures First(all + more) == Some(Cut(e, rest + more))
  {
    Reassociate(e.raw, rest, more);
    LaidOutIsFirst(e, rest + more);
  }

  /** More bytes behind the first entry do not change it. */
  lemma Extended(head: seq<byte>, more: seq<byte>)
    requires First(head).Some?
    ensures First(head + more) == Some(Cut(First(head).value.entry, First(head).value.rest + more))
  {
    FirstIsLaidOut(head);
    FirstSplits(head);
    LaidOutFirst(First(head).value.entry, First(head).value.rest, more, head);
  }

  lemma FirstIsStable(raw: seq<byte>, k: nat)
    requires k <= |raw| && First(raw[..k]).Some?
    ensures var short := First(raw[..k]).value;
            First(raw) == Some(Cut(short.entry, short.rest + raw[k..]))
  {
    Extended(raw[..k], raw[k..]);
    assert raw[..k] + raw[k..] == raw;
  }

  // ----- The independent reader

  /** Field map of a payload: a repeated tag keeps its last value. */
  function Fields(es: seq<Entry>): map<nat, seq<byte>> {
    if es == [] then map[]
    else Fields(es[..|es| - 1])[es[|es| - 1].tag := es[|es| - 1].value]
  }

  function AllFields(payload: seq<byte>): Option<map<nat, seq<byte>>> {
    match Parse(payload)
    case None => None
    case Some(es) => Some(Fields(es))
  }

  /** The loop of `decodeFields` on decoded bytes. */
  method DecodeFields(payload: seq<byte>) returns (fields: Option<map<nat, seq<byte>>>)
    ensures fields == AllFields(payload)
  {
    var raw := payload;
    var found: map<nat, seq<byte>> := map[];
    ghost var read: seq<Entry> := [];
    assert forall es: seq<Entry> :: [] + es == es;
    while |raw| > 0
      invariant found == Fields(read)
      invariant Parse(payload) == Resume(read, Parse(raw))
      decreases |raw|
    {
      ghost var before := raw;
      var tag, n, ok := ReadVarint(raw);
      if !ok {
        return None;
      }
      raw := raw[n..];
      var size;
      size, n, ok := ReadVarint(raw);
      if !ok || size > |raw| - n {
        return None;
      }
      raw := raw[n..];
      found := found[tag := raw[..size]];
      raw := raw[size..];
      ghost var cut := First(before).value;
      ResumeStep(read, before);
      FieldsSnoc(read, cut.entry);
      read := read + [cut.entry];
    }
    assert read + [] == read;
    fields := Some(found);
  }

  lemma UpdateAndRemove<K, V>(m: map<K, V>, k: K, v: V, gone: set<K>, kept: map<K, V>)
    requires kept == m - gone
    ensures k in gone ==> kept == m[k := v] - gone
    ensures k !in gone ==> kept[k := v] == m[k := v] - gone
  {
  }

  lemma {:induction false} FieldsOfKept(es: seq<Entry>)
    ensures Fields(Keep(es)) == Fields(es) - {4, 9, 10}
  {
    if es != [] {
      var init, last := es[..|es| - 1], es[|es| - 1];
      FieldsOfKept(init);
      FieldsOfKeptSnoc(init, last);
      assert es == init + [last];
    }
  }

  lemma KeptFieldsSnoc(init: seq<Entry>, last: Entry)
    ensures Fields(Keep(init + [last])) ==
            if Managed(last.tag) then Fields(Keep(init)) else Fields(Keep(init))[last.tag := last.value]
  {
    KeepSnoc(init, last);
    if Managed(last.tag) {
      assert Keep(init) + [] == Keep(init);
    } else {
      FieldsSnoc(Keep(init), last);
    }
  }

  lemma RemovedSnoc(m: map<nat, seq<byte>>, kept: map<nat, seq<byte>>, tag: nat, value: seq<byte>)
    requires kept == m - {4, 9, 10}
    ensures (if Managed(tag) then kept else kept[tag := value]) == m[tag := value] - {4, 9, 10}
  {
    ghost var gone := {4, 9, 10};
    UpdateAndRemove(m, tag, value, gone, kept);
  }

  lemma FieldsOfKeptSnoc(init: seq<Entry>, last: Entry)
    requires Fields(Keep(init)) == Fields(init) - {4, 9, 10}
    ensures Fields(Keep(init + [last])) == Fields(init + [last]) - {4, 9, 10}
  {
    KeptFieldsSnoc(init, last);
    FieldsSnoc(init, last);
    RemovedSnoc(Fields(init), Fields(Keep(init)), last.tag, last.value);
  }

  /** Both programs accept the same payloads and agree on every field the rewriter does not manage. */
  lemma ReadersAgree(raw: seq<byte>, s: Settings)
    ensures Tune(raw, s).Some? <==> Parse(raw).Some?
    ensures Parse(raw).Some? ==>
              var tuned := Parse(Tune(raw, s).value);
              && tuned.Some?
              && Fields(tuned.value) ==
                 (Fields(Parse(raw).value) - {4, 9, 10})
                 [4 := if s.ipv6 then [1] else [0]][9 := if s.http3 then [2] else [1]]
                 [10 := if s.antiDpi then [1] else [0]]
  {
    if Parse(raw).Some? {
      TunedEntries(raw, s);
      FieldsOfKept(Parse(raw).value);
      FieldsOfTuned(Keep(Parse(raw).value), s);
    }
  }

  lemma FieldsSnoc(es: seq<Entry>, e: Entry)
    ensures Fields(es + [e]) == Fields(es)[e.tag := e.value]
  {
    assert (es + [e])[..|es|] == es;
  }

  lemma FieldsOfTuned(kept: seq<Entry>, s: Settings)
    ensures Fields(kept + SettingEntries(s)) ==
            Fields(kept)[4 := [BoolByte(s.ipv6)]][9 := [ProtocolByte(s)]][10 := [BoolByte(s.antiDpi)]]
  {
    var a, b, c := OneByte(4, BoolByte(s.ipv6)), OneByte(9, ProtocolByte(s)), OneByte(10, BoolByte(s.antiDpi));
    FieldsSnoc(kept, a);
    FieldsSnoc(kept + [a], b);
    FieldsSnoc(kept + [a] + [b], c);
    assert kept + SettingEntries(s) == kept + [a] + [b] + [c];
  }

  // ----- The link text around the payload

  const Scheme := "tt://?"
  const Limit: nat := 0x10_0000

  /** Unpadded URL-safe base64 (section 5 of RFC 4648), a library both programs call. */
  datatype Base64 = Base64(decode: string -> Option<seq<byte>>, encode: seq<byte> -> string)

  ghost predicate Lawful(c: Base64) {
    && (forall b: seq<byte> :: c.decode(c.encode(b)) == Some(b))
    && (forall b: seq<byte> :: |c.encode(b)| == (4 * |b| + 2) / 3)
  }

  function TuneText(c: Base64, link: string, s: Settings): Option<string> {
    if !(Scheme <= link) then None
    else
      var payload := link[|Scheme|..];
      if payload == "" || |payload| > Limit then None
      else
        match c.decode(payload)
        case None => None
        case Some(raw) =>
          match Tune(raw, s)
          case None => None
          case Some(out) => Some(Scheme + c.encode(out))
  }

  function ReadText(c: Base64, link: string): Option<map<nat, seq<byte>>> {
    if !(Scheme <= link) || |link| > Limit then None
    else
      match c.decode(link[|Scheme|..])
      case None => None
      case Some(raw) =>
        AllFields(raw)
  }

  /**
   Retuning a tuned link succeeds exactly when that link is still within the size the rewriter
   itself accepts, and then equals tuning the original once. The up to nine added bytes can push a
   link at the limit over it.
   */
  lemma RetuneText(c: Base64, link: string, older: Settings, newer: Settings)
    requires Lawful(c)
    requires TuneText(c, link, older).Some?
    ensures var once := TuneText(c, link, older).value;
            && Scheme <= once
            && (TuneText(c, once, newer).Some? <==> |once| <= |Scheme| + Limit)
            && (TuneText(c, once, newer).Some? ==> TuneText(c, once, newer) == TuneText(c, link, newer))
  {
    var raw := c.decode(link[|Scheme|..]).value;
    var out := Tune(raw, older).value;
    var once := TuneText(c, link, older).value;
    assert once[|Scheme|..] == c.encode(out);
    TunedEntries(raw, older);
    LastWriteWins(raw, older, newer);
    ParseIsGrammar(raw, Parse(raw).value);
    SettingBytes(older);
    BytesAppend(Keep(Parse(raw).value), SettingEntries(older));
    assert |out| >= 9;
  }

  /** A link at the limit that carries none of the managed tags can be tuned once but not twice. */
  lemma RetuneCanFail(c: Base64, raw: seq<byte>, s: Settings)
    requires Lawful(c)
    requires Parse(raw).Some? && Keep(Parse(raw).value) == Parse(raw).value
    requires Limit - 12 < |c.encode(raw)| <= Limit
    ensures var once := TuneText(c, Scheme + c.encode(raw), s);
            once.Some? && TuneText(c, once.value, s).None?
  {
    var link := Scheme + c.encode(raw);
    assert link[|Scheme|..] == c.encode(raw);
    var es := Parse(raw).value;
    ParseIsGrammar(raw, es);
    SettingBytes(s);
    BytesAppend(es, SettingEntries(s));
    RetuneText(c, link, s, s);
  }

  /** One entry with tag 1 whose link text is exactly as long as the limit. */
  const FullHead: seq<byte> := [1] + [128, 11, 255, 251]
  const FullValue: seq<byte> := seq(786427, _ => 0)

  lemma FullLength()
    ensures Encodes([128, 11, 255, 251], 786427) && Encodes([1], 1)
  {
    var b: seq<byte> := [128, 11, 255, 251];
    NetworkOne(1);
    NetworkOne(128);
    assert b[..3] == [128, 11, 255] && b[..3][..2] == [128, 11] && b[..3][..2][..1] == [128];
    assert Network([128, 11]) == 128 * 256 + 11;
    assert Network([128, 11, 255]) == (128 * 256 + 11) * 256 + 255;
    assert Network(b) == 0x8000_0000 + 786427;
  }

  /** A payload of 786432 bytes, tuned once, makes a link that cannot be tuned again. */
  lemma FullLinkRetuneFails(c: Base64, s: Settings)
    requires Lawful(c)
    ensures var once := TuneText(c, Scheme + c.encode(FullHead + FullValue), s);
            once.Some? && TuneText(c, once.value, s).None?
  {
    var raw := FullHead + FullValue;
    var e := Entry(1, FullValue, raw);
    FullLength();
    assert raw[..1] == [1] && raw[1..5] == [128, 11, 255, 251] && raw[5..] == FullValue;
    assert SplitsAt(e, 1, 5);
    BytesOne(e);
    ParseIsGrammar(raw, [e]);
    assert Keep([e]) == [e] by {
      assert [e][1..] == [];
    }
    assert |c.encode(raw)| == (4 * 786432 + 2) / 3;
    RetuneCanFail(c, raw, s);
  }

  /** On links both programs look at, they accept the same ones. */
  lemma TextReadersAgree(c: Base64, link: string, s: Settings)
    requires |Scheme| < |link| <= Limit
    ensures TuneText(c, link, s).Some? <==> ReadText(c, link).Some?
  {
    if Scheme <= link {
      match c.decode(link[|Scheme|..])
      case None =>
      case Some(raw) => ReadersAgree(raw, s);
    }
  }
}
