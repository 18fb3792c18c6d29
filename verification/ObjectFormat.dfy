/**
 The object file format by byte positions: where each number, name and table of
 a prototype stands, that writing puts it there, and that any bytes laid out so
 read back as the prototype.
 */
module ObjectFormat {
  import opened Wrappers
  import opened Values
  import opened Bytecode
  import opened Serializer

  // ----- Numbers, names and tables at a position -----

  /** The number `n` stands at `at` in `w` bytes, least significant first. */
  ghost predicate NumberAt(data: Bytes, at: nat, n: nat, w: nat) {
    at + w <= |data| && forall i: nat :: i < w ==> ByteAt(data, at, n, i)
  }

  ghost predicate ByteAt(data: Bytes, at: nat, n: nat, i: nat) {
    at + i < |data| && data[at + i] == n / Pow256(i) % 256
  }

  ghost predicate TextAt(data: Bytes, at: nat, text: Bytes) {
    at + |text| <= |data| && forall i :: 0 <= i < |text| ==> data[at + i] == text[i]
  }

  /** Entry `k` stands at `at + k * w`. */
  ghost predicate TableAt(data: Bytes, at: nat, ns: seq<nat>, w: nat) {
    at + |ns| * w <= |data| && forall k: nat :: k < |ns| ==> EntryAt(data, at, ns, w, k)
  }

  ghost predicate EntryAt(data: Bytes, at: nat, ns: seq<nat>, w: nat, k: nat)
    requires k < |ns|
  {
    NumberAt(data, at + k * w, ns[k], w)
  }

  lemma {:induction false} NumberLocated(data: Bytes, at: nat, n: nat, w: nat)
    ensures Located(data, at, LittleEndian(n, w)) <==> NumberAt(data, at, n, w)
  {
    var b := LittleEndian(n, w);
    if Located(data, at, b) {
      forall i: nat | i < w
        ensures ByteAt(data, at, n, i)
      {
        assert SameByte(data, at, b, i);
      }
    }
    if NumberAt(data, at, n, w) {
      forall i: nat | i < w
        ensures SameByte(data, at, b, i)
      {
        assert ByteAt(data, at, n, i);
      }
    }
  }

  lemma {:induction false} TextLocated(data: Bytes, at: nat, text: Bytes)
    ensures Located(data, at, text) <==> TextAt(data, at, text)
  {
    if Located(data, at, text) {
      forall i | 0 <= i < |text|
        ensures data[at + i] == text[i]
      {
        assert SameByte(data, at, text, i);
      }
    }
  }

  /** Two parts stand one after the other. */
  lemma {:induction false} LocatedJoin(data: Bytes, at: nat, a: Bytes, b: Bytes)
    requires Located(data, at, a) && Located(data, at + |a|, b)
    ensures Located(data, at, a + b)
  {
    var ab := a + b;
    forall i: nat | i < |ab|
      ensures SameByte(data, at, ab, i)
    {
      if i < |a| {
        assert SameByte(data, at, a, i);
      } else {
        assert SameByte(data, at + |a|, b, i - |a|);
      }
    }
  }

  /** The first `n` entries of a table. */
  ghost predicate TableTo(data: Bytes, at: nat, ns: seq<nat>, w: nat, n: nat)
    requires n <= |ns|
  {
    at + n * w <= |data| && forall k: nat :: k < n ==> EntryAt(data, at, ns, w, k)
  }

  lemma {:induction false} TableNext(data: Bytes, at: nat, ns: seq<nat>, w: nat, n: nat)
    requires n < |ns|
    ensures TableTo(data, at, ns, w, n + 1) <==> TableTo(data, at, ns, w, n) && NumberAt(data, at + n * w, ns[n], w)
  {
    assert (n + 1) * w == n * w + w;
    assert EntryAt(data, at, ns, w, n) <==> NumberAt(data, at + n * w, ns[n], w);
  }

  lemma {:induction false} TableLocated(data: Bytes, at: nat, ns: seq<nat>, w: nat, n: nat)
    requires n <= |ns|
    ensures Located(data, at, ListBytes(ns, n, w)) <==> TableTo(data, at, ns, w, n)
  {
    if n > 0 {
      var front, last := ListBytes(ns, n - 1, w), LittleEndian(ns[n - 1], w);
      TableLocated(data, at, ns, w, n - 1);
      TableNext(data, at, ns, w, n - 1);
      NumberLocated(data, at + (n - 1) * w, ns[n - 1], w);
      if Located(data, at, front + last) {
        LocatedSplit(data, at, front, last);
      }
      if Located(data, at, front) && Located(data, at + |front|, last) {
        LocatedJoin(data, at, front, last);
      }
    }
  }

  // ----- Fields one after another -----

  lemma {:induction false} HoldsNumber(data: Bytes, pos: nat, n: nat, w: nat, rest: Fields, end: nat)
    ensures Holds(data, pos, Then(Num(n, w), rest), end) <==> NumberAt(data, pos, n, w) && Holds(data, pos + w, rest, end)
  {
    NumberLocated(data, pos, n, w);
  }

  lemma {:induction false} HoldsText(data: Bytes, pos: nat, text: Bytes, rest: Fields, end: nat)
    ensures Holds(data, pos, Then(Raw(text), rest), end) <==> TextAt(data, pos, text) && Holds(data, pos + |text|, rest, end)
  {
    TextLocated(data, pos, text);
  }

  lemma {:induction false} HoldsTable(data: Bytes, pos: nat, ns: seq<nat>, w: nat, rest: Fields, end: nat)
    ensures Holds(data, pos, Then(Nums(ns, w), rest), end) <==> TableAt(data, pos, ns, w) && Holds(data, pos + |ns| * w, rest, end)
  {
    TableLocated(data, pos, ns, w, |ns|);
  }

  lemma {:induction false} HoldsEnd(data: Bytes, pos: nat, end: nat)
    ensures Holds(data, pos, End, end) <==> pos == end
  {
  }

  // ----- The layout of a prototype -----

  /** The two names, each after its length. */
  ghost predicate NamesLaid(data: Bytes, pos: nat, name: Bytes, source: Bytes) {
    && NumberAt(data, pos, |name|, 4) && TextAt(data, pos + 4, name)
    && NumberAt(data, pos + 4 + |name|, |source|, 4) && TextAt(data, pos + 8 + |name|, source)
  }

  /** Register count, parameter count, the vararg flag and a zero byte. */
  ghost predicate FlagsLaid(data: Bytes, b: nat, p: Prototype) {
    NumberAt(data, b, p.regCount, 2) && NumberAt(data, b + 2, p.paramCount, 2) && NumberAt(data, b + 4, p.isVararg, 1) && NumberAt(data, b + 5, 0, 1)
  }

  /** How many instructions, constants, strings and nested prototypes there are. */
  ghost predicate CountsLaid(data: Bytes, b: nat, p: Prototype) {
    && NumberAt(data, b + 6, |p.instrs|, 4) && NumberAt(data, b + 10, |p.consts|, 4)
    && NumberAt(data, b + 14, p.strCount, 4) && NumberAt(data, b + 18, p.protoCount, 4)
  }

  function LineCount(p: Prototype): nat {
    if p.lineMap.None? then 0 else |p.lineMap.value|
  }

  function LineNumbers(p: Prototype): (ns: seq<nat>)
    ensures |ns| == LineCount(p) && forall k :: 0 <= k < |ns| ==> ns[k] == p.lineMap.value[k]
  {
    seq(LineCount(p), k requires 0 <= k < LineCount(p) => p.lineMap.value[k])
  }

  function WordNumbers(ws: seq<Word>): (ns: seq<nat>)
    ensures |ns| == |ws| && forall k :: 0 <= k < |ws| ==> ns[k] == ws[k]
  {
    seq(|ws|, k requires 0 <= k < |ws| => ws[k])
  }

  /** The instruction words, the constants, and the line map after its length. */
  ghost predicate TablesLaid(data: Bytes, t: nat, p: Prototype) {
    var c := t + |p.instrs| * 8;
    var l := c + |p.consts| * 8;
    && TableAt(data, t, WordNumbers(p.instrs), 8) && TableAt(data, c, WordNumbers(p.consts), 8)
    && NumberAt(data, l, LineCount(p), 4) && TableAt(data, l + 4, LineNumbers(p), 4)
  }

  /** Where the fixed fields start: after the two names. */
  function FixedAt(pos: nat, p: Prototype): nat {
    pos + 8 + |Text(p.name)| + |Text(p.source)|
  }

  function EndOf(pos: nat, p: Prototype): nat {
    FixedAt(pos, p) + 26 + |p.instrs| * 8 + |p.consts| * 8 + LineCount(p) * 4
  }

  /** The prototype stands in `data` at `pos`. */
  ghost predicate Laid(data: Bytes, pos: nat, p: Prototype) {
    && NamesLaid(data, pos, Text(p.name), Text(p.source)) && FlagsLaid(data, FixedAt(pos, p), p)
    && CountsLaid(data, FixedAt(pos, p), p) && TablesLaid(data, FixedAt(pos, p) + 22, p)
  }

  lemma {:induction false} NamesIff(data: Bytes, pos: nat, name: Bytes, source: Bytes, rest: Fields, end: nat)
    ensures Holds(data, pos, Then(Num(|name|, SIZE32), Then(Raw(name), Then(Num(|source|, SIZE32), Then(Raw(source), rest)))), end)
            <==> NamesLaid(data, pos, name, source) && Holds(data, pos + 8 + |name| + |source|, rest, end)
  {
    HoldsName(data, pos, name, Then(Num(|source|, SIZE32), Then(Raw(source), rest)), end);
    HoldsName(data, pos + 4 + |name|, source, rest, end);
  }

  lemma {:induction false} HoldsName(data: Bytes, pos: nat, text: Bytes, rest: Fields, end: nat)
    ensures Holds(data, pos, Then(Num(|text|, SIZE32), Then(Raw(text), rest)), end)
            <==> NumberAt(data, pos, |text|, 4) && TextAt(data, pos + 4, text) && Holds(data, pos + 4 + |text|, rest, end)
  {
    HoldsNumber(data, pos, |text|, 4, Then(Raw(text), rest), end);
    HoldsText(data, pos + 4, text, rest, end);
  }

  lemma {:induction false} FlagsIff(data: Bytes, b: nat, p: Prototype, end: nat)
    ensures Holds(data, b, FlagFields(p), end) <==> FlagsLaid(data, b, p) && Holds(data, b + 6, CountFields(p), end)
  {
    var z := CountFields(p);
    var y := Then(Num(0, SIZE8), z);
    var x := Then(Num(p.isVararg, SIZE8), y);
    var w := Then(Num(p.paramCount, SIZE16), x);
    HoldsNumber(data, b, p.regCount, 2, w, end);
    HoldsNumber(data, b + 2, p.paramCount, 2, x, end);
    HoldsNumber(data, b + 4, p.isVararg, 1, y, end);
    HoldsNumber(data, b + 5, 0, 1, z, end);
  }

  lemma {:induction false} CountsIff(data: Bytes, b: nat, p: Prototype, end: nat)
    ensures Holds(data, b + 6, CountFields(p), end) <==> CountsLaid(data, b, p) && Holds(data, b + 22, BodyFields(p), end)
  {
    var z := BodyFields(p);
    var y := Then(Num(p.protoCount, SIZE32), z);
    var x := Then(Num(p.strCount, SIZE32), y);
    var w := Then(Num(|p.consts|, SIZE32), x);
    HoldsNumber(data, b + 6, |p.instrs|, 4, w, end);
    HoldsNumber(data, b + 10, |p.consts|, 4, x, end);
    HoldsNumber(data, b + 14, p.strCount, 4, y, end);
    HoldsNumber(data, b + 18, p.protoCount, 4, z, end);
  }

  lemma {:induction false} SameTables(p: Prototype)
    ensures Numbers(p.instrs) == WordNumbers(p.instrs) && Numbers(p.consts) == WordNumbers(p.consts) && Lines(p) == LineNumbers(p)
  {
  }

  lemma {:induction false} TablesIff(data: Bytes, t: nat, p: Prototype, end: nat)
    ensures Holds(data, t, BodyFields(p), end)
            <==> TablesLaid(data, t, p) && end == t + |p.instrs| * 8 + |p.consts| * 8 + 4 + LineCount(p) * 4
  {
    SameTables(p);
    var c := t + |p.instrs| * 8;
    var l := c + |p.consts| * 8;
    var z := Then(Nums(LineNumbers(p), SIZE32), End);
    var y := Then(Num(LineCount(p), SIZE32), z);
    var x := Then(Nums(WordNumbers(p.consts), SIZE64), y);
    HoldsTable(data, t, WordNumbers(p.instrs), 8, x, end);
    HoldsTable(data, c, WordNumbers(p.consts), 8, y, end);
    HoldsNumber(data, l, LineCount(p), 4, z, end);
    HoldsTable(data, l + 4, LineNumbers(p), 4, End, end);
    HoldsEnd(data, l + 4 + LineCount(p) * 4, end);
  }

  lemma {:induction false} LaidIff(data: Bytes, pos: nat, p: Prototype, end: nat)
    ensures Holds(data, pos, ProtoFields(p), end) <==> Laid(data, pos, p) && end == EndOf(pos, p)
  {
    var b := FixedAt(pos, p);
    NamesIff(data, pos, Text(p.name), Text(p.source), FlagFields(p), end);
    FlagsIff(data, b, p, end);
    CountsIff(data, b, p, end);
    TablesIff(data, b + 22, p, end);
  }

  /** Serializing a prototype lays it out so, and writes nothing else. */
  lemma {:induction false} WrittenLaid(p: Prototype)
    ensures Laid(ProtoBytes(p), 0, p) && |ProtoBytes(p)| == EndOf(0, p)
  {
    var bytes := ProtoBytes(p);
    assert Located(bytes, 0, bytes) by {
      forall i | 0 <= i < |bytes| ensures SameByte(bytes, 0, bytes, i) {
      }
    }
    FlatHolds(bytes, 0, ProtoFields(p));
    LaidIff(bytes, 0, p, |bytes|);
  }

  /** Whatever bytes are laid out so, wherever they come from, read as the
      prototype, and reading ends right behind it. */
  lemma {:induction false} LaidReads(data: Bytes, pos: nat, p: Prototype)
    requires Writable(p) && Laid(data, pos, p)
    ensures ReadProto(data, pos)
         == (Prototype(Some(Text(p.name)), Some(Text(p.source)), |p.instrs| > 0, p.instrs, p.consts, p.regCount, p.paramCount,
                       p.isVararg, p.strCount, p.protoCount, if LineCount(p) == 0 then None else p.lineMap),
             EndOf(pos, p))
  {
    LaidIff(data, pos, p, EndOf(pos, p));
    ProtoBack(data, pos, p, EndOf(pos, p));
  }

  // ----- The file -----

  /** The 56 bytes of the header: the magic, version 1.0, no flags, one section,
      the time stamp and an empty checksum. */
  ghost predicate HeaderLaid(data: Bytes, timestamp: Word) {
    && |data| >= 56 && data[0] == 0x4F && data[1] == 0x4D && data[2] == 0x56 && data[3] == 0x57
    && NumberAt(data, 4, 1, 2) && NumberAt(data, 6, 0, 2) && NumberAt(data, 8, 0, 4) && NumberAt(data, 12, 1, 4)
    && NumberAt(data, 16, timestamp, 8) && forall i :: 24 <= i < 56 ==> data[i] == 0
  }

  lemma {:induction false} MagicDigits()
    ensures Digit(MAGIC, 0) == 0x4F && Digit(MAGIC, 1) == 0x4D && Digit(MAGIC, 2) == 0x56 && Digit(MAGIC, 3) == 0x57
  {
    assert Pow256(0) == 1 && Pow256(1) == 0x100 && Pow256(2) == 0x1_0000 && Pow256(3) == 0x100_0000;
  }

  lemma {:induction false} HeaderFieldsLaid(data: Bytes, timestamp: Word, end: nat)
    requires Holds(data, 0, HeaderFields(timestamp), end)
    ensures HeaderLaid(data, timestamp) && end == 56
  {
    var zeros: Bytes := seq(32, _ => 0);
    var g := Then(Raw(zeros), End);
    var f := Then(Num(timestamp, SIZE64), g);
    var e := Then(Num(1, SIZE32), f);
    var d := Then(Num(0, SIZE32), e);
    var c := Then(Num(0, SIZE16), d);
    var b := Then(Num(1, SIZE16), c);
    assert HeaderFields(timestamp) == Then(Num(MAGIC, SIZE32), b);
    HoldsNumber(data, 0, MAGIC, 4, b, end);
    HoldsNumber(data, 4, 1, 2, c, end);
    HoldsNumber(data, 6, 0, 2, d, end);
    HoldsNumber(data, 8, 0, 4, e, end);
    HoldsNumber(data, 12, 1, 4, f, end);
    HoldsNumber(data, 16, timestamp, 8, g, end);
    HoldsText(data, 24, zeros, End, end);
    HoldsEnd(data, 56, end);
    MagicDigits();
    assert ByteAt(data, 0, MAGIC, 0) && ByteAt(data, 0, MAGIC, 1) && ByteAt(data, 0, MAGIC, 2) && ByteAt(data, 0, MAGIC, 3);
    forall i | 24 <= i < 56
      ensures data[i] == 0
    {
      assert data[24 + (i - 24)] == zeros[i - 24];
    }
  }

  /** An object file is its header and then the prototype. */
  lemma {:induction false} ObjectLaid(p: Prototype, timestamp: Word, data: Bytes)
    requires data == HeaderBytes(timestamp) + ProtoBytes(p)
    ensures HeaderLaid(data, timestamp) && Laid(data, 56, p) && |data| == EndOf(56, p)
  {
    HeaderPart(timestamp, ProtoBytes(p), data);
    HeaderSize(timestamp);
    assert data == HeaderBytes(timestamp) + ProtoBytes(p) + [];
    PrototypePart(p, ProtoFields(p), HeaderBytes(timestamp), data);
    WrittenLaid(p);
  }

  lemma {:induction false} HeaderPart(timestamp: Word, rest: Bytes, data: Bytes)
    requires data == HeaderBytes(timestamp) + rest
    ensures HeaderLaid(data, timestamp)
  {
    var fs := HeaderFields(timestamp);
    assert data == [] + Flat(fs) + rest;
    FieldsBetween(fs, [], rest, data);
    HeaderFieldsLaid(data, timestamp, |Flat(fs)|);
  }

  lemma {:induction false} PrototypePart(p: Prototype, fs: Fields, before: Bytes, data: Bytes)
    requires fs == ProtoFields(p) && data == before + Flat(fs) + []
    ensures Laid(data, |before|, p)
  {
    FieldsBetween(fs, before, [], data);
    LaidIff(data, |before|, p, |before| + |Flat(fs)|);
  }

  /** The reader accepts a file by its first four bytes. */
  lemma {:induction false} MagicBytes(data: Bytes)
    requires |data| >= 4
    ensures ReadLittleEndian(data, 0, SIZE32) == MAGIC <==> data[0] == 0x4F && data[1] == 0x4D && data[2] == 0x56 && data[3] == 0x57
  {
    assert Pow256(0) == 1 && Pow256(1) == 0x100 && Pow256(2) == 0x1_0000 && Pow256(3) == 0x100_0000;
    var b0: int, b1: int, b2: int, b3: int := data[0], data[1], data[2], data[3];
    assert ReadLittleEndian(data, 0, 0) == 0;
    assert ReadLittleEndian(data, 0, 1) == b0;
    assert ReadLittleEndian(data, 0, 2) == b0 + b1 * 0x100;
    assert ReadLittleEndian(data, 0, 3) == b0 + b1 * 0x100 + b2 * 0x1_0000;
    assert ReadLittleEndian(data, 0, 4) == b0 + b1 * 0x100 + b2 * 0x1_0000 + b3 * 0x100_0000;
  }

  // ----- Short input -----

  /** Reading never goes past the end of the data or back. */
  lemma {:induction false} ListStays(data: Bytes, pos: nat, count: nat, w: nat)
    requires pos <= |data|
    ensures pos <= ReadList(data, pos, count, w).1 <= |data|
  {
    if count > 0 {
      ListStays(data, pos, count - 1, w);
    }
  }

  lemma {:induction false} HeadStays(data: Bytes, pos: nat)
    requires pos <= |data|
    ensures pos <= ReadHead(data, pos).1 <= |data|
  {
    var (name, a) := ReadString(data, pos);
    assert pos <= a <= |data|;
    var (source, b) := ReadString(data, a);
    assert a <= b <= |data|;
  }

  lemma {:induction false} BodyStays(data: Bytes, pos: nat, h: Head)
    requires pos <= |data|
    ensures pos <= ReadBody(data, pos, h).1 <= |data|
  {
    ListStays(data, pos, h.instrCount, SIZE64);
    var a := ReadWords(data, pos, h.instrCount).1;
    ListStays(data, a, h.constCount, SIZE64);
    var b := ReadWords(data, a, h.constCount).1;
    var (count, c) := ReadU32(data, b);
    ListStays(data, c, count, SIZE32);
  }

  lemma {:induction false} ReadStays(data: Bytes, pos: nat)
    requires pos <= |data|
    ensures pos <= ReadProto(data, pos).1 <= |data|
  {
    HeadStays(data, pos);
    BodyStays(data, ReadHead(data, pos).1, ReadHead(data, pos).0);
  }

  /** With nothing to read, everything is zero, the names empty and the tables absent. */
  lemma {:induction false} NothingReads(data: Bytes)
    ensures ReadProto(data, |data|) == (Prototype(Some([]), Some([]), false, [], [], 0, 0, 0, 0, 0, None), |data|)
  {
    assert ReadString(data, |data|) == (Some([]), |data|);
    assert ReadCounts(data, |data|) == (0, 0, 0, 0, |data|);
  }
}
