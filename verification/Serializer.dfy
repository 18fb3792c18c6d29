/**
 Writing prototypes as bytes and reading them back: little-endian scalars,
 length-prefixed strings, and the object file header.
 */
module Serializer {
  import opened Wrappers
  import opened Values
  import opened Bytecode

  type Bytes = seq<Byte>

  // ----- Scalars -----

  const SIZE8: nat := 1
  const SIZE16: nat := 2
  const SIZE32: nat := 4
  const SIZE64: nat := 8

  function Pow256(w: nat): (p: nat)
    ensures p >= 1
  {
    if w == 0 then 1 else 256 * Pow256(w - 1)
  }

  lemma {:induction false} Powers()
    ensures Pow256(SIZE8) == 0x100 && Pow256(SIZE16) == 0x1_0000 && Pow256(SIZE32) == 0x1_0000_0000
    ensures Pow256(SIZE64) == 0x1_0000_0000_0000_0000
  {
    assert Pow256(1) == 256 * Pow256(0);
    assert Pow256(2) == 256 * Pow256(1);
    assert Pow256(3) == 256 * Pow256(2);
    assert Pow256(4) == 256 * Pow256(3);
    assert Pow256(5) == 256 * Pow256(4);
    assert Pow256(6) == 256 * Pow256(5);
    assert Pow256(7) == 256 * Pow256(6);
  }

  /** `w` bytes, least significant first. */
  function LittleEndian(n: nat, w: nat): (b: Bytes)
    ensures |b| == w
  {
    seq(w, i requires 0 <= i < w => Digit(n, i))
  }

  function Digit(n: nat, i: nat): Byte {
    n / Pow256(i) % 256
  }

  function ReadLittleEndian(data: Bytes, pos: nat, w: nat): (n: nat)
    requires pos + w <= |data|
    ensures n < Pow256(w)
    decreases w
  {
    if w == 0 then 0
    else
      DigitBound(ReadLittleEndian(data, pos, w - 1), data[pos + w - 1], Pow256(w - 1));
      ReadLittleEndian(data, pos, w - 1) + data[pos + w - 1] * Pow256(w - 1)
  }

  lemma {:induction false} DigitBound(low: nat, d: Byte, p: nat)
    requires low < p
    ensures 0 <= low + d * p < 256 * p
  {
    assert d * p <= 255 * p;
  }

  /** Splitting off the leading digit of a number in base 256. */
  lemma {:induction false} TopDigit(n: nat, p: nat)
    requires p >= 1
    ensures n % (256 * p) == n % p + (n / p % 256) * p
  {
    var q, r := n / p, n % p;
    var a, d := q / 256, q % 256;
    assert n == q * p + r;
    assert q == 256 * a + d;
    assert n == a * (256 * p) + (d * p + r) by {
      assert (256 * a + d) * p == a * (256 * p) + d * p;
    }
    DigitBound(r, d, p);
    Remainder(n, 256 * p, a, d * p + r);
  }

  lemma {:induction false} Remainder(n: nat, m: nat, a: nat, r: nat)
    requires m > 0 && n == a * m + r && r < m
    ensures n % m == r
  {
    var q := n / m;
    assert n == q * m + n % m;
    assert q > a ==> q * m >= (a + 1) * m;
    assert q < a ==> q * m <= (a - 1) * m;
  }

  /** `b` stands in `data` at `pos`. */
  ghost predicate Located(data: Bytes, pos: nat, b: Bytes) {
    pos + |b| <= |data| && forall i :: 0 <= i < |b| ==> SameByte(data, pos, b, i)
  }

  ghost predicate SameByte(data: Bytes, pos: nat, b: Bytes, i: nat) {
    pos + i < |data| && i < |b| && data[pos + i] == b[i]
  }

  lemma {:induction false} LocatedSplit(data: Bytes, pos: nat, a: Bytes, b: Bytes)
    requires Located(data, pos, a + b)
    ensures Located(data, pos, a) && Located(data, pos + |a|, b)
  {
    var ab := a + b;
    forall i: nat | i < |a|
      ensures SameByte(data, pos, a, i)
    {
      assert SameByte(data, pos, ab, i);
    }
    var at := pos + |a|;
    forall i: nat | i < |b|
      ensures SameByte(data, at, b, i)
    {
      assert SameByte(data, pos, ab, |a| + i);
    }
  }

  lemma {:induction false} LocatedIn(before: Bytes, b: Bytes, after: Bytes)
    ensures Located(before + b + after, |before|, b)
  {
    var data := before + b + after;
    assert forall i: nat :: i < |b| ==> SameByte(data, |before|, b, i);
  }

  lemma {:induction false} ReadDigits(data: Bytes, pos: nat, b: Bytes, n: nat, w: nat)
    requires Located(data, pos, b) && w <= |b| && forall i :: 0 <= i < |b| ==> b[i] == Digit(n, i)
    ensures ReadLittleEndian(data, pos, w) == n % Pow256(w)
  {
    if w > 0 {
      ReadDigits(data, pos, b, n, w - 1);
      TopDigit(n, Pow256(w - 1));
      assert SameByte(data, pos, b, w - 1);
    }
  }

  lemma {:induction false} ReadBack(data: Bytes, pos: nat, n: nat, w: nat)
    requires Located(data, pos, LittleEndian(n, w)) && n < Pow256(w)
    ensures ReadLittleEndian(data, pos, w) == n
  {
    var b := LittleEndian(n, w);
    assert forall i :: 0 <= i < w ==> b[i] == Digit(n, i);
    ReadDigits(data, pos, b, n, w);
    Remainder(n, Pow256(w), 0, n);
  }

  /** A scalar read: short input reads as zero and does not advance. */
  function ReadScalar(data: Bytes, pos: nat, w: nat): (r: (nat, nat))
    ensures r.0 < Pow256(w)
  {
    if pos + w <= |data| then (ReadLittleEndian(data, pos, w), pos + w) else (0, pos)
  }

  function ReadU8(data: Bytes, pos: nat): (Byte, nat) {
    Powers();
    ReadScalar(data, pos, SIZE8)
  }

  function ReadU16(data: Bytes, pos: nat): (U16, nat) {
    Powers();
    ReadScalar(data, pos, SIZE16)
  }

  function ReadU32(data: Bytes, pos: nat): (U32, nat) {
    Powers();
    ReadScalar(data, pos, SIZE32)
  }

  lemma {:induction false} ScalarBack(data: Bytes, pos: nat, n: nat, w: nat)
    requires Located(data, pos, LittleEndian(n, w)) && n < Pow256(w)
    ensures ReadScalar(data, pos, w) == (n, pos + w)
  {
    ReadBack(data, pos, n, w);
  }

  // ----- Strings and lists -----

  function Slice(data: Bytes, pos: nat, n: nat): (b: Bytes)
    requires pos + n <= |data|
    ensures |b| == n && forall i :: 0 <= i < n ==> b[i] == data[pos + i]
  {
    data[pos..pos + n]
  }

  /** A string whose characters are missing reads as null, past its length. */
  function ReadString(data: Bytes, pos: nat): (Option<Bytes>, nat) {
    var (n, at) := ReadU32(data, pos);
    if at + n <= |data| then (Some(Slice(data, at, n)), at + n)
    else if n == 0 then (Some([]), at)
    else (None, at)
  }

  /** The first `n` numbers of a list, each as `w` bytes. */
  function ListBytes(ns: seq<int>, n: nat, w: nat): (b: Bytes)
    requires n <= |ns| && forall i :: 0 <= i < |ns| ==> ns[i] >= 0
    ensures |b| == n * w
  {
    if n == 0 then [] else ListBytes(ns, n - 1, w) + LittleEndian(ns[n - 1], w)
  }

  function ReadList(data: Bytes, pos: nat, count: nat, w: nat): (r: (seq<nat>, nat))
    ensures |r.0| == count && forall i :: 0 <= i < count ==> r.0[i] < Pow256(w)
    decreases count
  {
    if count == 0 then ([], pos)
    else
      var (ns, at) := ReadList(data, pos, count - 1, w);
      var (n, at') := ReadScalar(data, at, w);
      (ns + [n], at')
  }

  lemma {:induction false} ListBack(data: Bytes, pos: nat, ns: seq<nat>, n: nat, w: nat)
    requires n <= |ns| && (forall i :: 0 <= i < |ns| ==> ns[i] < Pow256(w)) && Located(data, pos, ListBytes(ns, n, w))
    ensures ReadList(data, pos, n, w).1 == pos + n * w
    ensures forall i :: 0 <= i < n ==> ReadList(data, pos, n, w).0[i] == ns[i]
  {
    if n > 0 {
      LocatedSplit(data, pos, ListBytes(ns, n - 1, w), LittleEndian(ns[n - 1], w));
      ListBack(data, pos, ns, n - 1, w);
      ScalarBack(data, pos + (n - 1) * w, ns[n - 1], w);
    }
  }

  // ----- Formats: one field after another -----

  datatype Field = Num(n: nat, w: nat) | Raw(b: Bytes) | Nums(ns: seq<nat>, w: nat)

  datatype Fields = End | Then(first: Field, rest: Fields)

  function FieldBytes(f: Field): Bytes {
    match f
    case Num(n, w) => LittleEndian(n, w)
    case Raw(b) => b
    case Nums(ns, w) => ListBytes(ns, |ns|, w)
  }

  function Flat(fs: Fields): Bytes {
    if fs.End? then [] else FieldBytes(fs.first) + Flat(fs.rest)
  }

  /** The fields stand in `data`, one after another, from `pos` to `end`. */
  ghost predicate Holds(data: Bytes, pos: nat, fs: Fields, end: nat)
    decreases fs
  {
    if fs.End? then pos == end
    else Located(data, pos, FieldBytes(fs.first)) && Holds(data, pos + |FieldBytes(fs.first)|, fs.rest, end)
  }

  lemma {:induction false} FlatHolds(data: Bytes, pos: nat, fs: Fields)
    requires Located(data, pos, Flat(fs))
    ensures Holds(data, pos, fs, pos + |Flat(fs)|)
    decreases fs
  {
    if fs.Then? {
      LocatedSplit(data, pos, FieldBytes(fs.first), Flat(fs.rest));
      FlatHolds(data, pos + |FieldBytes(fs.first)|, fs.rest);
    }
  }

  /** Reading the first of the fields to come. */
  lemma {:induction false} NumBack(data: Bytes, pos: nat, n: nat, w: nat, rest: Fields, end: nat)
    requires Holds(data, pos, Then(Num(n, w), rest), end) && n < Pow256(w)
    ensures ReadScalar(data, pos, w) == (n, pos + w) && Holds(data, pos + w, rest, end)
  {
    ScalarBack(data, pos, n, w);
  }

  lemma {:induction false} NumsBack(data: Bytes, pos: nat, ns: seq<nat>, w: nat, rest: Fields, end: nat)
    requires Holds(data, pos, Then(Nums(ns, w), rest), end) && forall i :: 0 <= i < |ns| ==> ns[i] < Pow256(w)
    ensures ReadList(data, pos, |ns|, w) == (ns, pos + |ns| * w) && Holds(data, pos + |ns| * w, rest, end)
  {
    ListBack(data, pos, ns, |ns|, w);
    assert ReadList(data, pos, |ns|, w).0 == ns;
  }

  lemma {:induction false} TextBack(data: Bytes, pos: nat, text: Bytes, rest: Fields, end: nat)
    requires Holds(data, pos, Then(Num(|text|, SIZE32), Then(Raw(text), rest)), end) && |text| < 0x1_0000_0000
    ensures ReadString(data, pos) == (Some(text), pos + 4 + |text|) && Holds(data, pos + 4 + |text|, rest, end)
  {
    Powers();
    NumBack(data, pos, |text|, SIZE32, Then(Raw(text), rest), end);
    RawBack(data, pos + 4, text, rest, end);
  }

  lemma {:induction false} RawBack(data: Bytes, pos: nat, text: Bytes, rest: Fields, end: nat)
    requires Holds(data, pos, Then(Raw(text), rest), end)
    ensures pos + |text| <= |data| && Slice(data, pos, |text|) == text && Holds(data, pos + |text|, rest, end)
  {
    var read := Slice(data, pos, |text|);
    forall i: nat | i < |text|
      ensures read[i] == text[i]
    {
      assert SameByte(data, pos, text, i);
    }
  }

  // ----- Prototypes -----

  /** What fits the format: counts of at most 32 bits, and a line for every
      instruction if there is a line map at all. */
  ghost predicate Writable(p: Prototype) {
    && |Text(p.name)| < 0x1_0000_0000 && |Text(p.source)| < 0x1_0000_0000
    && |p.instrs| < 0x1_0000_0000 && |p.consts| < 0x1_0000_0000
    && (p.lineMap.Some? ==> |p.lineMap.value| == |p.instrs|) && (!p.hasCode ==> p.instrs == [])
  }

  /** A null string is written as an empty one. */
  function Text(s: Option<Bytes>): Bytes {
    if s.None? then [] else s.value
  }

  function Lines(p: Prototype): (ns: seq<nat>)
    ensures |ns| == if p.lineMap.None? then 0 else |p.lineMap.value|
    ensures p.lineMap.Some? ==> forall i :: 0 <= i < |ns| ==> ns[i] == p.lineMap.value[i]
  {
    if p.lineMap.None? then [] else seq(|p.lineMap.value|, i requires 0 <= i < |p.lineMap.value| => p.lineMap.value[i])
  }

  function Numbers(ws: seq<Word>): (ns: seq<nat>)
    ensures |ns| == |ws| && forall i :: 0 <= i < |ws| ==> ns[i] == ws[i]
  {
    seq(|ws|, i requires 0 <= i < |ws| => ws[i])
  }

  function LineFields(p: Prototype): Fields {
    Then(Num(|Lines(p)|, SIZE32), Then(Nums(Lines(p), SIZE32), End))
  }

  function BodyFields(p: Prototype): Fields {
    Then(Nums(Numbers(p.instrs), SIZE64), Then(Nums(Numbers(p.consts), SIZE64), LineFields(p)))
  }

  function CountFields(p: Prototype): Fields {
    Then(Num(|p.instrs|, SIZE32), Then(Num(|p.consts|, SIZE32),
         Then(Num(p.strCount, SIZE32), Then(Num(p.protoCount, SIZE32), BodyFields(p)))))
  }

  function FlagFields(p: Prototype): Fields {
    Then(Num(p.regCount, SIZE16), Then(Num(p.paramCount, SIZE16),
         Then(Num(p.isVararg, SIZE8), Then(Num(0, SIZE8), CountFields(p)))))
  }

  /** The layout of a serialized prototype. */
  function ProtoFields(p: Prototype): Fields {
    Then(Num(|Text(p.name)|, SIZE32), Then(Raw(Text(p.name)),
         Then(Num(|Text(p.source)|, SIZE32), Then(Raw(Text(p.source)), FlagFields(p)))))
  }

  datatype Head = Head(
    name: Option<Bytes>, source: Option<Bytes>, regCount: U16, paramCount: U16, isVararg: Byte,
    instrCount: U32, constCount: U32, strCount: U32, protoCount: U32)

  function ReadCounts(data: Bytes, pos: nat): (U32, U32, U32, U32, nat) {
    var (instrs, a) := ReadU32(data, pos);
    var (consts, b) := ReadU32(data, a);
    var (strs, c) := ReadU32(data, b);
    var (protos, d) := ReadU32(data, c);
    (instrs, consts, strs, protos, d)
  }

  function ReadHead(data: Bytes, pos: nat): (Head, nat) {
    var (name, a) := ReadString(data, pos);
    var (source, b) := ReadString(data, a);
    var (regCount, c) := ReadU16(data, b);
    var (paramCount, d) := ReadU16(data, c);
    var (isVararg, e) := ReadU8(data, d);
    var (_, f) := ReadU8(data, e);
    var (instrs, consts, strs, protos, at) := ReadCounts(data, f);
    (Head(name, source, regCount, paramCount, isVararg, instrs, consts, strs, protos), at)
  }

  function ReadWords(data: Bytes, pos: nat, count: nat): (r: (seq<Word>, nat))
    ensures |r.0| == count
  {
    Powers();
    var (ns, at) := ReadList(data, pos, count, SIZE64);
    (seq(count, i requires 0 <= i < count => ns[i]), at)
  }

  function ReadLines(data: Bytes, pos: nat): (Option<seq<U32>>, nat) {
    Powers();
    var (count, at) := ReadU32(data, pos);
    var (ns, at') := ReadList(data, at, count, SIZE32);
    (if count == 0 then None else Some(seq(count, i requires 0 <= i < count => ns[i])), at')
  }

  function ReadBody(data: Bytes, pos: nat, h: Head): (Prototype, nat) {
    var (instrs, a) := ReadWords(data, pos, h.instrCount);
    var (consts, b) := ReadWords(data, a, h.constCount);
    var (lines, c) := ReadLines(data, b);
    (Prototype(h.name, h.source, h.instrCount != 0, instrs, consts, h.regCount, h.paramCount, h.isVararg,
               h.strCount, h.protoCount, lines), c)
  }

  /** Reading never fails: what is missing reads as zeros and nulls. */
  function ReadProto(data: Bytes, pos: nat): (Prototype, nat) {
    var (h, at) := ReadHead(data, pos);
    ReadBody(data, at, h)
  }

  /** What survives: null names become empty ones, and empty tables null ones. */
  function Normal(p: Prototype): Prototype {
    p.(name := Some(Text(p.name)), source := Some(Text(p.source)), hasCode := p.instrs != [],
       lineMap := if p.instrs == [] then None else p.lineMap)
  }

  lemma {:induction false} CountsBack(data: Bytes, pos: nat, p: Prototype, end: nat)
    requires Writable(p) && Holds(data, pos, CountFields(p), end)
    ensures ReadCounts(data, pos) == (|p.instrs|, |p.consts|, p.strCount, p.protoCount, pos + 16)
    ensures Holds(data, pos + 16, BodyFields(p), end)
  {
    Powers();
    var d := BodyFields(p);
    var c := Then(Num(p.protoCount, SIZE32), d);
    var b := Then(Num(p.strCount, SIZE32), c);
    var a := Then(Num(|p.consts|, SIZE32), b);
    NumBack(data, pos, |p.instrs|, SIZE32, a, end);
    NumBack(data, pos + 4, |p.consts|, SIZE32, b, end);
    NumBack(data, pos + 8, p.strCount, SIZE32, c, end);
    NumBack(data, pos + 12, p.protoCount, SIZE32, d, end);
  }

  lemma {:induction false} FlagsBack(data: Bytes, pos: nat, p: Prototype, end: nat)
    requires Holds(data, pos, FlagFields(p), end)
    ensures ReadU16(data, pos) == (p.regCount, pos + 2) && ReadU16(data, pos + 2) == (p.paramCount, pos + 4)
    ensures ReadU8(data, pos + 4) == (p.isVararg, pos + 5) && ReadU8(data, pos + 5) == (0, pos + 6)
    ensures Holds(data, pos + 6, CountFields(p), end)
  {
    Powers();
    var d := CountFields(p);
    var c := Then(Num(0, SIZE8), d);
    var b := Then(Num(p.isVararg, SIZE8), c);
    var a := Then(Num(p.paramCount, SIZE16), b);
    NumBack(data, pos, p.regCount, SIZE16, a, end);
    NumBack(data, pos + 2, p.paramCount, SIZE16, b, end);
    NumBack(data, pos + 4, p.isVararg, SIZE8, c, end);
    NumBack(data, pos + 5, 0, SIZE8, d, end);
  }

  function HeadOf(p: Prototype): Head
    requires |p.instrs| < 0x1_0000_0000 && |p.consts| < 0x1_0000_0000
  {
    Head(Some(Text(p.name)), Some(Text(p.source)), p.regCount, p.paramCount, p.isVararg,
         |p.instrs|, |p.consts|, p.strCount, p.protoCount)
  }

  lemma {:induction false} HeadBack(data: Bytes, pos: nat, p: Prototype, end: nat)
    requires Writable(p) && Holds(data, pos, ProtoFields(p), end)
    ensures ReadHead(data, pos).0 == HeadOf(p) && Holds(data, ReadHead(data, pos).1, BodyFields(p), end)
  {
    var name, source := Text(p.name), Text(p.source);
    var a := pos + 4 + |name|;
    var b := a + 4 + |source|;
    TextBack(data, pos, name, Then(Num(|source|, SIZE32), Then(Raw(source), FlagFields(p))), end);
    TextBack(data, a, source, FlagFields(p), end);
    FlagsBack(data, b, p, end);
    CountsBack(data, b + 6, p, end);
    ReadHeadParts(data, pos, HeadOf(p), a, b);
  }

  lemma {:induction false} ReadHeadParts(data: Bytes, pos: nat, h: Head, a: nat, b: nat)
    requires ReadString(data, pos) == (h.name, a) && ReadString(data, a) == (h.source, b)
    requires ReadU16(data, b) == (h.regCount, b + 2) && ReadU16(data, b + 2) == (h.paramCount, b + 4)
    requires ReadU8(data, b + 4) == (h.isVararg, b + 5) && ReadU8(data, b + 5).1 == b + 6
    requires ReadCounts(data, b + 6) == (h.instrCount, h.constCount, h.strCount, h.protoCount, b + 22)
    ensures ReadHead(data, pos) == (h, b + 22)
  {
  }

  lemma {:induction false} WordsBack(data: Bytes, pos: nat, ws: seq<Word>, rest: Fields, end: nat)
    requires Holds(data, pos, Then(Nums(Numbers(ws), SIZE64), rest), end)
    ensures ReadWords(data, pos, |ws|) == (ws, pos + |ws| * 8) && Holds(data, pos + |ws| * 8, rest, end)
  {
    Powers();
    NumsBack(data, pos, Numbers(ws), SIZE64, rest, end);
    assert ReadWords(data, pos, |ws|).0 == ws;
  }

  lemma {:induction false} ReadLinesParts(data: Bytes, pos: nat, at: nat, ns: seq<nat>, end: nat, lines: seq<U32>)
    requires ReadU32(data, pos) == (|ns|, at) && ReadList(data, at, |ns|, SIZE32) == (ns, end)
    requires |lines| == |ns| && forall i :: 0 <= i < |ns| ==> ns[i] == lines[i]
    ensures ReadLines(data, pos) == (if |ns| == 0 then None else Some(lines), end)
  {
    if |ns| > 0 {
      assert ReadLines(data, pos).0.value == lines;
    }
  }

  lemma {:induction false} LineNumbersBack(data: Bytes, pos: nat, ns: seq<nat>, lines: seq<U32>, end: nat)
    requires Holds(data, pos, Then(Num(|ns|, SIZE32), Then(Nums(ns, SIZE32), End)), end) && |ns| < 0x1_0000_0000
    requires |lines| == |ns| && forall i :: 0 <= i < |ns| ==> ns[i] == lines[i]
    ensures ReadLines(data, pos) == (if |ns| == 0 then None else Some(lines), end)
  {
    Powers();
    NumBack(data, pos, |ns|, SIZE32, Then(Nums(ns, SIZE32), End), end);
    NumsBack(data, pos + 4, ns, SIZE32, End, end);
    ReadLinesParts(data, pos, pos + 4, ns, end, lines);
  }

  lemma {:induction false} LinesBack(data: Bytes, pos: nat, p: Prototype, end: nat)
    requires Writable(p) && Holds(data, pos, LineFields(p), end)
    ensures ReadLines(data, pos) == (Normal(p).lineMap, end)
  {
    LineNumbersBack(data, pos, Lines(p), if p.lineMap.None? then [] else p.lineMap.value, end);
  }

  lemma {:induction false} WordTablesBack(data: Bytes, pos: nat, instrs: seq<Word>, consts: seq<Word>, rest: Fields, end: nat)
    requires Holds(data, pos, Then(Nums(Numbers(instrs), SIZE64), Then(Nums(Numbers(consts), SIZE64), rest)), end)
    ensures var a := pos + |instrs| * 8;
            && ReadWords(data, pos, |instrs|) == (instrs, a) && ReadWords(data, a, |consts|) == (consts, a + |consts| * 8)
            && Holds(data, a + |consts| * 8, rest, end)
  {
    WordsBack(data, pos, instrs, Then(Nums(Numbers(consts), SIZE64), rest), end);
    WordsBack(data, pos + |instrs| * 8, consts, rest, end);
  }

  lemma {:induction false} TablesBack(data: Bytes, pos: nat, p: Prototype, end: nat)
    requires Writable(p) && Holds(data, pos, BodyFields(p), end)
    ensures var a := pos + |p.instrs| * 8;
            var b := a + |p.consts| * 8;
            && ReadWords(data, pos, |p.instrs|) == (p.instrs, a) && ReadWords(data, a, |p.consts|) == (p.consts, b)
            && ReadLines(data, b) == (Normal(p).lineMap, end)
  {
    WordTablesBack(data, pos, p.instrs, p.consts, LineFields(p), end);
    LinesBack(data, pos + |p.instrs| * 8 + |p.consts| * 8, p, end);
  }

  lemma {:induction false} BodyBack(data: Bytes, pos: nat, p: Prototype, fs: Fields, end: nat)
    requires Writable(p) && fs == BodyFields(p) && Holds(data, pos, fs, end)
    ensures ReadBody(data, pos, HeadOf(p)) == (Normal(p), end)
  {
    TablesBack(data, pos, p, end);
    var a := pos + |p.instrs| * 8;
    ReadBodyParts(data, pos, p, a, a + |p.consts| * 8, end);
  }

  lemma {:induction false} ReadBodyParts(data: Bytes, pos: nat, p: Prototype, a: nat, b: nat, c: nat)
    requires |p.instrs| < 0x1_0000_0000 && |p.consts| < 0x1_0000_0000
    requires ReadWords(data, pos, |p.instrs|) == (p.instrs, a) && ReadWords(data, a, |p.consts|) == (p.consts, b)
    requires ReadLines(data, b) == (Normal(p).lineMap, c)
    ensures ReadBody(data, pos, HeadOf(p)) == (Normal(p), c)
  {
  }

  function ProtoBytes(p: Prototype): Bytes {
    Flat(ProtoFields(p))
  }

  lemma {:induction false} ProtoBack(data: Bytes, pos: nat, p: Prototype, end: nat)
    requires Writable(p) && Holds(data, pos, ProtoFields(p), end)
    ensures ReadProto(data, pos) == (Normal(p), end)
  {
    HeadBack(data, pos, p, end);
    BodyBack(data, ReadHead(data, pos).1, p, BodyFields(p), end);
  }

  lemma {:induction false} FieldsBetween(fs: Fields, before: Bytes, after: Bytes, data: Bytes)
    requires data == before + Flat(fs) + after
    ensures Holds(data, |before|, fs, |before| + |Flat(fs)|)
  {
    LocatedIn(before, Flat(fs), after);
    FlatHolds(data, |before|, fs);
  }

  /** Wherever the fields stand, the reader makes `result` of them and stops at their end. */
  ghost predicate Reads(read: (Bytes, nat) -> (Prototype, nat), fs: Fields, result: Prototype) {
    forall data: Bytes, pos: nat, end: nat :: Holds(data, pos, fs, end) ==> read(data, pos) == (result, end)
  }

  lemma {:induction false} ReadsBetween(read: (Bytes, nat) -> (Prototype, nat), fs: Fields, bytes: Bytes, result: Prototype, before: Bytes, after: Bytes)
    requires Reads(read, fs, result) && bytes == Flat(fs)
    ensures read(before + bytes + after, |before|) == (result, |before| + |bytes|)
  {
    FieldsBetween(fs, before, after, before + bytes + after);
  }

  lemma {:induction false} ProtoReads(p: Prototype)
    requires Writable(p)
    ensures Reads(ReadProto, ProtoFields(p), Normal(p))
  {
    forall data: Bytes, pos: nat, end: nat | Holds(data, pos, ProtoFields(p), end)
      ensures ReadProto(data, pos) == (Normal(p), end)
    {
      ProtoBack(data, pos, p, end);
    }
  }

  lemma {:induction false} FieldsBack(p: Prototype, fs: Fields, bytes: Bytes, before: Bytes, after: Bytes)
    requires Reads(ReadProto, fs, Normal(p)) && bytes == Flat(fs)
    ensures ReadProto(before + bytes + after, |before|) == (Normal(p), |before| + |bytes|)
  {
    ReadsBetween(ReadProto, fs, bytes, Normal(p), before, after);
  }

  lemma {:induction false} BytesBack(p: Prototype, fs: Fields, bytes: Bytes, before: Bytes, after: Bytes)
    requires Writable(p) && fs == ProtoFields(p) && bytes == Flat(fs)
    ensures ReadProto(before + bytes + after, |before|) == (Normal(p), |before| + |bytes|)
  {
    ProtoReads(p);
    FieldsBack(p, fs, bytes, before, after);
  }

  /** Reading back what was written, whatever precedes and follows it, gives the
      same prototype and ends exactly after it. */
  lemma {:induction false} ProtoRoundTrip(p: Prototype, before: Bytes, after: Bytes)
    requires Writable(p)
    ensures ReadProto(before + ProtoBytes(p) + after, |before|) == (Normal(p), |before| + |ProtoBytes(p)|)
  {
    BytesBack(p, ProtoFields(p), ProtoBytes(p), before, after);
  }

  // ----- The buffer -----

  class Buffer {
    var data: array<Byte>
    var len: nat

    ghost predicate Valid()
      reads this
    {
      len <= data.Length
    }

    ghost function Contents(): Bytes
      requires Valid()
      reads this, data
    {
      data[..len]
    }

    constructor ()
      ensures Valid() && Contents() == [] && fresh(data)
    {
      data := new Byte[0];
      len := 0;
    }

    /** Capacity doubles from 64 until `extra` more bytes fit. */
    method Grow(extra: nat)
      requires Valid()
      modifies this`data
      ensures Valid() && len == old(len) && len + extra <= data.Length && Contents() == old(Contents())
      ensures data == old(data) || fresh(data)
    {
      var needed := len + extra;
      if needed <= data.Length {
        return;
      }
      var capacity := if data.Length == 0 then 64 else data.Length;
      while capacity < needed
        invariant capacity >= data.Length && capacity >= 1
      {
        capacity := capacity * 2;
      }
      var was := data;
      data := new Byte[capacity](i requires 0 <= i < capacity reads was => if i < was.Length then was[i] else 0);
    }

    method WriteBytes(b: Bytes)
      requires Valid()
      modifies this, data
      ensures Valid() && Contents() == old(Contents()) + b && (data == old(data) || fresh(data))
    {
      Grow(|b|);
      ghost var before := Contents();
      var target, start := data, len;
      var i := 0;
      while i < |b|
        invariant 0 <= i <= |b| && data == target && len == start
        invariant forall k :: 0 <= k < start ==> target[k] == before[k]
        invariant forall k :: start <= k < start + i ==> target[k] == b[k - start]
      {
        target[start + i] := b[i];
        i := i + 1;
      }
      len := start + |b|;
    }

    /** Writes one number after another. */
    method WriteNums(ns: seq<nat>, w: nat)
      requires Valid()
      modifies this, data
      ensures Valid() && Contents() == old(Contents()) + ListBytes(ns, |ns|, w) && (data == old(data) || fresh(data))
    {
      var i := 0;
      while i < |ns|
        invariant 0 <= i <= |ns| && Valid() && (data == old(data) || fresh(data))
        invariant Contents() == old(Contents()) + ListBytes(ns, i, w)
      {
        WriteBytes(LittleEndian(ns[i], w));
        i := i + 1;
      }
    }

    /** Writes the first of the fields to come; `rest` is still to be written. */
    method WriteField(f: Field, ghost rest: Fields)
      requires Valid()
      modifies this, data
      ensures Valid() && (data == old(data) || fresh(data))
      ensures Contents() + Flat(rest) == old(Contents()) + Flat(Then(f, rest))
    {
      match f {
        case Num(n, w) => WriteBytes(LittleEndian(n, w));
        case Raw(b) => WriteBytes(b);
        case Nums(ns, w) => WriteNums(ns, w);
      }
      Regroup(old(Contents()), FieldBytes(f), Flat(rest));
    }

    method WriteText(text: Bytes, ghost rest: Fields)
      requires Valid()
      modifies this, data
      ensures Valid() && (data == old(data) || fresh(data))
      ensures Contents() + Flat(rest) == old(Contents()) + Flat(Then(Num(|text|, SIZE32), Then(Raw(text), rest)))
    {
      WriteField(Num(|text|, SIZE32), Then(Raw(text), rest));
      WriteField(Raw(text), rest);
    }

    method WriteFlags(p: Prototype)
      requires Valid()
      modifies this, data
      ensures Valid() && (data == old(data) || fresh(data))
      ensures Contents() + Flat(CountFields(p)) == old(Contents()) + Flat(FlagFields(p))
    {
      ghost var d := CountFields(p);
      ghost var c := Then(Num(0, SIZE8), d);
      ghost var b := Then(Num(p.isVararg, SIZE8), c);
      WriteField(Num(p.regCount, SIZE16), Then(Num(p.paramCount, SIZE16), b));
      WriteField(Num(p.paramCount, SIZE16), b);
      WriteField(Num(p.isVararg, SIZE8), c);
      WriteField(Num(0, SIZE8), d);
    }

    method WriteCounts(p: Prototype)
      requires Valid()
      modifies this, data
      ensures Valid() && (data == old(data) || fresh(data))
      ensures Contents() + Flat(BodyFields(p)) == old(Contents()) + Flat(CountFields(p))
    {
      ghost var d := BodyFields(p);
      ghost var c := Then(Num(p.protoCount, SIZE32), d);
      ghost var b := Then(Num(p.strCount, SIZE32), c);
      WriteField(Num(|p.instrs|, SIZE32), Then(Num(|p.consts|, SIZE32), b));
      WriteField(Num(|p.consts|, SIZE32), b);
      WriteField(Num(p.strCount, SIZE32), c);
      WriteField(Num(p.protoCount, SIZE32), d);
    }

    method WriteBody(p: Prototype)
      requires Valid()
      modifies this, data
      ensures Valid() && (data == old(data) || fresh(data))
      ensures Contents() == old(Contents()) + Flat(BodyFields(p))
    {
      ghost var d := Then(Nums(Lines(p), SIZE32), End);
      ghost var c := Then(Num(|Lines(p)|, SIZE32), d);
      WriteField(Nums(Numbers(p.instrs), SIZE64), Then(Nums(Numbers(p.consts), SIZE64), c));
      WriteField(Nums(Numbers(p.consts), SIZE64), c);
      WriteField(Num(|Lines(p)|, SIZE32), d);
      WriteField(Nums(Lines(p), SIZE32), End);
      assert Contents() + Flat(End) == Contents();
    }

    /** Appends the serialized prototype. */
    method Serialize(p: Prototype)
      requires Valid()
      modifies this, data
      ensures Valid() && Contents() == old(Contents()) + ProtoBytes(p)
    {
      ghost var source := Then(Num(|Text(p.source)|, SIZE32), Then(Raw(Text(p.source)), FlagFields(p)));
      WriteText(Text(p.name), source);
      WriteText(Text(p.source), FlagFields(p));
      WriteFlags(p);
      WriteCounts(p);
      WriteBody(p);
    }
  }

  // ----- The reader -----

  class Reader {
    const data: Bytes
    var pos: nat

    constructor (data: Bytes)
      ensures this.data == data && pos == 0
    {
      this.data := data;
      pos := 0;
    }

    /** Pulls `w` bytes, or nothing when fewer are left. */
    method ReadNum(w: nat) returns (n: nat)
      modifies this
      ensures (n, pos) == ReadScalar(data, old(pos), w)
    {
      n := 0;
      if pos + w <= |data| {
        n := ReadLittleEndian(data, pos, w);
        pos := pos + w;
      }
    }

    method ReadText() returns (text: Option<Bytes>)
      modifies this
      ensures (text, pos) == ReadString(data, old(pos))
    {
      Powers();
      var n := ReadNum(SIZE32);
      text := None;
      if pos + n <= |data| {
        text := Some(Slice(data, pos, n));
        pos := pos + n;
      } else if n == 0 {
        text := Some([]);
      }
    }

    method ReadNums(count: nat, w: nat) returns (ns: seq<nat>)
      modifies this
      ensures (ns, pos) == ReadList(data, old(pos), count, w)
    {
      ns := [];
      var i := 0;
      while i < count
        invariant 0 <= i <= count && (ns, pos) == ReadList(data, old(pos), i, w)
      {
        var n := ReadNum(w);
        ns := ns + [n];
        i := i + 1;
      }
    }

    method ReadHeader() returns (h: Head)
      modifies this
      ensures (h, pos) == ReadHead(data, old(pos))
    {
      Powers();
      var name := ReadText();
      var source := ReadText();
      var regCount := ReadNum(SIZE16);
      var paramCount := ReadNum(SIZE16);
      var isVararg := ReadNum(SIZE8);
      var padding := ReadNum(SIZE8);
      var instrs := ReadNum(SIZE32);
      var consts := ReadNum(SIZE32);
      var strs := ReadNum(SIZE32);
      var protos := ReadNum(SIZE32);
      h := Head(name, source, regCount, paramCount, isVararg, instrs, consts, strs, protos);
    }

    /** Reads a prototype at the current position and moves past it. */
    method Deserialize() returns (p: Prototype)
      modifies this
      ensures (p, pos) == ReadProto(data, old(pos))
    {
      var h := ReadHeader();
      p := ReadRest(h);
    }

    method ReadRest(h: Head) returns (p: Prototype)
      modifies this
      ensures (p, pos) == ReadBody(data, old(pos), h)
    {
      var instrs := ReadWordList(h.instrCount);
      var consts := ReadWordList(h.constCount);
      var lines := ReadLineMap();
      p := Prototype(h.name, h.source, h.instrCount != 0, instrs, consts, h.regCount, h.paramCount, h.isVararg,
                     h.strCount, h.protoCount, lines);
    }

    method ReadWordList(count: nat) returns (ws: seq<Word>)
      modifies this
      ensures (ws, pos) == ReadWords(data, old(pos), count)
    {
      Powers();
      var ns := ReadNums(count, SIZE64);
      ws := seq(count, i requires 0 <= i < count => ns[i]);
      assert ws == ReadWords(data, old(pos), count).0;
    }

    method ReadLineMap() returns (lines: Option<seq<U32>>)
      modifies this
      ensures (lines, pos) == ReadLines(data, old(pos))
    {
      Powers();
      var count := ReadNum(SIZE32);
      var ns := ReadNums(count, SIZE32);
      lines := None;
      if count != 0 {
        lines := Some(seq(count, i requires 0 <= i < count => ns[i]));
        assert lines.value == ReadLines(data, old(pos)).0.value;
      }
    }
  }

  // ----- Object files -----

  const MAGIC: nat := 0x5756_4D4F
  const HEADER_SIZE: nat := 56

  /** Magic, version 1.0, no flags, one section, time stamp, empty checksum. */
  function HeaderFields(timestamp: Word): Fields {
    Then(Num(MAGIC, SIZE32), Then(Num(1, SIZE16), Then(Num(0, SIZE16), Then(Num(0, SIZE32), Then(Num(1, SIZE32),
         Then(Num(timestamp, SIZE64), Then(Raw(seq(32, _ => 0)), End)))))))
  }

  function HeaderBytes(timestamp: Word): Bytes {
    Flat(HeaderFields(timestamp))
  }

  lemma {:induction false} HeaderSize(timestamp: Word)
    ensures |HeaderBytes(timestamp)| == HEADER_SIZE
  {
    var g := Then(Raw(seq(32, _ => 0)), End);
    assert |Flat(g)| == 32 by { assert Flat(End) == []; }
    var f := Then(Num(timestamp, SIZE64), g);
    assert |Flat(f)| == 40;
    var e := Then(Num(1, SIZE32), f);
    assert |Flat(e)| == 44;
    var d := Then(Num(0, SIZE32), e);
    assert |Flat(d)| == 48;
    var c := Then(Num(0, SIZE16), d);
    assert |Flat(c)| == 50;
    var b := Then(Num(1, SIZE16), c);
    assert |Flat(b)| == 52;
    assert HeaderFields(timestamp) == Then(Num(MAGIC, SIZE32), b);
  }

  /** Only prototypes the verifier accepts are written. */
  method WriteObject(p: Prototype, timestamp: Word) returns (out: Option<Bytes>)
    ensures out.Some? <==> Verified(p)
    ensures out.Some? ==> out.value == HeaderBytes(timestamp) + ProtoBytes(p)
  {
    var ok := VerifyPrototype(p);
    if !ok {
      return None;
    }
    var buffer := new Buffer();
    buffer.WriteBytes(HeaderBytes(timestamp));
    buffer.Serialize(p);
    out := Some(buffer.data[..buffer.len]);
  }

  /** The magic must match; version, flags and checksum are not looked at. */
  method ReadObject(data: Bytes) returns (out: Option<Prototype>)
    ensures out.Some? <==> |data| >= HEADER_SIZE && ReadLittleEndian(data, 0, SIZE32) == MAGIC && Verified(ReadProto(data, HEADER_SIZE).0)
    ensures out.Some? ==> out.value == ReadProto(data, HEADER_SIZE).0
  {
    if |data| < HEADER_SIZE || ReadLittleEndian(data, 0, SIZE32) != MAGIC {
      return None;
    }
    var reader := new Reader(data);
    reader.pos := HEADER_SIZE;
    var p := reader.Deserialize();
    var ok := VerifyPrototype(p);
    out := if ok then Some(p) else None;
  }

  lemma {:induction false} NormalVerified(p: Prototype)
    requires Verified(p)
    ensures Verified(Normal(p)) <==> p.instrs != []
  {
    if p.instrs != [] {
      forall i | 0 <= i < |p.instrs|
        ensures WordOk(Normal(p), p.instrs[i])
      {
        assert WordOk(p, p.instrs[i]);
      }
    }
  }

  lemma {:induction false} MagicBack(timestamp: Word, rest: Bytes)
    ensures |HeaderBytes(timestamp) + rest| >= HEADER_SIZE && ReadLittleEndian(HeaderBytes(timestamp) + rest, 0, SIZE32) == MAGIC
  {
    HeaderSize(timestamp);
    Powers();
    var fs := HeaderFields(timestamp);
    assert [] + Flat(fs) + rest == HeaderBytes(timestamp) + rest;
    FieldsBetween(fs, [], rest, HeaderBytes(timestamp) + rest);
    NumBack(HeaderBytes(timestamp) + rest, 0, MAGIC, SIZE32, fs.rest, |Flat(fs)|);
  }

  /** A written object reads back as the same prototype exactly when it has
      instructions; an empty one is written but refused on reading. */
  method ObjectRoundTrip(p: Prototype, timestamp: Word, after: Bytes) returns (out: Option<Prototype>)
    requires Verified(p) && Writable(p)
    ensures out == if p.instrs == [] then None else Some(Normal(p))
  {
    var written := WriteObject(p, timestamp);
    ObjectBack(p, timestamp, after);
    NormalVerified(p);
    out := ReadObject(written.value + after);
  }

  lemma {:induction false} ObjectBack(p: Prototype, timestamp: Word, after: Bytes)
    requires Writable(p)
    ensures var data := HeaderBytes(timestamp) + ProtoBytes(p) + after;
            |data| >= HEADER_SIZE && ReadLittleEndian(data, 0, SIZE32) == MAGIC && ReadProto(data, HEADER_SIZE).0 == Normal(p)
  {
    HeaderSize(timestamp);
    Regroup(HeaderBytes(timestamp), ProtoBytes(p), after);
    MagicBack(timestamp, ProtoBytes(p) + after);
    ProtoRoundTrip(p, HeaderBytes(timestamp), after);
  }

  lemma {:induction false} Regroup(a: Bytes, b: Bytes, c: Bytes)
    ensures a + b + c == a + (b + c)
  {
  }
}
