/**
 * The chunked coding octet by octet: messages spelled out with literal digits and separators, by an
 * encoder that shares nothing with the decoder, and what the decoder makes of them.
 */
module ChunkSpelling {
  import opened Bytes
  import opened ChunkMachine
  import opened ChunkGrammar

  // ---------------------------------------------------------------- sizes

  const SMALL: string := "0123456789abcdef"
  const CAPITAL: string := "0123456789ABCDEF"

  /** The octet is the hexadecimal digit worth `d`, in either case. */
  predicate Digit(b: byte, d: nat)
    requires d < 16
  {
    b as int == SMALL[d] as int || b as int == CAPITAL[d] as int
  }

  predicate IsDigit(b: byte) {
    exists d: nat :: d < 16 && Digit(b, d)
  }

  /** The octets spell the number, most significant digit first, with any leading zeros. */
  ghost predicate Spells(s: seq<byte>, n: nat)
    decreases |s|
  {
    if s == [] then n == 0
    else Digit(s[|s| - 1], n % 16) && Spells(s[..|s| - 1], n / 16)
  }

  /** Every number can be spelled, with at least one digit. */
  lemma {:induction false} Spellable(n: nat) returns (s: seq<byte>)
    ensures s != [] && Spells(s, n)
    decreases n
  {
    var b: byte := SMALL[n % 16] as int;
    if n < 16 {
      s := [b];
      assert s[..0] == [];
    } else {
      var front := Spellable(n / 16);
      s := front + [b];
      assert s[..|s| - 1] == front;
    }
  }

  lemma DigitIsWorth(b: byte, d: nat)
    requires d < 16 && Digit(b, d)
    ensures HexDigit(b) == d
  {
  }

  lemma NoDigitIff(b: byte)
    ensures HexDigit(b) == -1 <==> !IsDigit(b)
  {
    if HexDigit(b) != -1 {
      assert Digit(b, HexDigit(b));
    }
    if IsDigit(b) {
      var d: nat :| d < 16 && Digit(b, d);
      DigitIsWorth(b, d);
    }
  }

  lemma {:induction false} SpellsValue(s: seq<byte>, n: nat)
    requires Spells(s, n)
    ensures AllHex(s) && HexValue(s) == n
    decreases |s|
  {
    if s != [] {
      DigitIsWorth(s[|s| - 1], n % 16);
      SpellsValue(s[..|s| - 1], n / 16);
      forall i | 0 <= i < |s| ensures HexDigit(s[i]) != -1 {
        if i < |s| - 1 {
          assert s[i] == s[..|s| - 1][i];
        }
      }
    }
  }

  // ---------------------------------------------------------------- header lines

  /** What may stand behind the digits of a size: nothing that is a digit, and no line feed. */
  ghost predicate Extension(ext: seq<byte>) {
    10 !in ext && (ext != [] ==> !IsDigit(ext[0]))
  }

  lemma {:induction false} HeaderIs(digits: seq<byte>, ext: seq<byte>, n: nat)
    requires digits != [] && Spells(digits, n) && Extension(ext) && n <= 0x7fff_ffff
    ensures HeaderOf(Header(digits, ext + [13]), n)
  {
    SpellsValue(digits, n);
    NoDigitIff((ext + [13])[0]);
    if ext == [] {
      assert HexDigit(13) == -1;
    }
  }

  /** A size above 2^31 - 1 is refused. */
  lemma {:induction false} TooLarge(digits: seq<byte>, ext: seq<byte>, n: nat)
    requires Spells(digits, n) && Extension(ext) && n > 0x7fff_ffff
    ensures Run(INIT, digits + ext + [13, 10]).fault == Some(BogusChunkSize)
  {
    SpellsValue(digits, n);
    BadHeader(digits, ext);
  }

  /** So is a header without a digit. */
  lemma {:induction false} NoSize(ext: seq<byte>)
    requires Extension(ext)
    ensures Run(INIT, ext + [13, 10]).fault == Some(BogusChunkSize)
  {
    BadHeader([], ext);
    assert [] + ext == ext;
  }

  lemma NoFeed(digits: seq<byte>, ext: seq<byte>)
    requires AllHex(digits) && 10 !in ext
    ensures LF !in digits + ext + [13]
  {
    forall i | 0 <= i < |digits| ensures digits[i] != LF {
      assert HexDigit(digits[i]) != -1;
    }
  }

  lemma SizeOf(digits: seq<byte>, ext: seq<byte>)
    requires AllHex(digits) && Extension(ext)
    ensures HeaderSize(digits + (ext + [13, 10])) == ParseSize(digits)
  {
    NoDigitIff((ext + [13, 10])[0]);
    HexCountOf(digits, ext + [13, 10]);
    assert (digits + (ext + [13, 10]))[..|digits|] == digits;
  }

  lemma {:induction false} BadLine(line: seq<byte>)
    requires LF !in line && HeaderSize(line + [LF]).None?
    ensures Run(INIT, line + [LF]).fault == Some(BogusChunkSize)
  {
    RunLine(INIT, line);
    assert [] + (line + [LF]) == line + [LF];
  }

  lemma {:induction false} BadHeader(digits: seq<byte>, ext: seq<byte>)
    requires AllHex(digits) && Extension(ext) && ParseSize(digits).None?
    ensures Run(INIT, digits + ext + [13, 10]).fault == Some(BogusChunkSize)
  {
    var line := digits + ext + [13];
    assert digits + ext + [13, 10] == line + [LF] && line + [LF] == digits + (ext + [13, 10]);
    NoFeed(digits, ext);
    SizeOf(digits, ext);
    BadLine(line);
  }

  // ---------------------------------------------------------------- trailer lines

  /** Octets as US-ASCII text. */
  function Text(s: seq<byte>): string {
    seq(|s|, i requires 0 <= i < |s| => if s[i] < 128 then s[i] as char else '\U{FFFD}')
  }

  ghost predicate Blanks(s: seq<byte>) {
    forall i :: 0 <= i < |s| ==> s[i] <= 32 && s[i] != 10
  }

  /** Neither begins nor ends with a blank, and holds no line feed. */
  ghost predicate Solid(s: seq<byte>) {
    10 !in s && (s != [] ==> s[0] > 32 && s[|s| - 1] > 32)
  }

  /** A name and a value, each with blanks around it. */
  datatype Field = Field(before: seq<byte>, name: seq<byte>, behind: seq<byte>,
                         lead: seq<byte>, value: seq<byte>, trail: seq<byte>)

  ghost predicate FieldOk(f: Field) {
    && Blanks(f.before) && Blanks(f.behind) && Blanks(f.lead) && Blanks(f.trail)
    && Solid(f.name) && Solid(f.value) && 58 !in f.name
  }

  ghost function FieldLine(f: Field): seq<byte> {
    f.before + f.name + f.behind + [58] + f.lead + f.value + f.trail + [13]
  }

  ghost predicate Pad(s: string) {
    forall i :: 0 <= i < |s| ==> s[i] <= ' '
  }

  ghost predicate Firm(s: string) {
    s != [] ==> s[0] > ' ' && s[|s| - 1] > ' '
  }

  lemma {:induction false} TrimLeftPad(a: string, s: string)
    requires Pad(a) && (s != [] ==> s[0] > ' ')
    ensures TrimLeft(a + s) == s
    decreases |a|
  {
    if a == [] {
      assert a + s == s;
    } else {
      assert (a + s)[1..] == a[1..] + s;
      TrimLeftPad(a[1..], s);
    }
  }

  lemma {:induction false} TrimRightPad(s: string, a: string)
    requires Pad(a) && (s != [] ==> s[|s| - 1] > ' ')
    ensures TrimRight(s + a) == s
    decreases |a|
  {
    if a == [] {
      assert s + a == s;
    } else {
      assert (s + a)[..|s + a| - 1] == s + a[..|a| - 1];
      TrimRightPad(s, a[..|a| - 1]);
    }
  }

  lemma {:induction false} TrimPad(a: string)
    requires Pad(a)
    ensures TrimLeft(a) == []
  {
    TrimLeftPad(a, []);
    assert a + [] == a;
  }

  lemma TrimPadded(a: string, s: string, b: string)
    requires Pad(a) && Firm(s) && Pad(b)
    ensures Trim(a + s + b) == s
  {
    if s == [] {
      assert a + s + b == a + b;
      TrimPad(a + b);
    } else {
      assert a + s + b == a + (s + b);
      TrimLeftPad(a, s + b);
      TrimRightPad(s, b);
    }
  }

  lemma AsciiIsText(a: seq<byte>, s: seq<byte>, b: seq<byte>)
    requires Blanks(a) && Blanks(b) && Solid(s)
    ensures Ascii(a + s + b) == Text(a) + Text(s) + Text(b)
    ensures Pad(Text(a)) && Pad(Text(b)) && Firm(Text(s))
  {
  }

  lemma {:induction false} IndexBehind(s: seq<byte>, b: byte, rest: seq<byte>)
    requires b !in s
    ensures IndexOf(s + [b] + rest, b) == |s|
  {
    var all := s + [b] + rest;
    assert all[|s|] == b && forall i :: 0 <= i < |s| ==> all[i] == s[i];
  }

  /** The two parts of a field line, around its first colon. */
  lemma FieldParts(f: Field)
    requires FieldOk(f)
    ensures COLON in FieldLine(f)
    ensures var line, i := FieldLine(f), IndexOf(FieldLine(f), COLON);
            && i < |line| && line[..i] == f.before + f.name + f.behind
            && line[i + 1..] == f.lead + f.value + (f.trail + [13])
  {
    var front, rest := f.before + f.name + f.behind, f.lead + f.value + (f.trail + [13]);
    assert FieldLine(f) == front + [58] + rest;
    assert FieldLine(f)[|front|] == 58;
    IndexBehind(front, 58, rest);
  }

  lemma TrimmedText(a: seq<byte>, s: seq<byte>, b: seq<byte>)
    requires Blanks(a) && Blanks(b) && Solid(s)
    ensures Trim(Ascii(a + s + b)) == Text(s)
  {
    AsciiIsText(a, s, b);
    TrimPadded(Text(a), Text(s), Text(b));
  }

  lemma FieldBinds(trailers: map<string, string>, f: Field)
    requires FieldOk(f)
    ensures COLON in FieldLine(f)
    ensures PutTrailer(trailers, FieldLine(f)) == trailers[Text(f.name) := Text(f.value)]
  {
    FieldParts(f);
    TrimmedText(f.before, f.name, f.behind);
    TrimmedText(f.lead, f.value, f.trail + [13]);
  }

  lemma FieldIsTrailer(f: Field)
    requires FieldOk(f)
    ensures TrailerOk(FieldLine(f))
  {
    FieldParts(f);
  }

  /**
   * A trailer line binds exactly that name to that value, whatever blanks stand around either, and
   * leaves every other name alone.
   */
  lemma {:induction false} FieldIsStored(m: Machine, f: Field)
    requires m.phase.AwaitingTrailers? && m.fault.None? && m.pending == [] && FieldOk(f)
    ensures Run(m, FieldLine(f) + [10]) == m.(trailers := m.trailers[Text(f.name) := Text(f.value)])
  {
    FieldIsTrailer(f);
    FieldBinds(m.trailers, f);
    RunTrailer(m, FieldLine(f));
  }

  // ---------------------------------------------------------------- whole messages

  /** A chunk: how its size is spelled, what stands behind the digits, and its octets. */
  datatype Piece = Piece(digits: seq<byte>, ext: seq<byte>, octets: seq<byte>)

  ghost predicate PieceOk(p: Piece) {
    0 < |p.octets| <= 0x7fff_ffff && Spells(p.digits, |p.octets|) && Extension(p.ext)
  }

  ghost function PieceWire(p: Piece): seq<byte> {
    p.digits + p.ext + [13, 10] + p.octets + [13, 10]
  }

  /** Chunks, the header of the last one, and trailers. */
  datatype Letter = Letter(pieces: seq<Piece>, zeros: seq<byte>, ext: seq<byte>, fields: seq<Field>)

  ghost predicate LetterOk(l: Letter) {
    && (forall i :: 0 <= i < |l.pieces| ==> PieceOk(l.pieces[i]))
    && l.zeros != [] && (forall i :: 0 <= i < |l.zeros| ==> l.zeros[i] == 48) && Extension(l.ext)
    && FieldsOk(l.fields)
  }

  ghost function PiecesWire(ps: seq<Piece>): seq<byte> {
    if ps == [] then [] else PiecesWire(ps[..|ps| - 1]) + PieceWire(ps[|ps| - 1])
  }

  ghost function FieldsWire(fs: seq<Field>): seq<byte> {
    if fs == [] then [] else FieldsWire(fs[..|fs| - 1]) + FieldLine(fs[|fs| - 1]) + [10]
  }

  ghost function LetterWire(l: Letter): seq<byte> {
    PiecesWire(l.pieces) + l.zeros + l.ext + [13, 10] + FieldsWire(l.fields) + [13, 10]
  }

  ghost function Body(ps: seq<Piece>): seq<byte> {
    if ps == [] then [] else Body(ps[..|ps| - 1]) + ps[|ps| - 1].octets
  }

  datatype Entry = Entry(name: string, value: string)

  ghost function EntryOf(f: Field): Entry {
    Entry(Text(f.name), Text(f.value))
  }

  ghost function Entries(fs: seq<Field>): seq<Entry> {
    seq(|fs|, i requires 0 <= i < |fs| => EntryOf(fs[i]))
  }

  /** Each name is bound to its last value, and there is no other name. */
  ghost predicate Binds(trailers: map<string, string>, es: seq<Entry>) {
    && (forall i :: 0 <= i < |es| && Last(es, i) ==> es[i].name in trailers && trailers[es[i].name] == es[i].value)
    && (forall k :: k in trailers ==> Named(es, k))
  }

  ghost predicate Last(es: seq<Entry>, i: nat)
    requires i < |es|
  {
    forall j :: i < j < |es| ==> es[j].name != es[i].name
  }

  ghost predicate Named(es: seq<Entry>, k: string) {
    exists i :: 0 <= i < |es| && es[i].name == k
  }

  function ChunkOf(p: Piece): Chunk {
    Chunk(Header(p.digits, p.ext + [13]), p.octets)
  }

  function ChunksOf(ps: seq<Piece>): seq<Chunk> {
    seq(|ps|, i requires 0 <= i < |ps| => ChunkOf(ps[i]))
  }

  ghost function LinesOf(fs: seq<Field>): seq<seq<byte>> {
    seq(|fs|, i requires 0 <= i < |fs| => FieldLine(fs[i]))
  }

  ghost function MessageOf(l: Letter): Message {
    Message(ChunksOf(l.pieces), Header(l.zeros, l.ext + [13]), LinesOf(l.fields))
  }

  lemma {:induction false} ZerosSpell(s: seq<byte>)
    requires forall i :: 0 <= i < |s| ==> s[i] == 48
    ensures Spells(s, 0)
    decreases |s|
  {
    if s != [] {
      ZerosSpell(s[..|s| - 1]);
    }
  }

  lemma PieceIsChunk(p: Piece)
    requires PieceOk(p)
    ensures ChunkOk(ChunkOf(p)) && ChunkWire(ChunkOf(p)) == PieceWire(p)
  {
    HeaderIs(p.digits, p.ext, |p.octets|);
    assert p.digits + (p.ext + [13]) + [10] == p.digits + p.ext + [13, 10];
  }

  lemma PiecesAreOk(ps: seq<Piece>)
    requires forall i :: 0 <= i < |ps| ==> PieceOk(ps[i])
    ensures forall i :: 0 <= i < |ps| ==> ChunkOk(ChunksOf(ps)[i])
  {
    forall i | 0 <= i < |ps| ensures ChunkOk(ChunksOf(ps)[i]) {
      PieceIsChunk(ps[i]);
    }
  }

  lemma ChunksFront(ps: seq<Piece>)
    requires ps != []
    ensures ChunksOf(ps)[..|ps| - 1] == ChunksOf(ps[..|ps| - 1]) && ChunksOf(ps)[|ps| - 1] == ChunkOf(ps[|ps| - 1])
  {
  }

  lemma {:induction false} ChunksSnoc(cs: seq<Chunk>, front: seq<Chunk>, c: Chunk)
    requires cs != [] && cs[..|cs| - 1] == front && cs[|cs| - 1] == c
    ensures ChunksWire(cs) == ChunksWire(front) + ChunkWire(c) && Payload(cs) == Payload(front) + c.data
  {
  }

  lemma {:induction false} PiecesAreChunks(ps: seq<Piece>)
    requires forall i :: 0 <= i < |ps| ==> PieceOk(ps[i])
    ensures ChunksWire(ChunksOf(ps)) == PiecesWire(ps) && Payload(ChunksOf(ps)) == Body(ps)
  {
    if ps != [] {
      var front, p := ps[..|ps| - 1], ps[|ps| - 1];
      PiecesAreChunks(front);
      ChunksFront(ps);
      ChunksSnoc(ChunksOf(ps), ChunksOf(front), ChunkOf(p));
      PieceIsChunk(p);
    }
  }

  ghost predicate FieldsOk(fs: seq<Field>) {
    forall i :: 0 <= i < |fs| ==> FieldOk(fs[i])
  }

  lemma LinesAreTrailers(fs: seq<Field>)
    requires FieldsOk(fs)
    ensures forall i :: 0 <= i < |fs| ==> TrailerOk(LinesOf(fs)[i])
  {
    forall i | 0 <= i < |fs| ensures TrailerOk(LinesOf(fs)[i]) {
      FieldIsTrailer(fs[i]);
    }
  }

  lemma LinesFront(fs: seq<Field>)
    requires fs != []
    ensures LinesOf(fs)[..|fs| - 1] == LinesOf(fs[..|fs| - 1]) && LinesOf(fs)[|fs| - 1] == FieldLine(fs[|fs| - 1])
  {
  }

  lemma {:induction false} LinesWire(fs: seq<Field>)
    ensures TrailersWire(LinesOf(fs)) == FieldsWire(fs)
  {
    if fs != [] {
      LinesWire(fs[..|fs| - 1]);
      LinesFront(fs);
      Associate(FieldsWire(fs[..|fs| - 1]), FieldLine(fs[|fs| - 1]), [10]);
    }
  }

  lemma Associate(a: seq<byte>, b: seq<byte>, c: seq<byte>)
    ensures a + (b + c) == a + b + c
  {
  }

  /** The trailers of some fields. */
  ghost function MapOf(fs: seq<Field>): map<string, string>
    requires FieldsOk(fs)
  {
    LinesAreTrailers(fs);
    TrailerMap(LinesOf(fs))
  }

  ghost predicate TrailersOk(ts: seq<seq<byte>>) {
    forall i :: 0 <= i < |ts| ==> TrailerOk(ts[i])
  }

  lemma {:induction false} TrailersSnoc(ts: seq<seq<byte>>, front: seq<seq<byte>>, t: seq<byte>)
    requires TrailersOk(ts) && ts != [] && TrailersOk(front) && TrailerOk(t)
    requires ts[..|ts| - 1] == front && ts[|ts| - 1] == t
    ensures TrailerMap(ts) == PutTrailer(TrailerMap(front), t)
  {
  }

  lemma MapLast(fs: seq<Field>)
    requires FieldsOk(fs) && fs != []
    ensures TrailerOk(FieldLine(fs[|fs| - 1]))
    ensures MapOf(fs) == PutTrailer(MapOf(fs[..|fs| - 1]), FieldLine(fs[|fs| - 1]))
  {
    FieldIsTrailer(fs[|fs| - 1]);
    LinesAreTrailers(fs);
    LinesAreTrailers(fs[..|fs| - 1]);
    LinesFront(fs);
    TrailersSnoc(LinesOf(fs), LinesOf(fs[..|fs| - 1]), FieldLine(fs[|fs| - 1]));
  }

  lemma MapGrows(fs: seq<Field>)
    requires FieldsOk(fs) && fs != []
    ensures var e := EntryOf(fs[|fs| - 1]); MapOf(fs) == MapOf(fs[..|fs| - 1])[e.name := e.value]
  {
    MapLast(fs);
    FieldBinds(MapOf(fs[..|fs| - 1]), fs[|fs| - 1]);
  }

  lemma EntriesGrow(fs: seq<Field>)
    requires fs != []
    ensures Entries(fs[..|fs| - 1]) + [EntryOf(fs[|fs| - 1])] == Entries(fs)
  {
  }

  lemma {:induction false} LinesBind(fs: seq<Field>)
    requires FieldsOk(fs)
    ensures Binds(MapOf(fs), Entries(fs))
  {
    if fs != [] {
      var front, f := fs[..|fs| - 1], fs[|fs| - 1];
      LinesBind(front);
      MapGrows(fs);
      EntriesGrow(fs);
      BindsMore(MapOf(front), Entries(front), EntryOf(f));
    }
  }

  lemma BindsMore(trailers: map<string, string>, es: seq<Entry>, e: Entry)
    requires Binds(trailers, es)
    ensures Binds(trailers[e.name := e.value], es + [e])
  {
    var all, now := es + [e], trailers[e.name := e.value];
    assert all[|es|] == e;
    forall i | 0 <= i < |all| && Last(all, i) ensures all[i].name in now && now[all[i].name] == all[i].value {
      if i < |es| {
        assert all[|es|].name != all[i].name;
        LastBefore(es, e, i);
      }
    }
    forall k | k in now ensures Named(all, k) {
      if k != e.name {
        var i :| 0 <= i < |es| && es[i].name == k;
        assert all[i].name == k;
      }
    }
  }

  lemma LastBefore(es: seq<Entry>, e: Entry, i: nat)
    requires i < |es| && Last(es + [e], i)
    ensures Last(es, i)
  {
    forall j | i < j < |es| ensures es[j].name != es[i].name {
      assert (es + [e])[j] == es[j];
    }
  }

  lemma LastHeader(l: Letter)
    requires LetterOk(l)
    ensures HeaderOf(Header(l.zeros, l.ext + [13]), 0)
    ensures HeaderLine(Header(l.zeros, l.ext + [13])) == l.zeros + l.ext + [13, 10]
  {
    ZerosSpell(l.zeros);
    HeaderIs(l.zeros, l.ext, 0);
  }

  lemma Joined(a: seq<byte>, b: seq<byte>, c: seq<byte>, d: seq<byte>, e: seq<byte>)
    ensures a + (b + c + d) + e == a + b + c + d + e
  {
  }

  lemma LetterIsMessage(l: Letter)
    requires LetterOk(l)
    ensures WellFormed(MessageOf(l)) && Wire(MessageOf(l)) == LetterWire(l)
    ensures Payload(MessageOf(l).chunks) == Body(l.pieces)
    ensures Binds(TrailerMap(MessageOf(l).trailers), Entries(l.fields))
  {
    PiecesAreOk(l.pieces);
    PiecesAreChunks(l.pieces);
    LinesAreTrailers(l.fields);
    LinesWire(l.fields);
    LinesBind(l.fields);
    LastHeader(l);
    Joined(PiecesWire(l.pieces), l.zeros, l.ext, [13, 10], FieldsWire(l.fields));
  }

  /**
   * Round trip, from literal octets: however the sizes are spelled, whatever stands behind them and
   * whatever blanks the trailers hold, the machine ends with the octets of the chunks and with each
   * name bound to its last value; what follows is left untouched.
   */
  lemma {:induction false} LetterIsRead(l: Letter, extra: seq<byte>)
    requires LetterOk(l)
    ensures var m := Run(INIT, LetterWire(l) + extra);
            && m.phase.Done? && m.fault.None? && m.payload == Body(l.pieces) && Binds(m.trailers, Entries(l.fields))
  {
    LetterIsMessage(l);
    EncodingIsDecoded(MessageOf(l), extra);
  }

  /** In particular a payload in a single chunk. */
  lemma {:induction false} SingleChunk(digits: seq<byte>, ext: seq<byte>, payload: seq<byte>)
    requires 0 < |payload| <= 0x7fff_ffff && Spells(digits, |payload|) && Extension(ext)
    ensures var m := Run(INIT, digits + ext + [13, 10] + payload + [13, 10, 48, 13, 10, 13, 10]);
            m.phase.Done? && m.fault.None? && m.payload == payload && m.trailers == map[]
  {
    var p := Piece(digits, ext, payload);
    var l := Letter([p], [48], [], []);
    SingleWire(p);
    LetterIsRead(l, []);
    assert LetterWire(l) + [] == LetterWire(l);
  }

  lemma SingleWire(p: Piece)
    ensures Body([p]) == p.octets && Entries([]) == []
    ensures LetterWire(Letter([p], [48], [], [])) ==
            p.digits + p.ext + [13, 10] + p.octets + [13, 10, 48, 13, 10, 13, 10]
  {
    assert [p][..0] == [];
    assert PiecesWire([p]) == [] + PieceWire(p);
    assert Body([p]) == [] + p.octets;
  }

  // ---------------------------------------------------------------- what each fault means

  /** The two octets behind the octets of a chunk. */
  lemma {:induction false} EolFaults(m: Machine, x: byte, y: byte)
    requires m.phase.AwaitingEol? && m.fault.None? && m.pending == []
    ensures Run(m, [x, y]).fault == if x != 13 then Some(MissingCR) else if y != 10 then Some(MissingLF) else None
  {
    assert [x, y][1..] == [y];
    assert Run(m, [x, y]) == Run(Feed(m, x), [y]);
    RunOne(Feed(m, x), y);
  }

  /** A line behind the last chunk, without its line feed. */
  lemma {:induction false} LineFaults(m: Machine, line: seq<byte>)
    requires m.phase.AwaitingTrailers? && m.fault.None? && m.pending == [] && 10 !in line
    ensures Run(m, line + [10]).fault ==
            if line == [] || line[|line| - 1] != 13 then Some(LineWithoutCR)
            else if |line| > 1 && 58 !in line then Some(MalformedTrailer)
            else None
  {
    RunLine(m, line);
    assert (line + [10])[..|line|] == line;
  }
}
