/**
 The session dump file: a writer with a size cap, a reader, and the anonymiser. The file is
 a sequence of bytes; the JSON header is produced and parsed by an abstract codec.
 */
module Dump {
  import opened Common
  import opened BigEndian

  datatype Header = Header(sessionId: string, protocol: string, startTime: int, connection: map<string, string>)

  datatype Packet = Packet(relativeNs: int64, direction: byte, data: Bytes)

  /** encoding/json on headers. */
  datatype Codec = Codec(marshal: Header -> Option<Bytes>, unmarshal: Bytes -> Option<Header>)

  /** "DBBAT_DUMP" and six zero bytes. */
  const MAGIC: Bytes :=
    [0x44, 0x42, 0x42, 0x41, 0x54, 0x5F, 0x44, 0x55, 0x4D, 0x50, 0, 0, 0, 0, 0, 0]
  const MIN_MAGIC := 10
  const VERSION := 2
  const EOF_MARKER: byte := 0xFF
  const FRAME_SIZE := 13

  // ---------------------------------------------------------------- the format

  function FrameHead(ns: int64, direction: byte, length: nat): (b: Bytes)
    ensures |b| == FRAME_SIZE
  {
    Put(8, ToUnsigned(ns)) + [direction] + Put(4, length)
  }

  function Frame(p: Packet): (b: Bytes)
    ensures |b| == FRAME_SIZE + |p.data|
  {
    FrameHead(p.relativeNs, p.direction, |p.data|) + p.data
  }

  function Frames(ps: seq<Packet>): Bytes {
    if ps == [] then [] else Frame(ps[0]) + Frames(ps[1..])
  }

  function Preamble(json: Bytes): (b: Bytes)
    ensures |b| == 22 + |json|
  {
    MAGIC + Put(2, VERSION) + Put(4, |json|) + json
  }

  function DumpFile(json: Bytes, ps: seq<Packet>, closedAt: int64): Bytes {
    Preamble(json) + Frames(ps) + FrameHead(closedAt, EOF_MARKER, 0)
  }

  /** What the format can carry: 0xFF is the end marker and lengths are 32 bits. */
  predicate Writable(p: Packet) {
    p.direction != EOF_MARKER && |p.data| < 0x1_0000_0000
  }

  predicate AllWritable(ps: seq<Packet>) {
    forall i :: 0 <= i < |ps| ==> Writable(ps[i])
  }

  // ---------------------------------------------------------------- the writer

  predicate Fits(maxSize: int, written: nat, p: Packet) {
    maxSize <= 0 || written + FRAME_SIZE + |p.data| <= maxSize
  }

  /** The packets that the size cap lets through, in order. */
  function Kept(maxSize: int, written: nat, ps: seq<Packet>): seq<Packet>
    decreases |ps|
  {
    if ps == [] then []
    else if Fits(maxSize, written, ps[0])
    then [ps[0]] + Kept(maxSize, written + FRAME_SIZE + |ps[0].data|, ps[1..])
    else Kept(maxSize, written, ps[1..])
  }

  class Writer {
    var file: Bytes
    var written: nat
    const maxSize: int
    ghost const json: Bytes
    ghost var kept: seq<Packet>

    /** Open for writing: the file is the preamble and the frames of the packets kept so far. */
    ghost predicate Valid()
      reads this
    {
      file == Preamble(json) + Frames(kept) && written == |file|
    }

    /** NewWriter, once the header has been marshalled. */
    constructor (json: Bytes, maxSize: int)
      ensures Valid() && this.json == json && this.maxSize == maxSize && kept == [] && fresh(this)
    {
      this.json := json;
      this.maxSize := maxSize;
      file := MAGIC + Put(2, VERSION) + Put(4, |json|) + json;
      written := 22 + |json|;
      kept := [];
      assert Preamble(json) + [] == Preamble(json);
    }

    /** Keeps the packet unless the cap would be exceeded. */
    method WritePacket(elapsed: int64, direction: byte, data: Bytes)
      requires Valid()
      modifies this
      ensures Valid()
      ensures kept == old(kept) + if maxSize <= 0 || |old(file)| + 13 + |data| <= maxSize
                                  then [Packet(elapsed, direction, data)] else []
      ensures forall ps :: old(kept) == Kept(maxSize, |Preamble(json)|, ps) ==>
                             kept == Kept(maxSize, |Preamble(json)|, ps + [Packet(elapsed, direction, data)])
    {
      ghost var p := Packet(elapsed, direction, data);
      forall ps | kept == Kept(maxSize, |Preamble(json)|, ps)
        ensures Kept(maxSize, |Preamble(json)|, ps + [p]) == kept + if Fits(maxSize, written, p) then [p] else []
      {
        KeptSnoc(maxSize, |Preamble(json)|, ps, p);
        FramesLength(kept);
      }
      var frameTotal := FRAME_SIZE + |data|;
      if maxSize > 0 && written + frameTotal > maxSize {
        return;
      }
      AppendFrame(json, kept, p);
      kept := kept + [p];
      var head := Put(8, ToUnsigned(elapsed)) + [direction] + Put(4, |data|);
      Regroup(file, head, data);
      file := file + head;
      file := file + data;
      written := written + frameTotal;
    }

    /** The anonymiser's variant: the time comes already encoded, and the cap is not consulted. */
    method WritePacketRaw(relativeNs: Bytes, direction: byte, data: Bytes)
      requires Valid() && |relativeNs| == 8
      modifies this
      ensures Valid() && kept == old(kept) + [Packet(DecodedNs(relativeNs), direction, data)]
    {
      ghost var p := Packet(DecodedNs(relativeNs), direction, data);
      AppendFrame(json, kept, p);
      NsRoundTrip(relativeNs);
      kept := kept + [p];
      var head := relativeNs + [direction] + Put(4, |data|);
      Regroup(file, head, data);
      file := file + head;
      file := file + data;
      written := written + FRAME_SIZE + |data|;
    }

    /** The file after closing. */
    method Close(elapsed: int64) returns (closed: Bytes)
      requires Valid()
      modifies this
      ensures closed == file == DumpFile(json, kept, elapsed) && kept == old(kept)
    {
      file := file + FrameHead(elapsed, EOF_MARKER, 0);
      return file;
    }
  }

  lemma AppendFrame(json: Bytes, kept: seq<Packet>, p: Packet)
    ensures Preamble(json) + Frames(kept + [p]) == Preamble(json) + Frames(kept) + Frame(p)
  {
    FramesSnoc(kept, p);
    Regroup(Preamble(json), Frames(kept), Frame(p));
  }

  function DecodedNs(b: Bytes): int64
    requires |b| == 8
  {
    PutOfGet(b);
    Widths();
    ToSigned(Get(b))
  }

  lemma NsRoundTrip(b: Bytes)
    requires |b| == 8
    ensures Put(8, ToUnsigned(DecodedNs(b))) == b
  {
    PutOfGet(b);
    Widths();
  }

  lemma {:induction false} FramesConcat(a: seq<Packet>, b: seq<Packet>)
    ensures Frames(a + b) == Frames(a) + Frames(b)
  {
    if a == [] {
      assert a + b == b;
    } else {
      FramesConcat(a[1..], b);
      assert (a + b)[1..] == a[1..] + b;
      Regroup(Frame(a[0]), Frames(a[1..]), Frames(b));
    }
  }

  lemma FramesSnoc(ps: seq<Packet>, p: Packet)
    ensures Frames(ps + [p]) == Frames(ps) + Frame(p)
  {
    FramesConcat(ps, [p]);
    assert Frames([p]) == Frame(p) + Frames([]);
  }

  /** Bytes taken by a run of frames. */
  function Weight(ps: seq<Packet>): nat {
    if ps == [] then 0 else FRAME_SIZE + |ps[0].data| + Weight(ps[1..])
  }

  lemma {:induction false} FramesLength(ps: seq<Packet>)
    ensures |Frames(ps)| == Weight(ps)
  {
    if ps != [] {
      FramesLength(ps[1..]);
    }
  }

  lemma WeightCons(p: Packet, ks: seq<Packet>)
    ensures Weight([p] + ks) == FRAME_SIZE + |p.data| + Weight(ks)
  {
    assert ([p] + ks)[1..] == ks;
  }

  /** What the cap makes of one more packet. */
  function Offer(maxSize: int, written: nat, ks: seq<Packet>, p: Packet): seq<Packet> {
    if Fits(maxSize, written + Weight(ks), p) then ks + [p] else ks
  }

  lemma {:induction false} KeptSnoc(maxSize: int, written: nat, ps: seq<Packet>, p: Packet)
    ensures Kept(maxSize, written, ps + [p]) == Offer(maxSize, written, Kept(maxSize, written, ps), p)
    decreases |ps|
  {
    if ps == [] {
      assert ps + [p] == [p] && [p][1..] == [];
    } else {
      var q, rest := ps[0], ps[1..];
      assert ps == [q] + rest && ps + [p] == [q] + (rest + [p]);
      KeptMeans(maxSize, written, q, rest);
      KeptMeans(maxSize, written, q, rest + [p]);
      if Fits(maxSize, written, q) {
        var more := written + FRAME_SIZE + |q.data|;
        KeptSnoc(maxSize, more, rest, p);
        OfferAfter(maxSize, written, q, Kept(maxSize, more, rest), p);
      } else {
        KeptSnoc(maxSize, written, rest, p);
      }
    }
  }

  lemma OfferAfter(maxSize: int, written: nat, q: Packet, ks: seq<Packet>, p: Packet)
    ensures [q] + Offer(maxSize, written + FRAME_SIZE + |q.data|, ks, p) == Offer(maxSize, written, [q] + ks, p)
  {
    WeightCons(q, ks);
    assert [q] + (ks + [p]) == [q] + ks + [p];
  }

  /** With a cap, the closed file exceeds the larger of preamble and cap by the end marker alone. */
  lemma {:induction false} CapBoundsWeight(maxSize: int, written: nat, ps: seq<Packet>)
    requires maxSize > 0
    ensures written + Weight(Kept(maxSize, written, ps)) <= if written > maxSize then written else maxSize
    decreases |ps|
  {
    if ps != [] {
      if Fits(maxSize, written, ps[0]) {
        var more := written + FRAME_SIZE + |ps[0].data|;
        CapBoundsWeight(maxSize, more, ps[1..]);
        WeightCons(ps[0], Kept(maxSize, more, ps[1..]));
      } else {
        CapBoundsWeight(maxSize, written, ps[1..]);
      }
    }
  }

  lemma FileSizeIsCapped(json: Bytes, maxSize: int, ps: seq<Packet>, closedAt: int64)
    requires maxSize > 0
    ensures var h := |Preamble(json)|;
            |DumpFile(json, Kept(maxSize, h, ps), closedAt)| <= (if h > maxSize then h else maxSize) + FRAME_SIZE
  {
    CapBoundsWeight(maxSize, |Preamble(json)|, ps);
    FramesLength(Kept(maxSize, |Preamble(json)|, ps));
  }

  /** Without a cap, or with one that is never reached, every packet is kept. */
  lemma {:induction false} AllAreKept(maxSize: int, written: nat, ps: seq<Packet>)
    requires maxSize <= 0 || written + Weight(ps) <= maxSize
    ensures Kept(maxSize, written, ps) == ps
    decreases |ps|
  {
    if ps != [] {
      AllAreKept(maxSize, written + FRAME_SIZE + |ps[0].data|, ps[1..]);
    }
  }

  /** A packet is dropped exactly when it would take the file over a positive cap; later ones may still fit. */
  lemma KeptMeans(maxSize: int, written: nat, p: Packet, ps: seq<Packet>)
    ensures Kept(maxSize, written, [p] + ps) ==
            if maxSize > 0 && written + 13 + |p.data| > maxSize then Kept(maxSize, written, ps)
            else [p] + Kept(maxSize, written + 13 + |p.data|, ps)
  {
    assert ([p] + ps)[1..] == ps;
  }

  // ---------------------------------------------------------------- the bytes

  /** The first ten bytes spell DBBAT_DUMP. */
  predicate SpellsName(file: Bytes) {
    |file| >= 10 && forall i :: 0 <= i < 10 ==> file[i] == "DBBAT_DUMP"[i] as int
  }

  /**
   The file begins with the name, six zero bytes, the version 2 in two bytes and the length of the
   header in four, high byte first, and then the header.
   */
  lemma PreambleMeans(json: Bytes)
    requires |json| < 0x1_0000_0000
    ensures var b, n := Preamble(json), |json|;
            && |b| == 22 + n && SpellsName(b) && b[10..16] == [0, 0, 0, 0, 0, 0] && b[16] == 0 && b[17] == 2
            && WordAt(b, 18) == n && b[22..] == json
  {
    var b, version, length := Preamble(json), Put(2, VERSION), Put(4, |json|);
    ShortBytes(VERSION);
    WordValue(|json|);
    StartsWithName(b);
  }

  lemma StartsWithName(b: Bytes)
    requires |b| >= 16 && b[..16] == MAGIC
    ensures SpellsName(b) && b[10..16] == [0, 0, 0, 0, 0, 0]
  {
    assert forall i :: 0 <= i < 16 ==> b[i] == b[..16][i];
    assert b[10..16] == b[..16][10..];
  }

  /** Eight bytes, one byte and a length in four bytes. */
  lemma HeadMeans(time: Bytes, direction: byte, n: nat)
    requires |time| == 8 && n < 0x1_0000_0000
    ensures var b := time + [direction] + Put(4, n);
            |b| == 13 && b[..8] == time && b[8] == direction && WordAt(b, 9) == n
  {
    var b := time + [direction] + Put(4, n);
    WordValue(n);
    assert b[9] == Put(4, n)[0] && b[10] == Put(4, n)[1] && b[11] == Put(4, n)[2] && b[12] == Put(4, n)[3];
  }

  /** A frame: the time in eight bytes, the direction, the length in four bytes, the data. */
  lemma FrameMeans(p: Packet)
    requires |p.data| < 0x1_0000_0000
    ensures var b, n := Frame(p), |p.data|;
            && |b| == 13 + n && Get(b[..8]) == p.relativeNs % 0x1_0000_0000_0000_0000 && b[8] == p.direction
            && WordAt(b[..13], 9) == n && b[13..] == p.data
  {
    var time := Put(8, ToUnsigned(p.relativeNs));
    UnsignedMeans(p.relativeNs);
    Widths();
    GetOfPut(8, ToUnsigned(p.relativeNs));
    HeadMeans(time, p.direction, |p.data|);
    assert Frame(p)[..13] == time + [p.direction] + Put(4, |p.data|);
    assert Frame(p)[..8] == Frame(p)[..13][..8];
  }

  /** The file ends in a frame of direction 0xFF and length 0. */
  lemma TrailerMeans(json: Bytes, ps: seq<Packet>, closedAt: int64)
    ensures var file := DumpFile(json, ps, closedAt);
            var n := |file| - 13;
            && n >= 22 && file[..n] == Preamble(json) + Frames(ps) && file[n + 8] == 0xFF
            && file[n + 9..] == [0, 0, 0, 0]
  {
    var file := DumpFile(json, ps, closedAt);
    WordBytes(0);
    assert file[|file| - 13..] == FrameHead(closedAt, EOF_MARKER, 0);
    assert file[|file| - 4..] == FrameHead(closedAt, EOF_MARKER, 0)[9..];
  }

  // ---------------------------------------------------------------- the reader

  /** io.ReadFull: end of file only when nothing at all could be read. */
  datatype Read = Got(bytes: Bytes) | AtEnd | Short

  function ReadFull(file: Bytes, pos: nat, n: nat): Read
    requires pos <= |file|
  {
    if n <= |file| - pos then Got(file[pos..pos + n]) else if pos == |file| then AtEnd else Short
  }

  datatype Opened =
    | Opened(header: Header, pos: nat)
    | Truncated
    | InvalidMagic
    | UnsupportedVersion
    | BadJson

  function OpenFile(c: Codec, file: Bytes): (o: Opened)
    ensures o.Opened? ==> o.pos <= |file|
  {
    if |file| < 16 then Truncated
    else if file[..MIN_MAGIC] != MAGIC[..MIN_MAGIC] then InvalidMagic
    else if |file| < 18 then Truncated
    else if Get(file[16..18]) != VERSION then UnsupportedVersion
    else if |file| < 22 then Truncated
    else
      var n := Get(file[18..22]);
      if |file| < 22 + n then Truncated
      else match c.unmarshal(file[22..22 + n])
        case None => BadJson
        case Some(h) => Opened(h, 22 + n)
  }

  /** The number in four bytes of the file, high byte first. */
  function WordAt(file: Bytes, i: nat): nat
    requires i + 4 <= |file|
  {
    0x100_0000 * (file[i] as int) + 0x1_0000 * (file[i + 1] as int) + 0x100 * (file[i + 2] as int) + file[i + 3]
  }

  lemma WordIsGet(file: Bytes, i: nat)
    requires i + 4 <= |file|
    ensures Get(file[i..i + 4]) == WordAt(file, i)
  {
    var b := file[i..i + 4];
    assert b[..3][..2] == b[..2] && b[..2][..1] == b[..1] && b[..1][..0] == [];
    assert Get(b[..1]) == b[0] && Get(b[..2]) == 256 * Get(b[..1]) + b[1];
    assert Get(b[..3]) == 256 * Get(b[..2]) + b[2];
  }

  /** A file opens exactly with the name, version 2 and a whole header that parses; the error says what is wrong. */
  lemma OpenMeans(c: Codec, file: Bytes)
    ensures var o := OpenFile(c, file);
            && (o.InvalidMagic? <==> |file| >= 16 && !SpellsName(file))
            && (o.UnsupportedVersion? <==>
                  |file| >= 18 && SpellsName(file) && !(file[16] == 0 && file[17] == 2))
            && (o.Truncated? <==>
                  || |file| < 16
                  || (SpellsName(file) && |file| < 18)
                  || (SpellsName(file) && file[16] == 0 && file[17] == 2
                      && (|file| < 22 || |file| < 22 + WordAt(file, 18))))
            && (o.Opened? ==>
                  && o.pos == 22 + WordAt(file, 18) <= |file|
                  && c.unmarshal(file[22..o.pos]) == Some(o.header))
            && (o.BadJson? ==>
                  && |file| >= 22 && 22 + WordAt(file, 18) <= |file|
                  && c.unmarshal(file[22..22 + WordAt(file, 18)]) == None)
  {
    if |file| >= 16 {
      NameIsMagic(file);
    }
    if |file| >= 18 {
      var b := file[16..18];
      assert b[..1][..0] == [] && Get(b[..1]) == b[0] && Get(b) == 256 * Get(b[..1]) + b[1];
    }
    if |file| >= 22 {
      WordIsGet(file, 18);
    }
  }

  lemma NameIsMagic(file: Bytes)
    requires |file| >= 16
    ensures SpellsName(file) <==> file[..MIN_MAGIC] == MAGIC[..MIN_MAGIC]
  {
    assert SpellsName(MAGIC);
    assert forall i :: 0 <= i < 10 ==> file[..MIN_MAGIC][i] == file[i] && MAGIC[..MIN_MAGIC][i] == MAGIC[i];
  }

  /** ReadPacket: `End` is an error that wraps io.EOF, `Broken` any other. */
  datatype Next = Item(packet: Packet, pos: nat) | End | Broken

  function NextPacket(file: Bytes, pos: nat): (n: Next)
    requires pos <= |file|
    ensures n.Item? ==> pos < n.pos <= |file| && Writable(n.packet) && n.pos == pos + FRAME_SIZE + |n.packet.data|
  {
    match ReadFull(file, pos, FRAME_SIZE)
    case AtEnd => End
    case Short => Broken
    case Got(head) =>
      if head[8] == EOF_MARKER then End
      else
        var length := Get(head[9..13]);
        match ReadFull(file, pos + FRAME_SIZE, length)
        case AtEnd => End
        case Short => Broken
        case Got(data) =>
          PutOfGet(head[9..13]);
          Widths();
          Item(Packet(DecodedNs(head[..8]), head[8], data), pos + FRAME_SIZE + length)
  }

  /** Everything a reader gets from `pos` on, and whether it ended without an error. */
  datatype Reading = Reading(packets: seq<Packet>, clean: bool)

  function ReadAll(file: Bytes, pos: nat): (r: Reading)
    requires pos <= |file|
    ensures AllWritable(r.packets)
    decreases |file| - pos
  {
    match NextPacket(file, pos)
    case End => Reading([], true)
    case Broken => Reading([], false)
    case Item(p, next) =>
      var rest := ReadAll(file, next);
      Reading([p] + rest.packets, rest.clean)
  }

  class Reader {
    const file: Bytes
    var pos: nat
    var header: Option<Header>

    ghost predicate Valid()
      reads this
    {
      pos <= |file|
    }

    constructor (file: Bytes)
      ensures Valid() && this.file == file && pos == 0 && fresh(this)
    {
      this.file := file;
      pos := 0;
      header := None;
    }

    method ReadExactly(n: nat) returns (r: Read)
      requires Valid()
      modifies this`pos
      ensures Valid() && r == ReadFull(file, old(pos), n)
      ensures r.Got? ==> pos == old(pos) + n && |r.bytes| == n
    {
      if n <= |file| - pos {
        r := Got(file[pos..pos + n]);
        pos := pos + n;
      } else {
        r := if pos == |file| then AtEnd else Short;
        pos := |file|;
      }
    }

    method ReadHeader(c: Codec) returns (o: Opened)
      requires Valid() && pos == 0
      modifies this
      ensures Valid() && o == OpenFile(c, file)
      ensures o.Opened? ==> pos == o.pos && header == Some(o.header)
    {
      var magic := ReadExactly(16);
      if !magic.Got? { return Truncated; }
      if magic.bytes[..MIN_MAGIC] != MAGIC[..MIN_MAGIC] { return InvalidMagic; }
      var version := ReadExactly(2);
      if !version.Got? { return Truncated; }
      if Get(version.bytes) != VERSION { return UnsupportedVersion; }
      var length := ReadExactly(4);
      if !length.Got? { return Truncated; }
      var json := ReadExactly(Get(length.bytes));
      if !json.Got? { return Truncated; }
      var h := c.unmarshal(json.bytes);
      if h.None? { return BadJson; }
      header := h;
      return Opened(h.value, pos);
    }

    method ReadPacket() returns (n: Next)
      requires Valid()
      modifies this`pos
      ensures Valid() && n == NextPacket(file, old(pos)) && (n.Item? ==> pos == n.pos)
    {
      var head := ReadExactly(FRAME_SIZE);
      if head.AtEnd? { return End; }
      if head.Short? { return Broken; }
      var length := Get(head.bytes[9..13]);
      if head.bytes[8] == EOF_MARKER { return End; }
      var data := ReadExactly(length);
      if data.AtEnd? { return End; }
      if data.Short? { return Broken; }
      return Item(Packet(DecodedNs(head.bytes[..8]), head.bytes[8], data.bytes), pos);
    }
  }

  // ---------------------------------------------------------------- round trip

  /** `b` followed by `c` sits at `pos`. */
  lemma SplitAt(file: Bytes, pos: nat, b: Bytes, c: Bytes)
    requires pos + |b + c| <= |file| && file[pos..pos + |b + c|] == b + c
    ensures file[pos..pos + |b|] == b && file[pos + |b|..pos + |b| + |c|] == c
  {
    var s := file[pos..pos + |b + c|];
    assert file[pos..pos + |b|] == s[..|b|];
    assert file[pos + |b|..pos + |b| + |c|] == s[|b|..];
  }

  /** The head of a frame sits at `pos`. */
  lemma ReadsHead(file: Bytes, pos: nat, ns: int64, direction: byte, length: nat)
    requires pos + FRAME_SIZE <= |file| && file[pos..pos + FRAME_SIZE] == FrameHead(ns, direction, length)
    requires length < 0x1_0000_0000
    ensures var head := file[pos..pos + FRAME_SIZE];
            head[8] == direction && DecodedNs(head[..8]) == ns && Get(head[9..13]) == length
  {
    var head := file[pos..pos + FRAME_SIZE];
    assert head[..8] == Put(8, ToUnsigned(ns)) && head[9..13] == Put(4, length);
    SignedRoundTrip(ns);
    Widths();
    GetOfPut(4, length);
  }

  lemma ReadsFrame(file: Bytes, pos: nat, p: Packet)
    requires Writable(p) && pos + |Frame(p)| <= |file| && file[pos..pos + |Frame(p)|] == Frame(p)
    ensures NextPacket(file, pos) == Item(p, pos + |Frame(p)|)
  {
    SplitAt(file, pos, FrameHead(p.relativeNs, p.direction, |p.data|), p.data);
    ReadsHead(file, pos, p.relativeNs, p.direction, |p.data|);
  }

  function Prepend(ps: seq<Packet>, r: Reading): Reading {
    Reading(ps + r.packets, r.clean)
  }

  lemma PrependTwice(p: Packet, ps: seq<Packet>, r: Reading)
    ensures Prepend([p], Prepend(ps, r)) == Prepend([p] + ps, r)
  {
    assert [p] + (ps + r.packets) == [p] + ps + r.packets;
  }

  lemma PrependNothing(r: Reading)
    ensures Prepend([], r) == r
  {
    assert [] + r.packets == r.packets;
  }

  /** Reading from `pos` gives the packets `ps` one after the other, up to `end`. */
  predicate Gives(file: Bytes, pos: nat, ps: seq<Packet>, end: nat)
    requires pos <= |file|
    decreases |ps|
  {
    if ps == [] then pos == end
    else
      var n := NextPacket(file, pos);
      n.Item? && n.packet == ps[0] && Gives(file, n.pos, ps[1..], end)
  }

  lemma {:induction false} ReadsGiven(file: Bytes, pos: nat, ps: seq<Packet>, end: nat)
    requires pos <= |file| && Gives(file, pos, ps, end)
    ensures end <= |file| && ReadAll(file, pos) == Prepend(ps, ReadAll(file, end))
    decreases |ps|
  {
    if ps == [] {
      PrependNothing(ReadAll(file, end));
    } else {
      var n := NextPacket(file, pos);
      ReadsGiven(file, n.pos, ps[1..], end);
      PrependTwice(ps[0], ps[1..], ReadAll(file, end));
      assert [ps[0]] + ps[1..] == ps;
    }
  }

  predicate HoldsAt(file: Bytes, pos: nat, b: Bytes) {
    pos + |b| <= |file| && file[pos..pos + |b|] == b
  }

  /** Where a run of frames starts, there is its first frame, and the others follow. */
  lemma FirstFrame(file: Bytes, pos: nat, ps: seq<Packet>)
    requires ps != [] && HoldsAt(file, pos, Frames(ps))
    ensures var next := pos + |Frame(ps[0])|;
            && HoldsAt(file, pos, Frame(ps[0])) && HoldsAt(file, next, Frames(ps[1..]))
            && next + |Frames(ps[1..])| == pos + |Frames(ps)|
  {
    SplitAt(file, pos, Frame(ps[0]), Frames(ps[1..]));
  }

  lemma GivesOneMore(file: Bytes, pos: nat, ps: seq<Packet>, next: nat, end: nat)
    requires pos <= |file| && next <= |file| && ps != []
    requires NextPacket(file, pos) == Item(ps[0], next) && Gives(file, next, ps[1..], end)
    ensures Gives(file, pos, ps, end)
  {
  }

  /** Frames at `pos` are read back in order. */
  lemma {:induction false} FramesAreGiven(file: Bytes, pos: nat, ps: seq<Packet>)
    requires AllWritable(ps) && HoldsAt(file, pos, Frames(ps))
    ensures Gives(file, pos, ps, pos + |Frames(ps)|)
    decreases |ps|
  {
    if ps != [] {
      FirstFrame(file, pos, ps);
      ReadsFrame(file, pos, ps[0]);
      var next, end := pos + |Frame(ps[0])|, pos + |Frames(ps)|;
      FramesAreGiven(file, next, ps[1..]);
      GivesOneMore(file, pos, ps, next, end);
    }
  }

  lemma OpensPreamble(c: Codec, json: Bytes, rest: Bytes, h: Header)
    requires |json| < 0x1_0000_0000 && c.unmarshal(json) == Some(h)
    ensures OpenFile(c, Preamble(json) + rest) == Opened(h, |Preamble(json)|)
  {
    var file := Preamble(json) + rest;
    Widths();
    GetOfPut(2, VERSION);
    GetOfPut(4, |json|);
    PreambleFields(MAGIC, Put(2, VERSION), Put(4, |json|), json, rest);
    assert file[..MIN_MAGIC] == file[..16][..MIN_MAGIC];
  }

  lemma PreambleFields(magic: Bytes, version: Bytes, length: Bytes, json: Bytes, rest: Bytes)
    requires |magic| == 16 && |version| == 2 && |length| == 4
    ensures var file := magic + version + length + json + rest;
            && file[..16] == magic && file[16..18] == version && file[18..22] == length
            && file[22..22 + |json|] == json
  {
  }

  lemma ReadsTrailer(file: Bytes, pos: nat, closedAt: int64)
    requires pos + FRAME_SIZE <= |file| && file[pos..pos + FRAME_SIZE] == FrameHead(closedAt, EOF_MARKER, 0)
    ensures ReadAll(file, pos) == Reading([], true)
  {
    ReadsHead(file, pos, closedAt, EOF_MARKER, 0);
  }

  /** Write, close, read: the same header and exactly the packets the cap kept. */
  lemma RoundTrip(c: Codec, h: Header, json: Bytes, maxSize: int, ps: seq<Packet>, closedAt: int64)
    requires c.marshal(h) == Some(json) && c.unmarshal(json) == Some(h) && |json| < 0x1_0000_0000
    requires AllWritable(ps)
    ensures var kept := Kept(maxSize, |Preamble(json)|, ps);
            var file := DumpFile(json, kept, closedAt);
            && OpenFile(c, file) == Opened(h, |Preamble(json)|)
            && ReadAll(file, |Preamble(json)|) == Reading(kept, true)
  {
    var kept := Kept(maxSize, |Preamble(json)|, ps);
    KeptIsWritable(maxSize, |Preamble(json)|, ps);
    var rest := Frames(kept) + FrameHead(closedAt, EOF_MARKER, 0);
    assert DumpFile(json, kept, closedAt) == Preamble(json) + rest;
    OpensPreamble(c, json, rest, h);
    ReadsDump(json, kept, closedAt);
  }

  lemma ReadsDump(json: Bytes, ps: seq<Packet>, closedAt: int64)
    requires AllWritable(ps)
    ensures ReadAll(DumpFile(json, ps, closedAt), |Preamble(json)|) == Reading(ps, true)
  {
    var file, h, n := DumpFile(json, ps, closedAt), |Preamble(json)|, |Frames(ps)|;
    assert file[h..h + n] == Frames(ps);
    assert file[h + n..h + n + FRAME_SIZE] == FrameHead(closedAt, EOF_MARKER, 0);
    FramesAreGiven(file, h, ps);
    ReadsGiven(file, h, ps, h + n);
    ReadsTrailer(file, h + n, closedAt);
    assert ps + [] == ps;
  }

  lemma {:induction false} KeptIsWritable(maxSize: int, written: nat, ps: seq<Packet>)
    requires AllWritable(ps)
    ensures AllWritable(Kept(maxSize, written, ps))
    decreases |ps|
  {
    if ps != [] {
      KeptIsWritable(maxSize, written + FRAME_SIZE + |ps[0].data|, ps[1..]);
      KeptIsWritable(maxSize, written, ps[1..]);
    }
  }

  // ---------------------------------------------------------------- truncated files

  /** How many whole frames fit in the first `room` bytes. */
  function Whole(ps: seq<Packet>, room: nat): (k: nat)
    ensures k <= |ps| && Weight(ps[..k]) <= room
    ensures k < |ps| ==> room - Weight(ps[..k]) < FRAME_SIZE + |ps[k].data|
    decreases |ps|
  {
    if ps == [] || FRAME_SIZE + |ps[0].data| > room then 0
    else
      var k := Whole(ps[1..], room - FRAME_SIZE - |ps[0].data|);
      assert ps[..k + 1][1..] == ps[1..][..k];
      k + 1
  }

  /** Bytes left over after the last whole frame. */
  function LeftOver(ps: seq<Packet>, room: nat): nat {
    room - Weight(ps[..Whole(ps, room)])
  }

  lemma CutHead(file: Bytes, pos: nat)
    requires pos <= |file| < pos + FRAME_SIZE
    ensures ReadAll(file, pos) == Reading([], |file| == pos)
  {
  }

  /** A frame cut short ends the reading: without an error only at its start or just after its head. */
  lemma CutFrame(file: Bytes, pos: nat, p: Packet)
    requires Writable(p) && pos <= |file| && |file| - pos < |Frame(p)| && file[pos..] == Frame(p)[..|file| - pos]
    ensures ReadAll(file, pos) == Reading([], |file| == pos || |file| == pos + FRAME_SIZE)
  {
    if |file| < pos + FRAME_SIZE {
      CutHead(file, pos);
    } else {
      var head := FrameHead(p.relativeNs, p.direction, |p.data|);
      assert file[pos..pos + FRAME_SIZE] == file[pos..][..FRAME_SIZE] == head;
      ReadsHead(file, pos, p.relativeNs, p.direction, |p.data|);
    }
  }

  lemma CutTrailer(file: Bytes, pos: nat, closedAt: int64)
    requires pos <= |file| <= pos + FRAME_SIZE
    requires file[pos..] == FrameHead(closedAt, EOF_MARKER, 0)[..|file| - pos]
    ensures ReadAll(file, pos) == Reading([], |file| == pos || |file| == pos + FRAME_SIZE)
  {
    if |file| < pos + FRAME_SIZE {
      CutHead(file, pos);
    } else {
      assert file[pos..pos + FRAME_SIZE] == file[pos..][..FRAME_SIZE] == FrameHead(closedAt, EOF_MARKER, 0);
      ReadsTrailer(file, pos, closedAt);
    }
  }

  /** The bytes of a dump after the first `k` frames. */
  lemma DumpAfter(json: Bytes, ps: seq<Packet>, closedAt: int64, k: nat)
    requires k <= |ps|
    ensures var q := |Preamble(json)| + Weight(ps[..k]);
            && q <= |DumpFile(json, ps, closedAt)|
            && DumpFile(json, ps, closedAt)[|Preamble(json)|..q] == Frames(ps[..k])
            && DumpFile(json, ps, closedAt)[q..] == Frames(ps[k..]) + FrameHead(closedAt, EOF_MARKER, 0)
  {
    FramesConcat(ps[..k], ps[k..]);
    assert ps == ps[..k] + ps[k..];
    FramesLength(ps[..k]);
    Layout(Preamble(json), Frames(ps[..k]), Frames(ps[k..]), FrameHead(closedAt, EOF_MARKER, 0));
  }

  lemma Layout(a: Bytes, b: Bytes, c: Bytes, d: Bytes)
    ensures var f := a + (b + c) + d;
            f[|a|..|a| + |b|] == b && f[|a| + |b|..] == c + d
  {
    Regroup(b, c, d);
    assert a + (b + c) + d == a + (b + (c + d));
  }

  /** What is left of a dump cut inside frame `k`, or inside the end marker. */
  lemma CutTail(json: Bytes, ps: seq<Packet>, closedAt: int64, cut: nat, k: nat)
    requires AllWritable(ps) && k <= |ps|
    requires |Preamble(json)| + Weight(ps[..k]) <= cut <= |DumpFile(json, ps, closedAt)|
    requires k < |ps| ==> cut - |Preamble(json)| - Weight(ps[..k]) < FRAME_SIZE + |ps[k].data|
    ensures var q := |Preamble(json)| + Weight(ps[..k]);
            ReadAll(DumpFile(json, ps, closedAt)[..cut], q) == Reading([], cut == q || cut == q + FRAME_SIZE)
  {
    var full, q := DumpFile(json, ps, closedAt), |Preamble(json)| + Weight(ps[..k]);
    var file := full[..cut];
    DumpAfter(json, ps, closedAt, k);
    assert file[q..] == full[q..][..cut - q];
    if k < |ps| {
      var p := ps[k];
      assert ps[k..][1..] == ps[k + 1..];
      Regroup(Frame(p), Frames(ps[k + 1..]), FrameHead(closedAt, EOF_MARKER, 0));
      assert full[q..] == Frame(p) + (Frames(ps[k + 1..]) + FrameHead(closedAt, EOF_MARKER, 0));
      assert file[q..] == Frame(p)[..cut - q];
      CutFrame(file, q, p);
    } else {
      assert full[q..] == FrameHead(closedAt, EOF_MARKER, 0);
      CutTrailer(file, q, closedAt);
    }
  }

  /**
   Reading any truncation that keeps the whole preamble yields the whole packets it holds, in
   order, and ends without an error exactly when the cut falls on a frame boundary or just
   after a frame's thirteen-byte head.
   */
  lemma TruncationReadsPrefix(json: Bytes, ps: seq<Packet>, closedAt: int64, cut: nat)
    requires AllWritable(ps) && |Preamble(json)| <= cut <= |DumpFile(json, ps, closedAt)|
    ensures var room := cut - |Preamble(json)|;
            ReadAll(DumpFile(json, ps, closedAt)[..cut], |Preamble(json)|)
            == Reading(ps[..Whole(ps, room)], LeftOver(ps, room) in {0, FRAME_SIZE})
  {
    CutReads(json, ps, closedAt, cut, Whole(ps, cut - |Preamble(json)|));
  }

  lemma CutReads(json: Bytes, ps: seq<Packet>, closedAt: int64, cut: nat, k: nat)
    requires AllWritable(ps) && k <= |ps|
    requires |Preamble(json)| + Weight(ps[..k]) <= cut <= |DumpFile(json, ps, closedAt)|
    requires k < |ps| ==> cut - |Preamble(json)| - Weight(ps[..k]) < FRAME_SIZE + |ps[k].data|
    ensures var q := |Preamble(json)| + Weight(ps[..k]);
            ReadAll(DumpFile(json, ps, closedAt)[..cut], |Preamble(json)|)
            == Reading(ps[..k], cut == q || cut == q + FRAME_SIZE)
  {
    var file, h := DumpFile(json, ps, closedAt)[..cut], |Preamble(json)|;
    var q := h + Weight(ps[..k]);
    CutGives(json, ps, closedAt, cut, k);
    CutTail(json, ps, closedAt, cut, k);
    GivenThenNothing(file, h, ps[..k], q, cut == q || cut == q + FRAME_SIZE);
  }

  lemma GivenThenNothing(file: Bytes, pos: nat, ps: seq<Packet>, end: nat, clean: bool)
    requires pos <= |file| && end <= |file| && Gives(file, pos, ps, end) && ReadAll(file, end) == Reading([], clean)
    ensures ReadAll(file, pos) == Reading(ps, clean)
  {
    ReadsGiven(file, pos, ps, end);
    assert ps + [] == ps;
  }

  /** The whole frames before the cut. */
  lemma CutGives(json: Bytes, ps: seq<Packet>, closedAt: int64, cut: nat, k: nat)
    requires AllWritable(ps) && k <= |ps|
    requires |Preamble(json)| + Weight(ps[..k]) <= cut <= |DumpFile(json, ps, closedAt)|
    ensures Gives(DumpFile(json, ps, closedAt)[..cut], |Preamble(json)|, ps[..k], |Preamble(json)| + Weight(ps[..k]))
  {
    var full, h := DumpFile(json, ps, closedAt), |Preamble(json)|;
    DumpAfter(json, ps, closedAt, k);
    FramesLength(ps[..k]);
    GivesBeforeCut(full, h, ps[..k], cut);
  }

  lemma GivesBeforeCut(file: Bytes, pos: nat, ps: seq<Packet>, cut: nat)
    requires AllWritable(ps) && HoldsAt(file, pos, Frames(ps)) && pos + |Frames(ps)| <= cut <= |file|
    ensures Gives(file[..cut], pos, ps, pos + |Frames(ps)|)
  {
    var end := pos + |Frames(ps)|;
    assert file[..cut][pos..end] == file[pos..end];
    FramesAreGiven(file[..cut], pos, ps);
  }

  /** A file that was closed and not cut holds every packet. */
  lemma {:induction false} CompleteHoldsAll(ps: seq<Packet>)
    ensures Whole(ps, Weight(ps) + FRAME_SIZE) == |ps| && LeftOver(ps, Weight(ps) + FRAME_SIZE) == FRAME_SIZE
    decreases |ps|
  {
    if ps != [] {
      CompleteHoldsAll(ps[1..]);
    }
    assert ps[..|ps|] == ps;
  }

  // ---------------------------------------------------------------- the anonymiser

  /** Go's zero time. */
  const ZERO_TIME := 0

  function Stripped(h: Header): Header {
    Header(h.sessionId, h.protocol, ZERO_TIME, map[])
  }

  datatype Copy = NoOutput | Output(file: Bytes, ok: bool)

  /** What Anonymise leaves behind, and whether it reports success. */
  function Anonymised(c: Codec, input: Bytes, closedAt: int64): Copy {
    match OpenFile(c, input)
    case Opened(h, pos) =>
      (match c.marshal(Stripped(h))
       case None => NoOutput
       case Some(json) =>
         var r := ReadAll(input, pos);
         Output(DumpFile(json, r.packets, closedAt), r.clean))
    case _ => NoOutput
  }

  method Anonymise(c: Codec, input: Bytes, closedAt: int64) returns (r: Copy)
    ensures r == Anonymised(c, input, closedAt)
  {
    var reader := new Reader(input);
    var start := reader.ReadHeader(c);
    if !start.Opened? {
      return NoOutput;
    }
    var json := c.marshal(Stripped(start.header));
    if json.None? {
      return NoOutput;
    }
    var writer := new Writer(json.value, 0);
    ghost var all := ReadAll(input, reader.pos);
    PrependNothing(all);
    var clean := true;
    while true
      invariant reader.Valid() && writer.Valid() && reader.file == input
      invariant writer.json == json.value
      invariant all == Prepend(writer.kept, ReadAll(input, reader.pos))
      decreases |input| - reader.pos
    {
      ghost var before := ReadAll(input, reader.pos);
      var next := reader.ReadPacket();
      if next.End? {
        break;
      }
      if next.Broken? {
        clean := false;
        break;
      }
      var p := next.packet;
      SignedRoundTrip(p.relativeNs);
      PrependLast(writer.kept, p, ReadAll(input, next.pos));
      writer.WritePacketRaw(Put(8, ToUnsigned(p.relativeNs)), p.direction, p.data);
    }
    assert writer.kept + [] == writer.kept;
    var file := writer.Close(closedAt);
    return Output(file, clean);
  }

  lemma PrependLast(ps: seq<Packet>, p: Packet, r: Reading)
    ensures Prepend(ps, Prepend([p], r)) == Prepend(ps + [p], r)
  {
    assert ps + ([p] + r.packets) == ps + [p] + r.packets;
  }

  /**
   For every input whatever: the anonymised copy, if there is one, opens to the same session
   and protocol with no connection data, and reads to exactly the packets that a reader
   gets from the input, without an error.
   */
  lemma AnonymisedReadsTheSame(c: Codec, input: Bytes, closedAt: int64, json: Bytes)
    requires OpenFile(c, input).Opened?
    requires var h := Stripped(OpenFile(c, input).header);
             c.marshal(h) == Some(json) && c.unmarshal(json) == Some(h) && |json| < 0x1_0000_0000
    ensures var o := OpenFile(c, input);
            var copy := Anonymised(c, input, closedAt);
            && copy.Output?
            && OpenFile(c, copy.file) == Opened(Stripped(o.header), |Preamble(json)|)
            && ReadAll(copy.file, |Preamble(json)|) == Reading(ReadAll(input, o.pos).packets, true)
            && copy.ok == ReadAll(input, o.pos).clean
  {
    var o := OpenFile(c, input);
    var ps := ReadAll(input, o.pos).packets;
    var rest := Frames(ps) + FrameHead(closedAt, EOF_MARKER, 0);
    assert DumpFile(json, ps, closedAt) == Preamble(json) + rest;
    OpensPreamble(c, json, rest, Stripped(o.header));
    ReadsDump(json, ps, closedAt);
  }

  /** The copy keeps the session and the protocol of its input, and nothing else: no start time, no connection. */
  lemma AnonymisedIsStripped(c: Codec, input: Bytes, closedAt: int64, json: Bytes)
    requires OpenFile(c, input).Opened?
    requires var h := OpenFile(c, input).header;
             var bare := Header(h.sessionId, h.protocol, 0, map[]);
             c.marshal(bare) == Some(json) && c.unmarshal(json) == Some(bare) && |json| < 0x1_0000_0000
    ensures Anonymised(c, input, closedAt).Output?
    ensures var h, o := OpenFile(c, input).header, OpenFile(c, Anonymised(c, input, closedAt).file);
            && o.Opened? && o.header.connection == map[] && o.header.startTime == 0
            && o.header.sessionId == h.sessionId && o.header.protocol == h.protocol
  {
    AnonymisedReadsTheSame(c, input, closedAt, json);
  }

  /** Nothing is written exactly when the input does not open or the new header cannot be marshalled. */
  lemma NoCopyIff(c: Codec, input: Bytes, closedAt: int64)
    ensures Anonymised(c, input, closedAt).NoOutput? <==>
            || !OpenFile(c, input).Opened?
            || (var h := OpenFile(c, input).header;
                c.marshal(Header(h.sessionId, h.protocol, 0, map[])) == None)
  {
  }

  /** On a truncated dump: a prefix of the packets, and success exactly on the two clean cuts. */
  lemma AnonymisedTruncation(c: Codec, h: Header, json: Bytes, ps: seq<Packet>, closedAt: int64, cut: nat,
                             json': Bytes, closedAt': int64)
    requires c.unmarshal(json) == Some(h) && |json| < 0x1_0000_0000 && AllWritable(ps)
    requires |Preamble(json)| <= cut <= |DumpFile(json, ps, closedAt)|
    requires c.marshal(Stripped(h)) == Some(json')
    ensures var room := cut - |Preamble(json)|;
            Anonymised(c, DumpFile(json, ps, closedAt)[..cut], closedAt')
            == Output(DumpFile(json', ps[..Whole(ps, room)], closedAt'), LeftOver(ps, room) in {0, FRAME_SIZE})
  {
    var full, n := DumpFile(json, ps, closedAt), |Preamble(json)|;
    assert full[..cut] == Preamble(json) + full[n..cut];
    OpensPreamble(c, json, full[n..cut], h);
    TruncationReadsPrefix(json, ps, closedAt, cut);
  }

  lemma AnonymisedComplete(c: Codec, h: Header, json: Bytes, ps: seq<Packet>, closedAt: int64,
                           json': Bytes, closedAt': int64)
    requires c.unmarshal(json) == Some(h) && |json| < 0x1_0000_0000 && AllWritable(ps)
    requires c.marshal(Stripped(h)) == Some(json')
    ensures Anonymised(c, DumpFile(json, ps, closedAt), closedAt') == Output(DumpFile(json', ps, closedAt'), true)
  {
    var full := DumpFile(json, ps, closedAt);
    FramesLength(ps);
    CompleteHoldsAll(ps);
    AnonymisedTruncation(c, h, json, ps, closedAt, |full|, json', closedAt');
    assert full[..|full|] == full && ps[..|ps|] == ps;
  }

  lemma {:induction false} BoundaryHoldsFrames(ps: seq<Packet>, k: nat)
    requires k < |ps|
    ensures Whole(ps, Weight(ps[..k])) == k && LeftOver(ps, Weight(ps[..k])) == 0
    decreases k
  {
    if k > 0 {
      assert ps[..k][1..] == ps[1..][..k - 1];
      BoundaryHoldsFrames(ps[1..], k - 1);
    }
  }

  /** Cut any dump after `k` of its frames: the packets that follow are lost and success is reported. */
  lemma LostWithoutAnError(c: Codec, h: Header, json: Bytes, ps: seq<Packet>, closedAt: int64, k: nat,
                           json': Bytes, closedAt': int64)
    requires c.unmarshal(json) == Some(h) && |json| < 0x1_0000_0000 && AllWritable(ps) && k < |ps|
    requires c.marshal(Stripped(h)) == Some(json')
    ensures var cut := |Preamble(json)| + Weight(ps[..k]);
            && cut <= |DumpFile(json, ps, closedAt)|
            && Anonymised(c, DumpFile(json, ps, closedAt)[..cut], closedAt')
               == Output(DumpFile(json', ps[..k], closedAt'), true)
  {
    BoundaryIsInside(json, ps, closedAt, k);
    BoundaryHoldsFrames(ps, k);
    CutAtBoundary(c, h, json, ps, closedAt, |Preamble(json)| + Weight(ps[..k]), Weight(ps[..k]), k, json', closedAt');
  }

  lemma BoundaryIsInside(json: Bytes, ps: seq<Packet>, closedAt: int64, k: nat)
    requires k <= |ps|
    ensures |Preamble(json)| + Weight(ps[..k]) <= |DumpFile(json, ps, closedAt)|
  {
    DumpAfter(json, ps, closedAt, k);
  }

  lemma CutAtBoundary(c: Codec, h: Header, json: Bytes, ps: seq<Packet>, closedAt: int64, cut: nat, room: nat, k: nat,
                      json': Bytes, closedAt': int64)
    requires c.unmarshal(json) == Some(h) && |json| < 0x1_0000_0000 && AllWritable(ps)
    requires cut == |Preamble(json)| + room <= |DumpFile(json, ps, closedAt)|
    requires Whole(ps, room) == k && LeftOver(ps, room) == 0 && c.marshal(Stripped(h)) == Some(json')
    ensures Anonymised(c, DumpFile(json, ps, closedAt)[..cut], closedAt')
            == Output(DumpFile(json', ps[..k], closedAt'), true)
  {
    AnonymisedTruncation(c, h, json, ps, closedAt, cut, json', closedAt');
  }
}
