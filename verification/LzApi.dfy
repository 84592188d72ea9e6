/** The packet: header, compressed or stored body, and the round trip through both. */
module LzApi {
  import opened Wrappers
  import opened Bytes
  import opened LzFormat
  import opened LzPlan
  import opened LzChoose
  import opened LzDecode

  const MAX_SIZE := 0xffff_ffff - 400
  const MIN_BODY := 9

  /** Bits 01SSLLHC: level 3, no streaming buffer, long header, compressed. */
  function Flags(size: nat, compressed: bool): (b: byte) {
    64 + 12 + (if size < 216 then 0 else 2) + if compressed then 1 else 0
  }

  function Base(size: nat): (n: nat) {
    if size < 216 then 3 else 9
  }

  function Header(compressed: bool, total: nat, size: nat): (h: seq<byte>)
    ensures |h| == Base(size)
  {
    var n := if size < 216 then 1 else 4;
    [Flags(size, compressed)] + LeBytes(total, n) + LeBytes(size, n)
  }

  predicate LongHeader(src: seq<byte>)
    requires src != []
  {
    src[0] / 2 % 2 == 1
  }

  predicate Packed(src: seq<byte>)
    requires src != []
  {
    src[0] % 2 == 1
  }

  function SizeHeader(src: seq<byte>): (n: nat)
    requires src != []
    ensures n == 3 || n == 9
  {
    if LongHeader(src) then 9 else 3
  }

  predicate HasHeader(src: seq<byte>) {
    src != [] && SizeHeader(src) <= |src|
  }

  function SizeCompressed(src: seq<byte>): (n: nat)
    requires HasHeader(src)
    ensures n < WORD
  {
    if LongHeader(src) then FastRead4(src[1..]) else src[1]
  }

  function SizeDecompressed(src: seq<byte>): (n: nat)
    requires HasHeader(src)
    ensures n < WORD
  {
    if LongHeader(src) then FastRead4(src[5..]) else src[2]
  }

  /** The readers recover what the header was written with, whatever follows it. */
  lemma {:induction false} HeaderReadsBack(compressed: bool, total: nat, size: nat, rest: seq<byte>)
    requires total < WORD && size < WORD && (size < 216 ==> total < 256)
    ensures var src := Header(compressed, total, size) + rest;
      && HasHeader(src)
      && Packed(src) == compressed
      && SizeHeader(src) == Base(size)
      && SizeCompressed(src) == total
      && SizeDecompressed(src) == size
  {
    var src := Header(compressed, total, size) + rest;
    if size < 216 {
      LeBytesAre(total, 1);
      LeBytesAre(size, 1);
    } else {
      var tail := LeBytes(size, 4) + rest;
      assert src[1..] == LeBytes(total, 4) + tail;
      assert src[5..] == tail;
      var a := Fetch(total, 4, tail);
      var b := Fetch(size, 4, rest);
    }
  }

  /** The compressed stream of a text under a plan. */
  function Core(cs: seq<Token>, s: seq<byte>): (bs: seq<byte>)
    requires Sound(cs, s)
  {
    StreamFrom(cs, s, 0, 0)
  }

  predicate Stored(cs: seq<Token>, s: seq<byte>)
    requires Sound(cs, s)
  {
    GivesUp(cs, s, 0, CWORD_LEN, SLOTS)
  }

  /** Bytes of the destination the compressor counts but does not write. */
  function Padding(body: seq<byte>): (n: nat) {
    if |body| < MIN_BODY then MIN_BODY - |body| else 0
  }

  /** The packet for a text: `pad` is whatever the destination held behind a short stream. */
  function Pack(cs: seq<Token>, s: seq<byte>, pad: seq<byte>): (bs: seq<byte>)
    requires Sound(cs, s)
  {
    var body := if Stored(cs, s) then s else Core(cs, s) + pad;
    Header(!Stored(cs, s), Base(|s|) + |body|, |s|) + body
  }

  /** The packet is never more than 400 bytes longer than the text, and fits its header's fields. */
  lemma {:induction false} PackFits(cs: seq<Token>, s: seq<byte>, pad: seq<byte>)
    requires Sound(cs, s) && 1 <= |s| && (Stored(cs, s) || |pad| == Padding(Core(cs, s)))
    ensures |Pack(cs, s, pad)| <= |s| + 400
    ensures |s| < 216 ==> |Pack(cs, s, pad)| <= 255
  {
    StreamReloads(cs, s, 0);
    StreamFrugal(cs, s, 0, CWORD_LEN, SLOTS);
    if !Stored(cs, s) {
      SavingStarts(|s|);
      StreamSaves(cs, s, 0, CWORD_LEN, SLOTS, 0, 0);
    }
  }

  /** The decompressor's caller owns the whole packet: as much as the header announces. */
  predicate Complete(src: seq<byte>) {
    && HasHeader(src)
    && (if Packed(src) then SizeCompressed(src) <= |src| else SizeHeader(src) + SizeDecompressed(src) <= |src|)
  }

  function Body(src: seq<byte>): (bs: seq<byte>)
    requires Complete(src) && Packed(src)
  {
    if SizeCompressed(src) <= SizeHeader(src) then [] else src[SizeHeader(src)..SizeCompressed(src)]
  }

  /** What qlz_decompress writes, or nothing when it returns 0 for a damaged packet. */
  function Unpack(src: seq<byte>): (r: Option<seq<byte>>)
    requires Complete(src)
    ensures r.Some? ==> |r.value| == SizeDecompressed(src)
  {
    if Packed(src) then Run(Body(src), SizeDecompressed(src), [], 1)
    else Some(src[SizeHeader(src)..SizeHeader(src) + SizeDecompressed(src)])
  }

  /** Decoding a whole stream: from the first control word to the last literal. */
  lemma {:induction false} CoreDecodes(cs: seq<Token>, s: seq<byte>, pad: seq<byte>)
    requires Sound(cs, s) && 1 <= |s| < WORD && |pad| == Padding(Core(cs, s))
    ensures Run(Core(cs, s) + pad, |s|, [], 1) == Some(s)
  {
    var ts := Tokenize(cs, s, 0);
    TokenizeLegal(cs, s, 0);
    LegalInRange(ts, 0, |s|);
    RunDecodes(ts, 0, [], |s|, pad);
    SpellsExpand(ts, s, 0);
    assert s[..0] == [];
  }

  /** Whatever the match finder, unpacking a packet gives back the text, compressed or stored. */
  lemma {:induction false} UnpackInvertsPack(cs: seq<Token>, s: seq<byte>, pad: seq<byte>, extra: seq<byte>)
    requires Sound(cs, s) && 1 <= |s| <= MAX_SIZE && (Stored(cs, s) || |pad| == Padding(Core(cs, s)))
    ensures Complete(Pack(cs, s, pad) + extra) && Unpack(Pack(cs, s, pad) + extra) == Some(s)
  {
    PackFits(cs, s, pad);
    var body := if Stored(cs, s) then s else Core(cs, s) + pad;
    var header := Header(!Stored(cs, s), Base(|s|) + |body|, |s|);
    Regroup(header, body, extra);
    HeaderReadsBack(!Stored(cs, s), Base(|s|) + |body|, |s|, body + extra);
    var src := Pack(cs, s, pad) + extra;
    assert src[|header|..|header| + |body|] == body;
    if !Stored(cs, s) {
      CoreDecodes(cs, s, pad);
    }
  }

  /** The plan of the level 3 match finder. */
  function Plan(s: seq<byte>): (cs: seq<Token>)
    ensures Sound(cs, s)
  {
    ChoicesSound(s);
    Choices(s, |s|)
  }

  /** The round trip with the level 3 match finder. */
  lemma {:induction false} RoundTrip(s: seq<byte>, pad: seq<byte>, extra: seq<byte>)
    requires 1 <= |s| <= MAX_SIZE && (Stored(Plan(s), s) || |pad| == Padding(Core(Plan(s), s)))
    ensures Complete(Pack(Plan(s), s, pad) + extra)
    ensures Unpack(Pack(Plan(s), s, pad) + extra) == Some(s)
  {
    UnpackInvertsPack(Plan(s), s, pad, extra);
  }

  /** What the first byte of a packet says: compressed or stored, length of the header, level 3, no streaming. */
  lemma HeaderFlags(compressed: bool, total: nat, size: nat)
    ensures var f := Header(compressed, total, size)[0] as int;
      && f % 2 == (if compressed then 1 else 0) && f / 2 % 2 == (if size >= 216 then 1 else 0)
      && f / 4 % 4 == 3 && f / 16 % 4 == 0 && f / 64 == 1
  {
  }

  /** How much of a packet the decompressor may depend on. */
  function Needed(src: seq<byte>): (n: nat)
    requires Complete(src)
    ensures n <= |src|
  {
    if !Packed(src) then SizeHeader(src) + SizeDecompressed(src)
    else if SizeCompressed(src) < SizeHeader(src) then SizeHeader(src)
    else SizeCompressed(src)
  }

  /** Packets, damaged ones too, that agree as far as their header announces unpack alike, whatever follows. */
  lemma UnpackReadsNoFurther(src: seq<byte>, other: seq<byte>)
    requires Complete(src) && src[..Needed(src)] <= other
    ensures Complete(other) && Unpack(other) == Unpack(src)
  {
    hide Run;
    var n, h := Needed(src), SizeHeader(src);
    assert forall i :: 0 <= i < n ==> other[i] == src[..n][i] == src[i];
    if LongHeader(src) {
      SameRead(src, other, 1);
      SameRead(src, other, 5);
    }
    assert other[h..n] == src[h..n];
  }

  lemma SameRead(src: seq<byte>, other: seq<byte>, k: nat)
    requires k + 4 <= |src| && k + 4 <= |other| && forall i :: k <= i < k + 4 ==> other[i] == src[i]
    ensures FastRead4(other[k..]) == FastRead4(src[k..])
  {
  }

  /** A compressed packet is its header and its stream, but never fewer than nine bytes behind the header. */
  lemma PackedLength(cs: seq<Token>, s: seq<byte>, pad: seq<byte>)
    requires Sound(cs, s) && !Stored(cs, s) && |pad| == Padding(Core(cs, s))
    ensures var n := |Core(cs, s)|;
      |Pack(cs, s, pad)| == (if |s| < 216 then 3 else 9) + if n < 9 then 9 else n
  {
    hide Core, Stored;
  }
}
