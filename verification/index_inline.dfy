/** The inline index encoders of indexed draws: an index array of 8, 16 or
    32 bits is copied into the command stream as 32-bit words, several
    indices to a word where they fit, in packets no longer than the
    hardware's maximum packet length. Decoding is what the GPU does with the
    words; the encoders and the decoder are proved to be inverse. */
module IndexInline {

  /** The largest number of data words in one command packet. */
  const MaxPacketLen: nat := 2047

  /** The element method a packet is sent to, which fixes how many indices
      each of its words carries. */
  datatype ElementMethod = ElementU32 | ElementU16 | ElementU8

  /** One packet: the words reserved in the push buffer before it (the
      header included), its method and its data words. */
  datatype Packet = Packet(space: nat, elements: ElementMethod, words: seq<bv32>)

  /** Indices per data word. */
  function Lanes(m: ElementMethod): nat {
    match m
      case ElementU32 => 1
      case ElementU16 => 2
      case ElementU8 => 4
  }

  /** Whether an index fits in one lane of a word holding `k` indices. */
  predicate LaneFits(v: bv32, k: nat) {
    if k == 4 then v < 0x100 else if k == 2 then v < 0x1_0000 else true
  }

  predicate AllFit(vals: seq<bv32>, k: nat) {
    forall i :: 0 <= i < |vals| ==> LaneFits(vals[i], k)
  }

  /** Each packet reserves room for its header and its data words. */
  predicate SpaceCovers(p: Packet) {
    p.space >= |p.words| + 1
  }

  /** Each packet carries between one and MaxPacketLen data words. */
  predicate Bounded(p: Packet) {
    1 <= |p.words| <= MaxPacketLen
  }

  predicate WellFormed(ps: seq<Packet>) {
    forall i :: 0 <= i < |ps| ==> Bounded(ps[i]) && SpaceCovers(ps[i])
  }

  // ---------------------------------------------------------------------
  // One word

  /** The data word for `k` consecutive indices: the first in the lowest
      lane. */
  function Pack(vals: seq<bv32>, k: nat): bv32
    requires k == 1 || k == 2 || k == 4
    requires |vals| == k
  {
    if k == 1 then vals[0]
    else if k == 2 then (vals[1] << 16) | vals[0]
    else (vals[3] << 24) | (vals[2] << 16) | (vals[1] << 8) | vals[0]
  }

  /** The indices the GPU reads from one data word. */
  function Unpack(w: bv32, k: nat): (r: seq<bv32>)
    requires k == 1 || k == 2 || k == 4
    ensures |r| == k
  {
    if k == 1 then [w]
    else if k == 2 then [w & 0xffff, w >> 16]
    else [w & 0xff, (w >> 8) & 0xff, (w >> 16) & 0xff, w >> 24]
  }

  /** Indices that fit their lanes come back out of their word. */
  lemma UnpackPack(vals: seq<bv32>, k: nat)
    requires k == 1 || k == 2 || k == 4
    requires |vals| == k && AllFit(vals, k)
    ensures Unpack(Pack(vals, k), k) == vals
  {
    if k == 2 {
      Unpack2(vals[0], vals[1]);
    } else if k == 4 {
      Unpack4(vals[0], vals[1], vals[2], vals[3]);
    }
  }

  lemma Unpack2(a: bv32, b: bv32)
    requires a < 0x1_0000 && b < 0x1_0000
    ensures ((b << 16) | a) & 0xffff == a && ((b << 16) | a) >> 16 == b
  {
  }

  lemma Unpack4(a: bv32, b: bv32, c: bv32, d: bv32)
    requires a < 0x100 && b < 0x100 && c < 0x100 && d < 0x100
    ensures var w := (d << 24) | (c << 16) | (b << 8) | a;
      w & 0xff == a && (w >> 8) & 0xff == b && (w >> 16) & 0xff == c && w >> 24 == d
  {
  }

  /** Every word is the packing of what the GPU reads from it, and what it
      reads always fits the lanes. */
  lemma PackUnpack(w: bv32, k: nat)
    requires k == 1 || k == 2 || k == 4
    ensures AllFit(Unpack(w, k), k) && Pack(Unpack(w, k), k) == w
  {
    if k == 2 {
      Repack2(w);
    } else if k == 4 {
      Repack4(w);
    }
  }

  lemma Repack2(w: bv32)
    ensures w & 0xffff < 0x1_0000 && w >> 16 < 0x1_0000
    ensures ((w >> 16) << 16) | (w & 0xffff) == w
  {
  }

  lemma Repack4(w: bv32)
    ensures w & 0xff < 0x100 && (w >> 8) & 0xff < 0x100 && (w >> 16) & 0xff < 0x100 && w >> 24 < 0x100
    ensures ((w >> 24) << 24) | (((w >> 16) & 0xff) << 16) | (((w >> 8) & 0xff) << 8) | (w & 0xff) == w
  {
  }

  // ---------------------------------------------------------------------
  // Packets

  /** The data words for a run of indices, `k` to a word. */
  function PackWords(vals: seq<bv32>, k: nat): (ws: seq<bv32>)
    requires k == 1 || k == 2 || k == 4
    requires |vals| % k == 0
    ensures |ws| == |vals| / k
    decreases |vals|
  {
    if |vals| == 0 then []
    else
      DivStep(|vals|, k);
      [Pack(vals[..k], k)] + PackWords(vals[k..], k)
  }

  /** Taking `k` indices off a positive multiple of `k` leaves a multiple of
      `k` and one word fewer. */
  lemma DivStep(n: nat, k: nat)
    requires k == 1 || k == 2 || k == 4
    requires n > 0 && n % k == 0
    ensures n >= k && (n - k) % k == 0 && (n - k) / k + 1 == n / k
  {
    if k == 1 {
    } else if k == 2 {
    } else {
    }
  }

  /** The indices the GPU reads from a run of data words. */
  function UnpackWords(ws: seq<bv32>, k: nat): (vals: seq<bv32>)
    requires k == 1 || k == 2 || k == 4
  {
    if |ws| == 0 then [] else Unpack(ws[0], k) + UnpackWords(ws[1..], k)
  }

  lemma {:induction false} PackWordsRoundTrip(vals: seq<bv32>, k: nat)
    requires k == 1 || k == 2 || k == 4
    requires |vals| % k == 0 && AllFit(vals, k)
    ensures UnpackWords(PackWords(vals, k), k) == vals
    decreases |vals|
  {
    if |vals| > 0 {
      var ws := PackWords(vals, k);
      assert ws[0] == Pack(vals[..k], k) && ws[1..] == PackWords(vals[k..], k);
      UnpackPack(vals[..k], k);
      PackWordsRoundTrip(vals[k..], k);
      assert vals == vals[..k] + vals[k..];
    }
  }

  lemma {:induction false} UnpackWordsAppend(a: seq<bv32>, b: seq<bv32>, k: nat)
    requires k == 1 || k == 2 || k == 4
    ensures UnpackWords(a + b, k) == UnpackWords(a, k) + UnpackWords(b, k)
  {
    if |a| > 0 {
      assert (a + b)[0] == a[0] && (a + b)[1..] == a[1..] + b;
      UnpackWordsAppend(a[1..], b, k);
      var u := Unpack(a[0], k);
      assert UnpackWords(a + b, k) == u + (UnpackWords(a[1..], k) + UnpackWords(b, k));
    } else {
      assert a + b == b;
    }
  }

  /** A stream of data words cut into packets of at most MaxPacketLen words,
      each reserving its words plus the header. */
  function Packetize(ws: seq<bv32>, m: ElementMethod): (ps: seq<Packet>)
    ensures WellFormed(ps)
    ensures forall i :: 0 <= i < |ps| ==> ps[i].elements == m
    ensures WordCount(ps) == |ws|
    decreases |ws|
  {
    if |ws| == 0 then []
    else
      var nr := if |ws| < MaxPacketLen then |ws| else MaxPacketLen;
      [Packet(nr + 1, m, ws[..nr])] + Packetize(ws[nr..], m)
  }

  /** The packets for a run of indices whose count is a multiple of the
      method's lanes: the packed words, packet by packet. */
  function Chunks(vals: seq<bv32>, m: ElementMethod): (ps: seq<Packet>)
    requires |vals| % Lanes(m) == 0
  {
    Packetize(PackWords(vals, Lanes(m)), m)
  }

  /** The number of data words in a sequence of packets. */
  function WordCount(ps: seq<Packet>): nat {
    if |ps| == 0 then 0 else |ps[0].words| + WordCount(ps[1..])
  }

  lemma {:induction false} WordCountAppend(a: seq<Packet>, b: seq<Packet>)
    ensures WordCount(a + b) == WordCount(a) + WordCount(b)
  {
    if |a| > 0 {
      assert (a + b)[1..] == a[1..] + b;
      WordCountAppend(a[1..], b);
    } else {
      assert a + b == b;
    }
  }

  /** The indices the GPU reads from a sequence of packets, in order. */
  function Decode(ps: seq<Packet>): seq<bv32> {
    if |ps| == 0 then [] else UnpackWords(ps[0].words, Lanes(ps[0].elements)) + Decode(ps[1..])
  }

  lemma {:induction false} DecodeAppend(a: seq<Packet>, b: seq<Packet>)
    ensures Decode(a + b) == Decode(a) + Decode(b)
  {
    if |a| > 0 {
      assert (a + b)[1..] == a[1..] + b;
      DecodeAppend(a[1..], b);
    } else {
      assert a + b == b;
    }
  }

  /** Cutting the word stream into packets does not change what the GPU
      reads from it. */
  lemma {:induction false} DecodePacketize(ws: seq<bv32>, m: ElementMethod)
    ensures Decode(Packetize(ws, m)) == UnpackWords(ws, Lanes(m))
    decreases |ws|
  {
    if |ws| > 0 {
      var nr := if |ws| < MaxPacketLen then |ws| else MaxPacketLen;
      var ps := Packetize(ws, m);
      assert ps[0] == Packet(nr + 1, m, ws[..nr]) && ps[1..] == Packetize(ws[nr..], m);
      DecodePacketize(ws[nr..], m);
      UnpackWordsAppend(ws[..nr], ws[nr..], Lanes(m));
      assert ws == ws[..nr] + ws[nr..];
    }
  }

  lemma ChunksRoundTrip(vals: seq<bv32>, m: ElementMethod)
    requires |vals| % Lanes(m) == 0 && AllFit(vals, Lanes(m))
    ensures Decode(Chunks(vals, m)) == vals
    ensures WellFormed(Chunks(vals, m)) && WordCount(Chunks(vals, m)) == |vals| / Lanes(m)
  {
    DecodePacketize(PackWords(vals, Lanes(m)), m);
    PackWordsRoundTrip(vals, Lanes(m));
  }

  // ---------------------------------------------------------------------
  // The encoders

  function Widen8(s: seq<bv8>): (r: seq<bv32>)
    ensures |r| == |s| && AllFit(r, 4)
    ensures forall i :: 0 <= i < |s| ==> r[i] == Zext8(s[i])
  {
    seq(|s|, i requires 0 <= i < |s| => Zext8(s[i]))
  }

  function Widen16(s: seq<bv16>): (r: seq<bv32>)
    ensures |r| == |s| && AllFit(r, 2)
    ensures forall i :: 0 <= i < |s| ==> r[i] == Zext16(s[i])
  {
    seq(|s|, i requires 0 <= i < |s| => Zext16(s[i]))
  }

  /** An unsigned index widened to a 32-bit word. */
  function Zext8(b: bv8): (w: bv32)
    ensures w < 0x100 && w as bv8 == b
  {
    b as bv32
  }

  function Zext16(h: bv16): (w: bv32)
    ensures w < 0x1_0000 && w as bv16 == h
  {
    h as bv32
  }

  /** The lone indices sent one to a word ahead of the packed ones, in a
      packet reserving `space` words. */
  function Lone(vals: seq<bv32>, space: nat): (ps: seq<Packet>)
    ensures Decode(ps) == vals
  {
    if |vals| == 0 then [] else
      assert UnpackWords(vals, 1) == vals by { UnpackWordsSingle(vals); }
      assert [Packet(space, ElementU32, vals)][1..] == [];
      [Packet(space, ElementU32, vals)]
  }

  lemma {:induction false} UnpackWordsSingle(ws: seq<bv32>)
    ensures UnpackWords(ws, 1) == ws
  {
    if |ws| > 0 {
      UnpackWordsSingle(ws[1..]);
      assert ws == [ws[0]] + ws[1..];
    }
  }

  /** The indices left over after the last whole word (`count & 3` for
      four to a word, `count & 1` for two) go first, one to a word, in a
      packet reserving `space` words; the rest are packed. */
  function LoneThenPacked(vals: seq<bv32>, space: nat, m: ElementMethod): (ps: seq<Packet>)
  {
    var h := |vals| % Lanes(m);
    Lone(vals[..h], space) + Chunks(vals[h..], m)
  }

  /** Eight-bit indices `indices[start .. start+count)`: the first `count & 3`
      one to a word, the rest four to a word. */
  function EncodeU08(indices: seq<bv8>, start: nat, count: nat): (ps: seq<Packet>)
    requires start + count <= |indices|
  {
    LoneThenPacked(Widen8(indices[start..start + count]), 4, ElementU8)
  }

  /** Sixteen-bit indices: one lone word when `count` is odd, then pairs. */
  function EncodeU16(indices: seq<bv16>, start: nat, count: nat): (ps: seq<Packet>)
    requires start + count <= |indices|
  {
    LoneThenPacked(Widen16(indices[start..start + count]), 2, ElementU16)
  }

  /** Thirty-two-bit indices, one to a word. */
  function EncodeU32(indices: seq<bv32>, start: nat, count: nat): (ps: seq<Packet>)
    requires start + count <= |indices|
  {
    Chunks(indices[start..start + count], ElementU32)
  }

  /** Thirty-two-bit indices sent in pairs as sixteen-bit ones, after one
      lone word when `count` is odd; the lone packet reserves its header and
      its word. */
  function EncodeU32Short(indices: seq<bv32>, start: nat, count: nat): (ps: seq<Packet>)
    requires start + count <= |indices|
  {
    LoneThenPacked(indices[start..start + count], 2, ElementU16)
  }

  /** The same encoder with the lone packet reserving one word only, which
      is less than its header and its word. */
  function EncodeU32ShortAsWritten(indices: seq<bv32>, start: nat, count: nat): (ps: seq<Packet>)
    requires start + count <= |indices|
  {
    LoneThenPacked(indices[start..start + count], 1, ElementU16)
  }

  // ---------------------------------------------------------------------
  // Properties of the encoders

  lemma LoneFacts(vals: seq<bv32>, space: nat)
    requires 1 <= |vals| <= MaxPacketLen && space >= |vals| + 1
    ensures WellFormed(Lone(vals, space)) && WordCount(Lone(vals, space)) == |vals|
  {
    assert Lone(vals, space)[1..] == [];
  }

  lemma {:induction false} WellFormedAppend(a: seq<Packet>, b: seq<Packet>)
    requires WellFormed(a) && WellFormed(b)
    ensures WellFormed(a + b)
  {
    forall i | 0 <= i < |a + b|
      ensures Bounded((a + b)[i]) && SpaceCovers((a + b)[i])
    {
      if i >= |a| {
        assert (a + b)[i] == b[i - |a|];
      }
    }
  }

  /** The lone indices and the packed rest decode to the input when the
      packed ones fit their lanes; every packet keeps to the limits; and the
      words are the lone ones plus one per `k` indices. */
  lemma LoneThenPackedSound(vals: seq<bv32>, space: nat, m: ElementMethod)
    requires space >= Lanes(m)
    ensures var ps := LoneThenPacked(vals, space, m);
      && (AllFit(vals, Lanes(m)) ==> Decode(ps) == vals)
      && WellFormed(ps)
      && WordCount(ps) == |vals| % Lanes(m) + |vals| / Lanes(m)
  {
    var k := Lanes(m);
    var h := |vals| % k;
    var lone := Lone(vals[..h], space);
    var rest := Chunks(vals[h..], m);
    WordCountAppend(lone, rest);
    if h > 0 { LoneFacts(vals[..h], space); }
    WellFormedAppend(lone, rest);
    if AllFit(vals, k) {
      assert AllFit(vals[h..], k);
      ChunksRoundTrip(vals[h..], m);
      DecodeAppend(lone, rest);
      assert vals == vals[..h] + vals[h..];
    }
  }

  /** Decoding the eight-bit encoder's packets gives back the indices; every
      packet is within the length limit and reserves its space; and there
      are `count & 3` lone words plus one word per four indices. */
  lemma EncodeU08Sound(indices: seq<bv8>, start: nat, count: nat)
    requires start + count <= |indices|
    ensures var ps := EncodeU08(indices, start, count);
      && Decode(ps) == Widen8(indices[start..start + count])
      && WellFormed(ps)
      && WordCount(ps) == count % 4 + count / 4
  {
    var vals := Widen8(indices[start..start + count]);
    LoneThenPackedSound(vals, 4, ElementU8);
    assert |vals| == count && Lanes(ElementU8) == 4;
  }

  /** The sixteen-bit encoder round-trips, keeps to the packet limits and
      sends one word per pair plus the lone one. */
  lemma EncodeU16Sound(indices: seq<bv16>, start: nat, count: nat)
    requires start + count <= |indices|
    ensures var ps := EncodeU16(indices, start, count);
      && Decode(ps) == Widen16(indices[start..start + count])
      && WellFormed(ps)
      && WordCount(ps) == count % 2 + count / 2
  {
    var vals := Widen16(indices[start..start + count]);
    LoneThenPackedSound(vals, 2, ElementU16);
    assert |vals| == count && Lanes(ElementU16) == 2;
  }

  /** The thirty-two-bit encoder round-trips with one word per index. */
  lemma EncodeU32Sound(indices: seq<bv32>, start: nat, count: nat)
    requires start + count <= |indices|
    ensures var ps := EncodeU32(indices, start, count);
      && Decode(ps) == indices[start..start + count]
      && WellFormed(ps)
      && WordCount(ps) == count
  {
    ChunksRoundTrip(indices[start..start + count], ElementU32);
  }

  /** Pairing thirty-two-bit indices round-trips when every index fits in
      sixteen bits, and the packets keep to the limits whatever the
      indices. */
  lemma EncodeU32ShortSound(indices: seq<bv32>, start: nat, count: nat)
    requires start + count <= |indices|
    ensures var ps := EncodeU32Short(indices, start, count);
      && WellFormed(ps)
      && WordCount(ps) == count % 2 + count / 2
      && (AllFit(indices[start..start + count], 2) ==> Decode(ps) == indices[start..start + count])
  {
    LoneThenPackedSound(indices[start..start + count], 2, ElementU16);
  }

  /** An index too wide for sixteen bits does not survive pairing: its
      upper half is dropped. */
  lemma U32ShortLosesWideIndex()
    ensures var indices: seq<bv32> := [0x1_0000, 0];
      Decode(EncodeU32Short(indices, 0, 2)) != indices
  {
    var indices: seq<bv32> := [0x1_0000, 0];
    var vals := indices[0..2];
    assert vals == indices;
    var ps := EncodeU32Short(indices, 0, 2);
    assert Lone(vals[..0], 2) == [];
    assert vals[..2] == indices;
    assert PackWords(indices, 2) == [Pack(indices, 2)] by {
      assert indices[2..] == [];
    }
    assert Pack(indices, 2) == 0x1_0000;
    assert ps == [Packet(2, ElementU16, [0x1_0000])] by {
      assert vals[2..] == [];
    }
    assert Decode(ps) == UnpackWords([0x1_0000], 2) by {
      assert ps[1..] == [];
    }
    assert UnpackWords([0x1_0000], 2) == Unpack(0x1_0000, 2) by {
      assert [0x1_0000 as bv32][1..] == [];
    }
    assert Decode(ps)[0] == 0;
  }

  /** As written, an odd count makes the pairing encoder send its lone
      index in a packet that reserves fewer words than it writes. */
  lemma U32ShortAsWrittenUnderReserves(indices: seq<bv32>)
    requires |indices| >= 1
    ensures var ps := EncodeU32ShortAsWritten(indices, 0, 1);
      |ps| >= 1 && !SpaceCovers(ps[0])
  {
    var vals := indices[0..1];
    assert Lone(vals[..1], 1) == [Packet(1, ElementU32, vals[..1])];
    assert vals[1..] == [];
  }
}
