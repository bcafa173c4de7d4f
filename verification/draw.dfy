/** Draw submission: the primitive translation, the instanced loop of a
    non-indexed draw, and the two decisions an indexed draw makes up front
    (whether to push vertices rather than upload them, and whether 32-bit
    indices may travel as 16-bit pairs). */
module Draw {
  import opened Words
  import opened Commands
  import IndexInline

  /** The primitive types of the state tracker, in their numbering; any
      other code is `Unlisted`. */
  datatype PipePrim =
    | PipePoints | PipeLines | PipeLineLoop | PipeLineStrip
    | PipeTriangles | PipeTriangleStrip | PipeTriangleFan
    | PipeQuads | PipeQuadStrip | PipePolygon
    | PipeLinesAdjacency | PipeLineStripAdjacency
    | PipeTrianglesAdjacency | PipeTriangleStripAdjacency
    | Unlisted(code: nat)

  /** The hardware primitive for a state-tracker primitive; anything not
      listed (tessellation patches among them) draws points. */
  function PrimGl(p: PipePrim): (g: GlPrimitive)
    ensures g == GlPoints <==> p == PipePoints || p.Unlisted?
  {
    match p
      case PipePoints => GlPoints
      case PipeLines => GlLines
      case PipeLineLoop => GlLineLoop
      case PipeLineStrip => GlLineStrip
      case PipeTriangles => GlTriangles
      case PipeTriangleStrip => GlTriangleStrip
      case PipeTriangleFan => GlTriangleFan
      case PipeQuads => GlQuads
      case PipeQuadStrip => GlQuadStrip
      case PipePolygon => GlPolygon
      case PipeLinesAdjacency => GlLinesAdjacency
      case PipeLineStripAdjacency => GlLineStripAdjacency
      case PipeTrianglesAdjacency => GlTrianglesAdjacency
      case PipeTriangleStripAdjacency => GlTriangleStripAdjacency
      case Unlisted(_) => GlPoints
  }

  /** The state-tracker primitive each hardware primitive stands for. */
  function PipeOf(g: GlPrimitive): PipePrim {
    match g
      case GlPoints => PipePoints
      case GlLines => PipeLines
      case GlLineLoop => PipeLineLoop
      case GlLineStrip => PipeLineStrip
      case GlTriangles => PipeTriangles
      case GlTriangleStrip => PipeTriangleStrip
      case GlTriangleFan => PipeTriangleFan
      case GlQuads => PipeQuads
      case GlQuadStrip => PipeQuadStrip
      case GlPolygon => PipePolygon
      case GlLinesAdjacency => PipeLinesAdjacency
      case GlLineStripAdjacency => PipeLineStripAdjacency
      case GlTrianglesAdjacency => PipeTrianglesAdjacency
      case GlTriangleStripAdjacency => PipeTriangleStripAdjacency
  }

  /** Every listed primitive is translated to its own hardware primitive,
      and every hardware primitive is reached: the translation is a
      bijection between the listed primitives and the hardware ones. */
  lemma PrimGlBijective(p: PipePrim, g: GlPrimitive)
    ensures !p.Unlisted? ==> PipeOf(PrimGl(p)) == p
    ensures PrimGl(PipeOf(g)) == g
  {
  }

  /** The commands of one instance of a non-indexed draw; every instance
      after the first continues the instance count. */
  function Instance(prim: GlPrimitive, start: U32, count: U32, first: bool): seq<Event> {
    [VertexBeginGl(prim, !first), VertexBufferFirst(start, count), VertexEndGl]
  }

  /** The three commands of instance `i` in a command sequence whose
      instances start after `h` leading commands. */
  function InstanceAt(events: seq<Event>, h: nat, i: nat): seq<Event>
    requires h + 3 * i + 3 <= |events|
  {
    events[h + 3 * i..h + 3 * i + 3]
  }

  /** Appending one instance's commands keeps the earlier instances and
      puts the new one after them. */
  lemma InstanceAtAppend(before: seq<Event>, one: seq<Event>, h: nat, n: nat)
    requires |before| == h + 3 * n && |one| == 3
    ensures forall i :: 0 <= i < n ==> InstanceAt(before + one, h, i) == InstanceAt(before, h, i)
    ensures InstanceAt(before + one, h, n) == one
    ensures (before + one)[..|before|] == before
  {
    forall i | 0 <= i < n
      ensures InstanceAt(before + one, h, i) == InstanceAt(before, h, i)
    {
    }
  }

  /** A non-indexed draw: a pending index bias is reset first, then each of
      the `instanceCount` instances begins, names its vertex range and
      ends. The returned bias is the context's new one. */
  method DrawArrays(indexBias: int, mode: PipePrim, start: U32, count: U32, instanceCount: U32)
    returns (bias: int, events: seq<Event>)
    ensures bias == 0
    ensures var h := if indexBias != 0 then 1 else 0;
      && |events| == h + 3 * instanceCount
      && (indexBias != 0 ==> events[0] == VbElementBase(0))
      && forall i :: 0 <= i < instanceCount ==> InstanceAt(events, h, i) == Instance(PrimGl(mode), start, count, i == 0)
  {
    events := [];
    if indexBias != 0 {
      events := [VbElementBase(0)];
    }
    bias := 0;
    ghost var h := |events|;
    var prim := PrimGl(mode);
    var next := false;
    var n := 0;
    while n < instanceCount
      invariant 0 <= n <= instanceCount && next == (n > 0)
      invariant |events| == h + 3 * n
      invariant indexBias != 0 ==> events[0] == VbElementBase(0)
      invariant forall i :: 0 <= i < n ==> InstanceAt(events, h, i) == Instance(prim, start, count, i == 0)
    {
      var one := [VertexBeginGl(prim, next), VertexBufferFirst(start, count), VertexEndGl];
      InstanceAtAppend(events, one, h, n);
      events := events + one;
      next := true;
      n := n + 1;
    }
  }

  /** Whether an indexed draw prefers pushing vertices: the index range,
      in unsigned 32-bit arithmetic, spans at least twice the index count. */
  function PushHint(indexed: bool, minIndex: U32, maxIndex: U32, count: U32): (hint: bool)
    ensures hint ==> indexed
    ensures indexed && minIndex <= maxIndex && 2 * count < TWO_32 ==>
      (hint <==> maxIndex - minIndex >= 2 * count)
  {
    indexed && Sub32(maxIndex, minIndex) >= Wrap32(count * 2)
  }

  /** A reversed index range wraps around and asks for pushing. */
  lemma PushHintReversedRange()
    ensures PushHint(true, 1, 0, 1)
  {
  }

  /** The primitive-restart state of an indexed draw: the commands that
      bring the hardware's restart state in line with the draw, the new
      state, and whether 32-bit indices may be sent as 16-bit pairs. */
  function RestartSetup(restart: bool, stateRestart: bool, restartIndex: U32, maxIndex: U32)
    : (res: (bool, bool, seq<Event>))
    ensures res.1 == restart
    ensures res.0 <==> maxIndex <= 0xffff && (!restart || restartIndex <= 0xffff)
    ensures restart ==> PrimRestartIndex(restartIndex) in res.2
    ensures !restart ==> forall e :: e in res.2 ==> !e.PrimRestartIndex?
    ensures restart == stateRestart && !restart ==> res.2 == []
  {
    var shorten := maxIndex <= 0xffff;
    if restart != stateRestart then
      if restart then
        (shorten && restartIndex <= 0xffff, restart, [PrimRestartEnable(true), PrimRestartIndex(restartIndex)])
      else
        (shorten, restart, [PrimRestartEnable(false)])
    else if restart then
      (shorten && restartIndex <= 0xffff, stateRestart, [PrimRestartIndex(restartIndex)])
    else
      (shorten, stateRestart, [])
  }

  /** The indices a draw may contain: up to its maximum index, and the
      restart index when restart is on. */
  predicate IndicesWithin(indices: seq<bv32>, maxIndex: U32, restart: bool, restartIndex: U32) {
    forall i :: 0 <= i < |indices| ==>
      indices[i] as nat <= maxIndex || (restart && indices[i] as nat == restartIndex)
  }

  /** When the draw shortens, every index it may contain fits in sixteen
      bits, so pairing them loses nothing: the words decode to the
      indices. */
  lemma ShortenedIndicesRoundTrip(indices: seq<bv32>, start: nat, count: nat,
                                  restart: bool, stateRestart: bool, restartIndex: U32, maxIndex: U32)
    requires start + count <= |indices|
    requires IndicesWithin(indices[start..start + count], maxIndex, restart, restartIndex)
    requires RestartSetup(restart, stateRestart, restartIndex, maxIndex).0
    ensures IndexInline.Decode(IndexInline.EncodeU32Short(indices, start, count)) == indices[start..start + count]
  {
    var vals := indices[start..start + count];
    forall i | 0 <= i < |vals|
      ensures IndexInline.LaneFits(vals[i], 2)
    {
      assert vals[i] as nat <= 0xffff;
      Below16(vals[i]);
    }
    IndexInline.EncodeU32ShortSound(indices, start, count);
  }

  lemma Below16(v: bv32)
    requires v as nat <= 0xffff
    ensures v < 0x1_0000
  {
  }
}
