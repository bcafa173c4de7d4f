/** Vertex-element state: each element's hardware format (with a float
    fallback for formats the hardware cannot fetch), its place in the
    packed vertex the translate path writes, and which elements and
    buffers advance per instance; and the byte range of a vertex buffer a
    draw reads. */
module VertexLayout {
  import opened Words

  /** What the driver needs of a pixel format: its hardware vertex format
      (0 when the hardware has none), its component count, the bit size of
      its first channel and its size in bytes. */
  datatype FormatInfo = FormatInfo(vtx: nat, components: nat, channel0Bits: nat, blockSize: nat)

  /** The float formats of one to four 32-bit components a format without a
      hardware vertex format is converted to. */
  datatype FloatTable = FloatTable(r32: FormatInfo, r32g32: FormatInfo, r32g32b32: FormatInfo, r32g32b32a32: FormatInfo)

  /** One vertex element as the state tracker describes it. */
  datatype VertexElement = VertexElement(src: FormatInfo, vbi: nat, srcOffset: nat, instanceDivisor: nat)

  /** One element of the created state: its hardware format and, for the
      translate path, its output format and byte offset in the packed
      vertex. */
  datatype ElementOut = ElementOut(vtx: nat, format: FormatInfo, outputOffset: nat)

  datatype VertexState = VertexState(
    elements: seq<ElementOut>,
    instanceElts: set<nat>,   // elements advanced per instance
    instanceBufs: set<nat>,   // vertex buffers read per instance
    needConversion: bool,
    size: nat)                // bytes per packed vertex

  /** The format an element is fetched as: its own, or the float format
      with as many components when the hardware has none for it; none when
      that count is not one to four. */
  function FetchFormat(src: FormatInfo, floats: FloatTable): (f: Option<FormatInfo>)
    ensures src.vtx != 0 ==> f == Some(src)
    ensures f.None? <==> src.vtx == 0 && !(1 <= src.components <= 4)
  {
    if src.vtx != 0 then Some(src)
    else match src.components
      case 1 => Some(floats.r32)
      case 2 => Some(floats.r32g32)
      case 3 => Some(floats.r32g32b32)
      case 4 => Some(floats.r32g32b32a32)
      case _ => None
  }

  /** The alignment of an output element: its first channel's byte size
      when that is one or two, four otherwise. */
  function ChannelAlign(f: FormatInfo): (ca: nat)
    ensures ca == 1 || ca == 2 || ca == 4
    ensures ca == 4 <==> f.channel0Bits / 8 != 1 && f.channel0Bits / 8 != 2
  {
    var ca := f.channel0Bits / 8;
    if ca != 1 && ca != 2 then 4 else ca
  }

  /** The end of an element in the packed vertex. */
  function End(e: ElementOut): nat {
    e.outputOffset + e.format.blockSize
  }

  /** Whether some element has a format the hardware cannot fetch. */
  predicate Unfetchable(elements: seq<VertexElement>) {
    exists i :: 0 <= i < |elements| && elements[i].src.vtx == 0 && !(1 <= elements[i].src.components <= 4)
  }

  /** The elements placed so far sit at their channel alignment, in order
      without overlapping, and all end by `stride`. */
  predicate Packed(out: seq<ElementOut>, stride: nat) {
    && (forall k :: 0 <= k < |out| ==> out[k].outputOffset % ChannelAlign(out[k].format) == 0)
    && (forall k, l :: 0 <= k < l < |out| ==> End(out[k]) <= out[l].outputOffset)
    && (forall k :: 0 <= k < |out| ==> End(out[k]) <= stride)
  }

  /** Placing the next element at the aligned packed size keeps the
      packing. */
  lemma PackedStep(out: seq<ElementOut>, stride: nat, f: FormatInfo)
    requires Packed(out, stride)
    ensures var offset := AlignUp(stride, ChannelAlign(f));
      Packed(out + [ElementOut(f.vtx, f, offset)], offset + f.blockSize)
  {
    var offset := AlignUp(stride, ChannelAlign(f));
    var out' := out + [ElementOut(f.vtx, f, offset)];
    forall k, l | 0 <= k < l < |out'|
      ensures End(out'[k]) <= out'[l].outputOffset
    {
      if l == |out| {
        assert out'[k] == out[k];
      }
    }
  }

  /** The formats of the first `n` elements are fetchable and chosen. */
  predicate Fetched(elements: seq<VertexElement>, floats: FloatTable, out: seq<ElementOut>)
    requires |out| <= |elements|
  {
    forall k :: 0 <= k < |out| ==>
      Some(out[k].format) == FetchFormat(elements[k].src, floats) && out[k].vtx == out[k].format.vtx
  }

  function InstanceElts(elements: seq<VertexElement>, n: nat): set<nat>
    requires n <= |elements|
  {
    set k | 0 <= k < n && elements[k].instanceDivisor != 0
  }

  function InstanceBufs(elements: seq<VertexElement>, n: nat): set<nat>
    requires n <= |elements|
  {
    set k | 0 <= k < n && elements[k].instanceDivisor != 0 :: elements[k].vbi
  }

  /** Element `n` joins the per-instance sets exactly when it has a
      divisor. */
  lemma InstanceStep(elements: seq<VertexElement>, n: nat)
    requires n < |elements|
    ensures elements[n].instanceDivisor != 0 ==>
      InstanceElts(elements, n + 1) == InstanceElts(elements, n) + {n}
      && InstanceBufs(elements, n + 1) == InstanceBufs(elements, n) + {elements[n].vbi}
    ensures elements[n].instanceDivisor == 0 ==>
      InstanceElts(elements, n + 1) == InstanceElts(elements, n)
      && InstanceBufs(elements, n + 1) == InstanceBufs(elements, n)
  {
  }

  /** Whether one of the first `n` elements needs converting. */
  predicate Converts(elements: seq<VertexElement>, n: nat)
    requires n <= |elements|
  {
    exists k :: 0 <= k < n && elements[k].src.vtx == 0
  }

  /** Build the vertex state. Each element is placed at the packed size so
      far rounded up to its channel alignment, and the vertex size is the
      end rounded up to four bytes. The state fails if an element's format
      can neither be fetched nor converted. */
  method VertexStateCreate(elements: seq<VertexElement>, floats: FloatTable) returns (r: Option<VertexState>)
    ensures r.None? <==> Unfetchable(elements)
    ensures r.Some? ==> var s := r.value;
      && |s.elements| == |elements|
      && Fetched(elements, floats, s.elements)
      && Packed(s.elements, s.size)
      && s.size % 4 == 0
      && (s.needConversion <==> Converts(elements, |elements|))
      && s.instanceElts == InstanceElts(elements, |elements|)
      && s.instanceBufs == InstanceBufs(elements, |elements|)
  {
    var out: seq<ElementOut> := [];
    var instanceElts: set<nat> := {};
    var instanceBufs: set<nat> := {};
    var needConversion := false;
    var stride: nat := 0;
    var i := 0;
    while i < |elements|
      invariant 0 <= i <= |elements| && |out| == i
      invariant forall k :: 0 <= k < i ==> FetchFormat(elements[k].src, floats).Some?
      invariant Fetched(elements, floats, out)
      invariant Packed(out, stride)
      invariant needConversion <==> Converts(elements, i)
      invariant instanceElts == InstanceElts(elements, i)
      invariant instanceBufs == InstanceBufs(elements, i)
    {
      var e := elements[i];
      var fmt := FetchFormat(e.src, floats);
      if fmt.None? {
        return None;
      }
      if e.src.vtx == 0 {
        needConversion := true;
      }
      InstanceStep(elements, i);
      if e.instanceDivisor != 0 {
        instanceElts := instanceElts + {i};
        instanceBufs := instanceBufs + {e.vbi};
      }
      var f := fmt.value;
      PackedStep(out, stride, f);
      var offset := AlignUp(stride, ChannelAlign(f));
      out := out + [ElementOut(f.vtx, f, offset)];
      stride := offset + f.blockSize;
      i := i + 1;
    }
    var size := AlignUp(stride, 4);
    assert Packed(out, size);
    r := Some(VertexState(out, instanceElts, instanceBufs, needConversion, size));
  }

  /** The bytes of a vertex buffer a draw reads: all of it for a buffer read
      per instance, otherwise from the first to the last vertex of the
      index range, in unsigned 32-bit arithmetic. */
  function VbufRange(instanceBufs: set<nat>, vbi: nat, minIndex: U32, maxIndex: U32, stride: U32, width0: U32)
    : (range: (U32, U32))
    requires vbi !in instanceBufs ==> maxIndex != TWO_32 - 1
    ensures vbi in instanceBufs ==> range == (0, width0)
  {
    if vbi in instanceBufs then (0, width0)
    else (Wrap32(minIndex * stride), Wrap32((Sub32(maxIndex, minIndex) + 1) * stride))
  }

  /** Without wrap-around, the range of a buffer read per vertex starts at
      the first vertex and holds exactly the vertices of the index range:
      every vertex in it lies inside, and it ends where the last one
      ends. */
  lemma VbufRangeCovers(instanceBufs: set<nat>, vbi: nat, minIndex: U32, maxIndex: U32, stride: U32, width0: U32, v: nat)
    requires vbi !in instanceBufs && minIndex <= maxIndex < TWO_32 - 1
    requires (maxIndex + 1) * stride < TWO_32
    requires minIndex <= v <= maxIndex
    ensures var (base, size) := VbufRange(instanceBufs, vbi, minIndex, maxIndex, stride, width0);
      && base == minIndex * stride
      && base + size == (maxIndex + 1) * stride
      && base <= v * stride && v * stride + stride <= base + size
  {
    RangeArith(minIndex, maxIndex, stride, v);
    assert Sub32(maxIndex, minIndex) + 1 == maxIndex + 1 - minIndex;
  }

  /** The multiplications behind the range: the first vertex, the vertex
      count times the stride, and where vertex `v` lies. */
  lemma RangeArith(minIndex: nat, maxIndex: nat, stride: nat, v: nat)
    requires minIndex <= v <= maxIndex
    ensures minIndex * stride <= v * stride
    ensures v * stride + stride <= (maxIndex + 1) * stride
    ensures (maxIndex + 1 - minIndex) * stride == (maxIndex + 1) * stride - minIndex * stride
  {
    MulMono(minIndex, v, stride);
    MulMono(v + 1, maxIndex + 1, stride);
    MulSub(maxIndex + 1, minIndex, stride);
  }

  lemma MulSub(a: nat, b: nat, c: nat)
    requires b <= a
    ensures (a - b) * c == a * c - b * c
  {
  }

  lemma MulMono(a: nat, b: nat, c: nat)
    requires a <= b
    ensures a * c <= b * c
  {
  }
}
