/** The compute launch descriptor of Kepler GPUs: a fixed record of words
    and bit-fields the driver fills in before a grid launch. Modelled here
    are its default contents and the binding of constant buffers: the
    buffer addresses split into a 32-bit low part and an 8-bit high part,
    the 17-bit sizes, and the 8-bit mask of bound buffers. */
module LaunchDesc {
  import opened Words

  /** Number of constant-buffer slots in a descriptor. */
  const CbSlots: nat := 8
  /** The largest constant buffer a slot describes, in bytes. */
  const MaxCbSize: nat := 0x1_0000
  /** The format code of a surface without a pixel format. */
  const FormatNone: nat := 0

  /** One constant-buffer slot: address bits 0..31 and 32..39, a reserved
      7-bit field and a 17-bit size. */
  datatype CbDesc = CbDesc(addressL: U32, addressH: U8, reserved: nat, size: nat)

  /** The descriptor's fields in layout order; `unk*` fields have no known
      meaning and keep their names from the word they sit in. */
  datatype Desc = Desc(
    unk0: seq<U32>, entry: U32, unk9: seq<U32>,
    griddimX: nat, unk12: nat, griddimY: U16, griddimZ: U16,
    unk14: seq<U32>,
    sharedSize: U16, unk15: U16, unk16: U16,
    blockdimX: U16, blockdimY: U16, blockdimZ: U16,
    cbMask: bv8, unk20Bits8: nat, cacheSplit: nat, unk20Bit31: nat,
    unk21: seq<U32>,
    cb: seq<CbDesc>,
    unk45: U32, localSizeP: nat, unk46Bits20: nat, gprAlloc: nat,
    unk47: seq<U32>)

  /** The arrays have their lengths and the bit-fields fit their widths. */
  predicate Wf(d: Desc) {
    && |d.unk0| == 8 && |d.unk9| == 3 && |d.unk14| == 3 && |d.unk21| == 8
    && |d.cb| == CbSlots && |d.unk47| == 17
    && d.griddimX < 0x8000_0000 && d.unk12 < 2
    && d.unk20Bits8 < 0x20_0000 && d.cacheSplit < 4 && d.unk20Bit31 < 2
    && d.localSizeP < 0x10_0000 && d.unk46Bits20 < 0x10 && d.gprAlloc < 0x100
    && forall i :: 0 <= i < |d.cb| ==> d.cb[i].reserved < 0x80 && d.cb[i].size < 0x2_0000
  }

  /** Whether bit `j` of a mask is set. */
  predicate Bit(m: bv8, j: nat)
    requires j < 8
  {
    m & ((1 as bv8) << j) != 0
  }

  function Zeros(n: nat): (z: seq<U32>)
    ensures |z| == n && forall i :: 0 <= i < n ==> z[i] == 0
  {
    seq(n, i => 0)
  }

  /** The default descriptor: every field zero but three words with fixed
      magic values. */
  function InitDefault(): (d: Desc)
    ensures Wf(d)
    ensures d.unk0[7] == 0xbc00_0000 && d.unk9[1] == 0x4401_4000 && d.unk47[0] == 0x3000_2000
    ensures forall i :: 0 <= i < 8 && i != 7 ==> d.unk0[i] == 0
    ensures forall i :: 0 <= i < 3 && i != 1 ==> d.unk9[i] == 0
    ensures forall i :: 1 <= i < 17 ==> d.unk47[i] == 0
    ensures d.cbMask == 0 && forall i :: 0 <= i < CbSlots ==> d.cb[i] == CbDesc(0, 0, 0, 0)
    ensures forall i :: 0 <= i < 3 ==> d.unk14[i] == 0
    ensures forall i :: 0 <= i < 8 ==> d.unk21[i] == 0
    ensures d.entry == 0 && d.griddimX == 0 && d.unk12 == 0 && d.griddimY == 0 && d.griddimZ == 0
    ensures d.sharedSize == 0 && d.unk15 == 0 && d.unk16 == 0
    ensures d.blockdimX == 0 && d.blockdimY == 0 && d.blockdimZ == 0
    ensures d.unk20Bits8 == 0 && d.cacheSplit == 0 && d.unk20Bit31 == 0
    ensures d.unk45 == 0 && d.localSizeP == 0 && d.unk46Bits20 == 0 && d.gprAlloc == 0
  {
    var zero := Desc(Zeros(8), 0, Zeros(3), 0, 0, 0, 0, Zeros(3), 0, 0, 0, 0, 0, 0,
                     0, 0, 0, 0, Zeros(8), seq(CbSlots, i => CbDesc(0, 0, 0, 0)), 0, 0, 0, 0, Zeros(17));
    zero.(unk0 := zero.unk0[7 := 0xbc00_0000],
          unk9 := zero.unk9[1 := 0x4401_4000],
          unk47 := zero.unk47[0 := 0x3000_2000])
  }

  /** Bind a constant buffer to slot `index`: the buffer object's GPU
      address plus `base` is split into its low 32 bits and its bits
      32..39, the size is stored, and the slot's bit is set in the mask.
      The caller keeps `base` 256-byte aligned and the size at most 64 KiB. */
  function SetCb(d: Desc, index: nat, boOffset: U64, base: U32, size: nat): (d': Desc)
    requires Wf(d) && index < CbSlots && base % 0x100 == 0 && size <= MaxCbSize
    ensures Wf(d')
    ensures var address := Wrap64(boOffset + base);
      && d'.cb[index].addressL + d'.cb[index].addressH * TWO_32 == address % 0x100_0000_0000
      && d'.cb[index].size == size && d'.cb[index].reserved == d.cb[index].reserved
    ensures forall i :: 0 <= i < CbSlots && i != index ==> d'.cb[i] == d.cb[i]
    ensures Bit(d'.cbMask, index) && forall j :: 0 <= j < 8 && j != index ==> Bit(d'.cbMask, j) == Bit(d.cbMask, j)
    ensures d' == d.(cb := d'.cb, cbMask := d'.cbMask)
  {
    var address := Wrap64(boOffset + base);
    var slot := CbDesc(address % TWO_32, (address / TWO_32) % 0x100, d.cb[index].reserved, size);
    SplitAddress(address);
    SlotWf(d, index, slot);
    var mask := SetBit(d.cbMask, index);
    d.(cb := d.cb[index := slot], cbMask := mask)
  }

  /** Replacing one slot by a slot within the field widths keeps the
      descriptor well formed. */
  lemma SlotWf(d: Desc, index: nat, slot: CbDesc)
    requires Wf(d) && index < CbSlots && slot.reserved < 0x80 && slot.size < 0x2_0000
    ensures Wf(d.(cb := d.cb[index := slot]))
  {
  }

  lemma SplitAddress(address: U64)
    ensures address % TWO_32 + ((address / TWO_32) % 0x100) * TWO_32 == address % 0x100_0000_0000
  {
  }

  /** `m | 1 << index`: bit `index` set, the others left alone. */
  function SetBit(m: bv8, index: nat): (r: bv8)
    requires index < 8
    ensures Bit(r, index)
    ensures forall j :: 0 <= j < 8 && j != index ==> Bit(r, j) == Bit(m, j)
  {
    m | ((1 as bv8) << index)
  }

  /** `m & ~(1 << index)`: bit `index` cleared, the others left alone. */
  function ClearBit(m: bv8, index: nat): (r: bv8)
    requires index < 8
    ensures !Bit(r, index)
    ensures forall j :: 0 <= j < 8 && j != index ==> Bit(r, j) == Bit(m, j)
  {
    ClearBitFacts(m, index);
    m & !((1 as bv8) << index)
  }

  lemma ClearBitFacts(m: bv8, index: nat)
    requires index < 8
    ensures !Bit(m & !((1 as bv8) << index), index)
    ensures forall j :: 0 <= j < 8 && j != index ==> Bit(m & !((1 as bv8) << index), j) == Bit(m, j)
  {
    var r := m & !((1 as bv8) << index);
    forall j | 0 <= j < 8 && j != index
      ensures Bit(r, j) == Bit(m, j)
    {
      OtherBit(m, index, j);
    }
  }

  lemma OtherBit(m: bv8, index: nat, j: nat)
    requires index < 8 && j < 8 && j != index
    ensures (m & !((1 as bv8) << index)) & ((1 as bv8) << j) == m & ((1 as bv8) << j)
  {
  }

  /** A buffer resource: its buffer object's GPU address and its offset in
      that object. */
  datatype Resource = Resource(boOffset: U64, offset: U32)

  /** A context constant buffer: a resource (or none), the bound range's
      offset and size, and whether it is user memory. */
  datatype ConstBuf = ConstBuf(buf: Option<Resource>, offset: U32, size: U32, user: bool)

  /** What binding a context constant buffer demands: a resource-backed
      buffer that is not user memory, with a 256-byte aligned start and at
      most 64 KiB. */
  predicate Bindable(cb: ConstBuf) {
    cb.buf.Some? ==>
      !cb.user && Wrap32(cb.buf.value.offset + cb.offset) % 0x100 == 0 && cb.size <= MaxCbSize
  }

  /** Bind a context constant buffer to slot `index`: without a resource
      the slot's mask bit is cleared; otherwise the resource is bound from
      its offset plus the buffer's, with the buffer's full size. */
  function SetCtxCb(d: Desc, index: nat, cb: ConstBuf): (d': Desc)
    requires Wf(d) && index < CbSlots && Bindable(cb)
    ensures Wf(d')
    ensures d' == d.(cb := d'.cb, cbMask := d'.cbMask)
    ensures forall i :: 0 <= i < CbSlots && i != index ==> d'.cb[i] == d.cb[i]
    ensures forall j :: 0 <= j < 8 && j != index ==> Bit(d'.cbMask, j) == Bit(d.cbMask, j)
    ensures cb.buf.None? ==> d'.cb == d.cb && !Bit(d'.cbMask, index)
    ensures cb.buf.Some? ==>
      var address := Wrap64(cb.buf.value.boOffset + Wrap32(cb.buf.value.offset + cb.offset));
      && Bit(d'.cbMask, index) && d'.cb[index].size == cb.size
      && d'.cb[index].addressL + d'.cb[index].addressH * TWO_32 == address % 0x100_0000_0000
  {
    match cb.buf
      case None =>
        d.(cbMask := ClearBit(d.cbMask, index))
      case Some(r) =>
        SetCb(d, index, r.boOffset, Wrap32(r.offset + cb.offset), cb.size)
  }

  /** The binding as written: the buffer's 32-bit size is passed through a
      16-bit parameter, so it is taken modulo 64 KiB. */
  function SetCtxCbAsWritten(d: Desc, index: nat, cb: ConstBuf): (d': Desc)
    requires Wf(d) && index < CbSlots && Bindable(cb)
    ensures Wf(d')
    ensures cb.buf.Some? ==> d'.cb[index].size == cb.size % 0x1_0000
  {
    match cb.buf
      case None => SetCtxCb(d, index, cb)
      case Some(r) =>
        SetCb(d, index, r.boOffset, Wrap32(r.offset + cb.offset), cb.size % 0x1_0000)
  }

  /** The two bindings agree on every buffer below 64 KiB; on a buffer of
      exactly 64 KiB, which the size checks admit, the binding as written
      records a size of zero. */
  lemma FullSizeBufferTruncated(d: Desc, index: nat, cb: ConstBuf)
    requires Wf(d) && index < CbSlots && Bindable(cb)
    ensures cb.size < MaxCbSize ==> SetCtxCbAsWritten(d, index, cb) == SetCtxCb(d, index, cb)
    ensures cb.buf.Some? && cb.size == MaxCbSize ==>
      SetCtxCbAsWritten(d, index, cb).cb[index].size == 0 && SetCtxCb(d, index, cb).cb[index].size == MaxCbSize
  {
  }

  /** A surface as a compute shader binds it: its format code and whether
      it is writable. */
  datatype Surface = Surface(format: nat, writable: bool)

  /** A surface is bound as a constant buffer exactly when there is one, it
      has no pixel format and it is read-only. */
  predicate SurfaceAsConstbuf(sf: Option<Surface>) {
    match sf
      case None => false
      case Some(s) => s.format == FormatNone && !s.writable
  }

  /** Binding into the default descriptor leaves exactly the bound slot's
      bit in the mask. */
  lemma DefaultThenBind(index: nat, boOffset: U64, base: U32, size: nat)
    requires index < CbSlots && base % 0x100 == 0 && size <= MaxCbSize
    ensures var d := SetCb(InitDefault(), index, boOffset, base, size);
      forall j :: 0 <= j < 8 ==> (Bit(d.cbMask, j) <==> j == index)
  {
    var d0 := InitDefault();
    var d := SetCb(d0, index, boOffset, base, size);
    forall j | 0 <= j < 8
      ensures Bit(d.cbMask, j) <==> j == index
    {
      ZeroMask(j);
    }
  }

  lemma ZeroMask(j: nat)
    requires j < 8
    ensures !Bit(0, j)
  {
  }
}
