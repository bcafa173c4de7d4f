/** The commands the driver emits, as an abstract log. The push-buffer
    encoding (method numbers, headers, address halves) is not modelled:
    each event names what is asked of the GPU or of the buffer services. */
module Commands {
  import opened Words

  /** The conditional-rendering comparison modes (COND_MODE). */
  datatype CondMode = CondNever | CondAlways | CondEqual | CondNotEqual | CondResNonZero

  /** Signal groups of the multiprocessor counter domains (SIGSEL). */
  datatype SigGroup = SigUser | SigLaunch | SigWarp | SigIssue | SigExec | SigLdst | SigL1 | SigMem | SigBranch

  /** Counter function modes (FUNC_MODE). */
  datatype FuncMode = ModeB6 | ModeLogop

  /** The geometric primitive a draw begins (VERTEX_BEGIN_GL). */
  datatype GlPrimitive =
    | GlPoints | GlLines | GlLineLoop | GlLineStrip
    | GlTriangles | GlTriangleStrip | GlTriangleFan
    | GlQuads | GlQuadStrip | GlPolygon
    | GlLinesAdjacency | GlLineStripAdjacency
    | GlTrianglesAdjacency | GlTriangleStripAdjacency

  datatype Event =
    // result-record storage and buffer services
    | CpuWrite(at: int, value: U32)           // CPU store into the mapped record, byte offset in the buffer
    | BoUnref(bo: nat)
    | MmFree(mm: nat)
    | MmFreeOnFence(mm: nat, fence: nat)      // release deferred until the fence signals
    | Kick                                    // submit the buffered commands
    // query commands
    | QueryGet(at: int, sequence: U32, get: bv32) // GPU writes sequence and counter at `at`
    | CounterResetSampleCount
    | SampleCountEnable(on: bool)
    | FifoWait(at: int, sequence: U32)        // GPU waits until the word at `at` equals sequence
    | CondModeAlways
    | CondAddress(at: int, cond: CondMode)
    // multiprocessor performance counters
    | PmCountersEnable
    | PmMultiplex(mask: U32)
    | PmSigSel(domain: nat, slot: nat, group: SigGroup)
    | PmSrcSel(slot: nat, value: U32)
    | PmFunc(slot: nat, func: nat, mode: FuncMode)
    | PmFuncOff(slot: nat)
    | PmReset(slot: nat)
    | PmReadback(sequence: U32)               // launch of the fixed readback program
    // draws
    | VbElementBase(bias: int)
    | VertexBeginGl(prim: GlPrimitive, instanceNext: bool)
    | VertexBufferFirst(start: nat, count: nat)
    | VertexEndGl
    | PrimRestartEnable(on: bool)
    | PrimRestartIndex(index: U32)
}
