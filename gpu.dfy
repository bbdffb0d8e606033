/**
 * The slice of Unity's `ComputeBuffer` API that the cloud system uses. The
 * device owns a table of buffers; the host refers to a buffer by its handle.
 * Releasing a buffer, resetting its hidden append counter and overwriting its
 * words all update that table in place.
 */
module Gpu {

  /** C#'s `uint`. */
  newtype uint32 = x: int | 0 <= x < 0x1_0000_0000

  /** Largest value of C#'s `int`. */
  const INT32_MAX: int := 0x7fff_ffff

  /** `sizeof(uint)` and `sizeof(float)` in C#. */
  const WORD_SIZE: nat := 4

  /** Largest stride the engine accepts for a compute buffer. */
  const MAX_STRIDE: nat := 2048

  datatype BufferType = Default | Append | IndirectArguments

  /**
   * The state of one buffer: its fixed shape, whether it was released, the
   * hidden append counter, its contents as 32-bit words (for buffers the host
   * writes) and how many leading records a kernel has initialised.
   */
  datatype ComputeBuffer = ComputeBuffer(count: nat, stride: nat, kind: BufferType, released: bool,
                                         counter: nat, words: seq<uint32>, written: nat)

  /** The engine refuses a non-positive count and a stride that is not a positive multiple of 4 up to 2048. */
  predicate ValidShape(count: int, stride: int)
  {
    0 < count && 0 < stride <= MAX_STRIDE && stride % WORD_SIZE == 0
  }

  function NewBuffer(count: nat, stride: nat, kind: BufferType): ComputeBuffer
  {
    ComputeBuffer(count, stride, kind, false, 0, seq(count * stride / WORD_SIZE, _ => 0), 0)
  }

  /** One event in the life of a buffer of the given type. */
  datatype BufferOp = Created(kind: BufferType) | Released(kind: BufferType)

  function Delta(op: BufferOp, kind: BufferType): int
  {
    if op.kind != kind then 0 else if op.Created? then 1 else -1
  }

  /** Buffers of `kind` created minus buffers of `kind` released in `log`. */
  function LiveCount(log: seq<BufferOp>, kind: BufferType): int
  {
    if log == [] then 0 else Delta(log[0], kind) + LiveCount(log[1..], kind)
  }

  lemma {:induction false} LiveCountConcat(a: seq<BufferOp>, b: seq<BufferOp>, kind: BufferType)
    ensures LiveCount(a + b, kind) == LiveCount(a, kind) + LiveCount(b, kind)
  {
    if a == [] {
      assert a + b == b;
    } else {
      assert (a + b)[1..] == a[1..] + b;
      LiveCountConcat(a[1..], b, kind);
    }
  }

  class Device {
    /** Every buffer ever created, indexed by handle. */
    var buffers: seq<ComputeBuffer>
    /** Every creation, and every release of a live buffer, in order. */
    ghost var history: seq<BufferOp>

    constructor ()
      ensures buffers == [] && history == []
    {
      buffers := [];
      history := [];
    }

    /** `new ComputeBuffer(count, stride, type)`. */
    method Create(count: int, stride: int, kind: BufferType) returns (handle: nat)
      requires ValidShape(count, stride)
      modifies this
      ensures handle == |old(buffers)|
      ensures buffers == old(buffers) + [NewBuffer(count, stride, kind)]
      ensures history == old(history) + [Created(kind)]
    {
      handle := |buffers|;
      buffers := buffers + [NewBuffer(count, stride, kind)];
      history := history + [Created(kind)];
    }

    /** `Release()`: idempotent, releasing a released buffer does nothing more. */
    method Release(handle: nat)
      requires handle < |buffers|
      modifies this
      ensures buffers == old(buffers)[handle := old(buffers)[handle].(released := true)]
      ensures history == old(history) + (if old(buffers)[handle].released then [] else [Released(old(buffers)[handle].kind)])
    {
      if !buffers[handle].released {
        history := history + [Released(buffers[handle].kind)];
      }
      buffers := buffers[handle := buffers[handle].(released := true)];
    }

    /** `SetCounterValue(value)` on an append buffer. */
    method SetCounterValue(handle: nat, value: uint32)
      requires handle < |buffers| && !buffers[handle].released
      modifies this
      ensures buffers == old(buffers)[handle := old(buffers)[handle].(counter := value as nat)]
      ensures history == old(history)
    {
      buffers := buffers[handle := buffers[handle].(counter := value as nat)];
    }

    /** `SetData(data)`: uploads `data` over the leading words of the buffer. */
    method SetData(handle: nat, data: array<uint32>)
      requires handle < |buffers| && !buffers[handle].released && data.Length <= |buffers[handle].words|
      modifies this
      ensures buffers == old(buffers)[handle := old(buffers)[handle].(words := data[..] + old(buffers)[handle].words[data.Length..])]
      ensures history == old(history)
    {
      var b := buffers[handle];
      buffers := buffers[handle := b.(words := data[..] + b.words[data.Length..])];
    }

    /** `ComputeBuffer.CopyCount(src, dst, dstOffsetBytes)`: writes the append counter of `src` as one word of `dst`. */
    method CopyCount(src: nat, dst: nat, dstOffsetBytes: nat)
      requires src < |buffers| && dst < |buffers| && src != dst
      requires !buffers[src].released && !buffers[dst].released
      requires buffers[src].kind == Append && buffers[dst].kind == IndirectArguments
      requires dstOffsetBytes % WORD_SIZE == 0 && dstOffsetBytes / WORD_SIZE < |buffers[dst].words|
      requires buffers[src].counter < 0x1_0000_0000
      modifies this
      ensures buffers == old(buffers)[dst := old(buffers)[dst].(words :=
        old(buffers)[dst].words[dstOffsetBytes / WORD_SIZE := old(buffers)[src].counter as uint32])]
      ensures history == old(history)
    {
      var b := buffers[dst];
      buffers := buffers[dst := b.(words := b.words[dstOffsetBytes / WORD_SIZE := buffers[src].counter as uint32])];
    }
  }
}
