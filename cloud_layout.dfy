/**
 * Byte layouts shared by the host and the cloud compute kernels, and the
 * thread-group arithmetic of every dispatch (CloudSystem.cs).
 */
module CloudLayout {
  import opened Gpu

  /** One field of an explicitly laid-out struct: byte offset and byte size. */
  datatype Field = Field(name: string, offset: nat, size: nat)

  function End(f: Field): nat { f.offset + f.size }

  /** `CloudParticle`: the `FieldOffset` of each field and the size of its type (Vector3 = 12, float = int = 4). */
  const ParticleFields: seq<Field> := [
    Field("position", 0, 12),
    Field("size", 16, 4),
    Field("baseSize", 20, 4),
    Field("scaleSpeed", 24, 4),
    Field("timeOffset", 28, 4),
    Field("velocity", 32, 12),
    Field("inCloud", 48, 4)
  ]

  /**
   * The per-instance record appended to the render buffer. CloudSystem.cs
   * gives only its stride, `sizeof(float) * 4`; the split into a position at
   * byte 0 and a size at byte 12 is the layout this model assumes the update
   * kernel writes.
   */
  const RenderFields: seq<Field> := [
    Field("position", 0, 12),
    Field("size", 12, 4)
  ]

  /** Fields come in increasing offset order and no two share a byte. */
  predicate Disjoint(fields: seq<Field>)
  {
    forall i, j :: 0 <= i < j < |fields| ==> End(fields[i]) <= fields[j].offset
  }

  /** Every field lies within `stride` bytes. */
  predicate Within(fields: seq<Field>, stride: nat)
  {
    forall i :: 0 <= i < |fields| ==> End(fields[i]) <= stride
  }

  /** Every field starts on a 4-byte word boundary, as the kernel reads whole words. */
  predicate WordAligned(fields: seq<Field>)
  {
    forall i :: 0 <= i < |fields| ==> fields[i].offset % WORD_SIZE == 0
  }

  function TotalSize(fields: seq<Field>): nat
  {
    if fields == [] then 0 else fields[0].size + TotalSize(fields[1..])
  }

  /** `CloudParticle.GetStride()`: the record size the kernels are compiled against. */
  function GetStride(): (stride: nat)
    ensures Within(ParticleFields, stride) && stride % WORD_SIZE == 0
  {
    52
  }

  /**
   * The stride fits the explicit layout: the fields are disjoint, word
   * aligned and within the stride, the last one ends exactly at it, and the
   * engine accepts it.
   */
  lemma ParticleLayoutFits()
    ensures Disjoint(ParticleFields) && WordAligned(ParticleFields)
    ensures Within(ParticleFields, GetStride())
    ensures End(ParticleFields[|ParticleFields| - 1]) == GetStride()
    ensures ValidShape(1, GetStride())
  {
  }

  /** The two Vector3 fields start on 16-byte boundaries; the 8 bytes not covered by any field are their padding. */
  lemma ParticlePadding()
    ensures ParticleFields[0].offset % 16 == 0 && ParticleFields[5].offset % 16 == 0
    ensures GetStride() - TotalSize(ParticleFields) == 8
  {
  }

  /** `sizeof(float) * 4`: the stride of the render buffer. */
  function RenderStride(): nat
  {
    4 * WORD_SIZE
  }

  /** The render record fills its stride exactly, with disjoint word-aligned fields. */
  lemma RenderLayoutFits()
    ensures Disjoint(RenderFields) && WordAligned(RenderFields) && Within(RenderFields, RenderStride())
    ensures TotalSize(RenderFields) == RenderStride()
    ensures ValidShape(1, RenderStride())
  {
  }

  /** Words of `DrawMeshInstancedIndirect` arguments: index count, instance count, start index, base vertex, start instance. */
  const ARGS_LENGTH: nat := 5
  const INSTANCE_COUNT_SLOT: nat := 1

  /** `args.Length * sizeof(uint)`: the stride of the single-element args buffer. */
  function ArgsStride(): (stride: nat)
    ensures stride / WORD_SIZE == ARGS_LENGTH && stride % WORD_SIZE == 0
  {
    ARGS_LENGTH * WORD_SIZE
  }

  /** `CopyCount(renderBuffer, argsBuffer, sizeof(uint))` writes the instance-count word. */
  lemma CopyCountTargetsInstanceCount()
    ensures WORD_SIZE % WORD_SIZE == 0 && WORD_SIZE / WORD_SIZE == INSTANCE_COUNT_SLOT
    ensures INSTANCE_COUNT_SLOT < ArgsStride() / WORD_SIZE
  {
  }

  /** `[numthreads(64, 1, 1)]` of both kernels. */
  const THREAD_GROUP_SIZE: nat := 64

  function CeilDiv(a: nat, b: nat): (c: nat)
    requires b > 0
    ensures c * b >= a && (a > 0 ==> (c - 1) * b < a)
  {
    (a + b - 1) / b
  }

  /** Thread groups dispatched for `particleCount` records: the ceiling of particleCount / 64. */
  function ThreadGroups(particleCount: nat): (groups: nat)
    ensures groups * THREAD_GROUP_SIZE >= particleCount
    ensures particleCount > 0 ==> (groups - 1) * THREAD_GROUP_SIZE < particleCount
    ensures particleCount == 0 ==> groups == 0
  {
    CeilDiv(particleCount, THREAD_GROUP_SIZE)
  }

  /** The engine refuses a `Dispatch` of more than 65535 thread groups in one dimension. */
  const MAX_THREAD_GROUPS: nat := 65535

  /** The most records one dispatch of 64-thread groups can reach: 4,194,240. */
  const MAX_DISPATCH_RECORDS: nat := MAX_THREAD_GROUPS * THREAD_GROUP_SIZE

  /** Records of a `count`-record buffer that a dispatch of `groups` groups reaches (threads past the end do nothing). */
  function Covered(groups: nat, count: nat): (reached: nat)
    ensures reached <= count && reached <= groups * THREAD_GROUP_SIZE
    ensures reached == count || reached == groups * THREAD_GROUP_SIZE
  {
    if groups * THREAD_GROUP_SIZE < count then groups * THREAD_GROUP_SIZE else count
  }

  /** The dispatch reaches every record, and one group fewer would miss one. */
  lemma ThreadGroupsCoverExactly(particleCount: nat)
    ensures Covered(ThreadGroups(particleCount), particleCount) == particleCount
    ensures particleCount > 0 ==> Covered(ThreadGroups(particleCount) - 1, particleCount) < particleCount
  {
  }

  // ---- Mathf.CeilToInt(particleCount / 64f), as written ----

  /** Distance between neighbouring binary32 values around `n`: 1 below 2^24, doubling with each binade above. */
  function SingleUlp(n: nat): (ulp: nat)
    ensures ulp >= 1
    ensures n < 0x100_0000 ==> ulp == 1
  {
    if n < 0x100_0000 then 1 else 2 * SingleUlp(n / 2)
  }

  lemma RemainderBounds(n: nat, d: nat)
    requires d >= 1
    ensures 0 <= n % d < d && n % d <= n
    ensures d == 1 ==> n % d == 0
  {
  }

  /** A multiple of `d` divided by `d` gives back its factor. */
  lemma MultipleQuotient(q: nat, d: nat)
    requires d >= 1
    ensures (q * d) / d == q && (q * d) % d == 0
  {
    var m := q * d;
    var k := q - m / d;
    assert k * d == m % d by {
      assert m == (m / d) * d + m % d;
    }
  }

  /** The two multiples of `ulp` around `n`: the lower one's factor is `n / ulp`, the upper one's is one more. */
  lemma EvenNeighbour(n: nat, ulp: nat)
    requires ulp >= 1
    ensures (n / ulp) % 2 == 0 ==> ((n - n % ulp) / ulp) % 2 == 0
    ensures (n / ulp) % 2 != 0 ==> ((n - n % ulp + ulp) / ulp) % 2 == 0
  {
    var q := n / ulp;
    assert n - n % ulp == q * ulp;
    MultipleQuotient(q, ulp);
    MultipleQuotient(q + 1, ulp);
    assert n - n % ulp + ulp == (q + 1) * ulp;
  }

  /** Rounds `n` to the nearest multiple of `ulp`, a tie going to the even multiple. */
  function RoundToMultiple(n: nat, ulp: nat): (r: nat)
    requires ulp >= 1
    ensures r == n - n % ulp || r == n - n % ulp + ulp
    ensures n - ulp / 2 <= r <= n + ulp / 2
    ensures ulp == 1 ==> r == n
    ensures 2 * (n % ulp) == ulp ==> (r / ulp) % 2 == 0
  {
    RemainderBounds(n, ulp);
    var rem := n % ulp;
    var below := n - rem;
    EvenNeighbour(n, ulp);
    if 2 * rem < ulp then below
    else if 2 * rem > ulp then below + ulp
    else if (n / ulp) % 2 == 0 then below
    else below + ulp
  }

  /** The C# conversion of an `int` to `float`: the nearest binary32 value, ties to even. */
  function SingleRound(n: nat): (r: nat)
    ensures r == n - n % SingleUlp(n) || r == n - n % SingleUlp(n) + SingleUlp(n)
    ensures n - SingleUlp(n) / 2 <= r <= n + SingleUlp(n) / 2
    ensures n < 0x100_0000 ==> r == n
    ensures 2 * (n % SingleUlp(n)) == SingleUlp(n) ==> (r / SingleUlp(n)) % 2 == 0
  {
    RoundToMultiple(n, SingleUlp(n))
  }

  /**
   * `Mathf.CeilToInt(particleCount / 64f)` at CloudSystem.cs:217 and :307: the
   * count is rounded to a float first; dividing by 64 and the ceiling are exact.
   */
  function FloatThreadGroups(particleCount: nat): (groups: nat)
    ensures groups * THREAD_GROUP_SIZE >= SingleRound(particleCount)
    ensures SingleRound(particleCount) > 0 ==> (groups - 1) * THREAD_GROUP_SIZE < SingleRound(particleCount)
  {
    CeilDiv(SingleRound(particleCount), THREAD_GROUP_SIZE)
  }

  /** Up to 2^24 records the float form equals the exact ceiling. */
  lemma FloatThreadGroupsExactBelow(particleCount: nat)
    requires particleCount <= 0x100_0000
    ensures FloatThreadGroups(particleCount) == ThreadGroups(particleCount)
  {
  }

  /**
   * A count the engine can dispatch needs at most 65535 groups, and for every
   * such count the float form as written equals the exact ceiling.
   */
  lemma DispatchLimit(particleCount: nat)
    ensures ThreadGroups(particleCount) <= MAX_THREAD_GROUPS <==> particleCount <= MAX_DISPATCH_RECORDS
    ensures particleCount <= MAX_DISPATCH_RECORDS ==> FloatThreadGroups(particleCount) == ThreadGroups(particleCount)
  {
    if particleCount <= MAX_DISPATCH_RECORDS {
      FloatThreadGroupsExactBelow(particleCount);
    }
  }

  /** The group count `Mathf.CeilToInt(particleCount / 64f)` as written, for a count the engine can dispatch. */
  function DispatchGroups(particleCount: nat): (groups: nat)
    requires particleCount <= MAX_DISPATCH_RECORDS
    ensures groups == ThreadGroups(particleCount) <= MAX_THREAD_GROUPS
    ensures Covered(groups, particleCount) == particleCount
  {
    DispatchLimit(particleCount);
    ThreadGroupsCoverExactly(particleCount);
    FloatThreadGroups(particleCount)
  }

  /**
   * 2^24 + 1 records round down to 2^24: the float form asks for one thread
   * fewer than there are records. Both forms ask for more groups than the
   * engine dispatches, so the shortfall cannot show while the limit holds.
   */
  lemma FloatThreadGroupsMissRecord()
    ensures FloatThreadGroups(0x100_0001) * THREAD_GROUP_SIZE < 0x100_0001
    ensures Covered(FloatThreadGroups(0x100_0001), 0x100_0001) < 0x100_0001
    ensures FloatThreadGroups(0x100_0001) > MAX_THREAD_GROUPS && ThreadGroups(0x100_0001) > MAX_THREAD_GROUPS
  {
    assert SingleUlp(0x80_0000) == 1;
    assert SingleUlp(0x100_0001) == 2;
    assert SingleRound(0x100_0001) == 0x100_0000;
  }
}
