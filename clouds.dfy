/**
 * Host-side orchestration of the GPU cloud particle system (CloudSystem.cs):
 * three compute buffers that are released and recreated, an `args` array
 * patched in place, and the per-frame reset / dispatch / copy-count sequence
 * feeding one indirect instanced draw.
 */
module Clouds {
  import opened Wrappers
  import opened Gpu
  import opened CloudLayout

  /** A world-space position; the model only stores it. */
  datatype Vec3 = Vec3(x: real, y: real, z: real)

  /** A mesh with a single submesh: vertex count and triangle index list. */
  datatype Mesh = Mesh(vertexCount: nat, triangles: seq<int>)

  /** The unit quad built by `CreateParticleMesh`: four corners, two triangles. */
  function ParticleQuad(): (m: Mesh)
    ensures m.vertexCount == 4 && |m.triangles| == 2 * 3
  {
    Mesh(4, [0, 2, 1, 2, 3, 1])
  }

  /**
   * The quad is a well-formed triangle list over its four corners: every
   * corner is used, and the two triangles share exactly the diagonal from
   * corner 1 to corner 2.
   */
  lemma ParticleQuadWellFormed()
    ensures var m := ParticleQuad();
      |m.triangles| == 6 && |m.triangles| % 3 == 0
      && (forall i :: 0 <= i < |m.triangles| ==> 0 <= m.triangles[i] < m.vertexCount)
      && (forall v :: 0 <= v < m.vertexCount ==> v in m.triangles)
      && multiset(m.triangles[..3]) * multiset(m.triangles[3..]) == multiset{1, 2}
  {
    var m := ParticleQuad();
    assert m.triangles[..3] == [0, 2, 1] && m.triangles[3..] == [2, 3, 1];
    assert m.triangles[0] == 0 && m.triangles[2] == 1 && m.triangles[1] == 2 && m.triangles[4] == 3;
  }

  /** `GetIndexCount(0)`, `GetIndexStart(0)` and `GetBaseVertex(0)` of a single-submesh mesh. */
  function IndexCount(m: Mesh): nat { |m.triangles| }
  const INDEX_START: uint32 := 0
  const BASE_VERTEX: uint32 := 0

  /** The argument words once the quad exists: 6 indices, instance count still 0, start index, base vertex, start instance. */
  function QuadArgs(): (words: seq<uint32>)
    ensures |words| == ARGS_LENGTH && words[INSTANCE_COUNT_SLOT] == 0
    ensures words[0] as int == IndexCount(ParticleQuad()) == 6
  {
    [6, 0, INDEX_START, BASE_VERTEX, 0]
  }

  /** The arguments `DrawMeshInstancedIndirect` reads from the args buffer. */
  datatype DrawCall = DrawCall(indexCount: uint32, instanceCount: uint32, startIndex: uint32,
                               baseVertex: uint32, startInstance: uint32)

  /** A C# exception ending the engine callback: `FindKernel` on a missing compute shader. */
  datatype Outcome = Completed | NullReference

  // ---- Buffer history ----

  /**
   * At every point of the history each buffer type had zero or one live
   * buffer: a buffer is released before its replacement is created, and no
   * buffer is released that was not live.
   */
  ghost predicate Balanced(log: seq<BufferOp>)
  {
    forall n, kind | 0 <= n <= |log| :: 0 <= LiveCount(log[..n], kind) <= 1
  }

  /** Each buffer type has exactly `live` live buffers at the end of `log`. */
  ghost predicate CountsAre(log: seq<BufferOp>, live: int)
  {
    LiveCount(log, Default) == live && LiveCount(log, Append) == live && LiveCount(log, IndirectArguments) == live
  }

  lemma BalancedEmpty()
    ensures Balanced([])
  {
    var log: seq<BufferOp> := [];
    forall n, kind | 0 <= n <= |log|
      ensures 0 <= LiveCount(log[..n], kind) <= 1
    {
      assert log[..n] == [];
    }
  }

  lemma BalancedExtend(log: seq<BufferOp>, op: BufferOp)
    requires Balanced(log)
    requires 0 <= LiveCount(log, op.kind) + Delta(op, op.kind) <= 1
    ensures forall kind :: LiveCount(log + [op], kind) == LiveCount(log, kind) + Delta(op, kind)
    ensures Balanced(log + [op])
  {
    forall kind
      ensures LiveCount(log + [op], kind) == LiveCount(log, kind) + Delta(op, kind)
    {
      LiveCountConcat(log, [op], kind);
    }
    forall n, kind | 0 <= n <= |log| + 1
      ensures 0 <= LiveCount((log + [op])[..n], kind) <= 1
    {
      if n <= |log| {
        assert (log + [op])[..n] == log[..n];
      } else {
        assert (log + [op])[..n] == log + [op];
        assert log[..|log|] == log;
      }
    }
  }

  /** The events of `InitializeSystem` before its spawn: each buffer released (when it existed) and recreated. */
  function RecreateOps(existed: bool): seq<BufferOp>
  {
    if existed then
      [Released(Default), Created(Default), Released(Append), Created(Append),
       Released(IndirectArguments), Created(IndirectArguments)]
    else
      [Created(Default), Created(Append), Created(IndirectArguments)]
  }

  /** The events of one respawn. */
  function RespawnOps(): seq<BufferOp>
  {
    [Released(Default), Created(Default)]
  }

  /** The events of `OnDestroy` on a live system. */
  function DestroyOps(): seq<BufferOp>
  {
    [Released(Default), Released(Append), Released(IndirectArguments)]
  }

  /** Recreating the three buffers keeps the history balanced and leaves one live buffer of each type. */
  lemma RecreateBalanced(log: seq<BufferOp>, existed: bool)
    requires Balanced(log) && CountsAre(log, if existed then 1 else 0)
    ensures Balanced(log + RecreateOps(existed)) && CountsAre(log + RecreateOps(existed), 1)
  {
    var l := log;
    if existed {
      BalancedExtend(l, Released(Default));
      l := l + [Released(Default)];
    }
    BalancedExtend(l, Created(Default));
    l := l + [Created(Default)];
    if existed {
      BalancedExtend(l, Released(Append));
      l := l + [Released(Append)];
    }
    BalancedExtend(l, Created(Append));
    l := l + [Created(Append)];
    if existed {
      BalancedExtend(l, Released(IndirectArguments));
      l := l + [Released(IndirectArguments)];
    }
    BalancedExtend(l, Created(IndirectArguments));
    l := l + [Created(IndirectArguments)];
    assert l == log + RecreateOps(existed);
  }

  /** A respawn releases the particle buffer before creating its replacement. */
  lemma RespawnBalanced(log: seq<BufferOp>)
    requires Balanced(log) && CountsAre(log, 1)
    ensures Balanced(log + RespawnOps()) && CountsAre(log + RespawnOps(), 1)
  {
    BalancedExtend(log, Released(Default));
    BalancedExtend(log + [Released(Default)], Created(Default));
    assert log + [Released(Default)] + [Created(Default)] == log + RespawnOps();
  }

  /** Teardown of a live system leaves no live buffer. */
  lemma DestroyBalanced(log: seq<BufferOp>)
    requires Balanced(log) && CountsAre(log, 1)
    ensures Balanced(log + DestroyOps()) && CountsAre(log + DestroyOps(), 0)
  {
    BalancedExtend(log, Released(Default));
    BalancedExtend(log + [Released(Default)], Released(Append));
    BalancedExtend(log + [Released(Default)] + [Released(Append)], Released(IndirectArguments));
    assert log + [Released(Default)] + [Released(Append)] + [Released(IndirectArguments)] == log + DestroyOps();
  }

  /** `Start` on a fresh component creates three particle buffers and releases two of them. */
  lemma StartLeavesOneParticleBuffer()
    ensures LiveCount(RecreateOps(false) + RespawnOps() + RespawnOps(), Default) == 1
    ensures Balanced(RecreateOps(false) + RespawnOps() + RespawnOps())
  {
    var log: seq<BufferOp> := [];
    BalancedEmpty();
    RecreateBalanced(log, false);
    RespawnBalanced(log + RecreateOps(false));
    RespawnBalanced(log + RecreateOps(false) + RespawnOps());
    assert log + RecreateOps(false) == RecreateOps(false);
  }

  /** `bufs` with the buffer at `held`, if there is one, released. */
  function ReleaseAt(bufs: seq<ComputeBuffer>, held: Option<nat>): (r: seq<ComputeBuffer>)
    requires held.Some? ==> held.value < |bufs|
    ensures |r| == |bufs|
    ensures forall h | 0 <= h < |bufs| ::
      r[h] == if held == Some(h) then bufs[h].(released := true) else bufs[h]
  {
    if held.Some? then bufs[held.value := bufs[held.value].(released := true)] else bufs
  }

  /**
   * `if (b != null) b.Release(); b = new ComputeBuffer(count, stride, kind);`:
   * the held buffer, if any, is released before its replacement is created.
   */
  method ReplaceBuffer(device: Device, held: Option<nat>, count: int, stride: int, kind: BufferType)
    returns (h: nat)
    requires ValidShape(count, stride)
    requires held.Some? ==> held.value < |device.buffers|
    requires held.Some? ==> !device.buffers[held.value].released && device.buffers[held.value].kind == kind
    modifies device
    ensures h == |old(device.buffers)|
    ensures device.buffers == ReleaseAt(old(device.buffers), held) + [NewBuffer(count, stride, kind)]
    ensures device.history == old(device.history) + (if held.Some? then [Released(kind)] else []) + [Created(kind)]
  {
    if held.Some? {
      device.Release(held.value);
    }
    h := device.Create(count, stride, kind);
  }

  // ---- The compute kernels (their HLSL is not part of this model) ----

  /** The spawn kernel: every thread below `particleCount` writes all fields of its record. */
  method DispatchSpawn(device: Device, particles: nat, particleCount: nat, groups: nat)
    requires particles < |device.buffers| && !device.buffers[particles].released
    requires particleCount <= device.buffers[particles].count
    modifies device
    ensures device.buffers == old(device.buffers)[particles :=
      old(device.buffers)[particles].(written := Covered(groups, particleCount))]
    ensures device.history == old(device.history)
  {
    device.buffers := device.buffers[particles :=
      device.buffers[particles].(written := Covered(groups, particleCount))];
  }

  /**
   * The update kernel: each thread below `particleCount` reads and updates its
   * record and appends at most one render record, advancing the append counter
   * from wherever it stands.
   */
  method DispatchUpdate(device: Device, particles: nat, render: nat, particleCount: nat, groups: nat)
    returns (appended: nat)
    requires particles < |device.buffers| && render < |device.buffers| && particles != render
    requires !device.buffers[particles].released && !device.buffers[render].released
    requires device.buffers[render].kind == Append
    requires particleCount <= device.buffers[particles].count
    requires Covered(groups, particleCount) <= device.buffers[particles].written
    requires device.buffers[render].counter + Covered(groups, particleCount) <= device.buffers[render].count
    modifies device
    ensures appended <= Covered(groups, particleCount)
    ensures device.buffers == old(device.buffers)[render :=
      old(device.buffers)[render].(counter := old(device.buffers)[render].counter + appended)]
    ensures device.history == old(device.history)
  {
    appended :| appended <= Covered(groups, particleCount);
    var r := device.buffers[render];
    device.buffers := device.buffers[render := r.(counter := r.counter + appended)];
  }

  /** The device work of a respawn: counter reset, particle buffer replaced, spawn dispatch. */
  method RespawnOnDevice(device: Device, particles: nat, render: nat, particleCount: nat) returns (replacement: nat)
    requires HeldLive(device.buffers, Some(particles), Some(render), None)
    requires 0 < particleCount
    modifies device
    requires particleCount <= MAX_DISPATCH_RECORDS
    ensures replacement == |old(device.buffers)|
    ensures device.buffers ==
      ReleaseAt(old(device.buffers)[render := old(device.buffers)[render].(counter := 0)], Some(particles))
      + [SpawnedBuffer(particleCount)]
    ensures device.history == old(device.history) + RespawnOps()
  {
    device.SetCounterValue(render, 0);
    replacement := ReplaceBuffer(device, Some(particles), particleCount, GetStride(), Default);
    var groups := DispatchGroups(particleCount);
    DispatchSpawn(device, replacement, particleCount, groups);
  }

  /** Writing one slot twice leaves only the second write. */
  lemma UpdateTwice<T>(s: seq<T>, i: nat, a: T, b: T)
    requires i < |s|
    ensures s[i := a][i := b] == s[i := b]
  {
  }

  /** The first half of `UpdateClouds`' device work: the counter reset and the update dispatch. */
  method ResetAndDispatch(device: Device, particles: nat, render: nat, particleCount: nat)
    returns (appended: nat)
    requires HeldLive(device.buffers, Some(particles), Some(render), None)
    requires particleCount <= MAX_DISPATCH_RECORDS
    requires device.buffers[particles].count == particleCount == device.buffers[particles].written
    requires device.buffers[render].count == particleCount
    modifies device
    ensures appended <= particleCount
    ensures device.buffers == old(device.buffers)[render := old(device.buffers)[render].(counter := appended)]
    ensures device.history == old(device.history)
  {
    ghost var before := device.buffers;
    ghost var x := before[render].(counter := 0);
    device.SetCounterValue(render, 0);
    ghost var reset := device.buffers;
    assert reset[render] == x;
    var groups := DispatchGroups(particleCount);
    appended := DispatchUpdate(device, particles, render, particleCount, groups);
    ghost var y := before[render].(counter := appended);
    assert reset[render].(counter := reset[render].counter + appended) == y;
    assert device.buffers == reset[render := y];
    UpdateTwice(before, render, x, y);
  }

  /**
   * The second half: the counter is copied into the instance-count word, the
   * host args (with that word zeroed) are uploaded over it, and the counter is
   * copied again, so the buffer ends with the quad's words and this frame's count.
   */
  method CopyArgs(device: Device, args: array<uint32>, render: nat, argsHandle: nat)
    requires render < |device.buffers| && argsHandle < |device.buffers| && render != argsHandle
    requires !device.buffers[render].released && !device.buffers[argsHandle].released
    requires device.buffers[render].kind == Append && device.buffers[argsHandle].kind == IndirectArguments
    requires device.buffers[render].counter <= INT32_MAX
    requires |device.buffers[argsHandle].words| == ARGS_LENGTH
    requires args.Length == ARGS_LENGTH && args[..] == QuadArgs()
    modifies device, args
    ensures device.buffers == old(device.buffers)
      [argsHandle := old(device.buffers)[argsHandle].(words := UpdatedArgs(old(device.buffers)[render].counter))]
    ensures device.history == old(device.history) && args[..] == old(args[..])
  {
    CopyCountTargetsInstanceCount();
    device.CopyCount(render, argsHandle, WORD_SIZE);
    args[INSTANCE_COUNT_SLOT] := 0;
    assert args[..] == QuadArgs();
    device.SetData(argsHandle, args);
    assert device.buffers[argsHandle].words == QuadArgs();
    device.CopyCount(render, argsHandle, WORD_SIZE);
  }

  /**
   * The device work of `UpdateClouds`: counter reset, update dispatch, copy of
   * the counter into the instance-count word, re-upload of the host args and
   * the second copy.
   */
  method SimulateFrame(device: Device, args: array<uint32>, particles: nat, render: nat, argsHandle: nat,
                       particleCount: nat)
    returns (appended: nat)
    requires HeldLive(device.buffers, Some(particles), Some(render), Some(argsHandle))
    requires particleCount <= MAX_DISPATCH_RECORDS
    requires device.buffers[particles].count == particleCount == device.buffers[particles].written
    requires device.buffers[render].count == particleCount
    requires |device.buffers[argsHandle].words| == ARGS_LENGTH
    requires args.Length == ARGS_LENGTH && args[..] == QuadArgs()
    modifies device, args
    ensures appended <= particleCount
    ensures device.buffers == old(device.buffers)
      [render := old(device.buffers)[render].(counter := appended)]
      [argsHandle := old(device.buffers)[argsHandle].(words := UpdatedArgs(appended))]
    ensures device.history == old(device.history) && args[..] == old(args[..])
  {
    appended := ResetAndDispatch(device, particles, render, particleCount);
    CopyArgs(device, args, render, argsHandle);
  }

  /** The three guarded `Release()` calls of `OnDestroy`. */
  method ReleaseHandles(device: Device, particles: Option<nat>, render: Option<nat>, argsHandle: Option<nat>)
    requires particles.Some? ==> particles.value < |device.buffers|
    requires render.Some? ==> render.value < |device.buffers|
    requires argsHandle.Some? ==> argsHandle.value < |device.buffers|
    requires particles.Some? == render.Some? == argsHandle.Some?
    requires particles.Some? && !device.buffers[particles.value].released ==>
      HeldLive(device.buffers, particles, render, argsHandle)
    requires particles.Some? && device.buffers[particles.value].released ==>
      device.buffers[render.value].released && device.buffers[argsHandle.value].released
    modifies device
    ensures device.buffers == ReleaseAt(ReleaseAt(ReleaseAt(old(device.buffers), particles), render), argsHandle)
    ensures device.history == old(device.history) +
      (if particles.Some? && !old(device.buffers)[particles.value].released then DestroyOps() else [])
  {
    if particles.Some? {
      device.Release(particles.value);
    }
    if render.Some? {
      device.Release(render.value);
    }
    if argsHandle.Some? {
      device.Release(argsHandle.value);
    }
  }

  /**
   * What the invariant of a `CloudSystem` constrains, as one value: the
   * component's fields except the remembered player position, its device's
   * buffer table and history, and the contents of the host `args` array.
   */
  datatype Snapshot = Snapshot(
    particleCount: int, hasShader: bool, hasMaterial: bool,
    particleBuffer: Option<nat>, renderBuffer: Option<nat>, argsBuffer: Option<nat>,
    particleMesh: Option<Mesh>, materialBuffer: Option<nat>,
    buffers: seq<ComputeBuffer>, history: seq<BufferOp>, args: seq<uint32>,
    argsUploaded: bool, destroyed: bool)
  {
    predicate Holds(h: nat)
    {
      particleBuffer == Some(h) || renderBuffer == Some(h) || argsBuffer == Some(h)
    }

    predicate Ready()
    {
      particleBuffer.Some? && !destroyed
    }

    /** The held handles index the buffer table and one dispatch reaches every record. */
    predicate Indexed()
    {
      && 0 < particleCount <= MAX_DISPATCH_RECORDS && |args| == ARGS_LENGTH
      && (particleBuffer.Some? ==> particleBuffer.value < |buffers|)
      && (renderBuffer.Some? ==> renderBuffer.value < |buffers|)
      && (argsBuffer.Some? ==> argsBuffer.value < |buffers|)
    }

    /** Indexed, with all three buffers present. */
    predicate Placed()
    {
      Indexed() && particleBuffer.Some? && renderBuffer.Some? && argsBuffer.Some?
    }

    /** The words of the args buffer: zero until the first upload, then the quad's, with the copied instance count. */
    predicate ArgsWords(words: seq<uint32>)
    {
      && |words| == ARGS_LENGTH
      && words[0] == (if argsUploaded then QuadArgs()[0] else 0)
      && words[2] == 0 && words[3] == 0 && words[4] == 0
      && words[INSTANCE_COUNT_SLOT] as int <= particleCount
    }

    /** The buffers, once created, have the shapes the kernels and the draw expect. */
    ghost predicate Configured()
      requires particleBuffer.Some? && renderBuffer.Some? && argsBuffer.Some?
    {
      var p, r, a := particleBuffer.value, renderBuffer.value, argsBuffer.value;
      && p < |buffers| && r < |buffers| && a < |buffers|
      && p != r && p != a && r != a
      && buffers[p].count == particleCount && buffers[p].stride == GetStride() && buffers[p].kind == Default
      && buffers[r].count == particleCount && buffers[r].stride == RenderStride() && buffers[r].kind == Append
      && buffers[r].counter <= particleCount
      && buffers[a].count == 1 && buffers[a].stride == ArgsStride() && buffers[a].kind == IndirectArguments
      && ArgsWords(buffers[a].words)
      && hasShader
      && particleMesh == Some(ParticleQuad())
      && args == QuadArgs()
      && materialBuffer == (if hasMaterial then renderBuffer else None)
    }

    /** Every live buffer is held. */
    predicate OnlyHeldLive()
    {
      forall h | 0 <= h < |buffers| :: buffers[h].released || Holds(h)
    }

    /** A buffer is live exactly when it is held and teardown has not run. */
    ghost predicate LiveExactlyHeld()
    {
      forall h | 0 <= h < |buffers| :: buffers[h].released <==> destroyed || !Holds(h)
    }

    /**
     * The three buffer fields and the mesh are null together; before the
     * first initialisation nothing exists; afterwards the buffers are
     * configured; exactly the held buffers are live; and the history is
     * balanced.
     */
    ghost predicate Inv()
    {
      && |args| == ARGS_LENGTH
      && 0 < particleCount <= MAX_DISPATCH_RECORDS
      && (particleBuffer.None? <==> renderBuffer.None?)
      && (particleBuffer.None? <==> argsBuffer.None?)
      && (particleBuffer.None? <==> particleMesh.None?)
      && (particleBuffer.None? ==>
            buffers == [] && history == [] && args == [0, 0, 0, 0, 0]
            && materialBuffer.None? && !argsUploaded)
      && (particleBuffer.Some? ==> Configured())
      && LiveExactlyHeld()
      && Balanced(history)
      && CountsAre(history, if Ready() then 1 else 0)
    }

    /** Every record of the particle buffer has been written by the spawn kernel. */
    ghost predicate Spawned()
    {
      particleBuffer.Some? && particleBuffer.value < |buffers| ==>
        buffers[particleBuffer.value].written == buffers[particleBuffer.value].count
    }
  }

  // ---- What each operation does to the state ----

  /** Each held handle names a live buffer of the type its field expects. */
  predicate HeldLive(bufs: seq<ComputeBuffer>, particles: Option<nat>, render: Option<nat>, argsHandle: Option<nat>)
  {
    && (particles.Some? ==> particles.value < |bufs| && !bufs[particles.value].released && bufs[particles.value].kind == Default)
    && (render.Some? ==> render.value < |bufs| && !bufs[render.value].released && bufs[render.value].kind == Append)
    && (argsHandle.Some? ==>
          argsHandle.value < |bufs| && !bufs[argsHandle.value].released && bufs[argsHandle.value].kind == IndirectArguments)
  }

  /** The buffer table after the three replacements of `InitializeSystem`, in the order the code runs them. */
  function RecreatedBuffers(bufs: seq<ComputeBuffer>, particles: Option<nat>, render: Option<nat>,
                            argsHandle: Option<nat>, particleCount: nat): (r: seq<ComputeBuffer>)
    requires particles.Some? ==> particles.value < |bufs|
    requires render.Some? ==> render.value < |bufs|
    requires argsHandle.Some? ==> argsHandle.value < |bufs|
    ensures |r| == |bufs| + 3
  {
    var b1 := ReleaseAt(bufs, particles) + [NewBuffer(particleCount, GetStride(), Default)];
    var b2 := ReleaseAt(b1, render) + [NewBuffer(particleCount, RenderStride(), Append)];
    ReleaseAt(b2, argsHandle) + [NewBuffer(1, ArgsStride(), IndirectArguments)]
  }

  /** `InitializeSystem` up to its spawn: new buffers, the quad, the args words and the material binding. */
  function Recreated(s: Snapshot): (t: Snapshot)
    requires s.Indexed()
    ensures t.Placed()
  {
    var n := |s.buffers|;
    s.(particleBuffer := Some(n), renderBuffer := Some(n + 1), argsBuffer := Some(n + 2),
       buffers := RecreatedBuffers(s.buffers, s.particleBuffer, s.renderBuffer, s.argsBuffer, s.particleCount),
       history := s.history + RecreateOps(s.particleBuffer.Some?),
       particleMesh := Some(ParticleQuad()),
       args := QuadArgs()[4 := s.args[4]],
       materialBuffer := if s.hasMaterial then Some(n + 1) else s.materialBuffer,
       argsUploaded := false)
  }

  /** The particle buffer after a spawn dispatch of `particleCount` threads' worth of groups. */
  function SpawnedBuffer(particleCount: nat): ComputeBuffer
  {
    NewBuffer(particleCount, GetStride(), Default).(written := Covered(ThreadGroups(particleCount), particleCount))
  }

  /** `SpawnCloudParticles` on an initialised system: counter reset, particle buffer replaced and spawned. */
  function Respawned(s: Snapshot): (t: Snapshot)
    requires s.Placed()
    ensures t.Placed()
  {
    var r := s.renderBuffer.value;
    var reset := s.buffers[r := s.buffers[r].(counter := 0)];
    s.(buffers := ReleaseAt(reset, s.particleBuffer) + [SpawnedBuffer(s.particleCount)],
       particleBuffer := Some(|s.buffers|),
       history := s.history + RespawnOps(),
       materialBuffer := if s.hasMaterial then s.renderBuffer else s.materialBuffer)
  }

  /** The args words after `UpdateClouds`: the quad's, with the copied append count as instance count. */
  function UpdatedArgs(appended: nat): (words: seq<uint32>)
    requires appended <= INT32_MAX
    ensures |words| == ARGS_LENGTH && words[INSTANCE_COUNT_SLOT] as int == appended
  {
    QuadArgs()[INSTANCE_COUNT_SLOT := appended as uint32]
  }

  /** `UpdateClouds` past its guard, when the update kernel appended `appended` render records. */
  function Updated(s: Snapshot, appended: nat): (t: Snapshot)
    requires s.Placed() && appended <= s.particleCount
    ensures t.Placed()
  {
    var r, a := s.renderBuffer.value, s.argsBuffer.value;
    s.(buffers := s.buffers[r := s.buffers[r].(counter := appended)][a := s.buffers[a].(words := UpdatedArgs(appended))],
       argsUploaded := true)
  }

  /** `OnDestroy`: every held buffer released. */
  function Destroyed(s: Snapshot): (t: Snapshot)
    requires s.Indexed()
    ensures t.Indexed()
  {
    s.(buffers := ReleaseAt(ReleaseAt(ReleaseAt(s.buffers, s.particleBuffer), s.renderBuffer), s.argsBuffer),
       history := s.history + (if s.Ready() then DestroyOps() else []),
       destroyed := true)
  }

  // ---- Each operation keeps the invariant ----

  /** The invariant implies that the held handles are live buffers of the right types. */
  lemma InvHeldLive(s: Snapshot)
    requires s.Inv() && !s.destroyed
    ensures HeldLive(s.buffers, s.particleBuffer, s.renderBuffer, s.argsBuffer)
  {
    if s.particleBuffer.Some? {
      assert s.Configured();
    }
  }

  lemma RecreatedBuffersShape(s: Snapshot)
    requires s.Indexed() && s.OnlyHeldLive()
    ensures var bufs, n := RecreatedBuffers(s.buffers, s.particleBuffer, s.renderBuffer, s.argsBuffer, s.particleCount), |s.buffers|;
      && (forall h | 0 <= h < n :: bufs[h] == s.buffers[h].(released := true))
      && bufs[n] == NewBuffer(s.particleCount, GetStride(), Default)
      && bufs[n + 1] == NewBuffer(s.particleCount, RenderStride(), Append)
      && bufs[n + 2] == NewBuffer(1, ArgsStride(), IndirectArguments)
  {
    var n := |s.buffers|;
    var b1 := ReleaseAt(s.buffers, s.particleBuffer) + [NewBuffer(s.particleCount, GetStride(), Default)];
    var b2 := ReleaseAt(b1, s.renderBuffer) + [NewBuffer(s.particleCount, RenderStride(), Append)];
    var bufs := ReleaseAt(b2, s.argsBuffer) + [NewBuffer(1, ArgsStride(), IndirectArguments)];
    assert bufs == RecreatedBuffers(s.buffers, s.particleBuffer, s.renderBuffer, s.argsBuffer, s.particleCount);
    forall h | 0 <= h < n
      ensures bufs[h] == s.buffers[h].(released := true)
    {
      assert s.buffers[h].released || s.Holds(h);
    }
  }

  lemma RecreatedConfigured(s: Snapshot)
    requires s.Inv() && !s.destroyed && s.hasShader
    ensures Recreated(s).Configured()
  {
    var t := Recreated(s);
    assert s.OnlyHeldLive();
    RecreatedBuffersShape(s);
    assert s.args[4] == 0;
    assert t.args == QuadArgs();
  }

  lemma RecreatedLive(s: Snapshot)
    requires s.Indexed() && s.OnlyHeldLive() && !s.destroyed
    ensures Recreated(s).LiveExactlyHeld()
    ensures forall h | 0 <= h < |s.buffers| :: Recreated(s).buffers[h].released
  {
    var t := Recreated(s);
    var n := |s.buffers|;
    RecreatedBuffersShape(s);
    forall h | 0 <= h < n
      ensures t.buffers[h].released
    {
      assert t.buffers[h] == s.buffers[h].(released := true);
    }
    forall h | 0 <= h < |t.buffers|
      ensures t.buffers[h].released <==> t.destroyed || !t.Holds(h)
    {
      if h < n {
        assert t.buffers[h].released && !t.Holds(h);
      } else if h == n {
        assert t.particleBuffer == Some(h) && t.buffers[h] == NewBuffer(s.particleCount, GetStride(), Default);
      } else if h == n + 1 {
        assert t.renderBuffer == Some(h) && t.buffers[h] == NewBuffer(s.particleCount, RenderStride(), Append);
      } else {
        assert t.argsBuffer == Some(h) && t.buffers[h] == NewBuffer(1, ArgsStride(), IndirectArguments);
      }
    }
  }

  /** Recreating the buffers releases every old one and leaves an initialised, consistent system. */
  lemma RecreatedInv(s: Snapshot)
    requires s.Inv() && !s.destroyed && s.hasShader
    ensures Recreated(s).Inv() && Recreated(s).Ready()
    ensures forall h | 0 <= h < |s.buffers| :: Recreated(s).buffers[h].released
  {
    assert s.OnlyHeldLive();
    RecreatedConfigured(s);
    RecreatedLive(s);
    RecreateBalanced(s.history, s.particleBuffer.Some?);
  }

  /** A spawn keeps the system consistent and leaves every particle record written. */
  lemma RespawnedInv(s: Snapshot)
    requires s.Inv() && s.Ready()
    ensures Respawned(s).Inv() && Respawned(s).Spawned() && Respawned(s).Ready()
    ensures Respawned(s).buffers[s.particleBuffer.value].released
  {
    var t := Respawned(s);
    var n := |s.buffers|;
    ThreadGroupsCoverExactly(s.particleCount);
    RespawnBalanced(s.history);
    assert t.buffers[n] == SpawnedBuffer(s.particleCount);
    assert t.Configured();
    forall h | 0 <= h < |t.buffers|
      ensures t.buffers[h].released <==> t.destroyed || !t.Holds(h)
    {
      if h < n {
        assert t.buffers[h].released == (s.buffers[h].released || h == s.particleBuffer.value);
      }
    }
  }

  /** An update keeps the system consistent and spawned, whatever the kernel appended. */
  lemma UpdatedInv(s: Snapshot, appended: nat)
    requires s.Inv() && s.Ready() && appended <= s.particleCount
    ensures Updated(s, appended).Inv() && Updated(s, appended).Ready()
    ensures s.Spawned() ==> Updated(s, appended).Spawned()
  {
    var t := Updated(s, appended);
    assert t.Configured();
    forall h | 0 <= h < |t.buffers|
      ensures t.buffers[h].released <==> t.destroyed || !t.Holds(h)
    {
      assert t.buffers[h].released == s.buffers[h].released;
    }
  }

  /** Teardown keeps the system consistent, and nothing stays live. */
  lemma DestroyedInv(s: Snapshot)
    requires s.Inv()
    ensures Destroyed(s).Inv() && !Destroyed(s).Ready()
    ensures forall h | 0 <= h < |Destroyed(s).buffers| :: Destroyed(s).buffers[h].released
    ensures s.Spawned() ==> Destroyed(s).Spawned()
  {
    var t := Destroyed(s);
    if s.Ready() {
      DestroyBalanced(s.history);
    } else {
      assert t.history == s.history + [] == s.history;
    }
    if s.particleBuffer.Some? {
      assert t.Configured();
    }
    forall h | 0 <= h < |t.buffers|
      ensures t.buffers[h].released
    {
      assert s.buffers[h].released || s.Holds(h);
    }
  }

  /** Teardown twice is teardown once: releasing a released buffer changes nothing. */
  lemma DestroyIdempotent(s: Snapshot)
    requires s.Inv()
    ensures Destroyed(Destroyed(s)) == Destroyed(s)
  {
    var t := Destroyed(s);
    DestroyedInv(s);
    assert ReleaseAt(t.buffers, t.particleBuffer) == t.buffers;
    assert ReleaseAt(ReleaseAt(t.buffers, t.particleBuffer), t.renderBuffer) == t.buffers;
    assert ReleaseAt(ReleaseAt(ReleaseAt(t.buffers, t.particleBuffer), t.renderBuffer), t.argsBuffer) == t.buffers;
    assert t.history + [] == t.history;
  }

  /** The five argument words of a draw, in buffer order. */
  function DrawWords(draw: DrawCall): seq<uint32>
  {
    [draw.indexCount, draw.instanceCount, draw.startIndex, draw.baseVertex, draw.startInstance]
  }

  /** The draw `DrawMeshInstancedIndirect` issues from the words of an args buffer. */
  function DrawOf(words: seq<uint32>): (draw: DrawCall)
    requires |words| == ARGS_LENGTH
    ensures DrawWords(draw) == words
  {
    DrawCall(words[0], words[1], words[2], words[3], words[4])
  }

  class CloudSystem {
    const particleCount: int
    /** `cloudComputeShader != null`, `cloudMaterial != null`, `player != null`. */
    const hasShader: bool
    const hasMaterial: bool
    const hasPlayer: bool
    /** The graphics device that holds this component's buffers. */
    const device: Device
    /** The host copy of the indirect draw arguments. */
    const args: array<uint32>

    /** Handles of the three buffers; None while the field is null. */
    var particleBuffer: Option<nat>
    var renderBuffer: Option<nat>
    var argsBuffer: Option<nat>
    var particleMesh: Option<Mesh>
    /** The buffer bound to the material's `_ParticleBuffer`. */
    var materialBuffer: Option<nat>
    var lastPlayerPos: Vec3

    /** `SetData(args)` has reached the current args buffer. */
    ghost var argsUploaded: bool
    /** `OnDestroy` has run. */
    ghost var destroyed: bool

    /** The invariant-relevant state as one value. */
    ghost function Snap(): Snapshot
      reads this, device, args
    {
      Snapshot(particleCount, hasShader, hasMaterial, particleBuffer, renderBuffer, argsBuffer,
               particleMesh, materialBuffer, device.buffers, device.history, args[..],
               argsUploaded, destroyed)
    }

    ghost predicate Initialized()
      reads this
    {
      particleBuffer.Some?
    }

    /** The object invariant, except that the particle buffer may still await its spawn dispatch. */
    ghost predicate Consistent()
      reads this, device, args
    {
      args.Length == ARGS_LENGTH && Snap().Inv()
    }

    /** The object invariant: additionally every particle record has been spawned. */
    ghost predicate Valid()
      reads this, device, args
    {
      Consistent() && Snap().Spawned()
    }

    /** What the engine's call order adds: the system is only initialised once the player was found. */
    ghost predicate Invariant()
      reads this, device, args
    {
      Valid() && (Initialized() ==> hasPlayer)
    }

    /** The live buffers of one type. */
    ghost function LiveBuffers(kind: BufferType): set<nat>
      reads this, device
    {
      set h | 0 <= h < |device.buffers| && !device.buffers[h].released && device.buffers[h].kind == kind
    }

    /** Before teardown there is exactly one live buffer of each type, the one the component holds. */
    lemma OneLiveBufferPerType()
      requires Consistent() && Initialized() && !destroyed
      ensures LiveBuffers(Default) == {particleBuffer.value}
      ensures LiveBuffers(Append) == {renderBuffer.value}
      ensures LiveBuffers(IndirectArguments) == {argsBuffer.value}
    {
      var s := Snap();
      assert s.Configured();
      forall h | h in LiveBuffers(Default) ensures h == particleBuffer.value {
        assert s.Holds(h);
      }
      forall h | h in LiveBuffers(Append) ensures h == renderBuffer.value {
        assert s.Holds(h);
      }
      forall h | h in LiveBuffers(IndirectArguments) ensures h == argsBuffer.value {
        assert s.Holds(h);
      }
      assert particleBuffer.value in LiveBuffers(Default);
      assert renderBuffer.value in LiveBuffers(Append);
      assert argsBuffer.value in LiveBuffers(IndirectArguments);
    }

    /** After teardown no buffer is live. */
    lemma NothingLiveAfterDestroy(kind: BufferType)
      requires Consistent() && destroyed
      ensures LiveBuffers(kind) == {}
    {
      var s := Snap();
      assert s.LiveExactlyHeld();
      assert forall h :: 0 <= h < |device.buffers| ==> device.buffers[h].released;
    }

    /** Field initialisers: `args` is five zeros, no buffer, no mesh. */
    constructor (particleCount: int, hasShader: bool, hasMaterial: bool, hasPlayer: bool)
      requires 0 < particleCount <= MAX_DISPATCH_RECORDS
      ensures Invariant() && fresh(args) && fresh(device) && !Initialized() && !destroyed
      ensures this.particleCount == particleCount && this.hasShader == hasShader
      ensures this.hasMaterial == hasMaterial && this.hasPlayer == hasPlayer
    {
      this.particleCount := particleCount;
      this.hasShader := hasShader;
      this.hasMaterial := hasMaterial;
      this.hasPlayer := hasPlayer;
      device := new Device();
      args := new uint32[ARGS_LENGTH](_ => 0);
      particleBuffer, renderBuffer, argsBuffer := None, None, None;
      particleMesh := None;
      materialBuffer := None;
      lastPlayerPos := Vec3(0.0, 0.0, 0.0);
      argsUploaded, destroyed := false, false;
      new;
      assert args[..] == [0, 0, 0, 0, 0];
      BalancedEmpty();
    }

    /** Builds the quad and fixes the index count, start index and base vertex words of `args`. */
    method CreateParticleMesh()
      requires args.Length == ARGS_LENGTH
      modifies this`particleMesh, args
      ensures particleMesh == Some(ParticleQuad())
      ensures args[..] == QuadArgs()[4 := old(args[4])]
    {
      var mesh := ParticleQuad();
      particleMesh := Some(mesh);
      args[0] := IndexCount(mesh) as uint32;
      args[1] := 0;
      args[2] := INDEX_START;
      args[3] := BASE_VERTEX;
    }

    /** The three buffer replacements at the head of `InitializeSystem`. */
    method RecreateBuffers()
      requires 0 < particleCount && HeldLive(device.buffers, particleBuffer, renderBuffer, argsBuffer)
      requires particleBuffer.Some? == renderBuffer.Some? == argsBuffer.Some?
      modifies this`particleBuffer, this`renderBuffer, this`argsBuffer, device
      ensures particleBuffer == Some(|old(device.buffers)|)
      ensures renderBuffer == Some(|old(device.buffers)| + 1)
      ensures argsBuffer == Some(|old(device.buffers)| + 2)
      ensures device.buffers ==
        RecreatedBuffers(old(device.buffers), old(particleBuffer), old(renderBuffer), old(argsBuffer), particleCount)
      ensures device.history == old(device.history) + RecreateOps(old(particleBuffer).Some?)
    {
      var p := ReplaceBuffer(device, particleBuffer, particleCount, GetStride(), Default);
      particleBuffer := Some(p);
      var r := ReplaceBuffer(device, renderBuffer, particleCount, RenderStride(), Append);
      renderBuffer := Some(r);
      var a := ReplaceBuffer(device, argsBuffer, 1, ArgsStride(), IndirectArguments);
      argsBuffer := Some(a);
    }

    /**
     * Releases and recreates the three buffers, builds the quad, binds the
     * material, remembers the player position and spawns. A missing shader
     * throws at the first `FindKernel`, before anything changes.
     */
    method InitializeSystem(playerPos: Vec3) returns (outcome: Outcome)
      requires Valid() && !destroyed
      modifies this, device, args
      ensures Valid() && !destroyed
      ensures outcome == NullReference <==> !hasShader
      ensures !hasShader ==> unchanged(this) && unchanged(device) && unchanged(args)
      ensures hasShader ==> Snap() == Respawned(Recreated(old(Snap())))
      ensures hasShader ==> lastPlayerPos == (if hasPlayer then playerPos else old(lastPlayerPos))
    {
      if !hasShader {
        return NullReference;
      }
      ghost var s := Snap();
      InvHeldLive(s);
      RecreatedInv(s);
      RecreateBuffers();
      PrepareDraw(playerPos);
      assert Snap() == Recreated(s);
      SpawnCloudParticles();
      outcome := Completed;
    }

    /** The steps of `InitializeSystem` between the buffer replacements and the spawn. */
    method PrepareDraw(playerPos: Vec3)
      requires args.Length == ARGS_LENGTH
      modifies this`argsUploaded, this`particleMesh, this`materialBuffer, this`lastPlayerPos, args
      ensures !argsUploaded && particleMesh == Some(ParticleQuad())
      ensures args[..] == QuadArgs()[4 := old(args[4])]
      ensures materialBuffer == if hasMaterial then renderBuffer else old(materialBuffer)
      ensures lastPlayerPos == if hasPlayer then playerPos else old(lastPlayerPos)
    {
      argsUploaded := false;
      CreateParticleMesh();
      if hasMaterial {
        materialBuffer := renderBuffer;
      }
      if hasPlayer {
        lastPlayerPos := playerPos;
      }
    }

    /**
     * Resets the render counter, releases the particle buffer, creates a new
     * one and dispatches the spawn kernel over it. Does nothing without a
     * shader or a particle buffer.
     */
    method SpawnCloudParticles()
      requires Consistent() && !destroyed
      modifies this, device
      ensures Valid() && !destroyed && Initialized() == old(Initialized())
      ensures !(hasShader && old(Initialized())) ==> unchanged(this) && unchanged(device)
      ensures hasShader && old(Initialized()) ==> Snap() == Respawned(old(Snap()))
      ensures lastPlayerPos == old(lastPlayerPos)
    {
      if !hasShader || particleBuffer.None? {
        return;
      }
      ghost var s := Snap();
      assert s.Configured();
      InvHeldLive(s);
      RespawnedInv(s);
      var p := RespawnOnDevice(device, particleBuffer.value, renderBuffer.value, particleCount);
      particleBuffer := Some(p);
      if hasMaterial {
        materialBuffer := renderBuffer;
      }
      assert Snap() == Respawned(s);
    }

    /** `OnValidate`: an inspector edit during play respawns the particles. */
    method OnValidate(isPlaying: bool)
      requires Valid() && !destroyed
      modifies this, device
      ensures Valid() && !destroyed
      ensures isPlaying && old(Initialized()) && hasShader ==> Snap() == Respawned(old(Snap()))
      ensures !(isPlaying && old(Initialized()) && hasShader) ==> unchanged(this) && unchanged(device)
      ensures lastPlayerPos == old(lastPlayerPos)
    {
      if isPlaying && particleBuffer.Some? {
        SpawnCloudParticles();
      }
    }

    /**
     * Per-frame simulation: remembers the player position, resets the append
     * counter, dispatches the update kernel and copies the number of appended
     * records into the instance-count word of the args buffer, around a
     * re-upload of the host args. Does nothing without a shader, a particle
     * buffer or a player.
     */
    method UpdateClouds(playerPos: Vec3) returns (appended: Option<nat>)
      requires Valid() && !destroyed
      modifies this`lastPlayerPos, this`argsUploaded, device, args
      ensures Valid() && !destroyed
      ensures appended.Some? <==> hasShader && Initialized() && hasPlayer
      ensures appended.None? ==> unchanged(this) && unchanged(device) && unchanged(args)
      ensures appended.Some? ==> (
        && appended.value <= particleCount
        && Snap() == Updated(old(Snap()), appended.value)
        && lastPlayerPos == playerPos)
    {
      if !hasShader || particleBuffer.None? || !hasPlayer {
        return None;
      }
      ghost var s := Snap();
      assert s.Configured();
      InvHeldLive(s);
      lastPlayerPos := playerPos;
      var count := SimulateFrame(device, args, particleBuffer.value, renderBuffer.value, argsBuffer.value, particleCount);
      argsUploaded := true;

      UpdatedInv(s, count);
      assert Snap() == Updated(s, count);
      appended := Some(count);
    }

    /** Issues the indirect draw from the args buffer when the material and the mesh exist. */
    method RenderClouds() returns (draw: Option<DrawCall>)
      requires Consistent() && !destroyed
      ensures draw.Some? <==> hasMaterial && Initialized()
      ensures draw.Some? ==> (
        && draw.value == DrawOf(device.buffers[argsBuffer.value].words)
        && draw.value.indexCount == (if argsUploaded then 6 else 0)
        && draw.value.instanceCount as int <= particleCount
        && draw.value.startIndex == 0 && draw.value.baseVertex == 0 && draw.value.startInstance == 0)
    {
      if hasMaterial && particleMesh.Some? {
        ghost var s := Snap();
        assert s.Configured();
        draw := Some(DrawOf(device.buffers[argsBuffer.value].words));
      } else {
        draw := None;
      }
    }

    /**
     * One frame: rebinds the render buffer to the material, simulates and
     * draws. Once initialised, the draw instances exactly the render records
     * the update kernel appended this frame.
     */
    method Update(playerPos: Vec3) returns (appended: Option<nat>, draw: Option<DrawCall>)
      requires Invariant() && !destroyed
      modifies this`lastPlayerPos, this`argsUploaded, this`materialBuffer, device, args
      ensures Invariant() && !destroyed
      ensures appended.Some? <==> Initialized()
      ensures appended.Some? ==> (
        && appended.value <= particleCount
        && device.buffers[renderBuffer.value].counter == appended.value)
      ensures draw.Some? <==> hasMaterial && Initialized()
      ensures draw.Some? ==> appended.Some? && draw.value == DrawCall(6, appended.value as uint32, 0, 0, 0)
      ensures appended.Some? ==> Snap() == Updated(old(Snap()), appended.value) && lastPlayerPos == playerPos
      ensures appended.None? ==> Snap() == old(Snap()) && lastPlayerPos == old(lastPlayerPos)
    {
      if hasMaterial && renderBuffer.Some? {
        ghost var s := Snap();
        assert s.Configured();
        materialBuffer := renderBuffer;
        assert Snap() == s;
      }
      appended := UpdateClouds(playerPos);
      draw := RenderClouds();
    }

    /** Releases every buffer the component holds. */
    method OnDestroy()
      requires Consistent()
      modifies this`destroyed, device
      ensures Consistent() && destroyed
      ensures Snap() == Destroyed(old(Snap()))
      ensures old(Snap().Spawned()) ==> Snap().Spawned()
    {
      ghost var s := Snap();
      if particleBuffer.Some? {
        assert s.Configured();
        if !destroyed {
          InvHeldLive(s);
        }
      }
      ReleaseHandles(device, particleBuffer, renderBuffer, argsBuffer);
      destroyed := true;
      DestroyedInv(s);
      assert Snap() == Destroyed(s);
    }

    /**
     * The engine's first callback: without a player nothing happens;
     * otherwise the system is initialised, which spawns once, and then
     * spawned a second time.
     */
    method Start(playerPos: Vec3) returns (outcome: Outcome)
      requires Invariant() && !Initialized() && !destroyed
      modifies this, device, args
      ensures Invariant() && !destroyed
      ensures outcome == NullReference <==> hasPlayer && !hasShader
      ensures Initialized() <==> hasPlayer && hasShader
      ensures !Initialized() ==> unchanged(this) && unchanged(device) && unchanged(args)
      ensures Initialized() ==> (
        && Snap() == Respawned(Respawned(Recreated(old(Snap()))))
        && lastPlayerPos == playerPos
        && device.history == RecreateOps(false) + RespawnOps() + RespawnOps()
        && LiveBuffers(Default) == {particleBuffer.value})
    {
      if !hasPlayer {
        return Completed;
      }
      outcome := InitializeSystem(playerPos);
      if outcome == NullReference {
        return;
      }
      SpawnCloudParticles();
      OneLiveBufferPerType();
    }
  }
}
