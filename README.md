# Cloud system and menu navigation, modelled in Dafny

This project models two stateful pieces of the game's Unity scripts.

**The cloud particle system's host side** (`CloudSystem`). The component owns three GPU compute buffers:
- a particle buffer of `particleCount` records of the explicitly laid-out 52-byte `CloudParticle`;
- an append buffer of 16-byte render records;
- a one-element indirect-arguments buffer.

It also owns the host array `args` of five `uint` words for `DrawMeshInstancedIndirect`.

- `InitializeSystem` releases each held buffer, then recreates it, builds the quad mesh, fills `args` and spawns.
- `SpawnCloudParticles` resets the render counter, releases and reallocates the particle buffer, then dispatches the spawn kernel.
- Each frame, `UpdateClouds` does the following:
  1. resets the append counter;
  2. dispatches the update kernel over `ceil(particleCount / 64)` thread groups;
  3. copies the counter into the instance-count word of the args buffer, around a re-upload of `args`.
- `RenderClouds` draws instanced from the args buffer.
- `OnDestroy` releases what is held.

**The menus' gamepad navigation** (`MainMenu`, `PauseMenu`):
- Both move a selection index with `(i + d + n) % n`.
- Both act on at most one gamepad press per frame, in a fixed priority order.
- The main menu keeps exactly one of its custom buttons active.
- The pause menu falls back to its quit button when it has no items, resets its selection when opened, and ties the game's pause flag to its open state.

Files:
- `wrappers.dfy`: `Option`.
- `gpu.dfy`: the engine's compute buffers as a device-owned table of buffer states, plus a log of every creation and of every release of a live buffer, in order.
- `cloud_layout.dfy`: the byte layouts and the thread-group arithmetic.
- `clouds.dfy`: the `CloudSystem` class, a value snapshot of its state, the transition each operation makes, and the lemmas that each transition keeps the invariant.
- `navigation.dfy`: C#'s `%`, the wrap-around index, and the priority of gamepad presses.
- `widgets.dfy`: the buttons, the selectables and the event system's selection.
- `main_menu.dfy`, `pause_menu.dfy`: the two menu classes.

Three engine-level entities are parameters of the model:
- a buffer is a handle into the `Device`'s table;
- the compute shader, the material and the player are three booleans ("the reference is not null");
- the gamepad is an `Option<Pad>` of the controls pressed this frame (`None` when no gamepad is connected).

## Model

| member | source | states |
|---|---|---|
| `CloudLayout.GetStride` | Assets/Scripts/clouds/CloudSystem.cs:80-83 | The stride 52 is a whole number of words and holds every `CloudParticle` field. |
| `CloudLayout.ParticleLayoutFits` | Assets/Scripts/clouds/CloudSystem.cs:62-83 | The seven `CloudParticle` fields at offsets 0, 16, 20, 24, 28, 32 and 48 are in increasing order and pairwise disjoint. They are word aligned and lie within the stride of 52. The last field ends exactly at 52. The engine accepts 52 as a stride. |
| `CloudLayout.ParticlePadding` | Assets/Scripts/clouds/CloudSystem.cs:65-76 | Both `Vector3` fields start on 16-byte boundaries. The fields cover 44 of the 52 bytes, so 8 bytes are padding. |
| `CloudLayout.RenderLayoutFits` | Assets/Scripts/clouds/CloudSystem.cs:116 | The render record (position at byte 0 and size at byte 12, an assumed split of the kernel's record) fills its `sizeof(float) * 4` stride exactly, with disjoint, word-aligned fields. |
| `CloudLayout.ArgsStride` | Assets/Scripts/clouds/CloudSystem.cs:120 | The args buffer's stride `args.Length * sizeof(uint)` holds exactly the five argument words. |
| `CloudLayout.CopyCountTargetsInstanceCount` | Assets/Scripts/clouds/CloudSystem.cs:221-226 | Byte offset `sizeof(uint)` is word 1, the instance-count slot, and that word lies inside the args buffer. |
| `CloudLayout.ThreadGroups` | Assets/Scripts/clouds/CloudSystem.cs:217 | `g * 64 >= particleCount`, and `(g - 1) * 64 < particleCount` for a positive count: the ceiling of particleCount / 64. |
| `CloudLayout.Covered` | Assets/Scripts/clouds/CloudSystem.cs:218 | A dispatch reaches at most the buffer's records and at most 64 per group, and it is limited by one of the two. |
| `CloudLayout.ThreadGroupsCoverExactly` | Assets/Scripts/clouds/CloudSystem.cs:307-308 | The dispatch reaches every record, and one group fewer would miss a record. |
| `CloudLayout.SingleRound` | Assets/Scripts/clouds/CloudSystem.cs:217 | The conversion of `particleCount` to `float` gives one of the two multiples of the binary32 spacing around the count. It is within half that spacing of the count, a tie goes to the even multiple, and it is exact below 2^24. |
| `CloudLayout.FloatThreadGroups` | Assets/Scripts/clouds/CloudSystem.cs:217 | `Mathf.CeilToInt(particleCount / 64f)` is the ceiling of the float-rounded count over 64. Its groups cover that count, and one group fewer would not. |
| `CloudLayout.FloatThreadGroupsExactBelow` | Assets/Scripts/clouds/CloudSystem.cs:307 | Up to 2^24 records, the float form equals the exact ceiling. |
| `CloudLayout.DispatchLimit` | Assets/Scripts/clouds/CloudSystem.cs:217 | A count needs at most 65535 groups exactly when it is at most 65535 * 64 records. For every such count, `Mathf.CeilToInt(particleCount / 64f)` equals the exact ceiling. |
| `CloudLayout.DispatchGroups` | Assets/Scripts/clouds/CloudSystem.cs:217-218 | For a count the engine can dispatch, the group count as written is the exact ceiling, within 65535 groups, and reaches every record. |
| `CloudLayout.FloatThreadGroupsMissRecord` | Assets/Scripts/clouds/CloudSystem.cs:217 | For 2^24 + 1 records, the float form asks for fewer threads than there are records. Both forms ask for more than 65535 groups there. |
| `Clouds.ParticleQuad` | Assets/Scripts/clouds/CloudSystem.cs:150-172 | The quad has four corners and two triangles' worth of indices. |
| `Clouds.ParticleQuadWellFormed` | Assets/Scripts/clouds/CloudSystem.cs:168 | The quad's 6 triangle indices form two triangles, and every index lies in `[0, 4)`. Every corner is used, and the two triangles share exactly the diagonal between corners 1 and 2. |
| `Clouds.QuadArgs` | Assets/Scripts/clouds/CloudSystem.cs:175-178 | Once the quad exists, `args` holds 5 words. Word 0 is the quad's index count, 6, and the instance count is 0. |
| `Clouds.RecreateBalanced` | Assets/Scripts/clouds/CloudSystem.cs:111-120 | The order release, then create, per buffer never has two live buffers of one type. It leaves exactly one live buffer of each type, whether or not buffers existed before. |
| `Clouds.RespawnBalanced` | Assets/Scripts/clouds/CloudSystem.cs:288-289 | Releasing the particle buffer before allocating its replacement keeps exactly one live particle buffer at every step. |
| `Clouds.DestroyBalanced` | Assets/Scripts/clouds/CloudSystem.cs:240-242 | Teardown of a live system leaves zero live buffers of each type. |
| `Clouds.StartLeavesOneParticleBuffer` | Assets/Scripts/clouds/CloudSystem.cs:100-101 | The double spawn of `Start` creates three particle buffers and releases two, leaving exactly one live, and the history stays balanced. |
| `Clouds.ReplaceBuffer` | Assets/Scripts/clouds/CloudSystem.cs:111-112 | The held buffer, if any, is released, then a new buffer of the given shape is appended. The history records exactly these events in this order. |
| `Clouds.DispatchSpawn` | Assets/Scripts/clouds/CloudSystem.cs:307-308 | The spawn kernel writes the records its groups reach and changes nothing else. |
| `Clouds.DispatchUpdate` | Assets/Scripts/clouds/CloudSystem.cs:216-218 | The update kernel advances only the render buffer's append counter, by at most the number of records its groups reach. |
| `Clouds.RespawnOnDevice` | Assets/Scripts/clouds/CloudSystem.cs:282-308 | The device state after the counter reset, the release and reallocation, and the spawn dispatch, with history `[Released(Default), Created(Default)]`. The dispatch uses the float group count as written, and every record is written. |
| `Clouds.ResetAndDispatch` | Assets/Scripts/clouds/CloudSystem.cs:200-218 | After the counter reset and the update dispatch, only the render counter has changed. It now holds this frame's appended count, which is at most `particleCount`. |
| `Clouds.CopyArgs` | Assets/Scripts/clouds/CloudSystem.cs:221-226 | After the copy, the upload of `args` with slot 1 zeroed, and the second copy, only the args buffer has changed. It holds the quad's words with the render counter as instance count. Host `args` are unchanged. |
| `Clouds.SimulateFrame` | Assets/Scripts/clouds/CloudSystem.cs:199-226 | The dispatch uses the float group count as written. After the frame, the render counter equals this frame's appended count, which is at most `particleCount`. The args buffer holds the quad's words with that count as instance count, never a stale value. Host `args` are unchanged. |
| `Clouds.ReleaseHandles` | Assets/Scripts/clouds/CloudSystem.cs:240-242 | Exactly the non-null buffers are released. A live system logs three releases; a torn-down one logs none. |
| `Clouds.UpdatedArgs` | Assets/Scripts/clouds/CloudSystem.cs:221-226 | The uploaded args words have the copied count in slot 1. |
| `Clouds.Recreated` | Assets/Scripts/clouds/CloudSystem.cs:104-135 | The state after `InitializeSystem`'s replacements, mesh, args and material binding. It holds all three buffers. |
| `Clouds.Respawned` | Assets/Scripts/clouds/CloudSystem.cs:282-313 | The state after a spawn on an initialised system. It still holds all three buffers. |
| `Clouds.Updated` | Assets/Scripts/clouds/CloudSystem.cs:199-226 | The state after `UpdateClouds` past its guard. It still holds all three buffers. |
| `Clouds.Destroyed` | Assets/Scripts/clouds/CloudSystem.cs:238-243 | The state after teardown. The handles stay in range. |
| `Clouds.RecreatedBuffersShape` | Assets/Scripts/clouds/CloudSystem.cs:111-120 | After recreation, every old buffer is released. The three new buffers have capacity `particleCount` with stride 52, capacity `particleCount` with stride 16, and 1 element of stride 20. |
| `Clouds.RecreatedConfigured` | Assets/Scripts/clouds/CloudSystem.cs:104-129 | Recreation leaves distinct buffers of the right shapes and types, the quad mesh, the quad's args and the material bound to the render buffer. |
| `Clouds.RecreatedLive` | Assets/Scripts/clouds/CloudSystem.cs:111-120 | After recreation, a buffer is live exactly when the component holds it. |
| `Clouds.RecreatedInv` | Assets/Scripts/clouds/CloudSystem.cs:104-135 | Recreation keeps the whole invariant, initialises the system and releases every earlier buffer. |
| `Clouds.RespawnedInv` | Assets/Scripts/clouds/CloudSystem.cs:275-308 | A spawn keeps the invariant, releases the old particle buffer and leaves every particle record written. |
| `Clouds.UpdatedInv` | Assets/Scripts/clouds/CloudSystem.cs:191-226 | A frame keeps the invariant for every count the kernel can append. |
| `Clouds.DestroyedInv` | Assets/Scripts/clouds/CloudSystem.cs:238-243 | Teardown keeps the invariant and leaves every buffer released. |
| `Clouds.DestroyIdempotent` | Assets/Scripts/clouds/CloudSystem.cs:238-243 | A second teardown changes nothing, because releasing a released buffer is a no-op. |
| `Clouds.DrawOf` | Assets/Scripts/clouds/CloudSystem.cs:233-234 | The draw's five arguments are the args buffer's words, in buffer order. |
| `Clouds.CloudSystem.OneLiveBufferPerType` | Assets/Scripts/clouds/CloudSystem.cs:111-120 | Before teardown, an initialised system has exactly one live buffer of each type: the one it holds. |
| `Clouds.CloudSystem.NothingLiveAfterDestroy` | Assets/Scripts/clouds/CloudSystem.cs:238-243 | After teardown, no buffer is live. |
| `Clouds.CloudSystem.constructor` | Assets/Scripts/clouds/CloudSystem.cs:87-88 | Starts with `args` all zeros, no buffers and no mesh, and the invariant holds. The count is positive and one dispatch can reach every record. |
| `Clouds.CloudSystem.CreateParticleMesh` | Assets/Scripts/clouds/CloudSystem.cs:148-179 | Builds the quad and sets args words 0 to 3 to 6, 0, 0, 0. Word 4 is untouched. |
| `Clouds.CloudSystem.RecreateBuffers` | Assets/Scripts/clouds/CloudSystem.cs:110-120 | The three replacements as new handles, with the buffer table and history given by the transition. |
| `Clouds.CloudSystem.InitializeSystem` | Assets/Scripts/clouds/CloudSystem.cs:104-138 | Without a shader, the first `FindKernel` throws and nothing changes. Otherwise the state is the recreation followed by one spawn, and the player position is remembered. |
| `Clouds.CloudSystem.PrepareDraw` | Assets/Scripts/clouds/CloudSystem.cs:122-134 | Sets the quad and its args, binds the material if one is set, and stores the player position if there is a player. |
| `Clouds.CloudSystem.SpawnCloudParticles` | Assets/Scripts/clouds/CloudSystem.cs:275-325 | With no shader or no particle buffer, nothing changes. Otherwise the new state is the respawn transition and every record is spawned. |
| `Clouds.CloudSystem.OnValidate` | Assets/Scripts/clouds/CloudSystem.cs:140-146 | Respawns only while playing with a live particle buffer and a shader. Otherwise nothing changes. The player position is never touched. |
| `Clouds.CloudSystem.UpdateClouds` | Assets/Scripts/clouds/CloudSystem.cs:191-227 | With no shader, particle buffer or player, nothing changes, including before initialisation. Otherwise the appended count is at most `particleCount`, the new state is the update transition and the player position is stored. |
| `Clouds.CloudSystem.RenderClouds` | Assets/Scripts/clouds/CloudSystem.cs:229-236 | Draws exactly when the material and the mesh exist. The draw reads the args buffer: 6 indices once uploaded, at most `particleCount` instances, the other words 0. |
| `Clouds.CloudSystem.Update` | Assets/Scripts/clouds/CloudSystem.cs:181-189 | Once initialised, the state is the update transition and the player position is stored. The frame's draw instances exactly the records the update kernel appended this frame, a count at most `particleCount`. Before initialisation, nothing changes. |
| `Clouds.CloudSystem.OnDestroy` | Assets/Scripts/clouds/CloudSystem.cs:238-243 | Releases exactly the held buffers and keeps the invariant. |
| `Clouds.CloudSystem.Start` | Assets/Scripts/clouds/CloudSystem.cs:93-102 | Without a player, nothing happens. With a player but no shader, the first `FindKernel` throws and nothing changes. Otherwise the system is recreated and spawned twice. The history is exactly those events, and exactly one particle buffer is live. |
| `Navigation.CsRem` | Assets/Scripts/Menu/MainMenu.cs:71 | C#'s remainder has the sign of the dividend and is smaller in size than the divisor. On a non-negative dividend it equals Dafny's `%`. |
| `Navigation.Wrap` | Assets/Scripts/Menu/MainMenu.cs:71 | For `0 <= i < n` and `d` in {-1, 1}, the new index is in `[0, n)`. Up from 0 goes to `n - 1`, down from `n - 1` goes to 0, and every other step moves by one. |
| `Navigation.WrapDownUp` | Assets/Scripts/Menu/MainMenu.cs:71 | Down then up restores the index. |
| `Navigation.WrapUpDown` | Assets/Scripts/Menu/PauseMenu.cs:51 | Up then down restores the index. |
| `Navigation.StepsDown` | Assets/Scripts/Menu/PauseMenu.cs:51 | Repeated down-presses stay in range. |
| `Navigation.StepsDownShift` | Assets/Scripts/Menu/MainMenu.cs:59 | `k <= n` down-presses move `k` items on, wrapping past the end. |
| `Navigation.FullCycle` | Assets/Scripts/Menu/MainMenu.cs:68-73 | `n` down-presses return to the start, and no smaller positive number of presses does. |
| `Navigation.FirstPressed` | Assets/Scripts/Menu/MainMenu.cs:50-65 | The chosen control was pressed and is in the order. No control is chosen exactly when no gamepad is connected or none of the order's controls was pressed. |
| `Navigation.FirstPressedIsFirst` | Assets/Scripts/Menu/MainMenu.cs:53-64 | Every control ahead of the chosen one in the order was not pressed. |
| `Navigation.FirstPressedAppend` | Assets/Scripts/Menu/PauseMenu.cs:42-45 | Appending a control to the chain only decides frames the shorter chain left undecided. |
| `Navigation.PauseExtendsMain` | Assets/Scripts/Menu/PauseMenu.cs:27-45 | The pause menu acts on the same frames as the main menu, plus the frames where only east was pressed. |
| `Navigation.IndexAfter` | Assets/Scripts/Menu/PauseMenu.cs:27-34 | The index after a frame stays in range, and it is unchanged when there are no items. |
| `Navigation.MainMenuChain` | Assets/Scripts/Menu/MainMenu.cs:53-64 | The main menu's `if`/`else if` chain (up, down, south) picks the first pressed control. |
| `Navigation.PauseMenuChain` | Assets/Scripts/Menu/PauseMenu.cs:27-45 | The pause menu's chain (up, down, south, east) picks the first pressed control. |
| `MainMenu.MainMenu.constructor` | Assets/Scripts/Menu/MainMenu.cs:23-24 | Starts with no buttons and index 0. |
| `MainMenu.MainMenu.ExactlyOneActive` | Assets/Scripts/Menu/MainMenu.cs:70-72 | In a valid menu with buttons, the set of active buttons is exactly the current one. |
| `MainMenu.MainMenu.Start` | Assets/Scripts/Menu/MainMenu.cs:33-37 | Takes the children as `buttons` with index 0 and activates button 0 if there is one. No other button changes. If all children start inactive, exactly button 0 is active afterwards. |
| `MainMenu.MainMenu.NavigateButtons` | Assets/Scripts/Menu/MainMenu.cs:68-73 | With no buttons, the array access throws and nothing changes. Otherwise the index becomes `Wrap(i, d, n)`, exactly the new current button is active, and no click happens. |
| `MainMenu.MainMenu.HandleGamepadInput` | Assets/Scripts/Menu/MainMenu.cs:48-66 | At most one action per frame, chosen by up > down > south. The index moves as the choice says, south clicks exactly the current button, and with no buttons any action throws. |
| `MainMenu.MainMenu.Update` | Assets/Scripts/Menu/MainMenu.cs:40-46 | Outside the main-menu state, nothing changes. In it, the frame is handled as `HandleGamepadInput`. |
| `PauseMenu.PauseMenu.constructor` | Assets/Scripts/Menu/PauseMenu.cs:7-9 | The scene's items and quit button, index 0, closed and not paused. The quit button is a `Button`, as its declared type says. |
| `PauseMenu.PauseMenu.Start` | Assets/Scripts/Menu/PauseMenu.cs:11-18 | A null or empty item list becomes `[quitButton]`, and a non-empty list is kept. Afterwards the items are non-empty and the index is in range. On the fallback list, south therefore clicks the quit button. |
| `PauseMenu.PauseMenu.NavigateButtons` | Assets/Scripts/Menu/PauseMenu.cs:49-53 | The index becomes `Wrap(i, d, n)` and the new item is selected. Nothing else changes. |
| `PauseMenu.PauseMenu.OnMenuOpened` | Assets/Scripts/Menu/PauseMenu.cs:67-78 | Sets the pause flag, resets the index to 0 and selects item 0 if there is one. |
| `PauseMenu.PauseMenu.OnMenuClosed` | Assets/Scripts/Menu/PauseMenu.cs:80-84 | Clears the pause flag and changes nothing else. |
| `PauseMenu.PauseMenu.OpenMenu` | Assets/Scripts/Menu/PauseMenu.cs:67-78 | Open, paused, index 0, item 0 selected. |
| `PauseMenu.PauseMenu.CloseMenu` | Assets/Scripts/Menu/PauseMenu.cs:80-84 | Closed and not paused. Index and items are unchanged. |
| `PauseMenu.PauseMenu.TogglePauseMenu` | Assets/Scripts/Menu/PauseMenu.cs:55-65 | Flips the open state and keeps pause equal to open. Opening resets the selection to item 0. |
| `PauseMenu.PauseMenu.Update` | Assets/Scripts/Menu/PauseMenu.cs:20-47 | While closed, nothing changes. While open, at most one action per frame, chosen by up > down > south > east. South clicks the selected item only if it is a `Button`, and east closes the menu and unpauses. |

The component methods in `widgets.dfy` model `Assets/Scripts/Menu/UI Extras/Components/CustomButton.cs`, lines 72-87:
- `Widgets.CustomButton.SetAsDefaultActive` sets the active flag;
- `Widgets.CustomButton.SetAsInactive` clears it;
- `Widgets.CustomButton.OnGamepadButtonClick` invokes `onClick` once.

`Widgets.Selectable.Select` and `Widgets.Selectable.Click` are the engine's `Select()` and `onClick.Invoke()` as called at PauseMenu.cs:52 (and :76) and PauseMenu.cs:39. They change only the state their `ensures` name.

## Left out

- **Compute kernels.** The HLSL is not part of this model. The spawn kernel only marks the records it reaches as written. The update kernel only advances the append counter, by an unspecified amount no larger than the records it reaches. Particle contents, noise placement, collision, shrinking and pulsing are not modelled.
- **Velocity and other float state.** The player velocity `(pos - last) / Time.deltaTime` at CloudSystem.cs:196 has no guard against a zero `deltaTime` in the code, and none is claimed here. The velocity, `.normalized`, `.magnitude`, the fixed draw `Bounds` and all float shader parameters are left out. Only `lastPlayerPos := player.position` is kept, as an opaque value.
- **Diagnostics.** The `GetData` readbacks and `Debug.Log` output at CloudSystem.cs:319-324 are left out, and so is the gizmo drawing at :245-272. In particular, the readback of 10 records would be refused by the engine for `particleCount < 10`, and that exception path is not modelled.
- **Inspector edits.** `particleCount` is a constant of the model, so an edit during play that changes it before `OnValidate` is not covered. A count that is zero or negative is excluded by the constructor; the engine's exception for a non-positive buffer count is not modelled.
- **The engine's dispatch limit.** The engine refuses a `Dispatch` of more than 65535 thread groups per dimension. With 64 threads per group, that caps `particleCount` at 4,194,240 records. The model requires the count to be at most that, and the refused dispatch for larger counts is not modelled. Below the cap, the float group count as written equals the exact ceiling (`CloudLayout.DispatchLimit`).
- **Zero-filled new buffers.** `Gpu.NewBuffer` starts a buffer's words at zero. The engine does not promise this, so the instance words `RenderClouds` reads before the first upload of `args` are an assumption of the model. Once `args` is uploaded, the words are the ones the model states.
- **32-bit index overflow.** `index + direction + length` at MainMenu.cs:71 and PauseMenu.cs:51 is computed on unbounded integers. In C# it would overflow only for a menu of close to `int.MaxValue` items, and that case is not modelled.
- **Fixed scene references.** The compute shader, the material and the player are booleans fixed for the component's lifetime. A player destroyed during play, after which `UpdateClouds` returns early at CloudSystem.cs:193 while `RenderClouds` keeps drawing from the last args, is not modelled.
- **Teardown.** The per-frame methods of `CloudSystem` require that `OnDestroy` has not run; the engine calls none of them afterwards.
- **The engine's `Start` order.** `Start` of each component runs once before its first `Update`. The models' `Start` methods require the field initialisers' values.
- **The `Menu` base class and `GameController`.** Neither is part of this model. `IsOpen` and the pause flag are plain fields. `OpenMenu` and `CloseMenu` are modelled as setting `IsOpen` and then calling the menu's hook. The main menu's game state is a boolean parameter.
- **Main menu extras.** The blur coroutine `AnimateFadeOutBlur` (float easing over frames), `OnMenuOpened`/`OnMenuClosed`, `LateUpdate`, `PlayGame`, `Quit` and `OnDestroy` of the main menu are left out. So are the listeners that a button click runs: a click is counted, not executed. Label text and pointer events of `CustomButton` are not modelled either.
- **Null menu fields.** `MainMenu.buttons` before `Start` is taken to be empty rather than null.
- `MainMenu.MainMenu.Start`: the children are required to be distinct components, which `GetComponentsInChildren` guarantees.
- **Other scripts.** The cloud texture generator (float noise and PNG output), the inspector editor and the player input handler are not part of this model.

## Findings

| source | as written | input that shows it | evidently intended | confidence | as-written member | corrected member |
|---|---|---|---|---|---|---|
| Assets/Scripts/clouds/CloudSystem.cs:217 | `Mathf.CeilToInt(particleCount / 64f)` rounds the count to a `float` before dividing (also :307). | `particleCount = 16777217` (2^24 + 1) rounds to 16777216, so the expression asks for 262144 groups, one thread short of the records. That is more than the 65535 groups the engine dispatches, so the engine refuses the dispatch and the shortfall never shows. Below the limit the two forms agree (`CloudLayout.DispatchLimit`). The rounding is a latent defect, not an observable one. | `ceil(particleCount / 64)` in integer arithmetic, so every record has a thread. | not executed; low | `CloudLayout.FloatThreadGroupsMissRecord` | `CloudLayout.ThreadGroupsCoverExactly` |
