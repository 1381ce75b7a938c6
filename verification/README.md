# Machine room: hover selection, texture cache and cabinet registration

`MachineRoom` (src/MachineRoom.ts) is a three.js view of a data-centre room. It loads a glTF model of
racks and cabinets and swaps each top-level child's physically based material for an unlit one. It
registers the children whose material is named as a cabinet and highlights the cabinet under the
pointer. Three observer callbacks report entering a cabinet, moving over it and leaving it.

The model covers the sequential logic of that class, in the class's own form.

- `Room.MachineRoom` is a class with the fields `modelPath`, `maps` (the texture cache, a `map`),
  `cabinets` (a `seq`) and `curCabinet` (an `Option`). Its methods carry `modifies` clauses.
- Meshes and textures are objects, because their identity matters. A material is a value held in
  `Mesh.material`.
- The raycast result is an input: the nearest hit, or none. `Room.Hittable` states what
  `intersectObjects(cabinets)` can return: none, or a registered cabinet or a mesh below one
  (a mesh's `ancestors`).
- Callbacks are returned as the sequence of `Event`s a call fires, in order.
- A pure layer (`Picking`) defines the trace of one pick and of a sequence of picks. It proves the
  protocol the callbacks follow.

Modules:

- `Scene` (scene.dfy): the scene-graph slice the room touches, namely textures, materials, meshes
  and `setValues({map})`.
- `Strings` (strings.dfy): `String.prototype.includes`.
- `Picking` (picking.dfy): callback traces, the enter/leave protocol and the clip-space mapping.
- `Room` (machine_room.dfy): the room itself.
- `Scenarios` (scenarios.dfy):
  - a driver for a sequence of pointer moves;
  - loading a model;
  - the A, A, B, none pick sequence;
  - picking before any load;
  - both halves of the finding below.

Three behaviours of the code that the model keeps:

- **Registration tests the material's name.** The name destructured at src/MachineRoom.ts:93-94
  comes from the material, not the mesh. A mesh called `cabinet-02` with a material called `metal`
  is not registered (`Scenarios.LoadModel`).
- **A missing texture changes nothing.** `maps.get` of a name never cached yields `undefined`.
  three.js `Material.setValues` skips an `undefined` value with a console warning, so the material
  keeps its texture. It does not become blank (`Scene.SetMap`).
- **Only `cabinet-hover.jpg` is cached at construction** (src/MachineRoom.ts:81). `cabinet.jpg` is
  in the cache only if a loaded material's map carried that name (see Findings).

## Model

| member | source | states |
|---|---|---|
| Scene.Texture.Load | src/MachineRoom.ts:120 | `new TextureLoader().load(url)`: a new handle for `url` with three.js's defaults (flipped, clamped), before the room configures it |
| Scene.Texture.Decoded | src/MachineRoom.ts:89-94 | a texture the glTF loader made for a model image carries that image's name, which `changeMat` uses as the cache key |
| Scene.SetMap | src/MachineRoom.ts:145-147 | `setValues({map})` replaces only the map; with `undefined` the material is unchanged |
| Strings.Contains | src/MachineRoom.ts:96 | `includes` is true exactly when the marker occurs at some index of the name |
| Picking.Trace | src/MachineRoom.ts:160-173 | the four cases exactly: a hit on the previous cabinet fires `[Move]`; a hit on another mesh fires `[Move, Over(hit)]`; no hit after a cabinet fires `[Out]`; no hit and no cabinet fires nothing. Also, as separate facts: Move iff a hit, Over iff a new hit, Out iff leaving |
| Picking.TraceNested | src/MachineRoom.ts:160-173 | one call's callbacks never re-enter the cabinet already entered and leave only after an enter; afterwards the consumer's view is the hit |
| Picking.CallbacksNested | src/MachineRoom.ts:131-174 | over any sequence of calls the callbacks keep that protocol, and the consumer's view ends at the last hit |
| Picking.ClipPoint | src/MachineRoom.ts:136 | the clip-space point maps back to the pixel position: `x = (cx + 1) * width / 2`, `y = (1 - cy) * height / 2` |
| Picking.ClipCorners | src/MachineRoom.ts:136 | the top-left corner goes to (-1, 1), the bottom-right to (1, -1), the centre to (0, 0) |
| Room.Get | src/MachineRoom.ts:146 | `maps.get(key)` is defined exactly for cached names and is then the cached texture |
| Room.Selectable | src/MachineRoom.ts:96-97 | the definition of registration, built child by child in child order. Its own contract only bounds the result by the children; membership and order are stated by `SelectableMembers` and `SelectableAppend` |
| Room.SelectableMembers | src/MachineRoom.ts:92-99 | a child is registered iff its material's name contains `cabinet` |
| Room.SelectableAppend | src/MachineRoom.ts:92-99 | registration over a split of the children is the concatenation of the registrations, so child order is kept |
| Room.MachineRoom.constructor | src/MachineRoom.ts:54-82 | `modelPath` defaults to `./models/`; the cache holds exactly `cabinet-hover.jpg`, a new configured texture loaded from `modelPath`; no cabinets, none selected |
| Room.MachineRoom.CrtTexture | src/MachineRoom.ts:117-128 | returns the cached texture for the name. On a cached name nothing changes and the same handle returns (idempotence). Otherwise one new entry is added, loaded from `modelPath + name`, unflipped and repeating. Other entries are kept |
| Room.MachineRoom.ChangeMat | src/MachineRoom.ts:105-115 | with a map, the mesh gets an unlit material whose map is the cached texture of the map's name (cached now if new); without one, an unlit material of the original colour |
| Room.MachineRoom.RegisterChild | src/MachineRoom.ts:92-99 | one child: its unlit material, and it is appended to `cabinets` iff its material is named as a cabinet; the cache only grows |
| Room.MachineRoom.RegisterNext | src/MachineRoom.ts:92-99 | one turn of the loop extends the processed prefix (registrations, cache keys, unlit materials) by one child |
| Room.MachineRoom.LoadChildren | src/MachineRoom.ts:89-102 | `cabinets` becomes the old cabinets followed by the marked children in child order. Every child has the unlit material of its original one. The cache gains exactly the original map names. The selection is unchanged |
| Room.MachineRoom.SelectCabinet | src/MachineRoom.ts:131-174 | `curCabinet` becomes the hit. The callbacks are `Trace`. The previous cabinet gets `maps.get('cabinet.jpg')` only when it is not the hit; a new hit gets `maps.get('cabinet-hover.jpg')`; no other mesh changes. Requires the hit to be one `intersectObjects(cabinets)` can return. When `cabinet.jpg` is cached and no watched mesh but the current one held the hover texture before the call, the same holds afterwards |
| Room.MachineRoom.SelectCabinetRestoring | src/MachineRoom.ts:131-174 | as `SelectCabinet`, with the reset loading `cabinet.jpg` when needed; "only the current cabinet is highlighted" is kept whenever it held before the call, whether or not `cabinet.jpg` is cached |
| Room.MachineRoom.RestorePlain | src/MachineRoom.ts:143-148 | the corrected reset: the previous cabinet gets the cached plain texture, which is never the hover texture |
| Scenarios.Hover | src/MachineRoom.ts:131-174 | a sequence of calls fires `Callbacks` of the picks and ends selecting the last hit. The cache and `cabinets` are unchanged. Every hit must be one the ray cast can return. The one-highlight invariant, if it held at the start, is kept when `cabinet.jpg` is cached |
| Scenarios.LoadModel | src/MachineRoom.ts:89-115 | children `cabinet-01`, `rack-frame` and a `cabinet-02` mesh whose material is `metal`: only the first is registered, each gets its unlit material, and the cache holds the hover and plain textures |
| Scenarios.MarkedNames | src/MachineRoom.ts:96 | `cabinet-01` contains the marker, `rack-frame` and `metal` do not |
| Scenarios.RegisteredFirstOnly | src/MachineRoom.ts:92-99 | of three children only a marked first one is registered |
| Scenarios.PickSequence | src/MachineRoom.ts:160-173 | hits on A, A, B, none fire Move+Over(A), Move, Move+Over(B), Out, and end with no selection |
| Scenarios.PickBeforeLoad | src/MachineRoom.ts:131-174 | on a new room (default `./models/`), whatever the ray cast against the empty `cabinets` returns, the pick fires nothing and selects nothing |
| Scenarios.FourPicks | src/MachineRoom.ts:160-173 | the callbacks of hits A, A, B, none from no selection, and the empty selection they leave |
| Scenarios.StaleHighlight | src/MachineRoom.ts:143-148 | with cabinets that bring no `cabinet.jpg`, moving from A to B leaves both with the hover texture |
| Scenarios.RestoredHighlight | src/MachineRoom.ts:143-148 | with the corrected reset, the same moves leave A with the plain texture and only B highlighted |

## Left out

- Rendering, the `animate`/`requestAnimationFrame` loop (src/MachineRoom.ts:180-185), the camera,
  OrbitControls and renderer set-up (src/MachineRoom.ts:56-72): effects of three.js with nothing
  to state beyond "renders".
- Ray construction and intersection (src/MachineRoom.ts:138-140). This is geometry inside three.js.
  The nearest hit is an input of `SelectCabinet`. It is only constrained by `Room.Hittable`: none,
  or a registered cabinet or a mesh below one. Which of those is nearest is not modelled.
- Picking.ClipPoint: uses exact real arithmetic, not IEEE doubles. It requires a canvas of positive
  size; a zero-sized canvas gives NaN or infinities in the original.
- The asynchronous side of `GLTFLoader.load` and `TextureLoader.load`, including load failure.
  - The completion callback is `LoadChildren`, on the children as a given sequence of meshes.
  - A texture load is the allocation of a new handle.
  - Image decoding, and `scene.add(...children)` (src/MachineRoom.ts:101), are not modelled.
- The observer callbacks' bodies. They are user code, reported as `Event`s. They are assumed not to
  call back into the room.
- The shared module-level `raycaster` and `pointer` (src/MachineRoom.ts:24-26): a reuse of objects
  with no effect on behaviour.
- Sharing of one material object between meshes. The model holds a material as a value in its
  own mesh. That matches the top-level children, since `changeMat` gives each of them a new
  material. It does not match a hit below a cabinet. Such a mesh keeps the material the glTF loader
  made, and the loader uses one material object for all meshes with the same glTF material.
  Hovering such a mesh puts the hover map on all of them, and the reset (src/MachineRoom.ts:145-147)
  overwrites that shared material's own map.
- Room.MachineRoom.SelectCabinet: its "no other mesh changes" and one-highlight `ensures` do not
  cover a hit below a cabinet whose material is shared with other meshes (see the line above).
- Room.MachineRoom.SelectCabinetRestoring: the same limit on its one-highlight `ensures`.
- Scenarios.Hover: the same limit on its one-highlight `ensures`.
- A top-level child without a material. The load callback's destructuring at
  src/MachineRoom.ts:93-94 throws on such a child, for example a Group the glTF loader builds for a
  multi-primitive mesh or an empty node. The children before it are already converted and
  registered. The rest are not, and `scene.add(...children)` (src/MachineRoom.ts:101) never runs.
  `LoadChildren` takes only meshes, so this error path and its partial effect are not modelled.
- The lit material's other parameters (roughness, metalness and so on) and the unlit material's
  other defaults. Only the shading kind, name, colour and map are modelled.

## Findings

| source | as written | input that shows it | evidently intended | confidence | as-written member | corrected member |
|---|---|---|---|---|---|---|
| src/MachineRoom.ts:143-148 | the previous cabinet's highlight is reset with `maps.get('cabinet.jpg')`, but only `cabinet-hover.jpg` is cached at construction (src/MachineRoom.ts:81); when no loaded material's map is named `cabinet.jpg` the lookup is `undefined`, `setValues` skips it and the cabinet keeps the hover texture | a model whose cabinet materials are plain colours (or use another image name); move the pointer from cabinet A to cabinet B: both show `cabinet-hover.jpg` | leaving a cabinet takes its highlight away, so at most one cabinet is highlighted | medium, not executed | Scenarios.StaleHighlight | Room.MachineRoom.SelectCabinetRestoring |
