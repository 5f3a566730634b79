# Charset: verified model of the self-contained game logic

This project models eight small parts of the Charset and SimpleLogic
Minecraft mods in Dafny and proves what each promises:

- **Mechanical axle** (`Axle`, `axle.dfy`). The tile has two lazily created
  half-edges ("sides"), one per direction along its axis. Each side stores
  the last speed and torque it received. A side refuses power while the
  opposite side carries torque. It passes every force on through the axle:
  the side created for face `f` forwards it to the tile at the opposite end
  (`pos.offset(f.getOpposite())`), queried on face `f`. It reacts to a change of value with a block update and with a
  neighbour notification when the new torque is 0.
- **Finite water** (`FiniteWater`, `finite_water.dfy`). This is the decision
  whether a new water source may form: only in ocean or river biomes, only
  at or below sea level, and only under a column that reads water, then air.
- **Item-stack pile** (`Stacks`, `stacks.dfy`). It covers the layer height
  of the bounding box and the drops of the pile: materials are counted and
  then cut into stacks no larger than the item allows. It also covers the
  harvest by hand, one item per take under a per-player cooldown of one
  tick, and the creative break.
- **Wire recipe ingredient** (`RecipeWire`, `recipe_wire.dfy`). Item metadata
  is `(providerId << 1) | freestanding`. A three-valued flag decides
  whether the freestanding bit is compared.
- **Render arithmetic** (`RenderUtils`, `render_utils.dfy`). It covers:
  - the 12-bit selection masks of a block's edges;
  - the per-byte product of two ARGB colours;
  - the average colour of a sprite in its three sampling modes.
- **Gate textures** (`GateTextures`, `gate_textures.dfy`). These are the
  per-pixel mask operation and the in-place composite of a gate's base
  texture over the underlay texture.
- **Gate texture bookkeeping** (`GateStitch`, `gate_stitch.dfy`). These are
  the four steps of the texture-stitch handler for one gate:
  1. colour masks;
  2. texture set;
  3. mask and composite sprites;
  4. plain sprites.
- **Redstone emitter persistence** (`RedstoneStorage`,
  `redstone_storage.dfy`). It reads and writes the signal under the NBT
  key "s".
- **Gate registry** (`GateRegistry`, `gate_registry.dfy`). It covers the
  configuration-gated registration of gate logics in a bidirectional
  name/class map with their definition files and unlocalized names, and the
  collection of gate item stacks.

`JavaBase` (`java_base.dfy`) holds the shared vocabulary:
- `Option` and `Result`;
- Java `int` as a 32-bit pattern, with its wrap-around;
- byte lanes;
- decimal and hexadecimal text with round-trip lemmas.

### Modelling conventions

- **Java `int` colours and pixels** are their unsigned 32-bit pattern (`u32`),
  so -1 is `0xFFFF_FFFF`. Byte `k` is `(c / 256^k) % 256`. Selection masks,
  which the source builds with shifts and ORs, are `bv32`.
- **Doubles** (axle speed and torque) are `real`. The source only compares
  them and takes `max`.
- **The world** becomes explicit state:
  - calls the axle makes into the world are an event log;
  - item entities spawned by the pile are a list in a `World` object;
  - the texture atlas is a `TextureMap` recording its sprite entries and
    registrations;
  - a consumer's presence and acceptance, biome and block queries, and the
    configuration are inputs.
- **Hash-ordered iterations** visit their elements in an arbitrary order,
  chosen with `:|`. These are the drop map's keys, the colour-mask maps and
  the texture set. Every contract holds for every order.
- **Exceptions.** The code throws where a language-neutral reading might
  expect an error value. This model follows the code: a colour mask that is
  not a hexadecimal `int` ends the stitch handler at that layer (an `Err`
  carrying the layer's position). Registering a class under a second name
  makes the bidirectional map throw before anything is changed
  (`ClassAlreadyRegistered`).

## Model

| member | source | states |
|---|---|---|
| `Axle.SetForceEvents` | src/main/java/pl/asie/charset/module/power/mechanical/TileAxle.java:71-87 | a present consumer always receives the force, first; unchanged values cause nothing else; a neighbour notification happens exactly when the values changed and the new torque is 0; a block update happens exactly when they changed |
| `Axle.AxleSide.IsAcceptingPower` | src/main/java/pl/asie/charset/module/power/mechanical/TileAxle.java:61-69 | false whenever the opposite side exists with nonzero torque; otherwise true exactly when a consumer is on the facing and accepts power |
| `Axle.AxleSide.SetForce` | src/main/java/pl/asie/charset/module/power/mechanical/TileAxle.java:72-87 | afterwards the side holds (speed, torque), and the event log grows by exactly `SetForceEvents`; the tile stays driven from at most one side when the driver respects the refusal; served also for a side the tile no longer holds, as a neighbour may keep one after `updateContainingBlockInfo` |
| `Axle.AxleSide.OnNeighborChanged` | src/main/java/pl/asie/charset/module/power/mechanical/TileAxle.java:89-92 | the side is reset to zero force with the events of `setForce(0, 0)` |
| `Axle.TileAxle.LoadMaterialFromNbt` | src/main/java/pl/asie/charset/module/power/mechanical/TileAxle.java:106-114 | the material changes, and true is returned, exactly when a material was found that differs from the current one |
| `Axle.TileAxle.OnNeighborChanged` | src/main/java/pl/asie/charset/module/power/mechanical/TileAxle.java:120-126 | every existing side ends with speed and torque 0; absent sides stay absent; the log holds side 0's reset events, then side 1's |
| `Axle.TileAxle.ResetNext` | src/main/java/pl/asie/charset/module/power/mechanical/TileAxle.java:121-125 | one turn of the loop in terms of its invariant: after k turns the first k sides are reset with their events logged in index order and the rest keep their force; the turn makes that k + 1 |
| `Axle.TileAxle.ResetSide` | src/main/java/pl/asie/charset/module/power/mechanical/TileAxle.java:121-125 | one turn of that loop: side k, if present, is reset; the other side's force is unchanged |
| `Axle.TileAxle.GetRotSpeedClient` | src/main/java/pl/asie/charset/module/power/mechanical/TileAxle.java:128-136 | on the client, the synced value; on the server, the larger of the two sides' speeds, a missing side counting as 0 |
| `Axle.TileAxle.HasCapability` | src/main/java/pl/asie/charset/module/power/mechanical/TileAxle.java:153-160 | a mechanical capability exists exactly on a non-null face on the block's axis; other capabilities are the superclass's answer |
| `Axle.SideIndex` | src/main/java/pl/asie/charset/module/power/mechanical/TileAxle.java:168-169 | the index of a facing on the axis: 1 exactly for the positive direction, 0 for the negative |
| `Axle.TileAxle.GetCapability` | src/main/java/pl/asie/charset/module/power/mechanical/TileAxle.java:164-180 | a side exactly where `hasCapability` is true; the positive direction gives index 1, the negative index 0; an existing side is returned as is, a missing one is created fresh with zero force; a mechanical capability on an off-axis or missing face gives null (`NoCapability`) and changes nothing; other capabilities go to the superclass |
| `Axle.RepeatedLookupIsStable` | src/main/java/pl/asie/charset/module/power/mechanical/TileAxle.java:170-173 | two lookups of the same face, through either mechanical capability, return the same side object |
| `Axle.TileAxle.UpdateContainingBlockInfo` | src/main/java/pl/asie/charset/module/power/mechanical/TileAxle.java:183-186 | both sides are discarded |
| `FiniteWater.ScanConnected` | src/main/java/pl/asie/charset/tweaks/TweakFiniteWater.java:90-110 | definition (no contract of its own): the column scan, which before air accepts water or switches to air, and after air accepts only air; characterized by `ScanMeansWaterThenAir` |
| `FiniteWater.Decision` | src/main/java/pl/asie/charset/tweaks/TweakFiniteWater.java:83-121 | definition (no contract of its own): no result for a non-water state; below or at sea level in ocean or river, no result when the scan connects and DENY otherwise; DENY everywhere else; characterized by the lemmas below |
| `FiniteWater.OnFluidSource` | src/main/java/pl/asie/charset/tweaks/TweakFiniteWater.java:83-121 | the handler's loop reaches the same result as the decision function, for every column |
| `FiniteWater.ScanAfterAir` | src/main/java/pl/asie/charset/tweaks/TweakFiniteWater.java:95-100 | once an air block has been passed, the scan succeeds exactly when every block left is air |
| `FiniteWater.ScanMeansWaterThenAir` | src/main/java/pl/asie/charset/tweaks/TweakFiniteWater.java:92-110 | the scan accepts exactly the columns that read water blocks, then air blocks (both runs possibly empty) |
| `FiniteWater.NonWaterUntouched` | src/main/java/pl/asie/charset/tweaks/TweakFiniteWater.java:84 | an event whose state is not water gets no result |
| `FiniteWater.WrongPlaceDenied` | src/main/java/pl/asie/charset/tweaks/TweakFiniteWater.java:87-118 | water above sea level, or in a biome that is neither ocean nor river, is denied |
| `FiniteWater.AllowedIffConnected` | src/main/java/pl/asie/charset/tweaks/TweakFiniteWater.java:89-113 | in an ocean or river at or below sea level, the source is allowed exactly when heights y+1 to sea level read water, then air |
| `FiniteWater.DisconnectionDenies` | src/main/java/pl/asie/charset/tweaks/TweakFiniteWater.java:95-107 | a block that is neither air nor water in the column denies, and so does a non-air block above an air block |
| `FiniteWater.AtSeaLevelAllowed` | src/main/java/pl/asie/charset/tweaks/TweakFiniteWater.java:92-113 | at sea level the scan is empty and the source is allowed |
| `FiniteWater.OnlyColumnAboveMatters` | src/main/java/pl/asie/charset/tweaks/TweakFiniteWater.java:92-94 | two worlds that agree on heights y+1 to sea level get the same decision: the source block itself is never inspected |
| `Stacks.BoundingBoxOf` | src/main/java/pl/asie/charset/module/decoration/stacks/BlockStacks.java:81-93 | a pile gets the fewest eighth-layers that hold its items, 8 per layer (0 exactly for an empty pile); any other tile gets the full block |
| `Stacks.CountsOf` | src/main/java/pl/asie/charset/module/decoration/stacks/BlockStacks.java:98-101 | the counts map has exactly the pile's materials as keys, each with its number of occurrences |
| `Stacks.CountMaterials` | src/main/java/pl/asie/charset/module/decoration/stacks/BlockStacks.java:98-101 | the map counts each material as often as it occurs in the pile |
| `Stacks.Chunks` | src/main/java/pl/asie/charset/module/decoration/stacks/BlockStacks.java:107-111 | definition (no contract of its own): copies of the stack holding min(count - i, max) items for i = start, start + max, ... below count; characterized by `ChunksTotal` and `ChunksShape` |
| `Stacks.MaterialDrops` | src/main/java/pl/asie/charset/module/decoration/stacks/BlockStacks.java:104-112 | definition (no contract of its own): nothing for an empty stack, otherwise its chunks from 0; characterized by `MaterialDropsCount` |
| `Stacks.AppendChunks` | src/main/java/pl/asie/charset/module/decoration/stacks/BlockStacks.java:107-111 | the inner loop appends exactly the chunk sequence of the count |
| `Stacks.AppendMaterialDrops` | src/main/java/pl/asie/charset/module/decoration/stacks/BlockStacks.java:104-112 | a material with an empty stack adds nothing; any other adds its chunks |
| `Stacks.DropAll` | src/main/java/pl/asie/charset/module/decoration/stacks/BlockStacks.java:103-113 | the key order visits every counted material exactly once, and the output is the drops of the materials in that order |
| `Stacks.GetDrops` | src/main/java/pl/asie/charset/module/decoration/stacks/BlockStacks.java:96-115 | a tile that is not a pile leaves the drops unchanged; for a pile, the given drops are followed by those of every material, one material after another, in the map's key order |
| `Stacks.ChunksTotal` | src/main/java/pl/asie/charset/module/decoration/stacks/BlockStacks.java:107-110 | the chunks of a count hold exactly that many items |
| `Stacks.ChunksShape` | src/main/java/pl/asie/charset/module/decoration/stacks/BlockStacks.java:107-110 | every chunk is a copy of the stack with 1 to maxStackSize items; all but the last are full; there are ceil(count / maxStackSize) of them |
| `Stacks.MaterialDropsCount` | src/main/java/pl/asie/charset/module/decoration/stacks/BlockStacks.java:103-112 | a material with a real stack drops as many items as it occurs in the pile; one with an empty stack drops none |
| `Stacks.BreakDropsEveryItem` | src/main/java/pl/asie/charset/module/decoration/stacks/BlockStacks.java:96-115 | over all drops, one item comes out per pile entry holding a real stack |
| `Stacks.CooldownWindow` | src/main/java/pl/asie/charset/module/decoration/stacks/BlockStacks.java:143-155 | after a take at time t, the same player is ignored at t and t+1 and not at t+2 |
| `Stacks.StacksTile.RemoveStack` | src/main/java/pl/asie/charset/module/decoration/stacks/BlockStacks.java:157 | an empty pile yields the empty stack; otherwise exactly the chosen element leaves the pile and its stack is returned |
| `Stacks.BlockStacks.HarvestBlock` | src/main/java/pl/asie/charset/module/decoration/stacks/BlockStacks.java:141-170 | nothing happens for another tile or while the player's cooldown runs. A sneaking harvest drops the whole pile and sets air. Otherwise the cooldown is set to t+1, one element leaves, at most one item with count 1 is spawned, and air is set once the pile is empty |
| `Stacks.BlockStacks.BreakPile` | src/main/java/pl/asie/charset/module/decoration/stacks/BlockStacks.java:147-153 | the pile's drops are spawned after what was spawned before, and the block becomes air |
| `Stacks.BlockStacks.TakeOne` | src/main/java/pl/asie/charset/module/decoration/stacks/BlockStacks.java:157-167 | one element leaves the pile; its item is spawned with count 1 unless its stack is empty; air is set once the pile is empty |
| `Stacks.BlockStacks.RemovedByPlayer` | src/main/java/pl/asie/charset/module/decoration/stacks/BlockStacks.java:118-131 | a creative player breaks the pile, spawning its drops, and gets true; for anyone else the result is false exactly while the cooldown runs, and nothing the model tracks changes (the `onBlockHarvested` hook is left out) |
| `RecipeWire.Encode` | src/main/java/pl/asie/charset/lib/wires/RecipeObjectWire.java:37 | `id << 1` OR-ed with the bit, as a Java int: the low bit is the flag and the value is 2·id + bit modulo 2^32 |
| `RecipeWire.CmpMeta` | src/main/java/pl/asie/charset/lib/wires/RecipeObjectWire.java:37 | the ingredient's metadata: an int whose low bit is set exactly for YES |
| `RecipeWire.WrapEven` | src/main/java/pl/asie/charset/lib/wires/RecipeObjectWire.java:37 | helper (proof step): `id << 1` on a Java `int` is even, so the OR with the flag bit adds it |
| `RecipeWire.EncodeSmall` | src/main/java/pl/asie/charset/lib/wires/RecipeObjectWire.java:37 | for ids below 2^30 the metadata is plain `2 * id + bit` |
| `RecipeWire.Test` | src/main/java/pl/asie/charset/lib/wires/RecipeObjectWire.java:35-45 | a match is always a non-empty wire stack |
| `RecipeWire.TestRejectsOtherStacks` | src/main/java/pl/asie/charset/lib/wires/RecipeObjectWire.java:36-44 | an empty stack or a stack of another item never matches |
| `RecipeWire.TestExact` | src/main/java/pl/asie/charset/lib/wires/RecipeObjectWire.java:37-41 | with YES exactly the metadata `id << 1` with the low bit set matches, with NO exactly `id << 1` |
| `RecipeWire.TestMaybe` | src/main/java/pl/asie/charset/lib/wires/RecipeObjectWire.java:37-41 | with MAYBE exactly the two values `id << 1` and `id << 1` with the low bit set match |
| `RecipeWire.AcceptedKeepsId` | src/main/java/pl/asie/charset/lib/wires/RecipeObjectWire.java:37-41 | whatever the flag, an accepted stack's metadata without its low bit is the shifted id |
| `RecipeWire.DistinctProvidersDisjoint` | src/main/java/pl/asie/charset/lib/wires/RecipeObjectWire.java:37 | two ingredients of different providers with non-negative ids (the registry's 1..MAX_ID among them) never accept the same stack |
| `RecipeWire.WrapOfPattern` | src/main/java/pl/asie/charset/lib/wires/RecipeObjectWire.java:37 | helper (proof step): a 32-bit pattern wraps to its two's-complement reading |
| `RecipeWire.Preview` | src/main/java/pl/asie/charset/lib/wires/RecipeObjectWire.java:22-31 | MAYBE previews both variants, non-freestanding first; NO only the non-freestanding and YES only the freestanding variant |
| `RecipeWire.PreviewIsWhatMatches` | src/main/java/pl/asie/charset/lib/wires/RecipeObjectWire.java:22-31 | the ingredient accepts a wire of its own provider exactly when the preview shows that variant: MAYBE shows both, NO the non-freestanding one, YES the freestanding one |
| `RenderUtils.SelectionBit` | src/main/java/pl/asie/charset/lib/utils/RenderUtils.java:220-222 | definition (no contract of its own): the bit 1 << (y·4 + x·2 + z) of one edge; characterized by `SelectionBitsDistinct` |
| `RenderUtils.FaceMask` | src/main/java/pl/asie/charset/lib/utils/RenderUtils.java:229-262 | definition (no contract of its own): 0x00F and 0xF00 for bottom and top, the OR of four edge bits for each side; characterized by `SideFaceMasks`, `FaceMaskFourEdges`, `EdgeSharedByTwoFaces` and `AllEdgesCovered` |
| `RenderUtils.SelectionBitsDistinct` | src/main/java/pl/asie/charset/lib/utils/RenderUtils.java:220-222 | a corner triple in range selects one nonzero bit within 0xFFF, and distinct triples select distinct bits |
| `RenderUtils.SideFaceMasks` | src/main/java/pl/asie/charset/lib/utils/RenderUtils.java:236-259 | north, south, west and east give 0x151, 0x2A2, 0x434 and 0x8C8 |
| `RenderUtils.FaceMaskFourEdges` | src/main/java/pl/asie/charset/lib/utils/RenderUtils.java:229-262 | every face mask lies within 0xFFF and has exactly four bits set |
| `RenderUtils.FourBits` | src/main/java/pl/asie/charset/lib/utils/RenderUtils.java:229-262 | helper (proof step): a mask that loses its lowest bit four times before reaching zero has four bits |
| `RenderUtils.EdgeSharedByTwoFaces` | src/main/java/pl/asie/charset/lib/utils/RenderUtils.java:229-262 | each of the twelve edge bits lies in exactly two of the six face masks |
| `RenderUtils.AllEdgesCovered` | src/main/java/pl/asie/charset/lib/utils/RenderUtils.java:229-262 | the OR of the six face masks is 0xFFF |
| `RenderUtils.ByteProductIsScaled` | src/main/java/pl/asie/charset/lib/utils/RenderUtils.java:353 | the `& 0xFF` after the division never cuts anything: the product of two bytes over 255 is a byte |
| `RenderUtils.ProductLanesShape` | src/main/java/pl/asie/charset/lib/utils/RenderUtils.java:352-354 | before lane n the partial product stays below 256^n; after lane 3 it is the product colour |
| `RenderUtils.LaneStep` | src/main/java/pl/asie/charset/lib/utils/RenderUtils.java:353 | helper (proof step): OR-ing lane n into the partial product adds it at its byte and keeps a 32-bit pattern |
| `RenderUtils.MultiplyColor` | src/main/java/pl/asie/charset/lib/utils/RenderUtils.java:350-356 | the loop computes the colour whose bytes are the lane products |
| `RenderUtils.ProductColorBytes` | src/main/java/pl/asie/charset/lib/utils/RenderUtils.java:353 | byte k of the result is byte k of src times byte k of dst over 255, within 0..255 |
| `RenderUtils.ProductCommutes` | src/main/java/pl/asie/charset/lib/utils/RenderUtils.java:350-356 | the product does not depend on the order of the two colours |
| `RenderUtils.WhiteIsIdentity` | src/main/java/pl/asie/charset/lib/utils/RenderUtils.java:350-356 | multiplying by opaque white (-1) leaves a colour unchanged |
| `RenderUtils.Column` | src/main/java/pl/asie/charset/lib/utils/RenderUtils.java:105-106 | the samples of one column are the pixels `i * width + x`, one per row |
| `RenderUtils.Tail` | src/main/java/pl/asie/charset/lib/utils/RenderUtils.java:116-117 | the second V_EDGES_ONLY pass reads the pixels from the end backwards |
| `RenderUtils.ChannelSumSnoc` | src/main/java/pl/asie/charset/lib/utils/RenderUtils.java:96-98 | helper (proof step): adding a pixel adds its byte to the channel sum |
| `RenderUtils.AddPixel` | src/main/java/pl/asie/charset/lib/utils/RenderUtils.java:96-98 | the three sums take in the pixel's red, green and blue bytes |
| `RenderUtils.SumFull` | src/main/java/pl/asie/charset/lib/utils/RenderUtils.java:91-101 | the FULL loops sum the channels of the first width×height pixels, row by row |
| `RenderUtils.SumColumn` | src/main/java/pl/asie/charset/lib/utils/RenderUtils.java:105-110 | the inner H_EDGES_ONLY loop adds the sums of one column, top to bottom |
| `RenderUtils.SumHEdges` | src/main/java/pl/asie/charset/lib/utils/RenderUtils.java:102-112 | the H_EDGES_ONLY loops sum the first column, then the last |
| `RenderUtils.SumVEdges` | src/main/java/pl/asie/charset/lib/utils/RenderUtils.java:113-123 | the V_EDGES_ONLY loops sum the first `width` entries, then the last `width` from the end backwards |
| `RenderUtils.DivideSums` | src/main/java/pl/asie/charset/lib/utils/RenderUtils.java:125-127 | each sum becomes the integer mean of its channel, a byte |
| `RenderUtils.GetAverageColor` | src/main/java/pl/asie/charset/lib/utils/RenderUtils.java:86-129 | the result is the opaque colour of the channel means over the mode's samples |
| `RenderUtils.SamplesFull` | src/main/java/pl/asie/charset/lib/utils/RenderUtils.java:91-101 | FULL samples every pixel of the first height rows of width pixels |
| `RenderUtils.SamplesHEdges` | src/main/java/pl/asie/charset/lib/utils/RenderUtils.java:102-112 | H_EDGES_ONLY samples 2·height pixels: column 0 top to bottom, then column width-1 top to bottom |
| `RenderUtils.SamplesVEdges` | src/main/java/pl/asie/charset/lib/utils/RenderUtils.java:113-123 | V_EDGES_ONLY samples 2·width pixels: the first width entries, then the last width entries from the end backwards |
| `RenderUtils.MeanColorChannels` | src/main/java/pl/asie/charset/lib/utils/RenderUtils.java:125-128 | the alpha byte is 0xFF, and each colour byte is the integer mean of that channel: `mean·n <= sum < (mean+1)·n` |
| `RenderUtils.UniformFrameAverage` | src/main/java/pl/asie/charset/lib/utils/RenderUtils.java:86-129 | a frame of one colour averages to that colour made opaque |
| `RenderUtils.UniformSum` | src/main/java/pl/asie/charset/lib/utils/RenderUtils.java:96-98 | helper (proof step): the channel sum of n copies of a colour is n times its byte |
| `GateTextures.MaskPixel` | src/main/java/pl/asie/simplelogic/gates/ProxyClient.java:120 | the mask operation yields only -1 or 0 |
| `GateTextures.MaskPixelSelects` | src/main/java/pl/asie/simplelogic/gates/ProxyClient.java:120 | a pixel becomes -1 exactly when its low 24 bits are the mask colour, and 0 otherwise, whatever its alpha |
| `GateTextures.ScaleBelow` | src/main/java/pl/asie/simplelogic/gates/ProxyClient.java:148-149 | helper (proof step): a coordinate scaled from size n to size m stays in 0..m-1 |
| `GateTextures.UnderlayIndex` | src/main/java/pl/asie/simplelogic/gates/ProxyClient.java:148-150 | for a pixel inside the texture the sampled underlay index lies in [0, uW·uH) |
| `GateTextures.GridIndex` | src/main/java/pl/asie/simplelogic/gates/ProxyClient.java:140-143 | helper (proof step): a visited index lies in a row below the height, at a column below the width |
| `GateTextures.RowMajor` | src/main/java/pl/asie/simplelogic/gates/ProxyClient.java:143 | helper (proof step): `ip = iy * width + ix` is the pixel (ix, iy) |
| `GateTextures.CompositeAt` | src/main/java/pl/asie/simplelogic/gates/ProxyClient.java:143-151 | what pixel ip becomes: 0 for a masked colour, otherwise the underlay pixel at the scaled position of (ip % width, ip / width) |
| `GateTextures.Composited` | src/main/java/pl/asie/simplelogic/gates/ProxyClient.java:140-152 | the image after the first n pixels in row-major order are composited, the same length as the original; the specification of the composite loop |
| `GateTextures.CompositeBase` | src/main/java/pl/asie/simplelogic/gates/ProxyClient.java:138-155 | the lambda turns the pixel array, in place, into the composite of its first `(length / width) · width` pixels |
| `GateTextures.CompositeRow` | src/main/java/pl/asie/simplelogic/gates/ProxyClient.java:142-153 | one row of the loop composites exactly that row's pixels |
| `GateTextures.CompositePixel` | src/main/java/pl/asie/simplelogic/gates/ProxyClient.java:143-152 | one pixel of the loop: pixel `ip` takes its composite value and nothing else changes |
| `GateTextures.CompositeVisited` | src/main/java/pl/asie/simplelogic/gates/ProxyClient.java:145-151 | in the result, a visited pixel of a masked colour is 0, and any other visited pixel (ix, iy) is the underlay pixel at (ix·uW/width, iy·uH/height) |
| `GateTextures.CompositeTrailing` | src/main/java/pl/asie/simplelogic/gates/ProxyClient.java:140-143 | entries after the last full row are unchanged |
| `GateTextures.UnderlayIndexSameSize` | src/main/java/pl/asie/simplelogic/gates/ProxyClient.java:148-150 | an underlay of the texture's own size is copied pixel for pixel |
| `GateTextures.MaskSpritesComplementComposite` | src/main/java/pl/asie/simplelogic/gates/ProxyClient.java:118-146 | the composite clears exactly the pixels that some mask sprite keeps |
| `GateStitch.LayerTexture` | src/main/java/pl/asie/simplelogic/gates/ProxyClient.java:97 | definition (no contract of its own): `ns:blocks/path/layer_i`; characterized by `LayerTextureInjective` |
| `GateStitch.GatherMasks` | src/main/java/pl/asie/simplelogic/gates/ProxyClient.java:94-102 | definition (no contract of its own): the colour masks after n layers, or the index of the first unparsable mask; characterized by `GatherErrorAt`, `GatherOkParses`, `GatherSound` and `GatherComplete` |
| `GateStitch.GatherColorMasks` | src/main/java/pl/asie/simplelogic/gates/ProxyClient.java:94-102 | step 1's loop computes the colour masks of the gathering function; every masked layer up to the stopping point gets its own texture `ns:blocks/path/layer_i`, and the counter advances over every layer |
| `GateStitch.GatherErrorSticks` | src/main/java/pl/asie/simplelogic/gates/ProxyClient.java:99 | once a mask has failed to parse, later layers do not change the outcome |
| `GateStitch.LayerTextureInjective` | src/main/java/pl/asie/simplelogic/gates/ProxyClient.java:97 | different layers get differently named textures |
| `GateStitch.GatherErrorAt` | src/main/java/pl/asie/simplelogic/gates/ProxyClient.java:95-101 | step 1 fails at layer e exactly when e is the first masked layer whose mask is not a hexadecimal `int` |
| `GateStitch.GatherOkParses` | src/main/java/pl/asie/simplelogic/gates/ProxyClient.java:95-101 | when step 1 succeeds, every masked layer's mask parsed |
| `GateStitch.GatherSound` | src/main/java/pl/asie/simplelogic/gates/ProxyClient.java:95-101 | every recorded texture belongs to a masked layer with that base texture and mask colour, and is that layer's texture |
| `GateStitch.GatherComplete` | src/main/java/pl/asie/simplelogic/gates/ProxyClient.java:98-99 | every masked layer is recorded under its base and colour; of several layers sharing both, the last wins |
| `GateStitch.LayerTexturesMembers` | src/main/java/pl/asie/simplelogic/gates/ProxyClient.java:109-113 | a texture is a layer texture exactly when some layer names it |
| `GateStitch.LayerTextures` | src/main/java/pl/asie/simplelogic/gates/ProxyClient.java:109-113 | definition (no contract of its own): the textures the layers name; characterized by `LayerTexturesMembers` |
| `GateStitch.GatherTextures` | src/main/java/pl/asie/simplelogic/gates/ProxyClient.java:104-113 | step 2 gathers the models' textures and every layer texture |
| `GateStitch.AddMaskSprite` | src/main/java/pl/asie/simplelogic/gates/ProxyClient.java:119-120 | one mask sprite entry, cutting colour c out of the base texture, is set for the colour's texture |
| `GateStitch.AddCompositeSprite` | src/main/java/pl/asie/simplelogic/gates/ProxyClient.java:137-156 | the composite entry of the base texture is set over the underlay, with the base's masked colours |
| `GateStitch.AddBaseSprites` | src/main/java/pl/asie/simplelogic/gates/ProxyClient.java:117-157 | for one base texture: a mask sprite per colour, then the composite; its result textures and the base itself leave the set; only entries of this base are set |
| `GateStitch.AddOneBase` | src/main/java/pl/asie/simplelogic/gates/ProxyClient.java:116-158 | one base texture of step 3 keeps the loop's account of entries set and textures removed |
| `GateStitch.AddMaskedSprites` | src/main/java/pl/asie/simplelogic/gates/ProxyClient.java:115-158 | after step 3 the set has lost every mask result texture and every base texture, and the entries set are exactly mask and composite sprites of the colour masks, each of them present |
| `GateStitch.RegisterRemaining` | src/main/java/pl/asie/simplelogic/gates/ProxyClient.java:160-163 | step 4 registers every texture left, once each, and nothing else |
| `GateStitch.StitchGate` | src/main/java/pl/asie/simplelogic/gates/ProxyClient.java:88-163 | a bad mask stops the handler before the atlas is touched. Otherwise every mask and composite sprite is set, and a texture is registered plainly exactly when a model or layer names it and it is neither a mask result nor a base texture |
| `RedstoneStorage.GetInteger` | src/main/java/pl/asie/charset/lib/capability/redstone/DefaultRedstoneEmitterStorage.java:44 | the number stored under the key, 0 when it is missing or not a number |
| `RedstoneStorage.WriteNbt` | src/main/java/pl/asie/charset/lib/capability/redstone/DefaultRedstoneEmitterStorage.java:30-37 | a default emitter gets a compound whose only key "s" holds its signal; any other implementation gets null |
| `RedstoneStorage.ReadNbt` | src/main/java/pl/asie/charset/lib/capability/redstone/DefaultRedstoneEmitterStorage.java:40-47 | `emit` is called at most once, with the loaded signal, and nothing else changes |
| `RedstoneStorage.LoadedSignalCases` | src/main/java/pl/asie/charset/lib/capability/redstone/DefaultRedstoneEmitterStorage.java:41-45 | `emit` is called exactly for a default emitter and a compound that has "s", with the number stored there |
| `RedstoneStorage.RoundTrip` | src/main/java/pl/asie/charset/lib/capability/redstone/DefaultRedstoneEmitterStorage.java:31-45 | loading what a default emitter wrote into a default emitter emits the written signal |
| `RedstoneStorage.OtherEmittersNotPersisted` | src/main/java/pl/asie/charset/lib/capability/redstone/DefaultRedstoneEmitterStorage.java:31-46 | nothing written for another implementation is ever loaded |
| `GateRegistry.BiPut` | src/main/java/pl/asie/simplelogic/gates/SimpleLogicGates.java:187 | definition (no contract of its own): `HashBiMap.put`, failing when the value is bound to another key; characterized by `BiPutSpec` |
| `GateRegistry.BiPutSpec` | src/main/java/pl/asie/simplelogic/gates/SimpleLogicGates.java:187 | the bidirectional `put` fails exactly for a class registered under another name; otherwise the name and the class find each other, the class the name had before loses it, and every other pair is kept both ways |
| `GateRegistry.NamesDistinct` | src/main/java/pl/asie/simplelogic/gates/SimpleLogicGates.java:85 | no two names share a class |
| `GateRegistry.LocationString` | src/main/java/pl/asie/simplelogic/gates/SimpleLogicGates.java:183 | definition (no contract of its own): `ResourceLocation.toString`, `namespace:path` |
| `GateRegistry.GateEnabled` | src/main/java/pl/asie/simplelogic/gates/SimpleLogicGates.java:183 | a gate missing from the "gates" configuration is enabled |
| `GateRegistry.GateDefinitionLocation` | src/main/java/pl/asie/simplelogic/gates/SimpleLogicGates.java:178 | the definition stays in the gate's namespace |
| `GateRegistry.GateDefinitionLocationInjective` | src/main/java/pl/asie/simplelogic/gates/SimpleLogicGates.java:178 | different gates get different definition files, and `gatedefs/<path>.json` gives the path back |
| `GateRegistry.UnlocalizedName` | src/main/java/pl/asie/simplelogic/gates/SimpleLogicGates.java:179 | definition (no contract of its own): `tile.<ns>.gate.<path>`; characterized by `UnlocalizedNameEndsInPath` |
| `GateRegistry.UnlocalizedNameEndsInPath` | src/main/java/pl/asie/simplelogic/gates/SimpleLogicGates.java:179 | the unlocalized name ends in `.gate.` and the gate's path |
| `GateRegistry.InversionSensitiveLogic` | src/main/java/pl/asie/simplelogic/gates/SimpleLogicGates.java:170-171 | a stack names an inversion-sensitive logic exactly when it has a tag whose "li" byte is positive, and that logic is the tag's "logic" string |
| `GateRegistry.Registry.GetId` | src/main/java/pl/asie/simplelogic/gates/SimpleLogicGates.java:91-93 | the answer is a name bound to the class; no answer means no name is |
| `GateRegistry.Registry.RegisterGate` | src/main/java/pl/asie/simplelogic/gates/SimpleLogicGates.java:182-190 | a disabled gate changes nothing; a class already under another name changes nothing; otherwise the name is bound to the class, the definition and the unlocalized name, `getId` of the class gives the name, and every other class keeps its name unless it was the name's previous class |
| `GateRegistry.Registry.RegisterGateByName` | src/main/java/pl/asie/simplelogic/gates/SimpleLogicGates.java:177-180 | the same, with the definition `ns:gatedefs/<path>.json` and the unlocalized name `tile.<ns>.gate.<path>` |
| `GateRegistry.Registry.RegisterGateStack` | src/main/java/pl/asie/simplelogic/gates/SimpleLogicGates.java:168-175 | empty and non-gate stacks change nothing; any other stack joins the gate stacks, and its logic joins the inversion-sensitive logics exactly when its "li" byte is positive |
| `JavaBase.Wrap32` | src/main/java/pl/asie/charset/lib/wires/RecipeObjectWire.java:37 | the wrap is a Java `int` congruent to its input modulo 2^32 |
| `JavaBase.FromBytesLanes` | src/main/java/pl/asie/charset/lib/utils/RenderUtils.java:128 | the colour packed from four bytes has those bytes as its lanes |
| `JavaBase.LanesDetermine` | src/main/java/pl/asie/charset/lib/utils/RenderUtils.java:350-356 | a colour is determined by its four byte lanes |
| `JavaBase.NatToStringRoundTrip` | src/main/java/pl/asie/simplelogic/gates/ProxyClient.java:97 | reading the decimal text of the layer counter back gives the counter |
| `JavaBase.HexValueOfNatToHex` | src/main/java/pl/asie/simplelogic/gates/ProxyClient.java:99 | reading lower-case hexadecimal text back gives the number |
| `JavaBase.ParseHexRoundTrip` | src/main/java/pl/asie/simplelogic/gates/ProxyClient.java:99 | `Integer.parseInt(s, 16)` of the hexadecimal text of a non-negative `int` gives it back |
| `JavaBase.ParseHexInt` | src/main/java/pl/asie/simplelogic/gates/ProxyClient.java:99 | a parsed value is always a Java `int` |

## Left out

- The gate logic classes, the parts placed in the world and the wire
  propagation engine are not part of this model. The registry only refers
  to them.
- The rendering code of `RenderUtils` is left out: quads and UV coordinates
  (floating point), GL state and the selection box drawing, and the lookup
  of textures, sprites and models (client resources).
- `ProxyClient`'s client plumbing is left out: `init`, model registration and
  bake events. The models' textures (`getAllModels`) are an input set. The
  sprite calls are entries appended to the `TextureMap` log.
- The outer loop of the stitch handler over all registered gates is left
  out, and so are the load of `base.json` and the registration of the
  `top_underlay` sprite. `StitchGate` models the body for one gate, and the
  underlay is a parameter.
- Layers are values in a sequence held by the definition object. Aliasing
  of one `Layer` object between definitions is not modelled.
- When two layers share a base texture and a mask colour, the last one wins
  the mask sprite (`GatherComplete`). The earlier layer's texture then stays
  in the texture set and is registered as a plain sprite in step 4. The
  model states this as it is, as the source does it.
- `Integer.parseInt` is modelled for ASCII digits only. Java also accepts
  other Unicode digits.
- `ResourceLocation` parsing and lower-case normalisation are not modelled.
  Layer textures are compared as the strings the source builds.
- `TileAxle` parts left out:
  - the float NBT fields `rs` and `rt`;
  - `TraitMechanicalRotation.tick`;
  - the `update` tick;
  - the tile cache.
  The consumer a side forwards to (in the tile at `pos.offset(facing.getOpposite())`,
  queried on face `facing`) is an input: present, and accepting or not.
  Speed and torque are reals, which ignores NaN and signed zero.
- `BlockStacks` parts left out:
  - particles and the extended state;
  - the float height (the model gives the layer count).
  The `WeakHashMap` of cooldowns is a plain map keyed by player id, so its
  garbage-collection semantics are not modelled.
- `Stacks.StacksTile.RemoveStack`: `TileEntityStacks.removeStack` is not part
  of this model. Which element it removes is a parameter, and only the
  removal of one element is stated.
- `Stacks.BlockStacks.RemovedByPlayer`: the call to `onBlockHarvested`
  (BlockStacks.java:119) is not modelled. That hook is inherited from the
  block base class or from vanilla `Block`, which are not part of this model.
  "Nothing changes" therefore covers only the state the model has.
- `Stacks.PileCanDrop`: the drop operations require every real stack to have
  a maximum stack size of at least 1. With a maximum of 0 the source loop
  `i += stack.getMaxStackSize()` (BlockStacks.java:107) never ends, so that
  input is excluded rather than modelled.
- `GateTextures.CompositeBase`: the method requires a positive width and an
  underlay of positive size holding uW·uH pixels. These are taken as
  invariants of a loaded sprite. With width 0 the source throws an
  `ArithmeticException` at `pixels.length / width` (ProxyClient.java:140).
- `RenderUtils.GetAverageColor`: the channel sums are unbounded integers.
  The source's `int` sums cannot overflow for the sprite sizes used (that
  would need more than 8 million pixels). The method requires positive
  dimensions, because a zero dimension makes the source throw.
- `RecipeWire.WireStack`: the wire item's own `toStack` is not part of this
  model. Its metadata layout is taken to be the one `test` decodes. The
  registry's `MAX_ID` is not shown, so the disjointness lemma covers every
  non-negative id.
- `RedstoneStorage.ReadNbt`: the default emitter's `emit` is not part of this
  model, so the call is recorded in a log and its effect on the signal is
  not stated. Numeric NBT tags are read through their `int` value.
- `GateRegistry.Registry.RegisterGate`: the configuration is a map of the
  "gates" section, with Forge's default of true. Config I/O and saving are
  left out. Guava's `HashBiMap` is modelled through `put` and the inverse
  lookup only.
- Forge events, the proxy, the creative tab icon and the start-up
  registration sequence are left out. So are the trivial holder files (the
  wire module's registry wiring, the wire render container, the shared tab
  and the item material wrapper).
- Concurrency and I/O do not arise in the modelled code.
