/** The item-stack pile block: a tile holding a list of materials (one entry
    per item placed on the pile). Its bounding box grows one layer per eight
    items; breaking it drops the items grouped by material and cut into stacks
    no larger than the item allows; harvesting it by hand takes one item at a
    time, at most once per player per game tick after the last take.

    The world becomes a `World` object with the total world time, the list of
    item entities spawned and whether the block was set to air. */
module Stacks {
  import opened JavaBase

  /** An item stack: the item (0 is air), the count, and the item's maximum stack size. */
  datatype ItemStack = ItemStack(item: int, count: int, maxStackSize: int)

  /** `ItemStack.isEmpty()`: air, or no items. */
  predicate IsEmpty(s: ItemStack) {
    s.item == 0 || s.count <= 0
  }

  const EMPTY: ItemStack := ItemStack(0, 0, 64)

  /** An item material, identified by its id, with its representative stack. */
  datatype Material = Material(id: string, stack: ItemStack)

  /** A bounding box: the full block, or `layers` eighths of a block high
      (the source's float height is `layers * 0.125`). */
  datatype BoundingBox = FullBlock | Layers(layers: nat)

  /** `getBoundingBox`: `tile` is the pile when the tile entity is a stacks tile. */
  function BoundingBoxOf(tile: Option<seq<Material>>): (b: BoundingBox)
    ensures tile.None? ==> b == FullBlock
    ensures tile.Some? ==> b.Layers?
    // the fewest layers of eight that hold every item
    ensures tile.Some? ==> 8 * b.layers >= |tile.value| && (b.layers == 0 || 8 * (b.layers - 1) < |tile.value|)
    ensures tile.Some? ==> (b.layers == 0 <==> tile.value == [])
  {
    if tile.Some? then Layers((|tile.value| + 7) / 8) else FullBlock
  }

  /** Every material with a real stack can be cut into stacks (a zero maximum
      would make the drop loop spin forever). */
  predicate PileCanDrop(pile: seq<Material>) {
    forall m :: m in pile && !IsEmpty(m.stack) ==> m.stack.maxStackSize >= 1
  }

  /** How often each material occurs in the pile. */
  function CountsOf(pile: seq<Material>): (counts: map<Material, nat>)
    ensures counts.Keys == set m | m in pile
    ensures forall m :: m in counts ==> counts[m] == multiset(pile)[m]
  {
    map m | m in pile :: multiset(pile)[m]
  }

  /** The stacks `for (i = start; i < count; i += max)` appends: copies of `stack`
      holding `min(count - i, max)` items. */
  function Chunks(stack: ItemStack, count: int, i: int): (r: seq<ItemStack>)
    requires stack.maxStackSize >= 1
    decreases count - i
  {
    if i >= count then []
    else [stack.(count := Min(count - i, stack.maxStackSize))] + Chunks(stack, count, i + stack.maxStackSize)
  }

  function Min(a: int, b: int): int {
    if a <= b then a else b
  }

  /** The drops of one material occurring `count` times. */
  function MaterialDrops(m: Material, count: int): seq<ItemStack>
    requires !IsEmpty(m.stack) ==> m.stack.maxStackSize >= 1
  {
    if IsEmpty(m.stack) then [] else Chunks(m.stack, count, 0)
  }

  /** The body of the second loop for one material: nothing for an empty
      stack, otherwise its chunks. */
  method AppendMaterialDrops(drops: seq<ItemStack>, m: Material, count: nat) returns (out: seq<ItemStack>)
    requires !IsEmpty(m.stack) ==> m.stack.maxStackSize >= 1
    ensures out == drops + MaterialDrops(m, count)
  {
    out := drops;
    if !IsEmpty(m.stack) {
      out := AppendChunks(out, m.stack, count);
    }
  }

  /** Every counted material with a real stack can be cut into stacks. */
  predicate CountsCanDrop(counts: map<Material, nat>) {
    forall m :: m in counts && !IsEmpty(m.stack) ==> m.stack.maxStackSize >= 1
  }

  /** The drops of the materials in `order`, one material after the other. */
  function DropsInOrder(order: seq<Material>, counts: map<Material, nat>): seq<ItemStack>
    requires forall k :: 0 <= k < |order| ==> order[k] in counts
    requires CountsCanDrop(counts)
  {
    if order == [] then []
    else
      var last := order[|order| - 1];
      DropsInOrder(order[..|order| - 1], counts) + MaterialDrops(last, counts[last])
  }

  /** `order` lists every material of the pile exactly once (the hash map's key order). */
  ghost predicate Listing(order: seq<Material>, pile: seq<Material>) {
    && Distinct(order)
    && (set m | m in order) == (set m | m in pile)
  }

  /** `out` is `drops` followed by the drops of the whole pile, material by
      material in the listing `order`. */
  ghost predicate PileDrops(drops: seq<ItemStack>, out: seq<ItemStack>, order: seq<Material>, pile: seq<Material>) {
    && PileCanDrop(pile)
    && Listing(order, pile)
    && (forall k :: 0 <= k < |order| ==> order[k] in CountsOf(pile))
    && (PileCountsCanDrop(pile);
        out == drops + DropsInOrder(order, CountsOf(pile)))
  }

  /** Drops appended after earlier drops are the same drops. */
  lemma PileDropsAfter(prefix: seq<ItemStack>, out: seq<ItemStack>, order: seq<Material>, pile: seq<Material>)
    requires PileDrops([], out, order, pile)
    ensures PileDrops(prefix, prefix + out, order, pile)
  {
    PileCountsCanDrop(pile);
    assert out == DropsInOrder(order, CountsOf(pile));
  }

  function TotalCount(s: seq<ItemStack>): int {
    if s == [] then 0 else TotalCount(s[..|s| - 1]) + s[|s| - 1].count
  }

  lemma CountsOfSnoc(s: seq<Material>, x: Material)
    ensures CountsOf(s + [x]) == if x in CountsOf(s) then CountsOf(s)[x := CountsOf(s)[x] + 1]
                                 else CountsOf(s)[x := 1]
  {
    assert multiset(s + [x]) == multiset(s) + multiset{x};
  }

  /** The first loop of `getDrops`: `adjustOrPutValue(material, 1, 1)` for every entry. */
  method CountMaterials(pile: seq<Material>) returns (materials: map<Material, nat>)
    ensures materials == CountsOf(pile)
  {
    materials := map[];
    var j := 0;
    while j < |pile|
      invariant 0 <= j <= |pile|
      invariant materials == CountsOf(pile[..j])
    {
      var m := pile[j];
      CountsOfSnoc(pile[..j], m);
      assert pile[..j + 1] == pile[..j] + [m];
      materials := if m in materials then materials[m := materials[m] + 1] else materials[m := 1];
      j := j + 1;
    }
    assert pile[..|pile|] == pile;
  }

  /** The inner loop of `getDrops`: appends copies of `stack` of at most
      `maxStackSize` items each until `count` items are out. */
  method AppendChunks(drops: seq<ItemStack>, stack: ItemStack, count: int) returns (out: seq<ItemStack>)
    requires stack.maxStackSize >= 1
    ensures out == drops + Chunks(stack, count, 0)
  {
    out := drops;
    var i := 0;
    while i < count
      invariant out + Chunks(stack, count, i) == drops + Chunks(stack, count, 0)
      decreases count - i
    {
      out := out + [stack.(count := Min(count - i, stack.maxStackSize))];
      i := i + stack.maxStackSize;
    }
  }

  lemma PileCountsCanDrop(pile: seq<Material>)
    requires PileCanDrop(pile)
    ensures CountsCanDrop(CountsOf(pile))
  {
  }

  /** `getDrops`: `te` is the pile when the tile entity is a stacks tile. The
      result is `drops` followed by the new drops; `order` is the order in
      which the hash map handed out its keys. */
  method GetDrops(drops: seq<ItemStack>, te: Option<seq<Material>>)
      returns (out: seq<ItemStack>, ghost order: seq<Material>)
    requires te.Some? ==> PileCanDrop(te.value)
    ensures te.None? ==> out == drops
    ensures te.Some? ==> PileDrops(drops, out, order, te.value)
  {
    out := drops;
    order := [];
    if te.None? {
      return;
    }
    var pile := te.value;
    var materials := CountMaterials(pile);
    PileCountsCanDrop(pile);
    out, order := DropAll(drops, materials);
    ElemsMembers(order);
  }

  /** No material is listed twice. */
  ghost predicate Distinct(order: seq<Material>) {
    forall a, b :: 0 <= a < b < |order| ==> order[a] != order[b]
  }

  /** The set of materials a sequence lists. */
  function Elems(s: seq<Material>): set<Material> {
    if s == [] then {} else Elems(s[..|s| - 1]) + {s[|s| - 1]}
  }

  lemma {:induction false} ElemsMembers(s: seq<Material>)
    ensures Elems(s) == set x | x in s
    decreases |s|
  {
    if s != [] {
      ElemsMembers(s[..|s| - 1]);
      assert s == s[..|s| - 1] + [s[|s| - 1]];
    }
  }

  lemma VisitOne(order: seq<Material>, m: Material)
    requires Distinct(order) && m !in Elems(order)
    ensures Distinct(order + [m]) && Elems(order + [m]) == Elems(order) + {m}
  {
    assert (order + [m])[..|order|] == order;
    ElemsMembers(order);
  }

  /** What the second loop of `getDrops` keeps: the materials visited so far,
      `order`, are listed once each, the others are `remaining`, and `out` holds
      the drops of the visited ones in visiting order. */
  ghost predicate DropLoop(drops: seq<ItemStack>, materials: map<Material, nat>,
                           out: seq<ItemStack>, order: seq<Material>, remaining: set<Material>) {
    && CountsCanDrop(materials)
    && Distinct(order)
    && Elems(order) !! remaining && Elems(order) + remaining == materials.Keys
    && (forall k :: 0 <= k < |order| ==> order[k] in materials)
    && out == drops + DropsInOrder(order, materials)
  }

  /** One turn of the second loop: the material `m` is visited. */
  method DropOne(drops: seq<ItemStack>, materials: map<Material, nat>, out: seq<ItemStack>,
                 ghost order: seq<Material>, remaining: set<Material>, m: Material)
      returns (out': seq<ItemStack>, ghost order': seq<Material>, remaining': set<Material>)
    requires DropLoop(drops, materials, out, order, remaining) && m in remaining
    ensures DropLoop(drops, materials, out', order', remaining')
    ensures order' == order + [m] && remaining' == remaining - {m}
  {
    out' := AppendMaterialDrops(out, m, materials[m]);
    DropStep(drops, materials, out, order, remaining, m, out');
    order' := order + [m];
    remaining' := remaining - {m};
  }

  /** Moving `m` from the remaining set to the visited set keeps the two a
      partition of `all`. */
  lemma SwapOne(visited: set<Material>, remaining: set<Material>, all: set<Material>, m: Material)
    requires visited !! remaining && visited + remaining == all && m in remaining
    ensures (visited + {m}) !! (remaining - {m}) && (visited + {m}) + (remaining - {m}) == all
  {
  }

  /** Visiting `m` keeps the loop's invariant. */
  lemma DropStep(drops: seq<ItemStack>, materials: map<Material, nat>, out: seq<ItemStack>,
                 order: seq<Material>, remaining: set<Material>, m: Material, out': seq<ItemStack>)
    requires DropLoop(drops, materials, out, order, remaining) && m in remaining
    requires out' == out + MaterialDrops(m, materials[m])
    ensures DropLoop(drops, materials, out', order + [m], remaining - {m})
  {
    DropStepOut(drops, materials, out, order, m, out');
    VisitOne(order, m);
    SwapOne(Elems(order), remaining, materials.Keys, m);
    OrderMembers(order, m, materials);
  }

  /** The drops of `m` come after those of the materials visited before it. */
  lemma DropStepOut(drops: seq<ItemStack>, materials: map<Material, nat>, out: seq<ItemStack>,
                    order: seq<Material>, m: Material, out': seq<ItemStack>)
    requires forall k :: 0 <= k < |order| ==> order[k] in materials
    requires CountsCanDrop(materials) && m in materials
    requires out == drops + DropsInOrder(order, materials)
    requires out' == out + MaterialDrops(m, materials[m])
    ensures out' == drops + DropsInOrder(order + [m], materials)
  {
    AppendOrder(order, m, materials);
    ConcatAssoc(drops, DropsInOrder(order, materials), MaterialDrops(m, materials[m]));
  }

  lemma ConcatAssoc(a: seq<ItemStack>, b: seq<ItemStack>, c: seq<ItemStack>)
    ensures (a + b) + c == a + (b + c)
  {
  }

  lemma OrderMembers(order: seq<Material>, m: Material, materials: map<Material, nat>)
    requires forall k :: 0 <= k < |order| ==> order[k] in materials
    requires m in materials
    ensures forall k :: 0 <= k < |order + [m]| ==> (order + [m])[k] in materials
  {
    forall k | 0 <= k < |order + [m]| ensures (order + [m])[k] in materials {
      if k < |order| {
        assert (order + [m])[k] == order[k];
      }
    }
  }

  /** The second loop of `getDrops`: walks the counted materials in the map's
      key order `order` and cuts each into stacks. */
  method DropAll(drops: seq<ItemStack>, materials: map<Material, nat>)
      returns (out: seq<ItemStack>, ghost order: seq<Material>)
    requires CountsCanDrop(materials)
    ensures DropLoop(drops, materials, out, order, {})
  {
    out := drops;
    order := [];
    var remaining := materials.Keys;
    while remaining != {}
      invariant DropLoop(drops, materials, out, order, remaining)
      decreases |remaining|
    {
      var m :| m in remaining;
      out, order, remaining := DropOne(drops, materials, out, order, remaining, m);
    }
  }

  lemma AppendOrder(order: seq<Material>, m: Material, counts: map<Material, nat>)
    requires forall k :: 0 <= k < |order| ==> order[k] in counts
    requires CountsCanDrop(counts) && m in counts
    ensures DropsInOrder(order + [m], counts) == DropsInOrder(order, counts) + MaterialDrops(m, counts[m])
  {
    assert (order + [m])[..|order|] == order;
  }

  /** The chunks hold exactly the `count - i` items still to drop. */
  lemma {:induction false} ChunksTotal(stack: ItemStack, count: int, i: int)
    requires stack.maxStackSize >= 1
    ensures TotalCount(Chunks(stack, count, i)) == if i >= count then 0 else count - i
    decreases count - i
  {
    if i < count {
      var rest := Chunks(stack, count, i + stack.maxStackSize);
      var head := stack.(count := Min(count - i, stack.maxStackSize));
      ChunksTotal(stack, count, i + stack.maxStackSize);
      TotalCountCons(head, rest);
    }
  }

  lemma {:induction false} TotalCountCons(x: ItemStack, s: seq<ItemStack>)
    ensures TotalCount([x] + s) == x.count + TotalCount(s)
    decreases |s|
  {
    if s != [] {
      var t := [x] + s;
      assert t[..|t| - 1] == [x] + s[..|s| - 1];
      TotalCountCons(x, s[..|s| - 1]);
    }
  }

  /** Every chunk holds between 1 and `maxStackSize` items, every chunk but the
      last is full, and there are ceil((count - i) / maxStackSize) of them:
      the fewest chunks of that size that hold `count - i` items. */
  lemma {:induction false} ChunksShape(stack: ItemStack, count: int, i: int)
    requires stack.maxStackSize >= 1 && i <= count
    ensures var cs := Chunks(stack, count, i);
      && (|cs| - 1) * stack.maxStackSize < count - i <= |cs| * stack.maxStackSize
      && (forall k :: 0 <= k < |cs| ==> 1 <= cs[k].count <= stack.maxStackSize)
      && (forall k :: 0 <= k < |cs| - 1 ==> cs[k].count == stack.maxStackSize)
      && (forall k :: 0 <= k < |cs| ==> cs[k] == stack.(count := cs[k].count))
    decreases count - i
  {
    var k := stack.maxStackSize;
    if i == count {
      assert Chunks(stack, count, i) == [];
    } else if i + k <= count {
      ChunksShape(stack, count, i + k);
      var n := |Chunks(stack, count, i + k)|;
      assert |Chunks(stack, count, i)| == n + 1;
      assert (n + 1) * k == n * k + k;
    } else {
      assert Chunks(stack, count, i + k) == [];
    }
  }

  /** Every material with a real stack drops exactly as many items as the
      pile held of it; a material whose stack is empty drops nothing. */
  lemma MaterialDropsCount(pile: seq<Material>, m: Material)
    requires m in pile && PileCanDrop(pile)
    ensures TotalCount(MaterialDrops(m, CountsOf(pile)[m])) ==
              if IsEmpty(m.stack) then 0 else multiset(pile)[m]
  {
    if !IsEmpty(m.stack) {
      ChunksTotal(m.stack, CountsOf(pile)[m], 0);
    }
  }

  /** How many entries of the pile hold a real (non-empty) stack. */
  function RealItems(pile: seq<Material>): nat {
    if pile == [] then 0
    else RealItems(pile[..|pile| - 1]) + (if IsEmpty(pile[|pile| - 1].stack) then 0 else 1)
  }

  /** The items `order` accounts for: each real material's count in the pile. */
  function SumDropped(order: seq<Material>, pile: seq<Material>): int {
    if order == [] then 0
    else
      var last := order[|order| - 1];
      SumDropped(order[..|order| - 1], pile) + (if IsEmpty(last.stack) then 0 else multiset(pile)[last])
  }

  lemma {:induction false} TotalCountAppend(a: seq<ItemStack>, b: seq<ItemStack>)
    ensures TotalCount(a + b) == TotalCount(a) + TotalCount(b)
    decreases |b|
  {
    if b == [] {
      assert a + b == a;
    } else {
      assert (a + b)[..|a + b| - 1] == a + b[..|b| - 1];
      assert (a + b)[|a + b| - 1] == b[|b| - 1];
      TotalCountAppend(a, b[..|b| - 1]);
    }
  }

  lemma {:induction false} DropsInOrderTotal(order: seq<Material>, pile: seq<Material>)
    requires PileCanDrop(pile)
    requires forall k :: 0 <= k < |order| ==> order[k] in CountsOf(pile)
    ensures (PileCountsCanDrop(pile);
             TotalCount(DropsInOrder(order, CountsOf(pile))) == SumDropped(order, pile))
    decreases |order|
  {
    PileCountsCanDrop(pile);
    if order != [] {
      var last := order[|order| - 1];
      var counts := CountsOf(pile);
      DropsInOrderTotal(order[..|order| - 1], pile);
      TotalCountAppend(DropsInOrder(order[..|order| - 1], counts), MaterialDrops(last, counts[last]));
      if !IsEmpty(last.stack) {
        ChunksTotal(last.stack, counts[last], 0);
      }
    }
  }

  lemma {:induction false} SumDroppedEmptyPile(order: seq<Material>)
    ensures SumDropped(order, []) == 0
    decreases |order|
  {
    if order != [] {
      SumDroppedEmptyPile(order[..|order| - 1]);
    }
  }

  /** One more entry `x` in the pile adds one item to the account exactly when
      `x` is listed and real. */
  lemma {:induction false} SumDroppedSnoc(order: seq<Material>, pile: seq<Material>, x: Material)
    requires Distinct(order)
    ensures SumDropped(order, pile + [x]) ==
            SumDropped(order, pile) + (if x in order && !IsEmpty(x.stack) then 1 else 0)
    decreases |order|
  {
    if order != [] {
      var init := order[..|order| - 1];
      var last := order[|order| - 1];
      assert Distinct(init);
      SumDroppedSnoc(init, pile, x);
      assert multiset(pile + [x]) == multiset(pile) + multiset{x};
      assert x in order <==> x in init || x == last by {
        assert order == init + [last];
      }
      assert x == last ==> x !in init;
    }
  }

  lemma {:induction false} SumDroppedListing(order: seq<Material>, pile: seq<Material>)
    requires Distinct(order)
    requires forall m :: m in pile ==> m in order
    ensures SumDropped(order, pile) == RealItems(pile)
    decreases |pile|
  {
    if pile == [] {
      SumDroppedEmptyPile(order);
    } else {
      var init := pile[..|pile| - 1];
      var x := pile[|pile| - 1];
      assert pile == init + [x];
      SumDroppedListing(order, init);
      SumDroppedSnoc(order, init, x);
    }
  }

  lemma ListingCovers(order: seq<Material>, pile: seq<Material>)
    requires Listing(order, pile)
    ensures forall m :: m in pile ==> m in order
  {
    forall m | m in pile
      ensures m in order
    {
      var s1 := set x | x in order;
      var s2 := set x | x in pile;
      assert s1 == s2;
      assert m in s2;
    }
  }

  /** Breaking the pile (a sneaking harvest or a creative player) drops, over
      all stacks, exactly one item per pile entry holding a real stack. */
  lemma BreakDropsEveryItem(drops: seq<ItemStack>, out: seq<ItemStack>, order: seq<Material>, pile: seq<Material>)
    requires PileDrops(drops, out, order, pile)
    ensures TotalCount(out) == TotalCount(drops) + RealItems(pile)
  {
    PileCountsCanDrop(pile);
    TotalCountAppend(drops, DropsInOrder(order, CountsOf(pile)));
    DropsInOrderTotal(order, pile);
    ListingCovers(order, pile);
    SumDroppedListing(order, pile);
  }

  /** `cooldownMap.containsKey(player) && cooldownMap.get(player) >= now`. */
  predicate CooldownActive(cooldown: map<int, int>, player: int, now: int) {
    player in cooldown && cooldown[player] >= now
  }

  /** A take at time t blocks the same player at t and t + 1, not at t + 2. */
  lemma CooldownWindow(cooldown: map<int, int>, player: int, t: int)
    ensures CooldownActive(cooldown[player := t + 1], player, t)
    ensures CooldownActive(cooldown[player := t + 1], player, t + 1)
    ensures !CooldownActive(cooldown[player := t + 1], player, t + 2)
  {
  }

  datatype Player = Player(id: int, sneaking: bool, creative: bool)

  /** The tile entity holding the pile. */
  class StacksTile {
    var stacks: seq<Material>

    constructor (stacks: seq<Material>)
      ensures this.stacks == stacks
    {
      this.stacks := stacks;
    }

    /** `removeStack(false)`, whose body is not part of this model: it takes one
        element out of the pile (the one at `pick`, which the tile chooses) and
        returns that material's stack, or the empty stack for an empty pile. */
    method RemoveStack(pick: nat) returns (removed: ItemStack)
      requires stacks != [] ==> pick < |stacks|
      modifies this
      ensures old(stacks) == [] ==> stacks == [] && removed == EMPTY
      ensures old(stacks) != [] ==>
        stacks == old(stacks[..pick] + stacks[pick + 1..]) && removed == old(stacks[pick].stack)
    {
      if stacks == [] {
        return EMPTY;
      }
      removed := stacks[pick].stack;
      stacks := stacks[..pick] + stacks[pick + 1..];
    }
  }

  class World {
    /** `getTotalWorldTime()`. */
    var time: int
    /** Item entities spawned at the block, in order. */
    var spawned: seq<ItemStack>
    /** Whether the block has been set to air. */
    var blockIsAir: bool

    constructor (time: int)
      ensures this.time == time && spawned == [] && !blockIsAir
    {
      this.time := time;
      spawned := [];
      blockIsAir := false;
    }
  }

  class BlockStacks {
    /** Per player, the last world time at which harvests are still ignored. */
    var cooldownMap: map<int, int>

    constructor ()
      ensures cooldownMap == map[]
    {
      cooldownMap := map[];
    }

    method HarvestBlock(world: World, player: Player, te: StacksTile?, pick: nat)
        returns (ghost order: seq<Material>)
      requires te != null ==> PileCanDrop(te.stacks)
      requires te != null && te.stacks != [] ==> pick < |te.stacks|
      modifies this, world, te
      ensures world.time == old(world.time)
      // not a stacks tile, or the player's cooldown is running: nothing happens
      ensures te == null || old(CooldownActive(cooldownMap, player.id, world.time)) ==>
        && cooldownMap == old(cooldownMap) && world.spawned == old(world.spawned)
        && world.blockIsAir == old(world.blockIsAir) && (te != null ==> te.stacks == old(te.stacks))
      // sneaking: the whole pile drops and the block becomes air
      ensures te != null && !old(CooldownActive(cooldownMap, player.id, world.time)) && player.sneaking ==>
        && cooldownMap == old(cooldownMap) && te.stacks == old(te.stacks)
        && PileDrops(old(world.spawned), world.spawned, order, te.stacks)
        && world.blockIsAir
      // otherwise: one item is taken, the cooldown set to the next tick, and
      // the block becomes air once the pile is empty
      ensures te != null && !old(CooldownActive(cooldownMap, player.id, world.time)) && !player.sneaking ==>
        && cooldownMap == old(cooldownMap)[player.id := world.time + 1]
        && (old(te.stacks) == [] ==> te.stacks == [] && world.spawned == old(world.spawned))
        && (old(te.stacks) != [] ==>
              && te.stacks == old(te.stacks[..pick] + te.stacks[pick + 1..])
              && world.spawned == old(world.spawned) +
                   (if IsEmpty(old(te.stacks[pick].stack)) then []
                    else [old(te.stacks[pick].stack).(count := 1)]))
        && world.blockIsAir == (old(world.blockIsAir) || te.stacks == [])
    {
      order := [];
      if te == null {
        return;
      }
      if CooldownActive(cooldownMap, player.id, world.time) {
        return;
      }
      if player.sneaking {
        order := BreakPile(world, te);
      } else {
        cooldownMap := cooldownMap[player.id := world.time + 1];
        TakeOne(world, te, pick);
      }
    }

    /** Sneaking harvest: the whole pile drops and the block becomes air. */
    static method BreakPile(world: World, te: StacksTile) returns (ghost order: seq<Material>)
      requires PileCanDrop(te.stacks)
      modifies world
      ensures world.time == old(world.time)
      ensures PileDrops(old(world.spawned), world.spawned, order, te.stacks)
      ensures world.blockIsAir
    {
      var drops;
      drops, order := GetDrops([], Some(te.stacks));
      PileDropsAfter(world.spawned, drops, order, te.stacks);
      world.spawned := world.spawned + drops;
      world.blockIsAir := true;
    }

    /** Single harvest: one element leaves the pile, its item drops with count
        1, and the block becomes air once the pile is empty. */
    static method TakeOne(world: World, te: StacksTile, pick: nat)
      requires te.stacks != [] ==> pick < |te.stacks|
      modifies world, te
      ensures world.time == old(world.time)
      ensures old(te.stacks) == [] ==> te.stacks == [] && world.spawned == old(world.spawned)
      ensures old(te.stacks) != [] ==>
        && te.stacks == old(te.stacks[..pick] + te.stacks[pick + 1..])
        && world.spawned == old(world.spawned) +
             (if IsEmpty(old(te.stacks[pick].stack)) then [] else [old(te.stacks[pick].stack).(count := 1)])
      ensures world.blockIsAir == (old(world.blockIsAir) || te.stacks == [])
    {
      var stackRemoved := te.RemoveStack(pick);
      if !IsEmpty(stackRemoved) {
        if stackRemoved.count > 1 {
          stackRemoved := stackRemoved.(count := 1);
        }
        world.spawned := world.spawned + [stackRemoved];
      }
      if te.stacks == [] {
        world.blockIsAir := true;
      }
    }

    /** `removedByPlayer`: a creative player breaks the whole pile at once; for
        anyone else the block survives exactly while the cooldown runs. */
    method RemovedByPlayer(world: World, player: Player, te: StacksTile?)
        returns (removed: bool, ghost order: seq<Material>)
      requires te != null ==> PileCanDrop(te.stacks)
      modifies world
      ensures world.time == old(world.time)
      ensures player.creative ==> removed && world.blockIsAir
      ensures player.creative && te == null ==> world.spawned == old(world.spawned)
      ensures player.creative && te != null ==>
        && PileDrops(old(world.spawned), world.spawned, order, te.stacks)
      ensures !player.creative ==>
        && (removed <==> !CooldownActive(cooldownMap, player.id, world.time))
        && world.spawned == old(world.spawned) && world.blockIsAir == old(world.blockIsAir)
    {
      order := [];
      if player.creative {
        var drops;
        drops, order := GetDrops([], if te != null then Some(te.stacks) else None);
        if te != null {
          PileDropsAfter(world.spawned, drops, order, te.stacks);
        }
        world.spawned := world.spawned + drops;
        world.blockIsAir := true;
        return true, order;
      }
      removed := !CooldownActive(cooldownMap, player.id, world.time);
    }
  }
}
