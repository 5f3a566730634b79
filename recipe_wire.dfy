/** The wire recipe ingredient: it matches wire item stacks of one wire
    provider, freestanding, not freestanding or either (a three-valued flag).
    A wire stack's metadata carries the provider's registry id shifted left by
    one, with the freestanding flag in the low bit. */
module RecipeWire {
  import opened JavaBase

  datatype TriResult = Yes | No | Maybe

  /** The parts of an item stack the matcher reads. */
  datatype Stack = Stack(empty: bool, isWireItem: bool, metadata: int)

  /** The ingredient: the provider, by its registry id, and the flag. */
  datatype RecipeObjectWire = RecipeObjectWire(providerId: int, freestanding: TriResult)

  /** `(id << 1) | bit` on Java `int`s: the shift wraps around, and the low bit
      of a shifted value is always clear, so the OR adds the bit. */
  function Encode(id: int, bit: bool): (meta: int)
    ensures IsInt32(meta)
    // the low bit is the flag, the rest is `id << 1` modulo 2^32
    ensures meta % 2 == (if bit then 1 else 0)
    ensures (meta - 2 * id - (if bit then 1 else 0)) % TWO_32 == 0
  {
    WrapEven(id);
    Wrap32(2 * id) + (if bit then 1 else 0)
  }

  lemma WrapEven(id: int)
    ensures Wrap32(2 * id) % 2 == 0
    ensures Wrap32(2 * id) + 1 < TWO_31
  {
    var x := 2 * id + TWO_31;
    var q := x / TWO_32;
    assert x == TWO_32 * q + x % TWO_32;
    assert Wrap32(2 * id) == 2 * id - TWO_32 * q;
    assert 2 * id - TWO_32 * q == 2 * (id - 0x8000_0000 * q);
  }

  /** `stackMeta &= ~1`: the low bit cleared (Euclidean `%` agrees with the
      two's-complement bit for negative values too). */
  function ClearLowBit(meta: int): int {
    meta - meta % 2
  }

  /** The metadata the ingredient compares with. */
  function CmpMeta(r: RecipeObjectWire): (meta: int)
    ensures IsInt32(meta)
    ensures meta % 2 == 1 <==> r.freestanding == Yes
  {
    Encode(r.providerId, r.freestanding == Yes)
  }

  /** `test`: a non-empty wire stack whose metadata, with the low bit cleared
      for MAYBE, is the ingredient's metadata. */
  function Test(r: RecipeObjectWire, stack: Stack): (matches: bool)
    ensures matches ==> !stack.empty && stack.isWireItem
  {
    if !stack.empty && stack.isWireItem then
      var stackMeta := if r.freestanding == Maybe then ClearLowBit(stack.metadata) else stack.metadata;
      CmpMeta(r) == stackMeta
    else false
  }

  /** An empty stack or a stack of another item never matches. */
  lemma TestRejectsOtherStacks(r: RecipeObjectWire, stack: Stack)
    requires stack.empty || !stack.isWireItem
    ensures !Test(r, stack)
  {
  }

  /** For the ids whose shift does not wrap, the encoding is plain arithmetic. */
  lemma EncodeSmall(id: int, bit: bool)
    requires 0 <= id < 0x4000_0000
    ensures Encode(id, bit) == 2 * id + (if bit then 1 else 0)
  {
  }

  /** YES matches exactly the metadata `(id << 1) | 1`, NO exactly `id << 1`. */
  lemma {:induction false} TestExact(r: RecipeObjectWire, stack: Stack)
    requires r.freestanding != Maybe
    requires !stack.empty && stack.isWireItem
    ensures Test(r, stack) <==> stack.metadata == Encode(r.providerId, r.freestanding == Yes)
  {
  }

  /** MAYBE matches exactly the two metadata values `id << 1` and `(id << 1) | 1`. */
  lemma {:induction false} TestMaybe(r: RecipeObjectWire, stack: Stack)
    requires r.freestanding == Maybe
    requires !stack.empty && stack.isWireItem
    ensures Test(r, stack) <==>
      stack.metadata == Encode(r.providerId, false) || stack.metadata == Encode(r.providerId, true)
  {
    var w := Wrap32(2 * r.providerId);
    WrapEven(r.providerId);
    var m := stack.metadata;
    if m == w || m == w + 1 {
      assert m % 2 == m - w;
    }
    if ClearLowBit(m) == w {
      assert m == w + m % 2;
    }
  }

  /** For a non-negative 32-bit pattern, the wrap is the two's-complement reading. */
  lemma WrapOfPattern(x: int)
    requires 0 <= x < TWO_32
    ensures Wrap32(x) == if x < TWO_31 then x else x - TWO_32
  {
  }

  /** Two ingredients of different providers with ids in the registry's
      range (any non-negative `int`, so in particular 1..MAX_ID) never accept
      the same stack, whatever their flags. */
  lemma {:induction false} DistinctProvidersDisjoint(r1: RecipeObjectWire, r2: RecipeObjectWire, stack: Stack)
    requires 0 <= r1.providerId < TWO_31 && 0 <= r2.providerId < TWO_31
    requires r1.providerId != r2.providerId
    ensures !(Test(r1, stack) && Test(r2, stack))
  {
    AcceptedKeepsId(r1, stack);
    AcceptedKeepsId(r2, stack);
    WrapOfPattern(2 * r1.providerId);
    WrapOfPattern(2 * r2.providerId);
  }

  /** Whatever the flag, an accepted stack's metadata with the low bit cleared
      is the provider's shifted id. */
  lemma AcceptedKeepsId(r: RecipeObjectWire, stack: Stack)
    ensures Test(r, stack) ==> ClearLowBit(stack.metadata) == Wrap32(2 * r.providerId)
  {
    var w := Wrap32(2 * r.providerId);
    WrapEven(r.providerId);
    var m := stack.metadata;
    assert m == w || m == w + 1 ==> m % 2 == m - w;
  }

  /** `preview`: the freestanding flags of the wire stacks shown for the
      ingredient, in order. */
  function Preview(r: RecipeObjectWire): (variants: seq<bool>)
    // MAYBE previews both variants, non-freestanding first; NO and YES one each
    ensures 1 <= |variants| <= 2
    ensures forall b :: b in variants <==> r.freestanding == Maybe || (b <==> r.freestanding == Yes)
    ensures |variants| == 2 ==> variants == [false, true]
  {
    match r.freestanding
    case Maybe => [false, true]
    case No => [false]
    case Yes => [true]
  }

  /** The wire stack of a provider with a freestanding flag, under the
      metadata layout `(id << 1) | freestanding` the matcher decodes (the item's
      own `toStack` is not part of this model). */
  function WireStack(id: int, freestanding: bool): Stack {
    Stack(false, true, Encode(id, freestanding))
  }

  /** The ingredient accepts a wire stack of its own provider exactly when
      the preview shows that variant. */
  lemma {:induction false} PreviewIsWhatMatches(r: RecipeObjectWire, freestanding: bool)
    ensures Test(r, WireStack(r.providerId, freestanding)) <==> freestanding in Preview(r)
  {
    WrapEven(r.providerId);
    if r.freestanding == Maybe {
      TestMaybe(r, WireStack(r.providerId, freestanding));
    } else {
      TestExact(r, WireStack(r.providerId, freestanding));
    }
  }
}
