/** The texture bookkeeping of the gate texture-stitch handler, for one
    gate: step 1 gives each colour-masked layer a texture of its own and
    records it under the layer's base texture and mask colour, step 2
    gathers every texture the gate uses, step 3 sets a mask sprite per mask
    and a composite sprite per base texture and takes their textures out of
    the set, step 4 registers what is left as plain sprites. */
module GateStitch {
  import opened JavaBase

  // ------------------------------------------------- colour-mask gathering

  /** A layer of a gate's render definition: an optional hexadecimal colour
      mask, an optional texture name and the name of the texture the mask
      cuts from. */
  datatype Layer = Layer(colorMask: Option<string>, texture: Option<string>, textureBase: string)

  /** The gate's render definition, whose layers step 1 updates. */
  class GateDefinition {
    var layers: seq<Layer>
  }

  /** Base texture name -> mask colour -> texture of the mask layer. */
  type ColorMasks = map<string, map<int, string>>

  /** The texture a masked layer at position i of gate `ns:path` gets. */
  function LayerTexture(ns: string, path: string, i: nat): string {
    ns + ":blocks/" + path + "/layer_" + NatToString(i)
  }

  /** Layer i has a mask, cut from base b, whose hexadecimal value is c. */
  predicate MaskedAs(layer: Layer, b: string, c: int) {
    layer.colorMask.Some? && layer.textureBase == b && ParseHexInt(layer.colorMask.value) == Some(c)
  }

  /** `computeIfAbsent(base, new map).put(c, t)`. */
  function AddMask(m: ColorMasks, base: string, c: int, t: string): ColorMasks {
    m[base := (if base in m then m[base] else map[])[c := t]]
  }

  /** The colour masks after the first n layers, or the position of the
      layer whose mask does not parse (`Integer.parseInt` throws). */
  function GatherMasks(ns: string, path: string, layers: seq<Layer>, n: nat): Result<ColorMasks, nat>
    requires n <= |layers|
  {
    if n == 0 then Ok(map[])
    else match GatherMasks(ns, path, layers, n - 1)
      case Err(e) => Err(e)
      case Ok(m) =>
        var layer := layers[n - 1];
        if layer.colorMask.None? then Ok(m)
        else match ParseHexInt(layer.colorMask.value)
          case None => Err(n - 1)
          case Some(c) => Ok(AddMask(m, layer.textureBase, c, LayerTexture(ns, path, n - 1)))
  }

  /** The layers after step 1 has reached layer n - 1: each masked layer
      before n has its texture set to its own layer texture. */
  function MarkedLayers(ns: string, path: string, layers: seq<Layer>, n: int): (r: seq<Layer>)
    ensures |r| == |layers|
  {
    seq(|layers|, j requires 0 <= j < |layers| =>
      if j < n && layers[j].colorMask.Some? then layers[j].(texture := Some(LayerTexture(ns, path, j)))
      else layers[j])
  }

  /** Step 1: give every masked layer its texture and record it under its
      base texture and mask colour; the layer counter advances over every
      layer. A mask that does not parse ends the handler at that layer. */
  method GatherColorMasks(ns: string, path: string, def: GateDefinition) returns (r: Result<ColorMasks, nat>)
    modifies def
    ensures r == GatherMasks(ns, path, old(def.layers), |old(def.layers)|)
    ensures def.layers == MarkedLayers(ns, path, old(def.layers), if r.Ok? then |old(def.layers)| else r.error + 1)
  {
    ghost var layers0 := def.layers;
    var colorMasks: ColorMasks := map[];
    var i := 0;
    while i < |def.layers|
      invariant |def.layers| == |layers0| && 0 <= i <= |layers0|
      invariant def.layers == MarkedLayers(ns, path, layers0, i)
      invariant GatherMasks(ns, path, layers0, i) == Ok(colorMasks)
    {
      var layer := def.layers[i];
      assert layer == layers0[i];
      if layer.colorMask.Some? {
        var texture := LayerTexture(ns, path, i);
        def.layers := def.layers[i := layer.(texture := Some(texture))];
        assert def.layers == MarkedLayers(ns, path, layers0, i + 1);
        var forBase := if layer.textureBase in colorMasks then colorMasks[layer.textureBase] else map[];
        var color := ParseHexInt(layer.colorMask.value);
        if color.None? {
          GatherErrorSticks(ns, path, layers0, i + 1, |layers0|);
          return Err(i);
        }
        colorMasks := colorMasks[layer.textureBase := forBase[color.value := texture]];
      } else {
        assert def.layers == MarkedLayers(ns, path, layers0, i + 1);
      }
      i := i + 1;
    }
    return Ok(colorMasks);
  }

  /** Once a mask has failed to parse, later layers do not change the outcome. */
  lemma {:induction false} GatherErrorSticks(ns: string, path: string, layers: seq<Layer>, n: nat, n': nat)
    requires n <= n' <= |layers| && GatherMasks(ns, path, layers, n).Err?
    ensures GatherMasks(ns, path, layers, n') == GatherMasks(ns, path, layers, n)
    decreases n' - n
  {
    if n < n' {
      GatherErrorSticks(ns, path, layers, n, n' - 1);
    }
  }

  /** Different layers' textures have different names. */
  lemma {:induction false} LayerTextureInjective(ns: string, path: string, i: nat, j: nat)
    requires i != j
    ensures LayerTexture(ns, path, i) != LayerTexture(ns, path, j)
  {
    var prefix := ns + ":blocks/" + path + "/layer_";
    assert LayerTexture(ns, path, i)[|prefix|..] == NatToString(i);
    assert LayerTexture(ns, path, j)[|prefix|..] == NatToString(j);
    NatToStringRoundTrip(i);
    NatToStringRoundTrip(j);
  }

  /** Step 1 stops exactly at the first masked layer whose mask is not a
      hexadecimal `int`. */
  lemma {:induction false} GatherErrorAt(ns: string, path: string, layers: seq<Layer>, n: nat, e: nat)
    requires n <= |layers|
    ensures GatherMasks(ns, path, layers, n) == Err(e) <==>
      e < n && layers[e].colorMask.Some? && ParseHexInt(layers[e].colorMask.value).None? &&
      forall j :: 0 <= j < e && layers[j].colorMask.Some? ==> ParseHexInt(layers[j].colorMask.value).Some?
  {
    if n > 0 {
      GatherErrorAt(ns, path, layers, n - 1, e);
      match GatherMasks(ns, path, layers, n - 1)
      case Err(e2) =>
        GatherErrorAt(ns, path, layers, n - 1, e2);
      case Ok(_) =>
        GatherOkParses(ns, path, layers, n - 1);
    }
  }

  /** When step 1 gets through n layers, every masked one among them parsed. */
  lemma {:induction false} GatherOkParses(ns: string, path: string, layers: seq<Layer>, n: nat)
    requires n <= |layers| && GatherMasks(ns, path, layers, n).Ok?
    ensures forall j :: 0 <= j < n && layers[j].colorMask.Some? ==> ParseHexInt(layers[j].colorMask.value).Some?
  {
    if n > 0 {
      GatherOkParses(ns, path, layers, n - 1);
    }
  }

  /** Every recorded texture comes from a masked layer with that base and
      colour: the layer's own texture. */
  lemma {:induction false} GatherSound(ns: string, path: string, layers: seq<Layer>, n: nat)
    requires n <= |layers| && GatherMasks(ns, path, layers, n).Ok?
    ensures var m := GatherMasks(ns, path, layers, n).value;
      forall b, c :: b in m && c in m[b] ==>
        exists j :: 0 <= j < n && MaskedAs(layers[j], b, c) && m[b][c] == LayerTexture(ns, path, j)
  {
    if n > 0 {
      GatherSound(ns, path, layers, n - 1);
    }
  }

  /** Layer k is the last of the first n layers masked with base b and colour c. */
  ghost predicate LastMasked(layers: seq<Layer>, k: nat, n: nat, b: string, c: int)
    requires n <= |layers|
  {
    k < n && MaskedAs(layers[k], b, c) && forall k' :: k < k' < n ==> !MaskedAs(layers[k'], b, c)
  }

  /** Every masked layer is recorded under its base and colour; when several
      layers share both, the last of them wins. */
  lemma {:induction false} GatherComplete(ns: string, path: string, layers: seq<Layer>, n: nat, j: nat, b: string, c: int)
    requires j < n <= |layers| && GatherMasks(ns, path, layers, n).Ok?
    requires MaskedAs(layers[j], b, c)
    ensures var m := GatherMasks(ns, path, layers, n).value;
      b in m && c in m[b] &&
      exists k :: j <= k && LastMasked(layers, k, n, b, c) && m[b][c] == LayerTexture(ns, path, k)
  {
    var m := GatherMasks(ns, path, layers, n).value;
    GatherStep(ns, path, layers, n);
    if MaskedAs(layers[n - 1], b, c) {
      assert LastMasked(layers, n - 1, n, b, c);
      assert m[b][c] == LayerTexture(ns, path, n - 1);
    } else {
      GatherComplete(ns, path, layers, n - 1, j, b, c);
      var m' := GatherMasks(ns, path, layers, n - 1).value;
      var k :| j <= k && LastMasked(layers, k, n - 1, b, c) && m'[b][c] == LayerTexture(ns, path, k);
      LastMaskedExtends(layers, k, n, b, c);
      assert m[b][c] == m'[b][c];
    }
  }

  lemma LastMaskedExtends(layers: seq<Layer>, k: nat, n: nat, b: string, c: int)
    requires 0 < n <= |layers| && LastMasked(layers, k, n - 1, b, c) && !MaskedAs(layers[n - 1], b, c)
    ensures LastMasked(layers, k, n, b, c)
  {
  }

  /** One layer's step of the gathering: an unmasked layer leaves the masks
      alone, a parsed mask of base b and colour c sets entry (b, c) and
      nothing else. */
  lemma GatherStep(ns: string, path: string, layers: seq<Layer>, n: nat)
    requires 0 < n <= |layers| && GatherMasks(ns, path, layers, n).Ok?
    ensures GatherMasks(ns, path, layers, n - 1).Ok?
    ensures var m := GatherMasks(ns, path, layers, n).value;
      var m' := GatherMasks(ns, path, layers, n - 1).value;
      var layer := layers[n - 1];
      (layer.colorMask.None? ==> m == m') &&
      (layer.colorMask.Some? ==>
         ParseHexInt(layer.colorMask.value).Some? &&
         m == AddMask(m', layer.textureBase, ParseHexInt(layer.colorMask.value).value, LayerTexture(ns, path, n - 1)))
  {
  }

  // ---------------------------------------------------- texture bookkeeping

  /** A sprite handed to the atlas with `setTextureEntry`: a mask sprite cut
      from a base texture by one colour, or the composite of a base texture
      over the underlay with the masked colours cleared. */
  datatype SpriteEntry =
    | MaskSprite(name: string, base: string, color: int)
    | CompositeSprite(base: string, maskedColors: set<int>, underlay: string)

  /** The texture atlas being stitched, as the handler uses it: the sprite
      entries set and the sprite names registered, in order. */
  class TextureMap {
    var entries: seq<SpriteEntry>
    var registered: seq<string>
  }

  /** The textures the layers name. */
  function LayerTextures(layers: seq<Layer>): set<string> {
    if layers == [] then {}
    else
      var last := layers[|layers| - 1];
      LayerTextures(layers[..|layers| - 1]) + (if last.texture.Some? then {last.texture.value} else {})
  }

  /** A texture is a layer texture exactly when some layer names it. */
  lemma {:induction false} LayerTexturesMembers(layers: seq<Layer>, t: string)
    ensures t in LayerTextures(layers) <==> exists j :: 0 <= j < |layers| && layers[j].texture == Some(t)
  {
    if layers != [] {
      var init := layers[..|layers| - 1];
      LayerTexturesMembers(init, t);
      if exists j :: 0 <= j < |layers| && layers[j].texture == Some(t) {
        var j :| 0 <= j < |layers| && layers[j].texture == Some(t);
        assert j < |layers| - 1 ==> init[j] == layers[j];
      }
    }
  }

  /** Step 2: the textures of the definition's models together with every
      layer texture. */
  method GatherTextures(modelTextures: set<string>, layers: seq<Layer>) returns (textures: set<string>)
    ensures textures == modelTextures + LayerTextures(layers)
  {
    textures := modelTextures;
    var i := 0;
    while i < |layers|
      invariant 0 <= i <= |layers|
      invariant textures == modelTextures + LayerTextures(layers[..i])
    {
      assert layers[..i + 1][..i] == layers[..i];
      if layers[i].texture.Some? {
        textures := textures + {layers[i].texture.value};
      }
      i := i + 1;
    }
    assert layers[..i] == layers;
  }

  /** The textures of a set of (colour, texture) entries. */
  ghost function Produced(items: set<(int, string)>): set<string> {
    set e | e in items :: e.1
  }

  /** The textures the mask sprites produce. */
  ghost function Results(masks: ColorMasks): set<string> {
    set b, e | b in masks && e in masks[b].Items :: e.1
  }

  /** The entries step 3 sets for one base texture b with mask map m. */
  ghost predicate BaseEntry(b: string, m: map<int, string>, underlay: string, e: SpriteEntry) {
    match e
    case MaskSprite(name, base, c) => base == b && c in m && name == m[c]
    case CompositeSprite(base, cs, u) => base == b && cs == m.Keys && u == underlay
  }

  /** The entries step 3 sets for all base textures. */
  ghost predicate MaskEntry(masks: ColorMasks, underlay: string, e: SpriteEntry) {
    e.base in masks && BaseEntry(e.base, masks[e.base], underlay, e)
  }

  /** Step 3 for one base texture b: a mask sprite for each (colour, texture)
      entry, each removing its texture from the set, then the composite of
      b, removing b. */
  method AddBaseSprites(b: string, m: map<int, string>, textures: set<string>, underlay: string,
                        atlas: TextureMap) returns (rest: set<string>)
    modifies atlas
    ensures rest == textures - Produced(m.Items) - {b}
    ensures atlas.registered == old(atlas.registered)
    ensures old(atlas.entries) <= atlas.entries
    ensures forall k :: |old(atlas.entries)| <= k < |atlas.entries| ==> BaseEntry(b, m, underlay, atlas.entries[k])
    ensures forall c :: c in m ==> MaskSprite(m[c], b, c) in atlas.entries[|old(atlas.entries)|..]
    ensures CompositeSprite(b, m.Keys, underlay) in atlas.entries[|old(atlas.entries)|..]
  {
    ghost var start := atlas.entries;
    rest := textures;
    var items := m.Items;
    ghost var done: set<(int, string)> := {};
    while items != {}
      invariant items <= m.Items && done == m.Items - items
      invariant rest == textures - Produced(done)
      invariant atlas.registered == old(atlas.registered)
      invariant BaseLoop(b, m, underlay, start, atlas.entries, done)
      decreases |items|
    {
      var e :| e in items;
      var (color, resultingTexture) := e;
      assert color in m && m[color] == resultingTexture;
      AddMaskSprite(b, m, underlay, atlas, start, done, color);
      assert rest - {resultingTexture} == textures - Produced(done + {e}) by {
        assert Produced(done + {e}) == Produced(done) + {resultingTexture};
        RemoveOne(textures, Produced(done), resultingTexture);
      }
      rest := rest - {resultingTexture};
      items := items - {e};
      done := done + {e};
    }
    AddCompositeSprite(b, m, underlay, atlas, start);
    rest := rest - {b};
  }

  /** The composite sprite of b, after all its mask sprites. */
  method AddCompositeSprite(b: string, m: map<int, string>, underlay: string, atlas: TextureMap,
                            ghost start: seq<SpriteEntry>)
    requires BaseLoop(b, m, underlay, start, atlas.entries, m.Items)
    modifies atlas
    ensures atlas.registered == old(atlas.registered)
    ensures start <= atlas.entries
    ensures forall k :: |start| <= k < |atlas.entries| ==> BaseEntry(b, m, underlay, atlas.entries[k])
    ensures forall c :: c in m ==> MaskSprite(m[c], b, c) in atlas.entries[|start|..]
    ensures CompositeSprite(b, m.Keys, underlay) in atlas.entries[|start|..]
  {
    ghost var before := atlas.entries;
    atlas.entries := atlas.entries + [CompositeSprite(b, m.Keys, underlay)];
    assert atlas.entries[|start|..] == before[|start|..] + [CompositeSprite(b, m.Keys, underlay)];
    forall c | c in m ensures MaskSprite(m[c], b, c) in atlas.entries[|start|..] {
      assert (c, m[c]) in m.Items;
    }
  }

  /** The entries set so far for base b: mask sprites only, one for each
      entry done. */
  ghost predicate BaseLoop(b: string, m: map<int, string>, underlay: string,
                           start: seq<SpriteEntry>, entries: seq<SpriteEntry>, done: set<(int, string)>) {
    start <= entries &&
    (forall k :: |start| <= k < |entries| ==> BaseEntry(b, m, underlay, entries[k])) &&
    (forall c :: c in m && (c, m[c]) in done ==> MaskSprite(m[c], b, c) in entries[|start|..])
  }

  /** The mask sprite of colour c: `setTextureEntry` of the sprite cutting
      colour c out of b. */
  method AddMaskSprite(b: string, m: map<int, string>, underlay: string, atlas: TextureMap,
                       ghost start: seq<SpriteEntry>, ghost done: set<(int, string)>, c: int)
    requires c in m && BaseLoop(b, m, underlay, start, atlas.entries, done)
    modifies atlas
    ensures atlas.entries == old(atlas.entries) + [MaskSprite(m[c], b, c)]
    ensures atlas.registered == old(atlas.registered)
    ensures BaseLoop(b, m, underlay, start, atlas.entries, done + {(c, m[c])})
  {
    ghost var before := atlas.entries;
    atlas.entries := atlas.entries + [MaskSprite(m[c], b, c)];
    assert atlas.entries[|start|..] == before[|start|..] + [MaskSprite(m[c], b, c)];
  }

  /** Removing p and then x from what is left after removing r and d is
      removing r + p and d + {x}. */
  lemma RemoveMore(a: set<string>, r: set<string>, d: set<string>, p: set<string>, x: string)
    ensures a - r - d - p - {x} == a - (r + p) - (d + {x})
  {
  }

  lemma RemoveOne(a: set<string>, r: set<string>, x: string)
    ensures a - r - {x} == a - (r + {x})
  {
  }

  /** The result textures of the base textures in `done`. */
  ghost function ResultsIn(masks: ColorMasks, done: set<string>): set<string> {
    set b, e | b in done && b in masks && e in masks[b].Items :: e.1
  }

  lemma ResultsInGrow(masks: ColorMasks, done: set<string>, b: string)
    requires b in masks
    ensures ResultsIn(masks, done + {b}) == ResultsIn(masks, done) + Produced(masks[b].Items)
  {
  }

  lemma ResultsInAll(masks: ColorMasks)
    ensures ResultsIn(masks, masks.Keys) == Results(masks)
  {
  }

  /** The entries set so far in step 3: only entries for `masks`, and all
      of those for the base textures done. */
  ghost predicate MaskLoop(masks: ColorMasks, underlay: string, start: seq<SpriteEntry>,
                           entries: seq<SpriteEntry>, done: set<string>) {
    start <= entries &&
    (forall k :: |start| <= k < |entries| ==> MaskEntry(masks, underlay, entries[k])) &&
    (forall b, c :: b in done && b in masks && c in masks[b] ==> MaskSprite(masks[b][c], b, c) in entries[|start|..]) &&
    (forall b :: b in done && b in masks ==> CompositeSprite(b, masks[b].Keys, underlay) in entries[|start|..])
  }

  /** Step 3: the sprites of every base texture with colour masks; the
      result textures and the base textures leave the set. */
  method AddMaskedSprites(masks: ColorMasks, textures: set<string>, underlay: string, atlas: TextureMap)
    returns (rest: set<string>)
    modifies atlas
    ensures rest == textures - Results(masks) - masks.Keys
    ensures atlas.registered == old(atlas.registered)
    ensures MaskLoop(masks, underlay, old(atlas.entries), atlas.entries, masks.Keys)
  {
    ghost var start := atlas.entries;
    rest := textures;
    var bases := masks.Keys;
    ghost var done: set<string> := {};
    while bases != {}
      invariant bases <= masks.Keys && done == masks.Keys - bases
      invariant rest == textures - ResultsIn(masks, done) - done
      invariant atlas.registered == old(atlas.registered)
      invariant MaskLoop(masks, underlay, start, atlas.entries, done)
      decreases |bases|
    {
      var b :| b in bases;
      assert rest - Produced(masks[b].Items) - {b} == textures - ResultsIn(masks, done + {b}) - (done + {b}) by {
        ResultsInGrow(masks, done, b);
        RemoveMore(textures, ResultsIn(masks, done), done, Produced(masks[b].Items), b);
      }
      rest := AddOneBase(masks, b, rest, underlay, atlas, start, done);
      bases := bases - {b};
      done := done + {b};
    }
    ResultsInAll(masks);
  }

  /** One base texture of step 3, inside the loop over all of them. */
  method AddOneBase(masks: ColorMasks, b: string, textures: set<string>, underlay: string, atlas: TextureMap,
                    ghost start: seq<SpriteEntry>, ghost done: set<string>) returns (rest: set<string>)
    requires b in masks && MaskLoop(masks, underlay, start, atlas.entries, done)
    modifies atlas
    ensures rest == textures - Produced(masks[b].Items) - {b}
    ensures atlas.registered == old(atlas.registered)
    ensures MaskLoop(masks, underlay, start, atlas.entries, done + {b})
  {
    ghost var before := atlas.entries;
    rest := AddBaseSprites(b, masks[b], textures, underlay, atlas);
    assert atlas.entries[|start|..] == before[|start|..] + atlas.entries[|before|..];
  }

  /** Step 4: every texture left is registered as a plain sprite, once. */
  method RegisterRemaining(textures: set<string>, atlas: TextureMap)
    modifies atlas
    ensures atlas.entries == old(atlas.entries)
    ensures old(atlas.registered) <= atlas.registered
    ensures |atlas.registered| == |old(atlas.registered)| + |textures|
    ensures forall t :: t in atlas.registered[|old(atlas.registered)|..] <==> t in textures
  {
    ghost var start := atlas.registered;
    var remaining := textures;
    while remaining != {}
      invariant remaining <= textures
      invariant atlas.entries == old(atlas.entries)
      invariant start <= atlas.registered
      invariant |atlas.registered| - |start| + |remaining| == |textures|
      invariant forall t :: t in atlas.registered[|start|..] <==> t in textures - remaining
      decreases |remaining|
    {
      var t :| t in remaining;
      ghost var before := atlas.registered;
      atlas.registered := atlas.registered + [t];
      assert atlas.registered[|start|..] == before[|start|..] + [t];
      remaining := remaining - {t};
    }
  }

  /** One gate's share of the texture-stitch handler: step 1 gathers the
      colour masks, step 2 the textures, step 3 sets the mask and composite
      sprites and takes their textures out of the set, step 4 registers the
      rest. A mask that does not parse ends the handler after step 1. */
  method StitchGate(ns: string, path: string, def: GateDefinition, modelTextures: set<string>,
                    underlay: string, atlas: TextureMap) returns (r: Result<ColorMasks, nat>)
    modifies def, atlas
    ensures r == GatherMasks(ns, path, old(def.layers), |old(def.layers)|)
    ensures def.layers == MarkedLayers(ns, path, old(def.layers), if r.Ok? then |old(def.layers)| else r.error + 1)
    ensures r.Err? ==> atlas.entries == old(atlas.entries) && atlas.registered == old(atlas.registered)
    ensures r.Ok? ==> MaskLoop(r.value, underlay, old(atlas.entries), atlas.entries, r.value.Keys)
    ensures r.Ok? ==> old(atlas.registered) <= atlas.registered
    ensures r.Ok? ==> forall t :: t in atlas.registered[|old(atlas.registered)|..] <==>
      t in modelTextures + LayerTextures(def.layers) && t !in Results(r.value) && t !in r.value.Keys
  {
    r := GatherColorMasks(ns, path, def);
    if r.Err? {
      return;
    }
    var textures := GatherTextures(modelTextures, def.layers);
    var rest := AddMaskedSprites(r.value, textures, underlay, atlas);
    RegisterRemaining(rest, atlas);
  }
}
