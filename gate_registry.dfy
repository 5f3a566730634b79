/** The gate registry of the logic-gate module: each gate logic is registered
    under a resource name, unless the "gates" section of the configuration
    switches it off, together with the location of its gate definition and
    its unlocalized name; the name-to-class map is a bidirectional map, so a
    logic object finds its name from its class. Item stacks of gates are
    collected for the creative tab, and the logics of stacks marked
    inversion-sensitive are remembered. */
module GateRegistry {
  import opened JavaBase

  /** A Minecraft resource location, `namespace:path`. */
  datatype ResourceLocation = ResourceLocation(namespace: string, path: string)

  /** `ResourceLocation.toString()`. */
  function LocationString(r: ResourceLocation): string {
    r.namespace + ":" + r.path
  }

  /** A gate logic class, by its fully qualified Java name. */
  type LogicClass = string

  // ------------------------------------------------------- bidirectional map

  /** A `HashBiMap` from names to logic classes, as its two directions. */
  datatype BiMap = BiMap(forward: map<ResourceLocation, LogicClass>,
                         inverse: map<LogicClass, ResourceLocation>)

  /** The two directions are inverse to each other. */
  ghost predicate BiValid(b: BiMap) {
    (forall n :: n in b.forward ==> b.forward[n] in b.inverse && b.inverse[b.forward[n]] == n) &&
    (forall c :: c in b.inverse ==> b.inverse[c] in b.forward && b.forward[b.inverse[c]] == c)
  }

  /** `put(k, v)`: None when v is already bound to another key (Guava throws
      an IllegalArgumentException and changes nothing); otherwise k is bound
      to v, dropping the class k was bound to before. */
  function BiPut(b: BiMap, k: ResourceLocation, v: LogicClass): Option<BiMap> {
    if v in b.inverse && b.inverse[v] != k then None
    else
      var inv := if k in b.forward then b.inverse - {b.forward[k]} else b.inverse;
      Some(BiMap(b.forward[k := v], inv[v := k]))
  }

  /** `put` fails exactly on a class already registered under another name;
      otherwise the name and the class find each other and every other pair
      is kept, both ways. */
  lemma {:induction false} BiPutSpec(b: BiMap, k: ResourceLocation, v: LogicClass)
    requires BiValid(b)
    ensures BiPut(b, k, v).None? <==> (v in b.inverse && b.inverse[v] != k)
    ensures BiPut(b, k, v).Some? ==>
      var b' := BiPut(b, k, v).value;
      BiValid(b') &&
      b'.forward == b.forward[k := v] &&
      b'.inverse[v] == k &&
      (forall c :: c != v ==> (c in b'.inverse <==> c in b.inverse && b.inverse[c] != k)) &&
      (forall c :: c != v && c in b'.inverse ==> b'.inverse[c] == b.inverse[c])
  {
    if BiPut(b, k, v).Some? {
      var b' := BiPut(b, k, v).value;
      forall c | c in b.inverse && c != v
        ensures (c in b'.inverse <==> b.inverse[c] != k)
      {
        if b.inverse[c] == k {
          assert b.forward[k] == c;
        }
      }
      forall n | n in b'.forward
        ensures b'.forward[n] in b'.inverse && b'.inverse[b'.forward[n]] == n
      {
        if n != k {
          var c := b.forward[n];
          assert b.inverse[c] == n;
        }
      }
    }
  }

  /** No two names of a valid map share a class, which is what lets the
      inverse view answer `getId` with a single name. */
  lemma NamesDistinct(b: BiMap, n1: ResourceLocation, n2: ResourceLocation)
    requires BiValid(b) && n1 in b.forward && n2 in b.forward && n1 != n2
    ensures b.forward[n1] != b.forward[n2]
  {
    assert b.inverse[b.forward[n1]] == n1;
    assert b.inverse[b.forward[n2]] == n2;
  }

  // ---------------------------------------------------------- derived names

  /** The configuration flag `getBoolean(name, "gates", true, …)`: the
      value set in the "gates" section, enabled when there is none. */
  function GateEnabled(gatesConfig: map<string, bool>, name: ResourceLocation): (enabled: bool)
    ensures LocationString(name) !in gatesConfig ==> enabled
  {
    if LocationString(name) in gatesConfig then gatesConfig[LocationString(name)] else true
  }

  /** The gate definition location the short `registerGate` derives:
      `<ns>:gatedefs/<path>.json`. */
  function GateDefinitionLocation(name: ResourceLocation): (r: ResourceLocation)
    ensures r.namespace == name.namespace
  {
    ResourceLocation(name.namespace, "gatedefs/" + name.path + ".json")
  }

  /** The unlocalized name the short `registerGate` derives: `tile.<ns>.gate.<path>`. */
  function UnlocalizedName(name: ResourceLocation): string {
    "tile." + name.namespace + ".gate." + name.path
  }

  /** Different gates get different definition files, and the path of the
      file gives the gate's path back. */
  lemma {:induction false} GateDefinitionLocationInjective(n1: ResourceLocation, n2: ResourceLocation)
    ensures GateDefinitionLocation(n1) == GateDefinitionLocation(n2) ==> n1 == n2
    ensures var p := GateDefinitionLocation(n1).path;
            |p| >= 14 && p[9..|p| - 5] == n1.path
  {
    var p1 := GateDefinitionLocation(n1).path;
    var p2 := GateDefinitionLocation(n2).path;
    assert p1[9..|p1| - 5] == n1.path;
    assert p2[9..|p2| - 5] == n2.path;
  }

  /** The unlocalized name ends in the gate's path, after ".gate.". */
  lemma {:induction false} UnlocalizedNameEndsInPath(name: ResourceLocation)
    ensures var u := UnlocalizedName(name);
            |u| >= |name.path| + 6 && u[|u| - |name.path|..] == name.path &&
            u[|u| - |name.path| - 6..|u| - |name.path|] == ".gate."
  {
    var u := UnlocalizedName(name);
    assert u == ("tile." + name.namespace) + ".gate." + name.path;
  }

  // ------------------------------------------------------------ item stacks

  /** The tag compound of a gate stack as the registry reads it: the byte
      under "li" and the string under "logic", None when missing. */
  datatype StackTag = StackTag(li: Option<int>, logic: Option<string>)

  /** An item stack. `ItemStack` does not override `equals`, so the set of
      gate stacks holds stacks by identity: a class. */
  class ItemStack {
    const empty: bool
    const isItemGate: bool
    const tag: Option<StackTag>

    constructor (empty: bool, isItemGate: bool, tag: Option<StackTag>)
      ensures this.empty == empty && this.isItemGate == isItemGate && this.tag == tag
    {
      this.empty := empty;
      this.isItemGate := isItemGate;
      this.tag := tag;
    }
  }

  /** `getByte("li")`, 0 when missing. */
  function InversionByte(t: StackTag): int {
    if t.li.Some? then t.li.value else 0
  }

  /** `getString("logic")`, "" when missing. */
  function LogicName(t: StackTag): string {
    if t.logic.Some? then t.logic.value else ""
  }

  /** The logic a stack declares inversion-sensitive, if any: a tag whose
      "li" byte is positive. */
  function InversionSensitiveLogic(stack: ItemStack): (r: Option<string>)
    ensures r.Some? <==> stack.tag.Some? && InversionByte(stack.tag.value) > 0
    ensures r.Some? ==> r.value == LogicName(stack.tag.value)
  {
    if stack.tag.Some? && InversionByte(stack.tag.value) > 0 then Some(LogicName(stack.tag.value)) else None
  }

  // -------------------------------------------------------------- registry

  datatype RegisterOutcome = Disabled | Registered | ClassAlreadyRegistered

  /** The module's static registry state. */
  class Registry {
    var inversionSensitiveLogics: set<string>
    var logicClasses: BiMap
    var logicUns: map<ResourceLocation, string>
    var logicDefinitions: map<ResourceLocation, ResourceLocation>
    var gateStacks: set<ItemStack>

    ghost predicate Valid()
      reads this
    {
      BiValid(logicClasses)
    }

    constructor ()
      ensures Valid()
      ensures inversionSensitiveLogics == {} && gateStacks == {}
      ensures logicClasses == BiMap(map[], map[]) && logicUns == map[] && logicDefinitions == map[]
    {
      inversionSensitiveLogics := {};
      logicClasses := BiMap(map[], map[]);
      logicUns := map[];
      logicDefinitions := map[];
      gateStacks := {};
    }

    /** `getId`: the name a logic's class is registered under, through the
        inverse view of the bidirectional map; `null` (None) for an
        unregistered class. */
    function GetId(clazz: LogicClass): (r: Option<ResourceLocation>)
      reads this
      requires Valid()
      ensures r.Some? ==> r.value in logicClasses.forward && logicClasses.forward[r.value] == clazz
      ensures r.None? ==> forall n :: n in logicClasses.forward ==> logicClasses.forward[n] != clazz
    {
      if clazz in logicClasses.inverse then Some(logicClasses.inverse[clazz]) else None
    }

    /** The four-argument `registerGate`. A gate switched off in the
        configuration changes nothing; a class already registered under
        another name makes the bidirectional map throw before anything is
        changed; otherwise the name is bound to the class, the definition
        location and the unlocalized name, and nothing else changes. */
    method RegisterGate(name: ResourceLocation, clazz: LogicClass, gdLoc: ResourceLocation, unl: string,
                        gatesConfig: map<string, bool>) returns (outcome: RegisterOutcome)
      requires Valid()
      modifies this`logicClasses, this`logicDefinitions, this`logicUns
      ensures Valid()
      ensures outcome == Disabled <==> !GateEnabled(gatesConfig, name)
      ensures outcome == ClassAlreadyRegistered <==>
        GateEnabled(gatesConfig, name) && old(GetId(clazz)).Some? && old(GetId(clazz)).value != name
      ensures outcome != Registered ==>
        logicClasses == old(logicClasses) && logicDefinitions == old(logicDefinitions) && logicUns == old(logicUns)
      ensures outcome == Registered ==>
        logicClasses.forward == old(logicClasses.forward)[name := clazz] &&
        logicDefinitions == old(logicDefinitions)[name := gdLoc] &&
        logicUns == old(logicUns)[name := unl] &&
        GetId(clazz) == Some(name)
      // the class the name had before loses its name; every other class keeps its own
      ensures outcome == Registered ==> forall c :: c != clazz ==>
        GetId(c) == (if old(GetId(c)) == Some(name) then None else old(GetId(c)))
    {
      if !GateEnabled(gatesConfig, name) {
        return Disabled;
      }
      var put := BiPut(logicClasses, name, clazz);
      BiPutSpec(logicClasses, name, clazz);
      if put.None? {
        return ClassAlreadyRegistered;
      }
      logicClasses := put.value;
      logicDefinitions := logicDefinitions[name := gdLoc];
      logicUns := logicUns[name := unl];
      outcome := Registered;
    }

    /** The two-argument `registerGate`: the definition location and the
        unlocalized name are derived from the gate's name. */
    method RegisterGateByName(name: ResourceLocation, clazz: LogicClass, gatesConfig: map<string, bool>)
      returns (outcome: RegisterOutcome)
      requires Valid()
      modifies this`logicClasses, this`logicDefinitions, this`logicUns
      ensures Valid()
      ensures outcome == Disabled <==> !GateEnabled(gatesConfig, name)
      ensures outcome == ClassAlreadyRegistered <==>
        GateEnabled(gatesConfig, name) && old(GetId(clazz)).Some? && old(GetId(clazz)).value != name
      ensures outcome != Registered ==>
        logicClasses == old(logicClasses) && logicDefinitions == old(logicDefinitions) && logicUns == old(logicUns)
      ensures outcome == Registered ==>
        logicClasses.forward == old(logicClasses.forward)[name := clazz] &&
        logicDefinitions == old(logicDefinitions)[name := GateDefinitionLocation(name)] &&
        logicUns == old(logicUns)[name := UnlocalizedName(name)] &&
        GetId(clazz) == Some(name)
      ensures outcome == Registered ==> forall c :: c != clazz ==>
        GetId(c) == (if old(GetId(c)) == Some(name) then None else old(GetId(c)))
    {
      outcome := RegisterGate(name, clazz, GateDefinitionLocation(name), UnlocalizedName(name), gatesConfig);
    }

    /** `registerGateStack`: an empty stack or a stack of another item is
        ignored; any other stack joins the gate stacks, and its logic joins
        the inversion-sensitive logics when its "li" byte is positive. */
    method RegisterGateStack(stack: ItemStack)
      modifies this`inversionSensitiveLogics, this`gateStacks
      ensures stack.empty || !stack.isItemGate ==>
        gateStacks == old(gateStacks) && inversionSensitiveLogics == old(inversionSensitiveLogics)
      ensures !stack.empty && stack.isItemGate ==>
        gateStacks == old(gateStacks) + {stack} &&
        inversionSensitiveLogics == old(inversionSensitiveLogics) +
          (match InversionSensitiveLogic(stack) case Some(l) => {l} case None => {})
    {
      if !stack.empty && stack.isItemGate {
        if stack.tag.Some? && InversionByte(stack.tag.value) > 0 {
          inversionSensitiveLogics := inversionSensitiveLogics + {LogicName(stack.tag.value)};
        }
        gateStacks := gateStacks + {stack};
      }
    }
  }
}
