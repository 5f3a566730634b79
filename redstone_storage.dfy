/** Persistence of the redstone emitter capability: the default emitter's
    signal is saved as one integer under the key "s" of a compound tag and
    handed back to `emit` when the tag is loaded. Emitters of any other
    implementation are neither saved nor loaded. */
module RedstoneStorage {
  import opened JavaBase

  /** The NBT tags the storage sees: a numeric tag (read through its `int`
      value), a compound of named tags, or a tag of any other kind. */
  datatype Tag = IntTag(v: int) | Compound(entries: map<string, Tag>) | OtherTag

  /** `NBTTagCompound.getInteger`: the number under `key`, or 0 when the key
      is missing or holds a tag that is not a number. */
  function GetInteger(entries: map<string, Tag>, key: string): (v: int)
    ensures key !in entries ==> v == 0
    ensures key in entries && entries[key].IntTag? ==> v == entries[key].v
  {
    if key in entries && entries[key].IntTag? then entries[key].v else 0
  }

  /** An emitter: whether it is a `DefaultRedstoneEmitter`, its current
      signal, and the log of the signals passed to `emit` (the default
      emitter's own `emit` is not part of this model). */
  class Emitter {
    const isDefault: bool
    var signal: int
    var emitted: seq<int>

    constructor (isDefault: bool, signal: int)
      ensures this.isDefault == isDefault && this.signal == signal && emitted == []
    {
      this.isDefault := isDefault;
      this.signal := signal;
      emitted := [];
    }
  }

  /** `writeNBT`: a compound holding the signal under "s" for the default
      emitter, `null` (None) for any other. */
  function WriteNbt(instance: Emitter): (r: Option<Tag>)
    reads instance
    ensures r.Some? <==> instance.isDefault
    ensures r.Some? ==> r.value.Compound? && r.value.entries.Keys == {"s"}
    ensures r.Some? ==> GetInteger(r.value.entries, "s") == instance.signal
  {
    if instance.isDefault then Some(Compound(map["s" := IntTag(instance.signal)])) else None
  }

  /** The signal `readNBT` passes to `emit`, if it calls it at all: only for
      a default emitter given a compound that has the key "s". A `null` tag
      is None. */
  function LoadedSignal(isDefault: bool, nbt: Option<Tag>): Option<int> {
    if isDefault && nbt.Some? && nbt.value.Compound? && "s" in nbt.value.entries
    then Some(GetInteger(nbt.value.entries, "s"))
    else None
  }

  /** `readNBT`: calls `emit` on the emitter at most once, and nothing else. */
  method ReadNbt(instance: Emitter, nbt: Option<Tag>)
    modifies instance`emitted
    ensures instance.emitted == old(instance.emitted) +
      (match LoadedSignal(instance.isDefault, nbt) case Some(s) => [s] case None => [])
  {
    if instance.isDefault && nbt.Some? && nbt.value.Compound? {
      var cpd := nbt.value.entries;
      if "s" in cpd {
        instance.emitted := instance.emitted + [GetInteger(cpd, "s")];
      }
    }
  }

  /** `emit` is called exactly when the emitter is default, the tag is a
      compound and it has "s", and then with the number stored there (0 for a
      non-numeric "s"). */
  lemma LoadedSignalCases(isDefault: bool, nbt: Option<Tag>)
    ensures LoadedSignal(isDefault, nbt).Some? <==>
      isDefault && nbt.Some? && nbt.value.Compound? && "s" in nbt.value.entries
    ensures LoadedSignal(isDefault, nbt).Some? && nbt.value.entries["s"].IntTag? ==>
      LoadedSignal(isDefault, nbt).value == nbt.value.entries["s"].v
    ensures LoadedSignal(isDefault, nbt).Some? && !nbt.value.entries["s"].IntTag? ==>
      LoadedSignal(isDefault, nbt).value == 0
  {
  }

  /** Loading what a default emitter saved into a default emitter emits the
      saved signal. */
  lemma RoundTrip(saved: Emitter, target: Emitter)
    requires saved.isDefault && target.isDefault
    ensures LoadedSignal(target.isDefault, WriteNbt(saved)) == Some(saved.signal)
  {
  }

  /** Nothing saved from another implementation is ever loaded again. */
  lemma OtherEmittersNotPersisted(saved: Emitter, target: Emitter)
    requires !saved.isDefault
    ensures LoadedSignal(target.isDefault, WriteNbt(saved)) == None
  {
  }
}
