/** The mechanical axle: a tile with two lazily created half-edges ("sides"),
    one per direction along the block's axis. Each side remembers the last
    speed and torque it received, refuses power while the opposite side is
    driven, and passes every force on through the axle: the side created for
    face `f` forwards it to the tile at the opposite end
    (`pos.offset(f.getOpposite())`), queried on face `f`.

    The world around the tile is reduced to what the sides observe and do:
    `consumers` says, per side facing `f`, whether the tile at the opposite
    end has a mechanical consumer on face `f` and whether it accepts power; `events` records the calls the tile makes
    into the world (forces forwarded, neighbour notifications, block-update
    requests), in order. Speeds and torques are `real`: the source only
    compares them with `==`/`!=` and takes `max`. */
module Axle {
  import opened JavaBase

  datatype Axis = X | Y | Z

  function AxisOf(f: Facing): Axis {
    match f
    case Down | Up => Y
    case North | South => Z
    case West | East => X
  }

  /** `getAxisDirection() == POSITIVE`. */
  predicate IsPositive(f: Facing) {
    f == Up || f == South || f == East
  }

  /** The side index a facing on the axis selects: positive direction 1, negative 0. */
  function SideIndex(f: Facing): (i: nat)
    ensures i < 2
    ensures i == 1 <==> IsPositive(f)
  {
    if IsPositive(f) then 1 else 0
  }

  datatype Capability = MechanicalProducer | MechanicalConsumer | OtherCapability

  predicate IsMechanical(cap: Capability) {
    cap == MechanicalProducer || cap == MechanicalConsumer
  }

  /** Calls the tile makes into the world. */
  datatype WorldEvent =
    /** `setForce(speed, torque)` on the consumer that the side facing `through`
        reaches: the tile at `pos.offset(through.getOpposite())`, queried on
        face `through`. */
    | ForceForwarded(through: Facing, speed: real, torque: real)
    /** `world.neighborChanged(pos.offset(toward), ...)`: the neighbour on the
        side's own face, the opposite one from the consumer. */
    | NeighborNotified(toward: Facing)
    | BlockUpdateMarked                                          // markBlockForUpdate()

  /** Item materials are identified by their registry id. */
  datatype Material = Material(id: string)

  /** The events one `setForce(speed, torque)` produces on a side facing `facing`
      whose stored values were `(oldSpeed, oldTorque)`. */
  function SetForceEvents(facing: Facing, hasConsumer: bool, oldSpeed: real, oldTorque: real,
                          speed: real, torque: real): (evs: seq<WorldEvent>)
    // the force always reaches a present consumer, first
    ensures hasConsumer <==> |evs| > 0 && evs[0] == ForceForwarded(facing, speed, torque)
    // unchanged values: nothing but the forwarding
    ensures oldSpeed == speed && oldTorque == torque ==> |evs| == (if hasConsumer then 1 else 0)
    // a neighbour notification exactly when the values changed and the new torque is 0
    ensures NeighborNotified(facing) in evs <==> (oldSpeed != speed || oldTorque != torque) && torque == 0.0
    // a block update exactly when the values changed
    ensures BlockUpdateMarked in evs <==> (oldSpeed != speed || oldTorque != torque)
  {
    var forwarded := if hasConsumer then [ForceForwarded(facing, speed, torque)] else [];
    var changed := oldSpeed != speed || oldTorque != torque;
    forwarded
      + (if changed && torque == 0.0 then [NeighborNotified(facing)] else [])
      + (if changed then [BlockUpdateMarked] else [])
  }

  function Max(a: real, b: real): real {
    if a >= b then a else b
  }

  /** Result of `getCapability`: a side, `null`, or the superclass's answer (not modelled). */
  datatype CapabilityResult = SideOf(side: AxleSide) | NoCapability | DelegatedToSuper

  class AxleSide {
    const i: nat
    const facing: Facing
    const tile: TileAxle
    var speedReceived: real
    var torqueReceived: real

    constructor (tile: TileAxle, i: nat, facing: Facing)
      ensures this.tile == tile && this.i == i && this.facing == facing
      ensures speedReceived == 0.0 && torqueReceived == 0.0
    {
      this.tile := tile;
      this.i := i;
      this.facing := facing;
      speedReceived, torqueReceived := 0.0, 0.0;
    }

    /** The side at index `i ^ 1` exists and carries nonzero torque. */
    predicate OppositeDriving()
      reads tile, tile.powerOutputs, tile.powerOutputs[..]
      requires tile.Valid() && i < 2
    {
      var other := tile.powerOutputs[1 - i];
      other != null && other.torqueReceived != 0.0
    }

    method IsAcceptingPower() returns (accepting: bool)
      requires tile.Valid() && i < 2
      ensures OppositeDriving() ==> !accepting
      ensures !OppositeDriving() ==>
        (accepting <==> facing in tile.consumers && tile.consumers[facing])
    {
      // `1 - i` is `i ^ 1` for the two indices 0 and 1
      var other := tile.powerOutputs[1 - i];
      if other != null && other.torqueReceived != 0.0 {
        return false;
      }
      accepting := facing in tile.consumers && tile.consumers[facing];
    }

    /** Also served for a side the tile no longer holds (after
        `updateContainingBlockInfo`), which a neighbour may still call. */
    method SetForce(speed: real, torque: real)
      requires tile.Valid() && i < 2
      modifies this, tile`events
      ensures tile.Valid()
      ensures speedReceived == speed && torqueReceived == torque
      ensures tile.events == old(tile.events) + SetForceEvents(facing, facing in tile.consumers,
                                  old(speedReceived), old(torqueReceived), speed, torque)
      // one side driven at a time: a driver that waits for the opposite side
      // to be idle (or sends zero torque) keeps the element's invariant
      ensures old(tile.AtMostOneDriven()) && (torque == 0.0 || old(!OppositeDriving())) ==>
        tile.AtMostOneDriven()
    {
      var evs := if facing in tile.consumers then [ForceForwarded(facing, speed, torque)] else [];
      if speedReceived != speed || torqueReceived != torque {
        speedReceived := speed;
        torqueReceived := torque;
        if torqueReceived == 0.0 {
          evs := evs + [NeighborNotified(facing)];
        }
        evs := evs + [BlockUpdateMarked];
      }
      tile.events := tile.events + evs;
    }

    /** Cache invalidation and a reset of the received force. */
    method OnNeighborChanged()
      requires tile.Valid() && i < 2 && tile.powerOutputs[i] == this
      modifies this, tile`events
      ensures tile.Valid()
      ensures speedReceived == 0.0 && torqueReceived == 0.0
      ensures tile.events == old(tile.events) + SetForceEvents(facing, facing in tile.consumers,
                                  old(speedReceived), old(torqueReceived), 0.0, 0.0)
    {
      SetForce(0.0, 0.0);
    }
  }

  class TileAxle {
    /** The axis the block metadata names (`Axis.values()[getBlockMetadata()]`). */
    var axis: Axis
    const powerOutputs: array<AxleSide?>
    /** Per side facing `f`: does the tile at `pos.offset(f.getOpposite())`
        have a mechanical consumer on face `f`, and does it accept power. */
    var consumers: map<Facing, bool>
    var events: seq<WorldEvent>
    var material: Material
    var rotSpeedClient: real

    ghost predicate Valid()
      reads this, powerOutputs
    {
      && powerOutputs.Length == 2
      && (forall k :: 0 <= k < 2 && powerOutputs[k] != null ==>
            powerOutputs[k].i == k && powerOutputs[k].tile == this)
    }

    /** The sides that exist. */
    function Sides(): set<object>
      reads this, powerOutputs
    {
      set k | 0 <= k < powerOutputs.Length && powerOutputs[k] != null :: powerOutputs[k]
    }

    /** Side `k`'s received speed, 0 for a missing side. */
    function SpeedOf(k: nat): real
      reads this, powerOutputs, powerOutputs[..]
      requires Valid() && k < 2
    {
      if powerOutputs[k] != null then powerOutputs[k].speedReceived else 0.0
    }

    predicate Driven(k: nat)
      reads this, powerOutputs, powerOutputs[..]
      requires Valid() && k < 2
    {
      powerOutputs[k] != null && powerOutputs[k].torqueReceived != 0.0
    }

    /** The element is driven from at most one side. */
    predicate AtMostOneDriven()
      reads this, powerOutputs, powerOutputs[..]
      requires Valid()
    {
      !(Driven(0) && Driven(1))
    }

    constructor (axis: Axis, consumers: map<Facing, bool>, defaultMaterial: Material)
      ensures Valid() && fresh(powerOutputs)
      ensures this.axis == axis && this.consumers == consumers && material == defaultMaterial
      ensures powerOutputs[0] == null && powerOutputs[1] == null
      ensures events == [] && rotSpeedClient == 0.0
    {
      this.axis := axis;
      this.consumers := consumers;
      material := defaultMaterial;
      powerOutputs := new AxleSide?[2](_ => null);
      events := [];
      rotSpeedClient := 0.0;
    }

    /** Adopts the material named in the NBT (looked up as `found`) when it differs. */
    method LoadMaterialFromNbt(found: Option<Material>) returns (changed: bool)
      modifies this`material
      ensures changed <==> found.Some? && found.value != old(material)
      ensures material == if changed then found.value else old(material)
    {
      if found.Some? && found.value != material {
        material := found.value;
        return true;
      } else {
        return false;
      }
    }

    /** Every existing side is reset to zero force; absent sides stay absent. */
    method OnNeighborChanged()
      requires Valid()
      modifies Sides(), this`events
      ensures Valid()
      ensures forall k :: 0 <= k < 2 ==> powerOutputs[k] == old(powerOutputs[k])
      ensures forall k :: 0 <= k < 2 && powerOutputs[k] != null ==>
        powerOutputs[k].speedReceived == 0.0 && powerOutputs[k].torqueReceived == 0.0
      ensures events == old(events)
        + ResetEvents(old(powerOutputs[0]), consumers, old(SpeedOf(0)), old(TorqueOf(0)))
        + ResetEvents(old(powerOutputs[1]), consumers, old(SpeedOf(1)), old(TorqueOf(1)))
    {
      ghost var speeds := [SpeedOf(0), SpeedOf(1)];
      ghost var torques := [TorqueOf(0), TorqueOf(1)];
      var k := 0;
      while k < 2
        invariant 0 <= k <= 2 && ResetUpTo(k, old(events), speeds, torques)
      {
        ResetNext(k, old(events), speeds, torques);
        k := k + 1;
      }
    }

    /** The loop of `onNeighborChanged` after k turns, for a tile whose log
        was `events0` and whose sides received `speeds` and `torques`: the
        first k sides are reset and their events logged, the others keep
        their force. */
    ghost predicate ResetUpTo(k: nat, events0: seq<WorldEvent>, speeds: seq<real>, torques: seq<real>)
      reads this, powerOutputs, powerOutputs[..]
    {
      && Valid() && k <= 2 && |speeds| == 2 && |torques| == 2
      && (k > 0 ==> SpeedOf(0) == 0.0 && TorqueOf(0) == 0.0)
      && (k > 1 ==> SpeedOf(1) == 0.0 && TorqueOf(1) == 0.0)
      && (k == 0 ==> SpeedOf(0) == speeds[0] && TorqueOf(0) == torques[0])
      && (k <= 1 ==> SpeedOf(1) == speeds[1] && TorqueOf(1) == torques[1])
      && (k == 0 ==> events == events0)
      && (k == 1 ==> events == events0 + ResetEvents(powerOutputs[0], consumers, speeds[0], torques[0]))
      && (k == 2 ==> events == events0 + ResetEvents(powerOutputs[0], consumers, speeds[0], torques[0])
                                       + ResetEvents(powerOutputs[1], consumers, speeds[1], torques[1]))
    }

    method ResetNext(k: nat, ghost events0: seq<WorldEvent>, ghost speeds: seq<real>, ghost torques: seq<real>)
      requires k < 2 && ResetUpTo(k, events0, speeds, torques)
      modifies (if powerOutputs[k] != null then {powerOutputs[k]} else {}), this`events
      ensures ResetUpTo(k + 1, events0, speeds, torques)
    {
      ResetSide(k, speeds[k], torques[k]);
    }

    /** One turn of the loop in `onNeighborChanged`: side k, if present, is
        reset from its received force (speed, torque); the other side is left
        alone. */
    method ResetSide(k: nat, ghost speed: real, ghost torque: real)
      requires Valid() && k < 2 && speed == SpeedOf(k) && torque == TorqueOf(k)
      modifies (if powerOutputs[k] != null then {powerOutputs[k]} else {}), this`events
      ensures Valid()
      ensures SpeedOf(k) == 0.0 && TorqueOf(k) == 0.0
      ensures events == old(events) + ResetEvents(powerOutputs[k], consumers, speed, torque)
      ensures SpeedOf(1 - k) == old(SpeedOf(1 - k)) && TorqueOf(1 - k) == old(TorqueOf(1 - k))
    {
      var side := powerOutputs[k];
      if side != null {
        side.OnNeighborChanged();
      }
    }

    function TorqueOf(k: nat): real
      reads this, powerOutputs, powerOutputs[..]
      requires Valid() && k < 2
    {
      if powerOutputs[k] != null then powerOutputs[k].torqueReceived else 0.0
    }

    /** What resetting one (possibly missing) side adds to the event log. */
    static function ResetEvents(side: AxleSide?, consumers: map<Facing, bool>, oldSpeed: real, oldTorque: real): seq<WorldEvent>
    {
      if side == null then []
      else SetForceEvents(side.facing, side.facing in consumers, oldSpeed, oldTorque, 0.0, 0.0)
    }

    /** The rotation speed shown for the tile: the synced value on the client,
        and on the server the larger of the two sides' received speeds. */
    method GetRotSpeedClient(isRemote: bool) returns (speed: real)
      requires Valid()
      ensures isRemote ==> speed == rotSpeedClient
      ensures !isRemote ==> speed >= SpeedOf(0) && speed >= SpeedOf(1)
      ensures !isRemote ==> speed == SpeedOf(0) || speed == SpeedOf(1)
    {
      if isRemote {
        return rotSpeedClient;
      }
      var ds0 := if powerOutputs[0] != null then powerOutputs[0].speedReceived else 0.0;
      var ds1 := if powerOutputs[1] != null then powerOutputs[1].speedReceived else 0.0;
      speed := Max(ds0, ds1);
    }

    /** Mechanical capabilities exist exactly on the two faces of the axis;
        other capabilities are the superclass's answer. */
    function HasCapability(cap: Capability, facing: Option<Facing>, superAnswer: bool): (has: bool)
      reads this
      ensures IsMechanical(cap) ==> (has <==> facing.Some? && AxisOf(facing.value) == axis)
      ensures !IsMechanical(cap) ==> has == superAnswer
    {
      if IsMechanical(cap) then facing.Some? && AxisOf(facing.value) == axis
      else superAnswer
    }

    method GetCapability(cap: Capability, facing: Option<Facing>) returns (r: CapabilityResult)
      requires Valid()
      modifies powerOutputs
      ensures Valid()
      ensures !IsMechanical(cap) ==> r == DelegatedToSuper
      ensures IsMechanical(cap) ==> (r.SideOf? <==> HasCapability(cap, facing, false))
      ensures IsMechanical(cap) && !HasCapability(cap, facing, false) ==> r == NoCapability
      ensures r.SideOf? ==>
        var k := SideIndex(facing.value);
        && r.side == powerOutputs[k]
        && (old(powerOutputs[k]) != null ==> r.side == old(powerOutputs[k]))
        && (old(powerOutputs[k]) == null ==>
              fresh(r.side) && r.side.facing == facing.value
              && r.side.speedReceived == 0.0 && r.side.torqueReceived == 0.0)
        && powerOutputs[1 - k] == old(powerOutputs[1 - k])
      ensures !r.SideOf? ==> powerOutputs[..] == old(powerOutputs[..])
    {
      if !IsMechanical(cap) {
        return DelegatedToSuper;
      }
      if facing.Some? && AxisOf(facing.value) == axis {
        var k := if IsPositive(facing.value) then 1 else 0;
        if powerOutputs[k] == null {
          var side := new AxleSide(this, k, facing.value);
          powerOutputs[k] := side;
        }
        return SideOf(powerOutputs[k]);
      } else {
        return NoCapability;
      }
    }

    /** Both sides are discarded; the next lookup creates fresh ones. */
    method UpdateContainingBlockInfo()
      modifies powerOutputs
      requires Valid()
      ensures Valid()
      ensures powerOutputs[0] == null && powerOutputs[1] == null
    {
      powerOutputs[0] := null;
      powerOutputs[1] := null;
    }
  }

  /** Looking a side up twice, through either mechanical capability, yields the
      same object. */
  method RepeatedLookupIsStable(tile: TileAxle, cap1: Capability, cap2: Capability, facing: Facing)
      returns (first: CapabilityResult, second: CapabilityResult)
    requires tile.Valid() && IsMechanical(cap1) && IsMechanical(cap2)
    requires AxisOf(facing) == tile.axis
    modifies tile.powerOutputs
    ensures first.SideOf? && second.SideOf? && first.side == second.side
  {
    first := tile.GetCapability(cap1, Some(facing));
    second := tile.GetCapability(cap2, Some(facing));
  }

}
