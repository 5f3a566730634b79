/** The finite-water tweak: when the world is about to turn a flowing water
    block into a new source, the handler denies it unless the block is in an
    ocean or river biome at or below sea level and the column above it, up to
    sea level, is water up to some height and air from there on.

    The world queries become inputs: `blockAt(h)` describes the block at
    height `h` in the event's column. "Allowed" means the handler returns
    without setting a result; the handler never sets ALLOW. */
module FiniteWater {

  /** What the handler asks of a block: `Block.isAir` and `Material.WATER`. */
  datatype BlockInfo = BlockInfo(isAir: bool, isWater: bool)

  datatype EventResult = NoResult | Deny

  /** The event as the handler sees it. */
  datatype SourceEvent = SourceEvent(
    stateIsWater: bool,
    y: int,
    seaLevel: int,
    oceanOrRiver: bool)  // the biome is a BiomeOcean or BiomeRiver

  /** Heights `lo..k-1` hold water blocks that are not air. */
  ghost predicate WaterRun(blockAt: int -> BlockInfo, lo: int, k: int) {
    forall h :: lo <= h < k ==> !blockAt(h).isAir && blockAt(h).isWater
  }

  /** Heights `k..hi` hold air. */
  ghost predicate AirRun(blockAt: int -> BlockInfo, k: int, hi: int) {
    forall h :: k <= h <= hi ==> blockAt(h).isAir
  }

  /** Independent description of a connected column: some run of non-air water
      blocks followed by a run of air blocks. */
  ghost predicate WaterThenAir(blockAt: int -> BlockInfo, lo: int, hi: int) {
    exists k :: lo <= k <= hi + 1 && WaterRun(blockAt, lo, k) && AirRun(blockAt, k, hi)
  }

  /** The scan of heights `lo..hi` the handler runs, with the flag `seenAir`
      telling whether an air block has already been passed. */
  function ScanConnected(blockAt: int -> BlockInfo, lo: int, hi: int, seenAir: bool): bool
    decreases hi - lo + 1
  {
    if lo > hi then true
    else if seenAir then blockAt(lo).isAir && ScanConnected(blockAt, lo + 1, hi, true)
    else if blockAt(lo).isAir then ScanConnected(blockAt, lo + 1, hi, true)
    else blockAt(lo).isWater && ScanConnected(blockAt, lo + 1, hi, false)
  }

  /** The decision, as a function of the event and the column. */
  function Decision(e: SourceEvent, blockAt: int -> BlockInfo): EventResult {
    if !e.stateIsWater then NoResult
    else if e.y <= e.seaLevel && e.oceanOrRiver then
      (if ScanConnected(blockAt, e.y + 1, e.seaLevel, false) then NoResult else Deny)
    else Deny
  }

  method OnFluidSource(e: SourceEvent, blockAt: int -> BlockInfo) returns (result: EventResult)
    ensures result == Decision(e, blockAt)
  {
    if e.stateIsWater {
      if e.y <= e.seaLevel {
        if e.oceanOrRiver {
          var isAir := false;
          var i := e.y + 1;
          while i <= e.seaLevel
            invariant e.y + 1 <= i <= e.seaLevel + 1
            invariant ScanConnected(blockAt, e.y + 1, e.seaLevel, false)
                      == ScanConnected(blockAt, i, e.seaLevel, isAir)
            decreases e.seaLevel - i
          {
            var state := blockAt(i);
            if isAir {
              if !state.isAir {
                // disconnection
                return Deny;
              }
            } else {
              if state.isAir {
                isAir := true;
              } else if !state.isWater {
                // disconnection
                return Deny;
              }
            }
            i := i + 1;
          }
          // connection found
          return NoResult;
        }
      }
      return Deny;
    }
    return NoResult;
  }

  /** After an air block, the scan succeeds exactly when everything left is air. */
  lemma {:induction false} ScanAfterAir(blockAt: int -> BlockInfo, lo: int, hi: int)
    ensures ScanConnected(blockAt, lo, hi, true) <==> (forall h :: lo <= h <= hi ==> blockAt(h).isAir)
    decreases hi - lo + 1
  {
    if lo <= hi {
      ScanAfterAir(blockAt, lo + 1, hi);
    }
  }

  /** The scan accepts exactly the columns that read water* air*. */
  lemma {:induction false} ScanMeansWaterThenAir(blockAt: int -> BlockInfo, lo: int, hi: int)
    requires lo <= hi + 1
    ensures ScanConnected(blockAt, lo, hi, false) <==> WaterThenAir(blockAt, lo, hi)
    decreases hi - lo + 1
  {
    if lo > hi {
      assert WaterRun(blockAt, lo, lo) && AirRun(blockAt, lo, hi);
    } else if blockAt(lo).isAir {
      ScanAfterAir(blockAt, lo + 1, hi);
      if ScanConnected(blockAt, lo, hi, false) {
        assert WaterRun(blockAt, lo, lo) && AirRun(blockAt, lo, hi);
      }
      if WaterThenAir(blockAt, lo, hi) {
        var k :| lo <= k <= hi + 1 && WaterRun(blockAt, lo, k) && AirRun(blockAt, k, hi);
        assert lo < k ==> !blockAt(lo).isAir;
      }
    } else {
      ScanMeansWaterThenAir(blockAt, lo + 1, hi);
      if ScanConnected(blockAt, lo, hi, false) {
        var k :| lo + 1 <= k <= hi + 1 && WaterRun(blockAt, lo + 1, k) && AirRun(blockAt, k, hi);
        assert WaterRun(blockAt, lo, k);
      }
      if WaterThenAir(blockAt, lo, hi) {
        var k :| lo <= k <= hi + 1 && WaterRun(blockAt, lo, k) && AirRun(blockAt, k, hi);
        assert k == lo ==> blockAt(lo).isAir;
        assert WaterRun(blockAt, lo + 1, k);
        assert blockAt(lo).isWater;
      }
    }
  }

  /** A non-water event is never given a result. */
  lemma NonWaterUntouched(e: SourceEvent, blockAt: int -> BlockInfo)
    requires !e.stateIsWater
    ensures Decision(e, blockAt) == NoResult
  {
  }

  /** Water above sea level, or outside ocean and river biomes, is denied. */
  lemma WrongPlaceDenied(e: SourceEvent, blockAt: int -> BlockInfo)
    requires e.stateIsWater && (e.y > e.seaLevel || !e.oceanOrRiver)
    ensures Decision(e, blockAt) == Deny
  {
  }

  /** In an ocean or river at or below sea level, the source may form exactly
      when the blocks from `y + 1` up to sea level read water* air*. */
  lemma AllowedIffConnected(e: SourceEvent, blockAt: int -> BlockInfo)
    requires e.stateIsWater && e.y <= e.seaLevel && e.oceanOrRiver
    ensures Decision(e, blockAt) == NoResult <==> WaterThenAir(blockAt, e.y + 1, e.seaLevel)
  {
    ScanMeansWaterThenAir(blockAt, e.y + 1, e.seaLevel);
  }

  /** A block that is neither air nor water below the first air block denies;
      so does any non-air block above an air block. */
  lemma {:induction false} DisconnectionDenies(e: SourceEvent, blockAt: int -> BlockInfo, h: int)
    requires e.stateIsWater && e.y <= e.seaLevel && e.oceanOrRiver
    requires e.y < h <= e.seaLevel
    requires (!blockAt(h).isAir && !blockAt(h).isWater)
             || (!blockAt(h).isAir && exists a :: e.y < a < h && blockAt(a).isAir)
    ensures Decision(e, blockAt) == Deny
  {
    ScanMeansWaterThenAir(blockAt, e.y + 1, e.seaLevel);
    forall k | e.y + 1 <= k <= e.seaLevel + 1
      ensures !(WaterRun(blockAt, e.y + 1, k) && AirRun(blockAt, k, e.seaLevel))
    {
      if k <= h {
        assert !AirRun(blockAt, k, e.seaLevel) by {
          assert !blockAt(h).isAir;
        }
      } else if !blockAt(h).isWater {
        assert !WaterRun(blockAt, e.y + 1, k);
      } else {
        var a :| e.y < a < h && blockAt(a).isAir;
        assert !WaterRun(blockAt, e.y + 1, k);
      }
    }
  }

  /** At sea level the column to scan is empty: a water source there in an
      ocean or river is always allowed. */
  lemma AtSeaLevelAllowed(e: SourceEvent, blockAt: int -> BlockInfo)
    requires e.stateIsWater && e.y == e.seaLevel && e.oceanOrRiver
    ensures Decision(e, blockAt) == NoResult
  {
  }

  /** The decision depends only on the blocks strictly above the source and at
      most at sea level: the source block itself is never inspected. */
  lemma {:induction false} OnlyColumnAboveMatters(e: SourceEvent, w1: int -> BlockInfo, w2: int -> BlockInfo)
    requires forall h :: e.y < h <= e.seaLevel ==> w1(h) == w2(h)
    ensures Decision(e, w1) == Decision(e, w2)
  {
    if e.stateIsWater && e.y <= e.seaLevel && e.oceanOrRiver {
      ScanFrame(w1, w2, e.y + 1, e.seaLevel, false);
    }
  }

  lemma {:induction false} ScanFrame(w1: int -> BlockInfo, w2: int -> BlockInfo, lo: int, hi: int, seenAir: bool)
    requires forall h :: lo <= h <= hi ==> w1(h) == w2(h)
    ensures ScanConnected(w1, lo, hi, seenAir) == ScanConnected(w2, lo, hi, seenAir)
    decreases hi - lo + 1
  {
    if lo <= hi {
      ScanFrame(w1, w2, lo + 1, hi, true);
      ScanFrame(w1, w2, lo + 1, hi, false);
    }
  }
}
