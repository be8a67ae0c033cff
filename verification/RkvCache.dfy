/** The cache the simulator predicts: one KV head's slots, the absolute position and the
    key/value entry each slot holds, and the capture wrapper's parity check
    (src/kvcot/discovery/capture.py, src/kvcot/generation/provenance.py).

    R-KV's scores are foreign: a compaction may keep any `budget - window` distinct slots
    outside the protected recent window, chosen by the caller as `topk`. */
module RkvCache {
  import opened Prelude
  import Schedule = RkvSchedule

  // ---------------------------------------------------------------- one gather

  function Gather<T>(s: seq<T>, indices: seq<int>): (r: seq<T>)
    requires forall k :: 0 <= k < |indices| ==> 0 <= indices[k] < |s|
    ensures |r| == |indices|
  {
    seq(|indices|, k requires 0 <= k < |indices| => s[indices[k]])
  }

  function RecentWindow(length: nat, window: nat): seq<int>
    requires window <= length
  {
    seq(window, k => length - window + k)
  }

  /** `_recomputed_kept_physical_indices`: the selected slots first, then the recent window. */
  function KeptPhysicalIndices(topk: seq<int>, length: nat, window: nat): seq<int>
    requires window <= length
  {
    topk + RecentWindow(length, window)
  }

  predicate ValidTopk(topk: seq<int>, length: nat, budget: nat, window: nat) {
    && window <= budget <= length
    && |topk| == budget - window
    && Distinct(topk)
    && forall k :: 0 <= k < |topk| ==> 0 <= topk[k] < length - window
  }

  lemma KeptIndicesAreSlots(topk: seq<int>, length: nat, budget: nat, window: nat)
    requires ValidTopk(topk, length, budget, window)
    ensures var kept := KeptPhysicalIndices(topk, length, window);
            && |kept| == budget
            && Distinct(kept)
            && (forall k :: 0 <= k < budget ==> 0 <= kept[k] < length)
            && (forall k :: budget - window <= k < budget ==> kept[k] == length - budget + k)
  {
  }

  /** Slot contents against positions, in any reachable cache: slot i holds the entry written
      for positions[i], positions are distinct, and the newest `window` positions are the tail. */
  ghost predicate Holds<T>(positions: seq<int>, entries: seq<T>, written: seq<T>, window: nat) {
    && |positions| == |entries|
    && Distinct(positions)
    && (forall i :: 0 <= i < |positions| ==> 0 <= positions[i] < |written|)
    && (forall i :: 0 <= i < |positions| ==> entries[i] == written[positions[i]])
    && Min(window, |written|) <= |positions|
    && (forall i :: |positions| - Min(window, |written|) <= i < |positions| ==> positions[i] == |written| - |positions| + i)
  }

  /** One compaction keeps every slot's content tied to its position, keeps positions
      distinct and the recent window in place. */
  lemma CompactionHolds<T>(positions: seq<int>, entries: seq<T>, written: seq<T>, topk: seq<int>, budget: nat, window: nat)
    requires Holds(positions, entries, written, window)
    requires ValidTopk(topk, |positions|, budget, window)
    ensures var kept := KeptPhysicalIndices(topk, |positions|, window);
            && (forall k :: 0 <= k < |kept| ==> 0 <= kept[k] < |positions|)
            && |Gather(positions, kept)| == budget
            && Holds(Gather(positions, kept), Gather(entries, kept), written, window)
  {
    KeptIndicesAreSlots(topk, |positions|, budget, window);
    var kept := KeptPhysicalIndices(topk, |positions|, window);
    var after := Gather(positions, kept);
    assert forall k :: 0 <= k < budget ==> after[k] == positions[kept[k]];
    forall i, j | 0 <= i < j < |after|
      ensures after[i] != after[j]
    {
      assert kept[i] != kept[j];
    }
  }

  /** Which slots those are: the selected ones in their order, then the newest ones. */
  lemma KeptSlots<T>(before: seq<T>, topk: seq<int>, budget: nat, window: nat)
    requires ValidTopk(topk, |before|, budget, window)
    ensures var kept := KeptPhysicalIndices(topk, |before|, window);
            && (forall k :: 0 <= k < |kept| ==> 0 <= kept[k] < |before|)
            && |Gather(before, kept)| == budget
            && (forall k :: 0 <= k < budget - window ==> 0 <= topk[k] < |before| && Gather(before, kept)[k] == before[topk[k]])
            && (forall k :: budget - window <= k < budget ==> Gather(before, kept)[k] == before[|before| - budget + k])
  {
    KeptIndicesAreSlots(topk, |before|, budget, window);
  }

  /** A compaction loses a position exactly when the cache was longer than the budget; at
      the boundary it only permutes. */
  lemma CompactionLoses(positions: seq<int>, topk: seq<int>, budget: nat, window: nat)
    requires Distinct(positions) && ValidTopk(topk, |positions|, budget, window)
    ensures var kept := KeptPhysicalIndices(topk, |positions|, window);
            && (forall k :: 0 <= k < |kept| ==> 0 <= kept[k] < |positions|)
            && Elements(Gather(positions, kept)) <= Elements(positions)
            && (Elements(Gather(positions, kept)) == Elements(positions) <==> |positions| == budget)
  {
    KeptIndicesAreSlots(topk, |positions|, budget, window);
    var kept := KeptPhysicalIndices(topk, |positions|, window);
    var after := Gather(positions, kept);
    assert forall k :: 0 <= k < budget ==> after[k] == positions[kept[k]];
    assert Distinct(after);
    DistinctIffCardinality(after);
    DistinctIffCardinality(positions);
    if |positions| == budget {
      SubsetOfSameSize(Elements(after), Elements(positions));
    }
  }

  lemma KeepsEveryPosition(after: seq<int>, before: seq<int>)
    requires Elements(after) <= Elements(before) && forall p :: 0 <= p < |before| ==> before[p] == p
    ensures Elements(after) == Elements(before) <==> forall p :: 0 <= p < |before| ==> p in after
  {
    if forall p :: 0 <= p < |before| ==> p in after {
      assert Elements(after) == Elements(before);
    } else {
      var p :| 0 <= p < |before| && p !in after;
      assert before[p] in Elements(before) && p !in Elements(after);
    }
  }

  lemma SubsetOfSameSize<T>(a: set<T>, b: set<T>)
    requires a <= b && |a| == |b|
    ensures a == b
  {
    assert b == a + (b - a);
  }

  lemma SameSizes<T>(positions: seq<int>, entries: seq<T>, written: seq<T>, window: nat)
    requires Holds(positions, entries, written, window)
    ensures |positions| == |entries| && Distinct(positions)
  {
  }

  lemma GrowthHolds<T>(positions: seq<int>, entries: seq<T>, written: seq<T>, entry: T, window: nat)
    requires Holds(positions, entries, written, window)
    ensures Holds(positions + [|written|], entries + [entry], written + [entry], window)
    ensures Elements(positions + [|written|]) == Elements(positions) + {|written|}
  {
  }

  // ---------------------------------------------------------------- the running cache

  /** One KV head under the real schedule. The constructor is the prefill call and every
      `DecodeOne` one forward call, so `Valid` holds in every state any run can reach. */
  class HeadCache<T> {
    const budget: nat
    const window: nat
    const divide: nat
    const prompt: nat
    var fed: nat               // absolute position: tokens processed so far
    var compressionFlag: bool
    var positions: seq<int>
    var entries: seq<T>
    ghost var written: seq<T>  // the entry computed for every absolute position so far

    ghost predicate Valid()
      reads this
    {
      && 1 <= divide && 1 <= window <= budget
      && prompt <= fed == |written|
      && compressionFlag == Schedule.Attempted(prompt, fed + 1, divide)
      && Holds(positions, entries, written, window)
      && |positions| == Schedule.LengthAt(prompt, fed, budget, divide)
    }

    /** The prefill call: the whole prompt is appended, and compression is always attempted. */
    constructor Prefill(block: seq<T>, budget: nat, window: nat, divide: nat, topk: seq<int>)
      requires 1 <= divide && 1 <= window <= budget
      requires |block| >= budget ==> ValidTopk(topk, |block|, budget, window)
      ensures Valid()
      ensures this.budget == budget && this.window == window && this.divide == divide && prompt == |block|
      ensures written == block
      ensures (forall p :: 0 <= p < |block| ==> p in positions) <==> !Schedule.EventAt(|block|, |block|, budget, divide)
      ensures |block| >= budget ==>
                && |positions| == |entries| == budget
                && (forall k :: 0 <= k < budget - window ==> positions[k] == topk[k] && entries[k] == block[topk[k]])
                && (forall k :: budget - window <= k < budget ==>
                      positions[k] == |block| - budget + k && entries[k] == block[|block| - budget + k])
      ensures |block| < budget ==> |positions| == |block| && entries == block && forall k :: 0 <= k < |block| ==> positions[k] == k
    {
      this.budget, this.window, this.divide, this.prompt := budget, window, divide, |block|;
      fed := |block|;
      var everyPosition := seq(|block|, k => k);
      forall p | 0 <= p < |block|
        ensures p in everyPosition
      {
        assert everyPosition[p] == p;
      }
      if |block| >= budget {
        var kept := KeptPhysicalIndices(topk, |block|, window);
        CompactionHolds(everyPosition, block, block, topk, budget, window);
        CompactionLoses(everyPosition, topk, budget, window);
        positions, entries := Gather(everyPosition, kept), Gather(block, kept);
        KeepsEveryPosition(Gather(everyPosition, kept), everyPosition);
      } else {
        positions, entries := everyPosition, block;
      }
      compressionFlag := |block| % divide == 0;
      written := block;
      Schedule.EvictionAtPrefill(|block|, budget, divide);
    }

    /** One decode call. It compacts when the schedule flag is set and the cache has reached
        the budget; it loses a position exactly when the simulator reports an event. */
    method DecodeOne(entry: T, topk: seq<int>) returns (compacted: bool)
      requires Valid()
      requires compressionFlag && |positions| + 1 >= budget ==> ValidTopk(topk, |positions| + 1, budget, window)
      modifies this
      ensures Valid()
      ensures written == old(written) + [entry]
      ensures compacted <==> Schedule.Attempted(prompt, fed, divide) && old(|positions|) + 1 >= budget
      ensures Elements(positions) <= Elements(old(positions)) + {old(fed)}
      ensures Elements(positions) == Elements(old(positions)) + {old(fed)}
              <==> !Schedule.EventAt(prompt, fed, budget, divide)
      ensures compacted ==>
                && |positions| == |entries| == budget <= |old(positions)| + 1
                && (forall k :: 0 <= k < budget - window ==>
                      && positions[k] == (old(positions) + [old(fed)])[topk[k]]
                      && entries[k] == (old(entries) + [entry])[topk[k]])
                && (forall k :: budget - window <= k < budget ==>
                      && positions[k] == (old(positions) + [old(fed)])[|old(positions)| + 1 - budget + k]
                      && entries[k] == (old(entries) + [entry])[|old(positions)| + 1 - budget + k])
      ensures !compacted ==> positions == old(positions) + [old(fed)] && entries == old(entries) + [entry]
    {
      hide KeptPhysicalIndices, Gather, Distinct, Elements, Holds;
      SameSizes(positions, entries, written, window);
      Schedule.EvictionStep(prompt, fed + 1, budget, divide);
      Schedule.LengthBounds(prompt, fed, budget, divide);
      GrowthHolds(positions, entries, written, entry, window);
      var grownPositions, grownEntries := positions + [fed], entries + [entry];
      compacted := compressionFlag && |grownPositions| >= budget;
      if compacted {
        var kept := KeptPhysicalIndices(topk, |grownPositions|, window);
        CompactionHolds(grownPositions, grownEntries, written + [entry], topk, budget, window);
        SameSizes(grownPositions, grownEntries, written + [entry], window);
        CompactionLoses(grownPositions, topk, budget, window);
        KeptSlots(grownPositions, topk, budget, window);
        KeptSlots(grownEntries, topk, budget, window);
        positions, entries := Gather(grownPositions, kept), Gather(grownEntries, kept);
      } else {
        positions, entries := grownPositions, grownEntries;
      }
      fed := fed + 1;
      compressionFlag := fed % divide == 0;
      written := written + [entry];
    }
  }

  // ---------------------------------------------------------------- the capture wrapper

  /** Why a captured compaction fails parity. */
  datatype ParityFailure =
    | RecomputationRaised
    | GatherParityFailed
    | MissingPositionMap
    | PositionMapShapeMismatch
    | KeptIndicesShapeMismatch
    | KeptIndicesParityFailed

  datatype CaptureRecord = CaptureRecord(
    hadCompaction: bool,
    gatherParityPassed: Option<bool>,
    keptIndicesParityPassed: Option<bool>,
    recomputedPositions: Option<seq<seq<int>>>,
    observedPositions: Option<seq<seq<int>>>,
    parityCheckPassed: bool,
    failures: seq<ParityFailure>)

  /** A (heads, length) tensor. */
  predicate HasShape<T>(tensor: seq<seq<T>>, heads: nat, length: nat) {
    |tensor| == heads && forall h :: 0 <= h < heads ==> |tensor[h]| == length
  }

  predicate SameShape<T, U>(a: seq<seq<T>>, b: seq<seq<U>>) {
    |a| == |b| && forall h :: 0 <= h < |a| ==> |a[h]| == |b[h]|
  }

  predicate ValidSelection(topk: seq<seq<int>>, heads: nat, length: nat, budget: nat, window: nat) {
    |topk| == heads && forall h :: 0 <= h < heads ==> ValidTopk(topk[h], length, budget, window)
  }

  /** What a compaction that keeps exactly these slots leaves of a (heads, length) tensor. */
  function GatherKept<T>(tensor: seq<seq<T>>, topk: seq<seq<int>>, length: nat, budget: nat, window: nat): seq<seq<T>>
    requires HasShape(tensor, |topk|, length) && ValidSelection(topk, |topk|, length, budget, window)
  {
    seq(|topk|, h requires 0 <= h < |topk| =>
      KeptIndicesAreSlots(topk[h], length, budget, window);
      Gather(tensor[h], KeptPhysicalIndices(topk[h], length, window)))
  }

  /** The wrapper's own reconstruction: gather from the non-recent pool, then append the recent window. */
  function Reconstruct<T>(tensor: seq<seq<T>>, topk: seq<seq<int>>, length: nat, budget: nat, window: nat): seq<seq<T>>
    requires HasShape(tensor, |topk|, length) && ValidSelection(topk, |topk|, length, budget, window)
  {
    assert forall h :: 0 <= h < |topk| ==> ValidTopk(topk[h], length, budget, window) && |tensor[h]| == length;
    seq(|topk|, h requires 0 <= h < |topk| =>
      Gather(tensor[h][..length - window], topk[h]) + tensor[h][length - window..])
  }

  lemma RowReconstructionIsGather<T>(row: seq<T>, topk: seq<int>, budget: nat, window: nat)
    requires ValidTopk(topk, |row|, budget, window)
    ensures forall k :: 0 <= k < budget ==> 0 <= KeptPhysicalIndices(topk, |row|, window)[k] < |row|
    ensures Gather(row[..|row| - window], topk) + row[|row| - window..]
            == Gather(row, KeptPhysicalIndices(topk, |row|, window))
  {
    KeptIndicesAreSlots(topk, |row|, budget, window);
  }

  lemma ReconstructionIsGather<T>(tensor: seq<seq<T>>, topk: seq<seq<int>>, length: nat, budget: nat, window: nat)
    requires HasShape(tensor, |topk|, length) && ValidSelection(topk, |topk|, length, budget, window)
    ensures Reconstruct(tensor, topk, length, budget, window) == GatherKept(tensor, topk, length, budget, window)
  {
    forall h | 0 <= h < |topk|
      ensures Reconstruct(tensor, topk, length, budget, window)[h] == GatherKept(tensor, topk, length, budget, window)[h]
    {
      RowReconstructionIsGather(tensor[h], topk[h], budget, window);
    }
  }

  /** `_check_observed_kept_absolute_position_parity`: (parity, recomputed positions, failure). */
  function CheckKeptPositions(observed: Option<seq<seq<int>>>, topk: seq<seq<int>>, length: nat, budget: nat,
                              window: nat, positionMap: Option<seq<seq<int>>>)
    : (Option<bool>, Option<seq<seq<int>>>, Option<ParityFailure>)
    requires ValidSelection(topk, |topk|, length, budget, window)
  {
    if observed.None? then (None, None, None)
    else if positionMap.None? then (Some(false), None, Some(MissingPositionMap))
    else if !HasShape(positionMap.value, |topk|, length) then (Some(false), None, Some(PositionMapShapeMismatch))
    else
      var recomputed := GatherKept(positionMap.value, topk, length, budget, window);
      if !SameShape(recomputed, observed.value) then (Some(false), Some(recomputed), Some(KeptIndicesShapeMismatch))
      else if recomputed == observed.value then (Some(true), Some(recomputed), None)
      else (Some(false), Some(recomputed), Some(KeptIndicesParityFailed))
  }

  /** `_build_capture_record`. `before` is the cloned input, `returned` what the wrapped call
      gave back, `recomputed` the recomputed selection (None when that raised), `observed` the
      cluster's own survivor bookkeeping (None when it keeps none). */
  function BuildCaptureRecord<T(==)>(before: seq<seq<T>>, returned: seq<seq<T>>, length: nat, budget: nat, window: nat,
                                     recomputed: Option<seq<seq<int>>>, observed: Option<seq<seq<int>>>,
                                     positionMap: Option<seq<seq<int>>>): CaptureRecord
    requires 1 <= window <= budget && HasShape(before, |before|, length)
    requires length >= budget && recomputed.Some? ==> ValidSelection(recomputed.value, |before|, length, budget, window)
  {
    if length < budget then CaptureRecord(false, None, None, None, None, true, [])
    else if recomputed.None? then CaptureRecord(true, None, None, None, None, false, [RecomputationRaised])
    else
      var topk := recomputed.value;
      var gatherParity := Reconstruct(before, topk, length, budget, window) == returned;
      var (keptParity, positions, failure) := CheckKeptPositions(observed, topk, length, budget, window, positionMap);
      var failures := (if gatherParity then [] else [GatherParityFailed])
                      + (if failure.Some? then [failure.value] else []);
      CaptureRecord(true, Some(gatherParity), keptParity, positions, observed, failures == [], failures)
  }

  /** Parity passes exactly when the call was a no-op below the budget, or the returned
      cache is the recomputed gather and, where bookkeeping exists, the bookkeeping is the
      same gather of a position map of the right shape. */
  lemma CapturePassesIff<T>(before: seq<seq<T>>, returned: seq<seq<T>>, length: nat, budget: nat, window: nat,
                                recomputed: Option<seq<seq<int>>>, observed: Option<seq<seq<int>>>,
                                positionMap: Option<seq<seq<int>>>)
    requires 1 <= window <= budget && HasShape(before, |before|, length)
    requires length >= budget && recomputed.Some? ==> ValidSelection(recomputed.value, |before|, length, budget, window)
    ensures BuildCaptureRecord(before, returned, length, budget, window, recomputed, observed, positionMap).parityCheckPassed
            <==> length < budget
                 || (&& recomputed.Some?
                     && returned == GatherKept(before, recomputed.value, length, budget, window)
                     && (observed.Some? ==>
                           && positionMap.Some?
                           && HasShape(positionMap.value, |before|, length)
                           && observed.value == GatherKept(positionMap.value, recomputed.value, length, budget, window)))
  {
    if length >= budget && recomputed.Some? {
      ReconstructionIsGather(before, recomputed.value, length, budget, window);
    }
  }

  /** What a captured record says of a call that compacted, and why it failed. */
  lemma CaptureReportsIff<T>(before: seq<seq<T>>, returned: seq<seq<T>>, length: nat, budget: nat, window: nat,
                             recomputed: Option<seq<seq<int>>>, observed: Option<seq<seq<int>>>, positionMap: Option<seq<seq<int>>>)
    requires 1 <= window <= budget && HasShape(before, |before|, length)
    requires length >= budget && recomputed.Some? ==> ValidSelection(recomputed.value, |before|, length, budget, window)
    ensures var r := BuildCaptureRecord(before, returned, length, budget, window, recomputed, observed, positionMap);
            && (r.hadCompaction <==> length >= budget)
            && (RecomputationRaised in r.failures <==> length >= budget && recomputed.None?)
            && (r.gatherParityPassed.Some? <==> length >= budget && recomputed.Some?)
            && (r.keptIndicesParityPassed.Some? <==> length >= budget && recomputed.Some? && observed.Some?)
            && (r.parityCheckPassed <==> r.failures == [])
    ensures length >= budget && recomputed.Some? ==>
              var r := BuildCaptureRecord(before, returned, length, budget, window, recomputed, observed, positionMap);
              var topk, mapped := recomputed.value, positionMap.Some? && HasShape(positionMap.value, |before|, length);
              && r.gatherParityPassed == Some(returned == GatherKept(before, topk, length, budget, window))
              && (GatherParityFailed in r.failures <==> returned != GatherKept(before, topk, length, budget, window))
              && r.observedPositions == observed
              && (MissingPositionMap in r.failures <==> observed.Some? && positionMap.None?)
              && (PositionMapShapeMismatch in r.failures <==> observed.Some? && positionMap.Some? && !mapped)
              && r.recomputedPositions
                 == (if observed.Some? && mapped then Some(GatherKept(positionMap.value, topk, length, budget, window)) else None)
              && (KeptIndicesShapeMismatch in r.failures <==>
                   observed.Some? && mapped && !(|observed.value| == |before| && forall h :: 0 <= h < |before| ==> |observed.value[h]| == budget))
              && (KeptIndicesParityFailed in r.failures <==>
                   && observed.Some? && mapped && |observed.value| == |before| && (forall h :: 0 <= h < |before| ==> |observed.value[h]| == budget)
                   && observed.value != GatherKept(positionMap.value, topk, length, budget, window))
              && (observed.Some? ==>
                   (r.keptIndicesParityPassed == Some(true) <==> mapped && observed.value == GatherKept(positionMap.value, topk, length, budget, window)))
  {
    if length >= budget && recomputed.Some? {
      ReconstructionIsGather(before, recomputed.value, length, budget, window);
      if positionMap.Some? && HasShape(positionMap.value, |before|, length) {
        GatheredShape(positionMap.value, recomputed.value, length, budget, window);
      }
      hide GatherKept, Reconstruct;
    }
  }

  /** What is kept of a tensor, slot by slot: each head's own selected slots, then the last slots. */
  lemma GatheredSlots<T>(tensor: seq<seq<T>>, topk: seq<seq<int>>, length: nat, budget: nat, window: nat, h: nat, k: nat)
    requires HasShape(tensor, |topk|, length) && ValidSelection(topk, |topk|, length, budget, window)
    requires h < |topk| && k < budget
    ensures GatherKept(tensor, topk, length, budget, window)[h][k]
         == tensor[h][if k < budget - window then topk[h][k] else length - budget + k]
  {
    KeptIndicesAreSlots(topk[h], length, budget, window);
  }

  lemma GatheredShape<T>(tensor: seq<seq<T>>, topk: seq<seq<int>>, length: nat, budget: nat, window: nat)
    requires HasShape(tensor, |topk|, length) && ValidSelection(topk, |topk|, length, budget, window)
    ensures HasShape(GatherKept(tensor, topk, length, budget, window), |topk|, budget)
  {
    forall h | 0 <= h < |topk|
      ensures |GatherKept(tensor, topk, length, budget, window)[h]| == budget
    {
      KeptIndicesAreSlots(topk[h], length, budget, window);
    }
  }

  /** Adopting the bookkeeping of a compaction that passed parity is safe: if the position
      map was right before the call, the adopted one is right, and duplicate-free, after it. */
  lemma AdoptionKeepsProvenance<T>(before: seq<seq<T>>, returned: seq<seq<T>>, written: seq<seq<T>>, length: nat,
                                       budget: nat, window: nat, recomputed: Option<seq<seq<int>>>,
                                       observed: seq<seq<int>>, positionMap: Option<seq<seq<int>>>, h: nat)
    requires 1 <= window <= budget <= length && HasShape(before, |before|, length)
    requires recomputed.Some? ==> ValidSelection(recomputed.value, |before|, length, budget, window)
    requires h < |before| == |written|
    requires BuildCaptureRecord(before, returned, length, budget, window, recomputed, Some(observed), positionMap).parityCheckPassed
    requires positionMap.Some? && HasShape(positionMap.value, |before|, length) ==>
               Holds(positionMap.value[h], before[h], written[h], window)
    ensures |observed| == |returned| == |before|
    ensures |observed[h]| == budget
    ensures Holds(observed[h], returned[h], written[h], window)
  {
    CapturePassesIff(before, returned, length, budget, window, recomputed, Some(observed), positionMap);
    CompactionHolds(positionMap.value[h], before[h], written[h], recomputed.value[h], budget, window);
  }
}
