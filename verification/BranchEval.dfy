/** Teacher-forced scoring of one branch, in full and compactly, and the memory guard that
    admits it (src/kvcot/discovery/branch_eval.py, src/kvcot/discovery/execution_measurement.py). */
module BranchEval {
  import opened Prelude

  const SCORED_HORIZON: nat := 48

  /** Everything scoring is parametric in: the step, the NLL of a token under logits, and the
      canonical hash of a list of NLLs. */
  datatype Scorer<!S, !L> = Scorer(step: (S, int) -> (L, S), nll: (L, int) -> real, hash: seq<real> -> string)

  datatype FullResult<S, L> = FullResult(nll: seq<real>, logits: seq<L>, mean: real, final: S)

  datatype CompactScore = CompactScore(nll: seq<real>, mean: real, hash: string)

  datatype Refusal = WrongHorizon(found: nat)

  function Identity(): real -> real { x => x }

  /** `mean_nll`. */
  function MeanNll(values: seq<real>): real { Mean(SumOf(values, Identity()), |values|) }

  // ---------------------------------------------------------------- what a branch should score

  /** The cache after feeding some tokens, one step each. */
  function CacheAfter<S, L>(scorer: Scorer<S, L>, start: S, fed: seq<int>): S {
    if fed == [] then start
    else scorer.step(CacheAfter(scorer, start, fed[..|fed| - 1]), fed[|fed| - 1]).1
  }

  /** The logits after feeding some tokens. */
  function LogitsAfter<S, L>(scorer: Scorer<S, L>, start: S, fed: seq<int>): L
    requires fed != []
  {
    scorer.step(CacheAfter(scorer, start, fed[..|fed| - 1]), fed[|fed| - 1]).0
  }

  /** What has been fed when target k is scored: the bridge and the targets before k. */
  function FedBefore(bridge: int, targets: seq<int>, k: nat): (fed: seq<int>)
    requires k <= |targets|
    ensures |fed| == k + 1
  {
    [bridge] + targets[..k]
  }

  /** The NLL of target k, given the bridge and the targets before it. */
  function NllAt<S, L>(scorer: Scorer<S, L>, start: S, bridge: int, targets: seq<int>, k: nat): real
    requires k < |targets|
  {
    scorer.nll(LogitsAfter(scorer, start, FedBefore(bridge, targets, k)), targets[k])
  }

  function Nlls<S, L>(scorer: Scorer<S, L>, start: S, bridge: int, targets: seq<int>): seq<real> {
    seq(|targets|, k requires 0 <= k < |targets| => NllAt(scorer, start, bridge, targets, k))
  }

  function Logits<S, L>(scorer: Scorer<S, L>, start: S, bridge: int, targets: seq<int>): seq<L> {
    seq(|targets|, k requires 0 <= k < |targets| => LogitsAfter(scorer, start, FedBefore(bridge, targets, k)))
  }

  lemma FedSnoc<S, L>(scorer: Scorer<S, L>, start: S, bridge: int, targets: seq<int>, k: nat)
    requires k < |targets|
    ensures FedBefore(bridge, targets, k + 1) == FedBefore(bridge, targets, k) + [targets[k]]
    ensures CacheAfter(scorer, start, FedBefore(bridge, targets, k + 1))
         == scorer.step(CacheAfter(scorer, start, FedBefore(bridge, targets, k)), targets[k]).1
    ensures LogitsAfter(scorer, start, FedBefore(bridge, targets, k + 1))
         == scorer.step(CacheAfter(scorer, start, FedBefore(bridge, targets, k)), targets[k]).0
  {
    var fed := FedBefore(bridge, targets, k);
    assert FedBefore(bridge, targets, k + 1) == fed + [targets[k]];
    assert (fed + [targets[k]])[..|fed|] == fed;
  }

  lemma FedBridge<S, L>(scorer: Scorer<S, L>, start: S, bridge: int, targets: seq<int>)
    ensures FedBefore(bridge, targets, 0) == [bridge]
    ensures CacheAfter(scorer, start, [bridge]) == scorer.step(start, bridge).1
    ensures LogitsAfter(scorer, start, [bridge]) == scorer.step(start, bridge).0
  {
    assert [bridge][..0] == [];
  }

  /** Scoring as a run of the model: the bridge is fed first, then each target but the last, and
      each target is scored under the logits that preceded it. `logits` and `caches` are what the
      steps of that run returned. */
  lemma {:induction false} ScoresFollowTheRun<S, L>(scorer: Scorer<S, L>, start: S, bridge: int, targets: seq<int>,
                                                    logits: seq<L>, caches: seq<S>, k: nat)
    requires k < |targets| == |logits| == |caches|
    requires (logits[0], caches[0]) == scorer.step(start, bridge)
    requires forall i :: 0 < i < |targets| ==> (logits[i], caches[i]) == scorer.step(caches[i - 1], targets[i - 1])
    ensures Nlls(scorer, start, bridge, targets)[k] == scorer.nll(logits[k], targets[k])
    ensures Logits(scorer, start, bridge, targets)[k] == logits[k]
    ensures CacheAfter(scorer, start, FedBefore(bridge, targets, k)) == caches[k]
  {
    hide CacheAfter, LogitsAfter, FedBefore;
    if k == 0 {
      FedBridge(scorer, start, bridge, targets);
    } else {
      ScoresFollowTheRun(scorer, start, bridge, targets, logits, caches, k - 1);
      FedSnoc(scorer, start, bridge, targets, k - 1);
    }
  }

  /** The mean NLL times the number of targets is the sum of the NLLs. */
  lemma MeanNllIs(values: seq<real>)
    requires values != []
    ensures MeanNll(values) * |values| as real == SumOf(values, x => x)
  {
    SumOfEqual(values, Identity(), x => x);
    var n, sum := |values| as real, SumOf(values, Identity());
    assert sum / n * n == sum;
    hide SumOf;
  }

  // ---------------------------------------------------------------- the two evaluators

  /** `evaluate_branch`. `fed` is every token given to the model, in order. */
  method EvaluateBranch<S, L>(scorer: Scorer<S, L>, start: S, bridge: int, targets: seq<int>)
    returns (r: Result<FullResult<S, L>, Refusal>, ghost fed: seq<int>)
    ensures r.Err? <==> |targets| != SCORED_HORIZON
    ensures r.Err? ==> r.error == WrongHorizon(|targets|) && fed == []
    ensures r.Ok? ==>
              && fed == FedBefore(bridge, targets, SCORED_HORIZON - 1)
              && r.value.nll == Nlls(scorer, start, bridge, targets)
              && r.value.logits == Logits(scorer, start, bridge, targets)
              && r.value.mean == MeanNll(r.value.nll)
              && r.value.final == CacheAfter(scorer, start, fed)
  {
    hide CacheAfter, LogitsAfter, MeanNll, FedBefore;
    fed := [];
    if |targets| != SCORED_HORIZON { return Err(WrongHorizon(|targets|)), []; }
    FedBridge(scorer, start, bridge, targets);
    var (logits, cache) := scorer.step(start, bridge);
    fed := [bridge];
    var nlls: seq<real>, kept: seq<L> := [], [];
    for k := 0 to |targets|
      invariant fed == FedBefore(bridge, targets, Min(k, |targets| - 1))
      invariant cache == CacheAfter(scorer, start, fed)
      invariant k < |targets| ==> logits == LogitsAfter(scorer, start, FedBefore(bridge, targets, k))
      invariant |nlls| == k && forall i :: 0 <= i < k ==> nlls[i] == NllAt(scorer, start, bridge, targets, i)
      invariant |kept| == k && forall i :: 0 <= i < k ==> kept[i] == LogitsAfter(scorer, start, FedBefore(bridge, targets, i))
    {
      nlls := nlls + [scorer.nll(logits, targets[k])];
      kept := kept + [logits];
      if k < |targets| - 1 {
        FedSnoc(scorer, start, bridge, targets, k);
        var next := scorer.step(cache, targets[k]);
        logits, cache := next.0, next.1;
        fed := fed + [targets[k]];
      }
    }
    r := Ok(FullResult(nlls, kept, MeanNll(nlls), cache));
  }

  /** `evaluate_branch_compact`: nothing retained but the NLLs. */
  method EvaluateBranchCompact<S, L>(scorer: Scorer<S, L>, start: S, bridge: int, targets: seq<int>)
    returns (r: Result<CompactScore, Refusal>, ghost fed: seq<int>)
    ensures r.Err? <==> |targets| != SCORED_HORIZON
    ensures r.Err? ==> r.error == WrongHorizon(|targets|) && fed == []
    ensures r.Ok? ==>
              && fed == FedBefore(bridge, targets, SCORED_HORIZON - 1)
              && r.value == ScoreOf(scorer, Nlls(scorer, start, bridge, targets))
              && r.value.nll == Nlls(scorer, start, bridge, targets)
              && r.value.mean == MeanNll(r.value.nll) && r.value.hash == scorer.hash(r.value.nll)
  {
    hide CacheAfter, LogitsAfter, MeanNll, FedBefore;
    fed := [];
    if |targets| != SCORED_HORIZON { return Err(WrongHorizon(|targets|)), []; }
    FedBridge(scorer, start, bridge, targets);
    var (logits, cache) := scorer.step(start, bridge);
    fed := [bridge];
    var nlls: seq<real> := [];
    for k := 0 to |targets|
      invariant fed == FedBefore(bridge, targets, Min(k, |targets| - 1))
      invariant cache == CacheAfter(scorer, start, fed)
      invariant k < |targets| ==> logits == LogitsAfter(scorer, start, FedBefore(bridge, targets, k))
      invariant |nlls| == k && forall i :: 0 <= i < k ==> nlls[i] == NllAt(scorer, start, bridge, targets, i)
    {
      nlls := nlls + [scorer.nll(logits, targets[k])];
      if k < |targets| - 1 {
        FedSnoc(scorer, start, bridge, targets, k);
        var next := scorer.step(cache, targets[k]);
        logits, cache := next.0, next.1;
        fed := fed + [targets[k]];
      }
    }
    assert nlls == Nlls(scorer, start, bridge, targets);
    r := Ok(CompactScore(nlls, MeanNll(nlls), scorer.hash(nlls)));
  }

  function ScoreOf<S, L>(scorer: Scorer<S, L>, nlls: seq<real>): CompactScore {
    CompactScore(nlls, MeanNll(nlls), scorer.hash(nlls))
  }

  /** `compact_branch_score`. */
  function CompactBranchScore<S, L>(scorer: Scorer<S, L>, full: FullResult<S, L>): CompactScore {
    CompactScore(full.nll, full.mean, scorer.hash(full.nll))
  }

  /** The compact evaluator refines the full one: it gives what extracting from the full result
      gives, and feeds the same tokens. */
  method CompactRefinesFull<S, L>(scorer: Scorer<S, L>, start: S, bridge: int, targets: seq<int>)
    returns (compact: Result<CompactScore, Refusal>, full: Result<FullResult<S, L>, Refusal>)
    ensures compact.Ok? == full.Ok?
    ensures compact.Ok? ==> compact.value == CompactBranchScore(scorer, full.value)
    ensures compact.Ok? ==>
              compact.value.nll == full.value.nll && compact.value.mean == full.value.mean && compact.value.hash == scorer.hash(full.value.nll)
    ensures compact.Err? ==> compact.error == full.error
  {
    ghost var fedCompact, fedFull;
    compact, fedCompact := EvaluateBranchCompact(scorer, start, bridge, targets);
    full, fedFull := EvaluateBranch(scorer, start, bridge, targets);
    assert fedCompact == fedFull;
  }

  // ---------------------------------------------------------------- the swap

  datatype Comparison<S, L> = Comparison(baseline: FullResult<S, L>, swapped: FullResult<S, L>, gain: real)

  /** `evaluate_swap_branches`. The no-op control, an unswapped branch, gains nothing, nor does a
      swap between caches that answer alike. */
  method EvaluateSwapBranches<S, L>(scorer: Scorer<S, L>, baseline: S, swapped: S, bridge: int, targets: seq<int>)
    returns (r: Result<Comparison<S, L>, Refusal>)
    ensures r.Ok? <==> |targets| == SCORED_HORIZON
    ensures r.Ok? ==>
              r.value.gain == MeanNll(Nlls(scorer, baseline, bridge, targets)) - MeanNll(Nlls(scorer, swapped, bridge, targets))
    ensures r.Ok? ==> r.value.baseline.nll == Nlls(scorer, baseline, bridge, targets) && r.value.swapped.nll == Nlls(scorer, swapped, bridge, targets)
    ensures r.Ok? && baseline == swapped ==> r.value.gain == 0.0
    ensures r.Ok? && SameOutputs(scorer, baseline, swapped, FedBefore(bridge, targets, SCORED_HORIZON - 1)) ==> r.value.gain == 0.0
  {
    var a, fedA := EvaluateBranch(scorer, baseline, bridge, targets);
    if a.Err? { return Err(a.error); }
    var b, fedB := EvaluateBranch(scorer, swapped, bridge, targets);
    hide MeanNll, Nlls, Logits, CacheAfter;
    if SameOutputs(scorer, baseline, swapped, FedBefore(bridge, targets, SCORED_HORIZON - 1)) {
      SameOutputsSameNlls(scorer, baseline, swapped, bridge, targets);
    }
    r := Ok(Comparison(a.value, b.value, a.value.mean - b.value.mean));
  }

  /** The two caches answer alike to every beginning of what is fed. */
  ghost predicate SameOutputs<S, L>(scorer: Scorer<S, L>, a: S, b: S, fed: seq<int>) {
    forall n :: 0 < n <= |fed| ==> LogitsAfter(scorer, a, fed[..n]) == LogitsAfter(scorer, b, fed[..n])
  }

  lemma SameOutputsSameNlls<S, L>(scorer: Scorer<S, L>, a: S, b: S, bridge: int, targets: seq<int>)
    requires |targets| == SCORED_HORIZON && SameOutputs(scorer, a, b, FedBefore(bridge, targets, SCORED_HORIZON - 1))
    ensures Nlls(scorer, a, bridge, targets) == Nlls(scorer, b, bridge, targets)
  {
    var fed := FedBefore(bridge, targets, SCORED_HORIZON - 1);
    forall k | 0 <= k < |targets|
      ensures NllAt(scorer, a, bridge, targets, k) == NllAt(scorer, b, bridge, targets, k)
    {
      assert fed[..k + 1] == FedBefore(bridge, targets, k);
    }
  }

  // ---------------------------------------------------------------- the memory guard

  datatype Tensor = Tensor(batch: nat, heads: nat, length: nat, dim: nat, elementSize: nat) {
    /** Bytes of one position of one batch member. */
    function PositionBytes(): nat { heads * dim * elementSize }

    function Bytes(): nat { batch * length * PositionBytes() }

    function Grown(tokens: nat): Tensor { this.(length := length + tokens) }
  }

  datatype Layer = Layer(key: Tensor, value: Tensor) {
    function Grown(tokens: nat): Layer { Layer(key.Grown(tokens), value.Grown(tokens)) }
  }

  /** A cache snapshot: the layers' tensors, and the bytes of the fixed-size query window. */
  datatype Snapshot = Snapshot(layers: seq<Layer>, queryBytes: nat)

  function LayersBytes(layers: seq<Layer>): nat {
    if layers == [] then 0
    else LayersBytes(layers[..|layers| - 1]) + layers[|layers| - 1].key.Bytes() + layers[|layers| - 1].value.Bytes()
  }

  /** `snapshot_tensor_bytes`. */
  function TensorBytes(s: Snapshot): nat { LayersBytes(s.layers) + s.queryBytes }

  /** `snapshot_growth_bytes_per_token`. */
  function GrowthPerToken(layers: seq<Layer>): nat {
    if layers == [] then 0
    else GrowthPerToken(layers[..|layers| - 1]) + layers[|layers| - 1].key.PositionBytes() + layers[|layers| - 1].value.PositionBytes()
  }

  /** `snapshot_position_tracking_bytes_per_token`: one 8-byte position per layer and head. */
  function TrackingPerToken(layers: seq<Layer>): nat {
    if layers == [] then 0 else TrackingPerToken(layers[..|layers| - 1]) + layers[|layers| - 1].key.heads * 8
  }

  function GrownLayers(layers: seq<Layer>, tokens: nat): seq<Layer> {
    seq(|layers|, i requires 0 <= i < |layers| => layers[i].Grown(tokens))
  }

  /** The cache of a branch that has been fed some tokens. */
  function GrownBy(s: Snapshot, tokens: nat): Snapshot { s.(layers := GrownLayers(s.layers, tokens)) }

  predicate SingleBatch(layers: seq<Layer>) {
    forall i :: 0 <= i < |layers| ==> layers[i].key.batch == 1 && layers[i].value.batch == 1
  }

  lemma TensorGrowth(t: Tensor, tokens: nat)
    requires t.batch == 1
    ensures t.Grown(tokens).Bytes() == t.Bytes() + tokens * t.PositionBytes()
  {
    var row := t.PositionBytes();
    assert t.Grown(tokens).PositionBytes() == row;
    assert (t.length + tokens) * row == t.length * row + tokens * row;
  }

  /** The per-token growth is exact for single-batch caches: it is derived from the shapes and
      leaves the batch dimension out. */
  lemma {:induction false} GrowthIsExact(layers: seq<Layer>, tokens: nat)
    requires SingleBatch(layers)
    ensures LayersBytes(GrownLayers(layers, tokens)) == LayersBytes(layers) + tokens * GrowthPerToken(layers)
  {
    if layers != [] {
      var rest, last := layers[..|layers| - 1], layers[|layers| - 1];
      GrowthIsExact(rest, tokens);
      assert GrownLayers(layers, tokens)[..|rest|] == GrownLayers(rest, tokens);
      TensorGrowth(last.key, tokens);
      TensorGrowth(last.value, tokens);
      Distribute(tokens, GrowthPerToken(rest), last.key.PositionBytes(), last.value.PositionBytes());
    }
  }

  /** What one more position really adds: every batch member's bytes. */
  function TrueGrowthPerToken(layers: seq<Layer>): nat {
    if layers == [] then 0
    else
      var last := layers[|layers| - 1];
      TrueGrowthPerToken(layers[..|layers| - 1]) + last.key.batch * last.key.PositionBytes() + last.value.batch * last.value.PositionBytes()
  }

  /** A tensor whose growth does not depend on leaving the batch dimension out. */
  predicate CountedRight(t: Tensor) { t.batch == 1 || t.PositionBytes() == 0 }

  /** The code's per-token growth is never too large, and is right exactly when every tensor
      is single-batch or empty. */
  lemma {:induction false} GrowthRightIff(layers: seq<Layer>)
    requires forall i :: 0 <= i < |layers| ==> layers[i].key.batch >= 1 && layers[i].value.batch >= 1
    ensures GrowthPerToken(layers) <= TrueGrowthPerToken(layers)
    ensures GrowthPerToken(layers) == TrueGrowthPerToken(layers) <==>
              forall i :: 0 <= i < |layers| ==> CountedRight(layers[i].key) && CountedRight(layers[i].value)
  {
    if layers != [] {
      var last := layers[|layers| - 1];
      GrowthRightIff(layers[..|layers| - 1]);
      BatchMultiplies(last.key.batch, last.key.PositionBytes());
      BatchMultiplies(last.value.batch, last.value.PositionBytes());
    }
  }

  lemma BatchMultiplies(batch: nat, bytes: nat)
    requires batch >= 1
    ensures bytes <= batch * bytes && (bytes == batch * bytes <==> batch == 1 || bytes == 0)
  {
    assert batch * bytes == bytes + (batch - 1) * bytes;
  }

  lemma Distribute(t: nat, a: nat, b: nat, c: nat)
    ensures t * (a + b + c) == t * a + t * b + t * c
  {
  }

  datatype Evidence = Evidence(clone: nat, growth: nat, reserve: nat, temporaries: nat, projected: int, accepted: bool)

  datatype GuardError = NegativeArgument | NoLayers

  /** What is live once `tokens` tokens have been fed: everything allocated before, the grown
      working clone, the selected vectors, the scoring buffers and the position bookkeeping. */
  function LiveBytes(base: int, s: Snapshot, selected: int, vocab: int, scored: int, tokens: nat): int {
    base + TensorBytes(GrownBy(s, tokens)) + selected + vocab * 4 + vocab * 4 + scored * 4 + tokens * TrackingPerToken(s.layers)
  }

  /** `check_pre_branch_memory`. */
  method CheckPreBranchMemory(reservedNow: int, inUseNow: int, s: Snapshot, selected: int, vocab: int, bridge: int, scored: int, limit: int)
    returns (r: Result<Evidence, GuardError>)
    ensures r.Ok? <==> selected >= 0 && vocab >= 0 && bridge >= 0 && scored >= 0 && s.layers != []
    ensures r.Ok? ==> r.value.accepted == (r.value.projected <= limit)
    ensures r.Ok? ==> r.value.reserve == r.value.growth == (bridge + scored) * GrowthPerToken(s.layers)
    ensures r.Ok? ==> r.value.clone == TensorBytes(s)
    ensures r.Ok? ==> r.value.temporaries == 8 * vocab + 4 * scored + (bridge + scored) * TrackingPerToken(s.layers)
    ensures r.Ok? ==>
              r.value.projected ==
                Max(inUseNow, reservedNow) + r.value.clone + selected + r.value.growth + r.value.reserve + r.value.temporaries
    ensures r.Ok? && SingleBatch(s.layers) ==>
              && r.value.projected == LiveBytes(Max(inUseNow, reservedNow), s, selected, vocab, scored, bridge + scored) + r.value.reserve
              && (r.value.accepted <==> forall tokens: nat :: tokens <= bridge + scored ==>
                    LiveBytes(Max(inUseNow, reservedNow), s, selected, vocab, scored, tokens) + r.value.reserve <= limit)
  {
    hide LiveBytes, TensorBytes, GrowthPerToken, TrackingPerToken, SingleBatch;
    if selected < 0 || vocab < 0 || bridge < 0 || scored < 0 { return Err(NegativeArgument); }
    if s.layers == [] { return Err(NoLayers); }
    var clone := TensorBytes(s);
    var total := bridge + scored;
    var growth := GrowthPerToken(s.layers) * total;
    var reserve := growth;
    var temporaries := vocab * 4 + vocab * 4 + scored * 4 + TrackingPerToken(s.layers) * total;
    var required := clone + selected + growth + reserve + 0 + temporaries;
    var projected := Max(inUseNow, reservedNow) + required;
    r := Ok(Evidence(clone, growth, reserve, temporaries, projected, projected <= limit));
    if SingleBatch(s.layers) {
      ProjectionIsLive(Max(inUseNow, reservedNow), s, selected, vocab, scored, total);
      WorstAtTheEnd(Max(inUseNow, reservedNow), s, selected, vocab, scored, total, limit - reserve);
    }
  }

  /** Without its reserve, the projected peak is what is live after the last token. */
  lemma ProjectionIsLive(base: int, s: Snapshot, selected: int, vocab: int, scored: int, total: nat)
    requires SingleBatch(s.layers)
    ensures LiveBytes(base, s, selected, vocab, scored, total) ==
              base + (TensorBytes(s) + selected + GrowthPerToken(s.layers) * total + 0
                      + (vocab * 4 + vocab * 4 + scored * 4 + TrackingPerToken(s.layers) * total))
  {
    GrowthIsExact(s.layers, total);
    hide LayersBytes, GrowthPerToken, TrackingPerToken, GrownLayers;
  }

  /** What is live never shrinks, so the last token decides for all of them. */
  lemma WorstAtTheEnd(base: int, s: Snapshot, selected: int, vocab: int, scored: int, total: nat, limit: int)
    requires SingleBatch(s.layers)
    ensures LiveBytes(base, s, selected, vocab, scored, total) <= limit <==>
              forall tokens: nat :: tokens <= total ==> LiveBytes(base, s, selected, vocab, scored, tokens) <= limit
  {
    hide LiveBytes;
    forall tokens: nat | tokens <= total
      ensures LiveBytes(base, s, selected, vocab, scored, tokens) <= LiveBytes(base, s, selected, vocab, scored, total)
    {
      LiveBytesGrow(base, s, selected, vocab, scored, tokens, total);
    }
  }

  /** What one more token makes live. */
  function PerToken(s: Snapshot): nat { GrowthPerToken(s.layers) + TrackingPerToken(s.layers) }

  lemma LiveBytesGrow(base: int, s: Snapshot, selected: int, vocab: int, scored: int, few: nat, many: nat)
    requires few <= many && SingleBatch(s.layers)
    ensures LiveBytes(base, s, selected, vocab, scored, many) == LiveBytes(base, s, selected, vocab, scored, few) + (many - few) * PerToken(s)
    ensures LiveBytes(base, s, selected, vocab, scored, few) <= LiveBytes(base, s, selected, vocab, scored, many)
  {
    GrowthIsExact(s.layers, few);
    GrowthIsExact(s.layers, many);
    hide LayersBytes, GrowthPerToken, TrackingPerToken, GrownLayers;
    Scaled(few, many, GrowthPerToken(s.layers), TrackingPerToken(s.layers));
  }

  lemma Scaled(few: nat, many: nat, a: nat, b: nat)
    requires few <= many
    ensures many * a + many * b == few * a + few * b + (many - few) * (a + b)
    ensures (many - few) * (a + b) >= 0
  {
  }

  /** What is live, byte by byte, for a snapshot of one layer: the two sides grown by the tokens, the
      query window, the selected vectors, two vocabulary-sized buffers and one scalar per scored
      token of four bytes each, and one eight-byte position per head and token. */
  lemma OneLayerLive(base: int, k: Tensor, v: Tensor, queryBytes: nat, selected: int, vocab: int, scored: int, tokens: nat)
    ensures LiveBytes(base, Snapshot([Layer(k, v)], queryBytes), selected, vocab, scored, tokens) ==
              base
              + k.batch * (k.length + tokens) * (k.heads * k.dim * k.elementSize)
              + v.batch * (v.length + tokens) * (v.heads * v.dim * v.elementSize)
              + queryBytes + selected + 8 * vocab + 4 * scored + tokens * (8 * k.heads)
    ensures GrowthPerToken([Layer(k, v)]) == k.heads * k.dim * k.elementSize + v.heads * v.dim * v.elementSize
  {
    var layers := [Layer(k, v)];
    var grown := GrownLayers(layers, tokens);
    assert layers[..0] == [] && grown[..0] == [] && grown == [Layer(k.Grown(tokens), v.Grown(tokens))];
    assert TrackingPerToken(layers) == k.heads * 8;
    assert LayersBytes(grown) == k.Grown(tokens).Bytes() + v.Grown(tokens).Bytes();
  }

  /** And layer by layer for any snapshot. */
  lemma LayersAdd(layers: seq<Layer>, layer: Layer, tokens: nat)
    ensures LayersBytes(layers + [layer]) == LayersBytes(layers) + layer.key.Bytes() + layer.value.Bytes()
    ensures GrowthPerToken(layers + [layer]) == GrowthPerToken(layers) + GrowthPerToken([layer])
    ensures TrackingPerToken(layers + [layer]) == TrackingPerToken(layers) + 8 * layer.key.heads
    ensures GrownLayers(layers + [layer], tokens) == GrownLayers(layers, tokens) + [layer.Grown(tokens)]
  {
    assert (layers + [layer])[..|layers|] == layers && [layer][..0] == [];
  }

  // ---------------------------------------------------------------- what the reserve is for

  /** The two sides of a layer, keys before values. */
  function Side(layer: Layer, values: bool): Tensor { if values then layer.value else layer.key }

  /** What one token adds to the sides that are appended after this one. */
  function LaterGrowth(layers: seq<Layer>, i: nat, values: bool): nat
    requires i < |layers|
  {
    GrowthPerToken(layers[i + 1..]) + (if values then 0 else layers[i].value.PositionBytes())
  }

  /** While the n-th token is appended to one side, its old tensor is still there beside the new
      one; the sides before it have grown, those after it have not. */
  function DuringAppend(base: int, s: Snapshot, selected: int, vocab: int, scored: int, n: nat, i: nat, values: bool): int
    requires n >= 1 && i < |s.layers|
  {
    LiveBytes(base, s, selected, vocab, scored, n) - LaterGrowth(s.layers, i, values) + Side(s.layers[i], values).Grown(n - 1).Bytes()
  }

  /** Every one of the first `appends` appends, of every layer side, stays within the limit. */
  ghost predicate AppendsWithin(base: int, s: Snapshot, selected: int, vocab: int, scored: int, appends: nat, limit: int) {
    forall n: nat, i: nat, values: bool :: 1 <= n <= appends && i < |s.layers| ==>
      DuringAppend(base, s, selected, vocab, scored, n, i, values) <= limit
  }

  /** The copy of the side held last fits in the reserve, what the remaining tokens would add, and
      what the later sides have yet to add. */
  predicate CopyFits(s: Snapshot, i: nat, values: bool, appends: nat, total: nat, reserve: nat)
    requires 1 <= appends <= total && i < |s.layers|
  {
    Side(s.layers[i], values).Grown(appends - 1).Bytes() <= reserve + (total - appends) * PerToken(s) + LaterGrowth(s.layers, i, values)
  }

  /** The last copy of every layer side does. */
  predicate CopiesFit(s: Snapshot, appends: nat, total: nat, reserve: nat)
    requires 1 <= appends <= total
  {
    forall i: nat, values: bool :: i < |s.layers| ==> CopyFits(s, i, values, appends, total, reserve)
  }

  /** An accepted guard bounds its appends, whatever was allocated and whatever the limit, exactly
      when no side's last copy exceeds the reserve and the growth that has not happened yet. */
  lemma AcceptedBoundsAppendsIff(base: int, s: Snapshot, selected: int, vocab: int, scored: int, appends: nat, total: nat, reserve: nat)
    requires SingleBatch(s.layers) && 1 <= appends <= total
    ensures (forall limit :: LiveBytes(base, s, selected, vocab, scored, total) + reserve <= limit ==>
               AppendsWithin(base, s, selected, vocab, scored, appends, limit))
            <==> CopiesFit(s, appends, total, reserve)
  {
    hide LiveBytes, PerToken, SingleBatch, LaterGrowth, CopyFits, DuringAppend;
    var projected := LiveBytes(base, s, selected, vocab, scored, total) + reserve;
    forall n: nat, i: nat, values: bool | 1 <= n <= appends && i < |s.layers|
      ensures DuringAppend(base, s, selected, vocab, scored, n, i, values) <= DuringAppend(base, s, selected, vocab, scored, appends, i, values)
      ensures DuringAppend(base, s, selected, vocab, scored, appends, i, values) <= projected <==> CopyFits(s, i, values, appends, total, reserve)
    {
      LastAppendIsWorst(base, s, selected, vocab, scored, n, appends, i, values);
      LastAppendFits(base, s, selected, vocab, scored, appends, total, reserve, i, values);
    }
    if AppendsWithin(base, s, selected, vocab, scored, appends, projected) {
      forall i: nat, values: bool | i < |s.layers|
        ensures CopyFits(s, i, values, appends, total, reserve)
      {
        assert DuringAppend(base, s, selected, vocab, scored, appends, i, values) <= projected;
      }
    }
  }

  lemma LastAppendFits(base: int, s: Snapshot, selected: int, vocab: int, scored: int, appends: nat, total: nat, reserve: nat,
                       i: nat, values: bool)
    requires SingleBatch(s.layers) && 1 <= appends <= total && i < |s.layers|
    ensures DuringAppend(base, s, selected, vocab, scored, appends, i, values) <= LiveBytes(base, s, selected, vocab, scored, total) + reserve
            <==> CopyFits(s, i, values, appends, total, reserve)
  {
    hide LiveBytes, PerToken, LaterGrowth, SingleBatch;
    LiveBytesGrow(base, s, selected, vocab, scored, appends, total);
  }

  lemma LastAppendIsWorst(base: int, s: Snapshot, selected: int, vocab: int, scored: int, n: nat, appends: nat, i: nat, values: bool)
    requires SingleBatch(s.layers) && 1 <= n <= appends && i < |s.layers|
    ensures DuringAppend(base, s, selected, vocab, scored, n, i, values) <= DuringAppend(base, s, selected, vocab, scored, appends, i, values)
  {
    LiveBytesGrow(base, s, selected, vocab, scored, n, appends);
    hide LiveBytes, PerToken, LaterGrowth;
    LongerIsLarger(Side(s.layers[i], values), n - 1, appends - 1);
  }

  lemma LongerIsLarger(t: Tensor, few: nat, many: nat)
    requires few <= many
    ensures t.Grown(few).Bytes() <= t.Grown(many).Bytes()
  {
    var row := t.PositionBytes();
    Products3(t.batch, t.length + few, many - few, row);
  }

  lemma Products3(batch: nat, length: nat, more: nat, row: nat)
    ensures batch * length * row <= batch * (length + more) * row
  {
    assert batch * (length + more) == batch * length + batch * more;
    assert (batch * length + batch * more) * row == batch * length * row + batch * more * row;
  }

  /** With all sides alike, the reserve of the whole horizon covers its appends exactly when the
      cache, one token short of the horizon's end, is no longer than the horizon times the number
      of sides: the last side appended decides. */
  lemma AlikeSidesCoveredIff(s: Snapshot, side: Tensor, total: nat)
    requires SingleBatch(s.layers) && s.layers != [] && total >= 1 && side.PositionBytes() > 0
    requires forall i :: 0 <= i < |s.layers| ==> s.layers[i] == Layer(side, side)
    ensures CopiesFit(s, total, total, total * GrowthPerToken(s.layers)) <==>
              side.length + total - 1 <= total * (2 * |s.layers|)
  {
    AlikeGrowth(s.layers, side);
    var row, sides, held, last := side.PositionBytes(), 2 * |s.layers|, side.length + total - 1, |s.layers| - 1;
    assert s.layers[last].value == side;
    assert side.Grown(total - 1).PositionBytes() == row && side.Grown(total - 1).Bytes() == held * row;
    assert LaterGrowth(s.layers, last, true) == 0;
    hide GrowthPerToken, LaterGrowth, PerToken;
    CompareProducts(held, total, sides, row);
    assert CopyFits(s, last, true, total, total, total * GrowthPerToken(s.layers)) <==> held <= total * sides;
    forall i: nat, values: bool | i < |s.layers|
      ensures Side(s.layers[i], values) == side
    {
    }
  }

  lemma CompareProducts(held: nat, total: nat, sides: nat, row: nat)
    requires row > 0
    ensures held * row <= total * (sides * row) <==> held <= total * sides
  {
    var gap: int := total * sides - held;
    assert total * (sides * row) - held * row == gap * row;
    if gap >= 0 {
      assert gap * row >= 0;
    } else {
      assert gap * row + row <= 0;
    }
  }

  lemma {:induction false} AlikeGrowth(layers: seq<Layer>, side: Tensor)
    requires forall i :: 0 <= i < |layers| ==> layers[i] == Layer(side, side)
    ensures GrowthPerToken(layers) == (2 * |layers|) * side.PositionBytes()
  {
    if layers != [] {
      AlikeGrowth(layers[..|layers| - 1], side);
      var row, fewer := side.PositionBytes(), 2 * (|layers| - 1);
      assert (fewer + 2) * row == fewer * row + row + row;
    }
  }

  /** A snapshot whose reserve is too small: 28 layers of 3000 positions, against 49 times 56. */
  lemma ReserveCanBeTooSmall(base: int, s: Snapshot, side: Tensor)
    requires side == Tensor(1, 2, 3000, 128, 2) && s.layers == seq(28, _ => Layer(side, side))
    ensures !forall limit :: LiveBytes(base, s, 0, 0, SCORED_HORIZON, 49) + 49 * GrowthPerToken(s.layers) <= limit ==>
              AppendsWithin(base, s, 0, 0, SCORED_HORIZON, 49, limit)
  {
    AlikeSidesCoveredIff(s, side, 49);
    AcceptedBoundsAppendsIff(base, s, 0, 0, SCORED_HORIZON, 49, 49, 49 * GrowthPerToken(s.layers));
    hide LiveBytes, AppendsWithin, CopyFits, PerToken, GrowthPerToken;
  }

  /** An admitted branch keeps its reserve free at every token the evaluators feed; and when the
      copies fit it stays within the limit during every append as well. The bridge and the first
      47 targets are 48 of the 49 tokens admitted. */
  lemma AdmittedBranchFits(base: int, s: Snapshot, selected: int, vocab: int, reserve: nat, bridgeToken: int, targets: seq<int>,
                           limit: int, k: nat, i: nat, values: bool)
    requires SingleBatch(s.layers) && |targets| == SCORED_HORIZON && k < |targets| && i < |s.layers|
    requires LiveBytes(base, s, selected, vocab, SCORED_HORIZON, 1 + SCORED_HORIZON) + reserve <= limit
    ensures LiveBytes(base, s, selected, vocab, SCORED_HORIZON, |FedBefore(bridgeToken, targets, k)|) + reserve <= limit
    ensures CopiesFit(s, SCORED_HORIZON, 1 + SCORED_HORIZON, reserve) ==>
              DuringAppend(base, s, selected, vocab, SCORED_HORIZON, |FedBefore(bridgeToken, targets, k)|, i, values) <= limit
  {
    hide LiveBytes, DuringAppend, CopiesFit, PerToken, SingleBatch;
    LiveBytesGrow(base, s, selected, vocab, SCORED_HORIZON, |FedBefore(bridgeToken, targets, k)|, 1 + SCORED_HORIZON);
    if CopiesFit(s, SCORED_HORIZON, 1 + SCORED_HORIZON, reserve) {
      AcceptedBoundsAppendsIff(base, s, selected, vocab, SCORED_HORIZON, SCORED_HORIZON, 1 + SCORED_HORIZON, reserve);
      assert AppendsWithin(base, s, selected, vocab, SCORED_HORIZON, SCORED_HORIZON, limit);
    }
  }
}
