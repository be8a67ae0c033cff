/** The wrapped prefill/decode/snapshot functions of the R-KV worker, which attribute calls and
    wall time to Pass 1 and Pass 2 by call order alone (src/kvcot/discovery/b2a_workers.py,
    src/kvcot/discovery/call_trace.py, src/kvcot/discovery/b2a_evidence.py). */
module CallTrace {
  import opened Prelude
  import opened CanonicalJson

  /** A recorded call boundary. */
  datatype Event = PrefillEvent(tokens: seq<int>) | DecodeEvent(token: int)

  /** A tensor-level model call, as recorded at the adapter boundary. */
  datatype ModelCall = ModelCall(kind: string, batch: nat, length: nat)

  datatype Kind = Prefill(tokens: seq<int>) | DecodeOne(token: int) | Snapshot

  /** One call to the harness: how long the wrapped function took, whether it raised, and the
      model calls it made. */
  datatype Call = Call(kind: Kind, seconds: real, raises: bool, modelCalls: seq<ModelCall>)

  predicate IsPrefill(c: Call) { c.kind.Prefill? }

  function Prefills(log: seq<Call>): nat { Count(log, IsPrefill) }

  // ---------------------------------------------------------------- what the two passes should be

  /** Where Pass 2 begins: the position of the second prefill, or the end. */
  function Transition(log: seq<Call>): (t: nat)
    ensures t <= |log|
  {
    if log == [] then 0 else
      var rest, last := log[..|log| - 1], log[|log| - 1];
      if Transition(rest) < |rest| || (IsPrefill(last) && Prefills(rest) >= 1) then Transition(rest) else |log|
  }

  function PassOne(log: seq<Call>): seq<Call> { log[..Transition(log)] }

  function PassTwo(log: seq<Call>): seq<Call> { log[Transition(log)..] }

  /** What `Transition` means: at most one prefill before it, and it is itself a prefill. */
  lemma {:induction false} TransitionIsSecondPrefill(log: seq<Call>)
    ensures Prefills(PassOne(log)) <= 1
    ensures Transition(log) < |log| <==> Prefills(log) >= 2
    ensures Transition(log) < |log| ==> IsPrefill(log[Transition(log)]) && Prefills(PassOne(log)) == 1
  {
    if log != [] {
      var rest := log[..|log| - 1];
      TransitionIsSecondPrefill(rest);
      assert Transition(rest) < |rest| ==> PassOne(log) == PassOne(rest);
      assert Transition(rest) == |rest| ==> PassOne(rest) == rest && log[..|rest|] == rest;
      assert log[..|log|] == log;
    }
  }

  /** The call boundaries a stretch of calls crosses, in order. */
  function Boundaries(calls: seq<Call>): seq<Event> { FlatMap(calls, BoundaryOf()) }

  function BoundaryOf(): Call -> seq<Event> { (c: Call) => Boundary(c.kind) }

  function Boundary(kind: Kind): seq<Event> {
    match kind
    case Prefill(tokens) => [PrefillEvent(tokens)]
    case DecodeOne(token) => [DecodeEvent(token)]
    case Snapshot => []
  }

  function ModelCalls(calls: seq<Call>): seq<ModelCall> { FlatMap(calls, ModelCallsOf()) }

  function ModelCallsOf(): Call -> seq<ModelCall> { (c: Call) => c.modelCalls }

  /** Time of the calls that returned: all of them, only snapshots, or only the others. */
  function Time(): Call -> real { (c: Call) => if c.raises then 0.0 else c.seconds }

  function SnapshotTime(): Call -> real { (c: Call) => if c.raises || !c.kind.Snapshot? then 0.0 else c.seconds }

  function BoundaryTime(): Call -> real { (c: Call) => if c.raises || c.kind.Snapshot? then 0.0 else c.seconds }

  // ---------------------------------------------------------------- the code

  class Harness {
    var prefillCalls: nat
    var pass1Events: seq<Event>
    var pass2Events: seq<Event>
    var pass1Seconds: real
    var pass2Seconds: real
    var captureSeconds: real
    var modelCalls: seq<ModelCall>  // the shared recorder at the adapter boundary
    ghost var log: seq<Call>        // every call so far

    /** Attribution by counting agrees with splitting the log at the second prefill. */
    ghost predicate Valid()
      reads this
    {
      && prefillCalls == Prefills(log)
      && pass1Events == Boundaries(PassOne(log))
      && pass2Events == Boundaries(PassTwo(log))
      && pass1Seconds == SumOf(PassOne(log), BoundaryTime())
      && pass2Seconds == SumOf(PassTwo(log), BoundaryTime()) + SumOf(log, SnapshotTime())
      && captureSeconds == SumOf(log, SnapshotTime())
      && modelCalls == ModelCalls(log)
    }

    constructor ()
      ensures Valid() && log == []
    {
      prefillCalls, pass1Events, pass2Events := 0, [], [];
      pass1Seconds, pass2Seconds, captureSeconds := 0.0, 0.0, 0.0;
      modelCalls, log := [], [];
    }

    method CallPrefill(call: Call)
      requires Valid() && call.kind.Prefill?
      modifies this
      ensures Valid() && log == old(log) + [call]
      ensures prefillCalls == old(prefillCalls) + 1 && modelCalls == old(modelCalls) + call.modelCalls
      ensures pass1Events == old(pass1Events) + (if old(prefillCalls) == 0 then [PrefillEvent(call.kind.tokens)] else [])
      ensures pass2Events == old(pass2Events) + (if old(prefillCalls) == 0 then [] else [PrefillEvent(call.kind.tokens)])
      ensures pass1Seconds == old(pass1Seconds) + (if old(prefillCalls) == 0 && !call.raises then call.seconds else 0.0)
      ensures pass2Seconds == old(pass2Seconds) + (if old(prefillCalls) > 0 && !call.raises then call.seconds else 0.0)
      ensures captureSeconds == old(captureSeconds)
    {
      hide Boundaries, PassOne, PassTwo, ModelCalls, Prefills, SumOf;
      prefillCalls := prefillCalls + 1;
      RecordBoundary(PrefillEvent(call.kind.tokens));
      RunWrapped(call);
      CallAppended(old(log), call);
      log := log + [call];
    }

    method CallDecodeOne(call: Call)
      requires Valid() && call.kind.DecodeOne?
      modifies this
      ensures Valid() && log == old(log) + [call]
      ensures prefillCalls == old(prefillCalls) && modelCalls == old(modelCalls) + call.modelCalls
      ensures pass1Events == old(pass1Events) + (if old(prefillCalls) <= 1 then [DecodeEvent(call.kind.token)] else [])
      ensures pass2Events == old(pass2Events) + (if old(prefillCalls) <= 1 then [] else [DecodeEvent(call.kind.token)])
      ensures pass1Seconds == old(pass1Seconds) + (if old(prefillCalls) <= 1 && !call.raises then call.seconds else 0.0)
      ensures pass2Seconds == old(pass2Seconds) + (if old(prefillCalls) > 1 && !call.raises then call.seconds else 0.0)
      ensures captureSeconds == old(captureSeconds)
    {
      hide Boundaries, PassOne, PassTwo, ModelCalls, Prefills, SumOf;
      RecordBoundary(DecodeEvent(call.kind.token));
      RunWrapped(call);
      CallAppended(old(log), call);
      log := log + [call];
    }

    method CallSnapshot(call: Call)
      requires Valid() && call.kind.Snapshot?
      modifies this
      ensures Valid() && log == old(log) + [call]
      ensures prefillCalls == old(prefillCalls) && modelCalls == old(modelCalls) + call.modelCalls
      ensures pass1Events == old(pass1Events) && pass2Events == old(pass2Events) && pass1Seconds == old(pass1Seconds)
      ensures pass2Seconds == old(pass2Seconds) + (if call.raises then 0.0 else call.seconds)
      ensures captureSeconds == old(captureSeconds) + (if call.raises then 0.0 else call.seconds)
    {
      hide Boundaries, PassOne, PassTwo, ModelCalls, Prefills, SumOf;
      modelCalls := modelCalls + call.modelCalls;
      if !call.raises {
        captureSeconds := captureSeconds + call.seconds;
        pass2Seconds := pass2Seconds + call.seconds;
      }
      CallAppended(old(log), call);
      log := log + [call];
    }

    /** `_active_recorder`: the counter alone decides. */
    method RecordBoundary(event: Event)
      modifies this`pass1Events, this`pass2Events
      ensures pass1Events == old(pass1Events) + if prefillCalls <= 1 then [event] else []
      ensures pass2Events == old(pass2Events) + if prefillCalls <= 1 then [] else [event]
    {
      if prefillCalls <= 1 { pass1Events := pass1Events + [event]; } else { pass2Events := pass2Events + [event]; }
    }

    /** The wrapped function runs; its time is added only if it returns. */
    method RunWrapped(call: Call)
      modifies this`modelCalls, this`pass1Seconds, this`pass2Seconds
      ensures modelCalls == old(modelCalls) + call.modelCalls
      ensures pass1Seconds == old(pass1Seconds) + if prefillCalls <= 1 then Time()(call) else 0.0
      ensures pass2Seconds == old(pass2Seconds) + if prefillCalls <= 1 then 0.0 else Time()(call)
    {
      modelCalls := modelCalls + call.modelCalls;
      if !call.raises {
        if prefillCalls <= 1 { pass1Seconds := pass1Seconds + call.seconds; } else { pass2Seconds := pass2Seconds + call.seconds; }
      }
    }
  }

  /** How one more call changes everything `Valid` speaks of. */
  lemma CallAppended(log: seq<Call>, call: Call)
    ensures Prefills(log + [call]) == Prefills(log) + if IsPrefill(call) then 1 else 0
    ensures ModelCalls(log + [call]) == ModelCalls(log) + call.modelCalls
    ensures SumOf(log + [call], SnapshotTime()) == SumOf(log, SnapshotTime()) + SnapshotTime()(call)
    ensures var inFirst := Prefills(log + [call]) <= 1;
            && Boundaries(PassOne(log + [call])) == Boundaries(PassOne(log)) + (if inFirst then Boundary(call.kind) else [])
            && Boundaries(PassTwo(log + [call])) == Boundaries(PassTwo(log)) + (if inFirst then [] else Boundary(call.kind))
            && SumOf(PassOne(log + [call]), BoundaryTime()) == SumOf(PassOne(log), BoundaryTime()) + (if inFirst then BoundaryTime()(call) else 0.0)
            && SumOf(PassTwo(log + [call]), BoundaryTime()) == SumOf(PassTwo(log), BoundaryTime()) + (if inFirst then 0.0 else BoundaryTime()(call))
  {
    var longer := log + [call];
    CountSnoc(log, call, IsPrefill);
    SumOfSnoc(log, call, SnapshotTime());
    FlatMapSnoc(log, call, ModelCallsOf());
    PassesAppended(log, call);
    hide PassOne, PassTwo, Boundaries, SumOf, SnapshotTime, BoundaryTime;
    if Prefills(longer) <= 1 {
      Appended(PassOne(log), call);
    } else {
      Appended(PassTwo(log), call);
    }
  }

  lemma Appended(calls: seq<Call>, call: Call)
    ensures Boundaries(calls + [call]) == Boundaries(calls) + Boundary(call.kind)
    ensures SumOf(calls + [call], BoundaryTime()) == SumOf(calls, BoundaryTime()) + BoundaryTime()(call)
  {
    FlatMapSnoc(calls, call, BoundaryOf());
    SumOfSnoc(calls, call, BoundaryTime());
  }

  lemma PassesAppended(log: seq<Call>, call: Call)
    ensures if Prefills(log + [call]) <= 1
            then PassOne(log + [call]) == PassOne(log) + [call] && PassTwo(log + [call]) == PassTwo(log)
            else PassOne(log + [call]) == PassOne(log) && PassTwo(log + [call]) == PassTwo(log) + [call]
  {
    var longer := log + [call];
    assert longer[..|log|] == log;
    CountSnoc(log, call, IsPrefill);
    TransitionIsSecondPrefill(log);
    TransitionIsSecondPrefill(longer);
  }

  // ---------------------------------------------------------------- nothing lost, nothing twice

  /** Pass-1 events followed by pass-2 events are all the observed boundaries, in order. */
  lemma PassesCoverTheLog(log: seq<Call>)
    ensures Boundaries(PassOne(log)) + Boundaries(PassTwo(log)) == Boundaries(log)
    ensures ModelCalls(PassOne(log)) + ModelCalls(PassTwo(log)) == ModelCalls(log)
  {
    var one, two := PassOne(log), PassTwo(log);
    assert one + two == log;
    FlatMapConcat(one, two, BoundaryOf());
    FlatMapConcat(one, two, ModelCallsOf());
  }

  lemma {:induction false} TimesSplit(calls: seq<Call>)
    ensures SumOf(calls, Time()) == SumOf(calls, BoundaryTime()) + SumOf(calls, SnapshotTime())
  {
    if calls != [] {
      TimesSplit(calls[..|calls| - 1]);
    }
  }

  lemma {:induction false} TimesNonnegative(calls: seq<Call>, f: Call -> real)
    requires forall i :: 0 <= i < |calls| ==> f(calls[i]) >= 0.0
    ensures SumOf(calls, f) >= 0.0
  {
    if calls != [] {
      TimesNonnegative(calls[..|calls| - 1], f);
    }
  }

  /** The two totals of a valid harness. */
  function PassOneSeconds(log: seq<Call>): real { SumOf(PassOne(log), BoundaryTime()) }

  function PassTwoSeconds(log: seq<Call>): real { SumOf(PassTwo(log), BoundaryTime()) + SumOf(log, SnapshotTime()) }

  /** Time is conserved; snapshot time is part of Pass 2's and never added to it again; and
      Pass 2's total is Pass 2's own time plus that of any snapshot taken during Pass 1. */
  lemma TimeIsConserved(log: seq<Call>)
    requires forall i :: 0 <= i < |log| ==> log[i].seconds >= 0.0
    ensures PassOneSeconds(log) + PassTwoSeconds(log) == SumOf(log, Time())
    ensures SumOf(log, SnapshotTime()) <= PassTwoSeconds(log)
    ensures PassTwoSeconds(log) == SumOf(PassTwo(log), Time()) + SumOf(PassOne(log), SnapshotTime())
  {
    assert PassOne(log) + PassTwo(log) == log;
    SumOfConcat(PassOne(log), PassTwo(log), Time());
    SumOfConcat(PassOne(log), PassTwo(log), SnapshotTime());
    TimesSplit(PassOne(log));
    TimesSplit(PassTwo(log));
    TimesNonnegative(PassTwo(log), BoundaryTime());
  }

  // ---------------------------------------------------------------- slicing the model calls

  /** Python's `xs[from:to]` for nonnegative bounds. */
  function Slice<T>(xs: seq<T>, from: nat, to: nat): seq<T> {
    var a, b := Min(from, |xs|), Min(to, |xs|);
    if a <= b then xs[a..b] else []
  }

  /** Every prefill and decode makes one model call, and snapshots make none. */
  predicate OneModelCallEach(log: seq<Call>) {
    forall i :: 0 <= i < |log| ==> |log[i].modelCalls| == |Boundary(log[i].kind)|
  }

  lemma {:induction false} OneModelCallPerBoundary(calls: seq<Call>)
    requires OneModelCallEach(calls)
    ensures |ModelCalls(calls)| == |Boundaries(calls)|
  {
    if calls != [] {
      OneModelCallPerBoundary(calls[..|calls| - 1]);
    }
  }

  lemma SlicesOfConcat<T>(one: seq<T>, two: seq<T>)
    ensures Slice(one + two, 0, |one|) == one && Slice(one + two, |one|, |one| + |two|) == two
  {
  }

  /** `build_replay_evidence`'s slices pick exactly each pass's own model calls. */
  lemma SlicesAreThePasses(log: seq<Call>)
    requires OneModelCallEach(log)
    ensures var one, two := Boundaries(PassOne(log)), Boundaries(PassTwo(log));
            && Slice(ModelCalls(log), 0, |one|) == ModelCalls(PassOne(log))
            && Slice(ModelCalls(log), |one|, |one| + |two|) == ModelCalls(PassTwo(log))
  {
    PassesCoverTheLog(log);
    OneModelCallPerBoundary(PassOne(log));
    OneModelCallPerBoundary(PassTwo(log));
    hide Boundaries, ModelCalls, PassOne, PassTwo, OneModelCallEach;
    SlicesOfConcat(ModelCalls(PassOne(log)), ModelCalls(PassTwo(log)));
  }

  // ---------------------------------------------------------------- comparing two traces

  predicate IsPrefillEvent(e: Event) { e.PrefillEvent? }

  predicate IsDecodeEvent(e: Event) { e.DecodeEvent? }

  function PrefillTokens(events: seq<Event>): nat {
    if events == [] then 0
    else PrefillTokens(events[..|events| - 1]) + (if events[|events| - 1].PrefillEvent? then |events[|events| - 1].tokens| else 0)
  }

  datatype Comparison = Comparison(prefillCalls: bool, prefillTokens: bool, decodeCalls: bool, orderedTrace: bool) {
    predicate AllMatch() { prefillCalls && prefillTokens && decodeCalls && orderedTrace }
  }

  /** `{"kind": ..., "token_ids": [...]}`, and what follows it. */
  function EventText(e: Event, rest: string): string {
    match e
    case PrefillEvent(tokens) => "{\"kind\":\"prefill\",\"token_ids\":[" + Numbers(tokens, "}" + rest)
    case DecodeEvent(token) => "{\"kind\":\"decode\",\"token_ids\":[" + Numbers([token], "}" + rest)
  }

  /** The rest of a list of events after its opening bracket. */
  function EventsText(events: seq<Event>): string
    decreases |events|, 1
  {
    if events == [] then "]" else EventText(events[0], AfterFirstEvent(events))
  }

  function AfterFirstEvent(events: seq<Event>): (text: string)
    requires events != []
    ensures text != [] && (text[0] == ']' <==> |events| == 1)
    decreases |events|, 0
  {
    if |events| == 1 then "]" else "," + EventsText(events[1..])
  }

  /** The canonical JSON of a trace: what is hashed. */
  function TraceText(events: seq<Event>): string { "[" + EventsText(events) }

  lemma EventRead(a: Event, r: string, b: Event, s: string)
    requires EventText(a, r) == EventText(b, s)
    ensures a == b && r == s
  {
    var prefill, decode := "{\"kind\":\"prefill\",\"token_ids\":[", "{\"kind\":\"decode\",\"token_ids\":[";
    assert prefill[9] == 'p' && decode[9] == 'd';
    assert EventText(a, r)[9] == EventText(b, s)[9];
    hide Numbers;
    var head, xs, ys := if a.PrefillEvent? then prefill else decode, TokensOf(a), TokensOf(b);
    SameHeadSameRest(head, Numbers(xs, "}" + r), Numbers(ys, "}" + s));
    NumbersRead(xs, "}" + r, ys, "}" + s);
    SameHeadSameRest("}", r, s);
    assert a.DecodeEvent? ==> xs[0] == a.token && ys[0] == b.token;
  }

  function TokensOf(e: Event): seq<int> {
    match e
    case PrefillEvent(tokens) => tokens
    case DecodeEvent(token) => [token]
  }

  lemma EventTextBegins(e: Event, rest: string)
    ensures EventText(e, rest) != [] && EventText(e, rest)[0] == '{'
  {
  }

  lemma {:induction false} EventsRead(a: seq<Event>, b: seq<Event>)
    requires EventsText(a) == EventsText(b)
    ensures a == b
    decreases |a|, 1
  {
    hide EventText, AfterFirstEvent;
    EventsTextBegins(a);
    EventsTextBegins(b);
    if a != [] && b != [] {
      EventRead(a[0], AfterFirstEvent(a), b[0], AfterFirstEvent(b));
      RestsRead(a, b);
      assert a == [a[0]] + a[1..] && b == [b[0]] + b[1..];
    }
  }

  lemma {:induction false} RestsRead(a: seq<Event>, b: seq<Event>)
    requires a != [] && b != [] && AfterFirstEvent(a) == AfterFirstEvent(b)
    ensures a[1..] == b[1..]
    decreases |a|, 0
  {
    hide EventsText;
    if |a| > 1 {
      SameHeadSameRest(",", EventsText(a[1..]), EventsText(b[1..]));
      EventsRead(a[1..], b[1..]);
    }
  }

  lemma EventsTextBegins(events: seq<Event>)
    ensures EventsText(events) != [] && (EventsText(events)[0] == ']' <==> events == [])
  {
    if events != [] {
      EventTextBegins(events[0], AfterFirstEvent(events));
      hide EventText, AfterFirstEvent;
    }
  }

  /** Two traces with the same canonical text are the same trace. */
  lemma TraceTextInjective(a: seq<Event>, b: seq<Event>)
    requires TraceText(a) == TraceText(b)
    ensures a == b
  {
    SameHeadSameRest("[", EventsText(a), EventsText(b));
    EventsRead(a, b);
  }

  /** SHA-256 of a text: no two texts are taken to collide. */
  ghost predicate CollisionFree(sha256: string -> int) {
    forall s, t :: sha256(s) == sha256(t) ==> s == t
  }

  function Compare(a: seq<Event>, b: seq<Event>, sha256: string -> int): Comparison {
    Comparison(
      Count(a, IsPrefillEvent) == Count(b, IsPrefillEvent),
      PrefillTokens(a) == PrefillTokens(b),
      Count(a, IsDecodeEvent) == Count(b, IsDecodeEvent),
      sha256(TraceText(a)) == sha256(TraceText(b)))
  }

  /** What the three counts compare: the places that hold a prefill, the places that hold a decode,
      and the tokens of all prefills together. */
  lemma CompareSays(a: seq<Event>, b: seq<Event>, sha256: string -> int,
                    prefillsA: set<int>, prefillsB: set<int>, decodesA: set<int>, decodesB: set<int>)
    requires forall i :: i in prefillsA <==> HoldsAt(a, IsPrefillEvent, i)
    requires forall i :: i in prefillsB <==> HoldsAt(b, IsPrefillEvent, i)
    requires forall i :: i in decodesA <==> HoldsAt(a, IsDecodeEvent, i)
    requires forall i :: i in decodesB <==> HoldsAt(b, IsDecodeEvent, i)
    ensures Compare(a, b, sha256).prefillCalls <==> |prefillsA| == |prefillsB|
    ensures Compare(a, b, sha256).decodeCalls <==> |decodesA| == |decodesB|
    ensures Compare(a, b, sha256).prefillTokens <==> PrefillTokens(a) == PrefillTokens(b)
  {
    CountPlaces(a, IsPrefillEvent, prefillsA);
    CountPlaces(b, IsPrefillEvent, prefillsB);
    CountPlaces(a, IsDecodeEvent, decodesA);
    CountPlaces(b, IsDecodeEvent, decodesB);
    hide Count, PrefillTokens, TraceText;
  }

  /** Tokens of prefills add up; decodes have none. */
  lemma PrefillTokensAdd(events: seq<Event>, tokens: seq<int>, token: int)
    ensures PrefillTokens([]) == 0
    ensures PrefillTokens(events + [PrefillEvent(tokens)]) == PrefillTokens(events) + |tokens|
    ensures PrefillTokens(events + [DecodeEvent(token)]) == PrefillTokens(events)
  {
    assert (events + [PrefillEvent(tokens)])[..|events|] == events && (events + [DecodeEvent(token)])[..|events|] == events;
  }

  /** How an event is written: keys in order, no spaces. */
  lemma EventTextIs(tokens: seq<int>, token: int, rest: string)
    ensures EventText(PrefillEvent(tokens), rest) == "{\"kind\":\"prefill\",\"token_ids\":[" + Numbers(tokens, "}" + rest)
    ensures EventText(DecodeEvent(token), rest) == "{\"kind\":\"decode\",\"token_ids\":[" + (Number(token) + ("]" + ("}" + rest)))
  {
    NumbersAre(token, [], "}" + rest);
    assert [token] + [] == [token];
  }

  /** And a trace: one event after the other, commas only between them. */
  lemma TraceTextIs(e: Event, events: seq<Event>)
    ensures TraceText(events) == "[" + EventsText(events) && EventsText([]) == "]"
    ensures EventsText([e] + events) == EventText(e, if events == [] then "]" else "," + EventsText(events))
  {
    hide EventText;
    var all := [e] + events;
    assert all[0] == e && all[1..] == events;
    assert AfterFirstEvent(all) == if events == [] then "]" else "," + EventsText(events);
  }

  /** The ordered-trace hash alone decides: it matches exactly when the two passes crossed the
      same boundaries with the same tokens, and then the other three match as well. */
  lemma OrderedTraceDecides(a: seq<Event>, b: seq<Event>, sha256: string -> int)
    requires CollisionFree(sha256)
    ensures Compare(a, b, sha256).orderedTrace <==> a == b
    ensures Compare(a, b, sha256).AllMatch() <==> Compare(a, b, sha256).orderedTrace
  {
    if Compare(a, b, sha256).orderedTrace {
      hide EventsText;
      TraceTextInjective(a, b);
    }
  }

  /** The other three do not decide it. */
  lemma CountsDoNotDecide(sha256: string -> int)
    requires CollisionFree(sha256)
    ensures exists a, b :: Compare(a, b, sha256).prefillCalls && Compare(a, b, sha256).prefillTokens
                           && Compare(a, b, sha256).decodeCalls && !Compare(a, b, sha256).AllMatch()
  {
    var a, b := [DecodeEvent(1)], [DecodeEvent(2)];
    assert a[0] != b[0];
    OrderedTraceDecides(a, b, sha256);
    OneDecode(DecodeEvent(1), a);
    OneDecode(DecodeEvent(2), b);
    hide Count, PrefillTokens, TraceText;
    assert !Compare(a, b, sha256).AllMatch();
  }

  lemma OneDecode(e: Event, events: seq<Event>)
    requires e.DecodeEvent? && events == [e]
    ensures Count(events, IsDecodeEvent) == 1 && Count(events, IsPrefillEvent) == 0 && PrefillTokens(events) == 0
  {
    assert events == [] + [e];
    CountSnoc([], e, IsDecodeEvent);
    CountSnoc([], e, IsPrefillEvent);
  }
}
