/** Injecting labelled faults into a recorded stream. */
module FaultInjection {
  import opened FaultLabels
  import opened Message
  import opened RecordFormat
  import opened Replay
  import opened Sequences
  import opened SplitMix
  import opened WordArith
  import opened Wrappers

  /** The arithmetic on doubles, over their bit patterns: a + b, and the drift after `step`
      of `duration` samples, magnitude * (step / duration). */
  datatype Arithmetic = Arithmetic(add: (U64, U64) -> U64, drift: (U64, nat, nat) -> U64)

  const AUTO_ONSET: U64 := WORD - 1

  datatype FaultSpec = FaultSpec(kind: FaultType, streamId: U32, onset: U64, duration: U64, magnitude: U64)

  // ----- One stream inside the recording -----

  /** Global indices of the messages of a stream, in order. */
  function Indices(msgs: seq<Message>, id: U32): (idx: seq<nat>)
    ensures |idx| <= |msgs|
  {
    if msgs == [] then []
    else
      var n := |msgs| - 1;
      Indices(msgs[..n], id) + if msgs[n].streamId == id then [n] else []
  }

  /** Where message `i` is in its own stream. */
  function Position(msgs: seq<Message>, i: nat): nat
    requires i < |msgs|
  {
    |Indices(msgs[..i], msgs[i].streamId)|
  }

  lemma {:induction false} IndexAtPosition(msgs: seq<Message>, i: nat)
    requires i < |msgs|
    ensures var idx := Indices(msgs, msgs[i].streamId);
      Position(msgs, i) < |idx| && idx[Position(msgs, i)] == i
  {
    var n := |msgs| - 1;
    if i == n {
    } else {
      IndexAtPosition(msgs[..n], i);
      assert msgs[..n][..i] == msgs[..i];
    }
  }

  lemma {:induction false} PositionOfIndex(msgs: seq<Message>, id: U32, j: nat)
    requires j < |Indices(msgs, id)|
    ensures var i := Indices(msgs, id)[j];
      i < |msgs| && msgs[i].streamId == id && Position(msgs, i) == j
  {
    var n := |msgs| - 1;
    var before := Indices(msgs[..n], id);
    if j < |before| {
      PositionOfIndex(msgs[..n], id, j);
      assert msgs[..n][..before[j]] == msgs[..before[j]];
    }
  }

  /** Positions in a stream follow the order of the recording. */
  lemma {:induction false} IndicesAscend(msgs: seq<Message>, id: U32, j: nat, k: nat)
    requires j < k < |Indices(msgs, id)|
    ensures Indices(msgs, id)[j] < Indices(msgs, id)[k] < |msgs|
  {
    var n := |msgs| - 1;
    var before := Indices(msgs[..n], id);
    if k < |before| {
      IndicesAscend(msgs[..n], id, j, k);
    } else {
      PositionOfIndex(msgs[..n], id, j);
    }
  }

  // ----- What a spec comes to -----

  /** A spec resolved against its stream: it affects positions first..last. */
  datatype Window = Window(
    kind: FaultType, streamId: U32, first: nat, last: nat,
    magnitude: U64, duration: U64, frozen: U64, tStart: I64, tEnd: I64)
  {
    predicate Covers(msgs: seq<Message>, i: nat)
      requires i < |msgs|
    {
      msgs[i].streamId == streamId && first <= Position(msgs, i) <= last
    }

    /** The window's facts are those of the messages at its ends. */
    ghost predicate Fits(msgs: seq<Message>) {
      var idx := Indices(msgs, streamId);
      && first < |idx| && last < |idx| && idx[first] < |msgs| && idx[last] < |msgs|
      && frozen == msgs[idx[first]].value
      && tStart == msgs[idx[first]].tsNs && tEnd == msgs[idx[last]].tsNs
    }

    function Label(): FaultLabel { FaultLabel(streamId, kind, tStart, tEnd) }
  }

  /** Windows so far, and the generator's state. */
  datatype Resolution = Resolution(windows: seq<Window>, rng: U64)

  /** The onset of a spec, drawing one if it is automatic. */
  function Onset(spec: FaultSpec, n: nat, rng: U64): nat {
    if spec.onset != AUTO_ONSET then spec.onset
    else Mixed(Advanced(rng)) % ((if n >= spec.duration then n - spec.duration else 0) + 1)
  }

  function Min(a: nat, b: nat): nat { if a <= b then a else b }

  function WindowAt(spec: FaultSpec, msgs: seq<Message>, onset: nat): (w: Window)
    requires onset < |Indices(msgs, spec.streamId)|
    ensures w.Fits(msgs)
  {
    var idx := Indices(msgs, spec.streamId);
    var last := Min(Wrap(onset + spec.duration - 1), |idx| - 1);
    PositionOfIndex(msgs, spec.streamId, onset);
    PositionOfIndex(msgs, spec.streamId, last);
    var a, b := msgs[idx[onset]], msgs[idx[last]];
    Window(spec.kind, spec.streamId, onset, last, spec.magnitude, spec.duration, a.value, a.tsNs, b.tsNs)
  }

  /** One turn of the loop over specs; a spec with nothing to affect is passed over. */
  function Resolved(spec: FaultSpec, msgs: seq<Message>, r: Resolution): Resolution {
    var n := |Indices(msgs, spec.streamId)|;
    if n == 0 || spec.duration == 0 then r
    else
      var rng := if spec.onset == AUTO_ONSET then Advanced(r.rng) else r.rng;
      var onset := Onset(spec, n, r.rng);
      if onset >= n then Resolution(r.windows, rng)
      else Resolution(r.windows + [WindowAt(spec, msgs, onset)], rng)
  }

  function AllResolved(specs: seq<FaultSpec>, msgs: seq<Message>, seed: U64): Resolution {
    if specs == [] then Resolution([], seed)
    else Resolved(specs[|specs| - 1], msgs, AllResolved(specs[..|specs| - 1], msgs, seed))
  }

  /** A spec affects something: its stream has a sample at the onset, and it lasts. */
  predicate Applies(spec: FaultSpec, msgs: seq<Message>) {
    var n := |Indices(msgs, spec.streamId)|;
    n > 0 && spec.duration > 0 && (spec.onset == AUTO_ONSET || spec.onset < n)
  }

  function Applicable(specs: seq<FaultSpec>, msgs: seq<Message>): seq<FaultSpec> {
    if specs == [] then []
    else
      var last := specs[|specs| - 1];
      Applicable(specs[..|specs| - 1], msgs) + if Applies(last, msgs) then [last] else []
  }

  /** The onset asked for, or one at which the whole fault fits if it can. */
  predicate GoodOnset(spec: FaultSpec, n: nat, onset: nat) {
    if spec.onset != AUTO_ONSET then onset == spec.onset
    else if spec.duration <= n then onset + spec.duration <= n
    else onset == 0
  }

  lemma OnsetIsGood(spec: FaultSpec, n: nat, rng: U64)
    requires n > 0 && spec.duration > 0
    ensures GoodOnset(spec, n, Onset(spec, n, rng))
    ensures Onset(spec, n, rng) < n <==> spec.onset == AUTO_ONSET || spec.onset < n
  {
    if spec.onset == AUTO_ONSET {
      RemainderBelow(Mixed(Advanced(rng)), (if n >= spec.duration then n - spec.duration else 0) + 1);
    }
  }

  /** The window does what the spec says: at the onset asked for, or one drawn so that the
      fault fits if it can, for its duration, modulo 2^64, or until the stream ends. */
  ghost predicate Realises(w: Window, spec: FaultSpec, msgs: seq<Message>) {
    var n := |Indices(msgs, spec.streamId)|;
    && w.kind == spec.kind && w.streamId == spec.streamId
    && w.magnitude == spec.magnitude && w.duration == spec.duration > 0
    && w.Fits(msgs)
    && GoodOnset(spec, n, w.first)
    && w.last == Min(Wrap(w.first + spec.duration - 1), n - 1)
  }

  lemma SpecIsRealised(spec: FaultSpec, msgs: seq<Message>, r: Resolution)
    ensures var after := Resolved(spec, msgs, r).windows;
      if Applies(spec, msgs)
      then |after| == |r.windows| + 1 && after[..|r.windows|] == r.windows && Realises(after[|r.windows|], spec, msgs)
      else after == r.windows
  {
    var n := |Indices(msgs, spec.streamId)|;
    if n > 0 && spec.duration > 0 {
      OnsetIsGood(spec, n, r.rng);
      var onset := Onset(spec, n, r.rng);
      if onset < n {
        WindowRealises(spec, msgs, onset);
      }
    }
  }

  lemma WindowRealises(spec: FaultSpec, msgs: seq<Message>, onset: nat)
    requires spec.duration > 0 && onset < |Indices(msgs, spec.streamId)|
    requires GoodOnset(spec, |Indices(msgs, spec.streamId)|, onset)
    ensures Realises(WindowAt(spec, msgs, onset), spec, msgs)
  {
  }

  lemma RemainderBelow(x: nat, d: nat)
    requires d > 0
    ensures x % d < d
  {
  }

  /** The windows, and so the labels, are those of the specs that affect something, in order. */
  lemma {:induction false} WindowsRealiseSpecs(specs: seq<FaultSpec>, msgs: seq<Message>, seed: U64)
    ensures var ws, live := AllResolved(specs, msgs, seed).windows, Applicable(specs, msgs);
      |ws| == |live| && forall k :: 0 <= k < |ws| ==> Realises(ws[k], live[k], msgs)
  {
    if specs != [] {
      var n := |specs| - 1;
      WindowsRealiseSpecs(specs[..n], msgs, seed);
      SpecIsRealised(specs[n], msgs, AllResolved(specs[..n], msgs, seed));
    }
  }

  // ----- Drawn onsets -----

  /** An onset is drawn for a spec that leaves it open, lasts, and has a stream to affect. */
  predicate Draws(spec: FaultSpec, msgs: seq<Message>) {
    spec.onset == AUTO_ONSET && spec.duration > 0 && |Indices(msgs, spec.streamId)| > 0
  }

  function DrawCount(specs: seq<FaultSpec>, msgs: seq<Message>): nat {
    if specs == [] then 0
    else DrawCount(specs[..|specs| - 1], msgs) + if Draws(specs[|specs| - 1], msgs) then 1 else 0
  }

  /** The last onset at which a fault of this duration still fits into n samples, 0 if none. */
  function LastOnset(n: nat, duration: nat): nat { if duration <= n then n - duration else 0 }

  /** The generator has advanced once for every spec with an onset to draw, and for no other. */
  lemma {:induction false} OneDrawPerOpenOnset(specs: seq<FaultSpec>, msgs: seq<Message>, seed: U64)
    ensures AllResolved(specs, msgs, seed).rng == StateAfter(seed, DrawCount(specs, msgs))
  {
    if specs != [] {
      OneDrawPerOpenOnset(specs[..|specs| - 1], msgs, seed);
    }
  }

  /** Later specs leave earlier windows as they are. */
  lemma {:induction false} EarlierWindows(specs: seq<FaultSpec>, msgs: seq<Message>, seed: U64, j: nat)
    requires j <= |specs|
    ensures AllResolved(specs[..j], msgs, seed).windows <= AllResolved(specs, msgs, seed).windows
    ensures Applicable(specs[..j], msgs) <= Applicable(specs, msgs)
  {
    if j == |specs| {
      assert specs[..j] == specs;
    } else {
      var n := |specs| - 1;
      EarlierWindows(specs[..n], msgs, seed, j);
      assert specs[..n][..j] == specs[..j];
      SpecIsRealised(specs[n], msgs, AllResolved(specs[..n], msgs, seed));
    }
  }

  /** What the spec at `j` adds: the window is there, and it is the spec's. */
  lemma WindowOfSpec(specs: seq<FaultSpec>, msgs: seq<Message>, seed: U64, j: nat)
    requires j < |specs|
    ensures |AllResolved(specs[..j], msgs, seed).windows| == |Applicable(specs[..j], msgs)|
    ensures Resolved(specs[j], msgs, AllResolved(specs[..j], msgs, seed)).windows
         <= AllResolved(specs, msgs, seed).windows
    ensures Applies(specs[j], msgs) ==> Applicable(specs[..j], msgs) + [specs[j]] <= Applicable(specs, msgs)
  {
    WindowsRealiseSpecs(specs[..j], msgs, seed);
    assert specs[..j + 1][..j] == specs[..j];
    EarlierWindows(specs, msgs, seed, j + 1);
  }

  /** The k-th open onset is the generator's k-th draw, taken modulo the number of onsets at
      which the fault fits. */
  lemma OnsetIsDrawn(specs: seq<FaultSpec>, msgs: seq<Message>, seed: U64, j: nat)
    requires j < |specs| && Draws(specs[j], msgs)
    ensures var ws, live := AllResolved(specs, msgs, seed).windows, Applicable(specs, msgs);
      var at, k := |Applicable(specs[..j], msgs)|, DrawCount(specs[..j], msgs);
      var last := LastOnset(|Indices(msgs, specs[j].streamId)|, specs[j].duration);
      && at < |ws| && at < |live| && live[at] == specs[j]
      && ws[at].streamId == specs[j].streamId && ws[at].first == Draw(seed, k) % (last + 1)
  {
    OneDrawPerOpenOnset(specs[..j], msgs, seed);
    var before, at := AllResolved(specs[..j], msgs, seed), |Applicable(specs[..j], msgs)|;
    WindowOfSpec(specs, msgs, seed, j);
    DrawnWindow(specs[j], msgs, before);
    PrefixAt(Resolved(specs[j], msgs, before).windows, AllResolved(specs, msgs, seed).windows, at);
    PrefixAt(Applicable(specs[..j], msgs) + [specs[j]], Applicable(specs, msgs), at);
  }

  lemma DrawnWindow(spec: FaultSpec, msgs: seq<Message>, r: Resolution)
    requires Draws(spec, msgs)
    ensures var n, ws := |Indices(msgs, spec.streamId)|, Resolved(spec, msgs, r).windows;
      |ws| == |r.windows| + 1 && ws[|r.windows|].streamId == spec.streamId
      && ws[|r.windows|].first == Mixed(Advanced(r.rng)) % (LastOnset(n, spec.duration) + 1)
  {
    var n := |Indices(msgs, spec.streamId)|;
    OnsetIsGood(spec, n, r.rng);
    OpenOnset(spec, n, r.rng);
  }

  lemma OpenOnset(spec: FaultSpec, n: nat, rng: U64)
    requires spec.onset == AUTO_ONSET
    ensures Onset(spec, n, rng) == Mixed(Advanced(rng)) % (LastOnset(n, spec.duration) + 1)
  {
  }

  /** No onset at which the fault fits is left out: each is drawn from some seed. */
  lemma EveryOnsetIsDrawn(specs: seq<FaultSpec>, msgs: seq<Message>, j: nat, onset: nat) returns (seed: U64)
    requires |msgs| < WORD && j < |specs| && Draws(specs[j], msgs)
    requires onset <= LastOnset(|Indices(msgs, specs[j].streamId)|, specs[j].duration)
    ensures var ws, at := AllResolved(specs, msgs, seed).windows, |Applicable(specs[..j], msgs)|;
      at < |ws| && ws[at].streamId == specs[j].streamId && ws[at].first == onset
  {
    seed := DrawReaches(onset, DrawCount(specs[..j], msgs));
    OnsetIsDrawn(specs, msgs, seed, j);
    SmallRemainder(onset, LastOnset(|Indices(msgs, specs[j].streamId)|, specs[j].duration) + 1);
  }

  lemma SmallRemainder(x: nat, d: nat)
    requires x < d
    ensures x % d == x
  {
  }

  lemma AllFit(specs: seq<FaultSpec>, msgs: seq<Message>, seed: U64)
    ensures forall w :: w in AllResolved(specs, msgs, seed).windows ==> w.Fits(msgs)
  {
    WindowsRealiseSpecs(specs, msgs, seed);
  }

  // ----- What becomes of a sample -----

  /** What a window makes of a sample it covers; always from the original values. */
  function Faulty(a: Arithmetic, w: Window, msgs: seq<Message>, i: nat): U64
    requires i < |msgs| && w.Covers(msgs, i)
  {
    match w.kind
    case Spike => a.add(msgs[i].value, w.magnitude)
    case Drift => a.add(msgs[i].value, a.drift(w.magnitude, Position(msgs, i) - w.first + 1, w.duration))
    case StuckAtValue => w.frozen
    case Dropout => msgs[i].value
  }

  predicate Overwrites(w: Window, msgs: seq<Message>, i: nat)
    requires i < |msgs|
  {
    !w.kind.Dropout? && w.Covers(msgs, i)
  }

  function ValueAfter(a: Arithmetic, ws: seq<Window>, msgs: seq<Message>, i: nat): U64
    requires i < |msgs|
  {
    if ws == [] then msgs[i].value
    else
      var k := |ws| - 1;
      if Overwrites(ws[k], msgs, i) then Faulty(a, ws[k], msgs, i) else ValueAfter(a, ws[..k], msgs, i)
  }

  predicate Dropped(ws: seq<Window>, msgs: seq<Message>, i: nat)
    requires i < |msgs|
  {
    exists w :: w in ws && w.kind.Dropout? && w.Covers(msgs, i)
  }

  /** The value is that of the last window to overwrite the sample. */
  lemma {:induction false} ValueIsLastOverwrite(a: Arithmetic, ws: seq<Window>, msgs: seq<Message>, i: nat, k: nat)
    requires i < |msgs| && k < |ws| && Overwrites(ws[k], msgs, i)
    requires forall l :: k < l < |ws| ==> !Overwrites(ws[l], msgs, i)
    ensures ValueAfter(a, ws, msgs, i) == Faulty(a, ws[k], msgs, i)
  {
    var n := |ws| - 1;
    if k < n {
      assert !Overwrites(ws[n], msgs, i);
      ValueIsLastOverwrite(a, ws[..n], msgs, i, k);
    }
  }

  /** What the last window to overwrite a sample makes of it: always from original values,
      a stuck sensor repeating the one at its onset. */
  lemma FaultMeaning(a: Arithmetic, ws: seq<Window>, msgs: seq<Message>, i: nat, k: nat)
    requires i < |msgs| && k < |ws| && Overwrites(ws[k], msgs, i) && ws[k].Fits(msgs)
    requires forall l :: k < l < |ws| ==> !Overwrites(ws[l], msgs, i)
    ensures var w, value := ws[k], ValueAfter(a, ws, msgs, i);
      && (w.kind.Spike? ==> value == a.add(msgs[i].value, w.magnitude))
      && (w.kind.Drift? ==>
            var step := Position(msgs, i) - w.first + 1;
            1 <= step <= w.last - w.first + 1 && value == a.add(msgs[i].value, a.drift(w.magnitude, step, w.duration)))
      && (w.kind.StuckAtValue? ==> value == msgs[Indices(msgs, w.streamId)[w.first]].value)
  {
    ValueIsLastOverwrite(a, ws, msgs, i, k);
  }

  /** Without one it is the original. */
  lemma {:induction false} UntouchedValue(a: Arithmetic, ws: seq<Window>, msgs: seq<Message>, i: nat)
    requires i < |msgs| && forall w :: w in ws ==> !Overwrites(w, msgs, i)
    ensures ValueAfter(a, ws, msgs, i) == msgs[i].value
  {
    if ws != [] {
      var n := |ws| - 1;
      assert ws[n] in ws;
      UntouchedValue(a, ws[..n], msgs, i);
    }
  }

  // ----- The output -----

  /** The faulted stream made of the first `n` messages. */
  function Output(a: Arithmetic, ws: seq<Window>, msgs: seq<Message>, n: nat): (out: seq<Message>)
    requires n <= |msgs|
    ensures |out| <= n
  {
    if n == 0 then []
    else Output(a, ws, msgs, n - 1) + if Dropped(ws, msgs, n - 1) then [] else [Altered(a, ws, msgs, n - 1)]
  }

  /** A sample as it is written: only its value can differ. */
  function Altered(a: Arithmetic, ws: seq<Window>, msgs: seq<Message>, i: nat): Message
    requires i < |msgs|
  {
    msgs[i].(value := ValueAfter(a, ws, msgs, i))
  }

  /** Which of the first `n` messages are written. */
  function Kept(ws: seq<Window>, msgs: seq<Message>, n: nat): (kept: seq<nat>)
    requires n <= |msgs|
  {
    if n == 0 then [] else Kept(ws, msgs, n - 1) + if Dropped(ws, msgs, n - 1) then [] else [n - 1]
  }

  /** The written samples are the original ones that no dropout covers, in their order, with
      identity, time and sequence number unchanged. */
  lemma {:induction false} OutputMeaning(a: Arithmetic, ws: seq<Window>, msgs: seq<Message>, n: nat)
    requires n <= |msgs|
    ensures var kept, out := Kept(ws, msgs, n), Output(a, ws, msgs, n);
      && |out| == |kept|
      && (forall k :: 0 <= k < |kept| ==> kept[k] < n && out[k] == Altered(a, ws, msgs, kept[k]))
      && (forall j, k :: 0 <= j < k < |kept| ==> kept[j] < kept[k])
      && (forall i :: 0 <= i < n ==> (i in kept <==> !Dropped(ws, msgs, i)))
  {
    if n > 0 {
      OutputMeaning(a, ws, msgs, n - 1);
    }
  }

  // ----- The injector -----

  /** The arrays hold what the windows so far make of the input. */
  ghost predicate Progress(a: Arithmetic, input: seq<Message>, ws: seq<Window>,
      msgs: seq<Message>, dropped: seq<bool>) {
    && |msgs| == |dropped| == |input|
    && forall i :: 0 <= i < |input| ==> msgs[i] == Altered(a, ws, input, i) && dropped[i] == Dropped(ws, input, i)
  }

  /** Message `i` after the positions of `w` below `j` have been dealt with. */
  ghost function Partly(a: Arithmetic, input: seq<Message>, w: Window, m: Message, i: nat, j: nat): Message
    requires i < |input|
  {
    if Overwrites(w, input, i) && Position(input, i) < j then input[i].(value := Faulty(a, w, input, i)) else m
  }

  ghost predicate PartlyDone(a: Arithmetic, input: seq<Message>, w: Window, j: nat,
      before: seq<Message>, msgs: seq<Message>, droppedBefore: seq<bool>, dropped: seq<bool>) {
    && |before| == |msgs| == |droppedBefore| == |dropped| == |input|
    && forall i :: 0 <= i < |input| ==>
         && msgs[i] == Partly(a, input, w, before[i], i, j)
         && dropped[i] == (droppedBefore[i] || (w.kind.Dropout? && w.Covers(input, i) && Position(input, i) < j))
  }

  lemma PartlyStep(a: Arithmetic, input: seq<Message>, w: Window, j: nat, g: nat,
      before: seq<Message>, msgs: seq<Message>, msgs': seq<Message>,
      droppedBefore: seq<bool>, dropped: seq<bool>, dropped': seq<bool>)
    requires PartlyDone(a, input, w, j, before, msgs, droppedBefore, dropped)
    requires g < |input| && w.Covers(input, g) && Position(input, g) == j
    requires forall i :: 0 <= i < |input| && input[i].streamId == w.streamId ==> (Position(input, i) == j <==> i == g)
    requires msgs' == if w.kind.Dropout? then msgs else msgs[g := input[g].(value := Faulty(a, w, input, g))]
    requires dropped' == if w.kind.Dropout? then dropped[g := true] else dropped
    ensures PartlyDone(a, input, w, j + 1, before, msgs', droppedBefore, dropped')
  {
  }

  lemma WindowApplied(a: Arithmetic, input: seq<Message>, ws: seq<Window>, w: Window, j: nat,
      before: seq<Message>, msgs: seq<Message>, droppedBefore: seq<bool>, dropped: seq<bool>)
    requires Progress(a, input, ws, before, droppedBefore) && j > w.last
    requires PartlyDone(a, input, w, j, before, msgs, droppedBefore, dropped)
    ensures Progress(a, input, ws + [w], msgs, dropped)
  {
    forall i | 0 <= i < |input|
      ensures msgs[i] == Altered(a, ws + [w], input, i) && dropped[i] == Dropped(ws + [w], input, i)
    {
      assert (ws + [w])[..|ws|] == ws;
      DroppedGrows(ws, w, input, i);
    }
  }

  lemma DroppedGrows(ws: seq<Window>, w: Window, msgs: seq<Message>, i: nat)
    requires i < |msgs|
    ensures Dropped(ws + [w], msgs, i) <==> Dropped(ws, msgs, i) || (w.kind.Dropout? && w.Covers(msgs, i))
  {
    assert w in ws + [w];
    assert forall v :: v in ws ==> v in ws + [w];
  }

  /** In a stream, position `j` is message idx[j] and no other. */
  lemma AtPosition(msgs: seq<Message>, id: U32, j: nat)
    requires j < |Indices(msgs, id)|
    ensures Indices(msgs, id)[j] < |msgs|
    ensures forall i :: 0 <= i < |msgs| && msgs[i].streamId == id ==>
      (Position(msgs, i) == j <==> i == Indices(msgs, id)[j])
    ensures msgs[Indices(msgs, id)[j]].streamId == id
  {
    PositionOfIndex(msgs, id, j);
    forall i | 0 <= i < |msgs| && msgs[i].streamId == id && Position(msgs, i) == j
      ensures i == Indices(msgs, id)[j]
    {
      IndexAtPosition(msgs, i);
    }
  }

  class FaultInjector {
    const arith: Arithmetic
    var rngState: U64

    constructor (arith: Arithmetic, seed: U64)
      ensures this.arith == arith && rngState == seed
    {
      this.arith, rngState := arith, seed;
    }

    method NextRand() returns (z: U64)
      modifies this`rngState
      ensures rngState == Advanced(old(rngState)) && z == Mixed(rngState)
    {
      rngState := Wrap(rngState + GAMMA);
      z := rngState;
      z := Wrap(ShiftXor(z, 30) * FIRST_FACTOR);
      z := Wrap(ShiftXor(z, 27) * SECOND_FACTOR);
      z := ShiftXor(z, 31);
    }

    /** The indices of a stream; overwritten values do not matter to it. */
    method FindIndices(msgs: array<Message>, id: U32, ghost input: seq<Message>) returns (idx: seq<nat>)
      requires msgs.Length == |input| && forall i :: 0 <= i < |input| ==> msgs[i].streamId == input[i].streamId
      ensures idx == Indices(input, id)
    {
      idx := [];
      for i := 0 to msgs.Length
        invariant idx == Indices(input[..i], id)
      {
        assert input[..i + 1][..i] == input[..i];
        if msgs[i].streamId == id {
          idx := idx + [i];
        }
      }
      assert input[..|input|] == input;
    }

    /** Overwrites or drops the samples at positions first..last of a stream. */
    method ApplyWindow(w: Window, idx: seq<nat>, orig: seq<U64>, msgs: array<Message>, dropped: array<bool>,
        ghost input: seq<Message>)
      requires msgs.Length == dropped.Length == |orig| == |input|
      requires forall i :: 0 <= i < |input| ==>
        orig[i] == input[i].value && msgs[i] == input[i].(value := msgs[i].value)
      requires idx == Indices(input, w.streamId) && w.last < |idx|
      modifies msgs, dropped
      ensures PartlyDone(arith, input, w, w.last + 1, old(msgs[..]), msgs[..], old(dropped[..]), dropped[..])
    {
      var j := w.first;
      while j <= w.last
        invariant w.first <= j && (j <= w.last + 1 || j == w.first)
        invariant PartlyDone(arith, input, w, j, old(msgs[..]), msgs[..], old(dropped[..]), dropped[..])
      {
        AtPosition(input, w.streamId, j);
        var g := idx[j];
        ghost var m0, d0 := msgs[..], dropped[..];
        match w.kind {
          case Spike => msgs[g] := msgs[g].(value := arith.add(orig[g], w.magnitude));
          case Drift =>
            msgs[g] := msgs[g].(value := arith.add(orig[g], arith.drift(w.magnitude, j - w.first + 1, w.duration)));
          case StuckAtValue => msgs[g] := msgs[g].(value := w.frozen);
          case Dropout => dropped[g] := true;
        }
        PartlyStep(arith, input, w, j, g, old(msgs[..]), m0, msgs[..], old(dropped[..]), d0, dropped[..]);
        j := j + 1;
      }
    }

    method PickOnset(spec: FaultSpec, n: nat) returns (onset: nat)
      modifies this`rngState
      ensures onset == Onset(spec, n, old(rngState))
      ensures rngState == if spec.onset == AUTO_ONSET then Advanced(old(rngState)) else old(rngState)
    {
      onset := spec.onset;
      if onset == AUTO_ONSET {
        var maxOnset := if n >= spec.duration then n - spec.duration else 0;
        var z := NextRand();
        onset := z % (maxOnset + 1);
      }
    }

    /** Where a fault starts and ends, and the value before it. */
    method OpenWindow(spec: FaultSpec, onset: nat, idx: seq<nat>, orig: seq<U64>, msgs: array<Message>,
        ghost input: seq<Message>) returns (w: Window)
      requires msgs.Length == |orig| == |input| < WORD
      requires forall i :: 0 <= i < |input| ==>
        orig[i] == input[i].value && msgs[i] == input[i].(value := msgs[i].value)
      requires idx == Indices(input, spec.streamId) && onset < |idx|
      ensures w == WindowAt(spec, input, onset)
    {
      var last := Wrap(onset + spec.duration - 1);
      if last >= |idx| {
        last := |idx| - 1;
      }
      PositionOfIndex(input, spec.streamId, onset);
      PositionOfIndex(input, spec.streamId, last);
      w := Window(spec.kind, spec.streamId, onset, last, spec.magnitude, spec.duration,
                  orig[idx[onset]], msgs[idx[onset]].tsNs, msgs[idx[last]].tsNs);
    }

    /** One turn of the loop over specs; None when the spec affects nothing. */
    method ApplySpec(spec: FaultSpec, orig: seq<U64>, msgs: array<Message>, dropped: array<bool>,
        ghost input: seq<Message>, ghost ws: seq<Window>) returns (applied: Option<Window>)
      requires msgs.Length == dropped.Length == |orig| == |input| && msgs.Length < WORD
      requires forall i :: 0 <= i < |input| ==> orig[i] == input[i].value
      requires Progress(arith, input, ws, msgs[..], dropped[..])
      modifies this`rngState, msgs, dropped
      ensures Resolution(ws + ToSeq(applied), rngState) == Resolved(spec, input, Resolution(ws, old(rngState)))
      ensures Progress(arith, input, ws + ToSeq(applied), msgs[..], dropped[..])
    {
      var idx := FindIndices(msgs, spec.streamId, input);
      var n := |idx|;
      assert ws + [] == ws;
      if n == 0 || spec.duration == 0 {
        return None;
      }
      var onset := PickOnset(spec, n);
      if onset >= n {
        return None;
      }
      var w := OpenWindow(spec, onset, idx, orig, msgs, input);
      ghost var m0, d0 := msgs[..], dropped[..];
      ApplyWindow(w, idx, orig, msgs, dropped, input);
      WindowApplied(arith, input, ws, w, w.last + 1, m0, msgs[..], d0, dropped[..]);
      return Some(w);
    }

    /** inject_impl between reading the recording and writing the results. */
    method Inject(input: seq<Message>, specs: seq<FaultSpec>) returns (out: seq<Message>, labels: seq<FaultLabel>)
      requires |input| < WORD
      modifies this`rngState
      ensures var r := AllResolved(specs, input, old(rngState));
        && rngState == r.rng
        && labels == LabelsOf(r.windows)
        && out == Output(arith, r.windows, input, |input|)
    {
      var msgs := new Message[|input|](i requires 0 <= i < |input| => input[i]);
      var orig := seq(|input|, i requires 0 <= i < |input| => input[i].value);
      var dropped := new bool[|input|](_ => false);
      labels := [];
      ghost var ws: seq<Window> := [];
      for k := 0 to |specs|
        invariant fresh(msgs) && fresh(dropped)
        invariant Resolution(ws, rngState) == AllResolved(specs[..k], input, old(rngState))
        invariant labels == LabelsOf(ws)
        invariant Progress(arith, input, ws, msgs[..], dropped[..])
      {
        assert specs[..k + 1][..k] == specs[..k];
        var applied := ApplySpec(specs[k], orig, msgs, dropped, input, ws);
        if applied.Some? {
          labels := labels + [applied.value.Label()];
        }
        ws := ws + ToSeq(applied);
      }
      assert specs[..|specs|] == specs;
      out := Collect(msgs, dropped, input, ws);
    }

    /** The samples that are written. */
    method Collect(msgs: array<Message>, dropped: array<bool>, ghost input: seq<Message>, ghost ws: seq<Window>)
      returns (out: seq<Message>)
      requires Progress(arith, input, ws, msgs[..], dropped[..])
      ensures out == Output(arith, ws, input, |input|)
    {
      out := [];
      for i := 0 to msgs.Length
        invariant i <= |input| && out == Output(arith, ws, input, i)
      {
        assert msgs[..][i] == msgs[i] && dropped[..][i] == dropped[i];
        if !dropped[i] {
          out := out + [msgs[i]];
        }
      }
    }
  }

  function ToSeq<T>(o: Option<T>): seq<T> {
    match o
    case None => []
    case Some(v) => [v]
  }

  function LabelsOf(ws: seq<Window>): (labels: seq<FaultLabel>)
    ensures |labels| == |ws|
  {
    seq(|ws|, k requires 0 <= k < |ws| => ws[k].Label())
  }

  // ----- Files -----

  /** Records a stream on a device that may not open or may run full. */
  method WriteRecording(out: seq<Message>, opens: bool, room: nat) returns (ok: bool, file: seq<Byte>)
    ensures ok <==> opens && |Recording(out)| <= room
    ensures ok ==> file == Recording(out)
  {
    var rec := new StreamRecorder(opens, room);
    if !rec.IsOpen() {
      return false, rec.file;
    }
    for i := 0 to |out|
      invariant rec.Valid() && rec.IsOpen() && rec.good && rec.Accepted == out[..i]
      invariant rec.room == room - HEADER_SIZE - RECORD_SIZE * i
    {
      var written := rec.Write(out[i]);
      if !written {
        return false, rec.file;
      }
      assert out[..i + 1] == out[..i] + [out[i]];
    }
    assert out[..|out|] == out;
    return true, rec.file;
  }

  /** inject_impl: a recording in, a faulted recording and a labels file out. The devices
      decide whether files open and how many bytes they take. */
  method InjectFile(injector: FaultInjector, input: Option<seq<Byte>>, specs: seq<FaultSpec>,
      opens: bool, room: nat, labelsWritable: bool)
    returns (ok: bool, output: seq<Byte>, labelsText: string)
    requires input.Some? ==> |input.value| < WORD
    modifies injector
    ensures ok ==> input.Some? && HeaderStatus(input.value) == Ok
    ensures input.Some? && HeaderStatus(input.value) == Ok ==>
      var msgs := MessagesFrom(input.value, 0);
      var r := AllResolved(specs, msgs, old(injector.rngState));
      var out := Output(injector.arith, r.windows, msgs, |msgs|);
      && (ok <==> opens && |Recording(out)| <= room && labelsWritable)
      && (ok ==> output == Recording(out) && labelsText == LabelsText(LabelsOf(r.windows)))
  {
    output, labelsText := [], "";
    var replayer := new StreamReplayer(input);
    if replayer.status != Ok {
      return false, output, labelsText;
    }
    var msgs := replayer.Drain();
    var out, labels := injector.Inject(msgs, specs);
    ok, output := WriteRecording(out, opens, room);
    if !ok || !labelsWritable {
      return false, output, labelsText;
    }
    labelsText := WriteLabels(labels);
  }

  /** What was written reads back: the faulted samples bit for bit, and every label. */
  lemma FaultedFilesReadBack(out: seq<Message>, labels: seq<FaultLabel>)
    ensures HeaderStatus(Recording(out)) == Ok && MessagesFrom(Recording(out), 0) == out
    ensures LabelsIn(LabelsText(labels)) == labels
  {
    TailedReplay(out, []);
    assert Recording(out) + [] == Recording(out);
    LabelsRoundTrip(labels);
  }

  /** Without specs a recording comes out byte for byte as it went in. */
  lemma NoFaultsNoChange(a: Arithmetic, msgs: seq<Message>, seed: U64)
    ensures AllResolved([], msgs, seed) == Resolution([], seed)
    ensures Output(a, [], msgs, |msgs|) == msgs
  {
    NoFaultsPrefix(a, msgs, |msgs|);
    assert msgs[..|msgs|] == msgs;
  }

  lemma {:induction false} NoFaultsPrefix(a: Arithmetic, msgs: seq<Message>, n: nat)
    requires n <= |msgs|
    ensures Output(a, [], msgs, n) == msgs[..n]
  {
    if n > 0 {
      NoFaultsPrefix(a, msgs, n - 1);
    }
  }

  // ----- How wide a fault is -----

  /** The j-th affected sample of a drift gets step j - onset + 1 of `duration`; the last one
      gets the whole magnitude exactly when the window is not clipped by the end of the stream.
      Nothing is affected when its end wraps around 2^64. */
  lemma DriftCompletesIff(spec: FaultSpec, msgs: seq<Message>, onset: nat)
    requires |msgs| < WORD && onset < |Indices(msgs, spec.streamId)| && 0 < spec.duration
    ensures var w := WindowAt(spec, msgs, onset);
      var steps := w.last - w.first + 1;
      && steps <= spec.duration
      && (steps == spec.duration <==> onset + spec.duration <= |Indices(msgs, spec.streamId)|)
      && (steps >= 1 <==> onset + spec.duration <= WORD)
  {
    WrappedEnd(onset, spec.duration);
  }

  lemma WrappedEnd(onset: nat, duration: nat)
    requires onset < WORD && 0 < duration < WORD
    ensures Wrap(onset + duration - 1)
         == if onset + duration <= WORD then onset + duration - 1 else onset + duration - 1 - WORD
  {
  }

  /** A drift climbs one step per covered sample, from 1 at its onset to the last at its
      end; that is `duration`, where all of the magnitude is added, unless the stream ends
      before. */
  lemma DriftClimbs(a: Arithmetic, ws: seq<Window>, msgs: seq<Message>, i: nat, k: nat, spec: FaultSpec)
    requires |msgs| < WORD && i < |msgs| && k < |ws|
    requires Realises(ws[k], spec, msgs) && spec.kind.Drift? && Overwrites(ws[k], msgs, i)
    requires forall l :: k < l < |ws| ==> !Overwrites(ws[l], msgs, i)
    ensures var n, first := |Indices(msgs, spec.streamId)|, ws[k].first;
      var step, last := Position(msgs, i) - first + 1, Min(spec.duration, n - first);
      && ValueAfter(a, ws, msgs, i) == a.add(msgs[i].value, a.drift(spec.magnitude, step, spec.duration))
      && 1 <= step <= last && (step == last <==> Position(msgs, i) == ws[k].last)
      && (last == spec.duration <==> first + spec.duration <= n)
  {
    FaultMeaning(a, ws, msgs, i, k);
    WrappedEnd(ws[k].first, spec.duration);
  }

  /** Four samples of drift from the second of three on stop at step 2 of 4. */
  lemma ClippedDrift(a: Arithmetic, m: Message, magnitude: U64, seed: U64)
    ensures var msgs, spec := [m, m, m], FaultSpec(Drift, m.streamId, 1, 4, magnitude);
      var ws := AllResolved([spec], msgs, seed).windows;
      |ws| == 1 && ws[0].Covers(msgs, 2) && ws[0].last == 2
      && ValueAfter(a, ws, msgs, 2) == a.add(m.value, a.drift(magnitude, 2, 4))
  {
    var msgs, spec := [m, m, m], FaultSpec(Drift, m.streamId, 1, 4, magnitude);
    ThreeAlike(m);
    OneSpec(spec, msgs, seed);
    var w := AllResolved([spec], msgs, seed).windows[0];
    UntouchedValue(a, [], msgs, 2);
    ValueIsLastOverwrite(a, [w], msgs, 2, 0);
  }

  lemma ThreeAlike(m: Message)
    ensures Indices([m, m, m], m.streamId) == [0, 1, 2] && Position([m, m, m], 2) == 2
  {
    assert [m, m, m][..2] == [m, m] && [m, m][..1] == [m] && [m][..0] == [];
    assert Indices([m], m.streamId) == [0];
    assert Indices([m, m], m.streamId) == [0, 1];
  }

  lemma OneSpec(spec: FaultSpec, msgs: seq<Message>, seed: U64)
    requires spec.onset != AUTO_ONSET && spec.duration > 0 && spec.onset < |Indices(msgs, spec.streamId)|
    ensures AllResolved([spec], msgs, seed).windows == [WindowAt(spec, msgs, spec.onset)]
  {
    assert [spec][..0] == [];
  }
}
