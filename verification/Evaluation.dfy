/** Scoring alerts against the labels of injected faults. */
module Evaluation {
  import opened FaultInjection
  import opened FaultLabels
  import opened Message
  import opened Wrappers

  predicate Contains(l: FaultLabel, id: U32, ts: I64) {
    l.streamId == id && l.tStart <= ts <= l.tEnd
  }

  /** The labels whose interval holds the alert, in file order. */
  function Matches(labels: seq<FaultLabel>, id: U32, ts: I64): (ms: seq<FaultLabel>)
    ensures forall m :: m in ms <==> m in labels && Contains(m, id, ts)
  {
    if labels == [] then []
    else (if Contains(labels[0], id, ts) then [labels[0]] else []) + Matches(labels[1..], id, ts)
  }

  /** Python's min by start time: the first of the earliest. */
  function Earliest(ms: seq<FaultLabel>): FaultLabel
    requires ms != []
  {
    if |ms| == 1 then ms[0]
    else
      var best := Earliest(ms[1..]);
      if best.tStart < ms[0].tStart then best else ms[0]
  }

  /** match_alert_to_label: None stands for "false_alarm". */
  function MatchAlert(labels: seq<FaultLabel>, id: U32, ts: I64): Option<FaultType> {
    var ms := Matches(labels, id, ts);
    if ms == [] then None else Some(Earliest(ms).kind)
  }

  lemma {:induction false} EarliestMeaning(ms: seq<FaultLabel>)
    requires ms != []
    ensures exists k :: 0 <= k < |ms| && IsEarliest(ms, k) && Earliest(ms) == ms[k]
  {
    if |ms| == 1 {
      assert IsEarliest(ms, 0);
    } else {
      var rest := ms[1..];
      EarliestMeaning(rest);
      var k :| 0 <= k < |rest| && IsEarliest(rest, k) && Earliest(rest) == rest[k];
      assert forall j :: 0 < j < |ms| ==> ms[j] == rest[j - 1];
      if rest[k].tStart < ms[0].tStart {
        assert IsEarliest(ms, k + 1);
      } else {
        assert IsEarliest(ms, 0);
      }
    }
  }

  /** Nothing starts earlier, and nothing before it starts as early. */
  predicate IsEarliest(ms: seq<FaultLabel>, k: nat)
    requires k < |ms|
  {
    forall j :: 0 <= j < |ms| ==> ms[k].tStart <= ms[j].tStart && (j < k ==> ms[k].tStart < ms[j].tStart)
  }

  /** The alert gets the type of the earliest-starting label that holds it, the first of
      those in the file; it is a false alarm exactly when no label holds it. */
  lemma MatchMeaning(labels: seq<FaultLabel>, id: U32, ts: I64)
    ensures MatchAlert(labels, id, ts).None? <==> forall l :: l in labels ==> !Contains(l, id, ts)
    ensures MatchAlert(labels, id, ts).Some? ==>
      exists k :: 0 <= k < |labels| && Wins(labels, k, id, ts) && MatchAlert(labels, id, ts) == Some(labels[k].kind)
  {
    var ms := Matches(labels, id, ts);
    if ms != [] {
      assert ms[0] in ms;
      WinnerInFile(labels, id, ts);
    } else {
      assert forall l :: l in labels && Contains(l, id, ts) ==> l in ms;
    }
  }

  predicate Wins(labels: seq<FaultLabel>, k: nat, id: U32, ts: I64)
    requires k < |labels|
  {
    && Contains(labels[k], id, ts)
    && forall j :: 0 <= j < |labels| && Contains(labels[j], id, ts) ==>
         labels[k].tStart <= labels[j].tStart && (j < k ==> labels[k].tStart < labels[j].tStart)
  }

  lemma {:induction false} WinnerInFile(labels: seq<FaultLabel>, id: U32, ts: I64)
    requires Matches(labels, id, ts) != []
    ensures exists k :: 0 <= k < |labels| && Wins(labels, k, id, ts) && labels[k] == Earliest(Matches(labels, id, ts))
  {
    var rest := labels[1..];
    var ms := Matches(rest, id, ts);
    if ms == [] {
      assert forall j :: 0 < j < |labels| ==> labels[j] == rest[j - 1];
      assert forall j :: 0 < j < |labels| && Contains(labels[j], id, ts) ==> rest[j - 1] in ms;
      assert Wins(labels, 0, id, ts);
    } else {
      WinnerInFile(rest, id, ts);
      var k :| 0 <= k < |rest| && Wins(rest, k, id, ts) && rest[k] == Earliest(ms);
      OneMoreLabel(labels, k, id, ts);
      if Contains(labels[0], id, ts) {
        assert Matches(labels, id, ts)[1..] == ms;
      } else {
        assert Matches(labels, id, ts) == ms;
      }
    }
  }

  /** Putting a label in front of a winner leaves it the winner or wins. */
  lemma OneMoreLabel(labels: seq<FaultLabel>, k: nat, id: U32, ts: I64)
    requires labels != [] && k < |labels| - 1 && Wins(labels[1..], k, id, ts)
    ensures if Contains(labels[0], id, ts) && labels[0].tStart <= labels[k + 1].tStart
            then Wins(labels, 0, id, ts) else Wins(labels, k + 1, id, ts)
  {
    assert forall j :: 0 < j < |labels| ==> labels[j] == labels[1..][j - 1];
  }

  // ----- Labels and the samples they account for -----

  /** Within each stream, later samples are never earlier in time. */
  ghost predicate TimeOrdered(msgs: seq<Message>) {
    forall i, j :: 0 <= i < j < |msgs| && msgs[i].streamId == msgs[j].streamId ==> msgs[i].tsNs <= msgs[j].tsNs
  }

  ghost predicate TimeStrictlyOrdered(msgs: seq<Message>) {
    forall i, j :: 0 <= i < j < |msgs| && msgs[i].streamId == msgs[j].streamId ==> msgs[i].tsNs < msgs[j].tsNs
  }

  /** Position and recording order agree inside a stream. */
  lemma PositionsOrder(msgs: seq<Message>, id: U32, j: nat, i: nat)
    requires j < |Indices(msgs, id)| && i < |msgs| && msgs[i].streamId == id
    ensures var g := Indices(msgs, id)[j];
      && g < |msgs| && msgs[g].streamId == id
      && (j < Position(msgs, i) ==> g < i) && (j == Position(msgs, i) ==> g == i) && (j > Position(msgs, i) ==> g > i)
  {
    IndexAtPosition(msgs, i);
    PositionOfIndex(msgs, id, j);
    if j < Position(msgs, i) {
      IndicesAscend(msgs, id, j, Position(msgs, i));
    } else if j > Position(msgs, i) {
      IndicesAscend(msgs, id, Position(msgs, i), j);
    }
  }

  /** A label holds the time of every sample its fault covers. */
  lemma LabelHoldsCovered(w: Window, msgs: seq<Message>, i: nat)
    requires TimeOrdered(msgs) && w.Fits(msgs) && i < |msgs| && w.Covers(msgs, i)
    ensures Contains(w.Label(), msgs[i].streamId, msgs[i].tsNs)
  {
    PositionsOrder(msgs, w.streamId, w.first, i);
    PositionsOrder(msgs, w.streamId, w.last, i);
  }

  /** With strictly increasing times it holds no other sample of the recording. */
  lemma LabelHoldsIff(w: Window, msgs: seq<Message>, i: nat)
    requires TimeStrictlyOrdered(msgs) && w.Fits(msgs) && i < |msgs|
    ensures Contains(w.Label(), msgs[i].streamId, msgs[i].tsNs) <==> w.Covers(msgs, i)
  {
    if msgs[i].streamId == w.streamId {
      PositionsOrder(msgs, w.streamId, w.first, i);
      PositionsOrder(msgs, w.streamId, w.last, i);
    }
  }

  /** An alert at the time of a sample that was changed or removed is never a false alarm. */
  lemma FaultsAreNeverFalseAlarms(
      a: Arithmetic, specs: seq<FaultSpec>, msgs: seq<Message>, seed: U64, i: nat)
    requires TimeOrdered(msgs) && i < |msgs|
    requires var ws := AllResolved(specs, msgs, seed).windows;
      Dropped(ws, msgs, i) || Altered(a, ws, msgs, i) != msgs[i]
    ensures MatchAlert(LabelsOf(AllResolved(specs, msgs, seed).windows), msgs[i].streamId, msgs[i].tsNs).Some?
  {
    var ws := AllResolved(specs, msgs, seed).windows;
    AllFit(specs, msgs, seed);
    if forall w :: w in ws ==> !Overwrites(w, msgs, i) {
      UntouchedValue(a, ws, msgs, i);
    }
    var w :| w in ws && w.Covers(msgs, i);
    CoveredIsMatched(ws, w, msgs, i);
  }

  lemma CoveredIsMatched(ws: seq<Window>, w: Window, msgs: seq<Message>, i: nat)
    requires TimeOrdered(msgs) && w in ws && w.Fits(msgs) && i < |msgs| && w.Covers(msgs, i)
    ensures MatchAlert(LabelsOf(ws), msgs[i].streamId, msgs[i].tsNs).Some?
  {
    LabelHoldsCovered(w, msgs, i);
    var k :| 0 <= k < |ws| && ws[k] == w;
    assert LabelsOf(ws)[k] == w.Label();
    assert w.Label() in LabelsOf(ws);
    MatchMeaning(LabelsOf(ws), msgs[i].streamId, msgs[i].tsNs);
  }

  /** With strictly increasing times an alert at a sample is a false alarm exactly when no
      fault covers the sample. */
  lemma FalseAlarmIff(specs: seq<FaultSpec>, msgs: seq<Message>, seed: U64, i: nat)
    requires TimeStrictlyOrdered(msgs) && i < |msgs|
    ensures var ws := AllResolved(specs, msgs, seed).windows;
      MatchAlert(LabelsOf(ws), msgs[i].streamId, msgs[i].tsNs).None? <==> forall w :: w in ws ==> !w.Covers(msgs, i)
  {
    var ws := AllResolved(specs, msgs, seed).windows;
    AllFit(specs, msgs, seed);
    MatchMeaning(LabelsOf(ws), msgs[i].streamId, msgs[i].tsNs);
    forall w | w in ws
      ensures w.Label() in LabelsOf(ws)
      ensures Contains(w.Label(), msgs[i].streamId, msgs[i].tsNs) <==> w.Covers(msgs, i)
    {
      LabelHoldsIff(w, msgs, i);
      var k :| 0 <= k < |ws| && ws[k] == w;
      assert LabelsOf(ws)[k] == w.Label();
    }
    if l :| l in LabelsOf(ws) && Contains(l, msgs[i].streamId, msgs[i].tsNs) {
      var k :| 0 <= k < |ws| && LabelsOf(ws)[k] == l;
      assert ws[k] in ws;
    }
  }

  /** A sample only one fault covers is given the type of that fault. */
  lemma SoleFaultIsNamed(specs: seq<FaultSpec>, msgs: seq<Message>, seed: U64, i: nat, k: nat)
    requires TimeStrictlyOrdered(msgs) && i < |msgs|
    requires var ws := AllResolved(specs, msgs, seed).windows;
      k < |ws| && forall j :: 0 <= j < |ws| ==> (ws[j].Covers(msgs, i) <==> j == k)
    ensures var ws := AllResolved(specs, msgs, seed).windows;
      MatchAlert(LabelsOf(ws), msgs[i].streamId, msgs[i].tsNs) == Some(ws[k].kind)
  {
    var ws := AllResolved(specs, msgs, seed).windows;
    AllFit(specs, msgs, seed);
    MatchMeaning(LabelsOf(ws), msgs[i].streamId, msgs[i].tsNs);
    forall j | 0 <= j < |ws|
      ensures Contains(LabelsOf(ws)[j], msgs[i].streamId, msgs[i].tsNs) <==> j == k
    {
      assert ws[j] in ws;
      LabelHoldsIff(ws[j], msgs, i);
    }
    assert LabelsOf(ws)[k] in LabelsOf(ws);
  }
}
