/** Ground-truth labels of injected faults, and their text file. */
module FaultLabels {
  import opened Decimal
  import opened Message
  import opened Sequences
  import opened Wrappers

  datatype FaultType = Spike | Drift | StuckAtValue | Dropout

  /** A closed interval of time in which one stream is faulty. */
  datatype FaultLabel = FaultLabel(streamId: U32, kind: FaultType, tStart: I64, tEnd: I64)

  const U32_LIMIT: nat := 0x1_0000_0000
  const I64_LIMIT: nat := 0x8000_0000_0000_0000

  function TypeName(t: FaultType): string {
    match t
    case Spike => "spike"
    case Drift => "drift"
    case StuckAtValue => "stuck_at_value"
    case Dropout => "dropout"
  }

  function TypeOf(name: string): Option<FaultType> {
    if name == "spike" then Some(Spike)
    else if name == "drift" then Some(Drift)
    else if name == "stuck_at_value" then Some(StuckAtValue)
    else if name == "dropout" then Some(Dropout)
    else None
  }

  // ----- Lines -----

  /** string::find: the first `c` at or after `start`, or the length for npos. */
  function Find(s: string, c: char, start: nat): (p: nat)
    requires start <= |s|
    ensures start <= p <= |s|
    decreases |s| - start
  {
    if start == |s| || s[start] == c then start else Find(s, c, start + 1)
  }

  /** `p` is the first `c` at or after `start`, or the end. */
  predicate IsFirst(s: string, c: char, start: nat, p: nat) {
    && start <= p <= |s|
    && (p < |s| ==> s[p] == c)
    && forall i :: start <= i < p ==> s[i] != c
  }

  lemma {:induction false} FindIff(s: string, c: char, start: nat, p: nat)
    requires start <= |s|
    ensures Find(s, c, start) == p <==> IsFirst(s, c, start, p)
    decreases |s| - start
  {
    if start < |s| && s[start] != c {
      FindIff(s, c, start + 1, p);
    }
  }

  predicate Without(s: string, c: char) { forall i :: 0 <= i < |s| ==> s[i] != c }

  function Bar(a: string, b: string): string { a + "|" + b }

  /** The four fields of a line. */
  datatype Line = Line(id: string, kind: string, tStart: string, tEnd: string) {
    function Text(): string { Bar(id, Bar(kind, Bar(tStart, tEnd))) }

    /** What the fields say, if all four are good. */
    function Label(): Option<FaultLabel> {
      var i, k := ParseUnsigned(id, U32_LIMIT), TypeOf(kind);
      var a, b := ParseSigned(tStart, I64_LIMIT), ParseSigned(tEnd, I64_LIMIT);
      if k.None? || i.None? || a.None? || b.None? then None
      else Some(FaultLabel(i.value, k.value, a.value, b.value))
    }

    predicate Separable() { Without(id, '|') && Without(kind, '|') && Without(tStart, '|') }
  }

  /** How read_labels splits a line at its first three bars. */
  function TakenApart(line: string): Option<Line> {
    var p0 := Find(line, '|', 0);
    if p0 == |line| then None
    else
      var p1 := Find(line, '|', p0 + 1);
      if p1 == |line| then None
      else
        var p2 := Find(line, '|', p1 + 1);
        if p2 == |line| then None
        else Some(Line(line[..p0], line[p0 + 1..p1], line[p1 + 1..p2], line[p2 + 1..]))
  }

  function LineLabel(line: string): Option<FaultLabel> {
    match TakenApart(line)
    case None => None
    case Some(l) => l.Label()
  }

  lemma TakenApartIff(line: string, l: Line)
    ensures TakenApart(line) == Some(l) <==> line == l.Text() && l.Separable()
  {
    if TakenApart(line) == Some(l) {
      PartsJoin(line, l);
    }
    if line == l.Text() && l.Separable() {
      TextSlices(l);
      AtBars(line, l, |l.id|, |l.id| + 1 + |l.kind|, |l.id| + 1 + |l.kind| + 1 + |l.tStart|);
    }
  }

  lemma PartsJoin(line: string, l: Line)
    requires TakenApart(line) == Some(l)
    ensures line == l.Text() && l.Separable()
  {
    var p0 := Find(line, '|', 0);
    var p1 := Find(line, '|', p0 + 1);
    var p2 := Find(line, '|', p1 + 1);
    FindIff(line, '|', 0, p0);
    FindIff(line, '|', p0 + 1, p1);
    FindIff(line, '|', p1 + 1, p2);
    SplitJoins(line, p0, p1, p2, l);
  }

  lemma AtBars(line: string, l: Line, p0: nat, p1: nat, p2: nat)
    requires p0 < p1 < p2 < |line| && line[p0] == line[p1] == line[p2] == '|'
    requires line[..p0] == l.id && line[p0 + 1..p1] == l.kind
    requires line[p1 + 1..p2] == l.tStart && line[p2 + 1..] == l.tEnd
    requires l.Separable()
    ensures TakenApart(line) == Some(l)
  {
    assert line[0..p0] == line[..p0];
    FindsBar(line, 0, p0, l.id);
    FindsBar(line, p0 + 1, p1, l.kind);
    FindsBar(line, p1 + 1, p2, l.tStart);
  }

  lemma SplitJoins(s: string, p0: nat, p1: nat, p2: nat, l: Line)
    requires p0 < p1 < p2 < |s|
    requires IsFirst(s, '|', 0, p0) && IsFirst(s, '|', p0 + 1, p1) && IsFirst(s, '|', p1 + 1, p2)
    requires l == Line(s[..p0], s[p0 + 1..p1], s[p1 + 1..p2], s[p2 + 1..])
    ensures s == l.Text() && l.Separable()
  {
    assert s[p1 + 1..] == Bar(l.tStart, l.tEnd);
    assert s[p0 + 1..] == Bar(l.kind, s[p1 + 1..]);
    assert s == Bar(l.id, s[p0 + 1..]);
  }

  lemma TextSlices(l: Line)
    ensures var s, p0, p1, p2 := l.Text(), |l.id|, |l.id| + 1 + |l.kind|, |l.id| + 1 + |l.kind| + 1 + |l.tStart|;
      && p2 < |s| && s[p0] == s[p1] == s[p2] == '|'
      && s[..p0] == l.id && s[p0 + 1..p1] == l.kind && s[p1 + 1..p2] == l.tStart && s[p2 + 1..] == l.tEnd
  {
    var times := Bar(l.tStart, l.tEnd);
    BarSlices(l.tStart, l.tEnd);
    var rest := Bar(l.kind, times);
    BarSlices(l.kind, times);
    BarSlices(l.id, rest);
    ShiftSlice(l.Text(), |l.id| + 1, rest, 0, |l.kind|);
    ShiftSlice(rest, |l.kind| + 1, times, 0, |l.tStart|);
    ShiftSlice(l.Text(), |l.id| + 1, rest, |l.kind| + 1, |l.kind| + 1 + |l.tStart|);
    ShiftSlice(rest, |l.kind| + 1, times, |l.tStart| + 1, |times|);
    ShiftSlice(l.Text(), |l.id| + 1, rest, |l.kind| + 1 + |l.tStart| + 1, |rest|);
  }

  lemma BarSlices(a: string, b: string)
    ensures var s := Bar(a, b);
      |s| == |a| + 1 + |b| && s[..|a|] == a && s[|a|] == '|' && s[|a| + 1..] == b
  {
  }

  /** A slice of a suffix is a slice of the whole. */
  lemma ShiftSlice(s: string, k: nat, rest: string, i: nat, j: nat)
    requires k <= |s| && s[k..] == rest && i <= j <= |rest|
    ensures s[k + i..k + j] == rest[i..j]
    ensures j < |rest| ==> s[k + j] == rest[j]
  {
    assert s[k..][i..j] == s[k + i..k + j];
  }

  lemma FindsBar(s: string, start: nat, p: nat, field: string)
    requires start <= p < |s| && s[p] == '|' && s[start..p] == field && Without(field, '|')
    ensures Find(s, '|', start) == p
  {
    assert forall i :: start <= i < p ==> s[i] == field[i - start];
    FindIff(s, '|', start, p);
  }

  lemma GoodLinesAreSeparable(l: Line)
    requires l.Label().Some?
    ensures l.Separable()
  {
    assert forall i :: 0 < i < |l.tStart| ==> l.tStart[i] == l.tStart[1..][i - 1];
  }

  /** A line is accepted exactly when it is four good fields with bars between them. */
  lemma LineLabelIff(line: string, label': FaultLabel)
    ensures LineLabel(line) == Some(label') <==> exists l: Line :: line == l.Text() && l.Label() == Some(label')
  {
    if LineLabel(line) == Some(label') {
      TakenApartIff(line, TakenApart(line).value);
    }
    forall l: Line | line == l.Text() && l.Label() == Some(label')
      ensures LineLabel(line) == Some(label')
    {
      GoodLinesAreSeparable(l);
      TakenApartIff(line, l);
    }
  }

  /** The fields of a label as they are written. */
  function Written(l: FaultLabel): Line {
    Line(Digits(l.streamId), TypeName(l.kind), Signed(l.tStart), Signed(l.tEnd))
  }

  lemma WrittenIsGood(l: FaultLabel)
    ensures Written(l).Label() == Some(l)
  {
    UnsignedRoundTrip(l.streamId, U32_LIMIT);
    Decimal.SignedRoundTrip(l.tStart, I64_LIMIT);
    Decimal.SignedRoundTrip(l.tEnd, I64_LIMIT);
  }

  lemma LabelLineRoundTrip(l: FaultLabel)
    ensures LineLabel(Written(l).Text()) == Some(l)
  {
    WrittenIsGood(l);
    GoodLinesAreSeparable(Written(l));
    TakenApartIff(Written(l).Text(), Written(l));
  }

  lemma WrittenOnOneLine(l: FaultLabel)
    ensures Without(Written(l).Text(), '\n')
  {
    SignedOnOneLine(l.tStart);
    SignedOnOneLine(l.tEnd);
    NameOnOneLine(l.kind);
    BarOnOneLine(Signed(l.tStart), Signed(l.tEnd));
    BarOnOneLine(TypeName(l.kind), Bar(Signed(l.tStart), Signed(l.tEnd)));
    BarOnOneLine(Digits(l.streamId), Bar(TypeName(l.kind), Bar(Signed(l.tStart), Signed(l.tEnd))));
  }

  lemma SignedOnOneLine(x: int)
    ensures Without(Signed(x), '\n')
  {
  }

  lemma NameOnOneLine(t: FaultType)
    ensures Without(TypeName(t), '\n')
  {
  }

  lemma BarOnOneLine(a: string, b: string)
    requires Without(a, '\n') && Without(b, '\n')
    ensures Without(Bar(a, b), '\n')
  {
  }

  // ----- Whole files -----

  function Ended(text: string, line: string): string { text + line + "\n" }

  function Joined(lines: seq<string>): string {
    if lines == [] then "" else Ended(Joined(lines[..|lines| - 1]), lines[|lines| - 1])
  }

  function Lines(ls: seq<FaultLabel>): (lines: seq<string>)
    ensures |lines| == |ls|
  {
    seq(|ls|, i requires 0 <= i < |ls| => Written(ls[i]).Text())
  }

  /** The file inject writes. */
  function LabelsText(ls: seq<FaultLabel>): string { Joined(Lines(ls)) }

  /** The fields of a line with the bars between them. */
  lemma TextOf(l: Line)
    ensures l.Text() == l.id + "|" + l.kind + "|" + l.tStart + "|" + l.tEnd
  {
    assert l.Text() == l.id + "|" + (l.kind + "|" + (l.tStart + "|" + l.tEnd));
  }

  lemma OneMoreLine(ls: seq<FaultLabel>, l: FaultLabel, line: string)
    requires line == Written(l).Text()
    ensures LabelsText(ls + [l]) == LabelsText(ls) + line + "\n"
  {
    OneLonger(Lines(ls), Lines(ls + [l]), line);
  }

  /** The file, letter by letter: each label adds its stream, the name of its kind, and the
      two times. */
  lemma FileLine(ls: seq<FaultLabel>, l: FaultLabel, name: string)
    requires match l.kind {
      case Spike => name == "spike"
      case Drift => name == "drift"
      case StuckAtValue => name == "stuck_at_value"
      case Dropout => name == "dropout"
    }
    ensures LabelsText(ls + [l])
         == LabelsText(ls) + (Digits(l.streamId) + "|" + name + "|" + Signed(l.tStart) + "|" + Signed(l.tEnd)) + "\n"
  {
    TextOf(Written(l));
    OneMoreLine(ls, l, Written(l).Text());
  }

  /** The lines std::getline sees: the last one need not end. */
  function TextLines(text: string): seq<string>
    decreases |text|
  {
    if text == "" then [] else [FirstLine(text)] + TextLines(AfterFirst(text))
  }

  function FirstLine(text: string): string { text[..Find(text, '\n', 0)] }

  function AfterFirst(text: string): (rest: string)
    requires text != ""
    ensures |rest| < |text|
  {
    var e := Find(text, '\n', 0);
    if e < |text| then text[e + 1..] else ""
  }

  function Somes<T>(os: seq<Option<T>>): seq<T> {
    if os == [] then []
    else
      match os[|os| - 1]
      case None => Somes(os[..|os| - 1])
      case Some(v) => Somes(os[..|os| - 1]) + [v]
  }

  function Reads(lines: seq<string>): (os: seq<Option<FaultLabel>>)
    ensures |os| == |lines|
  {
    seq(|lines|, i requires 0 <= i < |lines| => LineLabel(lines[i]))
  }

  /** The labels in a text: bad lines are skipped. */
  function LabelsIn(text: string): seq<FaultLabel> { Somes(Reads(TextLines(text))) }

  method WriteLabels(ls: seq<FaultLabel>) returns (text: string)
    ensures text == LabelsText(ls)
  {
    text := "";
    ghost var lines := Lines(ls);
    for i := 0 to |ls|
      invariant text == Joined(lines[..i])
    {
      assert lines[..i + 1][..i] == lines[..i];
      text := Ended(text, Written(ls[i]).Text());
    }
    assert lines[..|ls|] == lines;
  }

  /** Splits one line at its bars. */
  method TakeApart(line: string) returns (fields: Option<Line>)
    ensures fields == TakenApart(line)
  {
    var p0 := Find(line, '|', 0);
    if p0 == |line| { return None; }
    var p1 := Find(line, '|', p0 + 1);
    if p1 == |line| { return None; }
    var p2 := Find(line, '|', p1 + 1);
    if p2 == |line| { return None; }
    return Some(Line(line[..p0], line[p0 + 1..p1], line[p1 + 1..p2], line[p2 + 1..]));
  }

  method ReadLine(line: string) returns (read: Option<FaultLabel>)
    ensures read == LineLabel(line)
  {
    var fields := TakeApart(line);
    read := if fields.None? then None else fields.value.Label();
  }

  /** std::getline: the first line, and what is left to read. */
  method GetLine(text: string) returns (line: string, rest: string)
    requires text != ""
    ensures line == FirstLine(text) && rest == AfterFirst(text)
  {
    var e := Find(text, '\n', 0);
    line := text[..e];
    rest := if e < |text| then text[e + 1..] else "";
  }

  /** read_labels over a file that may not open. */
  method ReadLabels(file: Option<string>) returns (labels: seq<FaultLabel>)
    ensures labels == if file.None? then [] else LabelsIn(file.value)
  {
    labels := [];
    if file.None? {
      return;
    }
    var rest := file.value;
    ghost var lines := TextLines(rest);
    ghost var n := 0;
    while rest != ""
      invariant n <= |lines| && TextLines(rest) == lines[n..]
      invariant labels == Somes(Reads(lines)[..n])
      decreases |rest|
    {
      FirstThenRest(rest, FirstLine(rest), AfterFirst(rest));
      NextOf(lines, n, FirstLine(rest), TextLines(AfterFirst(rest)));
      var line;
      line, rest := GetLine(rest);
      var read := ReadLine(line);
      SomesGrow(Reads(lines), n);
      if read.Some? {
        labels := labels + [read.value];
      }
      n := n + 1;
    }
    assert Reads(lines)[..n] == Reads(lines);
  }

  lemma SomesGrow<T>(os: seq<Option<T>>, n: nat)
    requires n < |os|
    ensures Somes(os[..n + 1]) == if os[n].None? then Somes(os[..n]) else Somes(os[..n]) + [os[n].value]
  {
    assert os[..n + 1][..n] == os[..n];
  }

  lemma {:induction false} SomesAddUp<T>(a: seq<Option<T>>, b: seq<Option<T>>)
    ensures Somes(a + b) == Somes(a) + Somes(b)
  {
    if b == [] {
      assert a + b == a;
    } else {
      var n := |b| - 1;
      SomesAddUp(a, b[..n]);
      assert (a + b)[..|a| + n] == a + b[..n];
    }
  }

  predicate EndsLine(text: string) { text == "" || text[|text| - 1] == '\n' }

  predicate SingleLines(lines: seq<string>) { forall i :: 0 <= i < |lines| ==> Without(lines[i], '\n') }

  lemma {:induction false} LinesAddUp(a: string, b: string)
    requires EndsLine(a)
    ensures TextLines(a + b) == TextLines(a) + TextLines(b)
    decreases |a|
  {
    if a == "" {
      assert a + b == b;
    } else {
      FirstOfSum(a, b);
      LinesAddUp(AfterFirst(a), b);
      FirstThenRest(a + b, FirstLine(a), AfterFirst(a) + b);
      FirstThenRest(a, FirstLine(a), AfterFirst(a));
      Associate([FirstLine(a)], TextLines(AfterFirst(a)), TextLines(b));
    }
  }

  lemma FirstThenRest(s: string, line: string, rest: string)
    requires s != "" && FirstLine(s) == line && AfterFirst(s) == rest
    ensures TextLines(s) == [line] + TextLines(rest)
  {
  }

  lemma FirstOfSum(a: string, b: string)
    requires EndsLine(a) && a != ""
    ensures FirstLine(a + b) == FirstLine(a) && AfterFirst(a + b) == AfterFirst(a) + b && EndsLine(AfterFirst(a))
  {
    var e := Find(a, '\n', 0);
    FindIff(a, '\n', 0, e);
    assert e < |a| by {
      assert a[|a| - 1] == '\n';
    }
    assert forall i :: 0 <= i <= e ==> (a + b)[i] == a[i];
    FindIff(a + b, '\n', 0, e);
    assert (a + b)[..e] == a[..e] && (a + b)[e + 1..] == a[e + 1..] + b;
  }

  lemma OneLine(line: string)
    requires Without(line, '\n')
    ensures TextLines(line + "\n") == [line]
  {
    var text := line + "\n";
    assert text[|line|] == '\n' && text[..|line|] == line && text[|line| + 1..] == "";
    FindIff(text, '\n', 0, |line|);
    FirstThenRest(text, line, "");
  }

  lemma EndedLines(text: string, line: string)
    requires EndsLine(text) && Without(line, '\n')
    ensures TextLines(Ended(text, line)) == TextLines(text) + [line] && EndsLine(Ended(text, line))
  {
    OneLine(line);
    LinesAddUp(text, line + "\n");
    Associate(text, line, "\n");
  }

  /** A text made of lines has those lines. */
  lemma {:induction false} JoinedLines(lines: seq<string>)
    requires SingleLines(lines)
    ensures TextLines(Joined(lines)) == lines && EndsLine(Joined(lines))
  {
    if lines != [] {
      var n := |lines| - 1;
      JoinedLines(lines[..n]);
      EndedLines(Joined(lines[..n]), lines[n]);
      SplitLast(lines);
    }
  }

  lemma NextOf<T>(s: seq<T>, n: nat, x: T, rest: seq<T>)
    requires n <= |s| && s[n..] == [x] + rest
    ensures n < |s| && s[n] == x && s[n + 1..] == rest
  {
    assert s[n] == s[n..][0] && s[n + 1..] == s[n..][1..];
  }

  lemma {:induction false} SomesOfAll<T>(vs: seq<T>, os: seq<Option<T>>)
    requires |os| == |vs| && forall i :: 0 <= i < |vs| ==> os[i] == Some(vs[i])
    ensures Somes(os) == vs
  {
    if vs != [] {
      var n := |vs| - 1;
      SomesOfAll(vs[..n], os[..n]);
      assert vs == vs[..n] + [vs[n]];
    }
  }

  lemma LinesAreGood(ls: seq<FaultLabel>)
    ensures SingleLines(Lines(ls))
    ensures forall i :: 0 <= i < |ls| ==> Reads(Lines(ls))[i] == Some(ls[i])
  {
    forall i | 0 <= i < |ls|
      ensures Without(Lines(ls)[i], '\n') && LineLabel(Lines(ls)[i]) == Some(ls[i])
    {
      LabelLineRoundTrip(ls[i]);
      WrittenOnOneLine(ls[i]);
    }
  }

  /** Writing labels and reading the file gives them back. */
  lemma LabelsRoundTrip(ls: seq<FaultLabel>)
    ensures LabelsIn(LabelsText(ls)) == ls
  {
    LinesAreGood(ls);
    JoinedLines(Lines(ls));
    SomesOfAll(ls, Reads(Lines(ls)));
  }

  /** A bad line anywhere in a labels file costs nothing but itself. */
  lemma BadLineIsSkipped(before: seq<FaultLabel>, line: string, after: string)
    requires Without(line, '\n') && LineLabel(line).None?
    ensures LabelsIn(Ended(LabelsText(before), line) + after) == before + LabelsIn(after)
  {
    LinesAreGood(before);
    JoinedLines(Lines(before));
    EndedLines(LabelsText(before), line);
    LinesAddUp(Ended(LabelsText(before), line), after);
    SomesOfAll(before, Reads(Lines(before)));
    ReadsAddUp(Lines(before) + [line], TextLines(after));
    ReadsAddUp(Lines(before), [line]);
    assert Reads([line]) == [None];
    SomesAround(Reads(Lines(before)), Reads(TextLines(after)));
  }

  lemma ReadsAddUp(a: seq<string>, b: seq<string>)
    ensures Reads(a + b) == Reads(a) + Reads(b)
  {
  }

  lemma SomesAround<T>(a: seq<Option<T>>, b: seq<Option<T>>)
    ensures Somes(a + [None] + b) == Somes(a) + Somes(b)
  {
    SomesAddUp(a + [None], b);
    assert (a + [None])[..|a|] == a;
  }
}
