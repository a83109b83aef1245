/** The JSONL tailer that copies alert lines into SQLite. */
module LiveSync {
  import opened Message
  import opened Sequences
  import opened Wrappers

  // ----- Lines of a byte string -----

  const NEWLINE: Byte := 10
  const RETURN: Byte := 13

  /** Index of the first line end, or the length. */
  function LineEnd(s: seq<Byte>): (e: nat)
    ensures e <= |s| && (e < |s| ==> s[e] == NEWLINE || s[e] == RETURN)
    ensures forall i :: 0 <= i < e ==> s[i] != NEWLINE && s[i] != RETURN
  {
    if s == [] || s[0] == NEWLINE || s[0] == RETURN then 0 else 1 + LineEnd(s[1..])
  }

  /** Where the line after the first one starts. */
  function NextLine(s: seq<Byte>): (n: nat)
    requires s != []
    ensures 0 < n <= |s|
  {
    var e := LineEnd(s);
    if e == |s| then e
    else if s[e] == RETURN && e + 1 < |s| && s[e + 1] == NEWLINE then e + 2
    else e + 1
  }

  /** bytes.splitlines: \n, \r and \r\n end a line, and the ends are dropped. */
  function SplitLines(s: seq<Byte>): seq<seq<Byte>> {
    if s == [] then [] else [s[..LineEnd(s)]] + SplitLines(s[NextLine(s)..])
  }

  predicate Whole(s: seq<Byte>) { s == [] || s[|s| - 1] == NEWLINE }

  /** Length of the longest prefix that is whole: one past the last newline. */
  function WholeLength(s: seq<Byte>): (n: nat)
    ensures n <= |s| && Whole(s[..n])
    ensures forall i :: n <= i < |s| ==> s[i] != NEWLINE
  {
    if Whole(s) then assert s[..|s|] == s; |s|
    else
      var n := WholeLength(s[..|s| - 1]);
      assert s[..|s| - 1][..n] == s[..n];
      assert forall i :: n <= i < |s| - 1 ==> s[..|s| - 1][i] == s[i];
      n
  }

  /** Splitting at the end of a whole prefix changes no line. */
  lemma {:induction false} SplitsAtNewline(a: seq<Byte>, b: seq<Byte>)
    requires Whole(a)
    ensures SplitLines(a + b) == SplitLines(a) + SplitLines(b)
    decreases |a|
  {
    if a == [] {
      assert a + b == b;
    } else {
      FirstLineOfSum(a, b);
      var n := NextLine(a);
      SplitsAtNewline(a[n..], b);
      FirstThenRest(a + b, n, a[..LineEnd(a)], a[n..] + b);
      FirstThenRest(a, n, a[..LineEnd(a)], a[n..]);
      Associate([a[..LineEnd(a)]], SplitLines(a[n..]), SplitLines(b));
    }
  }

  lemma FirstThenRest(s: seq<Byte>, n: nat, line: seq<Byte>, rest: seq<Byte>)
    requires s != [] && n == NextLine(s) && line == s[..LineEnd(s)] && rest == s[n..]
    ensures SplitLines(s) == [line] + SplitLines(rest)
  {
  }

  lemma FirstLineOfSum(a: seq<Byte>, b: seq<Byte>)
    requires Whole(a) && a != []
    ensures LineEnd(a + b) == LineEnd(a) && NextLine(a + b) == NextLine(a) && Whole(a[NextLine(a)..])
    ensures (a + b)[..LineEnd(a)] == a[..LineEnd(a)] && (a + b)[NextLine(a)..] == a[NextLine(a)..] + b
  {
    EndOfSum(a, b);
    var e, s := LineEnd(a), a + b;
    assert s[e] == a[e] && (e + 1 < |a| ==> s[e + 1] == a[e + 1]);
    SliceOfSum(a, b, e);
    SliceOfSum(a, b, NextLine(a));
  }

  lemma SliceOfSum(a: seq<Byte>, b: seq<Byte>, n: nat)
    requires n <= |a|
    ensures (a + b)[..n] == a[..n] && (a + b)[n..] == a[n..] + b
    ensures n < |a| ==> a[n..] != [] && a[n..][|a| - n - 1] == a[|a| - 1]
  {
  }

  lemma {:induction false} EndOfSum(a: seq<Byte>, b: seq<Byte>)
    requires Whole(a) && a != []
    ensures LineEnd(a + b) == LineEnd(a) < |a|
  {
    var e, f := LineEnd(a), LineEnd(a + b);
    assert a[|a| - 1] == NEWLINE;
    assert (a + b)[e] == a[e];
    assert f <= e;
    assert (a + b)[f] == a[f];
  }

  // ----- Lines and their ends -----

  type Bytes = seq<Byte>

  predicate IsEnd(e: Bytes) { e == [NEWLINE] || e == [RETURN] || e == [RETURN, NEWLINE] }

  predicate OnOneLine(line: Bytes) { forall i :: 0 <= i < |line| ==> line[i] != NEWLINE && line[i] != RETURN }

  /** Lines with their ends after them; only the last line may lack one, if it is not empty,
      and a return that ends a line is not followed by a newline. */
  predicate GoodEnds(lines: seq<Bytes>, ends: seq<Bytes>) {
    if lines == [] then ends == []
    else
      && ends != []
      && OnOneLine(lines[0])
      && (IsEnd(ends[0]) || (ends == [[]] && lines[0] != []))
      && (ends[0] == [RETURN] ==> !([NEWLINE] <= TextOf(lines[1..], ends[1..])))
      && GoodEnds(lines[1..], ends[1..])
  }

  function TextOf(lines: seq<Bytes>, ends: seq<Bytes>): Bytes {
    if lines == [] || ends == [] then [] else lines[0] + ends[0] + TextOf(lines[1..], ends[1..])
  }

  lemma FirstEnd(line: Bytes, end: Bytes, rest: Bytes)
    requires OnOneLine(line) && (IsEnd(end) || (end == [] && rest == [] && line != []))
    requires end == [RETURN] ==> !([NEWLINE] <= rest)
    ensures var s := line + end + rest;
      s != [] && LineEnd(s) == |line| && NextLine(s) == |line + end| && s[..|line|] == line && s[|line + end|..] == rest
  {
    var s := line + end + rest;
    assert forall i :: 0 <= i < |line| ==> s[i] == line[i];
    if end != [] {
      assert s[|line|] == end[0];
    }
    assert s[|line + end|..] == rest;
  }

  /** Splitting takes a text apart into the lines it was put together from. */
  lemma {:induction false} SplitOfText(lines: seq<Bytes>, ends: seq<Bytes>)
    requires GoodEnds(lines, ends)
    ensures SplitLines(TextOf(lines, ends)) == lines
  {
    if lines != [] {
      SplitOfText(lines[1..], ends[1..]);
      FirstEnd(lines[0], ends[0], TextOf(lines[1..], ends[1..]));
      FirstThenRest(TextOf(lines, ends), |lines[0] + ends[0]|, lines[0], TextOf(lines[1..], ends[1..]));
      SplitFirst(lines);
    }
  }

  lemma EndAfterFirst(s: Bytes) returns (end: Bytes)
    requires s != []
    ensures var line, rest := s[..LineEnd(s)], s[NextLine(s)..];
      && s == line + end + rest && OnOneLine(line)
      && (IsEnd(end) || (end == [] && rest == [] && line != []))
      && (end == [RETURN] ==> !([NEWLINE] <= rest))
  {
    end := s[LineEnd(s)..NextLine(s)];
    if LineEnd(s) < |s| {
      assert end[0] == s[LineEnd(s)];
    }
  }

  /** Every text is made of its lines and some ends. */
  lemma {:induction false} TextOfSplit(s: Bytes) returns (ends: seq<Bytes>)
    ensures GoodEnds(SplitLines(s), ends) && TextOf(SplitLines(s), ends) == s
    decreases |s|
  {
    ends := [];
    if s != [] {
      var end := EndAfterFirst(s);
      var more := TextOfSplit(s[NextLine(s)..]);
      ends := [end] + more;
      LinesPutTogether(s, s[..LineEnd(s)], end, s[NextLine(s)..], more);
    }
  }

  lemma LinesPutTogether(s: Bytes, line: Bytes, end: Bytes, rest: Bytes, more: seq<Bytes>)
    requires s != [] && s == line + end + rest && line == s[..LineEnd(s)] && rest == s[NextLine(s)..]
    requires OnOneLine(line) && (IsEnd(end) || (end == [] && rest == [] && line != []))
    requires end == [RETURN] ==> !([NEWLINE] <= rest)
    requires GoodEnds(SplitLines(rest), more) && TextOf(SplitLines(rest), more) == rest
    ensures GoodEnds(SplitLines(s), [end] + more) && TextOf(SplitLines(s), [end] + more) == s
  {
    FirstThenRest(s, NextLine(s), line, rest);
    assert ([line] + SplitLines(rest))[1..] == SplitLines(rest) && ([end] + more)[1..] == more;
  }

  // ----- What a line becomes -----

  /** Text as code points; lone surrogates can come out of JSON escapes. */
  type Text = seq<nat>

  predicate Encodable(t: Text) { forall i :: 0 <= i < |t| ==> !(0xd800 <= t[i] < 0xe000) }

  /** What int() is given: an integer, a float, text, or something it does not take. */
  datatype Value = Integer(n: int) | Finite(r: real) | Infinite | NotANumber | Digits(parsed: Option<int>) | Other

  /** A line after json.loads and the key lookups. `Raised` is any exception other than
      ValueError, KeyError and TypeError, such as RecursionError on deep nesting. */
  datatype Decoded =
    Rejected | Raised | Fields(streamId: Value, tsNs: Value, layer: Text, detail: Text, createdAt: Text)

  datatype Row = Row(streamId: int, tsNs: int, layer: Text, detail: Text, createdAt: Text)

  datatype Outcome<T> = Good(value: T) | Skipped | Fatal

  /** int(): infinities raise OverflowError, which nothing catches. */
  function ToInt(v: Value): Outcome<int> {
    match v
    case Integer(n) => Good(n)
    case Finite(r) => Good(if r >= 0.0 then r.Floor else -(-r).Floor)
    case Infinite => Fatal
    case NotANumber => Skipped
    case Digits(Some(n)) => Good(n)
    case Digits(None) => Skipped
    case Other => Skipped
  }

  predicate FitsSqlite(n: int) { -0x8000_0000_0000_0000 <= n < 0x8000_0000_0000_0000 }

  /** One turn of the loop: conversions inside the try, the INSERT outside it. */
  function Import(d: Decoded): Outcome<Row> {
    match d
    case Rejected => Skipped
    case Raised => Fatal
    case Fields(streamId, tsNs, layer, detail, createdAt) =>
      match ToInt(streamId)
      case Skipped => Skipped
      case Fatal => Fatal
      case Good(id) =>
        match ToInt(tsNs)
        case Skipped => Skipped
        case Fatal => Fatal
        case Good(ts) =>
          if FitsSqlite(id) && FitsSqlite(ts) && Encodable(layer) && Encodable(detail) && Encodable(createdAt)
          then Good(Row(id, ts, layer, detail, createdAt))
          else Fatal
  }

  /** int() of a float drops the fraction. */
  lemma TruncatesTowardZero(r: real, n: int)
    ensures ToInt(Finite(r)) == Good(n) <==>
      if r >= 0.0 then n as real <= r < (n + 1) as real else (n - 1) as real < r <= n as real
  {
  }

  /** A good line gives the row with its own five fields, the two numbers as int() has them. */
  lemma GoodRowIff(d: Decoded, row: Row)
    ensures Import(d) == Good(row) <==>
      && d.Fields?
      && ToInt(d.streamId) == Good(row.streamId) && ToInt(d.tsNs) == Good(row.tsNs)
      && row.layer == d.layer && row.detail == d.detail && row.createdAt == d.createdAt
      && FitsSqlite(row.streamId) && FitsSqlite(row.tsNs)
      && Encodable(row.layer) && Encodable(row.detail) && Encodable(row.createdAt)
  {
  }

  /** A line ends the import when decoding raises something else, when a number is infinite
      and none before it is unusable, or when SQLite cannot take the row. */
  lemma FatalIff(d: Decoded)
    ensures Import(d).Fatal? <==>
      d.Raised? ||
      (d.Fields? &&
       (d.streamId.Infinite? ||
        (ToInt(d.streamId).Good? &&
         (d.tsNs.Infinite? ||
          (ToInt(d.tsNs).Good? && !(FitsSqlite(ToInt(d.streamId).value) && FitsSqlite(ToInt(d.tsNs).value) &&
                                    Encodable(d.layer) && Encodable(d.detail) && Encodable(d.createdAt)))))))
  {
  }

  type Decoder = seq<Byte> -> Decoded

  predicate IsFatal(decode: Decoder, line: seq<Byte>) { Import(decode(line)).Fatal? }

  predicate NoneFatal(decode: Decoder, lines: seq<seq<Byte>>) {
    forall i :: 0 <= i < |lines| ==> !IsFatal(decode, lines[i])
  }

  /** The rows of the well-formed lines, in order. */
  function RowsOf(decode: Decoder, lines: seq<seq<Byte>>): seq<Row> {
    if lines == [] then []
    else
      match Import(decode(lines[0]))
      case Good(row) => [row] + RowsOf(decode, lines[1..])
      case _ => RowsOf(decode, lines[1..])
  }

  lemma {:induction false} RowsOfSum(decode: Decoder, a: seq<seq<Byte>>, b: seq<seq<Byte>>)
    ensures RowsOf(decode, a + b) == RowsOf(decode, a) + RowsOf(decode, b)
  {
    if a == [] {
      assert a + b == b;
    } else {
      assert (a + b)[1..] == a[1..] + b;
      RowsOfSum(decode, a[1..], b);
    }
  }

  /** Importing a whole prefix and then the rest is importing everything. */
  lemma RowsAddUp(decode: Decoder, a: seq<Byte>, b: seq<Byte>)
    requires Whole(a)
    ensures RowsOf(decode, SplitLines(a + b)) == RowsOf(decode, SplitLines(a)) + RowsOf(decode, SplitLines(b))
    ensures NoneFatal(decode, SplitLines(a + b)) <==>
      NoneFatal(decode, SplitLines(a)) && NoneFatal(decode, SplitLines(b))
  {
    SplitsAtNewline(a, b);
    RowsOfSum(decode, SplitLines(a), SplitLines(b));
    NoneFatalOfSum(decode, SplitLines(a), SplitLines(b));
  }

  lemma NoneFatalOfSum(decode: Decoder, a: seq<seq<Byte>>, b: seq<seq<Byte>>)
    ensures NoneFatal(decode, a + b) <==> NoneFatal(decode, a) && NoneFatal(decode, b)
  {
    if NoneFatal(decode, a + b) {
      assert forall i :: 0 <= i < |a| ==> (a + b)[i] == a[i];
      assert forall i :: 0 <= i < |b| ==> (a + b)[|a| + i] == b[i];
    }
  }

  // ----- The durable state and one sync -----

  /** What SQLite holds: the offset of sync_state and the alerts table. */
  datatype Database = Database(offset: nat, alerts: seq<Row>)

  /** What the transaction over `chunk`, read at the offset, leaves behind. */
  function Imported(decode: Decoder, db: Database, chunk: seq<Byte>): Database {
    var consumed := chunk[..WholeLength(chunk)];
    if NoneFatal(decode, SplitLines(consumed))
    then Database(db.offset + |consumed|, db.alerts + RowsOf(decode, SplitLines(consumed)))
    else db
  }

  lemma NothingImported(decode: Decoder, db: Database, chunk: seq<Byte>)
    requires WholeLength(chunk) == 0
    ensures SplitLines(chunk[..WholeLength(chunk)]) == [] && Imported(decode, db, chunk) == db
  {
    assert chunk[..0] == [];
    assert db.alerts + [] == db.alerts;
  }

  /** bytes.rfind(newline): the last newline, or -1. */
  method LastNewline(s: seq<Byte>) returns (i: int)
    ensures i + 1 == WholeLength(s)
  {
    i := |s| - 1;
    while i >= 0 && s[i] != NEWLINE
      invariant -1 <= i < |s|
      invariant forall k :: i < k < |s| ==> s[k] != NEWLINE
    {
      i := i - 1;
    }
    var n := WholeLength(s);
    if n > 0 {
      assert s[..n][n - 1] == s[n - 1];
    }
  }

  class LiveEngineSource {
    const decode: Decoder
    var db: Database

    constructor (decode: Decoder, db: Database)
      ensures this.decode == decode && this.db == db
    {
      this.decode, this.db := decode, db;
    }

    /** `size` is what getsize saw (None if the file is missing), `contents` what the later
        read could see; `survives` is false if the process dies before the commit. */
    method SyncAlerts(size: Option<nat>, contents: seq<Byte>, survives: bool) returns (raised: bool)
      modifies this`db
      ensures var offset := old(db.offset);
        var chunk := if offset <= |contents| then contents[offset..] else [];
        var lines := SplitLines(chunk[..WholeLength(chunk)]);
        if size.None? || size.value <= offset then !raised && db == old(db)
        else
          && raised == !NoneFatal(decode, lines)
          && db == if survives then Imported(decode, old(db), chunk) else old(db)
    {
      if size.None? || size.value <= db.offset {
        return false;
      }
      var chunk := if db.offset <= |contents| then contents[db.offset..] else [];
      var lastNl := LastNewline(chunk);
      if lastNl < 0 {
        NothingImported(decode, db, chunk);
        return false;
      }
      var consumed := chunk[..lastNl + 1];
      var lines := SplitLines(consumed);
      var inserted;
      inserted, raised := InsertLines(lines);
      if !raised && survives {
        db := Database(db.offset + |consumed|, db.alerts + inserted);
      }
    }

    /** The INSERTs of one transaction; an exception nobody catches ends it. */
    method InsertLines(lines: seq<seq<Byte>>) returns (inserted: seq<Row>, raised: bool)
      ensures raised == !NoneFatal(decode, lines)
      ensures !raised ==> inserted == RowsOf(decode, lines)
    {
      inserted := [];
      for i := 0 to |lines|
        invariant NoneFatal(decode, lines[..i])
        invariant inserted == RowsOf(decode, lines[..i])
      {
        assert lines[..i + 1] == lines[..i] + [lines[i]];
        RowsOfSum(decode, lines[..i], [lines[i]]);
        match Import(decode(lines[i])) {
          case Good(row) => inserted := inserted + [row];
          case Skipped =>
          case Fatal =>
            assert IsFatal(decode, lines[i]);
            return inserted, true;
        }
      }
      assert lines[..|lines|] == lines;
      raised := false;
    }
  }

  /** Complete, importable lines, and exactly their rows. */
  ghost predicate TableOf(decode: Decoder, synced: seq<Byte>, alerts: seq<Row>) {
    && Whole(synced)
    && NoneFatal(decode, SplitLines(synced))
    && alerts == RowsOf(decode, SplitLines(synced))
  }

  lemma TableGrows(decode: Decoder, synced: seq<Byte>, alerts: seq<Row>, consumed: seq<Byte>)
    requires TableOf(decode, synced, alerts) && Whole(consumed) && NoneFatal(decode, SplitLines(consumed))
    ensures TableOf(decode, synced + consumed, alerts + RowsOf(decode, SplitLines(consumed)))
  {
    RowsAddUp(decode, synced, consumed);
    WholeSum(synced, consumed);
  }

  lemma WholeSum(a: seq<Byte>, b: seq<Byte>)
    requires Whole(a) && Whole(b)
    ensures Whole(a + b)
  {
  }

  lemma ConsumedIsNext(file: seq<Byte>, offset: nat, chunk: seq<Byte>, n: nat)
    requires offset <= |file| && chunk <= file[offset..] && n <= |chunk|
    ensures offset + n <= |file| && file[..offset + n] == file[..offset] + chunk[..n]
  {
  }

  ghost predicate HasFatal(decode: Decoder, s: seq<Byte>) {
    !NoneFatal(decode, SplitLines(s[..WholeLength(s)]))
  }

  lemma FatalStays(decode: Decoder, s: seq<Byte>, more: seq<Byte>)
    requires HasFatal(decode, s)
    ensures HasFatal(decode, s + more)
  {
    CompleteGrows(s, more);
    var n, total := WholeLength(s), WholeLength(s + more);
    RowsAddUp(decode, s[..n], (s + more)[n..total]);
  }

  lemma CompleteGrows(s: seq<Byte>, more: seq<Byte>)
    ensures WholeLength(s) <= WholeLength(s + more)
    ensures (s + more)[..WholeLength(s + more)]
         == s[..WholeLength(s)] + (s + more)[WholeLength(s)..WholeLength(s + more)]
  {
    var n := WholeLength(s);
    assert (s + more)[..n] == s[..n];
    WholeLengthFrom(s + more, n);
  }

  /** A whole prefix does not move the last newline. */
  lemma {:induction false} WholeLengthFrom(s: seq<Byte>, o: nat)
    requires o <= |s| && Whole(s[..o])
    ensures WholeLength(s) == o + WholeLength(s[o..])
    decreases |s|
  {
    if |s| == o {
      assert s[..o] == s && s[o..] == [];
    } else if s[|s| - 1] != NEWLINE {
      var t := s[..|s| - 1];
      assert t[..o] == s[..o] && t[o..] == s[o..][..|s| - o - 1];
      WholeLengthFrom(t, o);
    }
  }

  lemma ImportedCatchesUpIff(decode: Decoder, file: seq<Byte>, db: Database)
    requires db.offset <= |file| && TableOf(decode, file[..db.offset], db.alerts)
    ensures var after := Imported(decode, db, file[db.offset..]);
      var complete := file[..WholeLength(file)];
      && (after.offset == |complete| <==> NoneFatal(decode, SplitLines(complete)))
      && (after.offset == |complete| ==> after.alerts == RowsOf(decode, SplitLines(complete)))
  {
    WholeLengthFrom(file, db.offset);
    ConsumedIsNext(file, db.offset, file[db.offset..], WholeLength(file[db.offset..]));
    ImportedIff(decode, db, file[..db.offset], file[db.offset..], file[..WholeLength(file)]);
  }

  lemma ImportedIff(decode: Decoder, db: Database, synced: seq<Byte>, chunk: seq<Byte>, complete: seq<Byte>)
    requires TableOf(decode, synced, db.alerts) && db.offset == |synced|
    requires complete == synced + chunk[..WholeLength(chunk)]
    ensures var after := Imported(decode, db, chunk);
      && (after.offset == |complete| <==> NoneFatal(decode, SplitLines(complete)))
      && (after.offset == |complete| ==> after.alerts == RowsOf(decode, SplitLines(complete)))
  {
    RowsAddUp(decode, synced, chunk[..WholeLength(chunk)]);
    if WholeLength(chunk) == 0 {
      NothingImported(decode, db, chunk);
    }
  }

  lemma ImportKeepsTable(decode: Decoder, db: Database, chunk: seq<Byte>, file: seq<Byte>)
    requires db.offset <= |file| && chunk <= file[db.offset..] && TableOf(decode, file[..db.offset], db.alerts)
    ensures var after := Imported(decode, db, chunk);
      after.offset <= |file| && TableOf(decode, file[..after.offset], after.alerts)
  {
    var consumed := chunk[..WholeLength(chunk)];
    ConsumedIsNext(file, db.offset, chunk, |consumed|);
    if NoneFatal(decode, SplitLines(consumed)) {
      TableGrows(decode, file[..db.offset], db.alerts, consumed);
    }
  }

  // ----- Every schedule of appends, refreshes, crashes and restarts -----

  /** Where a refresh is: between its system calls other things can happen. */
  datatype Phase = Idle | Statted(size: nat) | Located(offset: nat) | Loaded(chunk: seq<Byte>)

  datatype Event = Append(bytes: seq<Byte>) | Stat | Locate | Read | Finish | Crash

  datatype World = World(file: seq<Byte>, db: Database, phase: Phase) {

    predicate Enabled(e: Event) {
      match e
      case Append(_) => true
      case Stat => phase.Idle?
      case Locate => phase.Statted?
      case Read => phase.Located?
      case Finish => phase.Loaded?
      case Crash => true
    }

    function Step(decode: Decoder, e: Event): World
      requires Enabled(e)
    {
      match e
      case Append(bytes) => this.(file := file + bytes)
      case Stat => this.(phase := Statted(|file|))
      case Locate => this.(phase := if phase.size <= db.offset then Idle else Located(db.offset))
      case Read => this.(phase := Loaded(if phase.offset <= |file| then file[phase.offset..] else []))
      case Finish => this.(db := Imported(decode, db, phase.chunk), phase := Idle)
      case Crash => this.(phase := Idle)
    }

    ghost predicate CanRun(decode: Decoder, run: seq<Event>)
      decreases |run|
    {
      run == [] || (Enabled(run[0]) && Step(decode, run[0]).CanRun(decode, run[1..]))
    }

    function Run(decode: Decoder, run: seq<Event>): World
      requires CanRun(decode, run)
      decreases |run|
    {
      if run == [] then this else Step(decode, run[0]).Run(decode, run[1..])
    }

    /** The table is the well-formed lines before the offset, once each and in order, and the
        offset is the start of a line. */
    ghost predicate Exact(decode: Decoder) {
      db.offset <= |file| && TableOf(decode, file[..db.offset], db.alerts)
    }

    ghost predicate Inv(decode: Decoder) {
      && Exact(decode)
      && (phase.Statted? ==> phase.size <= |file|)
      && (phase.Located? ==> phase.offset == db.offset)
      && (phase.Loaded? ==> phase.chunk <= file[db.offset..])
    }

    lemma StepKeepsInv(decode: Decoder, e: Event)
      requires Inv(decode) && Enabled(e)
      ensures Step(decode, e).Inv(decode)
    {
      match e
      case Append(bytes) =>
        assert (file + bytes)[..db.offset] == file[..db.offset];
        assert (file + bytes)[db.offset..] == file[db.offset..] + bytes;
      case Finish => FinishKeepsExact(decode);
      case _ =>
    }

    lemma FinishKeepsExact(decode: Decoder)
      requires Inv(decode) && phase.Loaded?
      ensures Step(decode, Finish).Exact(decode)
    {
      ImportKeepsTable(decode, db, phase.chunk, file);
    }

    lemma {:induction false} RunsKeepInv(decode: Decoder, run: seq<Event>)
      requires Inv(decode) && CanRun(decode, run)
      ensures Run(decode, run).Inv(decode)
      decreases |run|
    {
      if run != [] {
        StepKeepsInv(decode, run[0]);
        Step(decode, run[0]).RunsKeepInv(decode, run[1..]);
      }
    }

    /** A complete line past the offset cannot be imported, and whatever was read shows it. */
    ghost predicate Blocked(decode: Decoder) {
      && db.offset <= |file| && HasFatal(decode, file[db.offset..])
      && (phase.Located? ==> phase.offset == db.offset)
      && (phase.Loaded? ==> HasFatal(decode, phase.chunk))
    }

    lemma StepKeepsBlocked(decode: Decoder, e: Event)
      requires Blocked(decode) && Enabled(e)
      ensures Step(decode, e).Blocked(decode) && Step(decode, e).db == db
    {
      if e.Append? {
        assert (file + e.bytes)[db.offset..] == file[db.offset..] + e.bytes;
        FatalStays(decode, file[db.offset..], e.bytes);
      }
    }

    /** From then on nothing is ever imported, whatever is appended, retried or restarted. */
    lemma {:induction false} BlockedForever(decode: Decoder, run: seq<Event>)
      requires Blocked(decode) && CanRun(decode, run)
      ensures Run(decode, run).db == db
      decreases |run|
    {
      if run != [] {
        StepKeepsBlocked(decode, run[0]);
        Step(decode, run[0]).BlockedForever(decode, run[1..]);
      }
    }

    /** A refresh nothing interferes with reaches the end of the last complete line exactly
        when no complete line of the file raises; the table is then a function of the file. */
    lemma RefreshCatchesUpIff(decode: Decoder)
      requires Inv(decode) && phase.Idle?
      ensures var after := Refreshed(decode);
        var complete := file[..WholeLength(file)];
        && (after.offset == |complete| <==> NoneFatal(decode, SplitLines(complete)))
        && (after.offset == |complete| ==> after.alerts == RowsOf(decode, SplitLines(complete)))
    {
      RefreshedIsImported(decode);
      ImportedCatchesUpIff(decode, file, db);
      if |file| == db.offset {
        NothingImported(decode, db, file[db.offset..]);
      }
    }

    lemma RefreshedIsImported(decode: Decoder)
      requires Inv(decode) && phase.Idle?
      ensures db.offset <= |file|
      ensures Refreshed(decode) == if |file| == db.offset then db else Imported(decode, db, file[db.offset..])
    {
    }

    /** What Stat, Locate, Read and Finish in a row leave in the database. */
    ghost function Refreshed(decode: Decoder): Database
      requires phase.Idle?
    {
      var located := Step(decode, Stat).Step(decode, Locate);
      if located.phase.Idle? then located.db else located.Step(decode, Read).Step(decode, Finish).db
    }
  }

  const EMPTY := World([], Database(0, []), Idle)

  /** In every schedule, whatever was torn, interleaved or lost, the table is exact. */
  lemma TableIsExact(decode: Decoder, run: seq<Event>)
    requires EMPTY.CanRun(decode, run)
    ensures EMPTY.Run(decode, run).Exact(decode)
  {
    EMPTY.RunsKeepInv(decode, run);
  }

  /** After any schedule one undisturbed refresh gives a table that depends on the file alone,
      not on how it was appended; a file with a complete line that raises is the exception. */
  lemma ScheduleDoesNotMatter(decode: Decoder, run: seq<Event>)
    requires EMPTY.CanRun(decode, run) && EMPTY.Run(decode, run).phase.Idle?
    ensures var w := EMPTY.Run(decode, run);
      var complete := w.file[..WholeLength(w.file)];
      w.Refreshed(decode) == Database(|complete|, RowsOf(decode, SplitLines(complete)))
      <==> NoneFatal(decode, SplitLines(complete))
  {
    EMPTY.RunsKeepInv(decode, run);
    EMPTY.Run(decode, run).RefreshCatchesUpIff(decode);
  }

  /** One line with an infinite number, such as {"ts_ns": 1e999, ...}, ends all imports. */
  lemma InfinityStopsImports(decode: Decoder, line: seq<Byte>, run: seq<Event>)
    requires forall i :: 0 <= i < |line| ==> line[i] != NEWLINE && line[i] != RETURN
    requires decode(line).Fields? && decode(line).streamId.Integer? && decode(line).tsNs.Infinite?
    requires EMPTY.(file := line + [NEWLINE]).CanRun(decode, run)
    ensures EMPTY.(file := line + [NEWLINE]).Run(decode, run).db == EMPTY.db
  {
    var s := line + [NEWLINE];
    assert Whole(s) && s[0..] == s && s[..|s|] == s;
    OneLine(line);
    assert IsFatal(decode, SplitLines(s)[0]);
    EMPTY.(file := s).BlockedForever(decode, run);
  }

  lemma OneLine(line: seq<Byte>)
    requires forall i :: 0 <= i < |line| ==> line[i] != NEWLINE && line[i] != RETURN
    ensures SplitLines(line + [NEWLINE]) == [line]
  {
    var s := line + [NEWLINE];
    var e := LineEnd(s);
    assert s[|line|] == NEWLINE;
    assert forall i :: 0 <= i < |line| ==> s[i] == line[i];
    assert s[..e] == line && s[NextLine(s)..] == [];
  }
}
