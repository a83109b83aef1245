/** Recording a stream to a file and replaying it. */
module Replay {
  import opened Message
  import opened RecordFormat
  import opened Sequences
  import opened Wrappers

  method HeaderBytes() returns (bytes: seq<Byte>)
    ensures bytes == Header()
  {
    var header := new Byte[HEADER_SIZE](_ => 0);
    header[0] := MAGIC[0];
    header[1] := MAGIC[1];
    header[2] := MAGIC[2];
    header[3] := MAGIC[3];
    assert header[..4] == MAGIC;
    PutU32(header, 4, FORMAT_VERSION);
    return header[..];
  }

  /** Writes messages to a file on a device that takes `room` bytes and then fails. */
  class StreamRecorder {
    const opens: bool
    var file: seq<Byte>
    var room: nat
    var good: bool
    var headerOk: bool
    var count: nat
    ghost var Accepted: seq<Message>  // the messages whose write returned true

    ghost predicate Valid()
      reads this
    {
      && (headerOk ==> opens)
      && (IsOpen() ==>
            && Recording(Accepted) <= file
            && |file| < |Recording(Accepted)| + RECORD_SIZE
            && (good ==> file == Recording(Accepted)))
      && (!IsOpen() ==> file <= Header() && |file| < HEADER_SIZE && Accepted == [])
      && count == |Accepted|
    }

    predicate IsOpen()
      reads this
    {
      opens && headerOk
    }

    /** What ofstream::write leaves behind: whatever fits, and a bad stream if not all did. */
    method WriteBytes(bytes: seq<Byte>)
      modifies this`file, this`room, this`good
      ensures good <==> old(good) && |bytes| <= old(room)
      ensures good ==> file == old(file) + bytes && room == old(room) - |bytes|
      ensures old(good) && |bytes| > old(room) ==> file == old(file) + bytes[..old(room)]
      ensures !old(good) ==> file == old(file)
    {
      if !good {
        return;
      }
      var n := if |bytes| <= room then |bytes| else room;
      file, room, good := file + bytes[..n], room - n, n == |bytes|;
    }

    constructor (opens: bool, room: nat)
      ensures Valid() && Accepted == []
      ensures IsOpen() <==> opens && room >= HEADER_SIZE
      ensures IsOpen() ==> good && this.room == room - HEADER_SIZE
    {
      this.opens := opens;
      this.room := room;
      file, good, headerOk, count, Accepted := [], opens, false, 0, [];
      new;
      if opens {
        var header := HeaderBytes();
        WriteBytes(header);
        headerOk := good;
        assert Records([]) == [];
      }
    }

    method Write(msg: Message) returns (ok: bool)
      requires Valid()
      modifies this
      ensures Valid()
      ensures ok <==> old(IsOpen() && good) && old(room) >= RECORD_SIZE
      ensures Accepted == if ok then old(Accepted) + [msg] else old(Accepted)
      ensures ok ==> good && room == old(room) - RECORD_SIZE
      ensures old(file) <= file && IsOpen() == old(IsOpen())
    {
      if !IsOpen() {
        return false;
      }
      var buf := new Byte[RECORD_SIZE](_ => 0);
      EncodeRecord(msg, buf);
      RecordingGrows(Accepted, msg);
      WriteBytes(buf[..]);
      if !good {
        return false;
      }
      count := count + 1;
      Accepted := Accepted + [msg];
      return true;
    }
  }

  /** Wherever the device failed, even inside a record, the file replays exactly the
      messages whose write returned true. */
  lemma RecordingSurvivesFailure(rec: StreamRecorder)
    requires rec.Valid() && rec.IsOpen()
    ensures HeaderStatus(rec.file) == Ok && MessagesFrom(rec.file, 0) == rec.Accepted
  {
    var tail := rec.file[|Recording(rec.Accepted)|..];
    TailedReplay(rec.Accepted, tail);
    assert rec.file == Recording(rec.Accepted) + tail;
  }

  lemma LeftOver(body: nat, records: nat)
    requires RECORD_SIZE * records <= body < RECORD_SIZE * (records + 1)
    ensures body % RECORD_SIZE == body - RECORD_SIZE * records
  {
  }

  /** Pulls messages from a file (None when it cannot be opened). */
  class StreamReplayer {
    const source: Option<seq<Byte>>
    var pos: nat
    var status: Status
    var messagesReplayed: nat
    var truncated: bool

    ghost predicate Valid()
      reads this
    {
      && status == (if source.None? then FileNotFound else HeaderStatus(source.value))
      && (status == Ok ==>
            var n := |source.value|;
            && RecordStart(messagesReplayed) <= n
            && pos == (if truncated then n else RecordStart(messagesReplayed))
            && (truncated ==> 0 < n - (RecordStart(messagesReplayed)) < RECORD_SIZE))
      && (status != Ok ==> messagesReplayed == 0 && !truncated)
    }

    /** The messages still to come. */
    ghost function Remaining(): seq<Message>
      reads this
      requires Valid()
    {
      if status == Ok then MessagesFrom(source.value, messagesReplayed) else []
    }

    /** How many bytes follow the messages replayed so far. */
    ghost function BytesLeft(): nat
      reads this
      requires Valid() && status == Ok
    {
      |source.value| - RecordStart(messagesReplayed)
    }

    /** Reads up to `n` bytes; gcount is how many there were. */
    method ReadBytes(n: nat) returns (got: seq<Byte>)
      requires source.Some? && pos <= |source.value|
      modifies this`pos
      ensures old(pos) <= pos <= |source.value|
      ensures got == source.value[old(pos)..pos]
      ensures pos == if old(pos) + n <= |source.value| then old(pos) + n else |source.value|
    {
      var end := if pos + n <= |source.value| then pos + n else |source.value|;
      got := source.value[pos..end];
      pos := end;
    }

    constructor (source: Option<seq<Byte>>)
      ensures Valid() && this.source == source && messagesReplayed == 0 && !truncated
      ensures status == if source.None? then FileNotFound else HeaderStatus(source.value)
    {
      this.source := source;
      pos, status, messagesReplayed, truncated := 0, FileNotFound, 0, false;
      new;
      if source.None? {
        return;
      }
      var header := ReadBytes(HEADER_SIZE);
      if |header| != HEADER_SIZE {
        status := BadMagic;
        return;
      }
      assert header == source.value[..8];
      assert header[..4] == source.value[..4] && header[4..8] == source.value[4..8];
      if header[..4] != MAGIC {
        status := BadMagic;
        return;
      }
      if Value32(header[4..8]) != FORMAT_VERSION {
        status := UnsupportedVersion;
        return;
      }
      status := Ok;
    }

    method Next() returns (out: Option<Message>)
      requires Valid()
      modifies this
      ensures Valid() && status == old(status)
      ensures out.Some? ==> old(Remaining()) == [out.value] + Remaining()
      ensures out.None? ==> old(Remaining()) == Remaining() == []
      ensures messagesReplayed == old(messagesReplayed) + if out.Some? then 1 else 0
      ensures out.None? && status == Ok ==> (truncated <==> BytesLeft() > 0)
    {
      if status != Ok {
        return None;
      }
      var got := ReadBytes(RECORD_SIZE);
      if |got| == RECORD_SIZE {
        messagesReplayed := messagesReplayed + 1;
        return Some(Decoded(got));
      }
      if |got| > 0 {
        truncated := true;
      }
      return None;
    }

    /** What every consumer of a replayer does: pull until it is dry. */
    method Drain() returns (ms: seq<Message>)
      requires Valid()
      modifies this
      ensures Valid() && status == old(status) && Remaining() == []
      ensures ms == old(Remaining())
      ensures messagesReplayed == old(messagesReplayed) + |ms|
      ensures status == Ok ==> (truncated <==> (|source.value| - HEADER_SIZE) % RECORD_SIZE != 0)
    {
      ms := [];
      ghost var all := Remaining();
      while true
        invariant Valid() && status == old(status)
        invariant ms + Remaining() == all
        invariant messagesReplayed == old(messagesReplayed) + |ms|
        decreases |Remaining()|
      {
        var next := Next();
        if next.None? {
          if status == Ok { LeftOver(|source.value| - HEADER_SIZE, messagesReplayed); }
          return;
        }
        Associate(ms, [next.value], Remaining());
        ms := ms + [next.value];
      }
    }
  }

  /** Records a whole stream on a device with room for it. */
  method RecordAll(ms: seq<Message>) returns (file: seq<Byte>)
    ensures file == Recording(ms)
  {
    var rec := new StreamRecorder(true, |Recording(ms)|);
    for i := 0 to |ms|
      invariant rec.Valid() && rec.IsOpen() && rec.good
      invariant rec.Accepted == ms[..i] && rec.room == RECORD_SIZE * (|ms| - i)
    {
      var ok := rec.Write(ms[i]);
    }
    assert ms[..|ms|] == ms;
    return rec.file;
  }

  /** What a consumer gets from a file. */
  method ReplayAll(file: seq<Byte>) returns (status: Status, out: seq<Message>, truncated: bool)
    ensures status == HeaderStatus(file)
    ensures status == Ok ==>
      out == MessagesFrom(file, 0) && (truncated <==> (|file| - HEADER_SIZE) % RECORD_SIZE != 0)
    ensures status != Ok ==> out == [] && !truncated
  {
    var replayer := new StreamReplayer(Some(file));
    out := replayer.Drain();
    status, truncated := replayer.status, replayer.truncated;
  }

  /** Record `ms`, cut the file at any length, and replay it. */
  method RecordCutReplay(ms: seq<Message>, cut: nat) returns (status: Status, out: seq<Message>, truncated: bool)
    requires cut <= |Recording(ms)|
    ensures cut < HEADER_SIZE ==> status == BadMagic && out == [] && !truncated
    ensures cut >= HEADER_SIZE ==>
      && status == Ok
      && (cut - HEADER_SIZE) / RECORD_SIZE <= |ms|
      && out == ms[..(cut - HEADER_SIZE) / RECORD_SIZE]
      && (truncated <==> (cut - HEADER_SIZE) % RECORD_SIZE != 0)
  {
    var file := RecordAll(ms);
    if cut < HEADER_SIZE {
      CutHeaderIsBad(ms, cut);
    } else {
      CutReplaysWholeRecords(ms, cut);
    }
    status, out, truncated := ReplayAll(file[..cut]);
  }
}
