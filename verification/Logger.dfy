/** The logger: tracking an event through the whole pipeline, and flushing the buffer (logger.go). */
module Logger {
  import opened Basics
  import opened Events
  import opened Escaper
  import opened Device
  import opened Rules
  import opened HeapData
  import opened Merging
  import Anonymizer
  import Buffer
  import Client
  import Delivery
  import SharedFile
  import Validator

  const MAX_DATA_FIELDS := 10

  datatype DropReason = TooManyFields | ValidationRejected | BufferWriteFailed

  // ---------- Escaping an event ----------

  /** out is ids with keys and values escaped; of keys that escape alike one wins. */
  ghost predicate IsEscapedIDs(ids: map<string, string>, out: map<string, string>) {
    && (forall k | k in ids :: EscapeFieldName(k) in out)
    && (forall k | k in out :: IDComesFrom(ids, k, out[k]))
  }

  ghost predicate IDComesFrom(ids: map<string, string>, k: string, v: string) {
    exists j :: j in ids && EscapeFieldName(j) == k && EscapeIDOrValue(ids[j]) == v
  }

  function AsData(ids: map<string, string>): map<string, Value> {
    map k | k in ids :: Str(ids[k])
  }

  /** IDs are escaped as a data map of strings is. */
  lemma IDsAreEscapedAsData(ids: map<string, string>, out: map<string, string>)
    ensures IsEscapedIDs(ids, out) <==> Escaped(Obj(AsData(ids)), Obj(AsData(out)))
  {
    hide EscapeFieldName, EscapeIDOrValue, IDComesFrom, ComesFrom;
    forall k | k in out
      ensures IDComesFrom(ids, k, out[k]) <==> ComesFrom(Obj(AsData(ids)), k, AsData(out)[k])
    {
      IDComesFromAsData(ids, k, out[k]);
    }
  }

  lemma IDComesFromAsData(ids: map<string, string>, k: string, v: string)
    ensures IDComesFrom(ids, k, v) <==> ComesFrom(Obj(AsData(ids)), k, Str(v))
  {
    hide EscapeFieldName, EscapeIDOrValue;
    if IDComesFrom(ids, k, v) {
      var j :| j in ids && EscapeFieldName(j) == k && EscapeIDOrValue(ids[j]) == v;
      assert Escaped(AsData(ids)[j], Str(v));
    }
    if ComesFrom(Obj(AsData(ids)), k, Str(v)) {
      var j :| j in AsData(ids) && EscapeFieldName(j) == k && Escaped(AsData(ids)[j], Str(v));
      assert IDComesFrom(ids, k, v);
    }
  }

  method EscapeIDs(ids: map<string, string>) returns (out: map<string, string>)
    ensures IsEscapedIDs(ids, out)
  {
    hide EscapeFieldName, EscapeIDOrValue;
    out := map[];
    var todo := ids.Keys;
    while todo != {}
      invariant todo <= ids.Keys
      invariant forall k | k in ids.Keys - todo :: EscapeFieldName(k) in out
      invariant forall k | k in out :: IDComesFrom(ids, k, out[k])
    {
      var k :| k in todo;
      assert IDComesFrom(ids, EscapeFieldName(k), EscapeIDOrValue(ids[k]));
      out := out[EscapeFieldName(k) := EscapeIDOrValue(ids[k])];
      todo := todo - {k};
    }
  }

  /** w is e as it is written: identifiers, IDs, the event ID and the data escaped, everything else unchanged. */
  ghost predicate IsEscapedEvent(e: LogEvent, w: LogEvent) {
    && w == e.(recorder := e.recorder.(id := Escape(e.recorder.id)), product := Escape(e.product), ids := w.ids,
               build := Escape(e.build), group := e.group.(id := Escape(e.group.id)),
               event := EventAction(EscapeIDOrValue(e.event.id), w.event.data, e.event.count))
    && (if e.ids.None? then w.ids.None? else w.ids.Some? && IsEscapedIDs(e.ids.value, w.ids.value))
    && (if e.event.data.None? then w.event.data.None?
        else w.event.data.Some? && Escaped(Obj(e.event.data.value), Obj(w.event.data.value)))
  }

  method EscapeLogEvent(e: LogEvent) returns (w: LogEvent)
    ensures IsEscapedEvent(e, w)
  {
    hide Escape, EscapeIDOrValue, IsEscapedIDs, Escaped;
    var ids: Option<map<string, string>> := None;
    if e.ids.Some? {
      var out := EscapeIDs(e.ids.value);
      ids := Some(out);
    }
    var data: Option<map<string, Value>> := None;
    if e.event.data.Some? {
      var out := EscapeEventData(e.event.data.value);
      data := Some(out);
    }
    w := e.(recorder := e.recorder.(id := Escape(e.recorder.id)), product := Escape(e.product), ids := ids,
            build := Escape(e.build), group := e.group.(id := Escape(e.group.id)),
            event := EventAction(EscapeIDOrValue(e.event.id), data, e.event.count));
  }

  // ---------- Reading data from the heap ----------

  /** The validator and the escaper only read the data; the model hands them its content. */
  method ReadData(m: MapObj, ghost t: Shape) returns (data: map<string, Value>)
    requires Represents(MapRef(m), t)
    ensures Obj(data) == t.Content()
    decreases t, 0
  {
    hide Shape.Content;
    data := map[];
    var todo := m.entries.Keys;
    while todo != {}
      invariant todo <= t.kids.Keys && data.Keys == t.kids.Keys - todo
      invariant ContentsRead(data, t.kids)
    {
      var k :| k in todo;
      var v := ReadValue(m.entries[k], t.kids[k]);
      data := data[k := v];
      todo := todo - {k};
    }
    ReadAll(data, t);
  }

  ghost predicate ContentsRead(data: map<string, Value>, kids: map<string, Shape>) {
    forall k | k in data :: k in kids && data[k] == kids[k].Content()
  }

  lemma ReadAll(data: map<string, Value>, t: Shape)
    requires t.MapShape? && data.Keys == t.kids.Keys && ContentsRead(data, t.kids)
    ensures Obj(data) == t.Content()
  {
    assert data == map k | k in t.kids :: t.kids[k].Content();
  }

  method ReadValue(v: Any, ghost t: Shape) returns (w: Value)
    requires Represents(v, t)
    ensures w == t.Content()
    decreases t, 1
  {
    match v
    case Leaf(s) => w := s;
    case MapRef(m) =>
      var data := ReadData(m, t);
      w := Obj(data);
    case ListRef(l) =>
      var items: seq<Value> := [];
      for i := 0 to |l.items|
        invariant |items| == i && forall j | 0 <= j < i :: items[j] == t.elems[j].Content()
      {
        var item := ReadValue(l.items[i], t.elems[i]);
        items := items + [item];
      }
      w := List(items);
  }

  // ---------- Flushing ----------

  lemma NothingLeft(c: Buffer.Codec)
    ensures Merge([]) == [] && Buffer.Frame(c, []) == []
  {
  }

  /** Merged settled events are settled, so what a flush puts back is found again when the file is next read, provided
      it fits the scanner. */
  lemma RequeuedIsRead(c: Buffer.Codec, es: seq<LogEvent>, sent: nat)
    requires c.Lawful() && SharedFile.AllSettled(c, es) && sent <= |Merge(es)|
    requires forall e | e in Merge(es)[sent..] :: c.Fits(e)
    ensures Buffer.Holds(c, Buffer.Frame(c, Merge(es)[sent..]), Merge(es)[sent..])
  {
    SharedFile.MergedAreSettled(c, es);
    hide Merge, Buffer.Codec.Lawful, Buffer.Codec.IsSettled, Buffer.Codec.Fits, Buffer.Holds;
    var rest := Merge(es)[sent..];
    forall i | 0 <= i < |rest| ensures c.IsSettled(rest[i]) && c.Fits(rest[i]) {
      assert rest[i] in rest;
    }
    Buffer.FrameHolds(c, rest);
  }

  /** What a reader finds of the events that a flush puts back. */
  lemma PutBackIsRead(c: Buffer.Codec, es: seq<LogEvent>, sent: nat)
    requires c.Lawful() && sent <= |Merge(es)|
    requires forall e | e in Merge(es)[sent..] :: c.Fits(e)
    ensures var rest := Merge(es)[sent..];
            && Buffer.Scan(c, Buffer.Frame(c, rest)) == Buffer.StoredAll(c, rest)
            && (SharedFile.AllSettled(c, es) ==> Buffer.StoredAll(c, rest) == rest)
  {
    hide Merge, Buffer.Codec.Lawful, Buffer.Codec.Fits, Buffer.Scan, Buffer.Holds, SharedFile.AllSettled;
    var rest := Merge(es)[sent..];
    assert forall i | 0 <= i < |rest| :: rest[i] in rest;
    Buffer.FrameIsRead(c, rest);
    if SharedFile.AllSettled(c, es) {
      RequeuedIsRead(c, es, sent);
      Buffer.HeldIsScanned(c, Buffer.Frame(c, rest), rest);
    }
  }

  // ---------- The logger ----------

  class Logger {
    const buf: Buffer.Buffer
    const client: Client.Client
    const validator: Validator.Validator
    const anonymizer: Option<Anonymizer.Anonymizer>
    const engine: Engine
    const printer: Validator.Printer
    const sha: Sha256
    const salt: string
    const recorder: Recorder
    const product: string
    const build: string
    const internal: bool
    const deviceID: string
    const session: string
    const bucket: Int64

    constructor (
      buf: Buffer.Buffer, client: Client.Client, validator: Validator.Validator,
      anonymizer: Option<Anonymizer.Anonymizer>, engine: Engine, printer: Validator.Printer, sha: Sha256,
      salt: string, recorder: Recorder, product: string, build: string, internal: bool,
      deviceID: string, session: string, bucket: Int64)
      modifies buf.file
      ensures this.buf == buf && this.client == client && this.validator == validator
      ensures this.anonymizer == anonymizer && this.engine == engine && this.printer == printer
      ensures this.sha == sha && this.salt == salt && this.recorder == recorder && this.product == product
      ensures this.build == build && this.internal == internal && this.deviceID == deviceID
      ensures this.session == session && this.bucket == bucket
      ensures buf.file.content ==
              if old(buf.file.content).None? then None
              else Some(Buffer.TrimBytes(buf.codec, old(buf.file.Bytes()), buf.maxSize))
    {
      this.buf, this.client, this.validator, this.anonymizer := buf, client, validator, anonymizer;
      this.engine, this.printer, this.sha, this.salt := engine, printer, sha, salt;
      this.recorder, this.product, this.build, this.internal := recorder, product, build, internal;
      this.deviceID, this.session, this.bucket := deviceID, session, bucket;
      new;
      buf.Trim();
    }

    /** The event before any stage rewrites it. */
    function NewEvent(group: EventGroup, eventID: string, data: Option<map<string, Value>>, now: Int64): LogEvent {
      LogEvent(recorder, product, Some(map["device" := Anonymize(sha, salt, deviceID)]), internal, now, build,
               session, group, bucket, EventAction(eventID, data, 1), None, None)
    }

    /** The data that reaches the validator: with an anonymizer, the hashed copy of the caller's data. */
    function HashedData(group: string, eventID: string, data: map<string, Value>): map<string, Value> {
      match anonymizer
      case None => data
      case Some(a) =>
        Anonymizer.AnonymizedData(sha, a.salt, data, Anonymizer.FieldsFor(a, group, eventID))
    }

    /** The copy is made before the anonymizer overwrites anything. */
    method PrepareData(group: string, eventID: string, data: MapObj, ghost t: Shape)
      returns (prepared: map<string, Value>)
      requires t.MapShape? && Represents(MapRef(data), t)
      ensures prepared == HashedData(group, eventID, t.Content().fields)
    {
      match anonymizer {
        case None =>
          prepared := ReadData(data, t);
        case Some(a) =>
          var copy, u := CloneEventData(data, t);
          ghost var w := Anonymizer.AnonymizeEvent(sha, a, group, eventID, copy, u);
          prepared := ReadData(copy, w);
      }
    }

    /** What becomes of a tracked event with this data: checked is what the validator made of it, written what
        the escaper made of that. */
    ghost predicate IsTracked(
      group: EventGroup, eventID: string, data: Option<map<string, Value>>, now: Int64,
      checked: Option<LogEvent>, written: LogEvent)
    {
      var hashed := if data.None? then None else Some(HashedData(group.id, eventID, data.value));
      && Validator.IsValidated(engine, printer, validator, NewEvent(group, eventID, hashed, now), checked)
      && (checked.Some? ==> IsEscapedEvent(checked.value, written))
    }

    /** Runs an event through the pipeline and appends it to the file. The caller's data keeps its content and its
        shape, with any sharing in it; only the event file changes. */
    method Track(group: EventGroup, eventID: string, data: Option<MapObj>, now: Int64, ghost t: Shape)
      returns (drop: Option<DropReason>, ghost checked: Option<LogEvent>, ghost written: LogEvent)
      requires data.Some? ==> t.MapShape? && Represents(MapRef(data.value), t) && buf.file !in t.Objs()
      modifies buf.file
      ensures data.Some? ==> Represents(MapRef(data.value), t)
      ensures drop == Some(TooManyFields) <==> data.Some? && |t.kids| > 10
      ensures drop != Some(TooManyFields) ==>
                IsTracked(group, eventID, if data.None? then None else Some(t.Content().fields), now, checked, written)
      ensures drop != Some(TooManyFields) ==>
                drop == if checked.None? then Some(ValidationRejected)
                        else if buf.codec.encode(written).None? then Some(BufferWriteFailed) else None
      ensures buf.file.content ==
              if drop == Some(TooManyFields) || drop == Some(ValidationRejected) then old(buf.file.content)
              else Some(Buffer.AppendBytes(buf.codec, old(buf.file.Bytes()), written))
    {
      hide IsEscapedEvent;
      checked, written := None, NewEvent(group, eventID, None, now);
      if data.Some? {
        assert data.value.entries.Keys == t.kids.Keys && |data.value.entries| == |data.value.entries.Keys|;
        if |data.value.entries| > MAX_DATA_FIELDS {
          return Some(TooManyFields), checked, written;
        }
      }
      var prepared: Option<map<string, Value>> := None;
      if data.Some? {
        var p := PrepareData(group.id, eventID, data.value, t);
        prepared := Some(p);
      }
      var r := Validator.Validate(engine, printer, validator, NewEvent(group, eventID, prepared, now));
      checked := r;
      if r.None? {
        return Some(ValidationRejected), checked, written;
      }
      var w := EscapeLogEvent(r.value);
      written := w;
      var ok := buf.Append(w);
      if !ok {
        return Some(BufferWriteFailed), checked, written;
      }
      return None, checked, written;
    }

    /** Takes the whole file, merges it, sends it in batches, and puts back what was not acknowledged. What was
        acknowledged and what was put back are together exactly the merged events, in order. */
    method Flush() returns (ok: bool, ghost sent: nat)
      modifies buf.file, client
      ensures var merged := Merge(old(buf.Events()));
              && sent <= |merged| && (ok <==> sent == |merged|) && (!ok ==> sent % 500 == 0)
              && client.Acked() == old(client.Acked()) + merged[..sent]
              && buf.file.Bytes() == Buffer.Frame(buf.codec, merged[sent..])
      ensures var rest := Merge(old(buf.Events()))[sent..];
              buf.codec.Lawful() && (forall e | e in rest :: buf.codec.Fits(e)) ==>
                && buf.Events() == Buffer.StoredAll(buf.codec, rest)
                && (SharedFile.AllSettled(buf.codec, old(buf.Events())) ==> buf.Events() == rest)
    {
      hide Client.Posted, Client.BatchesRetried, Merge, Buffer.Scan, Buffer.Frame, Buffer.StoredAll;
      hide Buffer.Codec.Fits, Buffer.Codec.Lawful, SharedFile.AllSettled;
      NothingLeft(buf.codec);
      var events := buf.ReadAndClear();
      if |events| == 0 {
        sent := 0;
        if buf.codec.Lawful() {
          PutBackIsRead(buf.codec, [], 0);
        }
        return true, 0;
      }
      var merged := MergeEvents(events);
      var n, accepted, _ := client.SendBatched(merged);
      sent := n;
      if !accepted {
        PutBack(merged[n..]);
      } else {
        assert merged[n..] == [];
      }
      if buf.codec.Lawful() && forall e | e in merged[n..] :: buf.codec.Fits(e) {
        PutBackIsRead(buf.codec, events, n);
      }
      return accepted, n;
    }

    /** Appends the events one by one; one that cannot be written is given up. */
    method PutBack(events: seq<LogEvent>)
      requires buf.file.Bytes() == []
      modifies buf.file
      ensures buf.file.Bytes() == Buffer.Frame(buf.codec, events)
    {
      for i := 0 to |events|
        invariant buf.file.Bytes() == Buffer.Frame(buf.codec, events[..i])
      {
        assert events[..i + 1][..i] == events[..i];
        var _ := buf.Append(events[i]);
      }
      assert events[..|events|] == events;
    }
  }

  /** An undisturbed flush is a run of the delivery protocol: from any state of the protocol whose file the buffer
      holds, it leads to the state whose file the buffer holds now. */
  lemma FlushRefinesProtocol(
    c: Buffer.Codec, before: seq<Buffer.Byte>, after: seq<Buffer.Byte>, sent: nat, s: Delivery.State, logger: nat)
    returns (steps: seq<Delivery.Step>)
    requires c.Lawful() && Buffer.Holds(c, before, s.file) && Delivery.MutexFree(s, logger)
    requires sent <= |Merge(s.file)| && (sent == |Merge(s.file)| || sent % Client.MAX_BATCH_SIZE == 0)
    requires after == Buffer.Frame(c, Merge(s.file)[sent..])
    requires forall e | e in Merge(s.file)[sent..] :: c.Fits(e)
    ensures Delivery.Runs(s, steps, Delivery.AfterFlush(s, logger, sent))
    ensures Buffer.Holds(c, after, Delivery.AfterFlush(s, logger, sent).file)
    ensures Delivery.AfterFlush(s, logger, sent).acked == s.acked + Merge(s.file)[..sent]
  {
    hide Merge, Buffer.Holds, Buffer.Codec.Fits, Buffer.Codec.Lawful, Delivery.Runs, SharedFile.AllSettled;
    SharedFile.HeldAreSettled(c, before, s.file);
    RequeuedIsRead(c, s.file, sent);
    steps := Delivery.FlushIsARun(s, logger, sent);
  }
}
