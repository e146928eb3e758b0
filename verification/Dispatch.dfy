/**
 The WhatsApp dispatch store and the dispatch handler, proved to take exactly the steps the worker
 protocol allows.
 */
module Dispatch {
  import opened Wrappers
  import opened Text
  import opened Workers

  const MAX_DIGEST_LENGTH := 2000

  function ReadString(payload: map<string, string>, key: string): string {
    if key in payload then Trim(payload[key]) else ""
  }

  function NormalizeDispatchType(kind: string): string {
    if Fold(kind) in {"homework_digest", "homework_photo", "weekly_digest", "manual"} then Fold(kind) else "manual"
  }

  // len of a Go string: its bytes in UTF-8
  function Utf8Length(s: string): nat {
    if s == "" then 0
    else
      var c := s[0] as int;
      (if c < 0x80 then 1 else if c < 0x800 then 2 else if c < 0x10000 then 3 else 4) + Utf8Length(s[1..])
  }

  // Plain text has one byte a character, and no text has more than four.
  lemma {:induction false} Utf8LengthBounds(s: string)
    ensures |s| <= Utf8Length(s) <= 4 * |s|
    ensures (forall i :: 0 <= i < |s| ==> s[i] as int < 0x80) ==> Utf8Length(s) == |s|
  {
    if s != "" {
      Utf8LengthBounds(s[1..]);
    }
  }

  predicate ValidPayload(kind: string, message: string, objectKey: string) {
    match Trim(kind)
    case "homework_digest" => !Blank(message) && Utf8Length(Trim(message)) <= MAX_DIGEST_LENGTH
    case "weekly_digest" => !Blank(message) && Utf8Length(Trim(message)) <= MAX_DIGEST_LENGTH
    case "homework_photo" => !Blank(objectKey)
    case _ => !Blank(message) || !Blank(objectKey)
  }

  function Kind(payload: map<string, string>): string {
    NormalizeDispatchType(ReadString(payload, "kind"))
  }

  function Message(payload: map<string, string>): string {
    var message := ReadString(payload, "message");
    if message == "" && Kind(payload) == "homework_digest" then
      var date := ReadString(payload, "date");
      "Homework digest for " + if date == "" then "today" else date
    else message
  }

  predicate Acceptable(payload: map<string, string>) {
    ValidPayload(Kind(payload), Message(payload), ReadString(payload, "object_key"))
  }

  // A payload entry without the spaces around it; empty if it is missing
  function Entry(payload: map<string, string>, name: string): string {
    if name in payload then Trim(payload[name]) else ""
  }

  // The payload has what its kind needs: a digest its text, for a homework digest by default a standard
  // one, of at most 2000 bytes; a photo its object key; any other message a text or an object key.
  predicate Sendable(payload: map<string, string>) {
    var kind, text, objectKey := Lower(Entry(payload, "kind")), Entry(payload, "message"), Entry(payload, "object_key");
    if kind == "homework_digest" then
      var day := if Entry(payload, "date") == "" then "today" else Entry(payload, "date");
      Utf8Length(if text == "" then "Homework digest for " + day else text) <= 2000
    else if kind == "weekly_digest" then text != "" && Utf8Length(text) <= 2000
    else if kind == "homework_photo" then objectKey != ""
    else text != "" || objectKey != ""
  }

  lemma TrimmedEntry(payload: map<string, string>, name: string)
    ensures Trim(Entry(payload, name)) == Entry(payload, name) && ReadString(payload, name) == Entry(payload, name)
  {
    TrimFixesExactlyUnpadded(Entry(payload, name));
    hide Trim;
  }

  lemma DefaultDigest(day: string)
    requires day != "" && Trim(day) == day
    ensures Trim("Homework digest for " + day) == "Homework digest for " + day
  {
    TrimFixesExactlyUnpadded(day);
    hide Trim;
    TrimFixesExactlyUnpadded("Homework digest for " + day);
  }

  lemma KnownKinds(raw: string)
    requires Trim(raw) == raw
    ensures NormalizeDispatchType(raw)
         == if Lower(raw) in {"homework_digest", "homework_photo", "weekly_digest"} then Lower(raw) else "manual"
    ensures Trim(NormalizeDispatchType(raw)) == NormalizeDispatchType(raw)
  {
    FoldIsIdempotent(raw);
    assert Trim("manual") == "manual" by {
      hide Trim;
      TrimFixesExactlyUnpadded("manual");
    }
    hide Trim, Lower;
  }

  lemma TodayIsTrimmed()
    ensures Trim("today") == "today"
  {
    hide Trim;
    TrimFixesExactlyUnpadded("today");
  }

  // The handler accepts exactly the sendable payloads.
  lemma SendableIsAcceptable(payload: map<string, string>)
    ensures Acceptable(payload) <==> Sendable(payload)
  {
    var kind, text, day, objectKey := Entry(payload, "kind"), Entry(payload, "message"), Entry(payload, "date"), Entry(payload, "object_key");
    TrimmedEntry(payload, "kind");
    TrimmedEntry(payload, "message");
    TrimmedEntry(payload, "date");
    TrimmedEntry(payload, "object_key");
    KnownKinds(kind);
    TodayIsTrimmed();
    hide Trim, Lower, Utf8Length, NormalizeDispatchType, ReadString, Entry;
    DefaultDigest(if day == "" then "today" else day);
  }

  // The object key is the URL of a file.
  predicate HasMediaFile(payload: map<string, string>) {
    var objectKey := Entry(payload, "object_key");
    |objectKey| > 7 && objectKey[..7] == "file://" && !Blank(objectKey[7..])
  }

  lemma MediaFileIsNamed(payload: map<string, string>)
    ensures NamesMediaFile(ReadString(payload, "object_key")) <==> HasMediaFile(payload)
  {
    TrimmedEntry(payload, "object_key");
    assert Blank("") by {
      TrimFixesExactlyUnpadded("");
    }
    hide Trim, Blank, Entry;
    var objectKey := Entry(payload, "object_key");
    assert |objectKey| == 7 ==> objectKey[7..] == "";
  }

  // Every call of the handler works.
  predicate Working(w: World) {
    && w.studentIdValid && w.upsertStored && w.upsertAcknowledged && w.delivered && w.markFailedStored && w.markSentStored
    && w.markSentAcknowledged && w.mediaRemoved
  }

  // The media file that removeMediaObject deletes, if the key names one
  predicate NamesMediaFile(objectKey: string) {
    var trimmed := Trim(objectKey);
    "file://" <= trimmed && !Blank(trimmed[7..])
  }

  // What the database, the provider and the file system do during one call of the handler
  datatype World = World(
    studentIdValid: bool, upsertStored: bool, upsertAcknowledged: bool, delivered: bool, mediaMissing: bool,
    markFailedStored: bool, markSentStored: bool, markSentAcknowledged: bool, mediaRemoved: bool)

  predicate Possible(w: World) {
    (w.upsertAcknowledged ==> w.upsertStored) && (w.markSentAcknowledged ==> w.markSentStored)
  }

  // The protocol steps of one uninterrupted call of the handler for grant t, at one moment
  function HandlerSteps(s: System, t: nat, payload: map<string, string>, w: World, at: int): seq<Event>
    requires t < |s.grants|
  {
    if !w.studentIdValid then [Return(at, t, Permanent)]
    else if !w.upsertAcknowledged then [UpsertPending(at, t, w.upsertStored, false)]
    else if Sent(s, s.grants[t].key) then [UpsertPending(at, t, true, true)]
    else if !Acceptable(payload) then
      [UpsertPending(at, t, true, true), RejectPayload(at, t), MarkFailed(at, t, w.markFailedStored)]
    else if !w.delivered then
      [UpsertPending(at, t, true, true), Send(at, t, false, w.mediaMissing), MarkFailed(at, t, w.markFailedStored)]
    else if !w.markSentAcknowledged then
      [UpsertPending(at, t, true, true), Send(at, t, true, false), MarkSent(at, t, w.markSentStored, false)]
    else
      [UpsertPending(at, t, true, true), Send(at, t, true, false), MarkSent(at, t, true, true),
       RemoveMedia(at, t, w.mediaRemoved || !NamesMediaFile(ReadString(payload, "object_key")))]
  }

  ghost predicate Executes(s: System, es: seq<Event>, s': System)
    decreases |es|
  {
    if es == [] then s' == s else Legal(s, es[0]) && Executes(Step(s, es[0]), es[1..], s')
  }

  function Handled(records: map<string, RecordStatus>, key: string, payload: map<string, string>, w: World)
    : (r: (map<string, RecordStatus>, Outcome))
  {
    if !w.studentIdValid then (records, Permanent)
    else if !w.upsertAcknowledged then (if w.upsertStored then Upserted(records, key) else records, Transient)
    else
      var upserted := Upserted(records, key);
      if upserted[key] == RecordSent then (upserted, Ok)
      else if !Acceptable(payload) then
        (if w.markFailedStored then upserted[key := RecordFailed] else upserted, Permanent)
      else if !w.delivered then
        (if w.markFailedStored then upserted[key := RecordFailed] else upserted,
         if w.mediaMissing then Permanent else Transient)
      else if !w.markSentAcknowledged then
        (if w.markSentStored then upserted[key := RecordSent] else upserted, Transient)
      else
        (upserted[key := RecordSent],
         if w.mediaRemoved || !NamesMediaFile(ReadString(payload, "object_key")) then Ok else Transient)
  }

  function AtPc(s: System, t: nat, pc: Pc, records: map<string, RecordStatus>): System
    requires t < |s.grants|
  {
    s.(grants := s.grants[t := s.grants[t].(pc := pc)], records := records)
  }

  // One step of grant t, taken from a state that differs from s in that grant and the records only
  lemma Advance(s: System, t: nat, pc: Pc, records: map<string, RecordStatus>, e: Event, rest: seq<Event>, target: System)
    requires t < |s.grants| && OfWorker(e) && e.t == t
    requires Legal(AtPc(s, t, pc, records), e) && QueueEvent(AtPc(s, t, pc, records), e).None?
    requires
      var here := AtPc(s, t, pc, records);
      Executes(AtPc(s, t, NextPc(here, here.grants[t], e), NextRecords(here, here.grants[t], e)), rest, target)
    ensures Executes(AtPc(s, t, pc, records), [e] + rest, target)
  {
    var here := AtPc(s, t, pc, records);
    WorkerStepEffect(here, e);
    assert Step(here, e) == AtPc(s, t, NextPc(here, here.grants[t], e), NextRecords(here, here.grants[t], e));
    assert ([e] + rest)[1..] == rest;
  }

  function Upserted(records: map<string, RecordStatus>, key: string): map<string, RecordStatus> {
    if key in records then records else records[key := RecordPending]
  }

  predicate Fresh(s: System, t: nat) {
    t < |s.grants| && s.grants[t].pc == Start && s.grants[t].jobType == DISPATCH
  }

  lemma UndeliveredPath(s: System, t: nat, at: int, second: Event, stored: bool)
    requires Fresh(s, t) && !Sent(s, s.grants[t].key)
    requires second == RejectPayload(at, t) || (exists m :: second == Send(at, t, false, m))
    ensures
      var records := Upserted(s.records, s.grants[t].key);
      var outcome := if second.RejectPayload? || second.mediaMissing then Permanent else Transient;
      Executes(s, [UpsertPending(at, t, true, true), second, MarkFailed(at, t, stored)],
               AtPc(s, t, Returned(outcome), if stored then records[s.grants[t].key := RecordFailed] else records))
  {
    hide Step;
    var records, permanent := Upserted(s.records, s.grants[t].key), second.RejectPayload? || second.mediaMissing;
    var target := AtPc(s, t, Returned(if permanent then Permanent else Transient),
                       if stored then records[s.grants[t].key := RecordFailed] else records);
    assert AtPc(s, t, Start, s.records) == s;
    Advance(s, t, Undelivered(permanent), records, MarkFailed(at, t, stored), [], target);
    Advance(s, t, Ready, records, second, [MarkFailed(at, t, stored)], target);
    Advance(s, t, Start, s.records, UpsertPending(at, t, true, true), [second, MarkFailed(at, t, stored)], target);
  }

  lemma UnmarkedPath(s: System, t: nat, at: int, stored: bool)
    requires Fresh(s, t) && !Sent(s, s.grants[t].key)
    ensures
      var records := Upserted(s.records, s.grants[t].key);
      Executes(s, [UpsertPending(at, t, true, true), Send(at, t, true, false), MarkSent(at, t, stored, false)],
               AtPc(s, t, Returned(Transient), if stored then records[s.grants[t].key := RecordSent] else records))
  {
    hide Step;
    var records, marked := Upserted(s.records, s.grants[t].key), MarkSent(at, t, stored, false);
    var target := AtPc(s, t, Returned(Transient), if stored then records[s.grants[t].key := RecordSent] else records);
    assert AtPc(s, t, Start, s.records) == s;
    Advance(s, t, Delivered, records, marked, [], target);
    Advance(s, t, Ready, records, Send(at, t, true, false), [marked], target);
    Advance(s, t, Start, s.records, UpsertPending(at, t, true, true), [Send(at, t, true, false), marked], target);
  }

  lemma MarkedPath(s: System, t: nat, at: int, removed: bool)
    requires Fresh(s, t) && !Sent(s, s.grants[t].key)
    ensures Executes(s, [UpsertPending(at, t, true, true), Send(at, t, true, false), MarkSent(at, t, true, true), RemoveMedia(at, t, removed)],
                     AtPc(s, t, Returned(if removed then Ok else Transient),
                          Upserted(s.records, s.grants[t].key)[s.grants[t].key := RecordSent]))
  {
    hide Step;
    var records := Upserted(s.records, s.grants[t].key);
    var sent := records[s.grants[t].key := RecordSent];
    var target := AtPc(s, t, Returned(if removed then Ok else Transient), sent);
    var marked, removal := MarkSent(at, t, true, true), RemoveMedia(at, t, removed);
    assert AtPc(s, t, Start, s.records) == s;
    Advance(s, t, Marked, sent, removal, [], target);
    Advance(s, t, Delivered, records, marked, [removal], target);
    Advance(s, t, Ready, records, Send(at, t, true, false), [marked, removal], target);
    Advance(s, t, Start, s.records, UpsertPending(at, t, true, true), [Send(at, t, true, false), marked, removal], target);
  }

  // The handler is a path of the protocol: started on a fresh grant it takes legal steps only, ends
  // having returned its outcome, leaves the records as Handled says and touches nothing else.
  lemma HandlerIsAPath(s: System, t: nat, payload: map<string, string>, w: World, at: int)
    requires Fresh(s, t) && Possible(w)
    ensures
      var result := Handled(s.records, s.grants[t].key, payload, w);
      Executes(s, HandlerSteps(s, t, payload, w, at), AtPc(s, t, Returned(result.1), result.0))
  {
    hide Step, Acceptable, NamesMediaFile, Executes;
    if w.studentIdValid && w.upsertAcknowledged && !Sent(s, s.grants[t].key) {
      if !Acceptable(payload) {
        UndeliveredPath(s, t, at, RejectPayload(at, t), w.markFailedStored);
      } else if !w.delivered {
        UndeliveredPath(s, t, at, Send(at, t, false, w.mediaMissing), w.markFailedStored);
      } else if !w.markSentAcknowledged {
        UnmarkedPath(s, t, at, w.markSentStored);
      } else {
        MarkedPath(s, t, at, w.mediaRemoved || !NamesMediaFile(ReadString(payload, "object_key")));
      }
    } else {
      ShortPath(s, t, payload, w, at);
    }
  }

  lemma ShortPath(s: System, t: nat, payload: map<string, string>, w: World, at: int)
    requires Fresh(s, t) && Possible(w) && !(w.studentIdValid && w.upsertAcknowledged && !Sent(s, s.grants[t].key))
    ensures
      var result := Handled(s.records, s.grants[t].key, payload, w);
      Executes(s, HandlerSteps(s, t, payload, w, at), AtPc(s, t, Returned(result.1), result.0))
  {
    hide Step, Acceptable;
    var result := Handled(s.records, s.grants[t].key, payload, w);
    assert AtPc(s, t, Start, s.records) == s;
    Advance(s, t, Start, s.records, HandlerSteps(s, t, payload, w, at)[0], [], AtPc(s, t, Returned(result.1), result.0));
  }

  class DispatchStore {
    var records: map<string, RecordStatus>

    constructor ()
      ensures records == map[]
    {
      records := map[];
    }

    // INSERT ... ON CONFLICT DO NOTHING, then a look-up; None is a database error
    method UpsertPending(key: string, stored: bool, acknowledged: bool) returns (status: Option<RecordStatus>)
      requires acknowledged ==> stored
      modifies this
      ensures status.Some? <==> acknowledged
      ensures acknowledged ==> key in records && records[key] == status.value
      ensures stored && key !in old(records) ==> records == old(records)[key := RecordPending]
      ensures !stored || key in old(records) ==> records == old(records)
    {
      if stored && key !in records {
        records := records[key := RecordPending];
      }
      status := if acknowledged then Some(records[key]) else None;
    }

    // UPDATE ... WHERE id: changes nothing when the statement fails or no row has the id
    method Mark(key: string, status: RecordStatus, stored: bool)
      modifies this
      ensures stored && key in old(records) ==> records == old(records)[key := status]
      ensures !stored || key !in old(records) ==> records == old(records)
    {
      if stored && key in records {
        records := records[key := status];
      }
    }
  }

  class DispatchProcessor {
    const store: DispatchStore

    constructor (store: DispatchStore)
      ensures this.store == store
    {
      this.store := store;
    }

    // What a message of the payload comes to on the answer of the handler: when every call works and the
    // record was not sent, the message is delivered and recorded exactly if the payload is complete for
    // its kind; otherwise the record is marked failed and the job is not to be retried.
    method HandleJob(key: string, payload: map<string, string>, w: World) returns (outcome: Outcome)
      requires Possible(w)
      modifies store
      ensures (store.records, outcome) == Handled(old(store.records), key, payload, w)
      ensures Working(w) && !(key in old(store.records) && old(store.records)[key] == RecordSent) ==>
                && outcome == (if Sendable(payload) then Ok else Permanent)
                && store.records == old(store.records)[key := if Sendable(payload) then RecordSent else RecordFailed]
      // a media file that cannot be removed is the only thing that can still fail a delivered job
      ensures Working(w.(mediaRemoved := true)) && !w.mediaRemoved && Sendable(payload)
              && !(key in old(store.records) && old(store.records)[key] == RecordSent) ==>
                && store.records == old(store.records)[key := RecordSent]
                && outcome == (if HasMediaFile(payload) then Transient else Ok)
    {
      SendableIsAcceptable(payload);
      MediaFileIsNamed(payload);
      hide Acceptable, NamesMediaFile, Sendable, HasMediaFile;
      if !w.studentIdValid {
        return Permanent;
      }
      var status := store.UpsertPending(key, w.upsertStored, w.upsertAcknowledged);
      if status.None? {
        return Transient;
      }
      if status.value == RecordSent {
        return Ok;
      }
      var valid := Validated(payload);
      if !valid {
        store.Mark(key, RecordFailed, w.markFailedStored);
        return Permanent;
      }
      if !w.delivered {
        store.Mark(key, RecordFailed, w.markFailedStored);
        return if w.mediaMissing then Permanent else Transient;
      }
      store.Mark(key, RecordSent, w.markSentStored);
      if !w.markSentAcknowledged {
        return Transient;
      }
      if NamesMediaFile(ReadString(payload, "object_key")) && !w.mediaRemoved {
        return Transient;
      }
      outcome := Ok;
    }

    // The default message of a homework digest, then validateDispatchPayload
    method Validated(payload: map<string, string>) returns (valid: bool)
      ensures valid == Acceptable(payload)
    {
      hide ReadString, NormalizeDispatchType, ValidPayload;
      var kind := NormalizeDispatchType(ReadString(payload, "kind"));
      var message := ReadString(payload, "message");
      if message == "" && kind == "homework_digest" {
        var date := ReadString(payload, "date");
        if date == "" {
          date := "today";
        }
        message := "Homework digest for " + date;
      }
      valid := ValidPayload(kind, message, ReadString(payload, "object_key"));
    }
  }
}
