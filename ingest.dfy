/** The batch loop of `SQSToPostgres.fetchDataFromSQS`: for each received message, in order,
    build the record, delete the message by its receipt handle, then yield the record. The queue
    calls are replaced by the batch `receive_message` returned and by the queue's answer to each
    `delete_message`; deletions and yields are recorded in a trace of events. */
module Ingest {
  import opened Values
  import opened Transform

  /** One entry of the response's `Messages` list. A missing key is `None`. */
  datatype RawMessage = RawMessage(messageId: Option<string>, receiptHandle: Option<string>, body: Option<Body>)

  /** What the queue does with `delete_message(ReceiptHandle = h)`: `accepts(h)` is false when it
      answers with a `ClientError`. */
  datatype Queue = Queue(accepts: string -> bool)

  datatype Event = Deleted(handle: string) | Yielded(record: Record)

  /** The ways the generator can stop raising. */
  datatype Failure =
    | VersionParseError   // `int()` or `.split` failed on `app_version` (unguarded copy only)
    | DeleteRejected      // `delete_message` raised `ClientError`, which is logged and re-raised

  /** How the generator ends: the batch ran out, a `KeyError` was logged and swallowed, or an
      exception escaped to the consumer. */
  datatype Outcome = Exhausted | KeyErrorLogged | Raised(failure: Failure)

  /** What processing one message does: delete and yield, or stop the batch. */
  datatype MessageStep = Emit(handle: string, record: Record) | Stop(outcome: Outcome)

  function ProcessOne(v: Variant, m: RawMessage, env: Env, q: Queue): (s: MessageStep)
    ensures s.Emit? <==> && m.messageId.Some?
                         && TransformMessage(v, m.messageId.value, m.body, env).Some?
                         && m.receiptHandle.Some?
                         && q.accepts(m.receiptHandle.value)
    ensures s.Emit? ==> && s.handle == m.receiptHandle.value
                        && s.record == TransformMessage(v, m.messageId.value, m.body, env).value
    ensures s.Stop? ==> s.outcome != Exhausted
    ensures s.Stop? && m.messageId.None? ==> s.outcome == KeyErrorLogged
    ensures (&& m.messageId.Some?
             && TransformMessage(v, m.messageId.value, m.body, env).None?)
            ==> s == Stop(Raised(VersionParseError))
    ensures (&& m.messageId.Some?
             && TransformMessage(v, m.messageId.value, m.body, env).Some?
             && m.receiptHandle.None?)
            ==> s == Stop(KeyErrorLogged)
    ensures (&& m.messageId.Some?
             && TransformMessage(v, m.messageId.value, m.body, env).Some?
             && m.receiptHandle.Some? && !q.accepts(m.receiptHandle.value))
            ==> s == Stop(Raised(DeleteRejected))
  {
    match m.messageId
    case None => Stop(KeyErrorLogged)
    case Some(id) =>
      match TransformMessage(v, id, m.body, env)
      case None => Stop(Raised(VersionParseError))
      case Some(rec) =>
        match m.receiptHandle
        case None => Stop(KeyErrorLogged)
        case Some(h) => if q.accepts(h) then Emit(h, rec) else Stop(Raised(DeleteRejected))
  }

  /** The events and the ending of the loop over `msgs`. */
  function RunBatch(v: Variant, msgs: seq<RawMessage>, env: Env, q: Queue): (r: (seq<Event>, Outcome))
    ensures |r.0| <= 2 * |msgs|
    ensures r.1 == Exhausted <==> |r.0| == 2 * |msgs|
  {
    if |msgs| == 0 then ([], Exhausted)
    else match ProcessOne(v, msgs[0], env, q)
      case Stop(o) => ([], o)
      case Emit(h, rec) =>
        var rest := RunBatch(v, msgs[1..], env, q);
        ([Deleted(h), Yielded(rec)] + rest.0, rest.1)
  }

  /** The whole generator, given the `receive_message` response's `Messages` entry (`None` when the
      key is absent): nothing happens unless the list is present and non-empty. */
  function Fetch(v: Variant, messages: Option<seq<RawMessage>>, env: Env, q: Queue): (r: (seq<Event>, Outcome))
    ensures messages.None? ==> r == ([], Exhausted)
    ensures messages.Some? ==> |r.0| <= 2 * |messages.value|
    ensures messages.Some? ==> (r.1 == Exhausted <==> |r.0| == 2 * |messages.value|)
  {
    if messages.Some? && |messages.value| > 0 then RunBatch(v, messages.value, env, q)
    else ([], Exhausted)
  }

  /** The records a trace yields, in order. */
  function Yields(trace: seq<Event>): seq<Record>
  {
    if |trace| == 0 then []
    else (if trace[0].Yielded? then [trace[0].record] else []) + Yields(trace[1..])
  }

  /** How many messages at the front of `msgs` are deleted and yielded. */
  function Processed(v: Variant, msgs: seq<RawMessage>, env: Env, q: Queue): (n: nat)
    ensures n <= |msgs|
  {
    if |msgs| == 0 || ProcessOne(v, msgs[0], env, q).Stop? then 0
    else 1 + Processed(v, msgs[1..], env, q)
  }

  lemma {:induction false} YieldsAppend(a: seq<Event>, b: seq<Event>)
    ensures Yields(a + b) == Yields(a) + Yields(b)
  {
    if |a| > 0 {
      assert (a + b)[1..] == a[1..] + b;
      YieldsAppend(a[1..], b);
    } else {
      assert a + b == b;
    }
  }

  /** The shape of every batch: the first `n` messages are each deleted and then yielded, in list
      order, as two consecutive events; nothing else happens. The batch ends `Exhausted` when all
      messages were processed, and otherwise as message `n` stopped it, so that message is neither
      deleted nor yielded and no later message is looked at. */
  lemma {:induction false} BatchShape(v: Variant, msgs: seq<RawMessage>, env: Env, q: Queue)
    ensures var (trace, outcome) := RunBatch(v, msgs, env, q);
            var n := Processed(v, msgs, env, q);
            && |trace| == 2 * n
            && (forall k :: 0 <= k < n ==>
                  && ProcessOne(v, msgs[k], env, q).Emit?
                  && trace[2 * k] == Deleted(ProcessOne(v, msgs[k], env, q).handle)
                  && trace[2 * k + 1] == Yielded(ProcessOne(v, msgs[k], env, q).record))
            && (n < |msgs| ==> ProcessOne(v, msgs[n], env, q).Stop?)
            && outcome == if n == |msgs| then Exhausted else ProcessOne(v, msgs[n], env, q).outcome
  {
    if |msgs| > 0 && ProcessOne(v, msgs[0], env, q).Emit? {
      BatchShape(v, msgs[1..], env, q);
      var (trace, outcome) := RunBatch(v, msgs, env, q);
      var s := ProcessOne(v, msgs[0], env, q);
      var rest := RunBatch(v, msgs[1..], env, q).0;
      assert trace == [Deleted(s.handle), Yielded(s.record)] + rest;
      var n := Processed(v, msgs, env, q);
      assert n == 1 + Processed(v, msgs[1..], env, q);
      forall k | 0 <= k < n
        ensures && ProcessOne(v, msgs[k], env, q).Emit?
                && trace[2 * k] == Deleted(ProcessOne(v, msgs[k], env, q).handle)
                && trace[2 * k + 1] == Yielded(ProcessOne(v, msgs[k], env, q).record)
      {
        if k > 0 {
          assert msgs[1..][k - 1] == msgs[k];
          assert trace[2 * k] == rest[2 * (k - 1)];
          assert trace[2 * k + 1] == rest[2 * (k - 1) + 1];
        }
      }
      if n < |msgs| {
        assert msgs[1..][n - 1] == msgs[n];
      }
    }
  }

  /** The guarded copy never lets a version error escape: its batch ends exhausted, on a logged
      `KeyError`, or on a rejected delete. */
  lemma GuardedNeverRaisesVersionError(msgs: seq<RawMessage>, env: Env, q: Queue)
    ensures RunBatch(Guarded, msgs, env, q).1 != Raised(VersionParseError)
  {
    BatchShape(Guarded, msgs, env, q);
    var n := Processed(Guarded, msgs, env, q);
    if n < |msgs| && msgs[n].messageId.Some? {
      CreateDateStamped(Guarded, msgs[n].messageId.value, msgs[n].body, env);
    }
  }

  /** A message without a body is still deleted and yields exactly `{MessageId}`. */
  lemma BodylessMessage(v: Variant, id: string, h: string, env: Env, q: Queue)
    requires q.accepts(h)
    ensures ProcessOne(v, RawMessage(Some(id), Some(h), None), env, q)
            == Emit(h, map["MessageId" := JStr(id)])
  {
  }

  /** In the unguarded copy a version that does not coerce ends the batch with the exception
      escaping, before that message is deleted. */
  lemma UnguardedVersionErrorEscapes(msgs: seq<RawMessage>, env: Env, q: Queue, i: nat)
    requires |msgs| > 0 && msgs[0].messageId.Some? && msgs[0].body.Some?
    requires i < |msgs[0].body.value| && Raises(Unguarded, msgs[0].body.value[i])
    ensures RunBatch(Unguarded, msgs, env, q) == ([], Raised(VersionParseError))
  {
    UnguardedAgrees(msgs[0].messageId.value, msgs[0].body, env);
  }

  /** Where the loop of `FetchDataFromQueue` stands after `i` messages: the events so far followed by
      those of the rest of the batch are the events of the whole batch, the rest of the batch
      decides how it ends, and the records returned are the ones yielded. */
  ghost predicate Progress(v: Variant, msgs: seq<RawMessage>, env: Env, q: Queue, i: nat,
                           trace: seq<Event>, records: seq<Record>)
  {
    && i <= |msgs|
    && RunBatch(v, msgs, env, q).0 == trace + RunBatch(v, msgs[i..], env, q).0
    && RunBatch(v, msgs, env, q).1 == RunBatch(v, msgs[i..], env, q).1
    && records == Yields(trace)
  }

  lemma ProgressStart(v: Variant, msgs: seq<RawMessage>, env: Env, q: Queue)
    ensures Progress(v, msgs, env, q, 0, [], [])
  {
  }

  /** Message `i` is deleted and yielded: its two events and its record are appended. */
  lemma ProgressEmit(v: Variant, msgs: seq<RawMessage>, env: Env, q: Queue, i: nat,
                     trace: seq<Event>, records: seq<Record>, h: string, rec: Record)
    requires Progress(v, msgs, env, q, i, trace, records)
    requires i < |msgs| && ProcessOne(v, msgs[i], env, q) == Emit(h, rec)
    ensures Progress(v, msgs, env, q, i + 1, trace + [Deleted(h), Yielded(rec)], records + [rec])
  {
    var pair := [Deleted(h), Yielded(rec)];
    assert msgs[i..][0] == msgs[i] && msgs[i..][1..] == msgs[i + 1..];
    var rest := RunBatch(v, msgs[i + 1..], env, q).0;
    assert RunBatch(v, msgs[i..], env, q).0 == pair + rest;
    assert trace + (pair + rest) == (trace + pair) + rest;
    assert pair[1..][1..] == [];
    assert Yields(pair[1..]) == [rec];
    assert Yields(pair) == [rec];
    YieldsAppend(trace, pair);
  }

  /** Message `i` stops the batch: nothing more happens and the batch ends as that message says. */
  lemma ProgressStop(v: Variant, msgs: seq<RawMessage>, env: Env, q: Queue, i: nat,
                     trace: seq<Event>, records: seq<Record>)
    requires Progress(v, msgs, env, q, i, trace, records)
    requires i < |msgs| && ProcessOne(v, msgs[i], env, q).Stop?
    ensures RunBatch(v, msgs, env, q) == (trace, ProcessOne(v, msgs[i], env, q).outcome)
  {
    assert msgs[i..][0] == msgs[i];
    assert trace + [] == trace;
  }

  /** Every message was deleted and yielded: the batch is exhausted. */
  lemma ProgressEnd(v: Variant, msgs: seq<RawMessage>, env: Env, q: Queue,
                    trace: seq<Event>, records: seq<Record>)
    requires Progress(v, msgs, env, q, |msgs|, trace, records)
    ensures RunBatch(v, msgs, env, q) == (trace, Exhausted)
  {
    assert msgs[|msgs|..] == [];
    assert trace + [] == trace;
  }

  /** The body of the loop of `fetchDataFromSQS` up to the yield: read the id, build the record,
      read the receipt handle and delete the message. */
  method HandleMessage(v: Variant, m: RawMessage, env: Env, q: Queue) returns (s: MessageStep)
    ensures s == ProcessOne(v, m, env, q)
  {
    if m.messageId.None? {
      return Stop(KeyErrorLogged);
    }
    var rec := BuildRecord(v, m.messageId.value, m.body, env);
    if rec.None? {
      return Stop(Raised(VersionParseError));
    }
    if m.receiptHandle.None? {
      return Stop(KeyErrorLogged);
    }
    var h := m.receiptHandle.value;
    if !q.accepts(h) {
      return Stop(Raised(DeleteRejected));
    }
    return Emit(h, rec.value);
  }

  /** `fetchDataFromSQS` after `receive_message`: returns the records yielded and how the generator
      ended; the ghost `trace` records each deletion and each yield in order. */
  method FetchDataFromQueue(v: Variant, messages: Option<seq<RawMessage>>, env: Env, q: Queue)
    returns (records: seq<Record>, outcome: Outcome, ghost trace: seq<Event>)
    ensures outcome == Fetch(v, messages, env, q).1
    ensures records == Yields(Fetch(v, messages, env, q).0)
    ensures trace == Fetch(v, messages, env, q).0
  {
    records, outcome, trace := [], Exhausted, [];
    if messages.None? || |messages.value| == 0 {
      return;
    }
    var msgs := messages.value;
    var i := 0;
    ProgressStart(v, msgs, env, q);
    while i < |msgs|
      invariant Progress(v, msgs, env, q, i, trace, records)
    {
      var step := HandleMessage(v, msgs[i], env, q);
      if step.Stop? {
        ProgressStop(v, msgs, env, q, i, trace, records);
        outcome := step.outcome;
        return;
      }
      ProgressEmit(v, msgs, env, q, i, trace, records, step.handle, step.record);
      trace := trace + [Deleted(step.handle), Yielded(step.record)];
      records := records + [step.record];
      i := i + 1;
    }
    ProgressEnd(v, msgs, env, q, trace, records);
  }
}
