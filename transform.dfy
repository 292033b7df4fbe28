/** The per-message transformation inside `SQSToPostgres.fetchDataFromSQS`: a record that starts as
    `{MessageId}`, is updated once per body field in body order, and is stamped with `create_date`.
    Both copies of the class are covered: `Guarded` is utils/sqs_to_postgress.py, which catches a
    failed version parse, and `Unguarded` is sqs_to_postgress.py, where that failure raises. */
module Transform {
  import opened Values
  import opened Coerce

  /** The record dict `postgres_data_dict`. Insertion order is not modelled. */
  type Record = map<string, Json>

  /** A decoded message body, its fields in document order. */
  type Body = seq<Member>

  datatype Variant = Guarded | Unguarded

  /** The environment the transformation reads: SHA-512 hex digest of a UTF-8 string, and the
      processing date as `YYYY-MM-DD`. */
  datatype Env = Env(hash: string -> string, today: string)

  /** `json.loads` builds a dict, so a body has each key at most once. */
  predicate DistinctKeys(body: Body)
  {
    forall i, j :: 0 <= i < j < |body| ==> body[i].key != body[j].key
  }

  /** `encode`: `None` stays `None`; anything else is hashed through its `str()`. */
  function Encode(data: Json, env: Env): (r: Json)
    ensures r == JNull || r.JStr?
    ensures data != JNull ==> r.JStr? && r.s == env.hash(Str(data))
  {
    if data == JNull then JNull else JStr(env.hash(Str(data)))
  }

  /** The key and value a body field writes into the record, or `None` when it writes nothing
      (a version that does not coerce, which the guarded copy only logs). */
  function Write(f: Member, env: Env): (r: Option<(string, Json)>)
    ensures r.None? <==> f.key == "app_version" && VersionNumber(f.value).None?
    ensures f.key !in {"ip", "device_id", "app_version"} ==> r == Some((f.key, f.value))
  {
    if f.key == "ip" then Some(("masked_ip", Encode(f.value, env)))
    else if f.key == "device_id" then Some(("masked_device_id", Encode(f.value, env)))
    else if f.key == "app_version" then
      match VersionNumber(f.value)
      case Some(n) => Some(("app_version", JInt(n)))
      case None => None
    else Some((f.key, f.value))
  }

  /** Whether a body field raises out of the loop: only in the unguarded copy, only a version that
      does not coerce. */
  predicate Raises(v: Variant, f: Member)
  {
    v == Unguarded && f.key == "app_version" && VersionNumber(f.value).None?
  }

  /** One pass of the loop over body fields. */
  function Step(v: Variant, rec: Record, f: Member, env: Env): (r: Option<Record>)
    ensures r.None? <==> Raises(v, f)
    ensures r.Some? ==> rec.Keys <= r.value.Keys
  {
    if Raises(v, f) then None
    else match Write(f, env)
      case None => Some(rec)
      case Some(w) => Some(rec[w.0 := w.1])
  }

  /** The loop over body fields from `init`; `None` when a field raises. */
  function Fold(v: Variant, init: Record, fields: Body, env: Env): (r: Option<Record>)
    ensures r.Some? ==> init.Keys <= r.value.Keys
  {
    if |fields| == 0 then Some(init)
    else match Fold(v, init, fields[..|fields| - 1], env)
      case None => None
      case Some(rec) => Step(v, rec, fields[|fields| - 1], env)
  }

  /** The record of one message with id `id`: `None` when the transformation raises. */
  function TransformMessage(v: Variant, id: string, body: Option<Body>, env: Env): (r: Option<Record>)
    ensures r.Some? ==> "MessageId" in r.value
    ensures r.Some? ==> ("create_date" in r.value <==> body.Some?)
  {
    var init := map["MessageId" := JStr(id)];
    match body
    case None => Some(init)
    case Some(fields) =>
      match Fold(v, init, fields, env)
      case None => None
      case Some(rec) => Some(rec["create_date" := JStr(env.today)])
  }

  /** Reference reading of the fold: the value the last field that writes `k` gives it. */
  function LastWrite(fields: Body, k: string, env: Env): Option<Json>
  {
    if |fields| == 0 then None
    else
      var w := Write(fields[|fields| - 1], env);
      if w.Some? && w.value.0 == k then Some(w.value.1)
      else LastWrite(fields[..|fields| - 1], k, env)
  }

  /** The keys `Write` can target: never the raw `ip` or `device_id`. */
  lemma WriteTarget(f: Member, env: Env)
    requires Write(f, env).Some?
    ensures Write(f, env).value.0 !in {"ip", "device_id"}
    ensures Write(f, env).value.0 == f.key
            || (f.key == "ip" && Write(f, env).value.0 == "masked_ip")
            || (f.key == "device_id" && Write(f, env).value.0 == "masked_device_id")
  {
  }

  /** The fold is the reference reading: a key is in the record iff it was in `init` or a field
      wrote it, and its value is the last write, else its value in `init`. */
  lemma {:induction false} FoldLookup(v: Variant, init: Record, fields: Body, env: Env, k: string)
    requires Fold(v, init, fields, env).Some?
    ensures var rec := Fold(v, init, fields, env).value;
            && (k in rec <==> k in init || LastWrite(fields, k, env).Some?)
            && (LastWrite(fields, k, env).Some? ==> rec[k] == LastWrite(fields, k, env).value)
            && (LastWrite(fields, k, env).None? && k in init ==> rec[k] == init[k])
  {
    if |fields| > 0 {
      FoldLookup(v, init, fields[..|fields| - 1], env, k);
    }
  }

  /** The guarded loop never raises; the unguarded one raises exactly when some field is a version
      that does not coerce, and otherwise builds the same record as the guarded one. */
  lemma {:induction false} FoldVariants(init: Record, fields: Body, env: Env)
    ensures Fold(Guarded, init, fields, env).Some?
    ensures Fold(Unguarded, init, fields, env)
            == if exists i :: 0 <= i < |fields| && Raises(Unguarded, fields[i]) then None
               else Fold(Guarded, init, fields, env)
  {
    if |fields| > 0 {
      var pre := fields[..|fields| - 1];
      FoldVariants(init, pre, env);
      if exists i :: 0 <= i < |pre| && Raises(Unguarded, pre[i]) {
        var i :| 0 <= i < |pre| && Raises(Unguarded, pre[i]);
        assert Raises(Unguarded, fields[i]);
      } else {
        assert forall i :: 0 <= i < |pre| ==> pre[i] == fields[i];
      }
    }
  }

  /** The field at `i` writes `k` and no later field does: the last write of `k` is that field's. */
  lemma {:induction false} LastWriteLatest(fields: Body, k: string, i: nat, env: Env)
    requires i < |fields|
    requires Write(fields[i], env).Some? && Write(fields[i], env).value.0 == k
    requires forall j :: i < j < |fields| && Write(fields[j], env).Some? ==> Write(fields[j], env).value.0 != k
    ensures LastWrite(fields, k, env) == Some(Write(fields[i], env).value.1)
  {
    var n := |fields| - 1;
    if i < n {
      var pre := fields[..n];
      assert pre[i] == fields[i];
      forall j | i < j < |pre| && Write(pre[j], env).Some?
        ensures Write(pre[j], env).value.0 != k
      {
        assert pre[j] == fields[j];
      }
      LastWriteLatest(pre, k, i, env);
    }
  }

  /** No field writes `k`: then `k` has no last write. */
  lemma {:induction false} LastWriteNone(fields: Body, k: string, env: Env)
    requires forall j :: 0 <= j < |fields| && Write(fields[j], env).Some? ==> Write(fields[j], env).value.0 != k
    ensures LastWrite(fields, k, env) == None
  {
    if |fields| > 0 {
      var pre := fields[..|fields| - 1];
      forall j | 0 <= j < |pre| && Write(pre[j], env).Some?
        ensures Write(pre[j], env).value.0 != k
      {
        assert pre[j] == fields[j];
      }
      LastWriteNone(pre, k, env);
    }
  }

  /** Neither raw PII key ever reaches the record, in either copy and with or without a body. */
  lemma NoRawPii(v: Variant, id: string, body: Option<Body>, env: Env)
    requires TransformMessage(v, id, body, env).Some?
    ensures "ip" !in TransformMessage(v, id, body, env).value
    ensures "device_id" !in TransformMessage(v, id, body, env).value
  {
    if body.Some? {
      var fields := body.value;
      forall j | 0 <= j < |fields| && Write(fields[j], env).Some?
        ensures Write(fields[j], env).value.0 != "ip" && Write(fields[j], env).value.0 != "device_id"
      {
        WriteTarget(fields[j], env);
      }
      LastWriteNone(fields, "ip", env);
      LastWriteNone(fields, "device_id", env);
      var init := map["MessageId" := JStr(id)];
      FoldLookup(v, init, fields, env, "ip");
      FoldLookup(v, init, fields, env, "device_id");
    }
  }

  /** The record of a message without a body is exactly `{MessageId}`; with a body it always has
      `create_date` equal to the processing date, whatever the body said, and the guarded copy
      always produces a record. */
  lemma CreateDateStamped(v: Variant, id: string, body: Option<Body>, env: Env)
    ensures body.None? ==> TransformMessage(v, id, body, env) == Some(map["MessageId" := JStr(id)])
    ensures v == Guarded ==> TransformMessage(v, id, body, env).Some?
    ensures body.Some? && TransformMessage(v, id, body, env).Some? ==>
              var rec := TransformMessage(v, id, body, env).value;
              "create_date" in rec && rec["create_date"] == JStr(env.today) && "MessageId" in rec
  {
    if body.Some? {
      var init := map["MessageId" := JStr(id)];
      FoldVariants(init, body.value, env);
      if Fold(v, init, body.value, env).Some? {
        FoldLookup(v, init, body.value, env, "MessageId");
      }
    }
  }

  /** The record key a PII field is written under. */
  function MaskedName(raw: string): string
  {
    if raw == "ip" then "masked_ip" else "masked_device_id"
  }

  /** A PII field (`ip` or `device_id`) reaches the record only as `encode` of its value, under
      `masked_ip` or `masked_device_id`, unless the body itself has a field of that name. */
  lemma MaskedField(v: Variant, id: string, fields: Body, env: Env, i: nat)
    requires i < |fields| && (fields[i].key == "ip" || fields[i].key == "device_id")
    requires DistinctKeys(fields)
    requires forall j :: 0 <= j < |fields| ==> fields[j].key != MaskedName(fields[i].key)
    requires TransformMessage(v, id, Some(fields), env).Some?
    ensures var rec := TransformMessage(v, id, Some(fields), env).value;
            MaskedName(fields[i].key) in rec && rec[MaskedName(fields[i].key)] == Encode(fields[i].value, env)
  {
    var m := MaskedName(fields[i].key);
    forall j | i < j < |fields| && Write(fields[j], env).Some?
      ensures Write(fields[j], env).value.0 != m
    {
      WriteTarget(fields[j], env);
    }
    LastWriteLatest(fields, m, i, env);
    FoldLookup(v, map["MessageId" := JStr(id)], fields, env, m);
  }

  /** A body field and a PII field that both land on `masked_ip` (or `masked_device_id`): the one
      later in the body wins. */
  lemma MaskedCollision(v: Variant, id: string, fields: Body, env: Env, i: nat, j: nat)
    requires i < |fields| && (fields[i].key == "ip" || fields[i].key == "device_id")
    requires j < |fields| && fields[j].key == MaskedName(fields[i].key)
    requires DistinctKeys(fields)
    requires TransformMessage(v, id, Some(fields), env).Some?
    ensures var rec := TransformMessage(v, id, Some(fields), env).value;
            && fields[j].key in rec
            && rec[fields[j].key] == if i < j then fields[j].value else Encode(fields[i].value, env)
  {
    var m := fields[j].key;
    var last := if i < j then j else i;
    forall k | last < k < |fields| && Write(fields[k], env).Some?
      ensures Write(fields[k], env).value.0 != m
    {
      WriteTarget(fields[k], env);
    }
    LastWriteLatest(fields, m, last, env);
    FoldLookup(v, map["MessageId" := JStr(id)], fields, env, m);
  }

  /** `app_version` is in the record exactly when the body's version coerces, and is then the
      integer of its first `.`-segment; without an `app_version` field it is absent. */
  lemma AppVersionCoerced(v: Variant, id: string, fields: Body, env: Env)
    requires DistinctKeys(fields)
    requires TransformMessage(v, id, Some(fields), env).Some?
    ensures var rec := TransformMessage(v, id, Some(fields), env).value;
            && (forall i :: 0 <= i < |fields| && fields[i].key == "app_version" ==>
                  && ("app_version" in rec <==> VersionNumber(fields[i].value).Some?)
                  && ("app_version" in rec ==> rec["app_version"] == JInt(VersionNumber(fields[i].value).value)))
            && ((forall i :: 0 <= i < |fields| ==> fields[i].key != "app_version") ==> "app_version" !in rec)
  {
    var init := map["MessageId" := JStr(id)];
    FoldLookup(v, init, fields, env, "app_version");
    if i :| 0 <= i < |fields| && fields[i].key == "app_version" {
      forall j | 0 <= j < |fields| && j != i && Write(fields[j], env).Some?
        ensures Write(fields[j], env).value.0 != "app_version"
      {
        WriteTarget(fields[j], env);
      }
      if VersionNumber(fields[i].value).Some? {
        LastWriteLatest(fields, "app_version", i, env);
      } else {
        LastWriteNone(fields, "app_version", env);
      }
      forall i' | 0 <= i' < |fields| && fields[i'].key == "app_version"
        ensures i' == i
      {
      }
    } else {
      forall j | 0 <= j < |fields| && Write(fields[j], env).Some?
        ensures Write(fields[j], env).value.0 != "app_version"
      {
        WriteTarget(fields[j], env);
      }
      LastWriteNone(fields, "app_version", env);
    }
  }

  /** Any field not handled specially is copied under its own name with its value unchanged,
      a body field named `MessageId` included (it replaces the message's id). */
  lemma Passthrough(v: Variant, id: string, fields: Body, env: Env, i: nat)
    requires i < |fields|
    requires fields[i].key !in {"ip", "device_id", "app_version", "create_date"}
    requires fields[i].key == "masked_ip" ==> forall j :: 0 <= j < |fields| ==> fields[j].key != "ip"
    requires fields[i].key == "masked_device_id" ==> forall j :: 0 <= j < |fields| ==> fields[j].key != "device_id"
    requires DistinctKeys(fields)
    requires TransformMessage(v, id, Some(fields), env).Some?
    ensures var rec := TransformMessage(v, id, Some(fields), env).value;
            fields[i].key in rec && rec[fields[i].key] == fields[i].value
  {
    var k := fields[i].key;
    forall j | i < j < |fields| && Write(fields[j], env).Some?
      ensures Write(fields[j], env).value.0 != k
    {
      WriteTarget(fields[j], env);
    }
    LastWriteLatest(fields, k, i, env);
    FoldLookup(v, map["MessageId" := JStr(id)], fields, env, k);
  }

  /** Without a body field named `MessageId`, the record keeps the message's own id. */
  lemma MessageIdKept(v: Variant, id: string, body: Option<Body>, env: Env)
    requires body.Some? ==> forall j :: 0 <= j < |body.value| ==> body.value[j].key != "MessageId"
    requires TransformMessage(v, id, body, env).Some?
    ensures var rec := TransformMessage(v, id, body, env).value;
            "MessageId" in rec && rec["MessageId"] == JStr(id)
  {
    if body.Some? {
      var fields := body.value;
      forall j | 0 <= j < |fields| && Write(fields[j], env).Some?
        ensures Write(fields[j], env).value.0 != "MessageId"
      {
        WriteTarget(fields[j], env);
      }
      LastWriteNone(fields, "MessageId", env);
      FoldLookup(v, map["MessageId" := JStr(id)], fields, env, "MessageId");
    }
  }

  /** A key that no body field writes is absent from the record, unless it is `MessageId` or
      `create_date`: missing optional fields are simply not there. */
  lemma UnwrittenKeyAbsent(v: Variant, id: string, fields: Body, env: Env, k: string)
    requires k != "MessageId" && k != "create_date"
    requires forall j :: 0 <= j < |fields| ==> fields[j].key != k
    requires k == "masked_ip" ==> forall j :: 0 <= j < |fields| ==> fields[j].key != "ip"
    requires k == "masked_device_id" ==> forall j :: 0 <= j < |fields| ==> fields[j].key != "device_id"
    requires TransformMessage(v, id, Some(fields), env).Some?
    ensures k !in TransformMessage(v, id, Some(fields), env).value
  {
    forall j | 0 <= j < |fields| && Write(fields[j], env).Some?
      ensures Write(fields[j], env).value.0 != k
    {
      WriteTarget(fields[j], env);
    }
    LastWriteNone(fields, k, env);
    FoldLookup(v, map["MessageId" := JStr(id)], fields, env, k);
  }

  /** Masking sees only `str()` of a value: `None` stays `None`, and every other value is masked
      as its rendering would be, so the number 5 and the string "5" get the same mask. */
  lemma EncodeByRendering(data: Json, env: Env)
    ensures Encode(data, env) == JNull <==> data == JNull
    ensures data != JNull ==> Encode(data, env) == Encode(JStr(Str(data)), env) == JStr(env.hash(Str(data)))
    ensures data.JInt? ==> Encode(data, env) == Encode(JStr(IntToString(data.n)), env)
  {
  }

  /** The unguarded copy produces the guarded copy's record, except that it raises when the body
      has an `app_version` that does not coerce. */
  lemma UnguardedAgrees(id: string, body: Option<Body>, env: Env)
    ensures TransformMessage(Unguarded, id, body, env)
            == if body.Some? && exists i :: 0 <= i < |body.value| && Raises(Unguarded, body.value[i]) then None
               else TransformMessage(Guarded, id, body, env)
  {
    if body.Some? {
      FoldVariants(map["MessageId" := JStr(id)], body.value, env);
    }
  }

  lemma {:induction false} FoldIgnoresDate(v: Variant, init: Record, fields: Body, h: string -> string, d1: string, d2: string)
    ensures Fold(v, init, fields, Env(h, d1)) == Fold(v, init, fields, Env(h, d2))
  {
    if |fields| > 0 {
      FoldIgnoresDate(v, init, fields[..|fields| - 1], h, d1, d2);
      assert Write(fields[|fields| - 1], Env(h, d1)) == Write(fields[|fields| - 1], Env(h, d2));
    }
  }

  /** Transforming the same message on two dates gives the same record apart from `create_date`. */
  lemma RetransformDiffersOnlyInDate(v: Variant, id: string, body: Option<Body>, h: string -> string, d1: string, d2: string)
    requires TransformMessage(v, id, body, Env(h, d1)).Some?
    ensures TransformMessage(v, id, body, Env(h, d2)).Some?
    ensures body.Some? ==>
              TransformMessage(v, id, body, Env(h, d2)).value
              == TransformMessage(v, id, body, Env(h, d1)).value["create_date" := JStr(d2)]
    ensures body.None? ==> TransformMessage(v, id, body, Env(h, d2)) == TransformMessage(v, id, body, Env(h, d1))
  {
    if body.Some? {
      FoldIgnoresDate(v, map["MessageId" := JStr(id)], body.value, h, d1, d2);
    }
  }

  /** The loop of `fetchDataFromSQS` that fills one message's record, key by key, in body order. */
  method BuildRecord(v: Variant, id: string, body: Option<Body>, env: Env) returns (r: Option<Record>)
    ensures r == TransformMessage(v, id, body, env)
  {
    var init := map["MessageId" := JStr(id)];
    var rec := init;
    if body.None? {
      return Some(rec);
    }
    var fields := body.value;
    var i := 0;
    while i < |fields|
      invariant 0 <= i <= |fields|
      invariant Fold(v, init, fields[..i], env) == Some(rec)
    {
      var f := fields[i];
      assert fields[..i + 1][..i] == fields[..i] && fields[..i + 1][i] == f;
      if f.key == "ip" {
        rec := rec["masked_ip" := Encode(f.value, env)];
      } else if f.key == "device_id" {
        rec := rec["masked_device_id" := Encode(f.value, env)];
      } else if f.key == "app_version" {
        var n := VersionNumber(f.value);
        if n.Some? {
          rec := rec[f.key := JInt(n.value)];
        } else if v == Unguarded {
          FoldVariants(init, fields, env);
          assert Raises(Unguarded, fields[i]);
          return None;
        }
      } else {
        rec := rec[f.key := f.value];
      }
      i := i + 1;
    }
    assert fields[..i] == fields;
    r := Some(rec["create_date" := JStr(env.today)]);
  }
}
