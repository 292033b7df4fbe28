/** `SQSToPostgres.writeToPostgres`: the record is projected onto the seven columns of the
    `user_logins` INSERT and bound positionally; what the call reports depends on the copy. */
module Persist {
  import opened Values
  import opened Coerce
  import opened Transform

  /** The column list of the INSERT statement, in the order the values are bound. */
  const Columns: seq<string> :=
    ["user_id", "device_type", "masked_ip", "masked_device_id", "locale", "app_version", "create_date"]

  /** `data[k] if k in data else None`. */
  function Column(data: Record, k: string): (r: Json)
    ensures k in data ==> r == data[k]
    ensures r != JNull ==> k in data
  {
    if k in data then data[k] else JNull
  }

  /** The parameter tuple handed to `cursor.execute`: each column gets the record's value under the
      column's own name, or `None`. */
  function Params(data: Record): (p: seq<Json>)
    ensures |p| == |Columns|
    ensures forall i :: 0 <= i < |Columns| ==> p[i] == Column(data, Columns[i])
  {
    [ Column(data, "user_id"), Column(data, "device_type"), Column(data, "masked_ip"),
      Column(data, "masked_device_id"), Column(data, "locale"), Column(data, "app_version"),
      Column(data, "create_date") ]
  }

  /** How the database behaves for one call. `StatementFails`: `execute` or `commit` raises;
      `CloseFails`: the commit went through and `close` raises. */
  datatype Database = Unreachable | StatementFails | CloseFails | Succeeds

  datatype PyValue = PyNone | PyBool(b: bool)

  datatype WriteResult =
    | KeyErrorRaised    // `data['MessageId']` on a record without that key
    | ConnectRaised     // `psycopg2.connect` raised: it sits outside the `try`
    | Returned(executed: seq<Json>, committed: bool, value: PyValue)

  /** One call of `writeToPostgres` on `data`. The guarded copy returns `True` only when execute,
      commit and close all succeed and `False` otherwise; the unguarded copy returns `None` on every
      path. A failure inside the `try` is logged, never raised. */
  function WriteToPostgres(v: Variant, data: Record, db: Database): (r: WriteResult)
    ensures r.KeyErrorRaised? <==> "MessageId" !in data
    ensures r.ConnectRaised? <==> "MessageId" in data && db == Unreachable
    ensures r.Returned? ==> r.executed == Params(data)
    ensures r.Returned? ==> (r.committed <==> db == Succeeds || db == CloseFails)
    ensures r.Returned? && v == Guarded ==> r.value == PyBool(db == Succeeds)
    ensures r.Returned? && v == Unguarded ==> r.value == PyNone
  {
    if "MessageId" !in data then KeyErrorRaised
    else if db == Unreachable then ConnectRaised
    else
      var committed := db == Succeeds || db == CloseFails;
      var value := if v == Guarded then PyBool(db == Succeeds) else PyNone;
      Returned(Params(data), committed, value)
  }

  /** `MessageId`, and any other key that is not a column, is never bound. */
  lemma UnboundKeysIgnored(data: Record, k: string, x: Json)
    requires k !in Columns
    ensures Params(data[k := x]) == Params(data)
    ensures Params(data - {k}) == Params(data)
  {
  }

  /** `writeToPostgres` on any record the pipeline yields raises only when the database is
      unreachable, since the record always has `MessageId`; otherwise it returns, possibly `False`
      when the statement fails. A record built from a body binds the processing date as
      `create_date`; a body-less message binds `None` in all seven columns. */
  lemma PipelineRecordWritable(v: Variant, w: Variant, id: string, body: Option<Body>, env: Env, db: Database)
    requires TransformMessage(v, id, body, env).Some?
    ensures var rec := TransformMessage(v, id, body, env).value;
            && (WriteToPostgres(w, rec, db).Returned? <==> db != Unreachable)
            && (body.Some? ==> Params(rec)[6] == JStr(env.today))
            && (body.None? ==> Params(rec) == seq(7, _ => JNull))
  {
    CreateDateStamped(v, id, body, env);
    if body.None? {
      assert TransformMessage(v, id, body, env).value == map["MessageId" := JStr(id)];
    } else {
      MessageIdPresent(v, id, body.value, env);
    }
  }

  lemma MessageIdPresent(v: Variant, id: string, fields: Body, env: Env)
    requires TransformMessage(v, id, Some(fields), env).Some?
    ensures "MessageId" in TransformMessage(v, id, Some(fields), env).value
  {
    FoldLookup(v, map["MessageId" := JStr(id)], fields, env, "MessageId");
  }

  /** A typical login event: body `{"ip": "1.2.3.4", "device_id": "d1", "app_version": "3.4.1",
      "user_id": "u1"}` is written as user "u1", no device type, the two masks, no locale,
      version 3 and the processing date, by either copy. */
  lemma LoginScenario(v: Variant, id: string, env: Env)
    ensures var body := [ Member("ip", JStr("1.2.3.4")), Member("device_id", JStr("d1")),
                          Member("app_version", JStr("3.4.1")), Member("user_id", JStr("u1")) ];
            && TransformMessage(v, id, Some(body), env).Some?
            && Params(TransformMessage(v, id, Some(body), env).value)
               == [ JStr("u1"), JNull, JStr(env.hash("1.2.3.4")), JStr(env.hash("d1")), JNull,
                    JInt(3), JStr(env.today) ]
  {
    assert Decimal(3) == "3";
    VersionOfDotted(3, "4.1");
    assert IntToString(3) + "." + "4.1" == "3.4.1";
    LoginRecord(v, id, env, [ Member("ip", JStr("1.2.3.4")), Member("device_id", JStr("d1")),
                              Member("app_version", JStr("3.4.1")), Member("user_id", JStr("u1")) ],
                "1.2.3.4", "d1", 3, "u1");
  }

  /** The shape of that login body, with its values left open. */
  predicate LoginBody(body: Body, ip: string, device: string, version: int, user: string)
  {
    && |body| == 4
    && body[0] == Member("ip", JStr(ip)) && body[1] == Member("device_id", JStr(device))
    && body[2].key == "app_version" && VersionNumber(body[2].value) == Some(version)
    && body[3] == Member("user_id", JStr(user))
  }

  lemma LoginRecord(v: Variant, id: string, env: Env, body: Body, ip: string, device: string, version: int, user: string)
    requires LoginBody(body, ip, device, version, user)
    ensures && TransformMessage(v, id, Some(body), env).Some?
            && Params(TransformMessage(v, id, Some(body), env).value)
               == [ JStr(user), JNull, JStr(env.hash(ip)), JStr(env.hash(device)), JNull,
                    JInt(version), JStr(env.today) ]
  {
    LoginRecordDefined(v, id, env, body, ip, device, version, user);
    LoginMasks(v, id, env, body, ip, device, version, user);
    LoginVersionAndUser(v, id, env, body, ip, device, version, user);
    LoginAbsentKeys(v, id, env, body, ip, device, version, user);
  }

  lemma LoginRecordDefined(v: Variant, id: string, env: Env, body: Body, ip: string, device: string, version: int, user: string)
    requires LoginBody(body, ip, device, version, user)
    ensures DistinctKeys(body)
    ensures TransformMessage(v, id, Some(body), env).Some?
    ensures var rec := TransformMessage(v, id, Some(body), env).value;
            "create_date" in rec && rec["create_date"] == JStr(env.today)
  {
    UnguardedAgrees(id, Some(body), env);
    assert forall i :: 0 <= i < |body| ==> !Raises(Unguarded, body[i]);
    CreateDateStamped(Guarded, id, Some(body), env);
    CreateDateStamped(v, id, Some(body), env);
  }

  lemma LoginMasks(v: Variant, id: string, env: Env, body: Body, ip: string, device: string, version: int, user: string)
    requires LoginBody(body, ip, device, version, user)
    requires DistinctKeys(body) && TransformMessage(v, id, Some(body), env).Some?
    ensures var rec := TransformMessage(v, id, Some(body), env).value;
            && "masked_ip" in rec && rec["masked_ip"] == JStr(env.hash(ip))
            && "masked_device_id" in rec && rec["masked_device_id"] == JStr(env.hash(device))
  {
    MaskedField(v, id, body, env, 0);
    MaskedField(v, id, body, env, 1);
  }

  lemma LoginVersionAndUser(v: Variant, id: string, env: Env, body: Body, ip: string, device: string, version: int, user: string)
    requires LoginBody(body, ip, device, version, user)
    requires DistinctKeys(body) && TransformMessage(v, id, Some(body), env).Some?
    ensures var rec := TransformMessage(v, id, Some(body), env).value;
            && "app_version" in rec && rec["app_version"] == JInt(version)
            && "user_id" in rec && rec["user_id"] == JStr(user)
  {
    AppVersionCoerced(v, id, body, env);
    Passthrough(v, id, body, env, 3);
  }

  lemma LoginAbsentKeys(v: Variant, id: string, env: Env, body: Body, ip: string, device: string, version: int, user: string)
    requires LoginBody(body, ip, device, version, user)
    requires TransformMessage(v, id, Some(body), env).Some?
    ensures var rec := TransformMessage(v, id, Some(body), env).value;
            "device_type" !in rec && "locale" !in rec
  {
    UnwrittenKeyAbsent(v, id, body, env, "device_type");
    UnwrittenKeyAbsent(v, id, body, env, "locale");
  }
}
