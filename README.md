# SQS-to-Postgres login ingestion, modelled in Dafny

This project models the core of `SQSToPostgres`, the class that moves login events from an SQS
queue into the Postgres table `user_logins`. The class exists in two copies, and the model covers both:

- `utils/sqs_to_postgress.py` is the hardened copy. A version that does not parse is only logged, and
  `writeToPostgres` returns `True` or `False`.
- `sqs_to_postgress.py` is the copy that `main.py` imports. A version that does not parse raises out
  of the generator, and `writeToPostgres` returns `None`.

Each definition whose behaviour differs between the copies takes a `Variant` argument: `Guarded`
for the hardened copy, `Unguarded` for the other one. The two copies have the same `encode`, body transformation, batch loop and column
projection, apart from the points above. So one definition serves both, and the lemmas say where
the copies differ.

The model has five modules:

- `Values` (values.dfy): the values `json.loads` yields (`None`, booleans, integers, strings, lists,
  objects). It also gives Python's `str()` and `repr()` of them, and the decimal rendering of an integer.
- `Coerce` (coerce.dfy): the version coercion `int(value.split('.')[0])`. `ParseInt` is Python's
  `int()` on a string. It drops surrounding ASCII whitespace, accepts an optional sign, and takes
  digits with single underscores between them. `FirstSegment` is `split('.')[0]`.
- `Transform` (transform.dfy): `encode` and the per-message record.
  - The record starts as `{MessageId}`.
  - It is updated once per body field, in body order.
  - It is stamped with `create_date` when the message has a body.
  - `Fold` is the loop as a function. `BuildRecord` is the loop itself, proved equal to it.
  - `LastWrite` is an independent reference reading: the value of a key is the last write to it.
- `Ingest` (ingest.dfy): the batch loop of `fetchDataFromSQS`. For each message in order it
  builds the record, deletes the message by its receipt handle, then yields the record.
  - `RunBatch` is the specification.
  - `FetchDataFromQueue` is the loop as a method, with a ghost trace of `Deleted` and `Yielded` events.
- `Persist` (persist.dfy): `writeToPostgres`. This is the projection of a record onto the seven
  bound columns, and what the call reports for each behaviour of the database.

The environment is passed in as a parameter:

- The SHA-512 hex digest is the function `Env.hash`, left uninterpreted.
- The processing date is `Env.today`.
- The queue's answer to `delete_message` is `Queue.accepts`.
- The outcome of the database calls is the `Database` value.
- The `Messages` list of the `receive_message` response is an input.

In several places the code behaves otherwise than one might expect. The model follows the code:

- A `delete_message` that fails with `ClientError` is not only logged. The outer `except
  ClientError` re-raises it, so it escapes the generator (`Raised(DeleteRejected)`).
- An unreachable database does not make `writeToPostgres` return `False`. `psycopg2.connect`
  sits outside the `try`, so the call raises (`ConnectRaised`) in both copies.
- In the hardened copy, a failing `conn.close()` after a successful commit also returns `False`:
  the bare `except` covers it.
- A `KeyError` part way through a batch does not make the cycle yield nothing. Records already
  yielded stay yielded; the failing message and every later one are neither deleted nor yielded.
- In the copy `main.py` runs, a version that does not coerce is not recovered locally. It ends
  the batch before the message is deleted.
- A message without a body gets no `create_date`. Its record is exactly `{MessageId}`.
- Body fields are processed in body order, not in any order. A passthrough field named
  `masked_ip`, `masked_device_id` or `MessageId` collides with the key the code writes, and the later
  write wins.
- The message id is kept in the record under `MessageId`, but `writeToPostgres` does not bind it.
  Only the seven columns reach the table.

## Model

| member | source | states |
|---|---|---|
| Values.Str | utils/sqs_to_postgress.py:98 | `str(data)` is empty only for the empty string |
| Values.Repr | utils/sqs_to_postgress.py:98 | `repr` of a value nested in `data` is never empty, and a string's is quoted |
| Coerce.Digits | utils/sqs_to_postgress.py:150 | the digit part `int()` accepts begins and ends with a digit, so it has no leading or trailing underscore |
| Coerce.ParseStripped | utils/sqs_to_postgress.py:150 | once whitespace is gone, an accepted string ends with a digit: no trailing sign or underscore |
| Coerce.ParseInt | utils/sqs_to_postgress.py:150 | `int("")` fails |
| Coerce.SignedDigitsParse | utils/sqs_to_postgress.py:150 | `int()` on `d`, `+d` and `-d`, for a non-empty run of digits `d`, gives the signed value of `d` under the reference reading `DigitsValue` |
| Coerce.DigitsOfPlain | utils/sqs_to_postgress.py:150 | the left-to-right scan of the digit part agrees with the reference reading from the last digit |
| Coerce.DigitsAppend | utils/sqs_to_postgress.py:150 | appending a digit to a digit part multiplies its value by ten and adds the digit |
| Coerce.PlainDigitsParse | utils/sqs_to_postgress.py:150 | `int()` on a non-empty run of digits gives their value under the reference reading |
| Coerce.PrefixedDigitsParse | utils/sqs_to_postgress.py:150 | `int()` on `+` or `-` followed by a non-empty run of digits gives their value, negated for `-` |
| Coerce.ParseIntRoundTrip | utils/sqs_to_postgress.py:150 | `int(str(n)) == n` for every integer `n`; the model has no digit limit, so Python agrees only up to 4300 digits |
| Coerce.ParseIntRejectsDot | utils/sqs_to_postgress.py:150 | `int()` rejects every string that contains a `.` |
| Coerce.DigitsRejectDot | utils/sqs_to_postgress.py:150 | a digit part never contains a `.` |
| Coerce.UnderscoreExamples | sqs_to_postgress.py:125 | `int(" 1_000\n") == 1000`; `"1__0"`, `"_1"` and `"1_"` are rejected |
| Coerce.FirstSegment | utils/sqs_to_postgress.py:150 | `split('.')[0]` is a prefix with no `.`, followed by a `.` or by the end of the string |
| Coerce.FirstSegmentAt | utils/sqs_to_postgress.py:150 | a prefix with no `.` that ends at a `.` or at the end of the string is the first segment |
| Coerce.VersionNumber | utils/sqs_to_postgress.py:150 | only a string can coerce, and it coerces to `int()` of its first segment |
| Coerce.VersionOfDotted | utils/sqs_to_postgress.py:150 | `str(n) + "." + rest` and `str(n)` both coerce to `n` |
| Coerce.DigitsValueOfDecimal | utils/sqs_to_postgress.py:150 | the reference reading of the decimal rendering of `n` is `n` |
| Coerce.VersionExampleDotted | utils/sqs_to_postgress.py:148-152 | `"2.13.0"` coerces to 2 |
| Coerce.VersionExamplePlain | utils/sqs_to_postgress.py:148-152 | `"10"` coerces to 10 |
| Coerce.VersionExampleRejected | utils/sqs_to_postgress.py:148-152 | `"abc"` and the number 2 do not coerce |
| Transform.Encode | utils/sqs_to_postgress.py:95-100 | `encode` returns `None` or a string, and for any value other than `None` it is the hash of `str(data)` |
| Transform.Write | utils/sqs_to_postgress.py:143-154 | a field writes nothing exactly when it is an `app_version` that does not coerce; a field not named `ip`, `device_id` or `app_version` is written unchanged under its own name |
| Transform.Step | utils/sqs_to_postgress.py:143-154 | one pass of the field loop raises exactly where the copy raises, and otherwise removes no key |
| Transform.Fold | utils/sqs_to_postgress.py:143-154 | the field loop never removes a key it started with |
| Transform.TransformMessage | utils/sqs_to_postgress.py:137-160 | a built record always has `MessageId`, and has `create_date` iff the message has a body |
| Transform.WriteTarget | utils/sqs_to_postgress.py:143-154 | a body field is written under its own name, or `ip` under `masked_ip` and `device_id` under `masked_device_id`; never under `ip` or `device_id` |
| Transform.FoldLookup | utils/sqs_to_postgress.py:137-157 | the field loop agrees with the reference reading: a key is in the record iff it was set before the loop or some field wrote it, and its value is the last write |
| Transform.LastWriteLatest | utils/sqs_to_postgress.py:143-154 | the field at `i` writes `k` and no later field does, so the last write of `k` is field `i`'s |
| Transform.LastWriteNone | utils/sqs_to_postgress.py:143-154 | when no field writes `k`, `k` has no last write |
| Transform.FoldVariants | sqs_to_postgress.py:119-127 | the guarded loop never fails; the unguarded loop fails iff some field is an `app_version` that does not coerce, and otherwise builds the guarded record |
| Transform.UnguardedAgrees | sqs_to_postgress.py:113-129 | the unguarded copy builds the guarded copy's record, except that it raises on a body with an `app_version` that does not coerce |
| Transform.NoRawPii | utils/sqs_to_postgress.py:143-147 | no record contains `ip` or `device_id`, in either copy, with or without a body |
| Transform.MaskedField | utils/sqs_to_postgress.py:143-147 | an `ip` or `device_id` value reaches the record only as `encode` of it, under `masked_ip` or `masked_device_id`, unless the body also has a field of that name |
| Transform.MaskedCollision | utils/sqs_to_postgress.py:143-154 | when a passthrough field and a masked field land on the same key, the one later in the body wins |
| Transform.AppVersionCoerced | utils/sqs_to_postgress.py:148-152 | `app_version` is in the record iff the body's version coerces, and then it is that integer; without a version field it is absent |
| Transform.Passthrough | utils/sqs_to_postgress.py:153-154 | any other field is copied under its own name with its value unchanged. This includes a field named `MessageId`, and a `masked_ip` or `masked_device_id` field in a body without `ip` or `device_id` |
| Transform.MessageIdKept | utils/sqs_to_postgress.py:138 | without a body field named `MessageId`, the record keeps the message's id |
| Transform.UnwrittenKeyAbsent | utils/sqs_to_postgress.py:137-157 | a key that no field writes is absent from the record (`MessageId` and `create_date` aside) |
| Transform.CreateDateStamped | utils/sqs_to_postgress.py:141-160 | with a body, `create_date` is the processing date whatever the body says; without one the record is exactly `{MessageId}`; the guarded copy always builds a record |
| Transform.EncodeByRendering | utils/sqs_to_postgress.py:95-100 | `encode` gives `None` iff its input is `None`; any other value is hashed through its `str()`, so the number 5 and the string `"5"` mask alike |
| Transform.FoldIgnoresDate | utils/sqs_to_postgress.py:143-154 | the field loop does not depend on the processing date |
| Transform.RetransformDiffersOnlyInDate | utils/sqs_to_postgress.py:137-160 | transforming one message on two dates gives records that differ at most in `create_date` |
| Transform.BuildRecord | utils/sqs_to_postgress.py:137-157 | the in-place loop over body fields builds exactly the record `TransformMessage` specifies, or fails where the unguarded copy raises |
| Ingest.ProcessOne | utils/sqs_to_postgress.py:137-184 | a message is deleted and yielded iff it has an id, its record builds, it has a receipt handle and the delete succeeds. Otherwise it stops the batch: a missing `MessageId` or `ReceiptHandle` with a logged `KeyError`, a record that does not build with the version error escaping, and a rejected delete with the `ClientError` re-raised |
| Ingest.RunBatch | utils/sqs_to_postgress.py:136-179 | a batch makes at most two events per message, and ends `Exhausted` iff every message was deleted and yielded |
| Ingest.Fetch | utils/sqs_to_postgress.py:133-179 | without a `Messages` entry nothing happens; otherwise the batch ends `Exhausted` iff every message was deleted and yielded |
| Ingest.HandleMessage | utils/sqs_to_postgress.py:137-169 | reading the id, building the record, reading the receipt handle and deleting the message, in that order, end as `ProcessOne` specifies |
| Ingest.Processed | utils/sqs_to_postgress.py:136 | no more messages are processed than the batch holds |
| Ingest.YieldsAppend | utils/sqs_to_postgress.py:175 | the records yielded by two traces in sequence are those of the first followed by those of the second |
| Ingest.BatchShape | utils/sqs_to_postgress.py:133-179 | the first `n` messages are each deleted, then yielded, in list order; the batch ends `Exhausted` or as message `n` stopped it, and message `n` is neither deleted nor yielded |
| Ingest.GuardedNeverRaisesVersionError | utils/sqs_to_postgress.py:148-152 | no version error escapes the hardened copy's generator |
| Ingest.BodylessMessage | utils/sqs_to_postgress.py:159-175 | a message without a body is deleted and yields exactly `{MessageId}` |
| Ingest.UnguardedVersionErrorEscapes | sqs_to_postgress.py:124-148 | in the copy `main.py` runs, an `app_version` that does not coerce raises out of the generator before anything is deleted or yielded |
| Ingest.FetchDataFromQueue | sqs_to_postgress.py:111-148 | the loop's deletions, yields and ending are those `Fetch` specifies; the records returned are exactly the ones yielded in the trace |
| Persist.Column | utils/sqs_to_postgress.py:200-206 | a column takes the record's value when the key is present, and is `None` otherwise |
| Persist.Params | utils/sqs_to_postgress.py:200-226 | the bound tuple has seven entries; entry `i` is the record's value under column `i` of the INSERT, or `None` |
| Persist.WriteToPostgres | utils/sqs_to_postgress.py:199-239 | raises `KeyError` iff `MessageId` is missing; raises from `connect` iff the database is unreachable; otherwise binds `Params`, commits iff execute and commit succeed, and returns `True` only when close succeeds too (`False` otherwise); the other copy returns `None` |
| Persist.UnboundKeysIgnored | sqs_to_postgress.py:172-187 | `MessageId` and any other key outside the seven columns never affect what is bound |
| Persist.MessageIdPresent | utils/sqs_to_postgress.py:138 | every record built from a body has `MessageId` |
| Persist.PipelineRecordWritable | sqs_to_postgress.py:172-198 | `writeToPostgres` on any record the pipeline yields raises only when the database is unreachable, and otherwise returns, possibly `False`; it binds the processing date as `create_date`, or `None` in all seven columns for a message without a body |
| Persist.LoginScenario | utils/sqs_to_postgress.py:137-226 | the login body with `ip` "1.2.3.4", `device_id` "d1", `app_version` "3.4.1" and `user_id` "u1" is bound as ("u1", `None`, hash("1.2.3.4"), hash("d1"), `None`, 3, today) by either copy |
| Persist.LoginRecord | utils/sqs_to_postgress.py:137-226 | the same for any such body whose version coerces to an integer |
| Persist.LoginRecordDefined | utils/sqs_to_postgress.py:137-157 | a login body builds a record in either copy, stamped with the processing date |
| Persist.LoginMasks | utils/sqs_to_postgress.py:143-147 | a login body's record has both masks |
| Persist.LoginVersionAndUser | utils/sqs_to_postgress.py:148-154 | a login body's record has the coerced version and the user id |
| Persist.LoginAbsentKeys | utils/sqs_to_postgress.py:137-157 | a login body's record has no `device_type` and no `locale` |

The copy `main.py` imports has the same `encode` (sqs_to_postgress.py:76-81), the same field loop
(sqs_to_postgress.py:113-129) and the same projection (sqs_to_postgress.py:172-187). The members
above model both copies.

## Left out

- The boto3 client, `receive_message` and its `ClientError`: the response's `Messages` entry is an input. `delete_message` is reduced to the queue accepting or rejecting a handle. This is network I/O.
- `MaxNumberOfMessages = 1`: the loop is modelled for a list of any length, and the model holds for the one-message list the queue returns in practice.
- `psycopg2`: the connection, the cursor and the SQL text are reduced to the `Database` value. A passed-through value that the statement rejects counts as a failing statement. Examples are a nested object, which psycopg2 cannot adapt, and a list, which psycopg2 sends as an SQL array that the column may refuse. `conn.cursor()` is assumed not to fail.
- `json.loads`: the body is given already decoded, as an object's members in document order. A body that is not valid JSON raises `ValueError` in both copies. A body that decodes to something other than an object is not modelled either.
- JSON numbers with a fraction or an exponent (Python `float`) are not modelled.
- Values.Repr: renders every nested string between single quotes, with nothing escaped. Python uses double quotes for a string that contains `'` and no `"`. It also escapes `\`, newline, tab, carriage return and non-printable characters. A nested `ip` or `device_id` value holding such strings is therefore hashed from a different rendering than Python's.
- Transform.Encode: always succeeds. A string with an unpaired surrogate such as `"\ud800"` is accepted by `json.loads`, but `str(data).encode("utf-8")` then raises `UnicodeEncodeError`. Neither `except` catches it, so in both copies it escapes the generator before the delete, and the message is redelivered. A Dafny `char` cannot hold a surrogate, so the model cannot express such a value.
- Coerce.ParseInt: has no digit limit. Python (3.11 and later, and the 3.7 to 3.10 security releases) rejects an integer string of more than 4300 digits with `ValueError`, and `str(n)` raises for such an `n`. The model coerces a version whose first segment is that long. Python instead omits it in the hardened copy and raises in the other. `Coerce.ParseIntRoundTrip` holds in Python only for integers of at most 4300 digits.
- `int()` on non-ASCII digits or non-ASCII whitespace is not modelled: Python accepts both, and the model rejects them.
- Dict insertion order of the record is not modelled. `writeToPostgres` reads the record only by key.
- Logging (`logger.info`, `logger.warning`, `logger.exception`) has no effect on the model.
- The constructor, `getSQSCredentials` and `getPostgresCredentials` are not modelled: they are configuration file I/O.
- `main.py`, the endless driver loop, is not modelled. Neither is `unit_tests.py`, which does not test this class.
- SHA-512 itself is not modelled: the hex digest is the uninterpreted `Env.hash`.
- `datetime.now()` is not modelled: the processing date is `Env.today`.
- The generator's laziness is not modelled. The model runs the batch to its end, so it does not capture how the batch interleaves with the writes the driver makes between two yields.
- Transform.EncodeByRendering: does not state that a mask differs from its input (`mask(x) != x`). The hash is a parameter, and that is a property of SHA-512 that the model cannot prove.
- Ingest.UnguardedVersionErrorEscapes: stated for the first message of a batch only. For a later message, `Ingest.BatchShape` gives the same ending and shows that the message is not deleted.
