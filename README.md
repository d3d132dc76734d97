# Phone_Tracker location log, modelled in Dafny

Phone_Tracker is an Android background service that records the device's
location. On every location fix, `LocationService.logLocation` performs a
read-modify-write of one JSON document, `location_log.json` in the public
Documents directory. It builds a sample `{timestamp, lat, lng}` and reads the
stored text. If the file is empty, unreadable or not a JSON object, it starts
from an empty object. It takes the top-level `"locations"` array, or a fresh
one when there is none, and appends the sample at the end. It puts the array
back under `"locations"` and leaves every other key alone. Then it overwrites
the whole file with the pretty-printed document. It posts a toast for success,
for a missing file URI and for any other exception. The location callback
calls it once per non-null location of a result, in order. On Android 10 (Q)
and later the file is reached through MediaStore and read with
`readTextFromUri`, which joins the lines and drops their terminators. Earlier
versions read a plain file whole with a Scanner.

The project has five modules:

- `Wrappers` (wrappers.dfy): `Option`, standing in for Java's nullable references.
- `JsonValues` (json_values.dfy): the JSON values the log holds. An object is a
  map, because org.json objects are hash-based and key order carries no
  meaning. Numbers are opaque doubles that know only whether they are finite.
  The JSON library is a `Codec`: a pair of function values standing for
  `new JSONObject(text)` and `toString(2)`.
- `LineReader` (line_reader.dfy): `readTextFromUri` as a loop over readLine
  results, proved equal to the text with `'\n'` and `'\r'` removed.
- `LocationLog` (location_log.dfy): the specification functions `PriorRoot`,
  `NextRoot`, `Logged` and `Replay`; the methods `ReadRoot` and `AppendSample`
  for the read and the in-place update; and the class `LocationService`. The class's field
  `content` is the stored file, and `toasts` records the notices posted. Its
  methods `LogLocation` and `OnLocationResult` are the source's method and
  loop, and are proved against those functions.
- `LogLaws` (log_laws.dfy): the properties of one call and of a run of calls.

Things that come from outside are parameters of each call, in `Conditions`:
the formatted clock reading, what `getFileUri` yields (a URI, null, or an
exception), whether the read throws, and how the overwrite goes. The overwrite
can complete, fail to open, or break after some characters. A file that does
not exist reads as `""`. So the pre-Q test `file.exists() && file.length() > 0`
is `content != ""`.

The JSON library's round trip is not this code's behaviour. It is stated as
the hypothesis `ReadsBack`: any object with finite numbers renders to a
non-empty text that survives the platform's read and parses back to itself.
Only the multi-call lemmas assume it.

Points of the code's behaviour the model keeps:

- Appends are not mutually excluded. Calls arrive one at a time on the main
  looper, and the model is sequential.
- The code distinguishes only two failures. A null URI posts one error toast.
  Every other exception, including a failed write, reaches one catch-all that
  posts a "critical error" toast.
- Android's org.json `JSONObject.put(String, double)` refuses NaN and the
  infinities. A fix with such a coordinate therefore ends in the catch-all,
  before the file is touched.
- The same library's `toString(2)` refuses a document holding a non-finite
  number, and the parser can hand back such a document (a `NaN` inside an
  array, say). The overwrite is opened before `toString(2)` runs, so such a
  call empties the file and ends in the catch-all.

## Model

| member | source | states |
|---|---|---|
| `LineReader.ReadTextFromUri` | app/src/main/java/com/example/myapplication/LocationService.java:162-171 | the while loop's result is the concatenation of the lines readLine returns, equals the stream with every line-terminator character removed, and contains no terminator |
| `LineReader.LinesJoinWithoutTerminators` | app/src/main/java/com/example/myapplication/LocationService.java:166-169 | joining the lines readLine hands out gives the text without terminators, and no line contains a terminator |
| `LineReader.NextLine` | app/src/main/java/com/example/myapplication/LocationService.java:167 | readLine returns null exactly at the end of the stream, otherwise the characters up to the next terminator, and always moves forward |
| `LineReader.WithoutTerminators` | app/src/main/java/com/example/myapplication/LocationService.java:162-171 | the reference reading: never longer than the input |
| `LineReader.WithoutTerminatorsLeavesNone` | app/src/main/java/com/example/myapplication/LocationService.java:166-168 | the reference reading contains no `'\n'` and no `'\r'` |
| `JsonValues.ParseObject` | app/src/main/java/com/example/myapplication/LocationService.java:114 | `new JSONObject(text)` succeeds exactly when the text parses to an object, and yields that object's fields |
| `LocationLog.SampleOf` | app/src/main/java/com/example/myapplication/LocationService.java:98-102 | the sample has exactly the keys timestamp, lat and lng, holding the clock reading and the fix's latitude and longitude; it is encodable when both coordinates are finite |
| `LocationLog.NextRoot` | app/src/main/java/com/example/myapplication/LocationService.java:119-122 | the keys become the old keys plus "locations"; every other key keeps its value; an existing array gets the sample at its end; a missing or non-array "locations" becomes a one-element array |
| `LocationLog.Logged` | app/src/main/java/com/example/myapplication/LocationService.java:96-160 | success is reported exactly when the fix is finite, the URI resolved (Q and later), the write completed and the updated document holds only finite numbers; the URI error is posted exactly for a null URI on Q and later; a non-finite fix, a missing or throwing URI lookup and an output that cannot be opened all leave the file unchanged; after success the file holds the rendering of the updated document, and a write that breaks off leaves a prefix of it |
| `LocationLog.Replay` | app/src/main/java/com/example/myapplication/LocationService.java:83-87 | a batch posts exactly one notice per non-null entry |
| `LocationLog.Present` | app/src/main/java/com/example/myapplication/LocationService.java:83-84 | lists every non-null entry of the batch, each once, in increasing position |
| `LocationLog.Samples` | app/src/main/java/com/example/myapplication/LocationService.java:83-87 | one sample per non-null entry of the batch |
| `LogLaws.SamplesFollowBatchOrder` | app/src/main/java/com/example/myapplication/LocationService.java:83-86 | the i-th appended sample is built from the i-th non-null fix of the batch, so samples follow list order and nulls are skipped |
| `LocationLog.ReadRoot` | app/src/main/java/com/example/myapplication/LocationService.java:111-117 | the read half of the update (and its pre-Q twin at lines 134-144) yields `PriorRoot`: an empty read, a read that throws or a non-object parse give an empty object, otherwise the parsed object |
| `LocationLog.AppendSample` | app/src/main/java/com/example/myapplication/LocationService.java:119-122 | the in-place `optJSONArray` / `put` / `put` sequence yields exactly `NextRoot` of the root and the sample |
| `LocationLog.LocationService.LogLocation` | app/src/main/java/com/example/myapplication/LocationService.java:96-160 | the file afterwards and the toast posted are those `Logged` gives for the old file, on both storage paths, including the emptied file when `toString(2)` refuses the document |
| `LocationLog.LocationService.OnLocationResult` | app/src/main/java/com/example/myapplication/LocationService.java:82-88 | the for loop leaves the file and the toasts that `Replay` gives: one `logLocation` per non-null location, in order |
| `LogLaws.FreshLogWhenNothingReadable` | app/src/main/java/com/example/myapplication/LocationService.java:111-126 | an empty store (Q and later: empty text after the read; earlier: missing or zero-length file), a read that throws, or text that is not a JSON object all give `{"locations":[sample]}`, and success is reported |
| `LogLaws.AppendExtendsLocations` | app/src/main/java/com/example/myapplication/LocationService.java:146-152 | when the stored text parses to an object with finite numbers, the new file is that object with the sample appended to its "locations" array, and success is reported |
| `LogLaws.OnlyTheDocumentSurvives` | app/src/main/java/com/example/myapplication/LocationService.java:151-152 | two stored texts that read as the same object give the same new file: the overwrite keeps nothing of the prior bytes |
| `LogLaws.MissingUriChangesNothing` | app/src/main/java/com/example/myapplication/LocationService.java:105-108 | a null file URI posts the URI error and leaves the file unchanged |
| `LogLaws.NonFiniteFixChangesNothing` | app/src/main/java/com/example/myapplication/LocationService.java:101-102 | a NaN or infinite coordinate ends in the catch-all error with the file unchanged |
| `LogLaws.BrokenWriteLeavesPrefix` | app/src/main/java/com/example/myapplication/LocationService.java:124-127 | when `toString(2)` accepts the updated document, a write that breaks off leaves a prefix of the text a completed write would have left, and reports an error where the completed write reports success |
| `LogLaws.UneventfulStep` | app/src/main/java/com/example/myapplication/LocationService.java:119-126 | when `toString(2)` accepts the updated document, a finite fix with no I/O fault writes its rendering and reports success |
| `LogLaws.UnwritableRootEmptiesFile` | app/src/main/java/com/example/myapplication/LocationService.java:124-125 | when `toString(2)` refuses the updated document, the call posts the critical error and leaves an empty file, or the old file when the output could not be opened |
| `LogLaws.UpdatedRootEncodable` | app/src/main/java/com/example/myapplication/LocationService.java:119-122 | a finite fix appended to a document with finite numbers gives a document `toString(2)` accepts |
| `LogLaws.AppendsAccumulate` | app/src/main/java/com/example/myapplication/LocationService.java:83-87 | given the library's round trip, fault-free calls append the batch's samples in order after the existing locations and keep every other key |
| `LogLaws.ReplayKeepsEncodable` | app/src/main/java/com/example/myapplication/LocationService.java:83-87 | given the library's round trip, after fault-free calls from a document with finite numbers the file still reads as a document with finite numbers |
| `LogLaws.FaultFreeBatchReportsSuccess` | app/src/main/java/com/example/myapplication/LocationService.java:124-126 | given the library's round trip, fault-free calls on finite fixes from a document with finite numbers post the success toast for every non-null location |
| `LogLaws.LogFromEmptyStore` | app/src/main/java/com/example/myapplication/LocationService.java:83-87 | from an empty store, N fault-free calls leave a file that reads back as `{"locations": [the N samples in call order]}` |

## Left out

- Service lifecycle, wake lock, foreground notification and channel (`onCreate`, `onDestroy`, `buildNotification`, `createNotificationChannel`): platform glue with no logic.
- `getFileUri`'s MediaStore query and insert: foreign ContentResolver calls. Only its outcome (URI, null, exception) is modelled.
- org.json parsing and `toString(2)` pretty-printing: library code. They are kept as the two functions of a `Codec`, and their round trip is the hypothesis `ReadsBack`.
- `SimpleDateFormat` formatting with the default locale: the timestamp is an opaque string.
- Latitude and longitude values: opaque doubles. Only their finiteness matters to the code.
- Toasts through `mainThreadHandler` and `Log.e`: recorded only as a sequence of notices.
- UTF-8 encoding and decoding of the file's bytes: the file is modelled as characters.
- LocationLog.LocationService.LogLocation: assumes that opening for overwrite ("w" mode or `FileWriter(file, false)`) truncates before writing, and that a failure either leaves the file untouched (open fails) or leaves a prefix of the new text. The case where closing the stream throws after the success toast was posted is not modelled.
- A null stream from `openOutputStream`: treated like an output that cannot be opened, leaving the file as it was.
- Permission checks in `startLocationUpdates` and the location request itself: platform calls.
- Mutual exclusion between appends: the code has none, and the model is sequential.
- `MainActivity.java` is not part of this model: permission dialogs and start/stop intents.
