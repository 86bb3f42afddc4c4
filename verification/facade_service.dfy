/** The facade's claim-check store (src/facade/service.py): uploads, delivery and
    cleanup over the S3 objects and the Redis records all requests share. */
module FacadeService {
  import opened Models
  import opened Strings
  import opened FacadeArtifacts

  datatype Settings = Settings(inputBucket: string, outputBucket: string, inputPrefix: string, outputPrefix: string)

  const DEFAULT_SETTINGS := Settings("docling-input", "docling-output", "facade-uploads/", "facade-results/")

  const DEFAULT_TO_FORMATS := ["md"]

  datatype TaskRecord = TaskRecord(
    requestId: string,
    tenantId: Option<string>,
    filenames: seq<string>,
    toFormats: seq<string>,
    asZip: bool)

  datatype Upload = Upload(filename: Option<string>, body: Bytes)

  /** Objects by bucket and key. */
  type Store = map<(string, string), Bytes>

  datatype Submitted = Accepted(taskId: TaskId) | Refused(status: int)

  /** docling-serve's answer to the batch request. */
  datatype SubmitAnswer = Answered(status: int, taskId: TaskId) | NoAnswer

  /** docling-serve's own result: its bytes, and the count in them, which may be missing,
      null or a number, and the processing time, which may be missing. */
  datatype NativeResult =
    | Native(status: int, body: Bytes, numSucceeded: Option<Option<int>>, processingTime: Option<real>)
    | Unreachable

  /** The batch request posted to docling-serve. */
  datatype BatchRequest = BatchRequest(
    sourceBucket: string,
    sourcePrefix: string,
    targetBucket: string,
    targetPrefix: string,
    options: map<string, OptionValue>,
    tenantHeader: Option<string>)

  datatype Delivery =
    | Passthrough(status: int, body: Bytes)
    | Single(document: ExportDocument, verdict: string, processingTime: real)
    | Zip(entries: seq<ZipEntry>, statuses: seq<DocumentStatus>)
    | BadGateway

  /** Where one storage step of a cleanup fails, if it does. */
  datatype Fault = NoFault | ListFails | DeleteFails(deleted: set<string>)

  function InputPrefix(settings: Settings, requestId: string): string {
    settings.inputPrefix + requestId + "/"
  }

  function OutputPrefix(settings: Settings, requestId: string): string {
    settings.outputPrefix + requestId + "/"
  }

  predicate Under(p: (string, string), bucket: string, prefix: string) {
    p.0 == bucket && StartsWith(p.1, prefix)
  }

  /** The object belongs to the request: an upload or an output of it. */
  predicate Owned(settings: Settings, requestId: string, p: (string, string)) {
    Under(p, settings.inputBucket, InputPrefix(settings, requestId)) ||
    Under(p, settings.outputBucket, OutputPrefix(settings, requestId))
  }

  function NameOf(file: Upload): string {
    if file.filename.None? || file.filename.value == "" then "file.pdf" else file.filename.value
  }

  function NamesOf(files: seq<Upload>): seq<string> {
    seq(|files|, i requires 0 <= i < |files| => NameOf(files[i]))
  }

  /** The store after uploading `files` in order. */
  function Uploaded(store: Store, settings: Settings, requestId: string, files: seq<Upload>): Store {
    if files == [] then store
    else
      var last := files[|files| - 1];
      Uploaded(store, settings, requestId, files[..|files| - 1])
      [(settings.inputBucket, InputPrefix(settings, requestId) + NameOf(last)) := last.body]
  }

  /** Uploads touch nothing outside the request's input prefix. */
  lemma {:induction false} UploadsStayInside(
    store: Store, settings: Settings, requestId: string, files: seq<Upload>, p: (string, string))
    requires !Under(p, settings.inputBucket, InputPrefix(settings, requestId))
    ensures var store' := Uploaded(store, settings, requestId, files);
            (p in store' <==> p in store) && (p in store ==> store'[p] == store[p])
    decreases |files|
  {
    if files != [] {
      UploadsStayInside(store, settings, requestId, files[..|files| - 1], p);
    }
  }

  /** Every file ends up under its name, unless a later one has the same name. */
  lemma {:induction false} UploadsArrive(
    store: Store, settings: Settings, requestId: string, files: seq<Upload>, i: nat)
    requires i < |files| && forall j | i < j < |files| :: NameOf(files[j]) != NameOf(files[i])
    ensures var name := files[i].filename;
            var p := (settings.inputBucket,
                      settings.inputPrefix + requestId + "/" +
                      if name == None || name == Some("") then "file.pdf" else name.value);
            var store' := Uploaded(store, settings, requestId, files);
            p in store' && store'[p] == files[i].body
    decreases |files|
  {
    var n, prefix := |files| - 1, InputPrefix(settings, requestId);
    if i < n {
      UploadsArrive(store, settings, requestId, files[..n], i);
      KeysDiffer(prefix, NameOf(files[i]), NameOf(files[n]));
    }
  }

  lemma KeysDiffer(prefix: string, name: string, name': string)
    requires name != name'
    ensures prefix + name != prefix + name'
  {
    assert (prefix + name)[|prefix|..] == name && (prefix + name')[|prefix|..] == name';
  }

  function ObjectsOf(store: Store, bucket: string): (objects: map<string, Bytes>)
    ensures forall k :: k in objects <==> (bucket, k) in store
    ensures forall k | k in objects :: objects[k] == store[(bucket, k)]
  {
    map p | p in store && p.0 == bucket :: p.1 := store[p]
  }

  /** What S3 lists under a prefix: each key there once. */
  ghost predicate Lists(listing: seq<string>, store: Store, bucket: string, prefix: string) {
    && (forall k :: k in listing <==> (bucket, k) in store && StartsWith(k, prefix))
    && (forall i, j :: 0 <= i < j < |listing| ==> listing[i] != listing[j])
  }

  function Stems(filenames: seq<string>): seq<string> {
    seq(|filenames|, i requires 0 <= i < |filenames| => StemOf(filenames[i]))
  }

  /** The documents of a delivery: each filename with the artifacts of its stem. */
  function Documents(filenames: seq<string>, grouped: Grouped): seq<Document> {
    seq(|filenames|, i requires 0 <= i < |filenames| =>
      Document(filenames[i], StemOf(filenames[i]), OfStem(grouped, StemOf(filenames[i]))))
  }

  function Statuses(documents: seq<Document>): seq<DocumentStatus> {
    seq(|documents|, i requires 0 <= i < |documents| =>
      DocumentStatus(documents[i].filename, documents[i].artifacts != []))
  }

  /** The delivery put together from a request's grouped artifacts; `time` is docling's
      processing time, if it gave one. */
  function Rebuilt(record: TaskRecord, grouped: Grouped, time: Option<real>): Delivery
    requires record.filenames != []
  {
    var documents := Documents(record.filenames, grouped);
    if record.asZip || |record.filenames| > 1 then
      Zip(AllEntries(documents) + [StatusFile(Statuses(documents))], Statuses(documents))
    else
      Single(ExportDocument(documents[0].filename, Fields(documents[0].artifacts)), "success",
             if time.Some? then time.value else 0.0)
  }

  /** Python's `list(...)` of an option's value: a string gives its characters. */
  function ListOf(v: OptionValue): seq<string> {
    match v
    case Scalar(text) => seq(|text|, i requires 0 <= i < |text| => [text[i]])
    case Array(items) => items
  }

  /** A cleanup of the request takes nothing but its objects, and all of them if it gets
      through. */
  ghost predicate Cleaned(settings: Settings, requestId: string, store: Store, store': Store, completed: bool) {
    && store'.Keys <= store.Keys
    && (forall p | p in store' :: store'[p] == store[p])
    && (forall p | p in store && !Owned(settings, requestId, p) :: p in store')
    && (completed ==> forall p | p in store' :: !Owned(settings, requestId, p))
  }

  /** docling-serve reports something converted. */
  predicate Converted(native: NativeResult) {
    native.Native? && native.status < 400 && native.numSucceeded.Some? && native.numSucceeded.value != Some(0)
  }

  /** What counts as converted: docling's answer is no error and has a count other than
      zero; a missing count counts as zero, a null one does not. */
  lemma ConvertedExactly(native: NativeResult)
    ensures native.Unreachable? ==> !Converted(native)
    ensures native.Native? ==>
              (Converted(native) <==>
                 native.status < 400 &&
                 match native.numSucceeded
                 case None => false
                 case Some(None) => true
                 case Some(Some(n)) => n != 0)
  {}

  class Facade {
    const settings: Settings
    var s3: Store
    var redis: map<TaskId, TaskRecord>
    var posted: seq<BatchRequest>
    var scheduled: seq<(TaskId, TaskRecord)>  // background cleanups

    constructor (settings: Settings)
      ensures this.settings == settings && s3 == map[] && redis == map[] && posted == [] && scheduled == [] && Valid()
    {
      this.settings := settings;
      s3, redis, posted, scheduled := map[], map[], [], [];
    }

    /** Requests without files are refused before they get here. */
    ghost predicate Valid()
      reads this
    {
      forall t | t in redis :: redis[t].filenames != []
    }

    /** submit_file_upload; the uploads fail at the `reachable`-th, if there are so many.
        A record that cannot be written is an internal error: the task runs unrecorded. */
    method SubmitFileUpload(
      files: seq<Upload>, options: map<string, OptionValue>, asZip: bool, tenantId: Option<string>,
      requestId: string, reachable: nat, answer: SubmitAnswer, recordFails: bool)
      returns (r: Submitted)
      requires Valid() && files != []
      modifies this`s3, this`redis, this`posted
      ensures Valid()
      ensures posted == old(posted) +
        if reachable < |files| then []
        else [BatchRequest(settings.inputBucket, settings.inputPrefix + requestId + "/",
                           settings.outputBucket, settings.outputPrefix + requestId + "/", options,
                           if tenantId == Some("") then None else tenantId)]
      ensures s3 == Uploaded(old(s3), settings, requestId, if reachable < |files| then files[..reachable] else files)
      ensures r.Accepted? <==> reachable >= |files| && answer.Answered? && answer.status < 400 && !recordFails
      ensures r.Accepted? ==> r.taskId == answer.taskId
      ensures r.Accepted? ==>
        redis == old(redis)[answer.taskId :=
          TaskRecord(requestId, tenantId, NamesOf(files),
                     if "to_formats" in options then ListOf(options["to_formats"]) else ["md"], asZip)]
      ensures r.Accepted? && "to_formats" in options && options["to_formats"].Array? ==>
        redis[answer.taskId].toFormats == options["to_formats"].items
      ensures r.Refused? ==> redis == old(redis)
      ensures r.Refused? ==>
        r.status ==
        if reachable < |files| || answer.NoAnswer? then 502 else if answer.status >= 400 then answer.status else 500
    {
      var filenames: seq<string> := [];
      for i := 0 to |files|
        invariant i <= reachable
        invariant filenames == NamesOf(files[..i])
        invariant s3 == Uploaded(old(s3), settings, requestId, files[..i])
        invariant redis == old(redis) && posted == old(posted)
      {
        if i == reachable {
          return Refused(502);
        }
        var name := NameOf(files[i]);
        filenames := filenames + [name];
        assert files[..i + 1][..i] == files[..i];
        s3 := s3[(settings.inputBucket, InputPrefix(settings, requestId) + name) := files[i].body];
      }
      assert files[..|files|] == files;
      var header := if tenantId.None? || tenantId.value == "" then None else tenantId;
      posted := posted + [BatchRequest(settings.inputBucket, InputPrefix(settings, requestId), settings.outputBucket,
                                       OutputPrefix(settings, requestId), options, header)];
      if answer.NoAnswer? {
        return Refused(502);
      }
      if answer.status >= 400 {
        return Refused(answer.status);
      }
      if recordFails {
        return Refused(500);
      }
      var formats := if "to_formats" in options then ListOf(options["to_formats"]) else DEFAULT_TO_FORMATS;
      redis := redis[answer.taskId := TaskRecord(requestId, tenantId, filenames, formats, asZip)];
      return Accepted(answer.taskId);
    }

    /** resolve_result, given docling's own result, the listing of the request's outputs,
        and whether the objects could be read. A cleanup is scheduled exactly for a
        delivery that was put together again; nothing is deleted yet. */
    method ResolveResult(taskId: TaskId, native: NativeResult, listing: seq<string>, readable: bool)
      returns (d: Delivery)
      requires Valid()
      requires taskId in redis ==>
        Lists(listing, s3, settings.outputBucket, OutputPrefix(settings, redis[taskId].requestId))
      modifies this`scheduled
      ensures taskId !in redis || !Converted(native) ==>
        d == (if native.Unreachable? then BadGateway else Passthrough(native.status, native.body))
      ensures taskId in redis && Converted(native) && !readable ==> d.BadGateway?
      ensures d.Single? || d.Zip? <==> taskId in redis && Converted(native) && readable
      ensures scheduled == old(scheduled) + if d.Single? || d.Zip? then [(taskId, redis[taskId])] else []
      ensures d.Single? || d.Zip? ==>
        d == Rebuilt(redis[taskId],
                     Group(OutputPrefix(settings, redis[taskId].requestId), listing,
                           ObjectsOf(s3, settings.outputBucket)),
                     native.processingTime)
    {
      if native.Unreachable? {
        return BadGateway;
      }
      if taskId !in redis || native.status >= 400 {
        return Passthrough(native.status, native.body);
      }
      var record := redis[taskId];
      if native.numSucceeded.None? || native.numSucceeded.value == Some(0) {
        return Passthrough(native.status, native.body);
      }
      if !readable {
        return BadGateway;
      }
      var prefix := OutputPrefix(settings, record.requestId);
      var grouped := FetchArtifactsByStem(prefix, listing, ObjectsOf(s3, settings.outputBucket));
      scheduled := scheduled + [(taskId, record)];
      if record.asZip || |record.filenames| > 1 {
        var documents := Documents(record.filenames, grouped);
        var entries, statuses := BuildZipArchive(documents);
        assert statuses == Statuses(documents);
        return Zip(entries, statuses);
      }
      var filename := record.filenames[0];
      var document := BuildExportDocumentResponse(filename, OfStem(grouped, StemOf(filename)));
      return Single(document, "success", if native.processingTime.Some? then native.processingTime.value else 0.0);
    }

    /** Lists the objects under a prefix and deletes them; a fault may stop it before, or
        with some of them deleted. */
    method DeleteUnder(bucket: string, prefix: string, fault: Fault) returns (ok: bool)
      modifies this`s3
      ensures s3.Keys <= old(s3.Keys)
      ensures forall p | p in s3 :: s3[p] == old(s3)[p]
      ensures forall p | p in old(s3) && !Under(p, bucket, prefix) :: p in s3
      ensures ok ==> forall p | p in s3 :: !Under(p, bucket, prefix)
      ensures fault.NoFault? ==> ok
      ensures fault.ListFails? ==> !ok
    {
      if fault.ListFails? {
        return false;
      }
      var keys := set p | p in s3 && Under(p, bucket, prefix);
      assert forall p | p in s3 && Under(p, bucket, prefix) :: p in keys;
      if keys != {} {
        if fault.DeleteFails? {
          s3 := s3 - set p | p in keys && p.1 in fault.deleted;
          return false;
        }
        s3 := s3 - keys;
      }
      return true;
    }

    /** _cleanup_task_storage: the uploads, the outputs, the record, in this order; a
        failure at any point stops it there and is only logged. */
    method CleanupTaskStorage(taskId: TaskId, record: TaskRecord, input: Fault, output: Fault, recordFails: bool)
      returns (completed: bool)
      modifies this`s3, this`redis
      ensures Cleaned(settings, record.requestId, old(s3), s3, completed)
      ensures redis == if completed then old(redis) - {taskId} else old(redis)
      ensures input.NoFault? && output.NoFault? && !recordFails ==> completed
      ensures recordFails || input.ListFails? || output.ListFails? ==> !completed
      // Uploads go first: no other object goes while one of them is left.
      ensures forall p, q | p in old(s3) && p !in s3 && q in s3 ::
        Under(q, settings.inputBucket, InputPrefix(settings, record.requestId)) ==>
        Under(p, settings.inputBucket, InputPrefix(settings, record.requestId))
      ensures forall t | t in old(redis) && t != taskId :: t in redis && redis[t] == old(redis)[t]
      ensures Separate(settings) && IsRequestId(record.requestId) ==>
        forall r, p | IsRequestId(r) && r != record.requestId && p in old(s3) && Owned(settings, r, p) ::
          p in s3 && s3[p] == old(s3)[p]
    {
      if Separate(settings) && IsRequestId(record.requestId) {
        forall r, p | IsRequestId(r) && r != record.requestId && Owned(settings, r, p)
          ensures !Owned(settings, record.requestId, p)
        {
          RequestsAreSeparate(settings, r, record.requestId, p);
        }
      }
      var ok := DeleteUnder(settings.inputBucket, InputPrefix(settings, record.requestId), input);
      if !ok {
        return false;
      }
      ok := DeleteUnder(settings.outputBucket, OutputPrefix(settings, record.requestId), output);
      if !ok || recordFails {
        return false;
      }
      redis := redis - {taskId};
      return true;
    }
  }

  // Request ids: version 4 UUIDs in their text form (section 4 of RFC 9562).

  function IdChars(i: nat): string {
    if i == 8 || i == 13 || i == 18 || i == 23 then "-"
    else if i == 14 then "4"
    else if i == 19 then "89ab"
    else "0123456789abcdef"
  }

  const ID_LENGTH: nat := 36

  predicate IsRequestId(s: string) {
    |s| == ID_LENGTH && forall i :: 0 <= i < ID_LENGTH ==> s[i] in IdChars(i)
  }

  lemma RequestIdsAreSlashFree(r: string)
    requires IsRequestId(r)
    ensures '/' !in r
  {
    forall i | 0 <= i < |r| ensures r[i] != '/' {
      assert r[i] in IdChars(i);
    }
  }

  /** One request's area of `b` lies within another's area of `a`: `b` is `a`, a request
      id, a slash, and anything. */
  predicate Nests(a: string, b: string) {
    StartsWith(b, a) && |b| > |a| + ID_LENGTH && IsRequestId(b[|a|..|a| + ID_LENGTH]) && b[|a| + ID_LENGTH] == '/'
  }

  /** No request can own an object of another: the buckets differ, or neither prefix goes
      on from the other with a request id and a slash. */
  predicate Separate(settings: Settings) {
    || settings.inputBucket != settings.outputBucket
    || (!Nests(settings.inputPrefix, settings.outputPrefix) && !Nests(settings.outputPrefix, settings.inputPrefix))
  }

  /** With ids of one length, an object below both `a/r/` and `b/r'/`, `a` being no longer
      than `b`, has `b` equal to `a` or within `a/r/`. */
  lemma CommonObject(a: string, r: string, b: string, r': string, k: string)
    requires StartsWith(k, a + r + "/") && StartsWith(k, b + r' + "/")
    requires |a| <= |b| && |r| == |r'| && '/' !in r && '/' !in r'
    ensures (a == b && r == r') || (a != b && StartsWith(b, a + r + "/"))
  {
    var n := |r|;
    assert a + r + "/" == k[..|a| + n + 1] && b + r' + "/" == k[..|b| + n + 1];
    assert a == k[..|a|] && b == k[..|b|] && r == k[|a|..|a| + n] && r' == k[|b|..|b| + n];
    assert k[|a| + n] == '/';
    forall y | |b| <= y < |b| + n ensures k[y] != '/' {
      assert k[y] == r'[y - |b|];
    }
    if |b| > |a| + n {
      assert k[..|b|][..|a| + n + 1] == k[..|a| + n + 1];
    }
  }

  lemma NestedPrefix(a: string, b: string, r: string)
    requires IsRequestId(r) && StartsWith(b, a + r + "/")
    ensures Nests(a, b)
  {
    assert a + r + "/" == b[..|a| + ID_LENGTH + 1];
    assert b[..|a|] == a && b[|a|..|a| + ID_LENGTH] == r && b[|a| + ID_LENGTH] == '/';
  }

  /** Cleanup frame: with separate settings, no object belongs to two requests, so the
      cleanup of one, completed or stopped anywhere, leaves all objects of the others. */
  lemma RequestsAreSeparate(settings: Settings, r: string, r': string, p: (string, string))
    requires Separate(settings) && IsRequestId(r) && IsRequestId(r') && r != r'
    ensures !(Owned(settings, r, p) && Owned(settings, r', p))
  {
    RequestIdsAreSlashFree(r);
    RequestIdsAreSlashFree(r');
    var i, o := settings.inputPrefix, settings.outputPrefix;
    if Owned(settings, r, p) && Owned(settings, r', p) {
      var a := if Under(p, settings.inputBucket, InputPrefix(settings, r)) then i else o;
      var b := if Under(p, settings.inputBucket, InputPrefix(settings, r')) then i else o;
      if |a| <= |b| {
        CommonObject(a, r, b, r', p.1);
        NestedPrefix(a, b, r);
      } else {
        CommonObject(b, r', a, r, p.1);
        NestedPrefix(b, a, r');
      }
    }
  }

  lemma NestedStart(a: string, b: string)
    requires Nests(a, b)
    ensures var r := b[|a|..|a| + ID_LENGTH]; IsRequestId(r) && a + r + "/" == b[..|a| + ID_LENGTH + 1]
  {}

  /** Some request id other than `r`. */
  lemma AnotherId(r: string) returns (r': string)
    ensures IsRequestId(r') && r' != r
  {
    var zero := seq(ID_LENGTH, i requires 0 <= i < ID_LENGTH => IdChars(i)[0]);
    var one := zero[0 := '1'];
    assert one[0] != zero[0];
    r' := if r == zero then one else zero;
  }

  /** Two different requests that own a common object. */
  ghost predicate Shared(settings: Settings, r: string, r': string, p: (string, string)) {
    IsRequestId(r) && IsRequestId(r') && r != r' && Owned(settings, r, p) && Owned(settings, r', p)
  }

  /** For a prefix `b` nested in `a`: the two requests, and a key below both areas. */
  lemma SharedKey(a: string, b: string) returns (r: string, r': string, k: string)
    requires Nests(a, b)
    ensures IsRequestId(r) && IsRequestId(r') && r != r'
    ensures StartsWith(k, a + r + "/") && StartsWith(k, b + r' + "/")
  {
    r := b[|a|..|a| + ID_LENGTH];
    r' := AnotherId(r);
    k := b + r' + "/";
    NestedStart(a, b);
    assert b == k[..|b|] && k[..|b|][..|a| + ID_LENGTH + 1] == k[..|a| + ID_LENGTH + 1];
  }

  /** The condition is exact for the ids the facade makes: without it two requests own a
      common object, which the cleanup of either deletes. */
  lemma SeparationIsExact(settings: Settings)
    ensures Separate(settings) <==> forall r, r', p :: !Shared(settings, r, r', p)
  {
    var i, o := settings.inputPrefix, settings.outputPrefix;
    if !Separate(settings) {
      var r, r', k;
      if Nests(i, o) {
        r, r', k := SharedKey(i, o);
      } else {
        r, r', k := SharedKey(o, i);
      }
      assert Shared(settings, r, r', (settings.inputBucket, k));
    } else {
      forall r, r', p ensures !Shared(settings, r, r', p) {
        if IsRequestId(r) && IsRequestId(r') && r != r' {
          RequestsAreSeparate(settings, r, r', p);
        }
      }
    }
  }

  lemma DefaultsAreSeparate()
    ensures Separate(DEFAULT_SETTINGS) && DEFAULT_SETTINGS.inputBucket != DEFAULT_SETTINGS.outputBucket
  {
    assert DEFAULT_SETTINGS.inputBucket[8] == 'i' && DEFAULT_SETTINGS.outputBucket[8] == 'o';
  }
}
