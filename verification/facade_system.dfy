/** All of the facade's requests at once: uploads, docling's writes, deliveries and
    cleanups of many requests, interleaved request by request to S3 and Redis
    (src/facade/service.py). */
module FacadeSystem {
  import opened Models
  import opened Strings
  import opened FacadeArtifacts
  import opened FacadeService
  import opened FacadeDeliveries

  /** One request: what was uploaded, in order and by name; what docling produced for it,
      and whether docling is done; its task once recorded; whether a cleanup has begun. */
  datatype Work = Work(
    filenames: seq<string>,
    uploaded: map<string, Bytes>,
    posted: bool,
    made: seq<Produced>,
    finished: bool,
    task: Option<TaskId>,
    cleaning: bool)

  /** A delivery, with docling's processing time, and whether it was made before any cleanup of its request began. */
  datatype Delivered = Delivered(record: TaskRecord, time: Option<real>, delivery: Delivery, undisturbed: bool)

  datatype System = System(
    store: Store,
    records: map<TaskId, TaskRecord>,
    work: map<string, Work>,
    scheduled: set<(TaskId, TaskRecord)>,
    log: seq<Delivered>)

  datatype Action =
    | Begin(requestId: string)
    | Upload(requestId: string, name: string, body: Bytes)
    | Post(requestId: string)
    | Produce(requestId: string, product: Produced)
    | Finish(requestId: string)
    | Record(requestId: string, taskId: TaskId, tenantId: Option<string>, toFormats: seq<string>, asZip: bool)
    | Deliver(taskId: TaskId, listing: seq<string>, time: Option<real>)
    | Delete(taskId: TaskId, record: TaskRecord, objects: set<(string, string)>)  // any part of a cleanup's deletes
    | Forget(taskId: TaskId, record: TaskRecord)                                 // a cleanup's last step

  function StemsOf(w: Work): seq<string> {
    Stems(w.filenames)
  }

  ghost predicate Enabled(settings: Settings, s: System, a: Action) {
    match a
    case Begin(r) => IsRequestId(r) && r !in s.work
    case Upload(r, name, _) => r in s.work && !s.work[r].posted
    case Post(r) => r in s.work && !s.work[r].posted && s.work[r].filenames != []
    case Produce(r, p) =>
      r in s.work && s.work[r].posted && !s.work[r].finished &&
      p.doc < |s.work[r].filenames| && p.format < |EXTENSION_TO_FIELD| && IsDirs(p.dirs) &&
      OncePerFormat(s.work[r].made + [p])
    case Finish(r) => r in s.work && s.work[r].posted
    case Record(r, t, _, _, _) =>
      r in s.work && s.work[r].posted && s.work[r].task.None? &&
      (forall r' | r' in s.work :: s.work[r'].task != Some(t))
    case Deliver(t, listing, _) =>
      t in s.records && s.records[t].filenames != [] &&
      s.records[t].requestId in s.work && s.work[s.records[t].requestId].finished &&
      Lists(listing, s.store, settings.outputBucket, OutputPrefix(settings, s.records[t].requestId))
    case Delete(t, record, objects) =>
      (t, record) in s.scheduled && record.requestId in s.work &&
      forall p | p in objects :: Owned(settings, record.requestId, p)
    case Forget(t, record) => (t, record) in s.scheduled && record.requestId in s.work
  }

  function InputOf(settings: Settings, r: string, name: string): (string, string) {
    (settings.inputBucket, InputPrefix(settings, r) + name)
  }

  function OutputOf(settings: Settings, r: string, stems: seq<string>, p: Produced): (string, string)
    requires p.doc < |stems| && p.format < |EXTENSION_TO_FIELD|
  {
    (settings.outputBucket, KeyOf(OutputPrefix(settings, r), stems, p))
  }

  /** The work on one request after an action on it. */
  function Working(w: Work, a: Action): Work {
    match a
    case Upload(_, name, body) => w.(filenames := w.filenames + [name], uploaded := w.uploaded[name := body])
    case Post(_) => w.(posted := true)
    case Produce(_, p) => w.(made := w.made + [p])
    case Finish(_) => w.(finished := true)
    case Record(_, t, _, _, _) => w.(task := Some(t))
    case Delete(_, _, _) => w.(cleaning := true)
    case Forget(_, _) => w.(cleaning := true)
    case _ => w
  }

  const NEW := Work([], map[], false, [], false, None, false)

  /** The request an action is about. */
  function About(s: System, a: Action): string
    requires a.Deliver? ==> a.taskId in s.records
  {
    match a
    case Deliver(t, _, _) => s.records[t].requestId
    case Delete(_, record, _) => record.requestId
    case Forget(_, record) => record.requestId
    case _ => a.requestId
  }

  function StoreAfter(settings: Settings, s: System, a: Action): Store
    requires a.Produce? ==>
      a.requestId in s.work && a.product.doc < |StemsOf(s.work[a.requestId])| && a.product.format < |EXTENSION_TO_FIELD|
  {
    match a
    case Upload(r, name, body) => s.store[InputOf(settings, r, name) := body]
    case Produce(r, p) => s.store[OutputOf(settings, r, StemsOf(s.work[r]), p) := p.body]
    case Delete(_, _, objects) => s.store - objects
    case _ => s.store
  }

  function RecordsAfter(s: System, a: Action): map<TaskId, TaskRecord> {
    match a
    case Record(r, t, tenantId, toFormats, asZip) =>
      if r in s.work then s.records[t := TaskRecord(r, tenantId, s.work[r].filenames, toFormats, asZip)] else s.records
    case Forget(t, _) => s.records - {t}
    case _ => s.records
  }

  /** What the facade answers for task `t`. */
  function Answer(settings: Settings, s: System, t: TaskId, listing: seq<string>, time: Option<real>): Delivery
    requires t in s.records && s.records[t].filenames != []
    requires forall k | k in listing :: (settings.outputBucket, k) in s.store
  {
    var prefix := OutputPrefix(settings, s.records[t].requestId);
    Rebuilt(s.records[t], Group(prefix, listing, ObjectsOf(s.store, settings.outputBucket)), time)
  }

  function WorkAfter(s: System, a: Action): Work
    requires a.Deliver? ==> a.taskId in s.records
    requires !a.Begin? ==> About(s, a) in s.work
  {
    if a.Begin? then NEW else Working(s.work[About(s, a)], a)
  }

  ghost function Effect(settings: Settings, s: System, a: Action): System
    requires Enabled(settings, s, a)
  {
    var r := About(s, a);
    var s' := s.(store := StoreAfter(settings, s, a), records := RecordsAfter(s, a),
                 work := s.work[r := WorkAfter(s, a)]);
    if a.Deliver? then
      var record := s.records[a.taskId];
      s'.(scheduled := s.scheduled + {(a.taskId, record)},
          log := s.log +
                 [Delivered(record, a.time, Answer(settings, s, a.taskId, a.listing, a.time), !s.work[r].cleaning)])
    else s'
  }

  /** The work on a request makes sense by itself. */
  ghost predicate Sound(w: Work) {
    && (w.posted ==> w.filenames != [])
    && (!w.posted ==> w.made == [] && w.task.None? && !w.finished)
    && (w.cleaning ==> w.finished)
    && InRange(StemsOf(w), w.made) && OncePerFormat(w.made)
    && (forall name :: name in w.uploaded <==> name in w.filenames)
  }

  /** The uploads are in place, and, where stems tell documents apart, the output prefix
      holds exactly what was produced. */
  ghost predicate InPlace(settings: Settings, store: Store, r: string, w: Work)
    requires InRange(StemsOf(w), w.made)
  {
    && (forall name | name in w.uploaded ::
          InputOf(settings, r, name) in store && store[InputOf(settings, r, name)] == w.uploaded[name])
    && (TellApart(StemsOf(w)) || w.made == [] ==>
          Holds(store, settings.outputBucket, OutputPrefix(settings, r), StemsOf(w), w.made))
  }

  /** The record of `t` is of the request that `t` was recorded for. */
  ghost predicate Recorded(s: System, t: TaskId)
    requires t in s.records
  {
    var record := s.records[t];
    record.requestId in s.work && s.work[record.requestId].task == Some(t) &&
    record.filenames == s.work[record.requestId].filenames
  }

  /** A scheduled cleanup is of a request that was delivered, under its own task. */
  ghost predicate Due(s: System, c: (TaskId, TaskRecord)) {
    var r := c.1.requestId;
    r in s.work && s.work[r].finished && s.work[r].task == Some(c.0) && WasDelivered(s, r)
  }

  ghost predicate WasDelivered(s: System, r: string) {
    exists e :: e in s.log && e.record.requestId == r
  }

  /** A delivery made undisturbed carries what was produced for its request. */
  ghost predicate OwnDelivery(s: System, e: Delivered) {
    var r := e.record.requestId;
    && r in s.work && s.work[r].finished && e.record.filenames == s.work[r].filenames
    && (e.undisturbed && TellApart(StemsOf(s.work[r])) ==>
          Carries(e.record.filenames, e.record.asZip, e.time, s.work[r].made, e.delivery))
  }

  /** A request that no cleanup has touched has everything in place, and its record. */
  ghost predicate Untouched(settings: Settings, s: System, r: string)
    requires r in s.work && InRange(StemsOf(s.work[r]), s.work[r].made)
  {
    var w := s.work[r];
    InPlace(settings, s.store, r, w) &&
    (w.task.Some? ==> w.task.value in s.records && s.records[w.task.value].requestId == r)
  }

  ghost predicate OtherTask(w: Work, w': Work) {
    w.task.Some? ==> w'.task != w.task
  }

  ghost predicate Inv(settings: Settings, s: System) {
    && (forall r | r in s.work :: IsRequestId(r) && Sound(s.work[r]))
    && (forall r | r in s.work :: !s.work[r].cleaning ==> Untouched(settings, s, r))
    && (forall r | r in s.work :: s.work[r].cleaning ==> WasDelivered(s, r))
    && (forall r, r' | r in s.work && r' in s.work && r != r' :: OtherTask(s.work[r], s.work[r']))
    && (forall t | t in s.records :: Recorded(s, t))
    && (forall c | c in s.scheduled :: Due(s, c))
    && (forall e | e in s.log :: OwnDelivery(s, e))
    && (forall p | p in s.store :: exists r :: r in s.work && Owned(settings, r, p))
  }

  /** An object is there and the same, or absent from both. */
  ghost predicate SameAt(store: Store, store': Store, p: (string, string)) {
    (p in store <==> p in store') && (p in store ==> store[p] == store'[p])
  }

  /** No upload of a request lies among its outputs. */
  predicate UploadsApart(settings: Settings) {
    settings.inputBucket != settings.outputBucket || settings.inputPrefix != settings.outputPrefix
  }

  lemma AreasApart(settings: Settings, r: string, p: (string, string))
    requires Separate(settings) && UploadsApart(settings) && IsRequestId(r)
    ensures !(Under(p, settings.inputBucket, InputPrefix(settings, r)) &&
              Under(p, settings.outputBucket, OutputPrefix(settings, r)))
  {
    RequestIdsAreSlashFree(r);
    var i, o := settings.inputPrefix, settings.outputPrefix;
    if Under(p, settings.inputBucket, InputPrefix(settings, r)) &&
       Under(p, settings.outputBucket, OutputPrefix(settings, r)) {
      if |i| <= |o| {
        CommonObject(i, r, o, r, p.1);
        NestedPrefix(i, o, r);
      } else {
        CommonObject(o, r, i, r, p.1);
        NestedPrefix(o, i, r);
      }
    }
  }

  /** An object that is an upload and an output of one request. */
  ghost predicate Confused(settings: Settings, r: string, p: (string, string)) {
    IsRequestId(r) && Under(p, settings.inputBucket, InputPrefix(settings, r)) &&
    Under(p, settings.outputBucket, OutputPrefix(settings, r))
  }

  /** The condition is exact: with one bucket and one prefix, an upload is itself taken for
      an artifact. */
  lemma UploadsApartIsExact(settings: Settings)
    requires Separate(settings)
    ensures UploadsApart(settings) <==> forall r, p :: !Confused(settings, r, p)
  {
    if UploadsApart(settings) {
      forall r, p ensures !Confused(settings, r, p) {
        if IsRequestId(r) {
          AreasApart(settings, r, p);
        }
      }
    } else {
      var r := AnotherId("");
      assert Confused(settings, r, (settings.inputBucket, InputPrefix(settings, r)));
    }
  }

  lemma InputIsOwned(settings: Settings, r: string, name: string)
    ensures Under(InputOf(settings, r, name), settings.inputBucket, InputPrefix(settings, r))
    ensures Owned(settings, r, InputOf(settings, r, name))
  {}

  lemma OutputIsOwned(settings: Settings, r: string, stems: seq<string>, p: Produced)
    requires p.doc < |stems| && p.format < |EXTENSION_TO_FIELD|
    ensures Under(OutputOf(settings, r, stems, p), settings.outputBucket, OutputPrefix(settings, r))
    ensures Owned(settings, r, OutputOf(settings, r, stems, p))
  {
    var prefix := OutputPrefix(settings, r);
    assert KeyOf(prefix, stems, p) == prefix + (p.dirs + stems[p.doc] + EXTENSION_TO_FIELD[p.format].0);
  }

  /** An action changes only objects of the request it is about. */
  lemma StoreFrame(settings: Settings, s: System, a: Action, p: (string, string))
    requires Enabled(settings, s, a) && !Owned(settings, About(s, a), p)
    ensures SameAt(s.store, StoreAfter(settings, s, a), p)
  {
    if a.Upload? {
      InputIsOwned(settings, a.requestId, a.name);
    } else if a.Produce? {
      OutputIsOwned(settings, a.requestId, StemsOf(s.work[a.requestId]), a.product);
    }
  }

  lemma InPlaceFrame(settings: Settings, store: Store, store': Store, r: string, w: Work, w': Work)
    requires InRange(StemsOf(w), w.made) && InPlace(settings, store, r, w)
    requires w'.filenames == w.filenames && w'.uploaded == w.uploaded && w'.made == w.made
    requires forall p | Owned(settings, r, p) :: SameAt(store, store', p)
    ensures InPlace(settings, store', r, w')
  {
    forall name | name in w.uploaded
      ensures InputOf(settings, r, name) in store' && store'[InputOf(settings, r, name)] == w.uploaded[name]
    {
      InputIsOwned(settings, r, name);
    }
    if TellApart(StemsOf(w)) || w.made == [] {
      HoldsFrame(settings, store, store', r, StemsOf(w), w.made);
    }
  }

  lemma HoldsFrame(settings: Settings, store: Store, store': Store, r: string, stems: seq<string>, made: seq<Produced>)
    requires InRange(stems, made) && Holds(store, settings.outputBucket, OutputPrefix(settings, r), stems, made)
    requires forall p | Under(p, settings.outputBucket, OutputPrefix(settings, r)) :: SameAt(store, store', p)
    ensures Holds(store', settings.outputBucket, OutputPrefix(settings, r), stems, made)
  {
    var b, prefix := settings.outputBucket, OutputPrefix(settings, r);
    forall k
      ensures (b, k) in store' && StartsWith(k, prefix) <==> exists p :: p in made && KeyOf(prefix, stems, p) == k
    {
      if StartsWith(k, prefix) {
        assert SameAt(store, store', (b, k));
      }
    }
    forall p | p in made
      ensures (b, KeyOf(prefix, stems, p)) in store' && store'[(b, KeyOf(prefix, stems, p))] == p.body
    {
      OutputIsOwned(settings, r, stems, p);
      assert SameAt(store, store', (b, KeyOf(prefix, stems, p)));
    }
  }

  /** A new request starts with nothing. */
  lemma BeginInPlace(settings: Settings, s: System, r: string)
    requires Inv(settings, s) && Separate(settings) && IsRequestId(r) && r !in s.work
    ensures InPlace(settings, s.store, r, NEW)
  {
    forall p | p in s.store ensures !Owned(settings, r, p) {
      var r' :| r' in s.work && Owned(settings, r', p);
      RequestsAreSeparate(settings, r, r', p);
    }
    var b, prefix := settings.outputBucket, OutputPrefix(settings, r);
    forall k ensures !((b, k) in s.store && StartsWith(k, prefix)) {
      assert StartsWith(k, prefix) ==> Owned(settings, r, (b, k));
    }
  }

  lemma UploadInPlace(settings: Settings, store: Store, r: string, w: Work, name: string, body: Bytes)
    requires Separate(settings) && UploadsApart(settings) && IsRequestId(r)
    requires w.made == [] && InPlace(settings, store, r, w)
    ensures InPlace(settings, store[InputOf(settings, r, name) := body], r, Working(w, Action.Upload(r, name, body)))
  {
    var store' := store[InputOf(settings, r, name) := body];
    forall n | n in w.uploaded && n != name ensures InputOf(settings, r, n) != InputOf(settings, r, name) {
      assert InputOf(settings, r, n).1[|InputPrefix(settings, r)|..] == n;
      assert InputOf(settings, r, name).1[|InputPrefix(settings, r)|..] == name;
    }
    InputIsOwned(settings, r, name);
    AreasApart(settings, r, InputOf(settings, r, name));
    HoldsFrame(settings, store, store', r, StemsOf(w), w.made);
  }

  lemma ProduceHolds(settings: Settings, store: Store, r: string, stems: seq<string>, made: seq<Produced>, p: Produced)
    requires TellApart(stems) && InRange(stems, made + [p]) && InRange(stems, made) && OncePerFormat(made + [p])
    requires p.doc < |stems| && p.format < |EXTENSION_TO_FIELD|
    requires Holds(store, settings.outputBucket, OutputPrefix(settings, r), stems, made)
    ensures Holds(store[OutputOf(settings, r, stems, p) := p.body], settings.outputBucket, OutputPrefix(settings, r),
                  stems, made + [p])
  {
    var b, prefix, all := settings.outputBucket, OutputPrefix(settings, r), made + [p];
    var store' := store[OutputOf(settings, r, stems, p) := p.body];
    OutputIsOwned(settings, r, stems, p);
    forall q | q in all
      ensures (b, KeyOf(prefix, stems, q)) in store' && store'[(b, KeyOf(prefix, stems, q))] == q.body
    {
      assert p in all;
      if KeyOf(prefix, stems, q) == KeyOf(prefix, stems, p) {
        KeysTellApart(prefix, stems, all, q, p);
      } else {
        assert q in made;
      }
    }
    forall k
      ensures (b, k) in store' && StartsWith(k, prefix) <==> exists q :: q in all && KeyOf(prefix, stems, q) == k
    {
      if (b, k) in store' && StartsWith(k, prefix) {
        if k == KeyOf(prefix, stems, p) {
          assert p in all;
        } else {
          assert (b, k) in store;
          var q :| q in made && KeyOf(prefix, stems, q) == k;
          assert q in all;
        }
      }
      if q :| q in all && KeyOf(prefix, stems, q) == k {
        OutputIsOwned(settings, r, stems, q);
      }
    }
  }

  lemma ProduceInPlace(settings: Settings, store: Store, r: string, w: Work, p: Produced)
    requires Separate(settings) && UploadsApart(settings) && IsRequestId(r)
    requires Sound(w) && InPlace(settings, store, r, w)
    requires InRange(StemsOf(w), [p]) && OncePerFormat(w.made + [p])
    requires p.doc < |StemsOf(w)| && p.format < |EXTENSION_TO_FIELD| && IsDirs(p.dirs)
    ensures InRange(StemsOf(w), w.made + [p])
    ensures InPlace(settings, store[OutputOf(settings, r, StemsOf(w), p) := p.body], r, Working(w, Produce(r, p)))
  {
    OutputIsOwned(settings, r, StemsOf(w), p);
    AreasApart(settings, r, OutputOf(settings, r, StemsOf(w), p));
    forall name | name in w.uploaded ensures InputOf(settings, r, name) != OutputOf(settings, r, StemsOf(w), p) {
      InputIsOwned(settings, r, name);
    }
    if TellApart(StemsOf(w)) {
      ProduceHolds(settings, store, r, StemsOf(w), w.made, p);
    }
  }

  lemma ProducedSound(w: Work, r: string, p: Produced)
    requires Sound(w) && p.doc < |w.filenames| && p.format < |EXTENSION_TO_FIELD| && IsDirs(p.dirs)
    requires w.posted && !w.finished && OncePerFormat(w.made + [p])
    ensures Sound(Working(w, Produce(r, p)))
  {
    assert forall q | q in w.made + [p] :: q in w.made || q == p;
  }

  /** Each action keeps the sense of its request's own work. */
  lemma WorkingSound(settings: Settings, s: System, a: Action)
    requires Inv(settings, s) && Enabled(settings, s, a) && !a.Begin?
    ensures Sound(WorkAfter(s, a))
  {
    var w := s.work[About(s, a)];
    assert Sound(w);
    if a.Produce? {
      ProducedSound(w, a.requestId, a.product);
    } else if a.Delete? || a.Forget? {
      assert Due(s, (a.taskId, a.record));
    }
  }

  lemma AboutInPlace(settings: Settings, s: System, a: Action)
    requires Separate(settings) && UploadsApart(settings) && Inv(settings, s) && Enabled(settings, s, a)
    requires !WorkAfter(s, a).cleaning
    ensures var w := WorkAfter(s, a);
            InRange(StemsOf(w), w.made) && InPlace(settings, StoreAfter(settings, s, a), About(s, a), w)
  {
    var r := About(s, a);
    if a.Begin? {
      BeginInPlace(settings, s, r);
    } else {
      WorkInPlace(settings, s.store, s, a, r);
    }
  }

  lemma WorkInPlace(settings: Settings, store: Store, s: System, a: Action, r: string)
    requires Separate(settings) && UploadsApart(settings) && Inv(settings, s) && Enabled(settings, s, a)
    requires !a.Begin? && r == About(s, a) && store == s.store && !WorkAfter(s, a).cleaning
    ensures var w := WorkAfter(s, a);
            InRange(StemsOf(w), w.made) && InPlace(settings, StoreAfter(settings, s, a), r, w)
  {
    var w := s.work[r];
    assert Sound(w) && Untouched(settings, s, r) && IsRequestId(r);
    if a.Upload? {
      UploadInPlace(settings, store, r, w, a.name, a.body);
    } else if a.Produce? {
      ProduceInPlace(settings, store, r, w, a.product);
    } else {
      InPlaceFrame(settings, store, store, r, w, WorkAfter(s, a));
    }
  }

  lemma OtherInPlace(settings: Settings, s: System, a: Action, r: string)
    requires Separate(settings) && Inv(settings, s) && Enabled(settings, s, a)
    requires r in s.work && r != About(s, a) && !s.work[r].cleaning
    ensures InRange(StemsOf(s.work[r]), s.work[r].made) && InPlace(settings, StoreAfter(settings, s, a), r, s.work[r])
  {
    assert Sound(s.work[r]) && Untouched(settings, s, r);
    var store' := StoreAfter(settings, s, a);
    forall p | Owned(settings, r, p) ensures SameAt(s.store, store', p) {
      RequestsAreSeparate(settings, r, About(s, a), p);
      StoreFrame(settings, s, a, p);
    }
    InPlaceFrame(settings, s.store, store', r, s.work[r], s.work[r]);
  }

  /** What the work on a request never takes back. */
  ghost predicate Continues(w: Work, w': Work) {
    && (w.posted ==> w'.posted && w'.filenames == w.filenames)
    && (w.finished ==> w'.finished && w'.made == w.made)
    && (w.task.Some? ==> w'.task == w.task)
    && (w.cleaning ==> w'.cleaning)
  }

  ghost predicate Progress(s: System, s': System) {
    && (forall r | r in s.work :: r in s'.work && Continues(s.work[r], s'.work[r]))
    && (forall r | WasDelivered(s, r) :: WasDelivered(s', r))
  }

  lemma WorkContinues(settings: Settings, s: System, a: Action)
    requires Enabled(settings, s, a) && !a.Begin? && Sound(s.work[About(s, a)])
    ensures Continues(s.work[About(s, a)], WorkAfter(s, a))
  {}

  lemma ProgressOf(s: System, s': System, r: string, w: Work)
    requires s'.work == s.work[r := w] && (r in s.work ==> Continues(s.work[r], w))
    requires forall x | WasDelivered(s, x) :: WasDelivered(s', x)
    ensures Progress(s, s')
  {}

  lemma Progresses(settings: Settings, s: System, a: Action)
    requires Inv(settings, s) && Enabled(settings, s, a)
    ensures Progress(s, Effect(settings, s, a))
  {
    LogGrows(settings, s, a);
    if !a.Begin? {
      assert Sound(s.work[About(s, a)]);
      WorkContinues(settings, s, a);
    }
    ProgressOf(s, Effect(settings, s, a), About(s, a), WorkAfter(s, a));
  }

  lemma RecordStays(s: System, s': System, t: TaskId)
    requires Progress(s, s') && t in s.records && Recorded(s, t) && s.work[s.records[t].requestId].posted
    requires t in s'.records && s'.records[t] == s.records[t]
    ensures Recorded(s', t)
  {
    assert Continues(s.work[s.records[t].requestId], s'.work[s.records[t].requestId]);
  }

  lemma NewRecord(settings: Settings, s: System, a: Action)
    requires Enabled(settings, s, a) && a.Record?
    ensures a.taskId in Effect(settings, s, a).records && Recorded(Effect(settings, s, a), a.taskId)
  {}

  lemma RecordsStay(settings: Settings, s: System, a: Action, t: TaskId)
    requires Inv(settings, s) && Enabled(settings, s, a) && t in Effect(settings, s, a).records
    ensures Recorded(Effect(settings, s, a), t)
  {
    if a.Record? && a.taskId == t {
      NewRecord(settings, s, a);
    } else if t in s.records {
      assert Recorded(s, t) && Sound(s.work[s.records[t].requestId]);
      Progresses(settings, s, a);
      KeptRecord(settings, s, a, t);
      RecordStays(s, Effect(settings, s, a), t);
    }
  }

  /** Only the cleanup of a task takes its record, and only a recording changes it. */
  lemma KeptRecord(settings: Settings, s: System, a: Action, t: TaskId)
    requires Enabled(settings, s, a) && t in s.records && t in Effect(settings, s, a).records
    requires !(a.Record? && a.taskId == t)
    ensures Effect(settings, s, a).records[t] == s.records[t]
  {}

  /** Which task an action leaves a request with. */
  lemma TaskAfter(settings: Settings, s: System, a: Action, r: string)
    requires Enabled(settings, s, a) && r in Effect(settings, s, a).work
    ensures Effect(settings, s, a).work[r].task ==
            if a.Record? && a.requestId == r then Some(a.taskId)
            else if r in s.work then s.work[r].task
            else None
  {}

  lemma RecordAfter(settings: Settings, s: System, a: Action, t: TaskId)
    requires Enabled(settings, s, a) && t in s.records
    requires !((a.Forget? || a.Record?) && a.taskId == t)
    ensures t in Effect(settings, s, a).records && Effect(settings, s, a).records[t] == s.records[t]
  {}

  /** A cleanup of another request is not of this one's task. */
  lemma OtherCleanup(settings: Settings, s: System, a: Action, r: string)
    requires Inv(settings, s) && Enabled(settings, s, a) && a.Forget?
    requires r in s.work && s.work[r].task == Some(a.taskId)
    ensures r == a.record.requestId
  {
    assert Due(s, (a.taskId, a.record));
    assert r != a.record.requestId ==> OtherTask(s.work[r], s.work[a.record.requestId]);
  }

  lemma RecordKept(settings: Settings, s: System, a: Action, r: string)
    requires Inv(settings, s) && Enabled(settings, s, a)
    requires r in Effect(settings, s, a).work && !Effect(settings, s, a).work[r].cleaning
    ensures var s' := Effect(settings, s, a);
            s'.work[r].task.Some? ==>
              s'.work[r].task.value in s'.records && s'.records[s'.work[r].task.value].requestId == r
  {
    TaskAfter(settings, s, a, r);
    if !(a.Record? && a.requestId == r) && r in s.work && s.work[r].task.Some? {
      Progresses(settings, s, a);
      assert Continues(s.work[r], Effect(settings, s, a).work[r]) && Untouched(settings, s, r);
      if a.Forget? && s.work[r].task == Some(a.taskId) {
        OtherCleanup(settings, s, a, r);
      } else {
        RecordAfter(settings, s, a, s.work[r].task.value);
      }
    }
  }

  lemma TasksDiffer(settings: Settings, s: System, a: Action, r: string, r': string)
    requires Inv(settings, s) && Enabled(settings, s, a)
    requires r in Effect(settings, s, a).work && r' in Effect(settings, s, a).work && r != r'
    ensures OtherTask(Effect(settings, s, a).work[r], Effect(settings, s, a).work[r'])
  {
    TaskAfter(settings, s, a, r);
    TaskAfter(settings, s, a, r');
    if r in s.work && r' in s.work {
      assert OtherTask(s.work[r], s.work[r']);
    }
  }

  lemma LogGrows(settings: Settings, s: System, a: Action)
    requires Inv(settings, s) && Enabled(settings, s, a)
    ensures forall r | WasDelivered(s, r) :: WasDelivered(Effect(settings, s, a), r)
    ensures a.Deliver? ==> WasDelivered(Effect(settings, s, a), About(s, a))
    ensures !a.Deliver? ==> Effect(settings, s, a).log == s.log && Effect(settings, s, a).scheduled == s.scheduled
  {
    var s' := Effect(settings, s, a);
    forall r | WasDelivered(s, r) ensures WasDelivered(s', r) {
      var e :| e in s.log && e.record.requestId == r;
      assert e in s'.log;
    }
    if a.Deliver? {
      assert s'.log[|s.log|] in s'.log;
    }
  }

  lemma DueStays(s: System, s': System, c: (TaskId, TaskRecord))
    requires Progress(s, s') && Due(s, c)
    ensures Due(s', c)
  {
    assert Continues(s.work[c.1.requestId], s'.work[c.1.requestId]);
  }

  lemma NewlyDue(settings: Settings, s: System, a: Action, c: (TaskId, TaskRecord))
    requires Inv(settings, s) && Enabled(settings, s, a) && a.Deliver? && c == (a.taskId, s.records[a.taskId])
    ensures Due(Effect(settings, s, a), c)
  {
    LogGrows(settings, s, a);
    Progresses(settings, s, a);
    assert Recorded(s, a.taskId);
    assert Continues(s.work[c.1.requestId], Effect(settings, s, a).work[c.1.requestId]);
  }

  lemma CleaningWasDelivered(settings: Settings, s: System, a: Action, r: string)
    requires Inv(settings, s) && Enabled(settings, s, a)
    requires r in Effect(settings, s, a).work && Effect(settings, s, a).work[r].cleaning
    ensures WasDelivered(Effect(settings, s, a), r)
  {
    LogGrows(settings, s, a);
    if a.Delete? || a.Forget? {
      assert Due(s, (a.taskId, a.record));
    }
  }

  /** A delivery on record stays what it was: nothing is produced after docling is done. */
  lemma DeliveriesStay(s: System, s': System, e: Delivered)
    requires Progress(s, s') && OwnDelivery(s, e) && s.work[e.record.requestId].posted
    ensures OwnDelivery(s', e)
  {
    assert Continues(s.work[e.record.requestId], s'.work[e.record.requestId]);
  }

  /** A delivery that no cleanup disturbed carries its request's own artifacts. */
  lemma DeliverCarries(settings: Settings, s: System, t: TaskId, listing: seq<string>, time: Option<real>)
    requires Inv(settings, s) && Enabled(settings, s, Deliver(t, listing, time))
    requires var w := s.work[s.records[t].requestId]; !w.cleaning && TellApart(StemsOf(w))
    ensures s.records[t].filenames != [] && forall k | k in listing :: (settings.outputBucket, k) in s.store
    ensures Carries(s.records[t].filenames, s.records[t].asZip, time, s.work[s.records[t].requestId].made,
                    Answer(settings, s, t, listing, time))
  {
    var r := s.records[t].requestId;
    assert Recorded(s, t) && Sound(s.work[r]) && Untouched(settings, s, r);
    DeliveryIsAttributed(settings, s.store, s.records[t], s.work[r].made, listing, time);
  }

  lemma NewDelivery(settings: Settings, s: System, a: Action, e: Delivered)
    requires Inv(settings, s) && Enabled(settings, s, a) && e in Effect(settings, s, a).log && e !in s.log
    ensures OwnDelivery(Effect(settings, s, a), e)
  {
    LogGrows(settings, s, a);
    var r := About(s, a);
    assert Recorded(s, a.taskId);
    assert e.record == s.records[a.taskId];
    if e.undisturbed && TellApart(StemsOf(s.work[r])) {
      DeliverCarries(settings, s, a.taskId, a.listing, a.time);
    }
  }

  lemma StoreIsOwned(settings: Settings, s: System, a: Action, p: (string, string))
    requires Inv(settings, s) && Enabled(settings, s, a) && p in Effect(settings, s, a).store
    ensures exists r :: r in Effect(settings, s, a).work && Owned(settings, r, p)
  {
    if p in s.store {
      var r :| r in s.work && Owned(settings, r, p);
      assert r in Effect(settings, s, a).work;
    } else {
      if !Owned(settings, About(s, a), p) {
        StoreFrame(settings, s, a, p);
      }
      assert About(s, a) in Effect(settings, s, a).work;
    }
  }

  lemma AboutStays(settings: Settings, s: System, a: Action)
    requires Separate(settings) && UploadsApart(settings) && Inv(settings, s) && Enabled(settings, s, a)
    ensures IsRequestId(About(s, a)) && Sound(WorkAfter(s, a))
    ensures !WorkAfter(s, a).cleaning ==> Untouched(settings, Effect(settings, s, a), About(s, a))
  {
    if !a.Begin? {
      WorkingSound(settings, s, a);
    }
    if !WorkAfter(s, a).cleaning {
      RecordKept(settings, s, a, About(s, a));
      AboutInPlace(settings, s, a);
    }
  }

  lemma OtherWork(settings: Settings, s: System, a: Action, r: string)
    requires Enabled(settings, s, a) && r in s.work && r != About(s, a)
    ensures r in Effect(settings, s, a).work && Effect(settings, s, a).work[r] == s.work[r]
    ensures Effect(settings, s, a).store == StoreAfter(settings, s, a)
  {}

  lemma OtherStays(settings: Settings, s: System, a: Action, r: string)
    requires Separate(settings) && UploadsApart(settings) && Inv(settings, s) && Enabled(settings, s, a)
    requires r in s.work && r != About(s, a)
    ensures IsRequestId(r) && Sound(s.work[r])
    ensures r in Effect(settings, s, a).work && Effect(settings, s, a).work[r] == s.work[r]
    ensures !s.work[r].cleaning ==> Untouched(settings, Effect(settings, s, a), r)
  {
    OtherWork(settings, s, a, r);
    if !s.work[r].cleaning {
      RecordKept(settings, s, a, r);
      OtherInPlace(settings, s, a, r);
    }
  }

  lemma AllDue(settings: Settings, s: System, a: Action)
    requires Inv(settings, s) && Enabled(settings, s, a)
    ensures forall c | c in Effect(settings, s, a).scheduled :: Due(Effect(settings, s, a), c)
  {
    var s' := Effect(settings, s, a);
    LogGrows(settings, s, a);
    Progresses(settings, s, a);
    forall c | c in s'.scheduled ensures Due(s', c) {
      if c in s.scheduled {
        DueStays(s, s', c);
      } else {
        NewlyDue(settings, s, a, c);
      }
    }
  }

  lemma AllOwn(settings: Settings, s: System, a: Action)
    requires Inv(settings, s) && Enabled(settings, s, a)
    ensures forall e | e in Effect(settings, s, a).log :: OwnDelivery(Effect(settings, s, a), e)
  {
    var s' := Effect(settings, s, a);
    Progresses(settings, s, a);
    forall e | e in s'.log ensures OwnDelivery(s', e) {
      if e in s.log {
        assert OwnDelivery(s, e) && Sound(s.work[e.record.requestId]);
        DeliveriesStay(s, s', e);
      } else {
        NewDelivery(settings, s, a, e);
      }
    }
  }

  lemma EffectInv(settings: Settings, s: System, a: Action)
    requires Separate(settings) && UploadsApart(settings) && Inv(settings, s) && Enabled(settings, s, a)
    ensures Inv(settings, Effect(settings, s, a))
  {
    var s' := Effect(settings, s, a);
    forall r | r in s'.work
      ensures IsRequestId(r) && Sound(s'.work[r])
      ensures !s'.work[r].cleaning ==> Untouched(settings, s', r)
    {
      if r == About(s, a) {
        AboutStays(settings, s, a);
      } else {
        OtherStays(settings, s, a, r);
      }
    }
    forall r | r in s'.work && s'.work[r].cleaning ensures WasDelivered(s', r) {
      CleaningWasDelivered(settings, s, a, r);
    }
    forall r, r' | r in s'.work && r' in s'.work && r != r' ensures OtherTask(s'.work[r], s'.work[r']) {
      TasksDiffer(settings, s, a, r, r');
    }
    forall t | t in s'.records ensures Recorded(s', t) {
      RecordsStay(settings, s, a, t);
    }
    AllDue(settings, s, a);
    AllOwn(settings, s, a);
    forall p | p in s'.store ensures exists r :: r in s'.work && Owned(settings, r, p) {
      StoreIsOwned(settings, s, a, p);
    }
  }

  const IDLE := System(map[], map[], map[], {}, [])

  /** The state after `acts`; an action that is not enabled does nothing. */
  ghost function Exec(settings: Settings, s: System, acts: seq<Action>): System
    decreases |acts|
  {
    if acts == [] then s
    else Exec(settings, if Enabled(settings, s, acts[0]) then Effect(settings, s, acts[0]) else s, acts[1..])
  }

  lemma {:induction false} ExecInv(settings: Settings, s: System, acts: seq<Action>)
    requires Separate(settings) && UploadsApart(settings) && Inv(settings, s)
    ensures Inv(settings, Exec(settings, s, acts))
    decreases |acts|
  {
    if acts != [] {
      if Enabled(settings, s, acts[0]) {
        EffectInv(settings, s, acts[0]);
        ExecInv(settings, Effect(settings, s, acts[0]), acts[1..]);
      } else {
        ExecInv(settings, s, acts[1..]);
      }
    }
  }

  /** Every record has files and a request at work, and every scheduled cleanup such a
      request: these guards of Deliver, Delete and Forget never hold one back. */
  lemma NothingBlocked(settings: Settings, acts: seq<Action>)
    requires Separate(settings) && UploadsApart(settings)
    ensures var s := Exec(settings, IDLE, acts);
            && (forall t | t in s.records :: s.records[t].filenames != [] && s.records[t].requestId in s.work)
            && (forall c | c in s.scheduled :: c.1.requestId in s.work)
  {
    ExecInv(settings, IDLE, acts);
    var s := Exec(settings, IDLE, acts);
    forall t | t in s.records ensures s.records[t].filenames != [] && s.records[t].requestId in s.work {
      assert Recorded(s, t) && Sound(s.work[s.records[t].requestId]);
    }
    forall c | c in s.scheduled ensures c.1.requestId in s.work {
      assert Due(s, c);
    }
  }

  /** Requests do not interfere: however uploads, docling's writes, deliveries and cleanups
      of many requests interleave, every delivery made before its own request's cleanup
      began carries that request's artifacts, all of them and nothing else, provided the
      request's stems tell its documents apart; a request that no cleanup of its own has
      touched keeps every upload, output and record; and a cleanup has touched only
      requests that were delivered. */
  lemma RequestsDoNotInterfere(settings: Settings, acts: seq<Action>)
    requires Separate(settings) && UploadsApart(settings)
    ensures var s := Exec(settings, IDLE, acts);
            && (forall e | e in s.log && e.undisturbed && TellApart(Stems(e.record.filenames)) ::
                  e.record.requestId in s.work &&
                  Carries(e.record.filenames, e.record.asZip, e.time, s.work[e.record.requestId].made, e.delivery))
            && (forall r | r in s.work && !s.work[r].cleaning ::
                  && InRange(StemsOf(s.work[r]), s.work[r].made)
                  && InPlace(settings, s.store, r, s.work[r])
                  && (s.work[r].task.Some? ==> s.work[r].task.value in s.records))
            && (forall r | r in s.work && s.work[r].cleaning :: WasDelivered(s, r))
  {
    ExecInv(settings, IDLE, acts);
    var s := Exec(settings, IDLE, acts);
    forall e | e in s.log && e.undisturbed && TellApart(Stems(e.record.filenames))
      ensures e.record.requestId in s.work &&
              Carries(e.record.filenames, e.record.asZip, e.time, s.work[e.record.requestId].made, e.delivery)
    {
      assert OwnDelivery(s, e);
    }
    forall r | r in s.work && !s.work[r].cleaning
      ensures InRange(StemsOf(s.work[r]), s.work[r].made) && InPlace(settings, s.store, r, s.work[r])
      ensures s.work[r].task.Some? ==> s.work[r].task.value in s.records
    {
      assert Sound(s.work[r]) && Untouched(settings, s, r);
    }
  }

  // The facade's methods as runs of this system.

  lemma {:induction false} ExecConcat(settings: Settings, s: System, a: seq<Action>, b: seq<Action>)
    ensures Exec(settings, s, a + b) == Exec(settings, Exec(settings, s, a), b)
    decreases |a|
  {
    if a == [] {
      assert a + b == b;
    } else {
      assert (a + b)[1..] == a[1..] + b;
      ExecConcat(settings, if Enabled(settings, s, a[0]) then Effect(settings, s, a[0]) else s, a[1..], b);
    }
  }

  lemma ExecOne(settings: Settings, s: System, a: Action)
    ensures Exec(settings, s, [a]) == if Enabled(settings, s, a) then Effect(settings, s, a) else s
  {
    assert [a][1..] == [];
  }

  lemma ExecLast(settings: Settings, s: System, acts: seq<Action>, a: Action)
    ensures Exec(settings, s, acts + [a]) ==
            var s' := Exec(settings, s, acts); if Enabled(settings, s', a) then Effect(settings, s', a) else s'
  {
    ExecConcat(settings, s, acts, [a]);
    ExecOne(settings, Exec(settings, s, acts), a);
  }

  /** A request's begin and its uploads. */
  function Uploads(r: string, files: seq<FacadeService.Upload>): seq<Action> {
    if files == [] then [Begin(r)]
    else
      var last := files[|files| - 1];
      Uploads(r, files[..|files| - 1]) + [Action.Upload(r, NameOf(last), last.body)]
  }

  /** The request has uploaded files of these names, and nothing else has happened to it. */
  predicate Fresh(w: Work, names: seq<string>) {
    w.filenames == names && !w.posted && w.task.None? && !w.finished && !w.cleaning && w.made == []
  }

  /** The state after a request's uploads, nothing else having changed. */
  ghost predicate AfterUploads(
    settings: Settings, s: System, r: string, files: seq<FacadeService.Upload>, s': System)
  {
    && s'.store == Uploaded(s.store, settings, r, files)
    && r in s'.work && Fresh(s'.work[r], NamesOf(files))
    && s' == s.(store := s'.store, work := s.work[r := s'.work[r]])
  }

  lemma OneMoreUpload(settings: Settings, s: System, r: string, files: seq<FacadeService.Upload>, s': System)
    requires files != [] && AfterUploads(settings, s, r, files[..|files| - 1], s')
    ensures var last := files[|files| - 1];
            var a := Action.Upload(r, NameOf(last), last.body);
            Enabled(settings, s', a) && AfterUploads(settings, s, r, files, Effect(settings, s', a))
  {
    assert NamesOf(files) == NamesOf(files[..|files| - 1]) + [NameOf(files[|files| - 1])];
  }

  lemma {:induction false} UploadsAreRun(settings: Settings, s: System, r: string, files: seq<FacadeService.Upload>)
    requires IsRequestId(r) && r !in s.work
    ensures AfterUploads(settings, s, r, files, Exec(settings, s, Uploads(r, files)))
    decreases |files|
  {
    if files == [] {
      ExecOne(settings, s, Begin(r));
    } else {
      var init, last := files[..|files| - 1], files[|files| - 1];
      UploadsAreRun(settings, s, r, init);
      OneMoreUpload(settings, s, r, files, Exec(settings, s, Uploads(r, init)));
      ExecLast(settings, s, Uploads(r, init), Action.Upload(r, NameOf(last), last.body));
    }
  }

  /** A submission is a run of the system: what submit_file_upload leaves in S3 is what the
      uploads leave, and the record it writes is the one of the last step. */
  lemma SubmissionIsRun(
    settings: Settings, s: System, r: string, files: seq<FacadeService.Upload>, t: TaskId, tenantId: Option<string>,
    toFormats: seq<string>, asZip: bool)
    requires IsRequestId(r) && r !in s.work && files != []
    requires forall r' | r' in s.work :: s.work[r'].task != Some(t)
    ensures var s' := Exec(settings, s, Uploads(r, files) + [Post(r)] + [Record(r, t, tenantId, toFormats, asZip)]);
            && s'.store == Uploaded(s.store, settings, r, files)
            && s'.records == s.records[t := TaskRecord(r, tenantId, NamesOf(files), toFormats, asZip)]
  {
    UploadsAreRun(settings, s, r, files);
    ExecLast(settings, s, Uploads(r, files), Post(r));
    ExecLast(settings, s, Uploads(r, files) + [Post(r)], Record(r, t, tenantId, toFormats, asZip));
  }

  /** A cleanup is a run of the system: whatever _cleanup_task_storage leaves, wherever it
      stops, one Delete leaves, and Forget if it gets through. That it deletes only objects
      of its request follows from what it lists. */
  lemma CleanupIsRun(settings: Settings, s: System, t: TaskId, record: TaskRecord, store': Store, completed: bool)
    requires Cleaned(settings, record.requestId, s.store, store', completed)
    requires (t, record) in s.scheduled && record.requestId in s.work
    ensures var delete := [Delete(t, record, s.store.Keys - store'.Keys)];
            var s' := Exec(settings, s, if completed then delete + [Forget(t, record)] else delete);
            && s'.store == store' && s'.log == s.log
            && s'.records == if completed then s.records - {t} else s.records
  {
    var objects := s.store.Keys - store'.Keys;
    assert s.store - objects == store';
    ExecOne(settings, s, Delete(t, record, objects));
    ExecLast(settings, s, [Delete(t, record, objects)], Forget(t, record));
  }
}
