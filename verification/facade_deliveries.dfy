/** What a delivery holds: the artifacts produced for its own documents, whatever order
    S3 lists them in (src/facade/service.py, src/facade/utils.py). */
module FacadeDeliveries {
  import opened Models
  import opened Strings
  import opened FacadeArtifacts
  import opened FacadeService

  /** The objects below the prefix are exactly the artifacts produced. */
  ghost predicate Holds(store: Store, bucket: string, prefix: string, stems: seq<string>, made: seq<Produced>)
    requires InRange(stems, made)
  {
    && (forall k ::
          (bucket, k) in store && StartsWith(k, prefix) <==> exists p :: p in made && KeyOf(prefix, stems, p) == k)
    && (forall p | p in made ::
          (bucket, KeyOf(prefix, stems, p)) in store && store[(bucket, KeyOf(prefix, stems, p))] == p.body)
  }

  /** `made` in the order of the listing. */
  ghost predicate Aligned(
    prefix: string, stems: seq<string>, made: seq<Produced>, listing: seq<string>, some: seq<Produced>)
    requires InRange(stems, made)
  {
    |some| == |listing| && forall i | 0 <= i < |some| :: some[i] in made && KeyOf(prefix, stems, some[i]) == listing[i]
  }

  lemma {:induction false} Align(prefix: string, stems: seq<string>, made: seq<Produced>, listing: seq<string>)
    returns (some: seq<Produced>)
    requires InRange(stems, made)
    requires forall k | k in listing :: exists p :: p in made && KeyOf(prefix, stems, p) == k
    ensures Aligned(prefix, stems, made, listing, some)
    decreases |listing|
  {
    if listing == [] {
      return [];
    }
    var n := |listing| - 1;
    assert forall k | k in listing[..n] :: k in listing;
    some := Align(prefix, stems, made, listing[..n]);
    assert listing[n] in listing;
    var p :| p in made && KeyOf(prefix, stems, p) == listing[n];
    some := some + [p];
  }

  /** Products with one key are one product. */
  lemma KeysTellApart(prefix: string, stems: seq<string>, made: seq<Produced>, p: Produced, q: Produced)
    requires TellApart(stems) && InRange(stems, made) && OncePerFormat(made)
    requires p in made && q in made && KeyOf(prefix, stems, p) == KeyOf(prefix, stems, q)
    ensures p == q
  {
    ParsedItem(prefix, stems, made, p);
    ParsedItem(prefix, stems, made, q);
    SameFormat(p.format, q.format);
    assert p.doc == q.doc && p.format == q.format;
    SameProduct(made, p, q);
  }

  lemma SameProduct(made: seq<Produced>, p: Produced, q: Produced)
    requires OncePerFormat(made) && p in made && q in made
    ensures p.doc == q.doc && p.format == q.format ==> p == q
  {
    var i :| 0 <= i < |made| && made[i] == p;
    var j :| 0 <= j < |made| && made[j] == q;
  }

  lemma AlignedIsSame(
    prefix: string, stems: seq<string>, made: seq<Produced>, store: Store, bucket: string, listing: seq<string>,
    some: seq<Produced>)
    requires TellApart(stems) && InRange(stems, made) && OncePerFormat(made)
    requires Holds(store, bucket, prefix, stems, made) && Lists(listing, store, bucket, prefix)
    requires Aligned(prefix, stems, made, listing, some)
    ensures forall p :: p in some <==> p in made
    ensures InRange(stems, some) && OncePerFormat(some)
    ensures Stores(prefix, stems, some, listing, ObjectsOf(store, bucket))
  {
    forall i, j | 0 <= i < j < |some| ensures some[i].doc != some[j].doc || some[i].format != some[j].format {
      SameProduct(made, some[i], some[j]);
    }
    forall p | p in made ensures p in some {
      assert KeyOf(prefix, stems, p) in listing;
      var i :| 0 <= i < |listing| && listing[i] == KeyOf(prefix, stems, p);
      KeysTellApart(prefix, stems, made, p, some[i]);
    }
  }

  /** An artifact of document `d`, as produced. */
  ghost predicate IsOf(made: seq<Produced>, d: nat, a: Artifact) {
    exists p :: p in made && p.doc == d && p.format < |EXTENSION_TO_FIELD| &&
                a == Artifact(EXTENSION_TO_FIELD[p.format].1, EXTENSION_TO_FIELD[p.format].0, p.body)
  }

  lemma {:induction false} OwnHolds(made: seq<Produced>, d: nat, a: Artifact)
    requires forall p | p in made :: p.format < |EXTENSION_TO_FIELD|
    ensures a in Own(made, d) <==> IsOf(made, d, a)
    decreases |made|
  {
    if made != [] {
      var init, last := made[..|made| - 1], made[|made| - 1];
      assert made == init + [last] && last in made;
      OwnHolds(init, d, a);
    }
  }

  lemma {:induction false} OwnEmpty(made: seq<Produced>, d: nat)
    requires forall p | p in made :: p.format < |EXTENSION_TO_FIELD|
    ensures Own(made, d) == [] <==> forall p | p in made :: p.doc != d
    decreases |made|
  {
    if made != [] {
      OwnEmpty(made[..|made| - 1], d);
      assert made == made[..|made| - 1] + [made[|made| - 1]];
    }
  }

  lemma {:induction false} EntryOf(stem: string, artifacts: seq<Artifact>, name: string, body: Bytes)
    ensures File(name, body) in EntriesOf(stem, artifacts) <==>
            exists a :: a in artifacts && stem + a.ext == name && a.body == body
    decreases |artifacts|
  {
    if artifacts != [] {
      EntryOf(stem, artifacts[..|artifacts| - 1], name, body);
      assert artifacts == artifacts[..|artifacts| - 1] + [artifacts[|artifacts| - 1]];
    }
  }

  lemma {:induction false} EntryOfAll(documents: seq<Document>, name: string, body: Bytes)
    ensures File(name, body) in AllEntries(documents) <==>
            exists d :: d in documents && File(name, body) in EntriesOf(d.stem, d.artifacts)
    decreases |documents|
  {
    if documents != [] {
      EntryOfAll(documents[..|documents| - 1], name, body);
      assert documents == documents[..|documents| - 1] + [documents[|documents| - 1]];
    }
  }

  /** The archive's file of this name and body is one product's. */
  ghost predicate IsFileOf(stems: seq<string>, made: seq<Produced>, name: string, body: Bytes) {
    exists p :: p in made && p.doc < |stems| && p.format < |EXTENSION_TO_FIELD| &&
                stems[p.doc] + EXTENSION_TO_FIELD[p.format].0 == name && p.body == body
  }

  /** The delivery carries what was produced for the request, all of it and nothing else,
      each artifact under its own document. */
  ghost predicate Carries(
    filenames: seq<string>, asZip: bool, time: Option<real>, made: seq<Produced>, d: Delivery)
  {
    match d
    case Single(document, status, processingTime) =>
      && status == "success" && processingTime == (if time.Some? then time.value else 0.0)
      && !asZip && |filenames| == 1 && document.filename == filenames[0]
      && (forall field, body ::
            field in document.fields && document.fields[field] == ValueOf(field, body) <==>
            MadeAs(made, 0, field, body))
    case Zip(entries, statuses) =>
      && (asZip || |filenames| > 1)
      && |statuses| == |filenames|
      && (forall i | 0 <= i < |filenames| ::
            statuses[i] == DocumentStatus(filenames[i], exists p :: p in made && p.doc == i))
      && entries != [] && entries[|entries| - 1] == StatusFile(statuses)
      && (forall name, body :: File(name, body) in entries <==> IsFileOf(Stems(filenames), made, name, body))
    case _ => false
  }

  /** The documents of a delivery have exactly their own artifacts. */
  ghost predicate OwnDocuments(filenames: seq<string>, made: seq<Produced>, documents: seq<Document>)
    requires forall p | p in made :: p.format < |EXTENSION_TO_FIELD|
  {
    |documents| == |filenames| &&
    forall i | 0 <= i < |filenames| ::
      documents[i] == Document(filenames[i], StemOf(filenames[i]), Own(made, i))
  }

  lemma FileIsProduct(filenames: seq<string>, made: seq<Produced>, i: nat, name: string, body: Bytes)
    requires InRange(Stems(filenames), made) && i < |filenames|
    requires File(name, body) in EntriesOf(StemOf(filenames[i]), Own(made, i))
    ensures IsFileOf(Stems(filenames), made, name, body)
  {
    var stem := StemOf(filenames[i]);
    EntryOf(stem, Own(made, i), name, body);
    var a :| a in Own(made, i) && stem + a.ext == name && a.body == body;
    OwnHolds(made, i, a);
    var p :| p in made && p.doc == i && p.format < |EXTENSION_TO_FIELD| &&
             a == Artifact(EXTENSION_TO_FIELD[p.format].1, EXTENSION_TO_FIELD[p.format].0, p.body);
    assert Stems(filenames)[p.doc] == stem;
  }

  lemma ProductIsFile(filenames: seq<string>, made: seq<Produced>, p: Produced)
    requires InRange(Stems(filenames), made) && p in made
    ensures File(StemOf(filenames[p.doc]) + EXTENSION_TO_FIELD[p.format].0, p.body) in
            EntriesOf(StemOf(filenames[p.doc]), Own(made, p.doc))
  {
    var a := Artifact(EXTENSION_TO_FIELD[p.format].1, EXTENSION_TO_FIELD[p.format].0, p.body);
    OwnHolds(made, p.doc, a);
    EntryOf(StemOf(filenames[p.doc]), Own(made, p.doc), StemOf(filenames[p.doc]) + a.ext, p.body);
  }

  lemma ArchiveFiles(filenames: seq<string>, made: seq<Produced>, documents: seq<Document>, name: string, body: Bytes)
    requires InRange(Stems(filenames), made) && OwnDocuments(filenames, made, documents)
    ensures File(name, body) in AllEntries(documents) <==> IsFileOf(Stems(filenames), made, name, body)
  {
    EntryOfAll(documents, name, body);
    if File(name, body) in AllEntries(documents) {
      var d :| d in documents && File(name, body) in EntriesOf(d.stem, d.artifacts);
      var i :| 0 <= i < |documents| && documents[i] == d;
      FileIsProduct(filenames, made, i, name, body);
    }
    if IsFileOf(Stems(filenames), made, name, body) {
      var p :| p in made && p.doc < |Stems(filenames)| && p.format < |EXTENSION_TO_FIELD| &&
               Stems(filenames)[p.doc] + EXTENSION_TO_FIELD[p.format].0 == name && p.body == body;
      ProductIsFile(filenames, made, p);
      assert documents[p.doc] in documents;
    }
  }

  lemma RebuiltCarries(record: TaskRecord, made: seq<Produced>, grouped: Grouped, time: Option<real>)
    requires record.filenames != []
    requires InRange(Stems(record.filenames), made) && OncePerFormat(made)
    requires OwnDocuments(record.filenames, made, Documents(record.filenames, grouped))
    ensures Carries(record.filenames, record.asZip, time, made, Rebuilt(record, grouped, time))
  {
    var filenames, documents := record.filenames, Documents(record.filenames, grouped);
    if record.asZip || |filenames| > 1 {
      forall i | 0 <= i < |filenames|
        ensures Statuses(documents)[i] == DocumentStatus(filenames[i], exists p :: p in made && p.doc == i)
      {
        OwnEmpty(made, i);
      }
      forall name, body
        ensures File(name, body) in AllEntries(documents) + [StatusFile(Statuses(documents))] <==>
                IsFileOf(Stems(filenames), made, name, body)
      {
        ArchiveFiles(filenames, made, documents, name, body);
      }
    } else {
      forall field, body
        ensures field in Fields(Own(made, 0)) && Fields(Own(made, 0))[field] == ValueOf(field, body) <==>
                MadeAs(made, 0, field, body)
      {
        FieldsAreOwn(made, 0, field, body);
      }
    }
  }

  /** Only what was produced matters, not its order. */
  lemma CarriesSame(
    filenames: seq<string>, asZip: bool, time: Option<real>, made: seq<Produced>, some: seq<Produced>, d: Delivery)
    requires Carries(filenames, asZip, time, some, d) && forall p :: p in some <==> p in made
    ensures Carries(filenames, asZip, time, made, d)
  {
    forall field, body ensures MadeAs(made, 0, field, body) <==> MadeAs(some, 0, field, body) {}
    forall name, body
      ensures IsFileOf(Stems(filenames), made, name, body) <==> IsFileOf(Stems(filenames), some, name, body)
    {}
  }

  /** Attribution of a whole delivery: when the request's stems tell its documents apart,
      and its output prefix holds what was produced for it, then whatever the order of the
      listing, the delivery carries each document's own artifacts, all of them and nothing
      else, and its manifest marks failed exactly the documents with none. */
  lemma DeliveryIsAttributed(
    settings: Settings, store: Store, record: TaskRecord, made: seq<Produced>, listing: seq<string>,
    time: Option<real>)
    requires record.filenames != [] && TellApart(Stems(record.filenames))
    requires InRange(Stems(record.filenames), made) && OncePerFormat(made)
    requires var prefix := OutputPrefix(settings, record.requestId);
             Holds(store, settings.outputBucket, prefix, Stems(record.filenames), made) &&
             Lists(listing, store, settings.outputBucket, prefix)
    ensures forall k | k in listing :: k in ObjectsOf(store, settings.outputBucket)
    ensures var objects := ObjectsOf(store, settings.outputBucket);
            var grouped := Group(OutputPrefix(settings, record.requestId), listing, objects);
            Carries(record.filenames, record.asZip, time, made, Rebuilt(record, grouped, time))
  {
    var prefix, stems := OutputPrefix(settings, record.requestId), Stems(record.filenames);
    var objects := ObjectsOf(store, settings.outputBucket);
    var some := Align(prefix, stems, made, listing);
    AlignedIsSame(prefix, stems, made, store, settings.outputBucket, listing, some);
    var grouped := Group(prefix, listing, objects);
    forall i | 0 <= i < |stems| ensures OfStem(grouped, stems[i]) == Own(some, i) {
      Attribution(prefix, stems, some, listing, objects, i);
    }
    RebuiltCarries(record, some, grouped, time);
    CarriesSame(record.filenames, record.asZip, time, made, some, Rebuilt(record, grouped, time));
  }

  /** The fields of a document by the endings of its artifacts. */
  predicate FieldEnding(ext: string, field: string) {
    || (ext == ".json" && field == "json_content")
    || (ext == ".md" && field == "md_content")
    || (ext == ".html" && field == "html_content")
    || (ext == ".dclg" && field == "doclang_content")
    || (ext == ".doctags.txt" && field == "doctags_content")
    || (ext == ".txt" && field == "text_content")
  }

  lemma EndingParses(prefix: string, dirs: string, stem: string, ext: string, field: string)
    requires IsDirs(dirs) && '/' !in stem && !EndsWith(stem, ".doctags") && FieldEnding(ext, field)
    ensures ParseArtifactKey(prefix, prefix + dirs + stem + ext) == Some(Parsed(ext, field, stem))
  {
    FieldsByEnding(prefix, dirs, stem);
  }

  /** The product is of document `d`, in this field. */
  ghost predicate IsProductOf(made: seq<Produced>, p: Produced, d: nat, ext: string, field: string) {
    p in made && p.doc == d && p.format < |EXTENSION_TO_FIELD| && EXTENSION_TO_FIELD[p.format] == (ext, field)
  }

  lemma ParsedAlike(
    prefix: string, stems: seq<string>, made: seq<Produced>, p: Produced, d: nat, ext: string, field: string,
    key: string)
    requires TellApart(stems) && InRange(stems, made) && p in made && d < |stems| && key == KeyOf(prefix, stems, p)
    requires ParseArtifactKey(prefix, key) == Some(Parsed(ext, field, stems[d]))
    ensures IsProductOf(made, p, d, ext, field)
  {
    ParsedItem(prefix, stems, made, p);
  }

  lemma Below(prefix: string, dirs: string, stem: string, ext: string)
    ensures StartsWith(prefix + dirs + stem + ext, prefix)
  {
    assert prefix + dirs + stem + ext == prefix + (dirs + stem + ext);
  }

  lemma Producer(store: Store, bucket: string, prefix: string, stems: seq<string>, made: seq<Produced>, key: string)
    returns (p: Produced)
    requires InRange(stems, made) && Holds(store, bucket, prefix, stems, made)
    requires (bucket, key) in store && StartsWith(key, prefix)
    ensures p in made && KeyOf(prefix, stems, p) == key && p.body == store[(bucket, key)]
  {
    p :| p in made && KeyOf(prefix, stems, p) == key;
  }

  /** An object of this ending below the prefix is a product of its document in this field. */
  lemma ObjectIsProduct(
    store: Store, bucket: string, prefix: string, stems: seq<string>, made: seq<Produced>, d: nat, dirs: string,
    ext: string, field: string, key: string)
    returns (p: Produced)
    requires TellApart(stems) && InRange(stems, made) && Holds(store, bucket, prefix, stems, made)
    requires d < |stems| && IsDirs(dirs) && FieldEnding(ext, field)
    requires key == prefix + dirs + stems[d] + ext && (bucket, key) in store
    ensures IsProductOf(made, p, d, ext, field) && p.body == store[(bucket, key)]
  {
    Below(prefix, dirs, stems[d], ext);
    p := Producer(store, bucket, prefix, stems, made, key);
    EndingParses(prefix, dirs, stems[d], ext, field);
    ParsedAlike(prefix, stems, made, p, d, ext, field, key);
  }

  lemma CarriedField(
    filenames: seq<string>, time: Option<real>, made: seq<Produced>, d: Delivery, p: Produced, ext: string,
    field: string)
    requires Carries(filenames, false, time, made, d) && |filenames| == 1 && IsProductOf(made, p, 0, ext, field)
    ensures d.Single? && d.document.filename == filenames[0] && field in d.document.fields
    ensures d.document.fields[field] == ValueOf(field, p.body)
  {
    assert MadeAs(made, 0, field, p.body);
  }

  lemma CarriedFile(
    filenames: seq<string>, asZip: bool, time: Option<real>, made: seq<Produced>, zip: Delivery, p: Produced, d: nat,
    ext: string, field: string)
    requires Carries(filenames, asZip, time, made, zip) && (asZip || |filenames| > 1)
    requires d < |filenames| && IsProductOf(made, p, d, ext, field)
    ensures zip.Zip? && File(StemOf(filenames[d]) + ext, p.body) in zip.entries
    ensures d < |zip.statuses| && zip.statuses[d] == DocumentStatus(filenames[d], true)
  {
    assert IsFileOf(Stems(filenames), made, StemOf(filenames[d]) + ext, p.body);
  }

  /** A request of one document: whatever lies below its output prefix as dirs/stem.ext is
      delivered, with its very bytes, in the field of that ending; json is decoded. */
  lemma DeliveredField(
    settings: Settings, store: Store, record: TaskRecord, made: seq<Produced>, listing: seq<string>, time: Option<real>,
    stem: string, ending: string, dirs: string, ext: string, field: string)
    requires record.filenames == [stem + "." + ending] && !record.asZip
    requires '.' !in ending && '/' !in stem && !EndsWith(stem, ".doctags")
    requires InRange(Stems(record.filenames), made) && OncePerFormat(made)
    requires var prefix := OutputPrefix(settings, record.requestId);
             && Holds(store, settings.outputBucket, prefix, Stems(record.filenames), made)
             && Lists(listing, store, settings.outputBucket, prefix)
             && (settings.outputBucket, prefix + dirs + stem + ext) in store
    requires IsDirs(dirs) && FieldEnding(ext, field)
    ensures forall k | k in listing :: k in ObjectsOf(store, settings.outputBucket)
    ensures var prefix, objects := OutputPrefix(settings, record.requestId), ObjectsOf(store, settings.outputBucket);
            var body := store[(settings.outputBucket, prefix + dirs + stem + ext)];
            var d := Rebuilt(record, Group(prefix, listing, objects), time);
            && d.Single? && d.document.filename == stem + "." + ending
            && field in d.document.fields
            && d.document.fields[field] == (if field == "json_content" then Decoded(body) else Text(body))
  {
    StemsOfNames(stem, ending);
    assert Stems(record.filenames) == [stem];
    var prefix, objects := OutputPrefix(settings, record.requestId), ObjectsOf(store, settings.outputBucket);
    DeliveryIsAttributed(settings, store, record, made, listing, time);
    var p := ObjectIsProduct(store, settings.outputBucket, prefix, [stem], made, 0, dirs, ext, field,
                             prefix + dirs + stem + ext);
    CarriedField(record.filenames, time, made, Rebuilt(record, Group(prefix, listing, objects), time), p, ext, field);
  }

  /** A request of many documents, or for a zip: the same object is delivered as the archive's
      file stem.ext, with its very bytes, and its document is marked a success. */
  lemma DeliveredFile(
    settings: Settings, store: Store, record: TaskRecord, made: seq<Produced>, listing: seq<string>, time: Option<real>,
    d: nat, dirs: string, ext: string, field: string)
    requires d < |record.filenames| && (record.asZip || |record.filenames| > 1)
    requires TellApart(Stems(record.filenames))
    requires InRange(Stems(record.filenames), made) && OncePerFormat(made)
    requires var prefix := OutputPrefix(settings, record.requestId);
             && Holds(store, settings.outputBucket, prefix, Stems(record.filenames), made)
             && Lists(listing, store, settings.outputBucket, prefix)
             && (settings.outputBucket, prefix + dirs + StemOf(record.filenames[d]) + ext) in store
    requires IsDirs(dirs) && FieldEnding(ext, field)
    ensures forall k | k in listing :: k in ObjectsOf(store, settings.outputBucket)
    ensures var prefix, objects := OutputPrefix(settings, record.requestId), ObjectsOf(store, settings.outputBucket);
            var stem := StemOf(record.filenames[d]);
            var zip := Rebuilt(record, Group(prefix, listing, objects), time);
            && zip.Zip?
            && File(stem + ext, store[(settings.outputBucket, prefix + dirs + stem + ext)]) in zip.entries
            && d < |zip.statuses| && zip.statuses[d] == DocumentStatus(record.filenames[d], true)
  {
    var prefix, objects := OutputPrefix(settings, record.requestId), ObjectsOf(store, settings.outputBucket);
    DeliveryIsAttributed(settings, store, record, made, listing, time);
    var p := ObjectIsProduct(store, settings.outputBucket, prefix, Stems(record.filenames), made, d, dirs, ext, field,
                             prefix + dirs + StemOf(record.filenames[d]) + ext);
    var zip := Rebuilt(record, Group(prefix, listing, objects), time);
    CarriedFile(record.filenames, record.asZip, time, made, zip, p, d, ext, field);
  }
}
