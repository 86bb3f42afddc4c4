/** The facade's artifacts (src/facade/utils.py): parsing listed keys, grouping them by
    stem, and putting documents together again. */
module FacadeArtifacts {
  import opened Models
  import opened Strings

  type Bytes = seq<int>

  const EXTENSION_TO_FIELD: seq<(string, string)> := [
    (".doctags.txt", "doctags_content"),
    (".json", "json_content"),
    (".md", "md_content"),
    (".html", "html_content"),
    (".dclg", "doclang_content"),
    (".txt", "text_content")
  ]

  datatype Parsed = Parsed(ext: string, field: string, stem: string)

  function ParseLeaf(filename: string): Option<Parsed> {
    var i := FirstMatch(filename, EXTENSION_TO_FIELD);
    if i < 0 then None
    else
      var ext := EXTENSION_TO_FIELD[i].0;
      Some(Parsed(ext, EXTENSION_TO_FIELD[i].1, filename[..|filename| - |ext|]))
  }

  function ParseArtifactKey(prefix: string, key: string): Option<Parsed> {
    if !StartsWith(key, prefix) then None else ParseLeaf(AfterLast(key[|prefix|..], '/'))
  }

  /** No directories, or directories each closed by a slash. */
  predicate IsDirs(dirs: string) {
    dirs == "" || dirs[|dirs| - 1] == '/'
  }

  /** The one ambiguity of the layout: text of a stem that ends in ".doctags". */
  predicate Ambiguous(stem: string, ext: string) {
    ext == ".txt" && EndsWith(stem, ".doctags")
  }

  lemma LeafOf(prefix: string, dirs: string, leaf: string)
    requires IsDirs(dirs) && '/' !in leaf
    ensures StartsWith(prefix + dirs + leaf, prefix)
    ensures AfterLast((prefix + dirs + leaf)[|prefix|..], '/') == leaf
  {
    assert (prefix + dirs + leaf)[|prefix|..] == dirs + leaf;
    assert prefix + dirs + leaf == prefix + (dirs + leaf);
    if dirs == "" {
      assert dirs + leaf == leaf;
      AfterLastWhole(leaf, '/');
    } else {
      var d := dirs[..|dirs| - 1];
      assert dirs + leaf == d + ['/'] + leaf;
      AfterLastOf(d, leaf, '/');
    }
  }

  /** Of the table's extensions, only ".doctags.txt" ends with another one. */
  lemma ExtensionsNest(i: nat, j: nat)
    requires i < j < |EXTENSION_TO_FIELD|
    ensures !EndsWith(EXTENSION_TO_FIELD[j].0, EXTENSION_TO_FIELD[i].0)
    ensures !(i == 0 && j == 5) ==> !EndsWith(EXTENSION_TO_FIELD[i].0, EXTENSION_TO_FIELD[j].0)
  {
    var a, b := EXTENSION_TO_FIELD[i].0, EXTENSION_TO_FIELD[j].0;
    if !(i == 0 && j == 5) {
      DifferentAt(a, a, b, 1);
      DifferentAt(b, b, a, 1);
    }
  }

  lemma {:induction false} LeafRoundTrip(stem: string, j: nat)
    requires j < |EXTENSION_TO_FIELD|
    ensures var (ext, field) := EXTENSION_TO_FIELD[j];
            if Ambiguous(stem, ext) then
              ParseLeaf(stem + ext) == Some(Parsed(".doctags.txt", "doctags_content", stem[..|stem| - 8]))
            else ParseLeaf(stem + ext) == Some(Parsed(ext, field, stem))
  {
    var (ext, field) := EXTENSION_TO_FIELD[j];
    var leaf := stem + ext;
    var i := FirstMatch(leaf, EXTENSION_TO_FIELD);
    assert EndsWith(leaf, ext);
    assert i <= j;
    var first := EXTENSION_TO_FIELD[i].0;
    if i == j {
      assert leaf[..|leaf| - |ext|] == stem;
    } else if |ext| <= |first| {
      SuffixesNest(leaf, ext, first);
      ExtensionsNest(i, j);
    } else {
      SuffixesNest(leaf, first, ext);
      ExtensionsNest(i, j);
    }
    DoctagsText(stem);
  }

  lemma DoctagsText(stem: string)
    ensures EndsWith(stem + ".txt", ".doctags.txt") <==> EndsWith(stem, ".doctags")
    ensures EndsWith(stem, ".doctags") ==>
              (stem + ".txt")[..|stem + ".txt"| - |".doctags.txt"|] == stem[..|stem| - 8]
  {
    var leaf := stem + ".txt";
    assert ".doctags" + ".txt" == ".doctags.txt";
    if |stem| >= 8 {
      assert leaf[|leaf| - 12..] == stem[|stem| - 8..] + ".txt";
      assert stem[|stem| - 8..] == leaf[|leaf| - 12..][..8];
      assert ".doctags.txt"[..8] == ".doctags";
    }
  }

  /** Artifact round trip: for a slash-free stem, parsing gives back the extension, the
      field and the stem, except exactly for ".txt" after ".doctags". */
  lemma ArtifactRoundTrip(prefix: string, dirs: string, stem: string, j: nat)
    requires IsDirs(dirs) && '/' !in stem && j < |EXTENSION_TO_FIELD|
    ensures var (ext, field) := EXTENSION_TO_FIELD[j];
            ParseArtifactKey(prefix, prefix + dirs + stem + ext) == Some(Parsed(ext, field, stem)) <==>
            !Ambiguous(stem, ext)
  {
    var (ext, field) := EXTENSION_TO_FIELD[j];
    assert prefix + dirs + stem + ext == prefix + dirs + (stem + ext);
    LeafOf(prefix, dirs, stem + ext);
    LeafRoundTrip(stem, j);
  }

  datatype Artifact = Artifact(field: string, ext: string, body: Bytes)

  /** A Python dict by field, in insertion order: assigning to a present key keeps its
      place. */
  function Put(fields: seq<Artifact>, a: Artifact): seq<Artifact> {
    if fields == [] then [a]
    else if fields[0].field == a.field then [a] + fields[1..]
    else [fields[0]] + Put(fields[1..], a)
  }

  type Grouped = map<string, seq<Artifact>>

  function OfStem(grouped: Grouped, stem: string): seq<Artifact> {
    if stem in grouped then grouped[stem] else []
  }

  /** The grouping of the keys listed so far. */
  function Group(prefix: string, keys: seq<string>, store: map<string, Bytes>): Grouped
    requires forall k | k in keys :: k in store
  {
    if keys == [] then map[]
    else
      var key := keys[|keys| - 1];
      var grouped := Group(prefix, keys[..|keys| - 1], store);
      match ParseArtifactKey(prefix, key)
      case None => grouped
      case Some(p) => grouped[p.stem := Put(OfStem(grouped, p.stem), Artifact(p.field, p.ext, store[key]))]
  }

  /** fetch_artifacts_by_stem, given the listing and the objects. */
  method FetchArtifactsByStem(prefix: string, keys: seq<string>, store: map<string, Bytes>) returns (grouped: Grouped)
    requires forall k | k in keys :: k in store
    ensures grouped == Group(prefix, keys, store)
  {
    grouped := map[];
    for i := 0 to |keys|
      invariant grouped == Group(prefix, keys[..i], store)
    {
      assert keys[..i + 1][..i] == keys[..i];
      var parsed := ParseArtifactKey(prefix, keys[i]);
      if parsed.None? {
        continue;
      }
      var p := parsed.value;
      grouped := grouped[p.stem := Put(OfStem(grouped, p.stem), Artifact(p.field, p.ext, store[keys[i]]))];
    }
    assert keys[..|keys|] == keys;
  }

  /** One produced artifact: of which document, under which directories, in which
      format. */
  datatype Produced = Produced(doc: nat, dirs: string, format: nat, body: Bytes)

  function KeyOf(prefix: string, stems: seq<string>, p: Produced): string
    requires p.doc < |stems| && p.format < |EXTENSION_TO_FIELD|
  {
    prefix + p.dirs + stems[p.doc] + EXTENSION_TO_FIELD[p.format].0
  }

  ghost predicate InRange(stems: seq<string>, made: seq<Produced>) {
    forall p | p in made :: p.doc < |stems| && p.format < |EXTENSION_TO_FIELD| && IsDirs(p.dirs)
  }

  /** The stems tell their documents apart, and mislead the parser in no format. */
  predicate TellApart(stems: seq<string>) {
    && (forall i, j :: 0 <= i < j < |stems| ==> stems[i] != stems[j])
    && (forall i :: 0 <= i < |stems| ==> '/' !in stems[i] && !EndsWith(stems[i], ".doctags"))
  }

  /** Each document has at most one artifact of a format. */
  ghost predicate OncePerFormat(made: seq<Produced>) {
    forall i, j :: 0 <= i < j < |made| ==> made[i].doc != made[j].doc || made[i].format != made[j].format
  }

  /** `keys` lists the artifacts in the order of `made`, and `store` holds them. */
  ghost predicate Stores(
    prefix: string, stems: seq<string>, made: seq<Produced>, keys: seq<string>, store: map<string, Bytes>)
    requires InRange(stems, made)
  {
    && |keys| == |made|
    && (forall i | 0 <= i < |made| ::
          keys[i] == KeyOf(prefix, stems, made[i]) && keys[i] in store && store[keys[i]] == made[i].body)
  }

  /** The artifacts of document `d`, in listing order. */
  function Own(made: seq<Produced>, d: nat): seq<Artifact>
    requires forall p | p in made :: p.format < |EXTENSION_TO_FIELD|
  {
    if made == [] then []
    else
      var p := made[|made| - 1];
      var (ext, field) := EXTENSION_TO_FIELD[p.format];
      Own(made[..|made| - 1], d) + (if p.doc == d then [Artifact(field, ext, p.body)] else [])
  }

  lemma FieldsDistinct(i: nat, j: nat)
    requires i < j < |EXTENSION_TO_FIELD|
    ensures EXTENSION_TO_FIELD[i].1 != EXTENSION_TO_FIELD[j].1
  {
    var fields := ["doctags_content", "json_content", "md_content", "html_content", "doclang_content", "text_content"];
    assert forall k | 0 <= k < 6 :: EXTENSION_TO_FIELD[k].1 == fields[k];
    assert forall k | 0 <= k < 6 :: fields[k][0] in "djmht";
    assert fields[0][3] == 't' && fields[4][3] == 'l' && fields[4][0] == 'd' == fields[0][0];
    assert fields[1][0] == 'j' && fields[2][0] == 'm' && fields[3][0] == 'h' && fields[5][0] == 't';
  }

  // Grouping of parsed artifacts, independent of how keys are parsed.

  datatype Item = Item(stem: string, artifact: Artifact)

  function GroupItems(items: seq<Item>): Grouped {
    if items == [] then map[]
    else
      var last, grouped := items[|items| - 1], GroupItems(items[..|items| - 1]);
      grouped[last.stem := Put(OfStem(grouped, last.stem), last.artifact)]
  }

  function OfItems(items: seq<Item>, stem: string): seq<Artifact> {
    if items == [] then []
    else
      OfItems(items[..|items| - 1], stem) +
      (if items[|items| - 1].stem == stem then [items[|items| - 1].artifact] else [])
  }

  lemma {:induction false} OfItemsComeFromItems(items: seq<Item>, stem: string)
    ensures forall a | a in OfItems(items, stem) :: Item(stem, a) in items
  {
    if items != [] {
      OfItemsComeFromItems(items[..|items| - 1], stem);
      assert forall i | i in items[..|items| - 1] :: i in items;
    }
  }

  lemma {:induction false} PutAppends(fields: seq<Artifact>, a: Artifact)
    requires forall f | f in fields :: f.field != a.field
    ensures Put(fields, a) == fields + [a]
  {
    if fields != [] {
      PutAppends(fields[1..], a);
    }
  }

  /** With one item per (stem, field), grouping is filtering by stem. */
  lemma {:induction false} GroupingFilters(items: seq<Item>, stem: string)
    requires forall i, j :: 0 <= i < j < |items| ==>
               items[i].stem != items[j].stem || items[i].artifact.field != items[j].artifact.field
    ensures OfStem(GroupItems(items), stem) == OfItems(items, stem)
    ensures stem in GroupItems(items) <==> OfItems(items, stem) != []
  {
    if items != [] {
      var init, last := items[..|items| - 1], items[|items| - 1];
      GroupingFilters(init, stem);
      if last.stem == stem {
        OfItemsComeFromItems(init, stem);
        PutAppends(OfItems(init, stem), last.artifact);
      }
    }
  }

  function ItemOf(stems: seq<string>, p: Produced): Item
    requires p.doc < |stems| && p.format < |EXTENSION_TO_FIELD|
  {
    Item(stems[p.doc], Artifact(EXTENSION_TO_FIELD[p.format].1, EXTENSION_TO_FIELD[p.format].0, p.body))
  }

  function Items(stems: seq<string>, made: seq<Produced>): seq<Item>
    requires forall p | p in made :: p.doc < |stems| && p.format < |EXTENSION_TO_FIELD|
  {
    seq(|made|, i requires 0 <= i < |made| => assert made[i] in made; ItemOf(stems, made[i]))
  }

  lemma ParsedItem(prefix: string, stems: seq<string>, made: seq<Produced>, p: Produced)
    requires TellApart(stems) && InRange(stems, made) && p in made
    ensures ParseArtifactKey(prefix, KeyOf(prefix, stems, p)) ==
            Some(Parsed(EXTENSION_TO_FIELD[p.format].0, EXTENSION_TO_FIELD[p.format].1, stems[p.doc]))
  {
    assert stems[p.doc] in stems;
    ArtifactRoundTrip(prefix, p.dirs, stems[p.doc], p.format);
  }

  lemma GroupNext(prefix: string, keys: seq<string>, store: map<string, Bytes>, p: Parsed)
    requires keys != [] && forall k | k in keys :: k in store
    requires ParseArtifactKey(prefix, keys[|keys| - 1]) == Some(p)
    ensures var key, grouped := keys[|keys| - 1], Group(prefix, keys[..|keys| - 1], store);
            Group(prefix, keys, store) ==
            grouped[p.stem := Put(OfStem(grouped, p.stem), Artifact(p.field, p.ext, store[key]))]
  {}

  lemma Fewer(
    prefix: string, stems: seq<string>, made: seq<Produced>, keys: seq<string>, store: map<string, Bytes>, n: nat)
    requires TellApart(stems) && InRange(stems, made) && OncePerFormat(made) && Stores(prefix, stems, made, keys, store)
    requires n <= |made|
    ensures InRange(stems, made[..n]) && OncePerFormat(made[..n])
    ensures Stores(prefix, stems, made[..n], keys[..n], store)
    ensures forall k | k in keys :: k in store
  {
    assert forall q | q in made[..n] :: q in made;
  }

  lemma {:induction false} GroupIsOfItems(
    prefix: string, stems: seq<string>, made: seq<Produced>, keys: seq<string>, store: map<string, Bytes>)
    requires TellApart(stems) && InRange(stems, made) && OncePerFormat(made) && Stores(prefix, stems, made, keys, store)
    ensures Group(prefix, keys, store) == GroupItems(Items(stems, made))
    decreases |made|
  {
    if made != [] {
      var n := |made| - 1;
      Fewer(prefix, stems, made, keys, store, n);
      GroupIsOfItems(prefix, stems, made[..n], keys[..n], store);
      LastGrouped(prefix, stems, made, keys, store);
      ItemsNext(stems, made);
    }
  }

  lemma LastGrouped(
    prefix: string, stems: seq<string>, made: seq<Produced>, keys: seq<string>, store: map<string, Bytes>)
    requires TellApart(stems) && InRange(stems, made) && Stores(prefix, stems, made, keys, store) && made != []
    requires forall k | k in keys :: k in store
    ensures made[|made| - 1] in made
    ensures var grouped, item := Group(prefix, keys[..|made| - 1], store), ItemOf(stems, made[|made| - 1]);
            Group(prefix, keys, store) == grouped[item.stem := Put(OfStem(grouped, item.stem), item.artifact)]
  {
    var p := made[|made| - 1];
    assert p in made && keys[|made| - 1] == KeyOf(prefix, stems, p);
    ParsedItem(prefix, stems, made, p);
    GroupNext(prefix, keys, store,
              Parsed(EXTENSION_TO_FIELD[p.format].0, EXTENSION_TO_FIELD[p.format].1, stems[p.doc]));
  }

  lemma ItemsNext(stems: seq<string>, made: seq<Produced>)
    requires made != [] && forall p | p in made :: p.doc < |stems| && p.format < |EXTENSION_TO_FIELD|
    ensures forall p | p in made[..|made| - 1] :: p in made
    ensures var items, n := Items(stems, made), |made| - 1;
            made[n] in made && items[..n] == Items(stems, made[..n]) && items[n] == ItemOf(stems, made[n])
  {
    assert made[|made| - 1] in made;
  }

  lemma {:induction false} OwnIsOfItems(stems: seq<string>, made: seq<Produced>, d: nat)
    requires forall p | p in made :: p.doc < |stems| && p.format < |EXTENSION_TO_FIELD|
    requires d < |stems| && forall i, j :: 0 <= i < j < |stems| ==> stems[i] != stems[j]
    ensures Own(made, d) == OfItems(Items(stems, made), stems[d])
    decreases |made|
  {
    if made != [] {
      var n := |made| - 1;
      assert made[n] in made && forall q | q in made[..n] :: q in made;
      OwnIsOfItems(stems, made[..n], d);
      assert Items(stems, made)[..n] == Items(stems, made[..n]);
    }
  }

  lemma ItemsDistinct(stems: seq<string>, made: seq<Produced>, i: nat, j: nat)
    requires TellApart(stems) && InRange(stems, made) && OncePerFormat(made) && i < j < |made|
    ensures var items := Items(stems, made);
            items[i].stem != items[j].stem || items[i].artifact.field != items[j].artifact.field
  {
    var p, q := made[i], made[j];
    assert p in made && q in made;
    if p.doc == q.doc {
      if p.format < q.format { FieldsDistinct(p.format, q.format); } else { FieldsDistinct(q.format, p.format); }
    }
  }

  /** Attribution: every document gets exactly its own artifacts, in listing order, and
      a document without artifacts gets none. */
  lemma Attribution(
    prefix: string, stems: seq<string>, made: seq<Produced>, keys: seq<string>, store: map<string, Bytes>, d: nat)
    requires TellApart(stems) && InRange(stems, made) && OncePerFormat(made) && Stores(prefix, stems, made, keys, store)
    requires d < |stems|
    ensures OfStem(Group(prefix, keys, store), stems[d]) == Own(made, d)
    ensures stems[d] in Group(prefix, keys, store) <==> Own(made, d) != []
  {
    GroupIsOfItems(prefix, stems, made, keys, store);
    OwnIsOfItems(stems, made, d);
    forall i, j | 0 <= i < j < |made|
      ensures Items(stems, made)[i].stem != Items(stems, made)[j].stem ||
              Items(stems, made)[i].artifact.field != Items(stems, made)[j].artifact.field
    {
      ItemsDistinct(stems, made, i, j);
    }
    GroupingFilters(Items(stems, made), stems[d]);
  }

  /** Whatever is produced for documents of these stems, at most once per format, each of
      them is given its own artifacts. */
  ghost predicate Attributes(prefix: string, stems: seq<string>) {
    forall made, keys, store, d: nat ::
      InRange(stems, made) && OncePerFormat(made) && Stores(prefix, stems, made, keys, store) && d < |stems| ==>
        OfStem(Group(prefix, keys, store), stems[d]) == Own(made, d)
  }

  /** One artifact under one key. */
  lemma OneArtifact(prefix: string, stems: seq<string>, p: Produced)
    requires InRange(stems, [p])
    ensures p.doc < |stems| && p.format < |EXTENSION_TO_FIELD| && IsDirs(p.dirs)
    ensures var key := KeyOf(prefix, stems, p);
            && OncePerFormat([p])
            && Stores(prefix, stems, [p], [key], map[key := p.body])
            && Group(prefix, [key], map[key := p.body]) ==
               (match ParseArtifactKey(prefix, key)
                case None => map[]
                case Some(q) => map[q.stem := [Artifact(q.field, q.ext, p.body)]])
  {
    assert p in [p];
    var key := KeyOf(prefix, stems, p);
    assert [key][..0] == [];
  }

  lemma OwnOne(p: Produced, d: nat)
    requires p.format < |EXTENSION_TO_FIELD|
    ensures Own([p], d) == if p.doc == d
                           then [Artifact(EXTENSION_TO_FIELD[p.format].1, EXTENSION_TO_FIELD[p.format].0, p.body)]
                           else []
  {
    assert [p][..0] == [];
  }

  lemma InRangeOne(stems: seq<string>, p: Produced)
    requires p.doc < |stems| && p.format < |EXTENSION_TO_FIELD| && IsDirs(p.dirs)
    ensures InRange(stems, [p])
  {}

  lemma OneAttributed(prefix: string, stems: seq<string>, p: Produced)
    requires Attributes(prefix, stems)
    requires p.doc < |stems| && p.format < |EXTENSION_TO_FIELD| && IsDirs(p.dirs)
    ensures var key := KeyOf(prefix, stems, p);
            forall d: nat | d < |stems| :: OfStem(Group(prefix, [key], map[key := p.body]), stems[d]) == Own([p], d)
  {
    InRangeOne(stems, p);
    OneArtifact(prefix, stems, p);
  }

  /** A stem that parsing does not give back loses its document's artifact. */
  lemma LostArtifact(prefix: string, stems: seq<string>, p: Produced, key: string)
    requires Attributes(prefix, stems)
    requires p.doc < |stems| && p.format < |EXTENSION_TO_FIELD| && IsDirs(p.dirs) && key == KeyOf(prefix, stems, p)
    ensures ParseArtifactKey(prefix, key).Some? && ParseArtifactKey(prefix, key).value.stem == stems[p.doc]
  {
    OneAttributed(prefix, stems, p);
    InRangeOne(stems, p);
    OneArtifact(prefix, stems, p);
    OwnOne(p, p.doc);
  }

  lemma ParsedStemsAreLeaves(prefix: string, key: string)
    ensures ParseArtifactKey(prefix, key).Some? ==> '/' !in ParseArtifactKey(prefix, key).value.stem
  {
    if StartsWith(key, prefix) {
      SplitAtLast(key[|prefix|..], '/');
    }
  }

  const TEXT: nat := 5

  lemma SlashesMislead(prefix: string, stems: seq<string>, d: nat)
    requires Attributes(prefix, stems) && d < |stems|
    ensures '/' !in stems[d]
  {
    var p := Produced(d, "", TEXT, []);
    LostArtifact(prefix, stems, p, KeyOf(prefix, stems, p));
    ParsedStemsAreLeaves(prefix, KeyOf(prefix, stems, p));
  }

  lemma DoctagsMislead(prefix: string, stems: seq<string>, d: nat)
    requires Attributes(prefix, stems) && d < |stems|
    ensures !EndsWith(stems[d], ".doctags")
  {
    var p, stem := Produced(d, "", TEXT, []), stems[d];
    LostArtifact(prefix, stems, p, KeyOf(prefix, stems, p));
    SlashesMislead(prefix, stems, d);
    if EndsWith(stem, ".doctags") {
      ParsedText(prefix, stem);
    }
  }

  /** Text of a stem that ends in ".doctags" is never filed under that stem. */
  lemma ParsedText(prefix: string, stem: string)
    requires '/' !in stem && EndsWith(stem, ".doctags")
    ensures var parsed := ParseArtifactKey(prefix, prefix + "" + stem + ".txt");
            parsed.Some? && parsed.value.stem != stem
  {
    assert prefix + "" + stem + ".txt" == prefix + "" + (stem + ".txt");
    LeafOf(prefix, "", stem + ".txt");
    LeafRoundTrip(stem, TEXT);
  }

  lemma TwinsShare(prefix: string, stems: seq<string>, i: nat, j: nat)
    requires Attributes(prefix, stems) && i < j < |stems|
    ensures stems[i] != stems[j]
  {
    var p := Produced(i, "", TEXT, []);
    OneAttributed(prefix, stems, p);
    OwnOne(p, i);
    OwnOne(p, j);
    var key := KeyOf(prefix, stems, p);
    var grouped := Group(prefix, [key], map[key := p.body]);
    assert OfStem(grouped, stems[i]) == Own([p], i) != Own([p], j) == OfStem(grouped, stems[j]);
  }

  /** Attribution, exactly: every document is always given its own artifacts if and only if
      the stems are pairwise different, free of slashes, and none ends in ".doctags". */
  lemma AttributionIsExact(prefix: string, stems: seq<string>)
    ensures Attributes(prefix, stems) <==> TellApart(stems)
  {
    if TellApart(stems) {
      forall made, keys, store, d: nat
        | InRange(stems, made) && OncePerFormat(made) && Stores(prefix, stems, made, keys, store) && d < |stems|
        ensures OfStem(Group(prefix, keys, store), stems[d]) == Own(made, d)
      {
        Attribution(prefix, stems, made, keys, store, d);
      }
    }
    if Attributes(prefix, stems) {
      forall i: nat | i < |stems| ensures '/' !in stems[i] && !EndsWith(stems[i], ".doctags") {
        SlashesMislead(prefix, stems, i);
        DoctagsMislead(prefix, stems, i);
      }
      forall i: nat, j: nat | i < j < |stems| ensures stems[i] != stems[j] {
        TwinsShare(prefix, stems, i, j);
      }
    }
  }

  /** `filename.rsplit(".", 1)[0]`. */
  function StemOf(filename: string): string {
    BeforeLast(filename, '.')
  }

  datatype DocumentStatus = DocumentStatus(filename: string, success: bool)

  datatype ZipEntry = File(name: string, body: Bytes) | StatusFile(statuses: seq<DocumentStatus>)

  datatype Document = Document(filename: string, stem: string, artifacts: seq<Artifact>)

  function EntriesOf(stem: string, artifacts: seq<Artifact>): seq<ZipEntry> {
    if artifacts == [] then []
    else
      var a := artifacts[|artifacts| - 1];
      EntriesOf(stem, artifacts[..|artifacts| - 1]) + [File(stem + a.ext, a.body)]
  }

  function AllEntries(documents: seq<Document>): seq<ZipEntry> {
    if documents == [] then []
    else
      var d := documents[|documents| - 1];
      AllEntries(documents[..|documents| - 1]) + EntriesOf(d.stem, d.artifacts)
  }

  /** build_zip_archive: one entry per artifact, document by document, then the manifest,
      which lists the documents in order and marks failed exactly those with no artifact. */
  method BuildZipArchive(documents: seq<Document>) returns (zip: seq<ZipEntry>, statuses: seq<DocumentStatus>)
    ensures zip == AllEntries(documents) + [StatusFile(statuses)]
    ensures |statuses| == |documents|
    ensures forall i | 0 <= i < |documents| ::
              statuses[i] == DocumentStatus(documents[i].filename, documents[i].artifacts != [])
  {
    zip, statuses := [], [];
    for i := 0 to |documents|
      invariant zip == AllEntries(documents[..i]) && |statuses| == i
      invariant forall k | 0 <= k < i ::
                  statuses[k] == DocumentStatus(documents[k].filename, documents[k].artifacts != [])
    {
      var d := documents[i];
      assert documents[..i + 1][..i] == documents[..i];
      for j := 0 to |d.artifacts|
        invariant zip == AllEntries(documents[..i]) + EntriesOf(d.stem, d.artifacts[..j])
      {
        assert d.artifacts[..j + 1][..j] == d.artifacts[..j];
        zip := zip + [File(d.stem + d.artifacts[j].ext, d.artifacts[j].body)];
      }
      assert d.artifacts[..|d.artifacts|] == d.artifacts;
      statuses := statuses + [DocumentStatus(d.filename, d.artifacts != [])];
    }
    assert documents[..|documents|] == documents;
    zip := zip + [StatusFile(statuses)];
  }

  /** A field of the response: the text, or, for json_content, what it decodes to. */
  datatype FieldValue = Text(body: Bytes) | Decoded(json: Bytes)

  datatype ExportDocument = ExportDocument(filename: string, fields: map<string, FieldValue>)

  const JSON_FIELD := "json_content"

  function ValueOf(field: string, body: Bytes): FieldValue {
    if field == JSON_FIELD then Decoded(body) else Text(body)
  }

  /** The artifacts as the response's fields. */
  function Fields(artifacts: seq<Artifact>): map<string, FieldValue> {
    if artifacts == [] then map[]
    else
      var a := artifacts[|artifacts| - 1];
      Fields(artifacts[..|artifacts| - 1])[a.field := ValueOf(a.field, a.body)]
  }

  /** build_export_document_response: the name, and a field for each artifact, the others
      unset. */
  method BuildExportDocumentResponse(filename: string, artifacts: seq<Artifact>) returns (document: ExportDocument)
    ensures document == ExportDocument(filename, Fields(artifacts))
  {
    var fields := map[];
    for i := 0 to |artifacts|
      invariant fields == Fields(artifacts[..i])
    {
      assert artifacts[..i + 1][..i] == artifacts[..i];
      var a := artifacts[i];
      fields := fields[a.field := if a.field == JSON_FIELD then Decoded(a.body) else Text(a.body)];
    }
    assert artifacts[..|artifacts|] == artifacts;
    document := ExportDocument(filename, fields);
  }

  /** Document `d` was produced in the format of this field, with this body. */
  ghost predicate MadeAs(made: seq<Produced>, d: nat, field: string, body: Bytes) {
    exists p :: p in made && p.doc == d && p.format < |EXTENSION_TO_FIELD| &&
                EXTENSION_TO_FIELD[p.format].1 == field && p.body == body
  }

  lemma MadeNext(made: seq<Produced>, p: Produced, d: nat, field: string, body: Bytes)
    requires p.format < |EXTENSION_TO_FIELD|
    ensures MadeAs(made + [p], d, field, body) <==>
            MadeAs(made, d, field, body) ||
            (p.doc == d && EXTENSION_TO_FIELD[p.format].1 == field && p.body == body)
  {
    assert p in made + [p] && forall q | q in made :: q in made + [p];
  }

  lemma FieldsNext(own: seq<Artifact>, a: Artifact)
    ensures Fields(own + [a]) == Fields(own)[a.field := ValueOf(a.field, a.body)]
  {
    assert (own + [a])[..|own|] == own;
  }

  lemma FieldsOfLast(made: seq<Produced>, d: nat)
    requires made != [] && forall p | p in made :: p.format < |EXTENSION_TO_FIELD|
    ensures var init, p := made[..|made| - 1], made[|made| - 1];
            Fields(Own(made, d)) ==
            var field := EXTENSION_TO_FIELD[p.format].1;
            if p.doc == d then Fields(Own(init, d))[field := ValueOf(field, p.body)] else Fields(Own(init, d))
  {
    var init, p := made[..|made| - 1], made[|made| - 1];
    if p.doc == d {
      var a := Artifact(EXTENSION_TO_FIELD[p.format].1, EXTENSION_TO_FIELD[p.format].0, p.body);
      assert Own(made, d) == Own(init, d) + [a];
      FieldsNext(Own(init, d), a);
    } else {
      assert Own(made, d) == Own(init, d);
    }
  }

  /** The last product decides its own field of its document, and no other. */
  lemma MadeLast(made: seq<Produced>, d: nat, field: string, body: Bytes)
    requires made != [] && OncePerFormat(made) && forall p | p in made :: p.format < |EXTENSION_TO_FIELD|
    ensures var init, p := made[..|made| - 1], made[|made| - 1];
            && p in made
            && (MadeAs(made, d, field, body) <==>
                  if p.doc == d && EXTENSION_TO_FIELD[p.format].1 == field then p.body == body
                  else MadeAs(init, d, field, body))
  {
    var init, p := made[..|made| - 1], made[|made| - 1];
    assert p in made && made == init + [p];
    MadeNext(init, p, d, field, body);
    if p.doc == d && EXTENSION_TO_FIELD[p.format].1 == field {
      OnlyOnce(made, d, field, body);
    }
  }

  /** A document's response has exactly the formats it was produced in, each with the
      body produced. */
  lemma {:induction false} FieldsAreOwn(made: seq<Produced>, d: nat, field: string, body: Bytes)
    requires forall p | p in made :: p.format < |EXTENSION_TO_FIELD|
    requires OncePerFormat(made)
    ensures field in Fields(Own(made, d)) && Fields(Own(made, d))[field] == ValueOf(field, body) <==>
            MadeAs(made, d, field, body)
    decreases |made|
  {
    if made != [] {
      FieldsAreOwn(made[..|made| - 1], d, field, body);
      FieldsOfLast(made, d);
      MadeLast(made, d, field, body);
    }
  }

  lemma OnlyOnce(made: seq<Produced>, d: nat, field: string, body: Bytes)
    requires forall p | p in made :: p.format < |EXTENSION_TO_FIELD|
    requires OncePerFormat(made)
    requires made != [] && made[|made| - 1].doc == d && EXTENSION_TO_FIELD[made[|made| - 1].format].1 == field
    ensures !MadeAs(made[..|made| - 1], d, field, body)
  {
    var n := |made| - 1;
    assert made[n] in made;
    forall p | p in made[..n] && p.doc == d
      ensures p.format < |EXTENSION_TO_FIELD| && EXTENSION_TO_FIELD[p.format].1 != field
    {
      var i :| 0 <= i < n && made[..n][i] == p;
      assert made[i] == p && p in made;
      SameFormat(p.format, made[n].format);
    }
  }

  /** A field is of one format. */
  lemma SameFormat(i: nat, j: nat)
    requires i < |EXTENSION_TO_FIELD| && j < |EXTENSION_TO_FIELD|
    ensures EXTENSION_TO_FIELD[i].1 == EXTENSION_TO_FIELD[j].1 <==> i == j
  {
    if i < j {
      FieldsDistinct(i, j);
    } else if j < i {
      FieldsDistinct(j, i);
    }
  }

  /** Which field an artifact is of, by its ending: the whole table. */
  lemma FieldsByEnding(prefix: string, dirs: string, stem: string)
    requires IsDirs(dirs) && '/' !in stem
    ensures ParseArtifactKey(prefix, prefix + dirs + stem + ".json") == Some(Parsed(".json", "json_content", stem))
    ensures ParseArtifactKey(prefix, prefix + dirs + stem + ".md") == Some(Parsed(".md", "md_content", stem))
    ensures ParseArtifactKey(prefix, prefix + dirs + stem + ".html") == Some(Parsed(".html", "html_content", stem))
    ensures ParseArtifactKey(prefix, prefix + dirs + stem + ".dclg") == Some(Parsed(".dclg", "doclang_content", stem))
    ensures ParseArtifactKey(prefix, prefix + dirs + stem + ".doctags.txt") ==
            Some(Parsed(".doctags.txt", "doctags_content", stem))
    ensures ParseArtifactKey(prefix, prefix + dirs + stem + ".txt") ==
            if EndsWith(stem, ".doctags") then Some(Parsed(".doctags.txt", "doctags_content", stem[..|stem| - 8]))
            else Some(Parsed(".txt", "text_content", stem))
  {
    ParsedByEntry(prefix, dirs, stem, 0);
    ParsedByEntry(prefix, dirs, stem, 1);
    ParsedByEntry(prefix, dirs, stem, 2);
    ParsedByEntry(prefix, dirs, stem, 3);
    ParsedByEntry(prefix, dirs, stem, 4);
    ParsedByEntry(prefix, dirs, stem, 5);
  }

  lemma ParsedByEntry(prefix: string, dirs: string, stem: string, j: nat)
    requires IsDirs(dirs) && '/' !in stem && j < |EXTENSION_TO_FIELD|
    ensures var (ext, field) := EXTENSION_TO_FIELD[j];
            ParseArtifactKey(prefix, prefix + dirs + stem + ext) ==
            if Ambiguous(stem, ext) then Some(Parsed(".doctags.txt", "doctags_content", stem[..|stem| - 8]))
            else Some(Parsed(ext, field, stem))
  {
    var ext := EXTENSION_TO_FIELD[j].0;
    assert prefix + dirs + stem + ext == prefix + dirs + (stem + ext);
    LeafOf(prefix, dirs, stem + ext);
    LeafRoundTrip(stem, j);
  }

  /** The stem of a filename: what precedes its last dot, or all of it. */
  lemma StemsOfNames(stem: string, ending: string)
    requires '.' !in ending
    ensures StemOf(stem + "." + ending) == stem && StemOf(ending) == ending
  {
    BeforeLastOf(stem, ending, '.');
    assert stem + "." + ending == stem + ['.'] + ending;
    SplitAtLast(ending, '.');
  }

  /** Assigning an artifact replaces the one of its field, and no other. */
  lemma {:induction false} PutReplaces(fields: seq<Artifact>, a: Artifact, b: Artifact)
    requires forall i, j :: 0 <= i < j < |fields| ==> fields[i].field != fields[j].field
    ensures b in Put(fields, a) <==> b == a || (b in fields && b.field != a.field)
    decreases |fields|
  {
    if fields != [] {
      assert fields == [fields[0]] + fields[1..];
      if fields[0].field == a.field {
        assert forall f | f in fields[1..] :: f.field != a.field;
      } else {
        PutReplaces(fields[1..], a, b);
      }
    }
  }

  /** No stem ever has two artifacts of one field. */
  predicate OneEach(fields: seq<Artifact>) {
    forall i, j :: 0 <= i < j < |fields| ==> fields[i].field != fields[j].field
  }

  lemma {:induction false} PutKeepsOneEach(fields: seq<Artifact>, a: Artifact)
    requires OneEach(fields)
    ensures OneEach(Put(fields, a))
    decreases |fields|
  {
    if fields != [] {
      if fields[0].field == a.field {
        assert Put(fields, a) == [a] + fields[1..];
      } else {
        PutKeepsOneEach(fields[1..], a);
        forall b | b in Put(fields[1..], a) ensures b.field != fields[0].field {
          PutReplaces(fields[1..], a, b);
        }
      }
    }
  }

  lemma {:induction false} GroupKeepsOneEach(prefix: string, keys: seq<string>, store: map<string, Bytes>, stem: string)
    requires forall k | k in keys :: k in store
    ensures OneEach(OfStem(Group(prefix, keys, store), stem))
    decreases |keys|
  {
    if keys != [] {
      var init := keys[..|keys| - 1];
      GroupKeepsOneEach(prefix, init, store, stem);
      var parsed := ParseArtifactKey(prefix, keys[|keys| - 1]);
      if parsed.Some? && parsed.value.stem == stem {
        var p := parsed.value;
        PutKeepsOneEach(OfStem(Group(prefix, init, store), stem), Artifact(p.field, p.ext, store[keys[|keys| - 1]]));
      }
    }
  }

  /** Of several keys with one stem and field the last listed counts: it is among the stem's
      artifacts, and no other of its field is. */
  lemma LastListedWins(prefix: string, keys: seq<string>, store: map<string, Bytes>, p: Parsed)
    requires keys != [] && forall k | k in keys :: k in store
    requires ParseArtifactKey(prefix, keys[|keys| - 1]) == Some(p)
    ensures forall b: Artifact | b.field == p.field ::
              b in OfStem(Group(prefix, keys, store), p.stem) <==>
              b == Artifact(p.field, p.ext, store[keys[|keys| - 1]])
  {
    var init, a := keys[..|keys| - 1], Artifact(p.field, p.ext, store[keys[|keys| - 1]]);
    GroupKeepsOneEach(prefix, init, store, p.stem);
    GroupNext(prefix, keys, store, p);
    forall b: Artifact | b.field == p.field ensures b in OfStem(Group(prefix, keys, store), p.stem) <==> b == a {
      PutReplaces(OfStem(Group(prefix, init, store), p.stem), a, b);
    }
  }
}
