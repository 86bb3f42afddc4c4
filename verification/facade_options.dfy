/** The facade's conversion options (src/facade/utils.py): every form field it does not
    intercept is passed on. */
module FacadeOptions {
  import opened Models
  import OrderedKeys

  /** A multipart form: its fields in order, names possibly repeated. */
  type Form = seq<(string, string)>

  const INTERCEPTED_FIELDS := {"files", "target_type"}

  const ARRAY_FIELDS := {"from_formats", "to_formats", "ocr_lang", "page_range"}

  function Keys(form: Form): seq<string> {
    if form == [] then [] else Keys(form[..|form| - 1]) + [form[|form| - 1].0]
  }

  function GetList(form: Form, key: string): seq<string> {
    if form == [] then []
    else GetList(form[..|form| - 1], key) + (if form[|form| - 1].0 == key then [form[|form| - 1].1] else [])
  }

  function Forwarded(keys: seq<string>): seq<string> {
    if keys == [] then []
    else
      Forwarded(keys[..|keys| - 1]) +
      (if keys[|keys| - 1] in INTERCEPTED_FIELDS then [] else [keys[|keys| - 1]])
  }

  /** The values an option stands for. */
  function Values(v: OptionValue): seq<string> {
    match v
    case Scalar(text) => [text]
    case Array(items) => items
  }

  function Names(options: seq<(string, OptionValue)>): seq<string> {
    if options == [] then [] else Names(options[..|options| - 1]) + [options[|options| - 1].0]
  }

  lemma {:induction false} PresentKeysHaveValues(form: Form, key: string)
    ensures key in Keys(form) <==> GetList(form, key) != []
  {
    if form != [] {
      PresentKeysHaveValues(form[..|form| - 1], key);
    }
  }

  /** The option stands for just its field's values, in order; array fields, and
      repeated ones, are lists. */
  predicate Keeps(form: Form, option: (string, OptionValue)) {
    Values(option.1) == GetList(form, option.0) &&
    (option.1.Array? <==> option.0 in ARRAY_FIELDS || |GetList(form, option.0)| > 1)
  }

  /** Options pass through without loss: their names are the form's names that are not
      intercepted, each once, by first occurrence, and each option keeps its values. */
  method BuildConvertOptions(form: Form) returns (options: seq<(string, OptionValue)>)
    ensures Names(options) == Forwarded(OrderedKeys.FromKeys(Keys(form)))
    ensures forall o | o in options :: Keeps(form, o)
    ensures forall o | o in options :: o.0 != "files" && o.0 != "target_type"
    ensures forall o | o in options ::
              o.1.Array? <==>
              o.0 == "from_formats" || o.0 == "to_formats" || o.0 == "ocr_lang" || o.0 == "page_range" ||
              |GetList(form, o.0)| > 1
  {
    var keys := OrderedKeys.FromKeys(Keys(form));
    OrderedKeys.FromKeysKeepsAll(Keys(form));
    options := [];
    for i := 0 to |keys|
      invariant Names(options) == Forwarded(keys[..i])
      invariant forall o | o in options :: Keeps(form, o) && o.0 !in INTERCEPTED_FIELDS
    {
      var key := keys[i];
      ForwardedNext(keys, i);
      if key in INTERCEPTED_FIELDS {
        continue;
      }
      var values := GetList(form, key);
      PresentKeysHaveValues(form, key);
      var option := (key, if key in ARRAY_FIELDS || |values| > 1 then Array(values) else Scalar(values[0]));
      assert Keeps(form, option);
      NamesNext(options, option);
      options := options + [option];
    }
    assert keys[..|keys|] == keys;
  }

  lemma ForwardedNext(keys: seq<string>, i: nat)
    requires i < |keys|
    ensures Forwarded(keys[..i + 1]) == Forwarded(keys[..i]) + (if keys[i] in INTERCEPTED_FIELDS then [] else [keys[i]])
  {
    assert keys[..i + 1][..i] == keys[..i];
  }

  lemma NamesNext(options: seq<(string, OptionValue)>, option: (string, OptionValue))
    ensures Names(options + [option]) == Names(options) + [option.0]
  {
    assert (options + [option])[..|options|] == options;
  }

  lemma {:induction false} ForwardedKeeps(keys: seq<string>, key: string)
    ensures key in Forwarded(keys) <==> key in keys && key !in INTERCEPTED_FIELDS
  {
    if keys != [] {
      ForwardedKeeps(keys[..|keys| - 1], key);
      assert keys == keys[..|keys| - 1] + [keys[|keys| - 1]];
    }
  }

  lemma {:induction false} KeysOfPrefix(form: Form, n: nat)
    requires n <= |form|
    ensures |Keys(form)| == |form| && Keys(form[..n]) == Keys(form)[..n]
    decreases |form|
  {
    if n == |form| {
      assert form[..n] == form;
      if form != [] {
        KeysOfPrefix(form[..|form| - 1], 0);
      }
    } else {
      KeysOfPrefix(form[..|form| - 1], n);
      assert form[..|form| - 1][..n] == form[..n];
    }
  }

  lemma {:induction false} ForwardedPrefix(keys: seq<string>, n: nat)
    requires n <= |keys|
    ensures Forwarded(keys[..n]) <= Forwarded(keys)
  {
    if n == |keys| {
      assert keys[..n] == keys;
    } else {
      ForwardedPrefix(keys[..|keys| - 1], n);
      assert keys[..|keys| - 1][..n] == keys[..n];
    }
  }

  lemma ForwardedStart(first: seq<string>, all: seq<string>)
    requires first <= all
    ensures Forwarded(first) <= Forwarded(all)
  {
    ForwardedPrefix(all, |first|);
    assert all[..|first|] == first;
  }

  /** The options stand in the order in which the client first sent their fields: those of
      the form's first `n` fields come first. */
  lemma FieldsKeepOrder(form: Form, n: nat)
    requires n <= |form|
    ensures Forwarded(OrderedKeys.FromKeys(Keys(form[..n]))) <= Forwarded(OrderedKeys.FromKeys(Keys(form)))
  {
    KeysOfPrefix(form, n);
    OrderedKeys.FromKeysOrder(Keys(form), n);
    var first, all := OrderedKeys.FromKeys(Keys(form[..n])), OrderedKeys.FromKeys(Keys(form));
    ForwardedStart(first, all);
  }

  /** Every field a client sends reaches the options, unless it is intercepted. */
  lemma EveryFieldForwarded(form: Form, key: string)
    ensures key in Forwarded(OrderedKeys.FromKeys(Keys(form))) <==>
            key !in INTERCEPTED_FIELDS && GetList(form, key) != []
  {
    ForwardedKeeps(OrderedKeys.FromKeys(Keys(form)), key);
    OrderedKeys.FromKeysKeepsAll(Keys(form));
    PresentKeysHaveValues(form, key);
  }

  /** A field's values stand in the order of the form: the value sent at position `i` comes
      after as many as were sent before it. */
  lemma {:induction false} ValueInPlace(form: Form, key: string, i: nat)
    requires i < |form| && form[i].0 == key
    ensures |GetList(form[..i], key)| < |GetList(form, key)|
    ensures GetList(form, key)[|GetList(form[..i], key)|] == form[i].1
    decreases |form|
  {
    var init := form[..|form| - 1];
    if i < |form| - 1 {
      ValueInPlace(init, key, i);
      assert init[..i] == form[..i];
    }
  }

  /** The positions at which a field was sent. */
  function Positions(form: Form, key: string): set<int> {
    set i | 0 <= i < |form| && form[i].0 == key
  }

  lemma PositionsNext(form: Form, key: string)
    requires form != []
    ensures var n := |form| - 1;
            n !in Positions(form[..n], key) &&
            Positions(form, key) == Positions(form[..n], key) + (if form[n].0 == key then {n} else {})
  {}

  /** A field has as many values as it was sent times. */
  lemma {:induction false} ValuesCounted(form: Form, key: string)
    ensures |GetList(form, key)| == |Positions(form, key)|
    decreases |form|
  {
    if form != [] {
      ValuesCounted(form[..|form| - 1], key);
      PositionsNext(form, key);
    }
  }

  lemma Intercepted(key: string)
    ensures key in INTERCEPTED_FIELDS <==> key == "files" || key == "target_type"
  {}

  /** What is held back is exactly the files and the target type: any other field sent is
      among the options. */
  lemma HeldBack(form: Form, i: nat, key: string)
    requires i < |form| && form[i].0 == key
    ensures key in Forwarded(OrderedKeys.FromKeys(Keys(form))) <==> key != "files" && key != "target_type"
  {
    ValueInPlace(form, key, i);
    EveryFieldForwarded(form, key);
    Intercepted(key);
  }
}
