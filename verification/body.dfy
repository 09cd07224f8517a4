/**
 * `prepare_body`: every Array- or Hash-valued field of a request body is walked by
 * `extract_files` with ONE `files` table shared by all fields, replaced by its JSON text,
 * and the collected Files are merged back into the body as extra top-level fields.
 */
module Preparation {
  import opened Wrappers
  import opened Values
  import opened Naming
  import opened Extraction

  /**
   * A field of the prepared body: a value left as it was (a scalar or a top-level File, which
   * the HTTP layer sends itself), or the JSON text of a transformed container. The JSON
   * encoder is not modelled: Json(tree) stands for `tree.to_json`.
   */
  datatype Field = Raw(value: Value) | Json(tree: Value)

  datatype Part = Part(key: string, field: Field)

  /** The keys of a prepared body, in order. */
  function PartKeys(parts: seq<Part>): (ks: seq<string>)
    ensures |ks| == |parts|
    ensures forall i :: 0 <= i < |parts| ==> ks[i] == parts[i].key
  {
    seq(|parts|, i requires 0 <= i < |parts| => parts[i].key)
  }

  /** The keys of a body with one more field in front. */
  lemma PartKeysCons(p: Part, parts: seq<Part>)
    ensures PartKeys([p] + parts) == [p.key] + PartKeys(parts)
  {
    var ks, expected := PartKeys([p] + parts), [p.key] + PartKeys(parts);
    forall i | 0 <= i < |ks|
      ensures ks[i] == expected[i]
    {
      if i > 0 {
        assert ([p] + parts)[i] == parts[i - 1];
      }
    }
  }

  /** Ruby's `hash[key]` on an ordered Hash. */
  function Get(parts: seq<Part>, key: string): Option<Field> {
    if parts == [] then None
    else if parts[0].key == key then Some(parts[0].field)
    else Get(parts[1..], key)
  }

  /** A lookup finds a value exactly for the keys the Hash has. */
  lemma {:induction false} GetFinds(parts: seq<Part>, key: string)
    ensures Get(parts, key).Some? <==> key in PartKeys(parts)
    decreases |parts|
  {
    if parts != [] {
      assert PartKeys(parts) == [parts[0].key] + PartKeys(parts[1..]);
      GetFinds(parts[1..], key);
    }
  }

  /** Ruby's `hash[key] = field` on an ordered Hash. */
  function Store(parts: seq<Part>, key: string, field: Field): seq<Part> {
    if parts == [] then [Part(key, field)]
    else if parts[0].key == key then [Part(key, field)] + parts[1..]
    else [parts[0]] + Store(parts[1..], key, field)
  }

  /** `hash[key] = field` keeps an existing key in its position and appends a new one at the end. */
  lemma {:induction false} StoreKeys(parts: seq<Part>, key: string, field: Field)
    ensures PartKeys(Store(parts, key, field))
         == if key in PartKeys(parts) then PartKeys(parts) else PartKeys(parts) + [key]
    decreases |parts|
  {
    if parts != [] {
      PartKeysCons(parts[0], parts[1..]);
      assert parts == [parts[0]] + parts[1..];
      if parts[0].key == key {
        PartKeysCons(Part(key, field), parts[1..]);
      } else {
        StoreKeys(parts[1..], key, field);
        PartKeysCons(parts[0], Store(parts[1..], key, field));
      }
    }
  }

  /** `hash[key] = field` adds no field other than the one stored. */
  lemma {:induction false} StoreParts(parts: seq<Part>, key: string, field: Field)
    ensures forall p :: p in Store(parts, key, field) ==> p in parts || p == Part(key, field)
    decreases |parts|
  {
    if parts != [] && parts[0].key != key {
      StoreParts(parts[1..], key, field);
    }
  }

  /** After `hash[key] = field`, looking up key gives field and every other lookup is as before. */
  lemma {:induction false} StoreGet(parts: seq<Part>, key: string, field: Field, other: string)
    ensures Get(Store(parts, key, field), key) == Some(field)
    ensures other != key ==> Get(Store(parts, key, field), other) == Get(parts, other)
    decreases |parts|
  {
    if parts != [] && parts[0].key != key {
      StoreGet(parts[1..], key, field, other);
    }
  }

  /** `body.merge!(files)`: the table's entries `"_file#{k}" => file`, stored in insertion order. */
  function Merge(parts: seq<Part>, files: seq<File>): seq<Part>
    decreases |files|
  {
    if files == [] then parts
    else
      var n := |files|;
      Store(Merge(parts, files[..n - 1]), FileName(n - 1), Raw(Upload(files[n - 1])))
  }

  /** The block of line 44 on one field value, with the shared table holding `files`. */
  function PrepareField(v: Value, files: seq<File>): (Field, seq<File>) {
    if IsContainer(v) then
      var (tree, files') := ExtractFiles(v, files);
      (Json(tree), files')
    else (Raw(v), files)
  }

  /** The Files nested inside the body's Array- and Hash-valued fields, field after field. */
  function BodyLeaves(body: seq<Member>): seq<File>
    decreases |body|
  {
    if body == [] then []
    else
      var last := body[|body| - 1].value;
      BodyLeaves(body[..|body| - 1]) + (if IsContainer(last) then Leaves(last) else [])
  }

  /**
   * `body.transform_values { ... }` (lines 43-45) with the single table of line 42: keys are
   * kept in order and the table ends up holding every nested File of the body, in order.
   */
  function TransformValues(body: seq<Member>): (r: (seq<Part>, seq<File>))
    ensures PartKeys(r.0) == Keys(body)
    ensures r.1 == BodyLeaves(body)
    decreases |body|
  {
    if body == [] then ([], [])
    else
      var n := |body|;
      var (parts, files) := TransformValues(body[..n - 1]);
      var (field, files') := PrepareField(body[n - 1].value, files);
      (parts + [Part(body[n - 1].key, field)], files')
  }

  /** The body `prepare_body` returns. */
  function PreparedBody(body: seq<Member>): seq<Part> {
    var (parts, files) := TransformValues(body);
    Merge(parts, files)
  }

  /** `prepare_body(body)` (lines 41-47). */
  method PrepareBody(body: seq<Member>) returns (prepared: seq<Part>)
    ensures prepared == PreparedBody(body)
  {
    var files: seq<File> := [];
    var parts: seq<Part> := [];
    var i := 0;
    while i < |body|
      invariant 0 <= i <= |body|
      invariant (parts, files) == TransformValues(body[..i])
    {
      var member := body[i];
      var field: Field;
      if member.value.Arr? || member.value.Obj? {
        var extracted := ExtractFiles(member.value, files);
        field := Json(extracted.0);
        files := extracted.1;
      } else {
        field := Raw(member.value);
      }
      parts := parts + [Part(member.key, field)];
      assert body[..i + 1][..i] == body[..i];
      i := i + 1;
    }
    assert body[..|body|] == body;
    prepared := Merge(parts, files);
  }

  /** After `merge!`, the generated name `_file<j>` maps to the j-th File, whatever the body held under it before. */
  lemma {:induction false} MergeFileAt(parts: seq<Part>, files: seq<File>, j: nat)
    requires j < |files|
    ensures Get(Merge(parts, files), FileName(j)) == Some(Raw(Upload(files[j])))
    decreases |files|
  {
    var n := |files|;
    var prefix := files[..n - 1];
    var field := Raw(Upload(files[n - 1]));
    var before := Merge(parts, prefix);
    assert Merge(parts, files) == Store(before, FileName(n - 1), field);
    StoreGet(before, FileName(n - 1), field, FileName(j));
    if j < n - 1 {
      MergeFileAt(parts, prefix, j);
      FileNamesDiffer(j, n - 1);
    }
  }

  /** `merge!` leaves the value of every key that is not a generated name alone. */
  lemma {:induction false} MergeOther(parts: seq<Part>, files: seq<File>, key: string)
    requires !Generated(key, |files|)
    ensures Get(Merge(parts, files), key) == Get(parts, key)
    decreases |files|
  {
    if files != [] {
      var n := |files|;
      var prefix := files[..n - 1];
      assert key != FileName(n - 1);
      assert !Generated(key, n - 1);
      MergeOther(parts, prefix, key);
      StoreGet(Merge(parts, prefix), FileName(n - 1), Raw(Upload(files[n - 1])), key);
    }
  }

  /**
   * After `merge!` the keys are the old ones, in their old positions, followed by the generated
   * names the Hash did not have yet, each once, in the order `_file0`, `_file1`, ...
   */
  lemma MergeKeys(parts: seq<Part>, files: seq<File>, key: string)
    ensures key in PartKeys(Merge(parts, files)) <==> key in PartKeys(parts) || Generated(key, |files|)
    ensures |Merge(parts, files)| >= |parts| && PartKeys(Merge(parts, files))[..|parts|] == PartKeys(parts)
    ensures PartKeys(Merge(parts, files)) == PartKeys(parts) + NewNames(PartKeys(parts), |files|)
  {
    MergeHasKey(parts, files, key);
    MergeKeepsPrefix(parts, files);
    MergeKeySequence(parts, files);
  }

  /** The generated names `_file0` .. `_file<n-1>` that `keys` lacks, in order. */
  function NewNames(keys: seq<string>, n: nat): seq<string>
    decreases n
  {
    if n == 0 then []
    else NewNames(keys, n - 1) + (if FileName(n - 1) in keys then [] else [FileName(n - 1)])
  }

  /** Every new name is a generated name that `keys` lacks. */
  lemma {:induction false} NewNamesFresh(keys: seq<string>, n: nat)
    ensures forall name :: name in NewNames(keys, n) ==> Generated(name, n) && name !in keys
    decreases n
  {
    if n > 0 {
      NewNamesFresh(keys, n - 1);
      forall name | name in NewNames(keys, n)
        ensures Generated(name, n) && name !in keys
      {
        if name != FileName(n - 1) {
          assert name in NewNames(keys, n - 1);
          var j :| 0 <= j < n - 1 && name == FileName(j);
          assert 0 <= j < n && name == FileName(j);
        }
      }
    }
  }

  /** No generated name is added twice. */
  lemma {:induction false} NewNamesDistinct(keys: seq<string>, n: nat)
    ensures DistinctKeys(NewNames(keys, n))
    decreases n
  {
    if n > 0 {
      NewNamesDistinct(keys, n - 1);
      NewNamesFresh(keys, n - 1);
      assert FileName(n - 1) !in NewNames(keys, n - 1) by {
        if FileName(n - 1) in NewNames(keys, n - 1) {
          var j :| 0 <= j < n - 1 && FileName(n - 1) == FileName(j);
          FileNameInjective(n - 1, j);
        }
      }
    }
  }

  /** The name `_file<n>` is not among the new names below n. */
  lemma NextNameIsNew(keys: seq<string>, n: nat)
    ensures FileName(n) !in NewNames(keys, n)
  {
    NewNamesFresh(keys, n);
    if FileName(n) in NewNames(keys, n) {
      var j :| 0 <= j < n && FileName(n) == FileName(j);
      FileNameInjective(n, j);
    }
  }

  /** One step of `merge!` on the key sequence: the next generated name is appended unless present. */
  lemma NewNamesStep(keys: seq<string>, n: nat)
    requires n > 0
    ensures FileName(n - 1) in keys + NewNames(keys, n - 1) ==> keys + NewNames(keys, n) == keys + NewNames(keys, n - 1)
    ensures FileName(n - 1) !in keys + NewNames(keys, n - 1) ==>
      keys + NewNames(keys, n) == keys + NewNames(keys, n - 1) + [FileName(n - 1)]
  {
    NextNameIsNew(keys, n - 1);
    if FileName(n - 1) in keys {
      assert NewNames(keys, n) == NewNames(keys, n - 1) + [];
    } else {
      assert keys + NewNames(keys, n - 1) + [FileName(n - 1)] == keys + (NewNames(keys, n - 1) + [FileName(n - 1)]);
    }
  }

  /** The key sequence after `merge!`: the old keys, then the new generated names in order. */
  lemma {:induction false} MergeKeySequence(parts: seq<Part>, files: seq<File>)
    ensures PartKeys(Merge(parts, files)) == PartKeys(parts) + NewNames(PartKeys(parts), |files|)
    decreases |files|
  {
    var keys := PartKeys(parts);
    if files == [] {
      assert keys + [] == keys;
    } else {
      var n := |files|;
      var prefix := files[..n - 1];
      MergeKeySequence(parts, prefix);
      StoreKeys(Merge(parts, prefix), FileName(n - 1), Raw(Upload(files[n - 1])));
      NewNamesStep(keys, n);
    }
  }

  /** Keys distinct on both sides of a concatenation, and no key on both, stay distinct. */
  lemma DistinctAppend(a: seq<string>, b: seq<string>)
    requires DistinctKeys(a) && DistinctKeys(b)
    requires forall x :: x in b ==> x !in a
    ensures DistinctKeys(a + b)
  {
    forall i, j | 0 <= i < j < |a + b|
      ensures (a + b)[i] != (a + b)[j]
    {
      if i < |a| && |a| <= j {
        assert (a + b)[j] == b[j - |a|] && b[j - |a|] in b;
      }
    }
  }

  /** `merge!` into a Hash with unique keys leaves a Hash with unique keys. */
  lemma MergeDistinct(parts: seq<Part>, files: seq<File>)
    requires DistinctKeys(PartKeys(parts))
    ensures DistinctKeys(PartKeys(Merge(parts, files)))
  {
    MergeKeySequence(parts, files);
    NewNamesFresh(PartKeys(parts), |files|);
    NewNamesDistinct(PartKeys(parts), |files|);
    DistinctAppend(PartKeys(parts), NewNames(PartKeys(parts), |files|));
  }

  /** A key is present after `merge!` iff it was present before or is a generated name. */
  lemma {:induction false} MergeHasKey(parts: seq<Part>, files: seq<File>, key: string)
    ensures key in PartKeys(Merge(parts, files)) <==> key in PartKeys(parts) || Generated(key, |files|)
    decreases |files|
  {
    if files != [] {
      var n := |files|;
      var prefix := files[..n - 1];
      MergeHasKey(parts, prefix, key);
      StoreKeys(Merge(parts, prefix), FileName(n - 1), Raw(Upload(files[n - 1])));
      if Generated(key, n) && key != FileName(n - 1) {
        var j :| 0 <= j < n && key == FileName(j);
        assert 0 <= j < n - 1 && key == FileName(j);
      }
      if Generated(key, n - 1) {
        var j :| 0 <= j < n - 1 && key == FileName(j);
        assert 0 <= j < n && key == FileName(j);
      }
    }
  }

  /** `merge!` keeps the old keys in their old positions. */
  lemma {:induction false} MergeKeepsPrefix(parts: seq<Part>, files: seq<File>)
    ensures |Merge(parts, files)| >= |parts| && PartKeys(Merge(parts, files))[..|parts|] == PartKeys(parts)
    decreases |files|
  {
    if files != [] {
      var n := |files|;
      var prefix := files[..n - 1];
      MergeKeepsPrefix(parts, prefix);
      StoreKeys(Merge(parts, prefix), FileName(n - 1), Raw(Upload(files[n - 1])));
      var before := PartKeys(Merge(parts, prefix));
      assert before[..|parts|] == PartKeys(parts);
      assert FileName(n - 1) in before ==> PartKeys(Merge(parts, files)) == before;
      assert FileName(n - 1) !in before ==> PartKeys(Merge(parts, files)) == before + [FileName(n - 1)];
    }
  }

  /**
   * Field i of the transformed body keeps its key; a container is extracted with the table
   * holding the Files of all earlier fields, so numbering continues across fields.
   */
  lemma {:induction false} TransformValuesAt(body: seq<Member>, i: nat)
    requires i < |body|
    ensures |TransformValues(body).0| == |body|
    ensures TransformValues(body).0[i] == Part(body[i].key, PrepareField(body[i].value, BodyLeaves(body[..i])).0)
    decreases |body|
  {
    var n := |body|;
    var parts, files := TransformValues(body[..n - 1]).0, TransformValues(body[..n - 1]).1;
    assert TransformValues(body).0 == parts + [Part(body[n - 1].key, PrepareField(body[n - 1].value, files).0)];
    if i < n - 1 {
      TransformValuesAt(body[..n - 1], i);
      assert body[..n - 1][..i] == body[..i];
      assert body[..n - 1][i] == body[i];
    }
  }

  /** Ruby Hash keys are unique. */
  predicate DistinctKeys(keys: seq<string>) {
    forall i, j :: 0 <= i < j < |keys| ==> keys[i] != keys[j]
  }

  /** With unique keys, looking up the key at position i finds the value at position i. */
  lemma {:induction false} GetAt(parts: seq<Part>, i: nat)
    requires i < |parts|
    requires DistinctKeys(PartKeys(parts))
    ensures Get(parts, parts[i].key) == Some(parts[i].field)
    decreases |parts|
  {
    if i > 0 {
      assert PartKeys(parts)[0] != PartKeys(parts)[i];
      assert PartKeys(parts[1..]) == PartKeys(parts)[1..];
      GetAt(parts[1..], i - 1);
    }
  }

  /** The Files of the first i fields come first among the Files of the body. */
  lemma {:induction false} BodyLeavesPrefix(body: seq<Member>, i: nat)
    requires i <= |body|
    ensures BodyLeaves(body[..i]) <= BodyLeaves(body)
    decreases |body| - i
  {
    if i < |body| {
      BodyLeavesPrefix(body, i + 1);
      assert body[..i + 1][..i] == body[..i];
    } else {
      assert body[..i] == body;
    }
  }

  /**
   * The keys of the prepared body are the body's keys, in their positions, followed by the
   * generated names `_file0` ... `_file<N-1>`, N being the number of Files nested in the
   * body's containers; a generated name already present keeps its position.
   */
  lemma PreparedBodyKeys(body: seq<Member>, key: string)
    ensures key in PartKeys(PreparedBody(body)) <==> key in Keys(body) || Generated(key, |BodyLeaves(body)|)
    ensures |PreparedBody(body)| >= |body| && PartKeys(PreparedBody(body))[..|body|] == Keys(body)
    ensures PartKeys(PreparedBody(body)) == Keys(body) + NewNames(Keys(body), |BodyLeaves(body)|)
  {
    var parts, files := TransformValues(body).0, TransformValues(body).1;
    MergeKeys(parts, files, key);
  }

  /** A body with unique keys is prepared into a Hash with unique keys. */
  lemma PreparedBodyDistinct(body: seq<Member>)
    requires DistinctKeys(Keys(body))
    ensures DistinctKeys(PartKeys(PreparedBody(body)))
  {
    MergeDistinct(TransformValues(body).0, TransformValues(body).1);
  }

  /**
   * The field `_file<j>` of the prepared body holds the j-th nested File of the body, counting
   * across all fields in order, even when the body had its own field of that name.
   */
  lemma PreparedBodyFile(body: seq<Member>, j: nat)
    requires j < |BodyLeaves(body)|
    ensures Get(PreparedBody(body), FileName(j)) == Some(Raw(Upload(BodyLeaves(body)[j])))
  {
    var parts, files := TransformValues(body).0, TransformValues(body).1;
    MergeFileAt(parts, files, j);
  }

  /**
   * Every field of the body whose name is not a generated one keeps its value when that is a
   * scalar or a File, and otherwise holds the JSON of the container transformed with the table
   * holding the Files of all earlier fields: numbering does not restart per field.
   */
  lemma {:induction false} PreparedBodyField(body: seq<Member>, i: nat)
    requires DistinctKeys(Keys(body))
    requires i < |body|
    requires !Generated(body[i].key, |BodyLeaves(body)|)
    ensures Get(PreparedBody(body), body[i].key) == Some(PrepareField(body[i].value, BodyLeaves(body[..i])).0)
  {
    var parts, files := TransformValues(body).0, TransformValues(body).1;
    TransformValuesAt(body, i);
    GetAt(parts, i);
    MergeOther(parts, files, body[i].key);
  }

  /** Each JSON field decodes back to the original container once the merged Files are put back. */
  lemma PreparedFieldRestores(body: seq<Member>, i: nat)
    requires i < |body|
    requires IsContainer(body[i].value) && NoPlaceholders(body[i].value)
    ensures PrepareField(body[i].value, BodyLeaves(body[..i])).0.Json?
    ensures Restore(PrepareField(body[i].value, BodyLeaves(body[..i])).0.tree, BodyLeaves(body)) == body[i].value
  {
    ContainerFieldIsJson(body[i].value, BodyLeaves(body[..i]));
    ContainerFieldRestores(body, i);
  }

  /** A Hash or Array field is serialised to JSON, and the tree given to `to_json` holds no File. */
  lemma ContainerFieldIsJson(v: Value, files: seq<File>)
    requires IsContainer(v)
    ensures PrepareField(v, files).0 == Json(Replace(v, files).0)
    ensures Leaves(PrepareField(v, files).0.tree) == []
  {
    ReplacedHasNoFiles(v, files);
  }

  lemma ContainerFieldRestores(body: seq<Member>, i: nat)
    requires i < |body|
    requires IsContainer(body[i].value) && NoPlaceholders(body[i].value)
    ensures Restore(Replace(body[i].value, BodyLeaves(body[..i])).0, BodyLeaves(body)) == body[i].value
  {
    FieldLeavesWithinBody(body, i);
    RestoreReplace(body[i].value, BodyLeaves(body[..i]), BodyLeaves(body));
  }

  /** The Files of the fields before i, then those of field i, start the Files of the body. */
  lemma FieldLeavesWithinBody(body: seq<Member>, i: nat)
    requires i < |body|
    requires IsContainer(body[i].value)
    ensures BodyLeaves(body[..i]) + Leaves(body[i].value) <= BodyLeaves(body)
  {
    BodyLeavesStep(body, i);
    BodyLeavesPrefix(body, i + 1);
  }

  /** The Files of the first i + 1 fields: those of the first i, then those of field i. */
  lemma BodyLeavesStep(body: seq<Member>, i: nat)
    requires i < |body| && IsContainer(body[i].value)
    ensures BodyLeaves(body[..i + 1]) == BodyLeaves(body[..i]) + Leaves(body[i].value)
  {
    assert body[..i + 1][..i] == body[..i];
  }

  /** A body without Arrays or Hashes has no nested Files. */
  lemma {:induction false} PlainBodyHasNoLeaves(body: seq<Member>)
    requires forall i :: 0 <= i < |body| ==> !IsContainer(body[i].value)
    ensures BodyLeaves(body) == []
    decreases |body|
  {
    if body != [] {
      PlainBodyHasNoLeaves(body[..|body| - 1]);
    }
  }

  /** A body with no Array or Hash values comes back unchanged, top-level Files included. */
  lemma PlainBodyUnchanged(body: seq<Member>)
    requires forall i :: 0 <= i < |body| ==> !IsContainer(body[i].value)
    ensures PreparedBody(body) == seq(|body|, i requires 0 <= i < |body| => Part(body[i].key, Raw(body[i].value)))
  {
    PlainBodyHasNoLeaves(body);
    var parts := TransformValues(body).0;
    forall i | 0 <= i < |body|
      ensures parts[i] == Part(body[i].key, Raw(body[i].value))
    {
      TransformValuesAt(body, i);
    }
  }

  /** No field holds a raw Array or Hash. */
  predicate Flat(parts: seq<Part>) {
    forall p :: p in parts && p.field.Raw? ==> !IsContainer(p.field.value)
  }

  lemma {:induction false} MergeFlat(parts: seq<Part>, files: seq<File>)
    requires Flat(parts)
    ensures Flat(Merge(parts, files))
    decreases |files|
  {
    if files != [] {
      var n := |files|;
      MergeFlat(parts, files[..n - 1]);
      StoreParts(Merge(parts, files[..n - 1]), FileName(n - 1), Raw(Upload(files[n - 1])));
    }
  }

  /** After preparation every value is a scalar, a File or a JSON text, never a raw container. */
  lemma PreparedBodyFlat(body: seq<Member>)
    ensures Flat(PreparedBody(body))
  {
    var parts, files := TransformValues(body).0, TransformValues(body).1;
    forall p | p in parts && p.field.Raw?
      ensures !IsContainer(p.field.value)
    {
      var i :| 0 <= i < |parts| && parts[i] == p;
      TransformValuesAt(body, i);
    }
    MergeFlat(parts, files);
  }
}
