/**
 * `extract_files`: replaces every File nested in an Array or Hash by a placeholder string
 * and records the File in the `files` table shared by the whole walk.
 *
 * The table is the Ruby Hash `files`. Its keys are always `"_file0"`, `"_file1"`, ... in
 * insertion order, because each key is built from the table's size at insertion time, so the
 * model keeps only its values: entry k of the sequence is the File stored under FileName(k).
 * TableIsHash shows that the Hash `extract_files` builds is exactly this.
 */
module Extraction {
  import opened Values
  import opened Naming

  /** The block of lines 70-81, applied to one value. */
  function Replace(val: Value, files: seq<File>): (r: (Value, seq<File>))
    ensures r.1 == files + Leaves(val)
    ensures val.Upload? ==> r.0 == Str(Placeholder(|files|))
    ensures !IsContainer(val) && !val.Upload? ==> r.0 == val
    ensures IsContainer(val) ==> r == ExtractFiles(val, files)
    decreases val, 3
  {
    match val
    case Upload(f) => (Str(Placeholder(|files|)), files + [f])
    case Arr(_) => ExtractFiles(val, files)
    case Obj(_) => ExtractFiles(val, files)
    case _ => (val, files)
  }

  /**
   * `extract_files(object, files)`: an Array maps element-wise, a Hash keeps its keys and
   * maps its values. The table grows by exactly the container's File leaves in pre-order, and
   * each element is transformed with the table holding the files of all elements before it.
   */
  function ExtractFiles(container: Value, files: seq<File>): (r: (Value, seq<File>))
    requires IsContainer(container)
    ensures r.1 == files + Leaves(container)
    ensures container.Arr? ==> r.0.Arr? && |r.0.items| == |container.items|
    ensures container.Obj? ==> r.0.Obj? && Keys(r.0.members) == Keys(container.members)
    decreases container, 2
  {
    match container
    case Arr(items) =>
      var (mapped, files') := MapItems(items, files);
      (Arr(mapped), files')
    case Obj(members) =>
      var (mapped, files') := TransformMembers(members, files);
      assert Keys(mapped) == Keys(members);
      (Obj(mapped), files')
  }

  /** `container.map(&block)`, left to right. */
  function MapItems(items: seq<Value>, files: seq<File>): (r: (seq<Value>, seq<File>))
    ensures r.1 == files + ItemLeaves(items)
    ensures |r.0| == |items|
    decreases items, 1
  {
    if items == [] then ([], files)
    else
      var (head, files1) := Replace(items[0], files);
      var (tail, files2) := MapItems(items[1..], files1);
      assert ItemLeaves(items) == Leaves(items[0]) + ItemLeaves(items[1..]);
      ([head] + tail, files2)
  }

  /** `container.transform_values(&block)`, in insertion order. */
  function TransformMembers(members: seq<Member>, files: seq<File>): (r: (seq<Member>, seq<File>))
    ensures r.1 == files + MemberLeaves(members)
    ensures |r.0| == |members|
    ensures forall i :: 0 <= i < |members| ==> r.0[i].key == members[i].key
    decreases members, 1
  {
    if members == [] then ([], files)
    else
      var (head, files1) := Replace(members[0].value, files);
      var (tail, files2) := TransformMembers(members[1..], files1);
      assert MemberLeaves(members) == Leaves(members[0].value) + MemberLeaves(members[1..]);
      ([Member(members[0].key, head)] + tail, files2)
  }

  /**
   * Numbering runs through an Array in order: element i is transformed with the table
   * holding the files of all elements before it.
   */
  lemma {:induction false} MapItemsAt(items: seq<Value>, files: seq<File>, i: nat)
    requires i < |items|
    ensures MapItems(items, files).0[i] == Replace(items[i], files + ItemLeaves(items[..i])).0
    decreases i
  {
    var head, files1 := Replace(items[0], files).0, Replace(items[0], files).1;
    var tail := MapItems(items[1..], files1).0;
    assert MapItems(items, files).0 == [head] + tail;
    if i == 0 {
      assert items[..0] == [] && files + ItemLeaves([]) == files;
    } else {
      MapItemsAt(items[1..], files1, i - 1);
      ItemLeavesShift(items, i);
      assert items[1..][i - 1] == items[i];
      var rest := ItemLeaves(items[1..][..i - 1]);
      assert files1 == files + Leaves(items[0]);
      AppendAssoc(files, Leaves(items[0]), rest);
    }
  }

  lemma {:induction false} TransformMembersAt(members: seq<Member>, files: seq<File>, i: nat)
    requires i < |members|
    ensures TransformMembers(members, files).0[i].value
         == Replace(members[i].value, files + MemberLeaves(members[..i])).0
    decreases i
  {
    var head, files1 := Replace(members[0].value, files).0, Replace(members[0].value, files).1;
    var tail := TransformMembers(members[1..], files1).0;
    assert TransformMembers(members, files).0 == [Member(members[0].key, head)] + tail;
    if i == 0 {
      assert members[..0] == [] && files + MemberLeaves([]) == files;
    } else {
      TransformMembersAt(members[1..], files1, i - 1);
      MemberLeavesShift(members, i);
      assert members[1..][i - 1] == members[i];
      var rest := MemberLeaves(members[1..][..i - 1]);
      assert files1 == files + Leaves(members[0].value);
      AppendAssoc(files, Leaves(members[0].value), rest);
    }
  }

  /**
   * Pre-order numbering inside one container: the child at position i of an Array or Hash
   * is transformed with the table holding the files of all earlier children.
   */
  lemma ExtractFilesAt(container: Value, files: seq<File>, i: nat)
    requires IsContainer(container)
    ensures container.Arr? && i < |container.items| ==>
      ExtractFiles(container, files).0.items[i]
        == Replace(container.items[i], files + ItemLeaves(container.items[..i])).0
    ensures container.Obj? && i < |container.members| ==>
      ExtractFiles(container, files).0.members[i]
        == Member(container.members[i].key,
                  Replace(container.members[i].value, files + MemberLeaves(container.members[..i])).0)
  {
    if container.Arr? && i < |container.items| {
      MapItemsAt(container.items, files, i);
    }
    if container.Obj? && i < |container.members| {
      TransformMembersAt(container.members, files, i);
    }
  }

  /** The tree handed to `to_json` holds no File: every one was replaced by its placeholder. */
  lemma {:induction false} ReplacedHasNoFiles(v: Value, files: seq<File>)
    ensures Leaves(Replace(v, files).0) == []
    decreases v, 2
  {
    match v
    case Arr(items) => MappedItemsHaveNoFiles(items, files);
    case Obj(members) => TransformedMembersHaveNoFiles(members, files);
    case _ =>
  }

  lemma {:induction false} MappedItemsHaveNoFiles(items: seq<Value>, files: seq<File>)
    ensures ItemLeaves(MapItems(items, files).0) == []
    decreases items, 1
  {
    if items != [] {
      var head, files1 := Replace(items[0], files).0, Replace(items[0], files).1;
      var tail := MapItems(items[1..], files1).0;
      var mapped := [head] + tail;
      assert MapItems(items, files).0 == mapped;
      ReplacedHasNoFiles(items[0], files);
      MappedItemsHaveNoFiles(items[1..], files1);
      assert mapped[0] == head && mapped[1..] == tail;
    }
  }

  lemma {:induction false} TransformedMembersHaveNoFiles(members: seq<Member>, files: seq<File>)
    ensures MemberLeaves(TransformMembers(members, files).0) == []
    decreases members, 1
  {
    if members != [] {
      var head, files1 := Replace(members[0].value, files).0, Replace(members[0].value, files).1;
      var tail := TransformMembers(members[1..], files1).0;
      var mapped := [Member(members[0].key, head)] + tail;
      assert TransformMembers(members, files).0 == mapped;
      ReplacedHasNoFiles(members[0].value, files);
      TransformedMembersHaveNoFiles(members[1..], files1);
      assert mapped[0].value == head && mapped[1..] == tail;
    }
  }

  /**
   * A value none of whose strings is a generated placeholder `attach://_file<k>`, so no string
   * of it can be mistaken for one. References the caller writes to other attachments, such as
   * `attach://photo1` for a top-level File, are allowed.
   */
  ghost predicate NoPlaceholders(v: Value)
    decreases v
  {
    match v
    case Str(s) => forall k: nat :: s != Placeholder(k)
    case Arr(items) => forall i :: 0 <= i < |items| ==> NoPlaceholders(items[i])
    case Obj(members) => forall i :: 0 <= i < |members| ==> NoPlaceholders(members[i].value)
    case _ => true
  }

  /**
   * The receiving side's view: every placeholder string that names an entry of the table is
   * replaced by the File stored there; everything else is kept.
   */
  ghost function Restore(v: Value, table: seq<File>): Value
    decreases v
  {
    match v
    case Str(s) =>
      if exists k :: 0 <= k < |table| && s == Placeholder(k) then
        var k :| 0 <= k < |table| && s == Placeholder(k);
        Upload(table[k])
      else v
    case Arr(items) =>
      Arr(seq(|items|, i requires 0 <= i < |items| => Restore(items[i], table)))
    case Obj(members) =>
      Obj(seq(|members|, i requires 0 <= i < |members| => Member(members[i].key, Restore(members[i].value, table))))
    case _ => v
  }

  /**
   * Round trip: once the table holds the files recorded by the walk, putting every named
   * File back into the transformed value gives the original value. So every placeholder
   * names a table entry, and that entry is the File that stood in its place.
   */
  lemma {:induction false} RestoreReplace(v: Value, files: seq<File>, table: seq<File>)
    requires NoPlaceholders(v)
    requires files + Leaves(v) <= table
    ensures Restore(Replace(v, files).0, table) == v
    decreases v, 2
  {
    match v
    case Upload(f) => RestoreUpload(f, files, table);
    case Str(s) => RestoreString(s, table);
    case Arr(items) => RestoreItems(items, files, table);
    case Obj(members) => RestoreMembers(members, files, table);
    case _ =>
  }

  lemma RestoreUpload(f: File, files: seq<File>, table: seq<File>)
    requires files + [f] <= table
    ensures Restore(Str(Placeholder(|files|)), table) == Upload(f)
  {
    var n := |files|;
    assert table[n] == (files + [f])[n] == f;
    forall k | 0 <= k < |table| && Placeholder(n) == Placeholder(k)
      ensures k == n
    {
      PlaceholderInjective(n, k);
    }
  }

  lemma RestoreString(s: string, table: seq<File>)
    requires forall k: nat :: s != Placeholder(k)
    ensures Restore(Str(s), table) == Str(s)
  {
  }

  lemma {:induction false} RestoreItems(items: seq<Value>, files: seq<File>, table: seq<File>)
    requires forall i :: 0 <= i < |items| ==> NoPlaceholders(items[i])
    requires files + ItemLeaves(items) <= table
    ensures Restore(ExtractFiles(Arr(items), files).0, table) == Arr(items)
    decreases Arr(items), 1
  {
    var mapped := ExtractFiles(Arr(items), files).0.items;
    forall i | 0 <= i < |items|
      ensures Restore(mapped[i], table) == items[i]
    {
      MapItemsAt(items, files, i);
      RestoreItemAt(items, files, table, i);
    }
    assert Restore(ExtractFiles(Arr(items), files).0, table).items == items;
  }

  lemma {:induction false} RestoreMembers(members: seq<Member>, files: seq<File>, table: seq<File>)
    requires forall i :: 0 <= i < |members| ==> NoPlaceholders(members[i].value)
    requires files + MemberLeaves(members) <= table
    ensures Restore(ExtractFiles(Obj(members), files).0, table) == Obj(members)
    decreases Obj(members), 1
  {
    var mapped := ExtractFiles(Obj(members), files).0.members;
    assert |mapped| == |members|;
    forall i | 0 <= i < |members|
      ensures Member(mapped[i].key, Restore(mapped[i].value, table)) == members[i]
    {
      TransformMembersAt(members, files, i);
      RestoreMemberAt(members, files, table, i);
    }
    assert Restore(ExtractFiles(Obj(members), files).0, table).members == members;
  }

  /** The element at position i comes back, given the table holds the files up to and including its own. */
  lemma {:induction false} RestoreItemAt(items: seq<Value>, files: seq<File>, table: seq<File>, i: nat)
    requires i < |items|
    requires NoPlaceholders(items[i])
    requires files + ItemLeaves(items) <= table
    ensures Restore(Replace(items[i], files + ItemLeaves(items[..i])).0, table) == items[i]
    decreases Arr(items), 0, i
  {
    var before := files + ItemLeaves(items[..i]);
    ItemLeavesStep(items, i);
    assert items == items[..i + 1] + items[i + 1..];
    ItemLeavesAppend(items[..i + 1], items[i + 1..]);
    assert before + Leaves(items[i]) <= files + ItemLeaves(items);
    RestoreReplace(items[i], before, table);
  }

  lemma {:induction false} RestoreMemberAt(members: seq<Member>, files: seq<File>, table: seq<File>, i: nat)
    requires i < |members|
    requires NoPlaceholders(members[i].value)
    requires files + MemberLeaves(members) <= table
    ensures Restore(Replace(members[i].value, files + MemberLeaves(members[..i])).0, table) == members[i].value
    decreases Obj(members), 0, i
  {
    var before := files + MemberLeaves(members[..i]);
    MemberLeavesStep(members, i);
    assert members == members[..i + 1] + members[i + 1..];
    MemberLeavesAppend(members[..i + 1], members[i + 1..]);
    assert before + Leaves(members[i].value) <= files + MemberLeaves(members);
    RestoreReplace(members[i].value, before, table);
  }

  /** A string that does not start with `attach://_file` is not a generated placeholder. */
  lemma NotGenerated(s: string)
    requires !(AttachScheme + FilePrefix <= s)
    ensures forall k: nat :: s != Placeholder(k)
  {
    forall k: nat
      ensures s != Placeholder(k)
    {
      assert AttachScheme + FilePrefix <= Placeholder(k);
    }
  }

  /**
   * A caller's own reference to a top-level attachment, as the Bot API's convention for
   * sending files allows, is kept by the round trip: such a body meets its precondition.
   */
  lemma HandWrittenReference()
    ensures NoPlaceholders(Obj([Member("media", Str("attach://photo1")), Member("photo1", Upload(File(0)))]))
  {
    var s := "attach://photo1";
    assert s[9] != (AttachScheme + FilePrefix)[9];
    NotGenerated(s);
  }

  /** `files[arg_name] = val` with `arg_name = "_file#{files.size}"` (lines 73-74). */
  function Insert(hash: map<string, File>, f: File): map<string, File> {
    hash[FileName(|hash|) := f]
  }

  /** The Ruby Hash `files` after the given Files were inserted one after the other. */
  function Entries(files: seq<File>): map<string, File>
    decreases |files|
  {
    if files == [] then map[] else Insert(Entries(files[..|files| - 1]), files[|files| - 1])
  }

  /** Every key of the Hash is a generated name `"_file#{k}"` for an earlier insertion k. */
  lemma {:induction false} EntriesDomain(files: seq<File>)
    ensures forall name :: name in Entries(files) ==> Generated(name, |files|)
    decreases |files|, 0
  {
    if files != [] {
      var n := |files|;
      EntriesDomain(files[..n - 1]);
      EntriesSize(files[..n - 1]);
      assert Entries(files) == Entries(files[..n - 1])[FileName(n - 1) := files[n - 1]];
      forall key | key in Entries(files)
        ensures Generated(key, n)
      {
        if key != FileName(n - 1) {
          assert key in Entries(files[..n - 1]);
          var k :| 0 <= k < n - 1 && key == FileName(k);
          assert 0 <= k < n && key == FileName(k);
        }
      }
    }
  }

  /** The name the next insertion uses, `"_file#{files.size}"`, is not yet a key. */
  lemma FreshName(files: seq<File>)
    ensures FileName(|files|) !in Entries(files)
    decreases |files|, 1
  {
    EntriesDomain(files);
    if FileName(|files|) in Entries(files) {
      var k :| 0 <= k < |files| && FileName(|files|) == FileName(k);
      FileNameInjective(|files|, k);
    }
  }

  /** Since every insertion adds a fresh key, the Hash has one entry per insertion. */
  lemma {:induction false} EntriesSize(files: seq<File>)
    ensures |Entries(files)| == |files|
    decreases |files|, 0
  {
    if files != [] {
      var prefix := files[..|files| - 1];
      EntriesSize(prefix);
      FreshName(prefix);
    }
  }

  /** The k-th inserted File is stored under `"_file#{k}"` and no later insertion overwrites it. */
  lemma {:induction false} EntriesAt(files: seq<File>, k: nat)
    requires k < |files|
    ensures FileName(k) in Entries(files) && Entries(files)[FileName(k)] == files[k]
    decreases |files|
  {
    var n := |files|;
    var prefix := files[..n - 1];
    EntriesSize(prefix);
    assert Entries(files) == Entries(prefix)[FileName(n - 1) := files[n - 1]];
    if k < n - 1 {
      EntriesAt(prefix, k);
      FileNamesDiffer(k, n - 1);
    }
  }

  /**
   * The Hash built by the insertions of `extract_files` holds one entry per inserted File, the k-th
   * under `"_file#{k}"`, and nothing else. Hence `files.size` counts the insertions, and a
   * table of Files in insertion order loses nothing.
   */
  lemma TableIsHash(files: seq<File>)
    ensures |Entries(files)| == |files|
    ensures forall name :: name in Entries(files) ==> Generated(name, |files|)
    ensures forall k :: 0 <= k < |files| ==> FileName(k) in Entries(files) && Entries(files)[FileName(k)] == files[k]
  {
    EntriesSize(files);
    EntriesDomain(files);
    forall k | 0 <= k < |files|
      ensures FileName(k) in Entries(files) && Entries(files)[FileName(k)] == files[k]
    {
      EntriesAt(files, k);
    }
  }
}
