/** The values a request body may hold: Ruby scalars, File objects, and nested Arrays and Hashes. */
module Values {

  /** An open Ruby `File` object; `handle` stands for its object identity. */
  datatype File = File(handle: nat)

  /** A request value. A Ruby Hash is an ordered list of members (its insertion order). */
  datatype Value =
    | Str(s: string)
    | Num(n: int)
    | Bool(b: bool)
    | Nil
    | Upload(file: File)
    | Arr(items: seq<Value>)
    | Obj(members: seq<Member>)

  datatype Member = Member(key: string, value: Value)

  /** `val.is_a?(Hash) || val.is_a?(Array)` */
  predicate IsContainer(v: Value) {
    v.Arr? || v.Obj?
  }

  /** The keys of a Hash, in insertion order. */
  function Keys(members: seq<Member>): (ks: seq<string>)
    ensures |ks| == |members|
    ensures forall i :: 0 <= i < |members| ==> ks[i] == members[i].key
  {
    seq(|members|, i requires 0 <= i < |members| => members[i].key)
  }

  /** The File leaves of a value, in pre-order (left-to-right) traversal order. */
  function Leaves(v: Value): seq<File>
    decreases v, 1
  {
    match v
    case Upload(f) => [f]
    case Arr(items) => ItemLeaves(items)
    case Obj(members) => MemberLeaves(members)
    case _ => []
  }

  function ItemLeaves(items: seq<Value>): seq<File>
    decreases items, 0
  {
    if items == [] then [] else Leaves(items[0]) + ItemLeaves(items[1..])
  }

  function MemberLeaves(members: seq<Member>): seq<File>
    decreases members, 0
  {
    if members == [] then [] else Leaves(members[0].value) + MemberLeaves(members[1..])
  }

  /** The leaves of a list are those of its parts, one after the other. */
  lemma {:induction false} ItemLeavesAppend(a: seq<Value>, b: seq<Value>)
    ensures ItemLeaves(a + b) == ItemLeaves(a) + ItemLeaves(b)
    decreases |a|
  {
    if a == [] {
      assert a + b == b;
    } else {
      assert (a + b)[1..] == a[1..] + b;
      ItemLeavesAppend(a[1..], b);
    }
  }

  lemma {:induction false} MemberLeavesAppend(a: seq<Member>, b: seq<Member>)
    ensures MemberLeaves(a + b) == MemberLeaves(a) + MemberLeaves(b)
    decreases |a|
  {
    if a == [] {
      assert a + b == b;
    } else {
      assert (a + b)[1..] == a[1..] + b;
      MemberLeavesAppend(a[1..], b);
    }
  }

  /** The files of the elements before position i, followed by those of element i, are the files before i + 1. */
  lemma ItemLeavesStep(items: seq<Value>, i: nat)
    requires i < |items|
    ensures ItemLeaves(items[..i + 1]) == ItemLeaves(items[..i]) + Leaves(items[i])
  {
    assert items[..i + 1] == items[..i] + [items[i]];
    ItemLeavesAppend(items[..i], [items[i]]);
    assert ItemLeaves([items[i]]) == Leaves(items[i]) + ItemLeaves([]);
  }

  lemma MemberLeavesStep(members: seq<Member>, i: nat)
    requires i < |members|
    ensures MemberLeaves(members[..i + 1]) == MemberLeaves(members[..i]) + Leaves(members[i].value)
  {
    assert members[..i + 1] == members[..i] + [members[i]];
    MemberLeavesAppend(members[..i], [members[i]]);
    assert MemberLeaves([members[i]]) == Leaves(members[i].value) + MemberLeaves([]);
  }

  /** Tables are extended by concatenation, which is associative. */
  lemma AppendAssoc(a: seq<File>, b: seq<File>, c: seq<File>)
    ensures (a + b) + c == a + (b + c)
  {
  }

  /** The files before position i of a non-empty list: those of its head, then those of its tail before i - 1. */
  lemma ItemLeavesShift(items: seq<Value>, i: nat)
    requires 1 <= i <= |items|
    ensures ItemLeaves(items[..i]) == Leaves(items[0]) + ItemLeaves(items[1..][..i - 1])
  {
    assert items[..i][0] == items[0];
    assert items[..i][1..] == items[1..][..i - 1];
  }

  lemma MemberLeavesShift(members: seq<Member>, i: nat)
    requires 1 <= i <= |members|
    ensures MemberLeaves(members[..i]) == Leaves(members[0].value) + MemberLeaves(members[1..][..i - 1])
  {
    assert members[..i][0] == members[0];
    assert members[..i][1..] == members[1..][..i - 1];
  }
}
