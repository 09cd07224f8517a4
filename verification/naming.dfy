/** Names of extracted attachments: `"_file#{n}"` and the placeholder `"attach://_file#{n}"`. */
module Naming {

  /** The decimal digit character for d. */
  function Digit(d: nat): (c: char)
    requires d < 10
    ensures '0' <= c <= '9'
  {
    ('0' as int + d) as char
  }

  /** Ruby's `Integer#to_s` on a non-negative integer: its decimal digits, no leading zeros. */
  function NatToString(n: nat): (s: string)
    ensures |s| >= 1
    ensures |s| == 1 <==> n < 10
    ensures s[|s| - 1] == Digit(n % 10)
    decreases n
  {
    if n < 10 then [Digit(n)] else NatToString(n / 10) + [Digit(n % 10)]
  }

  /** Different numbers have different decimal spellings. */
  lemma {:induction false} NatToStringInjective(a: nat, b: nat)
    requires NatToString(a) == NatToString(b)
    ensures a == b
    decreases a
  {
    var s := NatToString(a);
    assert Digit(a % 10) == Digit(b % 10);
    if a >= 10 {
      assert b >= 10;
      assert NatToString(a / 10) == s[..|s| - 1] == NatToString(b / 10);
      NatToStringInjective(a / 10, b / 10);
    }
  }

  const FilePrefix: string := "_file"
  const AttachScheme: string := "attach://"

  /** `"_file#{files.size}"`: the name of the attachment inserted when the table holds n entries. */
  function FileName(n: nat): (name: string)
    ensures FilePrefix <= name
  {
    FilePrefix + NatToString(n)
  }

  /** `"attach://#{arg_name}"`: the string that takes the attachment's place in the tree. */
  function Placeholder(n: nat): (s: string)
    ensures AttachScheme <= s
  {
    AttachScheme + FileName(n)
  }

  /** Distinct table positions get distinct names. */
  lemma FileNameInjective(a: nat, b: nat)
    requires FileName(a) == FileName(b)
    ensures a == b
  {
    assert NatToString(a) == FileName(a)[|FilePrefix|..];
    assert NatToString(b) == FileName(b)[|FilePrefix|..];
    NatToStringInjective(a, b);
  }

  /** The same, read the other way round. */
  lemma FileNamesDiffer(a: nat, b: nat)
    requires a != b
    ensures FileName(a) != FileName(b)
  {
    if FileName(a) == FileName(b) {
      FileNameInjective(a, b);
    }
  }

  /** Distinct table positions get distinct placeholders. */
  lemma PlaceholderInjective(a: nat, b: nat)
    requires Placeholder(a) == Placeholder(b)
    ensures a == b
  {
    assert FileName(a) == Placeholder(a)[|AttachScheme|..];
    assert FileName(b) == Placeholder(b)[|AttachScheme|..];
    FileNameInjective(a, b);
  }

  /** `name` is one of the first n generated names `_file0` ... `_file<n-1>`. */
  ghost predicate Generated(name: string, n: nat) {
    exists k :: 0 <= k < n && name == FileName(k)
  }
}
