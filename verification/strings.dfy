/** The string operations of the file-name parser: search, replace, split, trim. */
module Strings {
  ghost predicate At(s: string, i: int, pat: string) {
    0 <= i && i + |pat| <= |s| && s[i..i + |pat|] == pat
  }

  ghost predicate Occurs(s: string, pat: string) { exists i :: At(s, i, pat) }

  /** The position of the first occurrence, or the length of `s` when there is none. */
  function Find(s: string, pat: string): (i: nat)
    requires pat != []
    ensures i <= |s| && (i < |s| ==> At(s, i, pat))
    ensures forall j :: j < i ==> !At(s, j, pat)
    ensures i == |s| <==> !Occurs(s, pat)
  {
    if |s| < |pat| then
      assert forall j :: !At(s, j, pat);
      |s|
    else if s[..|pat|] == pat then
      assert At(s, 0, pat);
      0
    else
      assert !At(s, 0, pat) by { assert s[0..|pat|] == s[..|pat|]; }
      var k := Find(s[1..], pat);
      AtTail(s, pat);
      k + 1
  }

  lemma AtTail(s: string, pat: string)
    requires s != []
    ensures forall j :: j > 0 ==> (At(s, j, pat) <==> At(s[1..], j - 1, pat))
  {
    forall j | j > 0 ensures At(s, j, pat) <==> At(s[1..], j - 1, pat) {
      if j + |pat| <= |s| { SliceOfTail(s, j, j + |pat|); }
    }
  }

  lemma SliceOfTail(s: string, i: nat, j: nat)
    requires 1 <= i <= j <= |s|
    ensures s[i..j] == s[1..][i - 1..j - 1]
  {
    assert forall k :: 0 <= k < j - i ==> s[i..j][k] == s[i + k] == s[1..][i - 1 + k] == s[1..][i - 1..j - 1][k];
  }

  lemma FirstAt(s: string, pat: string, i: nat)
    requires pat != [] && At(s, i, pat) && forall j :: 0 <= j < i ==> !At(s, j, pat)
    ensures Find(s, pat) == i
  {
  }

  function Replace(s: string, pat: string, to: string): (r: string)
    requires pat != []
  {
    var i := Find(s, pat);
    if i == |s| then s else s[..i] + to + Replace(s[i + |pat|..], pat, to)
  }

  function Split(s: string, sep: string): (r: seq<string>)
    requires sep != []
    ensures |r| > 0
  {
    var i := Find(s, sep);
    if i == |s| then [s] else [s[..i]] + Split(s[i + |sep|..], sep)
  }

  lemma SingleAt(s: string, j: int, ch: char)
    ensures At(s, j, [ch]) <==> 0 <= j < |s| && s[j] == ch
  {
    if 0 <= j < |s| { assert s[j..j + 1] == [s[j]]; }
  }

  lemma SplitAtChar(v: string, ch: char, rest: string)
    requires ch !in v
    ensures Split(v + [ch] + rest, [ch]) == [v] + Split(rest, [ch])
  {
    var s := v + [ch] + rest;
    forall j | 0 <= j <= |v| ensures At(s, j, [ch]) <==> j == |v| {
      SingleAt(s, j, ch);
      assert j < |v| ==> s[j] == v[j] && v[j] in v;
    }
    FirstAt(s, [ch], |v|);
    assert s[..|v|] == v && s[|v| + 1..] == rest;
  }

  lemma {:induction false} ReplaceShrinks(s: string, pat: string, to: string)
    requires |to| < |pat|
    ensures Replace(s, pat, to) == s <==> !Occurs(s, pat)
    ensures Occurs(s, pat) ==> |Replace(s, pat, to)| + |pat| - |to| <= |s|
  {
    var i := Find(s, pat);
    if i < |s| { ReplaceShrinks(s[i + |pat|..], pat, to); }
  }

  function Reverse(s: string): (r: string)
    ensures |r| == |s| && forall i :: 0 <= i < |s| ==> r[i] == s[|s| - 1 - i]
  {
    seq(|s|, i requires 0 <= i < |s| => s[|s| - 1 - i])
  }

  lemma ReverseTwice(s: string)
    ensures Reverse(Reverse(s)) == s
  {
  }

  /** ASCII lower case. */
  function LowerChar(c: char): (r: char) { if 'A' <= c <= 'Z' then (c as int + 32) as char else c }

  function Lower(s: string): (r: string)
    ensures |r| == |s| && forall i :: 0 <= i < |s| ==> r[i] == LowerChar(s[i])
  {
    seq(|s|, i requires 0 <= i < |s| => LowerChar(s[i]))
  }

  predicate StartsWith(s: string, p: string) { |p| <= |s| && s[..|p|] == p }

  predicate EndsWith(s: string, p: string) { |p| <= |s| && s[|s| - |p|..] == p }

  predicate IsSpace(c: char) {
    var n := c as int;
    || 0x09 <= n <= 0x0D || n == 0x20 || n == 0x85 || n == 0xA0 || n == 0x1680
    || 0x2000 <= n <= 0x200A || n == 0x2028 || n == 0x2029 || n == 0x202F || n == 0x205F || n == 0x3000
  }

  function TrimEnd(s: string): (r: string) {
    if s == [] || !IsSpace(s[|s| - 1]) then s else TrimEnd(s[..|s| - 1])
  }

  function Trim(s: string): (r: string) {
    if s == [] || !IsSpace(s[0]) then TrimEnd(s) else Trim(s[1..])
  }
}
