/** String helpers shared by the layout of the e-book markup: joining, searching from the right
    (Python's str.rfind) and ASCII lower-casing. */
module Text {

  /** Joins the parts in order, with nothing between them. */
  function Concat(parts: seq<string>): (r: string)
    ensures parts == [] ==> r == ""
    ensures |parts| == 1 ==> r == parts[0]
    ensures parts != [] ==> |parts[0]| <= |r| && r[..|parts[0]|] == parts[0]
  {
    if parts == [] then "" else parts[0] + Concat(parts[1..])
  }

  /** Joining two lists of parts is joining each and gluing the results. */
  lemma {:induction false} ConcatAppend(a: seq<string>, b: seq<string>)
    ensures Concat(a + b) == Concat(a) + Concat(b)
  {
    if a == [] {
      assert a + b == b;
    } else {
      assert (a + b)[1..] == a[1..] + b;
      ConcatAppend(a[1..], b);
    }
  }

  /** The i-th part sits between the join of the parts before it and the join of those after. */
  lemma ConcatAt(parts: seq<string>, i: nat)
    requires i < |parts|
    ensures Concat(parts) == Concat(parts[..i]) + parts[i] + Concat(parts[i + 1..])
  {
    var rest := parts[i..];
    assert parts == parts[..i] + rest;
    ConcatAppend(parts[..i], rest);
    assert rest[0] == parts[i] && rest[1..] == parts[i + 1..];
  }

  /** Three joined pieces, each found back at its place. */
  lemma ThreePieces(a: string, b: string, c: string)
    ensures var r := a + b + c;
      |r| == |a| + |b| + |c| && r[..|a|] == a && r[|a|..|r| - |c|] == b && r[|r| - |c|..] == c
  {
  }

  /** Four joined pieces, each found back at its place. */
  lemma FourPieces(a: string, b: string, c: string, d: string)
    ensures var r := a + b + c + d;
      |r| == |a| + |b| + |c| + |d| && r[..|a|] == a && r[|a|..|a| + |b|] == b
      && r[|a| + |b|..|r| - |d|] == c && r[|r| - |d|..] == d
  {
  }

  /** Five joined pieces, each found back at its place. */
  lemma FivePieces(a: string, b: string, c: string, d: string, e: string)
    ensures var r := a + b + c + d + e;
      |r| == |a| + |b| + |c| + |d| + |e| && r[..|a|] == a && r[|a|..|a| + |b|] == b
      && r[|a| + |b|..|a| + |b| + |c|] == c && r[|r| - |e| - |d|..|r| - |e|] == d
      && r[|r| - |e|..] == e
  {
  }

  /** The index of the last occurrence of c in s, or -1 when there is none. */
  function RFind(s: string, c: char): (r: int)
    ensures -1 <= r < |s|
    ensures r >= 0 ==> s[r] == c
    ensures forall j :: r < j < |s| ==> s[j] != c
    ensures r == -1 <==> c !in s
  {
    if s == [] then -1
    else if s[|s| - 1] == c then |s| - 1
    else RFind(s[..|s| - 1], c)
  }

  /** The index of the first occurrence of c in s, or -1 when there is none. */
  function Find(s: string, c: char): (r: int)
    ensures -1 <= r < |s|
    ensures r >= 0 ==> s[r] == c
    ensures forall j :: 0 <= j < |s| && (r == -1 || j < r) ==> s[j] != c
  {
    if s == [] then -1
    else if s[0] == c then 0
    else var k := Find(s[1..], c); if k == -1 then -1 else k + 1
  }

  /** Lower-casing of one character, for the ASCII letters 'A'..'Z'. */
  function LowerChar(c: char): char
  {
    if 'A' <= c <= 'Z' then (c as int - 'A' as int + 'a' as int) as char else c
  }

  /** Lower-cases every ASCII letter of s and keeps every other character. */
  function Lower(s: string): (r: string)
    ensures |r| == |s|
    ensures forall i :: 0 <= i < |s| ==> r[i] == LowerChar(s[i])
  {
    seq(|s|, i requires 0 <= i < |s| => LowerChar(s[i]))
  }

  /** Lower-casing never creates or removes a character that is not a letter. */
  lemma LowerKeepsNonLetters(s: string, c: char, i: int)
    requires 0 <= i < |s|
    requires !('A' <= c <= 'Z') && !('a' <= c <= 'z')
    ensures Lower(s)[i] == c <==> s[i] == c
  {
  }

  /** rfind of a non-letter gives the same index before and after lower-casing. */
  lemma RFindLower(s: string, c: char)
    requires !('A' <= c <= 'Z') && !('a' <= c <= 'z')
    ensures RFind(Lower(s), c) == RFind(s, c)
  {
  }
}
