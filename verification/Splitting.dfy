/** Splitting a string at every occurrence of a separator, and joining it again. */
module Splitting {
  /** The position of the first occurrence, or the length when there is none. */
  function IndexOf(s: string, c: char): (i: nat)
    ensures i <= |s| && c !in s[..i]
    ensures i < |s| ==> s[i] == c
    ensures i == |s| <==> c !in s
  {
    if s == "" then 0
    else if s[0] == c then 0
    else
      var i := 1 + IndexOf(s[1..], c);
      assert s[..i] == [s[0]] + s[1..][..i - 1] && s == [s[0]] + s[1..];
      i
  }

  function Split(s: string, c: char): (parts: seq<string>)
    ensures parts != []
    decreases |s|
  {
    var i := IndexOf(s, c);
    if i == |s| then [s] else [s[..i]] + Split(s[i + 1..], c)
  }

  function Join(parts: seq<string>, c: char): string
    requires parts != []
  {
    if |parts| == 1 then parts[0] else parts[0] + [c] + Join(parts[1..], c)
  }

  lemma JoinOne(part: string, c: char)
    ensures Join([part], c) == part
  {
  }

  lemma JoinMore(head: string, parts: seq<string>, c: char)
    requires parts != []
    ensures Join([head] + parts, c) == head + [c] + Join(parts, c)
  {
    assert ([head] + parts)[1..] == parts;
  }

  /** The parts contain no separator, and joining them gives the string back. */
  lemma {:induction false} JoinOfSplit(s: string, c: char)
    ensures Join(Split(s, c), c) == s && forall p | p in Split(s, c) :: c !in p
    decreases |s|
  {
    hide IndexOf, Join;
    var i := IndexOf(s, c);
    if i == |s| {
      JoinOne(s, c);
    } else {
      JoinOfSplit(s[i + 1..], c);
      JoinMore(s[..i], Split(s[i + 1..], c), c);
      assert s == s[..i] + [c] + s[i + 1..];
    }
  }

  /** Parts without separators are found again in their join. */
  lemma {:induction false} SplitOfJoin(parts: seq<string>, c: char)
    requires parts != [] && forall p | p in parts :: c !in p
    ensures Split(Join(parts, c), c) == parts
    decreases |parts|
  {
    if |parts| == 1 {
      assert parts == [parts[0]];
    } else {
      hide Split;
      SplitAtFirst(parts[0], Join(parts[1..], c), c);
      SplitOfJoin(parts[1..], c);
      assert parts == [parts[0]] + parts[1..];
    }
  }

  lemma SplitAtFirst(head: string, tail: string, c: char)
    requires c !in head
    ensures Split(head + [c] + tail, c) == [head] + Split(tail, c)
  {
    FirstSeparator(head, tail, c);
    var s := head + [c] + tail;
    hide IndexOf;
    assert s[..|head|] == head && s[|head| + 1..] == tail;
  }

  lemma {:induction false} FirstSeparator(head: string, tail: string, c: char)
    requires c !in head
    ensures IndexOf(head + [c] + tail, c) == |head|
  {
    if head != "" {
      FirstSeparator(head[1..], tail, c);
      assert (head + [c] + tail)[1..] == head[1..] + [c] + tail;
    }
  }

  /** The characters of a join are the separator and the characters of the parts. */
  lemma {:induction false} JoinCharacters(parts: seq<string>, sep: char, c: char)
    requires parts != []
    ensures (exists p :: p in parts && c in p) ==> c in Join(parts, sep)
    ensures c in Join(parts, sep) ==> c == sep || exists p :: p in parts && c in p
    decreases |parts|
  {
    if |parts| == 1 {
      assert parts == [parts[0]];
    } else {
      JoinCharacters(parts[1..], sep, c);
      assert forall p | p in parts :: p == parts[0] || p in parts[1..];
    }
  }
}
