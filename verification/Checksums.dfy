/** The checksum file of a release: one accepted text for every map of digests. */
module Checksums {
  import opened Text
  import opened Splitting
  import Evidence

  const MIDDLE := " *./"

  function Line(name: string, digest: string): string {
    digest + MIDDLE + name
  }

  function Lines(names: seq<string>, digests: map<string, string>): seq<string>
    requires forall name | name in names :: name in digests
  {
    seq(|names|, i requires 0 <= i < |names| => Line(names[i], digests[names[i]]))
  }

  /** The text of a list of names: a `digest *./name` line for each, every line ended by a newline. */
  function Render(names: seq<string>, digests: map<string, string>): string
    requires names != [] && forall name | name in names :: name in digests
  {
    Join(Lines(names, digests), '\n') + "\n"
  }

  /** Names that a line can carry, and lowercase SHA-256 digests. */
  predicate Renderable(digests: map<string, string>) {
    && |digests| > 0
    && forall name | name in digests ::
         name != "" && '\n' !in name && '\r' !in name && Evidence.IsSha256(digests[name])
  }

  predicate Lists(names: seq<string>, digests: map<string, string>) {
    StrictlySorted(names) && (set name | name in names) == digests.Keys
  }

  /** The rendering of a renderable map in the order of its names. */
  ghost predicate IsChecksumText(data: string, digests: map<string, string>) {
    Renderable(digests) && exists names :: Lists(names, digests) && IsRendering(data, names, digests)
  }

  predicate IsRendering(data: string, names: seq<string>, digests: map<string, string>) {
    && names != [] && (forall name | name in names :: name in digests)
    && data == Render(names, digests)
  }

  /** Take the least name again and again. */
  method SortNames(all: set<string>) returns (names: seq<string>)
    ensures StrictlySorted(names) && (set name | name in names) == all
  {
    names := [];
    var rest := all;
    while rest != {}
      invariant rest <= all && StrictlySorted(names)
      invariant forall name :: name in names <==> name in all && name !in rest
      invariant names != [] ==> forall r | r in rest :: Less(names[|names| - 1], r)
      decreases |rest|
    {
      var least := Least(rest);
      rest := rest - {least};
      names := names + [least];
    }
  }

  method Least(names: set<string>) returns (least: string)
    requires names != {}
    ensures least in names && forall n | n in names && n != least :: Less(least, n)
  {
    least :| least in names;
    var rest := names - {least};
    while rest != {}
      invariant rest <= names && least in names
      invariant forall n | n in names && n !in rest && n != least :: Less(least, n)
      decreases |rest|
    {
      var n :| n in rest;
      rest := rest - {n};
      if Less(n, least) {
        NewLeast(names - rest, least, n);
        least := n;
      } else {
        LessTotal(n, least);
      }
    }
  }

  lemma NewLeast(seen: set<string>, least: string, n: string)
    requires Less(n, least) && forall m | m in seen && m != least && m != n :: Less(least, m)
    ensures forall m | m in seen && m != n :: Less(n, m)
  {
    forall m | m in seen && m != n && m != least
      ensures Less(n, m)
    {
      LessTransitive(n, least, m);
    }
  }

  predicate GoodLine(line: string, name: string, digests: map<string, string>) {
    && |line| >= 69 && line[64..68] == MIDDLE && Evidence.IsSha256(line[..64])
    && line[68..] == name && name in digests && line[..64] == digests[name]
  }

  /** Check the text line by line against the sorted names. */
  method VerifyReleaseChecksums(data: string, digests: map<string, string>) returns (ok: bool)
    ensures ok <==> IsChecksumText(data, digests)
  {
    hide IsChecksumText, Split, StrictlySorted, Evidence.IsSha256;
    if data == "" || data[|data| - 1] != '\n' {
      if IsChecksumText(data, digests) {
        RenderedShape(data, digests);
      }
      return false;
    }
    if '\r' in data {
      if IsChecksumText(data, digests) {
        RenderedShape(data, digests);
      }
      return false;
    }
    var names := SortNames(digests.Keys);
    var lines := Split(data[..|data| - 1], '\n');
    TextIsLines(data, names, lines, digests);
    if |lines| != |names| {
      return false;
    }
    for i := 0 to |lines|
      invariant forall k | 0 <= k < i :: GoodLine(lines[k], names[k], digests)
    {
      if |lines[i]| < 69 || lines[i][64..68] != MIDDLE || !Evidence.IsSha256(lines[i][..64]) {
        return false;
      }
      var name := lines[i][68..];
      if name != names[i] {
        return false;
      }
      assert names[i] in set name | name in names;
      if lines[i][..64] != digests[name] {
        return false;
      }
    }
    ok := true;
  }

  lemma LineShape(name: string, digest: string)
    requires Evidence.IsSha256(digest)
    ensures var line := Line(name, digest);
            line[..64] == digest && line[64..68] == MIDDLE && line[68..] == name && |line| == 68 + |name|
    ensures forall c :: c in Line(name, digest) ==> c in digest || c in MIDDLE || c in name
  {
  }

  lemma LinesHaveNo(names: seq<string>, digests: map<string, string>, c: char)
    requires Renderable(digests) && (forall name | name in names :: name in digests) && (c == '\n' || c == '\r')
    ensures forall line | line in Lines(names, digests) :: c !in line
  {
    forall i | 0 <= i < |names|
      ensures c !in Line(names[i], digests[names[i]])
    {
      assert names[i] in names;
      LineShape(names[i], digests[names[i]]);
    }
  }

  lemma RenderedShape(data: string, digests: map<string, string>)
    requires IsChecksumText(data, digests)
    ensures data != "" && data[|data| - 1] == '\n' && '\r' !in data
  {
    var names :| Lists(names, digests) && IsRendering(data, names, digests);
    LinesHaveNo(names, digests, '\r');
    JoinCharacters(Lines(names, digests), '\n', '\r');
  }

  /** A good line is the rendering of its name and digest, and conversely. */
  lemma GoodLineIsLine(line: string, name: string, digests: map<string, string>)
    ensures GoodLine(line, name, digests) <==>
              name in digests && name != "" && Evidence.IsSha256(digests[name]) && line == Line(name, digests[name])
  {
    if name in digests && Evidence.IsSha256(digests[name]) {
      LineShape(name, digests[name]);
    }
    if GoodLine(line, name, digests) {
      assert line == line[..64] + line[64..68] + line[68..];
    }
  }

  /** The text is the rendering exactly when its lines are the good lines of the sorted names. */
  lemma TextIsLines(data: string, names: seq<string>, lines: seq<string>, digests: map<string, string>)
    requires data != "" && data[|data| - 1] == '\n' && '\r' !in data
    requires Lists(names, digests) && lines == Split(data[..|data| - 1], '\n')
    ensures IsChecksumText(data, digests) <==>
              |lines| == |names| && forall k | 0 <= k < |lines| :: GoodLine(lines[k], names[k], digests)
  {
    hide GoodLine, Split, Join, StrictlySorted, Line;
    if IsChecksumText(data, digests) {
      RenderingHasGoodLines(data, names, lines, digests);
    }
    if |lines| == |names| && forall k | 0 <= k < |lines| :: GoodLine(lines[k], names[k], digests) {
      GoodLinesAreRendering(data, names, lines, digests);
    }
  }

  lemma NamesAreKeys(names: seq<string>, digests: map<string, string>)
    requires Lists(names, digests)
    ensures forall name | name in names :: name in digests
    ensures forall name | name in digests :: name in names
  {
    var all := set name | name in names;
    assert forall name | name in names :: name in all;
    assert forall name | name in digests :: name in all;
  }

  lemma RenderingHasGoodLines(data: string, names: seq<string>, lines: seq<string>, digests: map<string, string>)
    requires data != "" && Lists(names, digests) && lines == Split(data[..|data| - 1], '\n')
    requires IsChecksumText(data, digests)
    ensures |lines| == |names| && forall k | 0 <= k < |lines| :: GoodLine(lines[k], names[k], digests)
  {
    hide GoodLine, Split, Join, Line;
    var other :| Lists(other, digests) && IsRendering(data, other, digests);
    SortedIsCanonical(names, other);
    hide StrictlySorted;
    NamesAreKeys(names, digests);
    var rendered := Lines(names, digests);
    assert data[..|data| - 1] == Join(rendered, '\n');
    LinesHaveNo(names, digests, '\n');
    SplitOfJoin(rendered, '\n');
    forall k | 0 <= k < |lines|
      ensures GoodLine(lines[k], names[k], digests)
    {
      GoodLineIsLine(lines[k], names[k], digests);
      assert names[k] in names;
    }
  }

  lemma GoodLinesAreRendering(data: string, names: seq<string>, lines: seq<string>, digests: map<string, string>)
    requires data != "" && data[|data| - 1] == '\n' && '\r' !in data
    requires Lists(names, digests) && lines == Split(data[..|data| - 1], '\n') && |lines| == |names|
    requires forall k | 0 <= k < |lines| :: GoodLine(lines[k], names[k], digests)
    ensures IsChecksumText(data, digests)
  {
    hide GoodLine, Split, Join, StrictlySorted, Line;
    NamesAreKeys(names, digests);
    JoinOfSplit(data[..|data| - 1], '\n');
    forall k | 0 <= k < |lines|
      ensures lines[k] == Line(names[k], digests[names[k]])
      ensures names[k] != "" && Evidence.IsSha256(digests[names[k]]) && '\n' !in names[k] && '\r' !in names[k]
    {
      GoodLineIsLine(lines[k], names[k], digests);
      LineShape(names[k], digests[names[k]]);
      CharactersOfName(lines[k], names[k], digests[names[k]]);
      assert lines[k] in lines;
      JoinCharacters(lines, '\n', '\r');
    }
    assert lines == Lines(names, digests);
    assert names[0] in digests;
    assert IsRendering(data, names, digests);
  }

  lemma CharactersOfName(line: string, name: string, digest: string)
    requires line == Line(name, digest)
    ensures forall c | c in name :: c in line
  {
  }

  // ---------------------------------------------------------------- one text for each map

  /** No two texts are accepted for one map. */
  lemma ChecksumTextIsUnique(a: string, b: string, digests: map<string, string>)
    requires IsChecksumText(a, digests) && IsChecksumText(b, digests)
    ensures a == b
  {
    hide Render, Renderable;
    var names :| Lists(names, digests) && IsRendering(a, names, digests);
    var others :| Lists(others, digests) && IsRendering(b, others, digests);
    SortedIsCanonical(names, others);
  }

  /** Every renderable map has an accepted text. */
  lemma ChecksumTextExists(digests: map<string, string>)
    requires Renderable(digests)
    ensures exists data :: IsChecksumText(data, digests)
  {
    var names := SortedListExists(digests.Keys);
    NamesAreKeys(names, digests);
    hide Render;
    var key :| key in digests;
    assert names != [];
    assert IsRendering(Render(names, digests), names, digests);
    assert IsChecksumText(Render(names, digests), digests);
  }

  lemma {:induction false} SortedListExists(all: set<string>) returns (names: seq<string>)
    ensures StrictlySorted(names) && (set name | name in names) == all
    decreases |all|
  {
    if all == {} {
      names := [];
    } else {
      hide Less;
      var greatest := Greatest(all);
      var rest := SortedListExists(all - {greatest});
      names := rest + [greatest];
      var before := set name | name in rest;
      assert forall i | 0 <= i < |rest| :: rest[i] in before;
      assert (set name | name in names) == before + {greatest};
    }
  }

  lemma {:induction false} Greatest(all: set<string>) returns (greatest: string)
    requires all != {}
    ensures greatest in all && forall n | n in all && n != greatest :: Less(n, greatest)
    decreases |all|
  {
    var n :| n in all;
    if all == {n} {
      greatest := n;
    } else {
      var other := Greatest(all - {n});
      LessTotal(n, other);
      if Less(n, other) {
        greatest := other;
      } else {
        greatest := n;
        forall m | m in all && m != n
          ensures Less(m, n)
        {
          if m != other {
            LessTransitive(m, other, n);
          }
        }
      }
    }
  }
}
