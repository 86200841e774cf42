/** The help text: a usage banner with the program's file name, one line
    per handler in ascending name order, and a fixed block of notes. */
module HelpOutput {
  import opened StringUtils
  import opened Handlers

  /** Lexicographic order on strings, as `std::string`'s `operator<`. */
  predicate Less(a: string, b: string)
  {
    if a == [] then b != []
    else if b == [] then false
    else if a[0] != b[0] then a[0] < b[0]
    else Less(a[1..], b[1..])
  }

  lemma {:induction false} LessIrreflexiveAsymmetric(a: string, b: string)
    ensures !Less(a, a)
    ensures Less(a, b) ==> !Less(b, a)
    decreases |a|
  {
    if a != [] && b != [] {
      LessIrreflexiveAsymmetric(a[1..], b[1..]);
    } else if a != [] {
      LessIrreflexiveAsymmetric(a[1..], a[1..]);
    }
  }

  lemma {:induction false} LessTotal(a: string, b: string)
    ensures a == b || Less(a, b) || Less(b, a)
    decreases |a|
  {
    if a != [] && b != [] && a[0] == b[0] {
      LessTotal(a[1..], b[1..]);
      assert a == [a[0]] + a[1..] && b == [b[0]] + b[1..];
    }
  }

  lemma {:induction false} LessTransitive(a: string, b: string, c: string)
    requires Less(a, b) && Less(b, c)
    ensures Less(a, c)
    decreases |a|
  {
    if a != [] && a[0] == b[0] && b[0] == c[0] {
      LessTransitive(a[1..], b[1..], c[1..]);
    }
  }

  /** Not-less is transitive: what is needed to keep a sequence sorted. */
  lemma NotLessTransitive(a: string, b: string, c: string)
    requires !Less(b, a) && !Less(c, b)
    ensures !Less(c, a)
  {
    if Less(c, a) {
      LessTotal(a, b);
      if Less(a, b) {
        LessTransitive(c, a, b);
      }
    }
  }

  /** Ascending by name: no handler's name is less than its predecessor's. */
  ghost predicate SortedByName(hs: seq<Handler>)
  {
    forall i :: 0 < i < |hs| ==> !Less(hs[i].name, hs[i - 1].name)
  }

  /** Sorted neighbours make the whole sequence ascending. */
  lemma {:induction false} SortedByNameAscending(hs: seq<Handler>, i: nat, j: nat)
    requires SortedByName(hs)
    requires i <= j < |hs|
    ensures !Less(hs[j].name, hs[i].name)
    decreases j - i
  {
    if i == j {
      LessIrreflexiveAsymmetric(hs[i].name, hs[i].name);
    } else {
      SortedByNameAscending(hs, i, j - 1);
      NotLessTransitive(hs[i].name, hs[j - 1].name, hs[j].name);
    }
  }

  /** Inserts `h` before the first handler whose name is not less than its own. */
  function Insert(h: Handler, hs: seq<Handler>): (r: seq<Handler>)
    requires SortedByName(hs)
    ensures SortedByName(r)
    ensures multiset(r) == multiset(hs) + multiset{h}
    ensures |r| == |hs| + 1
    ensures r[0] == h || (hs != [] && r[0] == hs[0])
  {
    if hs == [] || !Less(hs[0].name, h.name) then [h] + hs
    else
      LessIrreflexiveAsymmetric(hs[0].name, h.name);
      assert hs == [hs[0]] + hs[1..];
      [hs[0]] + Insert(h, hs[1..])
  }

  /** A copy of `hs` sorted by name (ties keep their registration order). */
  function SortByName(hs: seq<Handler>): (r: seq<Handler>)
    ensures SortedByName(r)
    ensures multiset(r) == multiset(hs)
    ensures |r| == |hs|
  {
    if hs == [] then []
    else
      assert hs == [hs[0]] + hs[1..];
      Insert(hs[0], SortByName(hs[1..]))
  }

  /** `s` followed by spaces up to `width` characters; never truncated. */
  function PadRight(s: string, width: nat): (r: string)
    ensures |r| == if |s| < width then width else |s|
    ensures r[..|s|] == s
    ensures forall k :: |s| <= k < |r| ==> r[k] == ' '
  {
    if |s| < width then s + seq(width - |s|, _ => ' ') else s
  }

  /** Each description piece followed by "; ". */
  function Pieces(lines: seq<string>): string
  {
    if lines == [] then [] else lines[0] + "; " + Pieces(lines[1..])
  }

  /** `s` with every occurrence of `c` replaced by "; ". */
  function ReplaceWithSemicolons(s: string, c: char): string
  {
    if s == [] then []
    else (if s[0] == c then "; " else [s[0]]) + ReplaceWithSemicolons(s[1..], c)
  }

  /** A character put in front of the first piece ends up in front. */
  lemma PiecesConsChar(x: char, p: string, ps: seq<string>)
    ensures Pieces([[x] + p] + ps) == [x] + Pieces([p] + ps)
  {
    var a := [[x] + p] + ps;
    var b := [p] + ps;
    assert a[1..] == ps && b[1..] == ps;
  }

  /** Rendering the description pieces amounts to replacing each line break
      by "; " and appending one more "; ". */
  lemma {:induction false} PiecesOfExplode(d: string, c: char)
    ensures Pieces(Explode(d, c)) == ReplaceWithSemicolons(d, c) + "; "
    decreases |d|
  {
    if d != [] {
      PiecesOfExplode(d[1..], c);
      var rest := Explode(d[1..], c);
      var tail := ReplaceWithSemicolons(d[1..], c);
      if d[0] == c {
        assert Explode(d, c) == [[]] + rest;
        assert Pieces(Explode(d, c)) == "; " + Pieces(rest);
      } else {
        assert Explode(d, c) == [[d[0]] + rest[0]] + rest[1..];
        PiecesConsChar(d[0], rest[0], rest[1..]);
        assert [rest[0]] + rest[1..] == rest;
        assert ReplaceWithSemicolons(d, c) == [d[0]] + tail;
      }
    }
  }

  const NameWidth: nat := 29

  /** The help line of one handler. */
  function HelpLine(h: Handler): string
  {
    PadRight("  --" + h.name, NameWidth)
      + Pieces(Explode(h.description, '\n'))
      + ("default=" + h.defaultValue + " (" + ToLower(h.typeName) + ")\n")
  }

  /** A padded column followed by `tail`: the column text comes first, then
      spaces up to the width, then `tail` from the column's end on. */
  lemma PaddedColumn(head: string, width: nat, tail: string)
    ensures var line := PadRight(head, width) + tail;
      var col := if |head| < width then width else |head|;
      |line| == col + |tail| &&
      BeginsWith(head, line) &&
      (forall k :: |head| <= k < col ==> line[k] == ' ') &&
      line[col..] == tail
  {
    var padded := PadRight(head, width);
    assert (padded + tail)[..|head|] == padded[..|head|];
    assert (padded + tail)[|padded|..] == tail;
  }

  /** A help line starts with the "  --name" column padded to 29 characters,
      continues with the description (line breaks shown as "; ", one more
      "; " at the end) and ends with the default and the lower-cased type. */
  lemma HelpLineLayout(h: Handler)
    ensures var line := HelpLine(h);
      var col := if 4 + |h.name| < NameWidth then NameWidth else 4 + |h.name|;
      BeginsWith("  --" + h.name, line) &&
      (forall k :: 4 + |h.name| <= k < col ==> line[k] == ' ') &&
      line[col..] == ReplaceWithSemicolons(h.description, '\n') + "; "
        + ("default=" + h.defaultValue + " (" + ToLower(h.typeName) + ")\n")
  {
    var head := "  --" + h.name;
    var suffix := "default=" + h.defaultValue + " (" + ToLower(h.typeName) + ")\n";
    var tail := Pieces(Explode(h.description, '\n')) + suffix;
    PiecesOfExplode(h.description, '\n');
    assert HelpLine(h) == PadRight(head, NameWidth) + tail;
    PaddedColumn(head, NameWidth, tail);
  }

  /** The help lines of `hs`, in the order given. */
  function Lines(hs: seq<Handler>): string
  {
    if hs == [] then [] else Lines(hs[..|hs| - 1]) + HelpLine(hs[|hs| - 1])
  }

  lemma LinesSnoc(hs: seq<Handler>, i: nat)
    requires i < |hs|
    ensures Lines(hs[..i + 1]) == Lines(hs[..i]) + HelpLine(hs[i])
  {
    assert hs[..i + 1][..i] == hs[..i];
  }

  function Banner(fileName: string): string
  {
    "Usage: " + fileName + " [OPTIONS] ...\n\n"
  }

  const Notes: string :=
    "\n"
    + "Notes:\n"
    + "  - For non-BOOLEAN types:\n"
    + "      -key VALUE (is equivalent to --key=VALUE)\n"
    + "      -key=VALUE (is equivalent to --key=VALUE)\n"
    + "  - For BOOLEAN types:\n"
    + "      -key   (is equivalent to --key=true)\n"
    + "      -nokey (is equivalent to --key=false)\n"

  /** The whole help text. */
  function HelpText(fileName: string, hs: seq<Handler>): string
  {
    Banner(fileName) + Lines(SortByName(hs)) + Notes
  }
}
