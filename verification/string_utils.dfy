/** String helpers of the option library: case folding, splitting on a
    character, prefix test and quote stripping. Strings are sequences of
    characters; case folding follows the classic "C" locale (ASCII only). */
module StringUtils {

  predicate IsUpper(c: char) { 'A' <= c <= 'Z' }

  /** The classic-locale lower-case mapping of one character. */
  function LowerChar(c: char): (d: char)
    ensures !IsUpper(d)
    ensures IsUpper(c) ==> d as int == c as int + 32
    ensures !IsUpper(c) ==> d == c
  {
    if IsUpper(c) then (c as int + 32) as char else c
  }

  /** Lower-cases every character of `s`. */
  function ToLower(s: string): (r: string)
    ensures |r| == |s|
    ensures forall i :: 0 <= i < |s| ==> r[i] == LowerChar(s[i])
    ensures forall i :: 0 <= i < |r| ==> !IsUpper(r[i])
  {
    if s == [] then [] else [LowerChar(s[0])] + ToLower(s[1..])
  }

  /** Lower-casing twice is lower-casing once. */
  lemma {:induction false} ToLowerIdempotent(s: string)
    ensures ToLower(ToLower(s)) == ToLower(s)
  {
    if s != [] {
      ToLowerIdempotent(s[1..]);
      assert ToLower(s)[1..] == ToLower(s[1..]);
    }
  }

  /** Splits `source` at every occurrence of `splitter`. Adjacent splitters
      yield empty pieces, and the empty string is one empty piece. */
  function Explode(source: string, splitter: char := ' '): (pieces: seq<string>)
    ensures |pieces| >= 1
    ensures forall i :: 0 <= i < |pieces| ==> splitter !in pieces[i]
    decreases |source|
  {
    if source == [] then [[]]
    else
      var rest := Explode(source[1..], splitter);
      if source[0] == splitter then [[]] + rest
      else [[source[0]] + rest[0]] + rest[1..]
  }

  /** There is one more piece than there are splitters in the source. */
  lemma {:induction false} ExplodeCount(source: string, splitter: char)
    ensures |Explode(source, splitter)| == multiset(source)[splitter] + 1
    decreases |source|
  {
    if source != [] {
      ExplodeCount(source[1..], splitter);
      assert source == [source[0]] + source[1..];
    }
  }

  /** Joins `pieces` with `sep` between consecutive pieces. */
  function Join(pieces: seq<string>, sep: char): string
  {
    if |pieces| == 0 then []
    else if |pieces| == 1 then pieces[0]
    else pieces[0] + [sep] + Join(pieces[1..], sep)
  }

  /** A character put in front of the first piece ends up in front of the join. */
  lemma JoinConsChar(x: char, p: string, ps: seq<string>, sep: char)
    ensures Join([[x] + p] + ps, sep) == [x] + Join([p] + ps, sep)
  {
    var a := [[x] + p] + ps;
    var b := [p] + ps;
    assert a[1..] == ps && b[1..] == ps;
  }

  /** Joining the pieces with the splitter gives back the source. */
  lemma {:induction false} JoinExplode(source: string, splitter: char)
    ensures Join(Explode(source, splitter), splitter) == source
    decreases |source|
  {
    if source != [] {
      var rest := Explode(source[1..], splitter);
      JoinExplode(source[1..], splitter);
      if source[0] == splitter {
        assert Explode(source, splitter) == [[]] + rest;
        assert source == [splitter] + source[1..];
      } else {
        assert Explode(source, splitter) == [[source[0]] + rest[0]] + rest[1..];
        JoinConsChar(source[0], rest[0], rest[1..], splitter);
        assert [rest[0]] + rest[1..] == rest;
        assert source == [source[0]] + source[1..];
      }
    }
  }

  /** A string without the splitter is a single piece. */
  lemma {:induction false} ExplodeWithoutSplitter(p: string, splitter: char)
    requires splitter !in p
    ensures Explode(p, splitter) == [p]
    decreases |p|
  {
    if p != [] {
      ExplodeWithoutSplitter(p[1..], splitter);
      assert [p[0]] + p[1..] == p;
    }
  }

  /** A splitter-free prefix followed by the splitter becomes the first piece. */
  lemma {:induction false} ExplodeAfterPiece(p: string, splitter: char, t: string)
    requires splitter !in p
    ensures Explode(p + [splitter] + t, splitter) == [p] + Explode(t, splitter)
    decreases |p|
  {
    var s := p + [splitter] + t;
    if p == [] {
      assert s[1..] == t;
    } else {
      assert s[1..] == p[1..] + [splitter] + t;
      ExplodeAfterPiece(p[1..], splitter, t);
      assert [p[0]] + p[1..] == p;
    }
  }

  /** Splitting a join of splitter-free pieces gives the pieces back. */
  lemma {:induction false} ExplodeJoin(pieces: seq<string>, splitter: char)
    requires |pieces| >= 1
    requires forall i :: 0 <= i < |pieces| ==> splitter !in pieces[i]
    ensures Explode(Join(pieces, splitter), splitter) == pieces
    decreases |pieces|
  {
    if |pieces| == 1 {
      ExplodeWithoutSplitter(pieces[0], splitter);
    } else {
      ExplodeJoin(pieces[1..], splitter);
      ExplodeAfterPiece(pieces[0], splitter, Join(pieces[1..], splitter));
      assert [pieces[0]] + pieces[1..] == pieces;
    }
  }

  /** True exactly when `b` is a prefix of `s` (the prefix is the FIRST argument). */
  function BeginsWith(b: string, s: string): (r: bool)
    ensures r <==> |b| <= |s| && s[..|b|] == b
  {
    if b == [] then true
    else if s == [] then false
    else b[0] == s[0] && BeginsWith(b[1..], s[1..])
  }

  predicate IsQuote(c: char) { c == '"' || c == '\'' }

  /** Removes one pair of matching surrounding quotes (both `"` or both `'`);
      any other string, including one shorter than 2, is returned unchanged. */
  function StripQuotes(s: string): (r: string)
    ensures |s| < 2 ==> r == s
    ensures r == s || exists q :: IsQuote(q) && s == [q] + r + [q]
    ensures r != s <==> |s| >= 2 && IsQuote(s[0]) && s[0] == s[|s| - 1]
  {
    var len := |s|;
    if len < 2 then s
    else if (s[0] == '"' && s[len - 1] == '"') || (s[0] == '\'' && s[len - 1] == '\'') then
      assert s == [s[0]] + s[1..len - 1] + [s[len - 1]];
      s[1..len - 1]
    else s
  }

  /** Quoting a string and stripping the quotes gives the string back. */
  lemma StripQuotesOfQuoted(q: char, t: string)
    requires IsQuote(q)
    ensures StripQuotes([q] + t + [q]) == t
  {
    var s := [q] + t + [q];
    assert s[1..|s| - 1] == t;
  }
}
