/** The java.lang.String operations the solvers rely on, stated over character
    sequences: split on a one-character delimiter, split(""), contains and
    regionMatches. */
module JavaText {

  /** Every field between occurrences of c, empty ones included, in order. */
  function Fields(s: string, c: char): (r: seq<string>)
    ensures |r| >= 1
    ensures forall i :: 0 <= i < |r| ==> c !in r[i]
    decreases |s|
  {
    if s == [] then [[]]
    else
      var rest := Fields(s[1..], c);
      if s[0] == c then [[]] + rest else [[s[0]] + rest[0]] + rest[1..]
  }

  /** Trailing empty strings removed, as split with limit 0 does. */
  function DropTrailingEmpty(ps: seq<string>): (r: seq<string>)
    ensures |r| <= |ps| && r == ps[..|r|]
    ensures r != [] ==> r[|r| - 1] != []
    ensures forall i :: |r| <= i < |ps| ==> ps[i] == []
  {
    if ps == [] || ps[|ps| - 1] != [] then ps else DropTrailingEmpty(ps[..|ps| - 1])
  }

  /** s.split(c) for a delimiter that is a single literal character: when c does
      not occur the result is [s] (even for the empty string); otherwise the
      fields, with trailing empty fields removed. */
  function Split(s: string, c: char): (r: seq<string>)
    ensures forall i :: 0 <= i < |r| ==> c !in r[i]
    ensures c !in s ==> r == [s]
    ensures c in s ==> r == [] || r[|r| - 1] != []
    ensures c in s ==> |r| <= |Fields(s, c)| && r == Fields(s, c)[..|r|] && forall i :: |r| <= i < |Fields(s, c)| ==> Fields(s, c)[i] == []
  {
    if c !in s then [s] else DropTrailingEmpty(Fields(s, c))
  }

  /** s.split(""): one one-character string per character, or [""] for "". */
  function SplitChars(s: string): (r: seq<string>)
    ensures s != [] ==> |r| == |s| && forall i :: 0 <= i < |s| ==> r[i] == [s[i]]
    ensures s == [] ==> r == [[]]
  {
    if s == [] then [[]] else seq(|s|, i requires 0 <= i < |s| => [s[i]])
  }

  /** The pieces joined with c between them (String.join). */
  function Join(ps: seq<string>, c: char): string
    requires |ps| >= 1
  {
    if |ps| == 1 then ps[0] else ps[0] + [c] + Join(ps[1..], c)
  }

  /** needle occurs in hay starting at offset k. */
  predicate OccursAt(hay: string, needle: string, k: int) {
    0 <= k <= |hay| - |needle| && hay[k..k + |needle|] == needle
  }

  /** hay.contains(needle). */
  predicate Contains(hay: string, needle: string)
    ensures Contains(hay, needle) ==> |needle| <= |hay|
    ensures needle == [] ==> Contains(hay, needle)
  {
    assert needle == [] ==> OccursAt(hay, needle, 0);
    exists k :: 0 <= k <= |hay| && OccursAt(hay, needle, k)
  }

  /** s.regionMatches(toffset, other, ooffset, len): false when either region
      falls outside its string, otherwise whether the two regions are equal. */
  predicate RegionMatches(s: string, toffset: int, other: string, ooffset: int, len: int)
    ensures RegionMatches(s, toffset, other, ooffset, len) ==>
      0 <= toffset && 0 <= ooffset &&
      (len > 0 ==> toffset + len <= |s| && ooffset + len <= |other|) &&
      forall k :: toffset <= k < toffset + len ==> s[k] == other[k - toffset + ooffset]
  {
    if ooffset < 0 || toffset < 0 || toffset > |s| - len || ooffset > |other| - len then false
    else len <= 0 || s[toffset..toffset + len] == other[ooffset..ooffset + len]
  }

  lemma {:induction false} FieldsNoDelimiter(p: string, c: char)
    requires c !in p
    ensures Fields(p, c) == [p]
    decreases |p|
  {
    if p != [] {
      FieldsNoDelimiter(p[1..], c);
      assert [p[0]] + p[1..] == p;
    }
  }

  lemma {:induction false} FieldsAfterPiece(p: string, c: char, t: string)
    requires c !in p
    ensures Fields(p + [c] + t, c) == [p] + Fields(t, c)
    decreases |p|
  {
    if p == [] {
      assert p + [c] + t == [c] + t;
      assert ([c] + t)[1..] == t;
    } else {
      assert (p + [c] + t)[1..] == p[1..] + [c] + t;
      FieldsAfterPiece(p[1..], c, t);
      assert [p[0]] + p[1..] == p;
    }
  }

  /** The fields are exactly the text between the delimiters: joining them
      with c rebuilds s. */
  lemma {:induction false} JoinOfFields(s: string, c: char)
    ensures Join(Fields(s, c), c) == s
    decreases |s|
  {
    if s != [] {
      var rest := Fields(s[1..], c);
      JoinOfFields(s[1..], c);
      if s[0] == c {
        assert ([[]] + rest)[1..] == rest;
        assert [s[0]] + s[1..] == s;
      } else if |rest| == 1 {
        assert [s[0]] + s[1..] == s;
      } else {
        var fs := [[s[0]] + rest[0]] + rest[1..];
        assert fs[1..] == rest[1..];
        assert Join(rest, c) == rest[0] + [c] + Join(rest[1..], c);
        assert [s[0]] + s[1..] == s;
      }
    }
  }

  /** Splitting what Join produced gives back the pieces (raw fields). */
  lemma {:induction false} FieldsOfJoin(ps: seq<string>, c: char)
    requires |ps| >= 1
    requires forall i :: 0 <= i < |ps| ==> c !in ps[i]
    ensures Fields(Join(ps, c), c) == ps
    decreases |ps|
  {
    if |ps| == 1 {
      FieldsNoDelimiter(ps[0], c);
    } else {
      FieldsOfJoin(ps[1..], c);
      FieldsAfterPiece(ps[0], c, Join(ps[1..], c));
      assert [ps[0]] + ps[1..] == ps;
    }
  }

  /** String.split undoes String.join when no piece holds the delimiter and the
      last piece is not empty (split drops trailing empty strings). */
  lemma SplitOfJoin(ps: seq<string>, c: char)
    requires |ps| >= 1
    requires forall i :: 0 <= i < |ps| ==> c !in ps[i]
    requires ps[|ps| - 1] != []
    ensures Split(Join(ps, c), c) == ps
  {
    FieldsOfJoin(ps, c);
    if |ps| == 1 {
      FieldsNoDelimiter(ps[0], c);
    } else {
      assert Join(ps, c) == ps[0] + [c] + Join(ps[1..], c);
      assert Join(ps, c)[|ps[0]|] == c;
    }
  }
}
