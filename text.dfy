/**
 * The Python string operations the emitter relies on: `sep.join(parts)`,
 * `s.split(c)`, `s.replace(c, "")` and the slice `s[1:-1]`.
 */
module Text {

  /** `sep.join(parts)`. */
  function Join(sep: string, parts: seq<string>): string
    decreases |parts|
  {
    if |parts| == 0 then ""
    else if |parts| == 1 then parts[0]
    else parts[0] + sep + Join(sep, parts[1..])
  }

  /** `s.split(c)`: always at least one (possibly empty) piece. */
  function Split(s: string, c: char): (pieces: seq<string>)
    ensures |pieces| > 0
  {
    if s == [] then [""]
    else
      var rest := Split(s[1..], c);
      if s[0] == c then [""] + rest else [[s[0]] + rest[0]] + rest[1..]
  }

  /** `s.replace(c, "")`. */
  function RemoveChar(s: string, c: char): (t: string)
    ensures c !in t
  {
    if s == [] then "" else (if s[0] == c then "" else [s[0]]) + RemoveChar(s[1..], c)
  }

  /** `s[1:-1]`, which is empty for strings shorter than two. */
  function Inner(s: string): string {
    if |s| < 2 then "" else s[1..|s| - 1]
  }

  lemma {:induction false} SplitAfterPlain(p: string, q: string, c: char)
    requires c !in p
    ensures Split(p + q, c) == [p + Split(q, c)[0]] + Split(q, c)[1..]
    decreases |p|
  {
    if p != [] {
      assert (p + q)[1..] == p[1..] + q;
      SplitAfterPlain(p[1..], q, c);
      assert [p[0]] + (p[1..] + Split(q, c)[0]) == p + Split(q, c)[0];
    } else {
      var r := Split(q, c);
      assert p + q == q && p + r[0] == r[0];
      assert r == [r[0]] + r[1..];
    }
  }

  /** Splitting a join on its one-character separator gives the pieces
      back, provided no piece contains the separator. */
  lemma {:induction false} SplitJoin(parts: seq<string>, c: char)
    requires |parts| > 0
    requires forall i :: 0 <= i < |parts| ==> c !in parts[i]
    ensures Split(Join([c], parts), c) == parts
    decreases |parts|
  {
    if |parts| == 1 {
      SplitAfterPlain(parts[0], "", c);
      assert parts[0] + "" == parts[0];
    } else {
      var p, rest := parts[0], Join([c], parts[1..]);
      assert Join([c], parts) == p + ([c] + rest);
      SplitAfterPlain(p, [c] + rest, c);
      assert ([c] + rest)[1..] == rest;
      SplitJoin(parts[1..], c);
      assert p + "" == p;
      assert parts == [p] + parts[1..];
    }
  }

  lemma {:induction false} RemoveCharAppend(a: string, b: string, c: char)
    ensures RemoveChar(a + b, c) == RemoveChar(a, c) + RemoveChar(b, c)
    decreases |a|
  {
    if a != [] {
      assert (a + b)[1..] == a[1..] + b;
      RemoveCharAppend(a[1..], b, c);
    } else {
      assert a + b == b;
    }
  }

  lemma {:induction false} RemoveCharAbsent(s: string, c: char)
    requires c !in s
    ensures RemoveChar(s, c) == s
    decreases |s|
  {
    if s != [] {
      RemoveCharAbsent(s[1..], c);
    }
  }

  /** Deleting the spaces of a `", "` join of space-free pieces gives their
      `","` join. */
  lemma {:induction false} RemoveSpacesOfJoin(parts: seq<string>)
    requires forall i :: 0 <= i < |parts| ==> ' ' !in parts[i]
    ensures RemoveChar(Join(", ", parts), ' ') == Join(",", parts)
    decreases |parts|
  {
    if |parts| == 1 {
      RemoveCharAbsent(parts[0], ' ');
    } else if |parts| > 1 {
      var p := parts[0];
      RemoveCharAppend(p + ", ", Join(", ", parts[1..]), ' ');
      RemoveCharAppend(p, ", ", ' ');
      RemoveCharAbsent(p, ' ');
      RemoveSpacesOfJoin(parts[1..]);
    }
  }

  /** A join contains a character only if a piece or the separator does. */
  lemma {:induction false} JoinAvoids(sep: string, parts: seq<string>, c: char)
    requires c !in sep
    requires forall i :: 0 <= i < |parts| ==> c !in parts[i]
    ensures c !in Join(sep, parts)
    decreases |parts|
  {
    if |parts| > 1 {
      JoinAvoids(sep, parts[1..], c);
    }
  }

  /** A join of pieces whose first is non-empty is non-empty. */
  lemma JoinNonEmpty(sep: string, parts: seq<string>)
    requires |parts| > 0 && parts[0] != ""
    ensures Join(sep, parts) != ""
  {
  }

  lemma InnerOfBracketed(open: char, s: string, close: char)
    ensures Inner([open] + s + [close]) == s
  {
    var t := [open] + s + [close];
    assert t[1..|t| - 1] == s;
  }
}
