/** Spark's `trim` on string columns and the ascending order `orderBy` uses on strings. */
module Strings {
  import opened Nulls

  /** Every character of s is a space. */
  predicate AllSpaces(s: string) {
    forall i :: 0 <= i < |s| ==> s[i] == ' '
  }

  /** s neither starts nor ends with a space. */
  predicate NoEdgeSpaces(s: string) {
    s == [] || (s[0] != ' ' && s[|s| - 1] != ' ')
  }

  /** Drops the leading spaces: the result is the suffix of s that starts at its first non-space. */
  function TrimStart(s: string): (r: string)
    ensures |r| <= |s| && r == s[|s| - |r|..]
    ensures AllSpaces(s[..|s| - |r|])
    ensures r == [] || r[0] != ' '
  {
    if s != [] && s[0] == ' ' then TrimStart(s[1..]) else s
  }

  /** Drops the trailing spaces: the result is the prefix of s that ends at its last non-space. */
  function TrimEnd(s: string): (r: string)
    ensures |r| <= |s| && r == s[..|r|]
    ensures AllSpaces(s[|r|..])
    ensures r == [] || r[|r| - 1] != ' '
  {
    if s != [] && s[|s| - 1] == ' ' then TrimEnd(s[..|s| - 1]) else s
  }

  /** Spark's `trim`: s without its leading and trailing space characters.
      The result is a piece of s surrounded only by spaces, and has no space at either end. */
  function Trim(s: string): (r: string)
    ensures NoEdgeSpaces(r)
    ensures exists i :: 0 <= i <= |s| - |r| && r == s[i..i + |r|] && AllSpaces(s[..i]) && AllSpaces(s[i + |r|..])
  {
    var t := TrimStart(s);
    var r := TrimEnd(t);
    var i := |s| - |t|;
    assert t == s[i..];
    assert r == s[i..i + |r|] by {
      assert r == t[..|r|];
    }
    assert AllSpaces(s[i + |r|..]) by {
      assert s[i + |r|..] == t[|r|..];
    }
    assert AllSpaces(s[..i]);
    r
  }

  /** `trim` applied to a nullable column: null stays null, and a non-null
      value becomes the piece of it surrounded only by spaces. */
  function TrimColumn(c: Option<string>): (r: Option<string>)
    ensures r.Some? <==> c.Some?
    ensures r.Some? ==> NoEdgeSpaces(r.value)
    ensures c.Some? ==> exists i :: 0 <= i <= |c.value| - |r.value| && r.value == c.value[i..i + |r.value|] &&
                                    AllSpaces(c.value[..i]) && AllSpaces(c.value[i + |r.value|..])
  {
    match c
    case None => None
    case Some(s) => Some(Trim(s))
  }

  lemma {:induction false} TrimStartOfPadded(pad: string, t: string)
    requires AllSpaces(pad)
    requires t == [] || t[0] != ' '
    ensures TrimStart(pad + t) == t
  {
    if pad != [] {
      assert (pad + t)[1..] == pad[1..] + t;
      TrimStartOfPadded(pad[1..], t);
    } else {
      assert pad + t == t;
    }
  }

  lemma {:induction false} TrimEndOfPadded(t: string, pad: string)
    requires AllSpaces(pad)
    requires t == [] || t[|t| - 1] != ' '
    ensures TrimEnd(t + pad) == t
  {
    if pad != [] {
      assert (t + pad)[..|t + pad| - 1] == t + pad[..|pad| - 1];
      TrimEndOfPadded(t, pad[..|pad| - 1]);
    } else {
      assert t + pad == t;
    }
  }

  /** Trim recovers exactly the text between the surrounding spaces: " A " becomes "A". */
  lemma TrimOfPadded(before: string, t: string, after: string)
    requires AllSpaces(before) && AllSpaces(after) && NoEdgeSpaces(t)
    ensures Trim(before + t + after) == t
  {
    if t == [] {
      assert before + t + after == before + after;
      TrimStartOfPadded(before + after, []);
      assert before + after + [] == before + after;
    } else {
      assert before + t + after == before + (t + after);
      TrimStartOfPadded(before, t + after);
      TrimEndOfPadded(t, after);
    }
  }

  /** Trimming twice is the same as trimming once. */
  lemma TrimIdempotent(s: string)
    ensures Trim(Trim(s)) == Trim(s)
  {
    var r := Trim(s);
    assert [] + r + [] == r;
    TrimOfPadded([], r, []);
  }

  /** Spark's ascending order on strings: lexicographic by character, a proper prefix first. */
  predicate LexLess(a: string, b: string) {
    if a == [] then b != []
    else if b == [] then false
    else if a[0] != b[0] then a[0] < b[0]
    else LexLess(a[1..], b[1..])
  }

  lemma {:induction false} LexLessIrreflexive(a: string)
    ensures !LexLess(a, a)
  {
    if a != [] {
      LexLessIrreflexive(a[1..]);
    }
  }

  lemma {:induction false} LexLessTransitive(a: string, b: string, c: string)
    requires LexLess(a, b) && LexLess(b, c)
    ensures LexLess(a, c)
  {
    if a != [] && b != [] && c != [] && a[0] == b[0] && b[0] == c[0] {
      LexLessTransitive(a[1..], b[1..], c[1..]);
    }
  }

  lemma {:induction false} LexLessTotal(a: string, b: string)
    requires a != b
    ensures LexLess(a, b) || LexLess(b, a)
  {
    if a != [] && b != [] && a[0] == b[0] {
      assert a == [a[0]] + a[1..] && b == [b[0]] + b[1..];
      LexLessTotal(a[1..], b[1..]);
    }
  }
}
