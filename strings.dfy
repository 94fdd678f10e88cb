/** Joining strings with a separator, and splitting them again.
    The renderer joins the token names of a set with "|" and the renderings
    of the contained types with ", "; Split is the inverse of the first join. */
module Strings {

  /** The parts in order, with `sep` between neighbours; the empty list gives "". */
  function Join(parts: seq<string>, sep: string): string
  {
    if |parts| == 0 then ""
    else if |parts| == 1 then parts[0]
    else parts[0] + sep + Join(parts[1..], sep)
  }

  /** Appending one more part to a join adds the separator and then the part,
      which is how a loop with a "first" flag builds the join. */
  lemma {:induction false} JoinSnoc(parts: seq<string>, x: string, sep: string)
    ensures Join(parts + [x], sep) == if parts == [] then x else Join(parts, sep) + sep + x
  {
    if |parts| > 1 {
      assert (parts + [x])[1..] == parts[1..] + [x];
      JoinSnoc(parts[1..], x, sep);
    }
  }

  /** The join of the first i + 1 parts extends the join of the first i. */
  lemma JoinPrefixStep(parts: seq<string>, i: nat, sep: string)
    requires i < |parts|
    ensures Join(parts[..i + 1], sep) == if i == 0 then parts[i] else Join(parts[..i], sep) + sep + parts[i]
  {
    assert parts[..i + 1] == parts[..i] + [parts[i]];
    JoinSnoc(parts[..i], parts[i], sep);
  }

  /** No character of `s` is in `stops`. */
  predicate Avoids(s: string, stops: set<char>)
  {
    forall k :: 0 <= k < |s| ==> s[k] !in stops
  }

  /** A join of parts and a separator that all avoid the characters of
      `stops` avoids them too. */
  lemma {:induction false} JoinAvoids(parts: seq<string>, sep: string, stops: set<char>)
    requires forall i :: 0 <= i < |parts| ==> Avoids(parts[i], stops)
    requires Avoids(sep, stops)
    ensures Avoids(Join(parts, sep), stops)
  {
    if |parts| > 1 {
      JoinAvoids(parts[1..], sep, stops);
      var rest := Join(parts[1..], sep);
      var j := parts[0] + sep + rest;
      assert Avoids(parts[0], stops);
      forall k | 0 <= k < |j| ensures j[k] !in stops {
        if k < |parts[0]| {
          assert j[k] == parts[0][k];
        } else if k < |parts[0]| + |sep| {
          assert j[k] == sep[k - |parts[0]|];
        } else {
          assert j[k] == rest[k - |parts[0]| - |sep|];
        }
      }
    } else if |parts| == 1 {
      assert Avoids(parts[0], stops);
    }
  }

  /** The pieces of `s` between occurrences of `sep`; there is always at least one piece. */
  function Split(s: string, sep: char): (r: seq<string>)
    ensures |r| >= 1
    ensures forall i :: 0 <= i < |r| ==> sep !in r[i]
  {
    if |s| == 0 then [""]
    else if s[0] == sep then [""] + Split(s[1..], sep)
    else
      var rest := Split(s[1..], sep);
      [[s[0]] + rest[0]] + rest[1..]
  }

  /** Joining the pieces of a split restores the string. */
  lemma {:induction false} JoinSplit(s: string, sep: char)
    ensures Join(Split(s, sep), [sep]) == s
  {
    if |s| > 0 {
      var rest := Split(s[1..], sep);
      JoinSplit(s[1..], sep);
      if s[0] != sep {
        var r := Split(s, sep);
        assert r == [[s[0]] + rest[0]] + rest[1..];
        if |rest| > 1 {
          assert r[1..] == rest[1..];
          assert Join(rest, [sep]) == rest[0] + [sep] + Join(rest[1..], [sep]);
        }
      }
    }
  }

  lemma {:induction false} SplitNoSeparator(a: string, sep: char)
    requires sep !in a
    ensures Split(a, sep) == [a]
  {
    if |a| > 0 {
      SplitNoSeparator(a[1..], sep);
      assert [a[0]] + a[1..] == a;
    }
  }

  lemma {:induction false} SplitAtSeparator(a: string, b: string, sep: char)
    requires sep !in a
    ensures Split(a + [sep] + b, sep) == [a] + Split(b, sep)
  {
    if |a| == 0 {
      assert a + [sep] + b == [sep] + b;
      assert ([sep] + b)[1..] == b;
    } else {
      assert (a + [sep] + b)[1..] == a[1..] + [sep] + b;
      SplitAtSeparator(a[1..], b, sep);
      assert [a[0]] + a[1..] == a;
    }
  }

  /** Splitting a non-empty join of separator-free parts gives back the parts. */
  lemma {:induction false} SplitJoin(parts: seq<string>, sep: char)
    requires |parts| >= 1
    requires forall i :: 0 <= i < |parts| ==> sep !in parts[i]
    ensures Split(Join(parts, [sep]), sep) == parts
  {
    if |parts| == 1 {
      SplitNoSeparator(parts[0], sep);
    } else {
      SplitJoin(parts[1..], sep);
      SplitAtSeparator(parts[0], Join(parts[1..], [sep]), sep);
      assert [parts[0]] + parts[1..] == parts;
    }
  }

  /** The longest prefix of `s` that holds no character of `stops`. */
  function UpTo(s: string, stops: set<char>): (r: string)
    ensures r <= s
    ensures Avoids(r, stops)
    ensures |r| < |s| ==> s[|r|] in stops
  {
    if |s| == 0 || s[0] in stops then "" else [s[0]] + UpTo(s[1..], stops)
  }

  /** A stop-free prefix followed by a stop character is exactly what UpTo returns. */
  lemma {:induction false} UpToAppend(a: string, b: string, stops: set<char>)
    requires Avoids(a, stops)
    requires |b| > 0 && b[0] in stops
    ensures UpTo(a + b, stops) == a
  {
    if |a| > 0 {
      assert (a + b)[1..] == a[1..] + b;
      UpToAppend(a[1..], b, stops);
      assert [a[0]] + a[1..] == a;
    }
  }

  /** All characters of all parts, with multiplicity. */
  ghost function Chars(parts: seq<string>): multiset<char>
  {
    if parts == [] then multiset{} else multiset(parts[0]) + Chars(parts[1..])
  }

  /** The characters of the n - 1 separators that join n parts. */
  ghost function Seps(n: nat, sep: string): multiset<char>
  {
    if n <= 1 then multiset{} else multiset(sep) + Seps(n - 1, sep)
  }

  lemma {:induction false} CharsAppend(a: seq<string>, b: seq<string>)
    ensures Chars(a + b) == Chars(a) + Chars(b)
  {
    if a != [] {
      assert (a + b)[1..] == a[1..] + b;
      CharsAppend(a[1..], b);
    } else {
      assert a + b == b;
    }
  }

  /** Parts with the same characters position by position have the same characters in all. */
  lemma {:induction false} CharsPointwise(p: seq<string>, q: seq<string>)
    requires |p| == |q|
    requires forall i :: 0 <= i < |p| ==> multiset(p[i]) == multiset(q[i])
    ensures Chars(p) == Chars(q)
  {
    if p != [] {
      CharsPointwise(p[1..], q[1..]);
    }
  }

  /** A join holds the characters of its parts and of |parts| - 1 separators. */
  lemma {:induction false} JoinMultiset(parts: seq<string>, sep: string)
    ensures multiset(Join(parts, sep)) == Chars(parts) + Seps(|parts|, sep)
  {
    if |parts| == 1 {
      assert parts[1..] == [];
    } else if |parts| > 1 {
      JoinMultiset(parts[1..], sep);
    }
  }
}
