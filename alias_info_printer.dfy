/** The textual rendering of alias information: "(" + the input-set names
    joined by "|" + "[" + the renderings of the contained types joined by
    ", " + "]" + ")", the bracketed part only when there are contained types.
    The input sets are hash sets whose iteration order is unspecified, so the
    rendering is taken relative to an Enumeration: for each node of the tree,
    a duplicate-free listing of its input sets in the order they are visited. */
module AliasInfoPrinter {
  import opened Symbols
  import opened Strings
  import opened AliasInfos

  /** A visiting order for the input sets of every node of an AliasInfoVal tree. */
  datatype Enumeration = Enumeration(tokens: seq<Symbol>, contained: seq<Enumeration>)

  predicate Distinct(t: seq<Symbol>)
  {
    forall i, j :: 0 <= i < j < |t| ==> t[i] != t[j]
  }

  /** The tokens of a listing, as a set. */
  function Elements(t: seq<Symbol>): set<Symbol>
  {
    set x | x in t
  }

  /** `order` lists the input sets of every node of `info`, each exactly once. */
  predicate Enumerates(order: Enumeration, info: AliasInfoVal)
    decreases info
  {
    && Distinct(order.tokens)
    && Elements(order.tokens) == info.inputSets
    && |order.contained| == |info.contained|
    && forall i :: 0 <= i < |info.contained| ==> Enumerates(order.contained[i], info.contained[i])
  }

  /** Some duplicate-free listing of a finite set. */
  ghost function Listing(s: set<Symbol>): (t: seq<Symbol>)
    ensures Distinct(t)
    ensures Elements(t) == s
    decreases s
  {
    if s == {} then []
    else
      var x :| x in s;
      var rest := Listing(s - {x});
      assert (set y | y in [x] + rest) == {x} + Elements(rest);
      [x] + rest
  }

  /** Every AliasInfoVal has a visiting order, so it always has a rendering. */
  ghost function SomeEnumeration(info: AliasInfoVal): (order: Enumeration)
    ensures Enumerates(order, info)
    decreases info
  {
    Enumeration(Listing(info.inputSets),
      seq(|info.contained|, i requires 0 <= i < |info.contained| =>
        SomeEnumeration(info.contained[i])))
  }

  /** The names written for a listing of tokens. */
  function Names(t: seq<Symbol>): seq<string>
  {
    seq(|t|, i requires 0 <= i < |t| => UnqualString(t[i]))
  }

  /** The part between the input-set names and the closing parenthesis. */
  function ContainedSection(children: seq<string>): string
  {
    if |children| == 0 then "" else "[" + Join(children, ", ") + "]"
  }

  /** The rendering of `info`, visiting input sets in the order `order` gives. */
  function Render(info: AliasInfoVal, order: Enumeration): string
    requires Enumerates(order, info)
    decreases info, 1
  {
    "(" + Join(Names(order.tokens), "|") + ContainedSection(ChildRenderings(info, order)) + ")"
  }

  /** Every rendering is enclosed in parentheses. */
  lemma RenderEnclosed(info: AliasInfoVal, order: Enumeration)
    requires Enumerates(order, info)
    ensures var r := Render(info, order); |r| >= 2 && r[0] == '(' && r[|r| - 1] == ')'
  {
  }

  /** The renderings of the contained types, in order. */
  function ChildRenderings(info: AliasInfoVal, order: Enumeration): (r: seq<string>)
    requires Enumerates(order, info)
    decreases info, 0
    ensures |r| == |info.contained|
  {
    seq(|info.contained|, i requires 0 <= i < |info.contained| =>
      Render(info.contained[i], order.contained[i]))
  }

  /** Writes the input-set names in visiting order, a `first` flag deciding
      where "|" goes. */
  method PrintNames(tokens: seq<Symbol>) returns (out: string)
    ensures out == Join(Names(tokens), "|")
  {
    out := "";
    var first := true;
    var k := 0;
    while k < |tokens|
      invariant 0 <= k <= |tokens|
      invariant first <==> k == 0
      invariant out == Join(Names(tokens[..k]), "|")
    {
      if first {
        first := false;
      } else {
        out := out + "|";
      }
      out := out + UnqualString(tokens[k]);
      assert Names(tokens[..k + 1]) == Names(tokens)[..k + 1];
      assert Names(tokens[..k]) == Names(tokens)[..k];
      JoinPrefixStep(Names(tokens), k, "|");
      k := k + 1;
    }
    assert tokens[..k] == tokens;
  }

  /** Writes the rendering as the stream operator does: "(", the input-set
      names, the contained types, ")". */
  method Print(info: AliasInfoVal, order: Enumeration) returns (out: string)
    requires Enumerates(order, info)
    ensures out == Render(info, order)
    decreases info, 1
  {
    var names := PrintNames(order.tokens);
    var contained := PrintContained(info, order);
    out := "(" + names + contained + ")";
  }

  /** Writes nothing when there are no contained types; otherwise "[", each
      contained type by an index loop with ", " before all but the first, and
      "]". */
  method PrintContained(info: AliasInfoVal, order: Enumeration) returns (out: string)
    requires Enumerates(order, info)
    ensures out == ContainedSection(ChildRenderings(info, order))
    decreases info, 0
  {
    out := "";
    ghost var children := ChildRenderings(info, order);
    if |info.contained| != 0 {
      out := "[";
      var i := 0;
      while i < |info.contained|
        invariant 0 <= i <= |info.contained|
        invariant out == "[" + Join(children[..i], ", ")
      {
        if i > 0 {
          out := out + ", ";
        }
        var child := Print(info.contained[i], order.contained[i]);
        out := out + child;
        JoinPrefixStep(children, i, ", ");
        i := i + 1;
      }
      assert children[..i] == children;
      out := out + "]";
    }
  }

  /** Two trees with the same input sets at every node, and the same shape,
      whatever their output sets and write flags. */
  predicate SameInputs(a: AliasInfoVal, b: AliasInfoVal)
    decreases a
  {
    && a.inputSets == b.inputSets
    && |a.contained| == |b.contained|
    && forall i :: 0 <= i < |a.contained| ==> SameInputs(a.contained[i], b.contained[i])
  }

  /** Output sets and write flags never appear in a rendering, at any depth. */
  lemma {:induction false} RenderIgnoresOutputsAndWrites(a: AliasInfoVal, b: AliasInfoVal, order: Enumeration)
    requires SameInputs(a, b)
    requires Enumerates(order, a)
    ensures Enumerates(order, b)
    ensures Render(a, order) == Render(b, order)
    decreases a
  {
    forall i | 0 <= i < |a.contained|
      ensures Enumerates(order.contained[i], b.contained[i])
      ensures Render(a.contained[i], order.contained[i]) == Render(b.contained[i], order.contained[i])
    {
      RenderIgnoresOutputsAndWrites(a.contained[i], b.contained[i], order.contained[i]);
    }
    assert ChildRenderings(a, order) == ChildRenderings(b, order);
  }

  /** Where the input-set names of a rendering end: before the first "[" or ")". */
  function TokenSection(r: string): string
  {
    if |r| == 0 then "" else UpTo(r[1..], {'[', ')'})
  }

  /** What follows the input-set names in a rendering. */
  function Tail(info: AliasInfoVal, order: Enumeration): string
    requires Enumerates(order, info)
  {
    ContainedSection(ChildRenderings(info, order)) + ")"
  }

  /** A rendering is "(", the input-set names, and a tail that starts with
      "[" or ")". */
  lemma RenderParts(info: AliasInfoVal, order: Enumeration)
    requires Enumerates(order, info)
    ensures Render(info, order)[1..] == Join(Names(order.tokens), "|") + Tail(info, order)
    ensures |Tail(info, order)| > 0 && Tail(info, order)[0] in {'[', ')'}
  {
    var j := Join(Names(order.tokens), "|");
    var t := Tail(info, order);
    assert Render(info, order) == "(" + (j + t);
    assert ("(" + (j + t))[1..] == j + t;
    var children := ChildRenderings(info, order);
    if |children| == 0 {
      assert Tail(info, order) == ")";
    } else {
      assert Tail(info, order) == "[" + Join(children, ", ") + "]" + ")";
    }
  }

  /** The names of tokens drawn from a set whose names avoid `stops` avoid them too. */
  lemma NamesAvoid(t: seq<Symbol>, s: set<Symbol>, stops: set<char>)
    requires forall x :: x in t ==> x in s
    requires forall x :: x in s ==> Avoids(UnqualString(x), stops)
    ensures forall j :: 0 <= j < |Names(t)| ==> Avoids(Names(t)[j], stops)
  {
    forall j | 0 <= j < |Names(t)| ensures Avoids(Names(t)[j], stops) {
      assert t[j] in t;
    }
  }

  /** When no input-set name holds "[" or ")", the token section of a
      rendering is exactly the names joined by "|". */
  lemma TokenSectionIsJoin(info: AliasInfoVal, order: Enumeration)
    requires Enumerates(order, info)
    requires forall s :: s in info.inputSets ==> '[' !in UnqualString(s) && ')' !in UnqualString(s)
    ensures TokenSection(Render(info, order)) == Join(Names(order.tokens), "|")
  {
    var stops := {'[', ')'};
    RenderParts(info, order);
    forall s | s in info.inputSets ensures Avoids(UnqualString(s), stops) {
      var n := UnqualString(s);
      forall k | 0 <= k < |n| ensures n[k] !in stops {
        assert n[k] in n;
      }
    }
    forall x | x in order.tokens ensures x in info.inputSets {
      assert x in Elements(order.tokens);
    }
    NamesAvoid(order.tokens, info.inputSets, stops);
    JoinAvoids(Names(order.tokens), "|", stops);
    UpToAppend(Join(Names(order.tokens), "|"), Tail(info, order), stops);
  }

  /** Reading back the input-set section of a rendering: when no name holds
      "|", "[" or ")", splitting it at "|" gives the names of the input sets,
      each once, in the visiting order; with no input sets the section is empty. */
  lemma RenderTokenSection(info: AliasInfoVal, order: Enumeration)
    requires Enumerates(order, info)
    requires forall s :: s in info.inputSets ==>
      '|' !in UnqualString(s) && '[' !in UnqualString(s) && ')' !in UnqualString(s)
    ensures info.inputSets == {} ==> TokenSection(Render(info, order)) == ""
    ensures info.inputSets != {} ==> Split(TokenSection(Render(info, order)), '|') == Names(order.tokens)
  {
    TokenSectionIsJoin(info, order);
    var names := Names(order.tokens);
    if info.inputSets != {} {
      assert order.tokens != [] by {
        var s :| s in info.inputSets;
        assert s in Elements(order.tokens);
      }
      forall j | 0 <= j < |names| ensures '|' !in names[j] {
        assert order.tokens[j] in info.inputSets;
      }
      SplitJoin(names, '|');
    }
  }

  lemma NamesAppend(a: seq<Symbol>, b: seq<Symbol>)
    ensures Names(a + b) == Names(a) + Names(b)
  {
  }

  /** In a duplicate-free listing every token occurs once or not at all. */
  lemma {:induction false} DistinctCount(t: seq<Symbol>, x: Symbol)
    requires Distinct(t)
    ensures multiset(t)[x] == if x in t then 1 else 0
  {
    if t != [] {
      var rest := t[1..];
      assert t == [t[0]] + rest;
      forall j | 0 <= j < |rest| ensures rest[j] != t[0] {
        assert rest[j] == t[j + 1];
      }
      DistinctCount(rest, x);
    }
  }

  /** Two duplicate-free listings of one set are permutations of each other. */
  lemma ListingsPermutation(t: seq<Symbol>, u: seq<Symbol>)
    requires Distinct(t) && Distinct(u)
    requires Elements(t) == Elements(u)
    ensures multiset(t) == multiset(u)
  {
    forall x ensures multiset(t)[x] == multiset(u)[x] {
      DistinctCount(t, x);
      DistinctCount(u, x);
      assert x in t <==> x in Elements(t);
      assert x in u <==> x in Elements(u);
    }
  }

  /** The characters of the names of a listing: those of entry k and of the rest. */
  lemma CharsRemove(u: seq<Symbol>, k: nat)
    requires k < |u|
    ensures Chars(Names(u)) == multiset(UnqualString(u[k])) + Chars(Names(u[..k] + u[k + 1..]))
  {
    assert u == u[..k] + [u[k]] + u[k + 1..];
    NamesAppend(u[..k], [u[k]]);
    NamesAppend(u[..k] + [u[k]], u[k + 1..]);
    NamesAppend(u[..k], u[k + 1..]);
    CharsAppend(Names(u[..k]) + Names([u[k]]), Names(u[k + 1..]));
    CharsAppend(Names(u[..k]), Names([u[k]]));
    CharsAppend(Names(u[..k]), Names(u[k + 1..]));
    assert Names([u[k]]) == [UnqualString(u[k])];
    assert Chars([UnqualString(u[k])]) == multiset(UnqualString(u[k]));
  }

  /** Permuted listings write the same characters. */
  lemma {:induction false} PermutedNamesSameChars(t: seq<Symbol>, u: seq<Symbol>)
    requires multiset(t) == multiset(u)
    ensures Chars(Names(t)) == Chars(Names(u))
    decreases |t|
  {
    if t != [] {
      var x := t[0];
      assert t == [x] + t[1..];
      assert x in multiset(u);
      var k :| 0 <= k < |u| && u[k] == x;
      var u' := u[..k] + u[k + 1..];
      assert u == u[..k] + [x] + u[k + 1..];
      assert multiset(u') == multiset(u) - multiset{x};
      assert multiset(t[1..]) == multiset(t) - multiset{x};
      PermutedNamesSameChars(t[1..], u');
      CharsRemove(t, 0);
      CharsRemove(u, k);
      assert t[..0] + t[1..] == t[1..];
    }
  }

  /** Two duplicate-free listings of one set have the same length and write
      the same characters. */
  lemma ListingsSameChars(t: seq<Symbol>, u: seq<Symbol>)
    requires Distinct(t) && Distinct(u)
    requires Elements(t) == Elements(u)
    ensures |t| == |u|
    ensures Chars(Names(t)) == Chars(Names(u))
  {
    ListingsPermutation(t, u);
    assert |multiset(t)| == |t| && |multiset(u)| == |u|;
    PermutedNamesSameChars(t, u);
  }

  /** The rendering depends on the visiting order only up to a permutation of
      its characters: every order writes each input-set name once and the
      same separators and brackets. */
  lemma {:induction false} RenderOrderInvariant(info: AliasInfoVal, o1: Enumeration, o2: Enumeration)
    requires Enumerates(o1, info) && Enumerates(o2, info)
    ensures multiset(Render(info, o1)) == multiset(Render(info, o2))
    ensures |Render(info, o1)| == |Render(info, o2)|
    decreases info
  {
    ListingsSameChars(o1.tokens, o2.tokens);
    JoinMultiset(Names(o1.tokens), "|");
    JoinMultiset(Names(o2.tokens), "|");
    var c1 := ChildRenderings(info, o1);
    var c2 := ChildRenderings(info, o2);
    forall i | 0 <= i < |info.contained| ensures multiset(c1[i]) == multiset(c2[i]) {
      RenderOrderInvariant(info.contained[i], o1.contained[i], o2.contained[i]);
    }
    CharsPointwise(c1, c2);
    JoinMultiset(c1, ", ");
    JoinMultiset(c2, ", ");
    assert multiset(ContainedSection(c1)) == multiset(ContainedSection(c2));
    assert |Render(info, o1)| == |multiset(Render(info, o1))|;
    assert |Render(info, o2)| == |multiset(Render(info, o2))|;
  }
}
