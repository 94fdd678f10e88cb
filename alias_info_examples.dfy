/** Worked instances: the rendering of a list annotation with one element
    type, and the annotation of the list argument of an in-place append. */
module AliasInfoExamples {
  import opened Symbols
  import opened AliasInfos
  import opened AliasInfoPrinter
  import opened Strings

  function Token(name: string): Symbol
  {
    Symbol("alias", name)
  }

  /** Input sets {a, b}, no output sets, one contained type with input set {c}. */
  function ListOfC(): AliasInfoVal
  {
    AliasInfoVal({Token("a"), Token("b")}, {}, [AliasInfoVal({Token("c")}, {}, [], false)], false)
  }

  /** A two-element set has exactly two listings. */
  lemma PairListing(t: seq<Symbol>, x: Symbol, y: Symbol)
    requires x != y
    requires Distinct(t) && Elements(t) == {x, y}
    ensures t == [x, y] || t == [y, x]
  {
    assert Elements([x, y]) == {x, y};
    ListingsPermutation(t, [x, y]);
    assert |multiset(t)| == |t|;
    assert t[0] in Elements(t) && t[1] in Elements(t);
  }

  /** A one-element set has one listing. */
  lemma SingleListing(t: seq<Symbol>, x: Symbol)
    requires Distinct(t) && Elements(t) == {x}
    ensures t == [x]
  {
    assert Elements([x]) == {x};
    ListingsPermutation(t, [x]);
    assert |multiset(t)| == |t|;
    assert t[0] in Elements(t);
  }

  /** The only child of ListOfC renders as "(c)" under its only visiting order. */
  lemma RenderChildOfC(order: Enumeration)
    requires Enumerates(order, ListOfC().contained[0])
    ensures Render(ListOfC().contained[0], order) == "(c)"
  {
    var child := ListOfC().contained[0];
    SingleListing(order.tokens, Token("c"));
    assert Names([Token("c")]) == ["c"];
    assert ChildRenderings(child, order) == [];
    assert Render(child, order) == "(" + "c" + "" + ")";
  }

  lemma ChildrenOfListOfC(order: Enumeration)
    requires Enumerates(order, ListOfC())
    ensures ChildRenderings(ListOfC(), order) == ["(c)"]
  {
    RenderChildOfC(order.contained[0]);
    var children := ChildRenderings(ListOfC(), order);
    assert |children| == 1 && children[0] == "(c)";
  }

  /** Under any visiting order, ListOfC renders as its joined names followed
      by the bracketed rendering of its child. */
  lemma RenderListOfCShape(order: Enumeration)
    requires Enumerates(order, ListOfC())
    ensures Render(ListOfC(), order) == "(" + Join(Names(order.tokens), "|") + "[(c)]" + ")"
  {
    ChildrenOfListOfC(order);
    assert ContainedSection(["(c)"]) == "[(c)]";
  }

  /** The names of a listing of two tokens, joined by "|". */
  lemma JoinPair(x: string, y: string)
    ensures Join(Names([Token(x), Token(y)]), "|") == x + "|" + y
  {
    assert Names([Token(x), Token(y)]) == [x, y];
  }

  /** However the hash sets are visited, ListOfC renders as "(a|b[(c)])" or
      as "(b|a[(c)])": both names once, the child in brackets. */
  lemma RenderListOfC(order: Enumeration)
    requires Enumerates(order, ListOfC())
    ensures Render(ListOfC(), order) == "(a|b[(c)])" || Render(ListOfC(), order) == "(b|a[(c)])"
  {
    PairListing(order.tokens, Token("a"), Token("b"));
    RenderListOfCShape(order);
    if order.tokens == [Token("a"), Token("b")] {
      JoinPair("a", "b");
    } else {
      JoinPair("b", "a");
    }
  }

  /** The annotation of the list argument of
      `aten::append(Tensor(b -> b|c)[](a!) list, Tensor(c) el)`: the list is in
      set a and written to; its elements are in set b on entry and in b or c
      on exit. */
  function AppendList(): AliasInfoVal
  {
    AliasInfoVal({Token("a")}, {}, [AliasInfoVal({Token("b")}, {Token("b"), Token("c")}, [], false)], true)
  }

  function AppendListOrder(): Enumeration
  {
    Enumeration([Token("a")], [Enumeration([Token("b")], [])])
  }

  lemma RenderAppendList()
    ensures Enumerates(AppendListOrder(), AppendList())
    ensures Render(AppendList(), AppendListOrder()) == "(a[(b)])"
  {
    var v, order := AppendList(), AppendListOrder();
    assert Elements([Token("a")]) == {Token("a")};
    assert Elements([Token("b")]) == {Token("b")};
    assert Names([Token("a")]) == ["a"];
    assert Names([Token("b")]) == ["b"];
    var child := v.contained[0];
    assert ChildRenderings(child, order.contained[0]) == [];
    assert Render(child, order.contained[0]) == "(" + "b" + "" + ")";
    assert "(" + "b" + "" + ")" == "(b)";
    var children := ChildRenderings(v, order);
    assert |children| == 1 && children[0] == Render(child, order.contained[0]);
    assert children == ["(b)"];
    assert ContainedSection(["(b)"]) == "[(b)]";
  }

  /** Builds the list annotation of AppendList with the builder methods, and
      renders it. */
  method AppendListAnnotation() returns (list: AliasInfo, text: string)
    ensures list.InputSets() == {Token("a")} && list.OutputSets() == {Token("a")}
    ensures list.IsWrite()
    ensures |list.ContainedTypes()| == 1
    ensures list.ContainedTypes()[0].inputSets == {Token("b")}
    ensures list.ContainedTypes()[0].OutputSets() == {Token("b"), Token("c")}
    ensures !list.ContainedTypes()[0].isWrite
    ensures text == "(a[(b)])"
  {
    var element := new AliasInfo();
    element.AddInputSet(Token("b"));
    element.AddOutputSet(Token("b"));
    element.AddOutputSet(Token("c"));
    ghost var elementValue := element.Value();
    assert elementValue == AppendList().contained[0];
    list := new AliasInfo();
    list.AddInputSet(Token("a"));
    list.SetIsWrite(true);
    list.AddContainedType(element);
    assert list.containedTypes == [elementValue];
    assert list.Value() == AppendList();
    RenderAppendList();
    text := Print(list.Value(), AppendListOrder());
  }
}
