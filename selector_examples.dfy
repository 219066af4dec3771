/**
 * Call chains worked through the general lemmas: the behaviour the
 * builder's documentation and error messages describe, and one chain its
 * order check lets through although the documented order forbids it.
 */
module SelectorExamples {
  import opened SelectorKinds
  import opened SelectorState

  /** `class(x).class(y)` passes and renders `.x.y`: both classes are kept. */
  lemma RepeatedClassExample(x: string, y: string)
    ensures Chain([Fragment(Class, x), Fragment(Class, y)]).1 == Pass
    ensures Chain([Fragment(Class, x), Fragment(Class, y)]).0.selector == "." + x + "." + y
  {
    var a, b := Fragment(Class, x), Fragment(Class, y);
    assert [a] + [b] == [a, b];
    ChainOfOne(a);
    FreshFirstCall(a);
    RepeatedKindPasses([a], b);
    assert Chain([a, b]).0.selector == Render(Class, x) + Render(Class, y);
    AppendAssociates("." + x, ".", y);
  }

  /** `id(x).id(y)` throws the duplicate error. */
  lemma IdTwiceExample(x: string, y: string)
    ensures Chain([Fragment(Id, x), Fragment(Id, y)]).1 == Fail(DuplicatePart)
  {
    var a, b := Fragment(Id, x), Fragment(Id, y);
    ChainOfOne(a);
    FreshFirstCall(a);
    assert Kinds([a]) == [Id];
    DuplicateSingletonFails([a], b);
    assert [a] + [b] == [a, b];
  }

  /** `class(x).element(y)` throws the order error. */
  lemma ElementAfterClassExample(x: string, y: string)
    ensures Chain([Fragment(Class, x), Fragment(Element, y)]).1 == Fail(WrongOrder)
  {
    var a, d := Fragment(Class, x), Fragment(Element, y);
    assert [a] + [d] == [a, d];
    ChainOfOne(a);
    FreshFirstCall(a);
    EarlierKindRejected([a], d);
  }

  /** `pseudoElement(x).pseudoClass(y)` throws the order error. */
  lemma PseudoClassAfterPseudoElementExample(x: string, y: string)
    ensures Chain([Fragment(PseudoElement, x), Fragment(PseudoClass, y)]).1 == Fail(WrongOrder)
  {
    var a, v := Fragment(PseudoElement, x), Fragment(PseudoClass, y);
    assert [a] + [v] == [a, v];
    ChainOfOne(a);
    FreshFirstCall(a);
    EarlierKindRejected([a], v);
  }

  lemma CollapseElementAttributeClass(e: Fragment, at: Fragment, c: Fragment)
    requires e.kind == Element && at.kind == Attribute && c.kind == Class
    ensures Collapse(Kinds([e, at, c])) == [Element, Attribute, Class]
  {
    KindsOfThree(e, at, c);
    CollapseSnoc([], Element);
    assert [] + [Element] == [Element];
    CollapseSnoc([Element], Attribute);
    assert [Element] + [Attribute] == [Element, Attribute];
    CollapseSnoc([Element, Attribute], Class);
    assert [Element, Attribute] + [Class] == [Element, Attribute, Class];
  }

  lemma KindsOfThree(e: Fragment, at: Fragment, c: Fragment)
    ensures Kinds([e, at, c]) == [e.kind, at.kind, c.kind]
  {
  }

  lemma CollapseSnoc(ks: seq<Kind>, k: Kind)
    ensures Collapse(ks + [k]) == Pushed(Collapse(ks), k)
  {
    assert (ks + [k])[..|ks|] == ks;
  }

  lemma RenderThree(e: Fragment, at: Fragment, c: Fragment)
    ensures RenderAll([e, at, c]) == Render(e.kind, e.value) + Render(at.kind, at.value) + Render(c.kind, c.value)
  {
    assert [e] + [at] == [e, at] && [e, at] + [c] == [e, at, c];
    assert RenderAll([e]) == Render(e.kind, e.value);
    SnocFacts([e], at);
    SnocFacts([e, at], c);
  }

  lemma ElementAttributeClassPasses(e: Fragment, at: Fragment, c: Fragment)
    requires e.kind == Element && at.kind == Attribute && c.kind == Class
    ensures Chain([e, at, c]).1 == Pass
    ensures Chain([e, at, c]).0.selector == Render(Element, e.value) + Render(Attribute, at.value) + Render(Class, c.value)
  {
    CollapseElementAttributeClass(e, at, c);
    assert Spread([Element, Attribute, Class]);
    ChainPassesIff([e, at, c]);
    ChainSelector([e, at, c]);
    RenderThree(e, at, c);
  }

  /**
   * The check is weaker than the order its message states: `attribute`
   * before `class` passes when the chain starts with `element`, because the
   * record [element, attribute, class] is spread out (class is two places
   * after element).
   */
  lemma AttributeBeforeClassPasses(a: string, x: string, y: string)
    ensures !NonDecreasing([Element, Attribute, Class])
    ensures Chain([Fragment(Element, a), Fragment(Attribute, x), Fragment(Class, y)]).1 == Pass
    ensures Chain([Fragment(Element, a), Fragment(Attribute, x), Fragment(Class, y)]).0.selector
         == a + "[" + x + "]" + "." + y
  {
    var calls := [Fragment(Element, a), Fragment(Attribute, x), Fragment(Class, y)];
    ElementAttributeClassPasses(calls[0], calls[1], calls[2]);
    assert Render(Attribute, x) == "[" + x + "]" && Render(Class, y) == "." + y;
    ConcatRegroups(a, x, y);
    assert Rank([Element, Attribute, Class][1]) > Rank([Element, Attribute, Class][2]);
  }

  lemma ConcatRegroups(a: string, x: string, y: string)
    ensures a + ("[" + x + "]") + ("." + y) == a + "[" + x + "]" + "." + y
  {
  }
}
