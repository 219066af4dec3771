/**
 * The `Impostor` class: one builder whose fields every fragment call updates
 * in place. Each method changes the fields exactly as the matching function
 * of `SelectorState` says, so the lemmas proved there about those functions
 * hold for the objects.
 */
module SelectorBuilder {
  import opened SelectorKinds
  import opened SelectorState

  class Impostor {
    var selector: string
    var currentOrder: seq<Kind>
    var elemCount: nat
    var idCount: nat
    var psElCount: nat
    var magic: bool
    var rightSelectorOrder: seq<Kind>

    /** The fields of this builder as one value. */
    ghost function Abstract(): State
      reads this
    {
      State(selector, currentOrder, elemCount, idCount, psElCount, magic, rightSelectorOrder)
    }

    /** The fields satisfy the invariant every reachable builder keeps. */
    ghost predicate Valid()
      reads this
    {
      SelectorState.Valid(Abstract())
    }

    /** A new builder: empty selector and record, zero counters, the whole canonical list. */
    constructor ()
      ensures Abstract() == Fresh()
      ensures Valid()
    {
      selector := "";
      rightSelectorOrder := CANONICAL;
      currentOrder := [];
      elemCount := 0;
      idCount := 0;
      psElCount := 0;
      magic := false;
    }

    /**
     * The order check. On its first run it slices the window at the index
     * of the first recorded kind; it then tests that every recorded kind is
     * found in the window at or after its own position in the record.
     */
    method IsOrderRight() returns (ok: bool)
      modifies this
      ensures (Abstract(), ok) == CheckOrder(old(Abstract()))
      ensures magic && (old(magic) ==> rightSelectorOrder == old(rightSelectorOrder))
      ensures currentOrder == old(currentOrder) && selector == old(selector)
    {
      if !magic {
        magic := true;
        var firstElemIndex := FirstIndex(rightSelectorOrder, currentOrder);
        rightSelectorOrder := JsSlice(rightSelectorOrder, firstElemIndex);
      }
      ok := Every(currentOrder, rightSelectorOrder);
    }

    /** `element(value)`: at most once, then the order check, then the value itself. */
    method Element(value: string) returns (r: Outcome)
      modifies this
      ensures (Abstract(), r) == Apply(old(Abstract()), Fragment(Kind.Element, value))
      ensures r == Pass ==> selector == old(selector) + value
      ensures r != Pass ==> selector == old(selector)
      ensures r == Fail(DuplicatePart) <==> 1 <= old(elemCount)
      ensures old(Valid()) ==> Valid() && r == Verdict(old(Abstract()), Fragment(Kind.Element, value))
      ensures r != Fail(DuplicatePart) ==> currentOrder == old(currentOrder) + [Kind.Element]
    {
      ghost var f, s0 := Fragment(Kind.Element, value), Abstract();
      assert Render(Kind.Element, value) == value;
      SingletonApply(s0, f);
      elemCount := elemCount + 1;
      if elemCount > 1 {
        r := Fail(DuplicatePart);
        assert Abstract() == Bump(s0, Kind.Element);
      } else {
        currentOrder := currentOrder + [Kind.Element];
        ghost var s1 := Abstract();
        assert s1 == Bump(s0, Kind.Element).(currentOrder := s0.currentOrder + [Kind.Element]);
        var ok := IsOrderRight();
        ghost var t := Abstract();
        if !ok {
          r := Fail(WrongOrder);
        } else {
          selector := selector + value;
          r := Pass;
          assert Abstract() == t.(selector := t.selector + Render(Kind.Element, value));
        }
      }
      assert (Abstract(), r) == Apply(s0, f);
      CallFacts(s0, f);
    }

    /** `id(value)`: at most once, then the order check, then `#value`. */
    method Id(value: string) returns (r: Outcome)
      modifies this
      ensures (Abstract(), r) == Apply(old(Abstract()), Fragment(Kind.Id, value))
      ensures r == Pass ==> selector == old(selector) + ("#" + value)
      ensures r != Pass ==> selector == old(selector)
      ensures r == Fail(DuplicatePart) <==> 1 <= old(idCount)
      ensures old(Valid()) ==> Valid() && r == Verdict(old(Abstract()), Fragment(Kind.Id, value))
      ensures r != Fail(DuplicatePart) ==> currentOrder == old(currentOrder) + [Kind.Id]
    {
      ghost var f, s0 := Fragment(Kind.Id, value), Abstract();
      assert Render(Kind.Id, value) == "#" + value;
      SingletonApply(s0, f);
      idCount := idCount + 1;
      if idCount > 1 {
        r := Fail(DuplicatePart);
        assert Abstract() == Bump(s0, Kind.Id);
      } else {
        currentOrder := currentOrder + [Kind.Id];
        ghost var s1 := Abstract();
        assert s1 == Bump(s0, Kind.Id).(currentOrder := s0.currentOrder + [Kind.Id]);
        var ok := IsOrderRight();
        ghost var t := Abstract();
        if !ok {
          r := Fail(WrongOrder);
        } else {
          selector := selector + ("#" + value);
          r := Pass;
          assert Abstract() == t.(selector := t.selector + Render(Kind.Id, value));
        }
      }
      assert (Abstract(), r) == Apply(s0, f);
      CallFacts(s0, f);
    }

    /** `class(value)`: recorded unless a class is already last, then the order check, then `.value`. */
    method Class(value: string) returns (r: Outcome)
      modifies this
      ensures (Abstract(), r) == Apply(old(Abstract()), Fragment(Kind.Class, value))
      ensures r == Pass ==> selector == old(selector) + ("." + value)
      ensures r != Pass ==> selector == old(selector) && r == Fail(WrongOrder)
      ensures old(Valid()) ==> Valid() && r == Verdict(old(Abstract()), Fragment(Kind.Class, value))
      ensures currentOrder == Pushed(old(currentOrder), Kind.Class)
    {
      ghost var f, s0 := Fragment(Kind.Class, value), Abstract();
      assert Render(Kind.Class, value) == "." + value;
      RepeatableApply(s0, f);
      if !LastIs(currentOrder, Kind.Class) {
        currentOrder := currentOrder + [Kind.Class];
      }
      ghost var s1 := Abstract();
      assert s1 == s0.(currentOrder := Pushed(s0.currentOrder, Kind.Class));
      var ok := IsOrderRight();
      ghost var t := Abstract();
      if !ok {
        r := Fail(WrongOrder);
      } else {
        selector := selector + ("." + value);
        r := Pass;
        assert Abstract() == t.(selector := t.selector + Render(Kind.Class, value));
      }
      assert (Abstract(), r) == Apply(s0, f);
      CallFacts(s0, f);
    }

    /** `attr(value)`: recorded unless an attribute is already last, then the order check, then `[value]`. */
    method Attr(value: string) returns (r: Outcome)
      modifies this
      ensures (Abstract(), r) == Apply(old(Abstract()), Fragment(Attribute, value))
      ensures r == Pass ==> selector == old(selector) + ("[" + value + "]")
      ensures r != Pass ==> selector == old(selector) && r == Fail(WrongOrder)
      ensures old(Valid()) ==> Valid() && r == Verdict(old(Abstract()), Fragment(Attribute, value))
      ensures currentOrder == Pushed(old(currentOrder), Attribute)
    {
      ghost var f, s0 := Fragment(Attribute, value), Abstract();
      assert Render(Attribute, value) == "[" + value + "]";
      RepeatableApply(s0, f);
      if !LastIs(currentOrder, Attribute) {
        currentOrder := currentOrder + [Attribute];
      }
      ghost var s1 := Abstract();
      assert s1 == s0.(currentOrder := Pushed(s0.currentOrder, Attribute));
      var ok := IsOrderRight();
      ghost var t := Abstract();
      if !ok {
        r := Fail(WrongOrder);
      } else {
        selector := selector + ("[" + value + "]");
        r := Pass;
        assert Abstract() == t.(selector := t.selector + Render(Attribute, value));
      }
      assert (Abstract(), r) == Apply(s0, f);
      CallFacts(s0, f);
    }

    /** `pseudoClass(value)`: recorded unless a pseudo-class is already last, then the order check, then `:value`. */
    method PseudoClass(value: string) returns (r: Outcome)
      modifies this
      ensures (Abstract(), r) == Apply(old(Abstract()), Fragment(Kind.PseudoClass, value))
      ensures r == Pass ==> selector == old(selector) + (":" + value)
      ensures r != Pass ==> selector == old(selector) && r == Fail(WrongOrder)
      ensures old(Valid()) ==> Valid() && r == Verdict(old(Abstract()), Fragment(Kind.PseudoClass, value))
      ensures currentOrder == Pushed(old(currentOrder), Kind.PseudoClass)
    {
      ghost var f, s0 := Fragment(Kind.PseudoClass, value), Abstract();
      assert Render(Kind.PseudoClass, value) == ":" + value;
      RepeatableApply(s0, f);
      if !LastIs(currentOrder, Kind.PseudoClass) {
        currentOrder := currentOrder + [Kind.PseudoClass];
      }
      ghost var s1 := Abstract();
      assert s1 == s0.(currentOrder := Pushed(s0.currentOrder, Kind.PseudoClass));
      var ok := IsOrderRight();
      ghost var t := Abstract();
      if !ok {
        r := Fail(WrongOrder);
      } else {
        selector := selector + (":" + value);
        r := Pass;
        assert Abstract() == t.(selector := t.selector + Render(Kind.PseudoClass, value));
      }
      assert (Abstract(), r) == Apply(s0, f);
      CallFacts(s0, f);
    }

    /** `pseudoElement(value)`: at most once, then the order check, then `::value`. */
    method PseudoElement(value: string) returns (r: Outcome)
      modifies this
      ensures (Abstract(), r) == Apply(old(Abstract()), Fragment(Kind.PseudoElement, value))
      ensures r == Pass ==> selector == old(selector) + ("::" + value)
      ensures r != Pass ==> selector == old(selector)
      ensures r == Fail(DuplicatePart) <==> 1 <= old(psElCount)
      ensures old(Valid()) ==> Valid() && r == Verdict(old(Abstract()), Fragment(Kind.PseudoElement, value))
      ensures r != Fail(DuplicatePart) ==> currentOrder == old(currentOrder) + [Kind.PseudoElement]
    {
      ghost var f, s0 := Fragment(Kind.PseudoElement, value), Abstract();
      assert Render(Kind.PseudoElement, value) == "::" + value;
      SingletonApply(s0, f);
      psElCount := psElCount + 1;
      if psElCount > 1 {
        r := Fail(DuplicatePart);
        assert Abstract() == Bump(s0, Kind.PseudoElement);
      } else {
        currentOrder := currentOrder + [Kind.PseudoElement];
        ghost var s1 := Abstract();
        assert s1 == Bump(s0, Kind.PseudoElement).(currentOrder := s0.currentOrder + [Kind.PseudoElement]);
        var ok := IsOrderRight();
        ghost var t := Abstract();
        if !ok {
          r := Fail(WrongOrder);
        } else {
          selector := selector + ("::" + value);
          r := Pass;
          assert Abstract() == t.(selector := t.selector + Render(Kind.PseudoElement, value));
        }
      }
      assert (Abstract(), r) == Apply(s0, f);
      CallFacts(s0, f);
    }

    /**
     * `combine(selector1, combinator, selector2)`: overwrites this builder's
     * selector with the two stringified selectors joined by the combinator
     * between single spaces; no other field changes. Either argument may be
     * this builder itself, whose selector is read before it is overwritten.
     */
    method Combine(selector1: Impostor, combinator: string, selector2: Impostor)
      modifies this
      ensures selector == Combined(old(selector1.selector), combinator, old(selector2.selector))
      ensures Abstract() == old(Abstract()).(selector := selector)
      ensures old(Valid()) ==> Valid()
    {
      var left := selector1.Stringify();
      var right := selector2.Stringify();
      selector := Combined(left, combinator, right);
    }

    /** `stringify()`: the selector built so far; it changes nothing. */
    method Stringify() returns (r: string)
      ensures r == selector
    {
      r := selector;
    }
  }
}

/**
 * The `cssSelectorBuilder` object: each of its methods starts a new builder
 * and makes one call on it.
 */
module CssSelectorBuilder {
  import opened SelectorKinds
  import opened SelectorState
  import opened SelectorBuilder

  /** Starts a builder with `element(value)`; the first call on a new builder never throws. */
  method Element(value: string) returns (b: Impostor)
    ensures fresh(b) && b.Valid()
    ensures b.Abstract() == Chain([Fragment(Kind.Element, value)]).0
    ensures b.selector == value && b.currentOrder == [Kind.Element]
  {
    b := new Impostor();
    var r := b.Element(value);
    FreshFirstCall(Fragment(Kind.Element, value));
    ChainOfOne(Fragment(Kind.Element, value));
  }

  /** Starts a builder with `id(value)`. */
  method Id(value: string) returns (b: Impostor)
    ensures fresh(b) && b.Valid()
    ensures b.Abstract() == Chain([Fragment(Kind.Id, value)]).0
    ensures b.selector == "#" + value && b.currentOrder == [Kind.Id]
  {
    b := new Impostor();
    var r := b.Id(value);
    FreshFirstCall(Fragment(Kind.Id, value));
    ChainOfOne(Fragment(Kind.Id, value));
  }

  /** Starts a builder with `class(value)`. */
  method Class(value: string) returns (b: Impostor)
    ensures fresh(b) && b.Valid()
    ensures b.Abstract() == Chain([Fragment(Kind.Class, value)]).0
    ensures b.selector == "." + value && b.currentOrder == [Kind.Class]
  {
    b := new Impostor();
    var r := b.Class(value);
    FreshFirstCall(Fragment(Kind.Class, value));
    ChainOfOne(Fragment(Kind.Class, value));
  }

  /** Starts a builder with `attr(value)`. */
  method Attr(value: string) returns (b: Impostor)
    ensures fresh(b) && b.Valid()
    ensures b.Abstract() == Chain([Fragment(Attribute, value)]).0
    ensures b.selector == "[" + value + "]" && b.currentOrder == [Attribute]
  {
    b := new Impostor();
    var r := b.Attr(value);
    FreshFirstCall(Fragment(Attribute, value));
    ChainOfOne(Fragment(Attribute, value));
  }

  /** Starts a builder with `pseudoClass(value)`. */
  method PseudoClass(value: string) returns (b: Impostor)
    ensures fresh(b) && b.Valid()
    ensures b.Abstract() == Chain([Fragment(Kind.PseudoClass, value)]).0
    ensures b.selector == ":" + value && b.currentOrder == [Kind.PseudoClass]
  {
    b := new Impostor();
    var r := b.PseudoClass(value);
    FreshFirstCall(Fragment(Kind.PseudoClass, value));
    ChainOfOne(Fragment(Kind.PseudoClass, value));
  }

  /** Starts a builder with `pseudoElement(value)`. */
  method PseudoElement(value: string) returns (b: Impostor)
    ensures fresh(b) && b.Valid()
    ensures b.Abstract() == Chain([Fragment(Kind.PseudoElement, value)]).0
    ensures b.selector == "::" + value && b.currentOrder == [Kind.PseudoElement]
  {
    b := new Impostor();
    var r := b.PseudoElement(value);
    FreshFirstCall(Fragment(Kind.PseudoElement, value));
    ChainOfOne(Fragment(Kind.PseudoElement, value));
  }

  /** A new builder whose selector is the combination; its record stays empty. */
  method Combine(selector1: Impostor, combinator: string, selector2: Impostor) returns (b: Impostor)
    ensures fresh(b) && b.Valid()
    ensures b.selector == Combined(selector1.selector, combinator, selector2.selector)
    ensures b.Abstract() == Fresh().(selector := b.selector)
  {
    b := new Impostor();
    b.Combine(selector1, combinator, selector2);
  }
}
