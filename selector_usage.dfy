/**
 * The documented uses of `cssSelectorBuilder`, made on the objects: each
 * method makes the calls of one example, for any values passed to the
 * calls, and states what `stringify` returns or which error is thrown.
 */
module SelectorUsage {
  import opened SelectorKinds
  import opened SelectorState
  import opened SelectorBuilder
  import Facade = CssSelectorBuilder

  /** `element(e)` followed by a call of any other kind passes, whatever that kind is. */
  method ElementThen(e: string, k: Kind, v: string) returns (b: Impostor)
    requires k != Kind.Element
    ensures fresh(b) && b.Valid()
    ensures b.currentOrder == [Kind.Element, k]
    ensures b.selector == e + Render(k, v)
  {
    b := Facade.Element(e);
    assert Pushed([Kind.Element], k) == [Kind.Element, k];
    assert Spread([Kind.Element, k]);
    var r;
    match k {
      case Id => r := b.Id(v);
      case Class => r := b.Class(v);
      case Attribute => r := b.Attr(v);
      case PseudoClass => r := b.PseudoClass(v);
      case PseudoElement => r := b.PseudoElement(v);
    }
  }

  /** `id(i).class(c)`. */
  method IdClass(i: string, c: string) returns (b: Impostor)
    ensures fresh(b) && b.Valid()
    ensures b.currentOrder == [Kind.Id, Kind.Class]
    ensures b.selector == ("#" + i) + ("." + c)
  {
    b := Facade.Id(i);
    assert Pushed([Kind.Id], Kind.Class) == [Kind.Id, Kind.Class];
    assert Spread([Kind.Id, Kind.Class]);
    var r := b.Class(c);
    assert r == Pass;
  }

  /**
   * `id(i).class(c1).class(c2)`, as in `#main.container.editable`: both
   * classes are kept, in call order.
   */
  method IdAndClasses(i: string, c1: string, c2: string) returns (s: string)
    ensures s == ("#" + i) + ("." + c1) + ("." + c2)
  {
    var b := IdClass(i, c1);
    var r := b.Class(c2);
    assert r == Pass;
    s := b.Stringify();
  }

  /** `element(e).attr(a).pseudoClass(p)`, as in `a[href$=".png"]:focus`. */
  method ElementAttributePseudoClass(e: string, a: string, p: string) returns (s: string)
    ensures s == e + ("[" + a + "]") + (":" + p)
  {
    var b := ElementThen(e, Attribute, a);
    assert Pushed([Kind.Element, Attribute], Kind.PseudoClass) == [Kind.Element, Attribute, Kind.PseudoClass];
    assert Spread([Kind.Element, Attribute, Kind.PseudoClass]);
    var r := b.PseudoClass(p);
    assert r == Pass;
    s := b.Stringify();
  }

  /** A second `id` throws the duplicate error and leaves the selector as it was. */
  method IdTwice(i1: string, i2: string) returns (r: Outcome, s: string)
    ensures r == Fail(DuplicatePart) && s == "#" + i1
  {
    var b := Facade.Id(i1);
    r := b.Id(i2);
    s := b.Stringify();
  }

  /** `element` after `class` throws the order error and leaves the selector as it was. */
  method ElementAfterClass(c: string, e: string) returns (r: Outcome, s: string)
    ensures r == Fail(WrongOrder) && s == "." + c
  {
    var b := Facade.Class(c);
    r := b.Element(e);
    assert Rank([Kind.Class, Kind.Element][0]) + 1 > Rank([Kind.Class, Kind.Element][1]);
    s := b.Stringify();
  }

  /** `element(e).id(i).class(c)`. */
  method ElementIdClass(e: string, i: string, c: string) returns (b: Impostor)
    ensures fresh(b) && b.Valid()
    ensures b.currentOrder == [Kind.Element, Kind.Id, Kind.Class]
    ensures b.selector == e + ("#" + i) + ("." + c)
  {
    b := ElementThen(e, Kind.Id, i);
    assert Pushed([Kind.Element, Kind.Id], Kind.Class) == [Kind.Element, Kind.Id, Kind.Class];
    assert Spread([Kind.Element, Kind.Id, Kind.Class]);
    var r := b.Class(c);
    assert r == Pass;
  }

  /** `element(e).id(i).class(c1).class(c2)`: a repeated class is appended without a new record entry. */
  method ElementIdClasses(e: string, i: string, c1: string, c2: string) returns (b: Impostor)
    ensures fresh(b) && b.Valid()
    ensures b.currentOrder == [Kind.Element, Kind.Id, Kind.Class]
    ensures b.selector == e + ("#" + i) + ("." + c1) + ("." + c2)
  {
    b := ElementIdClass(e, i, c1);
    var r := b.Class(c2);
    assert r == Pass;
  }

  /**
   * The nested `combine` example, as in
   * `div#main.container.draggable + table#data ~ tr:nth-of-type(even)   td:nth-of-type(even)`:
   * the combinations are made innermost first, and a blank combinator gives
   * three spaces.
   */
  method NestedCombine(div: string, main: string, container: string, draggable: string,
                       table: string, data: string, tr: string, td: string, nth: string)
    returns (s: string)
    ensures s == Combined(div + ("#" + main) + ("." + container) + ("." + draggable), "+",
                  Combined(table + ("#" + data), "~",
                    Combined(tr + (":" + nth), " ", td + (":" + nth))))
  {
    var first := ElementIdClasses(div, main, container, draggable);
    var second := ElementThen(table, Kind.Id, data);
    var third := ElementThen(tr, Kind.PseudoClass, nth);
    var fourth := ElementThen(td, Kind.PseudoClass, nth);
    var inner := Facade.Combine(third, " ", fourth);
    var middle := Facade.Combine(second, "~", inner);
    var outer := Facade.Combine(first, "+", middle);
    s := outer.Stringify();
  }
}
