/**
 * The builder's fields as one value, and each of its operations as a
 * function from the old fields to the new ones and an outcome. The class in
 * the builder module changes its fields exactly as these functions say;
 * the lemmas here say what the builder promises about whole call chains.
 */
module SelectorState {
  import opened SelectorKinds

  /** The two ways a fragment call throws. */
  datatype SelectorError = DuplicatePart | WrongOrder {
    /** The message the builder throws with. */
    function Message(): string
    {
      match this
      case DuplicatePart =>
        "Element, id and pseudo-element should not occur more then one time inside the selector"
      case WrongOrder =>
        "Selector parts should be arranged in the following order: element, id, class, attribute, pseudo-class, pseudo-element"
    }
  }

  /** A fragment call either returns the builder or throws. */
  datatype Outcome = Pass | Fail(error: SelectorError)

  /** One fragment call: its kind and the value passed to it. */
  datatype Fragment = Fragment(kind: Kind, value: string)

  /** The fields of one builder. */
  datatype State = State(
    selector: string,
    currentOrder: seq<Kind>,
    elemCount: nat,
    idCount: nat,
    psElCount: nat,
    magic: bool,
    rightSelectorOrder: seq<Kind>)

  /** The fields a new builder starts with. */
  function Fresh(): (s: State)
  {
    State("", [], 0, 0, 0, false, CANONICAL)
  }

  /** The counter that guards a singleton kind (0 for the repeatable kinds). */
  function Counter(s: State, k: Kind): nat
  {
    match k
    case Element => s.elemCount
    case Id => s.idCount
    case PseudoElement => s.psElCount
    case _ => 0
  }

  /** Adds one to the counter of a singleton kind. */
  function Bump(s: State, k: Kind): State
  {
    match k
    case Element => s.(elemCount := s.elemCount + 1)
    case Id => s.(idCount := s.idCount + 1)
    case PseudoElement => s.(psElCount := s.psElCount + 1)
    case _ => s
  }

  /** `rightSelectorOrder.indexOf(currentOrder[0])`, where an empty record reads as undefined. */
  function FirstIndex(window: seq<Kind>, order: seq<Kind>): int
  {
    if order == [] then -1 else IndexOf(window, order[0])
  }

  /** `isOrderRight`: slices the window once, then runs the `every` test. */
  function CheckOrder(s: State): (r: (State, bool))
  {
    var t :=
      if s.magic then s
      else s.(magic := true,
              rightSelectorOrder := JsSlice(s.rightSelectorOrder, FirstIndex(s.rightSelectorOrder, s.currentOrder)));
    (t, Every(t.currentOrder, t.rightSelectorOrder))
  }

  /**
   * The window is sliced at most once: the check sets `magic`, a check on a
   * builder with `magic` set changes nothing, so a second check right after
   * the first gives the same fields and the same answer.
   */
  lemma CheckOrderSlicesOnce(s: State)
    ensures CheckOrder(s).0.magic
    ensures s.magic ==> CheckOrder(s).0 == s
    ensures CheckOrder(CheckOrder(s).0) == CheckOrder(s)
    ensures CheckOrder(s).0 == s.(magic := true, rightSelectorOrder := CheckOrder(s).0.rightSelectorOrder)
  {
  }

  /**
   * `isOrderRight` called directly on a new builder, before any fragment:
   * `indexOf` of the missing first entry is -1, so `slice(-1)` keeps only
   * the last kind and sets `magic`. The fields are then no longer valid, and
   * a following `element` throws the order error.
   */
  lemma DirectCheckOnNewBuilder(v: string)
    ensures CheckOrder(Fresh()) == (Fresh().(magic := true, rightSelectorOrder := [PseudoElement]), true)
    ensures !Valid(CheckOrder(Fresh()).0)
    ensures Apply(CheckOrder(Fresh()).0, Fragment(Element, v)).1 == Fail(WrongOrder)
  {
    assert JsSlice(CANONICAL, -1) == [PseudoElement];
    var t := Fresh().(magic := true, rightSelectorOrder := [PseudoElement]);
    var u := Bump(t, Element).(currentOrder := [Element]);
    assert IndexOf(u.rightSelectorOrder, u.currentOrder[0]) == -1;
    assert !Every(u.currentOrder, u.rightSelectorOrder);
    SingletonApply(t, Fragment(Element, v));
    assert t.currentOrder + [Element] == [Element];
  }

  /** The last entry of the record is `k` (an empty record's last entry is undefined). */
  predicate LastIs(order: seq<Kind>, k: Kind)
  {
    |order| > 0 && order[|order| - 1] == k
  }

  /** The record after a repeatable kind is noted: pushed unless it is already last. */
  function Pushed(order: seq<Kind>, k: Kind): (p: seq<Kind>)
  {
    if LastIs(order, k) then order else order + [k]
  }

  /** Steps 3 and 4 of a fragment call: the order check, then the append. */
  function CheckThenAppend(s: State, f: Fragment): (State, Outcome)
  {
    var (t, ok) := CheckOrder(s);
    if ok then (t.(selector := t.selector + Render(f.kind, f.value)), Pass)
    else (t, Fail(WrongOrder))
  }

  /**
   * One fragment call on a builder with fields `s`. A singleton kind bumps
   * its counter and throws if it was already used; any other kind is pushed
   * unless it is already last; then the order check runs, and only a call
   * that passes both appends its rendered text.
   */
  function Apply(s: State, f: Fragment): (r: (State, Outcome))
    ensures r.1 == Pass ==> r.0.selector == s.selector + Render(f.kind, f.value)
    ensures r.1 != Pass ==> r.0.selector == s.selector
    ensures r.1 == Fail(DuplicatePart) <==> IsSingleton(f.kind) && 1 <= Counter(s, f.kind)
    ensures r.1 == Fail(DuplicatePart) ==>
      r.0.currentOrder == s.currentOrder && r.0.magic == s.magic
      && r.0.rightSelectorOrder == s.rightSelectorOrder
  {
    if IsSingleton(f.kind) then
      var s1 := Bump(s, f.kind);
      if 1 < Counter(s1, f.kind) then (s1, Fail(DuplicatePart))
      else CheckThenAppend(s1.(currentOrder := s1.currentOrder + [f.kind]), f)
    else
      CheckThenAppend(s.(currentOrder := Pushed(s.currentOrder, f.kind)), f)
  }

  /**
   * The fields of every builder reached through the constructor, the six
   * fragment calls and `combine` (a direct `isOrderRight` on a builder with
   * an empty record leaves it, see `DirectCheckOnNewBuilder`): until the
   * first fragment call nothing is recorded and the window is the whole list;
   * afterwards the window is the list sliced at the first recorded kind;
   * and a singleton's counter is non-zero just when its kind is recorded.
   */
  predicate Valid(s: State)
  {
    && (!s.magic ==>
          s.currentOrder == [] && s.rightSelectorOrder == CANONICAL
          && s.elemCount == 0 && s.idCount == 0 && s.psElCount == 0)
    && (s.magic ==>
          s.currentOrder != [] && s.rightSelectorOrder == CANONICAL[Rank(s.currentOrder[0])..])
    && (0 < s.elemCount <==> Element in s.currentOrder)
    && (0 < s.idCount <==> Id in s.currentOrder)
    && (0 < s.psElCount <==> PseudoElement in s.currentOrder)
  }

  /**
   * On a valid builder the literal order check, slice included, comes down
   * to the rank condition `Spread` on the record it is run on.
   */
  lemma CheckOrderIsSpread(s: State)
    requires s.currentOrder != []
    requires !s.magic ==> s.rightSelectorOrder == CANONICAL && |s.currentOrder| == 1
    requires s.magic ==> s.rightSelectorOrder == CANONICAL[Rank(s.currentOrder[0])..]
    ensures CheckOrder(s).1 <==> Spread(s.currentOrder)
    ensures CheckOrder(s).0
         == s.(magic := true, rightSelectorOrder := CANONICAL[Rank(s.currentOrder[0])..])
  {
    if !s.magic {
      CanonicalIndex(s.currentOrder[0]);
      JsSliceSuffix(CANONICAL, Rank(s.currentOrder[0]));
    }
    EveryIffSpread(s.currentOrder);
  }

  /**
   * The outcome of a fragment call stated on the record alone: the duplicate
   * error for a singleton already recorded, otherwise the order error unless
   * the record with the new kind noted is spread out.
   */
  function Verdict(s: State, f: Fragment): (o: Outcome)
  {
    if IsSingleton(f.kind) && f.kind in s.currentOrder then Fail(DuplicatePart)
    else if Spread(Pushed(s.currentOrder, f.kind)) then Pass
    else Fail(WrongOrder)
  }

  /**
   * One fragment call on a valid builder: it throws the duplicate error
   * exactly when a singleton kind is already recorded; otherwise it throws
   * the order error exactly when the record with the new kind pushed is not
   * spread out. The builder stays valid either way.
   */
  lemma ApplyStep(s: State, f: Fragment)
    requires Valid(s)
    ensures Valid(Apply(s, f).0)
    ensures Apply(s, f).1 == Verdict(s, f)
    ensures !(IsSingleton(f.kind) && f.kind in s.currentOrder) ==>
      Apply(s, f).0.currentOrder == Pushed(s.currentOrder, f.kind) && Apply(s, f).0.magic
  {
    if IsSingleton(f.kind) && f.kind in s.currentOrder {
      DuplicateKeepsValid(s, f.kind);
    } else {
      NotedStep(s, f);
    }
  }

  /** `ApplyStep` for a call that gets past the duplicate test. */
  lemma NotedStep(s: State, f: Fragment)
    requires Valid(s) && !(IsSingleton(f.kind) && f.kind in s.currentOrder)
    ensures Valid(Apply(s, f).0)
    ensures Apply(s, f).1 == if Spread(Pushed(s.currentOrder, f.kind)) then Pass else Fail(WrongOrder)
    ensures Apply(s, f).0.currentOrder == Pushed(s.currentOrder, f.kind) && Apply(s, f).0.magic
  {
    var k := f.kind;
    var n := Noted(s, k);
    NotedIsApplied(s, f);
    NotedValid(s, k);
    CheckOrderIsSpread(n);
    var t := n.(magic := true, rightSelectorOrder := CANONICAL[Rank(n.currentOrder[0])..]);
    assert CheckOrder(n) == (t, Spread(n.currentOrder));
    if Spread(n.currentOrder) {
      assert Apply(s, f) == (t.(selector := t.selector + Render(k, f.value)), Pass);
    } else {
      assert Apply(s, f) == (t, Fail(WrongOrder));
    }
  }

  /** Step 1 of a call of a repeatable kind: note the kind unless it is already last. */
  lemma RepeatableApply(s: State, f: Fragment)
    requires !IsSingleton(f.kind)
    ensures Apply(s, f) == CheckThenAppend(s.(currentOrder := Pushed(s.currentOrder, f.kind)), f)
  {
  }

  /** Steps 1 and 2 of a call of a singleton kind: bump its counter, then throw or note it. */
  lemma SingletonApply(s: State, f: Fragment)
    requires IsSingleton(f.kind)
    ensures 1 < Counter(Bump(s, f.kind), f.kind) ==> Apply(s, f) == (Bump(s, f.kind), Fail(DuplicatePart))
    ensures Counter(Bump(s, f.kind), f.kind) <= 1 ==>
      Apply(s, f) == CheckThenAppend(Bump(s, f.kind).(currentOrder := s.currentOrder + [f.kind]), f)
  {
  }

  /**
   * What one fragment call promises, read off its result: a repeatable kind
   * never throws the duplicate error; a call that gets past the duplicate
   * test has its kind noted; and on a valid builder the outcome is the
   * verdict and the builder stays valid.
   */
  lemma CallFacts(s: State, f: Fragment)
    ensures !IsSingleton(f.kind) ==> Apply(s, f).1 != Fail(DuplicatePart)
    ensures Apply(s, f).1 != Fail(DuplicatePart) ==>
      Apply(s, f).0.currentOrder
        == if IsSingleton(f.kind) then s.currentOrder + [f.kind] else Pushed(s.currentOrder, f.kind)
    ensures Valid(s) ==> Valid(Apply(s, f).0) && Apply(s, f).1 == Verdict(s, f)
  {
    if Valid(s) {
      ApplyStep(s, f);
    }
  }

  /** A call that throws the duplicate error leaves a valid builder valid. */
  lemma DuplicateKeepsValid(s: State, k: Kind)
    requires Valid(s) && IsSingleton(k) && k in s.currentOrder
    ensures 1 <= Counter(s, k)
    ensures Valid(Bump(s, k))
  {
  }

  /** The fields after steps 1 and 2 of a call that does not throw the duplicate error. */
  function Noted(s: State, k: Kind): (n: State)
  {
    (if IsSingleton(k) then Bump(s, k) else s).(currentOrder := Pushed(s.currentOrder, k))
  }

  lemma NotedIsApplied(s: State, f: Fragment)
    requires IsSingleton(f.kind) ==> Counter(s, f.kind) == 0 && f.kind !in s.currentOrder
    ensures Apply(s, f) == CheckThenAppend(Noted(s, f.kind), f)
  {
    if IsSingleton(f.kind) {
      assert !LastIs(s.currentOrder, f.kind);
    }
  }

  /**
   * After steps 1 and 2 the record is non-empty, starts where it started
   * (or with `k` on a new builder), and the fields are valid once the
   * window is sliced at its first kind.
   */
  lemma NotedValid(s: State, k: Kind)
    requires Valid(s)
    requires !(IsSingleton(k) && k in s.currentOrder)
    ensures var n := Noted(s, k);
      && n.currentOrder == Pushed(s.currentOrder, k)
      && n.magic == s.magic && n.rightSelectorOrder == s.rightSelectorOrder
      && n.currentOrder != []
      && (!n.magic ==> n.rightSelectorOrder == CANONICAL && |n.currentOrder| == 1)
      && (n.magic ==> n.rightSelectorOrder == CANONICAL[Rank(n.currentOrder[0])..])
      && Valid(n.(magic := true, rightSelectorOrder := CANONICAL[Rank(n.currentOrder[0])..]))
  {
    PushedFacts(s.currentOrder, k);
    NotedCounters(s, k);
  }

  lemma NotedCounters(s: State, k: Kind)
    requires Valid(s)
    requires !(IsSingleton(k) && k in s.currentOrder)
    ensures var n := Noted(s, k);
      && (0 < n.elemCount <==> Element in n.currentOrder)
      && (0 < n.idCount <==> Id in n.currentOrder)
      && (0 < n.psElCount <==> PseudoElement in n.currentOrder)
  {
    PushedFacts(s.currentOrder, k);
  }

  lemma PushedFacts(order: seq<Kind>, k: Kind)
    ensures Pushed(order, k) != [] && LastIs(Pushed(order, k), k)
    ensures order != [] ==> Pushed(order, k)[0] == order[0]
    ensures order == [] ==> Pushed(order, k) == [k]
    ensures forall x :: x in Pushed(order, k) <==> x in order || x == k
  {
  }

  /** The whole selector a chain of calls renders, in call order with no separators. */
  function RenderAll(calls: seq<Fragment>): string
    decreases |calls|
  {
    if calls == [] then ""
    else RenderAll(calls[..|calls| - 1]) + Render(calls[|calls| - 1].kind, calls[|calls| - 1].value)
  }

  lemma AppendAssociates(a: string, b: string, c: string)
    ensures (a + b) + c == a + (b + c)
  {
  }

  /** The kind of each call. */
  function Kinds(calls: seq<Fragment>): (ks: seq<Kind>)
    ensures |ks| == |calls|
    ensures forall i :: 0 <= i < |calls| ==> ks[i] == calls[i].kind
  {
    seq(|calls|, i requires 0 <= i < |calls| => calls[i].kind)
  }

  /** A record of kinds with every run of one kind kept once. */
  function Collapse(ks: seq<Kind>): (c: seq<Kind>)
    ensures |c| <= |ks|
    ensures ks != [] ==> c != [] && c[0] == ks[0] && c[|c| - 1] == ks[|ks| - 1]
    ensures forall k :: k in c <==> k in ks
    decreases |ks|
  {
    if ks == [] then []
    else Pushed(Collapse(ks[..|ks| - 1]), ks[|ks| - 1])
  }

  /**
   * A chain of fragment calls applied to a builder with fields `s`, as the
   * chaining of the source does it: each call acts on what the previous one
   * returned, and the first call that throws ends the chain.
   */
  function Run(s: State, calls: seq<Fragment>): (r: (State, Outcome))
    ensures r.1 == Pass ==> r.0.selector == s.selector + RenderAll(calls)
    decreases |calls|
  {
    if calls == [] then (s, Pass)
    else
      var pre, last := calls[..|calls| - 1], calls[|calls| - 1];
      var (p, o) := Run(s, pre);
      if o.Fail? then (p, o)
      else
        AppendAssociates(s.selector, RenderAll(pre), Render(last.kind, last.value));
        Apply(p, last)
  }

  /** A chain started from the facade, that is, from a new builder. */
  function Chain(calls: seq<Fragment>): (State, Outcome)
  {
    Run(Fresh(), calls)
  }

  /** A chain that passed renders its calls, in order, onto the empty selector of a new builder. */
  lemma ChainSelector(calls: seq<Fragment>)
    requires Chain(calls).1 == Pass
    ensures Chain(calls).0.selector == RenderAll(calls)
  {
    assert Fresh().selector + RenderAll(calls) == RenderAll(calls);
  }

  /**
   * The selector `combine` writes: the left selector, the combinator with
   * one space on each side, then the right selector, each recoverable from
   * its place in the result.
   */
  function Combined(left: string, combinator: string, right: string): (r: string)
    ensures |r| == |left| + |combinator| + |right| + 2
    ensures r[..|left|] == left
    ensures r[|left|..|left| + |combinator| + 2] == " " + combinator + " "
    ensures r[|r| - |right|..] == right
  {
    left + " " + combinator + " " + right
  }

  /** No singleton kind is called twice. */
  predicate NoRepeatedSingleton(calls: seq<Fragment>)
  {
    forall i, j :: 0 <= i < j < |calls| && IsSingleton(calls[i].kind) ==> calls[i].kind != calls[j].kind
  }

  /** The chains that pass: no singleton twice, and the collapsed record spread out. */
  predicate Admissible(calls: seq<Fragment>)
  {
    NoRepeatedSingleton(calls) && Spread(Collapse(Kinds(calls)))
  }

  /** What a chain that passed leaves behind. */
  predicate ChainLeaves(calls: seq<Fragment>, st: State)
  {
    && Valid(st)
    && st.currentOrder == Collapse(Kinds(calls))
    && st.selector == RenderAll(calls)
  }

  /** One more call on a chain that passed acts on the builder that chain left. */
  lemma ChainExtend(calls: seq<Fragment>, f: Fragment)
    requires Chain(calls).1 == Pass
    ensures Chain(calls + [f]) == Apply(Chain(calls).0, f)
  {
    assert (calls + [f])[..|calls|] == calls;
  }

  /** A chain that threw stays thrown. */
  lemma ChainStaysFailed(calls: seq<Fragment>, f: Fragment)
    requires Chain(calls).1 != Pass
    ensures Chain(calls + [f]) == Chain(calls)
  {
    assert (calls + [f])[..|calls|] == calls;
  }

  lemma SnocFacts(calls: seq<Fragment>, f: Fragment)
    ensures Kinds(calls + [f]) == Kinds(calls) + [f.kind]
    ensures Collapse(Kinds(calls + [f])) == Pushed(Collapse(Kinds(calls)), f.kind)
    ensures RenderAll(calls + [f]) == RenderAll(calls) + Render(f.kind, f.value)
    ensures NoRepeatedSingleton(calls + [f])
        <==> NoRepeatedSingleton(calls) && !(IsSingleton(f.kind) && f.kind in Kinds(calls))
  {
    var all := calls + [f];
    assert all[..|calls|] == calls;
    assert Kinds(all)[..|calls|] == Kinds(calls);
    if NoRepeatedSingleton(all) {
      forall i, j | 0 <= i < j < |calls| && IsSingleton(calls[i].kind)
        ensures calls[i].kind != calls[j].kind
      {
        assert all[i] == calls[i] && all[j] == calls[j];
      }
    }
    if IsSingleton(f.kind) && f.kind in Kinds(calls) {
      var i :| 0 <= i < |calls| && Kinds(calls)[i] == f.kind;
      assert all[i].kind == all[|calls|].kind;
    }
    if NoRepeatedSingleton(calls) && !(IsSingleton(f.kind) && f.kind in Kinds(calls)) {
      forall i, j | 0 <= i < j < |all| && IsSingleton(all[i].kind)
        ensures all[i].kind != all[j].kind
      {
        if j < |calls| {
          assert all[i] == calls[i] && all[j] == calls[j];
        } else {
          assert Kinds(calls)[i] == all[i].kind;
        }
      }
    }
  }

  /** The step of `ChainPassesIff` for a call made on a chain that passed. */
  lemma ChainStepPassed(calls: seq<Fragment>, f: Fragment)
    requires Chain(calls).1 == Pass && ChainLeaves(calls, Chain(calls).0)
    requires Admissible(calls)
    ensures Chain(calls + [f]).1 == Pass <==> Admissible(calls + [f])
    ensures Chain(calls + [f]).1 == Pass ==> ChainLeaves(calls + [f], Chain(calls + [f]).0)
  {
    var st := Chain(calls).0;
    ChainExtend(calls, f);
    SnocFacts(calls, f);
    ApplyStep(st, f);
    if Chain(calls + [f]).1 == Pass {
      AppendAssociates(st.selector, "", Render(f.kind, f.value));
    }
  }

  /** The step of `ChainPassesIff` for a call made on a chain that threw. */
  lemma ChainStepFailed(calls: seq<Fragment>, f: Fragment)
    requires Chain(calls).1 != Pass && !Admissible(calls)
    ensures Chain(calls + [f]).1 != Pass && !Admissible(calls + [f])
  {
    ChainStaysFailed(calls, f);
    SnocFacts(calls, f);
    var c := Collapse(Kinds(calls));
    if Spread(Pushed(c, f.kind)) && !LastIs(c, f.kind) {
      SpreadPrefix(c, f.kind);
    }
  }

  /**
   * A chain that passes leaves a valid builder whose record is the
   * collapsed kinds of its calls and whose selector is the rendering of its
   * calls; and exactly the admissible chains pass.
   */
  lemma {:induction false} ChainInvariant(calls: seq<Fragment>)
    ensures Chain(calls).1 == Pass <==> Admissible(calls)
    ensures Chain(calls).1 == Pass ==> ChainLeaves(calls, Chain(calls).0)
    decreases |calls|
  {
    if calls == [] {
      assert Kinds(calls) == [];
    } else {
      var pre, f := calls[..|calls| - 1], calls[|calls| - 1];
      assert calls == pre + [f];
      ChainInvariant(pre);
      if Chain(pre).1 == Pass {
        ChainStepPassed(pre, f);
      } else {
        ChainStepFailed(pre, f);
      }
    }
  }

  /**
   * Which chains pass, stated without the builder: exactly those that call
   * no singleton twice and whose collapsed record is spread out.
   */
  lemma ChainPassesIff(calls: seq<Fragment>)
    ensures Chain(calls).1 == Pass <==> Admissible(calls)
  {
    ChainInvariant(calls);
  }

  /**
   * A chain in canonical order, each singleton at most once, never throws,
   * and its selector is the concatenation of its rendered calls.
   */
  lemma CanonicalChainPasses(calls: seq<Fragment>)
    requires NonDecreasing(Kinds(calls))
    requires NoRepeatedSingleton(calls)
    ensures Chain(calls).1 == Pass
    ensures Chain(calls).0.selector == RenderAll(calls)
  {
    CollapseIncreasing(Kinds(calls));
    IncreasingIsSpread(Collapse(Kinds(calls)));
    ChainInvariant(calls);
  }

  /** Collapsing a record that never goes backwards gives one that strictly increases. */
  lemma {:induction false} CollapseIncreasing(ks: seq<Kind>)
    requires NonDecreasing(ks)
    ensures StrictlyIncreasing(Collapse(ks))
    decreases |ks|
  {
    if ks != [] {
      var init := ks[..|ks| - 1];
      assert NonDecreasing(init) by {
        forall i, j | 0 <= i < j < |init| ensures Rank(init[i]) <= Rank(init[j]) {
          assert init[i] == ks[i] && init[j] == ks[j];
        }
      }
      CollapseIncreasing(init);
      if init != [] {
        var c := Collapse(init);
        assert c[|c| - 1] == ks[|ks| - 2];
        var r := Pushed(c, ks[|ks| - 1]);
        forall i | 0 < i < |r| ensures Rank(r[i - 1]) < Rank(r[i]) {
          if i < |c| {
            assert r[i - 1] == c[i - 1] && r[i] == c[i];
          }
        }
      }
    }
  }

  /**
   * The first call on a new builder never throws: its counter was zero and
   * the check runs on a one-entry record against the list sliced at that
   * entry.
   */
  lemma FreshFirstCall(f: Fragment)
    ensures Apply(Fresh(), f).1 == Pass
    ensures Apply(Fresh(), f).0.selector == Render(f.kind, f.value)
    ensures Apply(Fresh(), f).0.currentOrder == [f.kind]
    ensures Valid(Apply(Fresh(), f).0)
  {
    ApplyStep(Fresh(), f);
  }

  /** A chain of one call is that call on a new builder. */
  lemma ChainOfOne(f: Fragment)
    ensures Chain([f]) == Apply(Fresh(), f)
  {
    assert Chain([]) == (Fresh(), Pass);
    ChainExtend([], f);
    assert [] + [f] == [f];
  }

  /**
   * A second `element`, `id` or `pseudoElement` on a chain that passed
   * throws the duplicate error and leaves the selector as it was.
   */
  lemma DuplicateSingletonFails(calls: seq<Fragment>, f: Fragment)
    requires Chain(calls).1 == Pass
    requires IsSingleton(f.kind) && f.kind in Kinds(calls)
    ensures Chain(calls + [f]).1 == Fail(DuplicatePart)
    ensures Chain(calls + [f]).0.selector == RenderAll(calls)
  {
    ChainInvariant(calls);
    ChainExtend(calls, f);
    var st := Chain(calls).0;
    assert f.kind in st.currentOrder;
    DuplicateStep(st, f);
  }

  /** `DuplicateSingletonFails` for one call on a valid builder. */
  lemma DuplicateStep(st: State, f: Fragment)
    requires Valid(st) && IsSingleton(f.kind) && f.kind in st.currentOrder
    ensures Apply(st, f).1 == Fail(DuplicatePart)
    ensures Apply(st, f).0.selector == st.selector
  {
    DuplicateKeepsValid(st, f.kind);
  }

  /**
   * After a chain that passed, a call whose kind comes before the chain's
   * first kind in canonical order is not in the sliced window, so it throws
   * the order error and leaves the selector as it was.
   */
  lemma EarlierKindRejected(calls: seq<Fragment>, f: Fragment)
    requires Chain(calls).1 == Pass
    requires calls != [] && Rank(f.kind) < Rank(calls[0].kind)
    ensures IndexOf(Chain(calls).0.rightSelectorOrder, f.kind) == -1
    ensures Chain(calls + [f]).1 == Fail(WrongOrder)
    ensures Chain(calls + [f]).0.selector == RenderAll(calls)
  {
    ChainInvariant(calls);
    ChainExtend(calls, f);
    var st := Chain(calls).0;
    assert st.currentOrder[0] == calls[0].kind;
    EarlierKindStep(st, f);
  }

  /** `EarlierKindRejected` for one call on a valid builder with a spread-out record. */
  lemma EarlierKindStep(st: State, f: Fragment)
    requires Valid(st) && st.currentOrder != [] && Spread(st.currentOrder)
    requires Rank(f.kind) < Rank(st.currentOrder[0])
    ensures IndexOf(st.rightSelectorOrder, f.kind) == -1
    ensures Apply(st, f).1 == Fail(WrongOrder)
  {
    var c := st.currentOrder;
    WindowIndex(c[0], f.kind);
    assert f.kind !in c by {
      if f.kind in c {
        SpreadMembers(c, f.kind);
      }
    }
    var p := c + [f.kind];
    assert Pushed(c, f.kind) == p;
    assert p[0] == c[0] && p[|c|] == f.kind;
    assert !Spread(p);
    ApplyStep(st, f);
  }

  /**
   * A `class`, `attr` or `pseudoClass` call right after one of its own kind
   * on a chain that passed is not recorded again and passes, appending its
   * rendered text.
   */
  lemma RepeatedKindPasses(calls: seq<Fragment>, f: Fragment)
    requires Chain(calls).1 == Pass
    requires !IsSingleton(f.kind) && calls != [] && calls[|calls| - 1].kind == f.kind
    ensures Chain(calls + [f]).1 == Pass
    ensures Chain(calls + [f]).0.currentOrder == Chain(calls).0.currentOrder
    ensures Chain(calls + [f]).0.selector == Chain(calls).0.selector + Render(f.kind, f.value)
  {
    ChainInvariant(calls);
    ChainExtend(calls, f);
    ApplyStep(Chain(calls).0, f);
  }
}
