/**
 * Fragment kinds of a CSS compound selector, the canonical order the builder
 * starts from, and the two array built-ins its order check relies on
 * (`Array.prototype.indexOf` and `Array.prototype.slice`).
 */
module SelectorKinds {

  /** The six kinds of selector part, named after the strings the builder records. */
  datatype Kind = Element | Id | Class | Attribute | PseudoClass | PseudoElement

  /** The initial value of `rightSelectorOrder`. */
  const CANONICAL: seq<Kind> := [Element, Id, Class, Attribute, PseudoClass, PseudoElement]

  /** Kinds that may occur at most once in one selector. */
  predicate IsSingleton(k: Kind)
  {
    k == Element || k == Id || k == PseudoElement
  }

  /** The position of a kind in the canonical order. */
  function Rank(k: Kind): (r: nat)
    ensures r < |CANONICAL| && CANONICAL[r] == k
  {
    match k
    case Element => 0
    case Id => 1
    case Class => 2
    case Attribute => 3
    case PseudoClass => 4
    case PseudoElement => 5
  }

  /** Each position of the canonical list holds the kind of that rank. */
  lemma CanonicalRanks()
    ensures forall i :: 0 <= i < |CANONICAL| ==> Rank(CANONICAL[i]) == i
  {
  }

  /** The text a fragment of kind `k` with value `value` contributes to the selector. */
  function Render(k: Kind, value: string): (r: string)
  {
    match k
    case Element => value
    case Id => "#" + value
    case Class => "." + value
    case Attribute => "[" + value + "]"
    case PseudoClass => ":" + value
    case PseudoElement => "::" + value
  }

  /** `s.indexOf(k)`: the first position holding `k`, or -1 when there is none. */
  function IndexOf(s: seq<Kind>, k: Kind): (r: int)
    ensures -1 <= r < |s|
  {
    if s == [] then -1
    else if s[0] == k then 0
    else
      var i := IndexOf(s[1..], k);
      if i == -1 then -1 else i + 1
  }

  /** `indexOf` finds the first occurrence, and -1 exactly when there is none. */
  lemma {:induction false} IndexOfFirst(s: seq<Kind>, k: Kind)
    ensures IndexOf(s, k) == -1 <==> k !in s
    ensures 0 <= IndexOf(s, k) ==>
      s[IndexOf(s, k)] == k && forall j :: 0 <= j < IndexOf(s, k) ==> s[j] != k
    decreases |s|
  {
    if s != [] && s[0] != k {
      IndexOfFirst(s[1..], k);
      assert s == [s[0]] + s[1..];
    }
  }

  /**
   * `s.slice(start)`: a negative start counts from the end, and a start
   * beyond either end is clamped to it.
   */
  function JsSlice(s: seq<Kind>, start: int): (r: seq<Kind>)
    ensures |r| <= |s|
  {
    var from :=
      if start < 0 then (if |s| + start < 0 then 0 else |s| + start)
      else if |s| < start then |s|
      else start;
    s[from..]
  }

  /**
   * What `slice` keeps: the suffix from `start` when it is in range, the
   * last `-start` entries (or all) when it is negative, nothing when it is
   * past the end; always a suffix of `s`.
   */
  lemma JsSliceSuffix(s: seq<Kind>, start: int)
    ensures 0 <= start <= |s| ==> JsSlice(s, start) == s[start..]
    ensures start < 0 ==> |JsSlice(s, start)| == if -start <= |s| then -start else |s|
    ensures |s| < start ==> JsSlice(s, start) == []
    ensures JsSlice(s, start) == s[|s| - |JsSlice(s, start)|..]
  {
  }

  /**
   * The callback of `currentOrder.every(...)`: every recorded kind sits at
   * least as far into the window as its own position in the record.
   */
  predicate Every(order: seq<Kind>, window: seq<Kind>)
  {
    forall i :: 0 <= i < |order| ==> i <= IndexOf(window, order[i])
  }

  /**
   * The same condition stated on ranks: the `i`-th recorded kind is at least
   * `i` places after the first recorded kind in the canonical order.
   */
  predicate Spread(order: seq<Kind>)
  {
    forall i :: 0 <= i < |order| ==> Rank(order[0]) + i <= Rank(order[i])
  }

  /** Adjacent kinds strictly increase in canonical order. */
  predicate StrictlyIncreasing(order: seq<Kind>)
  {
    forall i :: 0 < i < |order| ==> Rank(order[i - 1]) < Rank(order[i])
  }

  /** Kinds never go backwards in canonical order. */
  predicate NonDecreasing(ks: seq<Kind>)
  {
    forall i, j :: 0 <= i < j < |ks| ==> Rank(ks[i]) <= Rank(ks[j])
  }

  /**
   * The index of `k` in the canonical list sliced at `first`: its distance
   * from `first` when it comes at or after `first`, and -1 when it comes
   * before, because the slice no longer holds it.
   */
  lemma WindowIndex(first: Kind, k: Kind)
    ensures IndexOf(CANONICAL[Rank(first)..], k)
         == if Rank(first) <= Rank(k) then Rank(k) - Rank(first) else -1
  {
    var lo := Rank(first);
    var w := CANONICAL[lo..];
    CanonicalRanks();
    assert forall j :: 0 <= j < |w| ==> w[j] == CANONICAL[lo + j];
    RankedIndex(w, lo, k);
  }

  /**
   * `indexOf` in a list whose entries have consecutive ranks from `lo` to
   * the last rank.
   */
  lemma RankedIndex(w: seq<Kind>, lo: nat, k: Kind)
    requires lo + |w| == |CANONICAL|
    requires forall j :: 0 <= j < |w| ==> Rank(w[j]) == lo + j
    ensures IndexOf(w, k) == if lo <= Rank(k) then Rank(k) - lo else -1
  {
    if lo <= Rank(k) {
      IndexOfAt(w, Rank(k) - lo);
    } else {
      assert k !in w;
      IndexOfFirst(w, k);
    }
  }

  /** In a sequence whose entry at `j` does not occur before `j`, `indexOf` finds it at `j`. */
  lemma IndexOfAt(s: seq<Kind>, j: nat)
    requires j < |s|
    requires forall a :: 0 <= a < j ==> s[a] != s[j]
    ensures IndexOf(s, s[j]) == j
  {
    IndexOfFirst(s, s[j]);
  }

  /** The unsliced list finds every kind at its rank. */
  lemma CanonicalIndex(k: Kind)
    ensures IndexOf(CANONICAL, k) == Rank(k)
  {
    WindowIndex(Element, k);
  }

  /**
   * The order check, run with the window it has after the one-time slice,
   * holds exactly when the record is spread out in canonical order.
   */
  lemma EveryIffSpread(order: seq<Kind>)
    requires order != []
    ensures Every(order, CANONICAL[Rank(order[0])..]) <==> Spread(order)
  {
    forall i | 0 <= i < |order|
      ensures i <= IndexOf(CANONICAL[Rank(order[0])..], order[i])
          <==> Rank(order[0]) + i <= Rank(order[i])
    {
      WindowIndex(order[0], order[i]);
    }
  }

  /** A record whose kinds strictly increase is spread out. */
  lemma {:induction false} IncreasingIsSpread(order: seq<Kind>)
    requires StrictlyIncreasing(order)
    ensures Spread(order)
    decreases |order|
  {
    if 1 < |order| {
      var init := order[..|order| - 1];
      assert StrictlyIncreasing(init) by {
        forall i | 0 < i < |init| ensures Rank(init[i - 1]) < Rank(init[i]) {
          assert init[i - 1] == order[i - 1] && init[i] == order[i];
        }
      }
      IncreasingIsSpread(init);
      forall i | 0 <= i < |order| ensures Rank(order[0]) + i <= Rank(order[i]) {
        if i < |order| - 1 {
          assert init[i] == order[i] && init[0] == order[0];
        } else {
          assert init[i - 1] == order[i - 1] && init[0] == order[0];
        }
      }
    }
  }

  /** Dropping the last entry of a spread-out record leaves it spread out. */
  lemma SpreadPrefix(order: seq<Kind>, k: Kind)
    requires Spread(order + [k])
    ensures Spread(order)
  {
    forall i | 0 <= i < |order| ensures Rank(order[0]) + i <= Rank(order[i]) {
      assert (order + [k])[i] == order[i] && (order + [k])[0] == order[0];
    }
  }

  /** Every kind of a spread-out record ranks at or after its first kind. */
  lemma SpreadMembers(order: seq<Kind>, k: Kind)
    requires Spread(order) && k in order
    ensures Rank(order[0]) <= Rank(k)
  {
    var i :| 0 <= i < |order| && order[i] == k;
  }
}
