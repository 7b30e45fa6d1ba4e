/**
 * The run-time lists of array and tuple types, and which elements the analysis expects at an
 * index of them (`elementCandidates` in `scripts/server-action-types.ts`).
 */
module TupleLists {
  import opened Outcomes
  import opened TypeGraph

  // ---------- Run-time lists ----------

  /** The elements of a tuple; an array repeats its one element. */
  function ElementsOf(g: Graph, t: TypeId): (elements: seq<Element>)
    requires g.Has(t) && g.ElementTypes(t).Some?
    ensures Graph.TypesOf(elements) == g.ElementTypes(t).value
    ensures Graph.PrefixLength(elements) == g.FixedPrefixLength(t)
  {
    if g.Shape(t).TupleOf? then g.Shape(t).elements else [Element(g.Shape(t).element, Variable)]
  }

  /**
   * How many values of each element one list holds: one of a required element, any number
   * of a variable one; an optional element may be missing when everything after it is.
   */
  ghost predicate AreCounts(elements: seq<Element>, counts: seq<nat>) {
    && |counts| == |elements|
    && (forall i | 0 <= i < |counts| ::
          && (elements[i].flag.Required? ==> counts[i] == 1)
          && (elements[i].flag.Optional? ==> counts[i] <= 1))
    && forall i, j | 0 <= i < j < |counts| && elements[i].flag.Optional? && counts[i] == 0 :: counts[j] == 0
  }

  /** The list with these counts, as the element each of its values belongs to. */
  function ListOf(counts: seq<nat>): seq<nat> {
    if counts == [] then []
    else ListOf(counts[..|counts| - 1]) + seq(counts[|counts| - 1], _ => |counts| - 1)
  }

  /** Element `i` stands at `index` of some run-time list. */
  ghost predicate MaySit(elements: seq<Element>, i: nat, index: nat) {
    exists counts :: AreCounts(elements, counts) && SitsAt(counts, i, index)
  }

  predicate SitsAt(counts: seq<nat>, i: nat, index: nat) {
    index < |ListOf(counts)| && ListOf(counts)[index] == i
  }

  function Sum(counts: seq<nat>): nat {
    if counts == [] then 0 else Sum(counts[..|counts| - 1]) + counts[|counts| - 1]
  }

  /** An element's values follow those of the elements before it. */
  lemma {:induction false} SitsAtIff(counts: seq<nat>, i: nat, index: nat)
    ensures |ListOf(counts)| == Sum(counts)
    ensures SitsAt(counts, i, index)
            <==> i < |counts| && Sum(counts[..i]) <= index < Sum(counts[..i]) + counts[i]
    decreases |counts|
  {
    if counts != [] {
      var n := |counts| - 1;
      SitsAtIff(counts[..n], i, index);
      if i < n {
        assert counts[..n][..i] == counts[..i];
        SumGrows(counts, i + 1, n);
        assert counts[..i + 1][..i] == counts[..i];
      }
    }
  }

  lemma {:induction false} SumGrows(counts: seq<nat>, a: nat, b: nat)
    requires a <= b <= |counts|
    ensures Sum(counts[..a]) <= Sum(counts[..b])
    decreases b
  {
    if a < b {
      assert counts[..b][..b - 1] == counts[..b - 1];
      SumGrows(counts, a, b - 1);
    }
  }

  // ---------- Where an element can stand ----------

  /** Elements before `i` that are not variable. */
  function FixedBefore(elements: seq<Element>, i: nat): (n: nat)
    requires i <= |elements|
    ensures n <= i
  {
    if i == 0 then 0 else FixedBefore(elements, i - 1) + if elements[i - 1].flag.Variable? then 0 else 1
  }

  lemma {:induction false} FixedBeforeFacts(elements: seq<Element>, i: nat)
    requires i <= |elements|
    ensures i <= Graph.PrefixLength(elements) ==> FixedBefore(elements, i) == i
    ensures i >= Graph.PrefixLength(elements) ==> FixedBefore(elements, i) >= Graph.PrefixLength(elements)
  {
    if i > 0 {
      FixedBeforeFacts(elements, i - 1);
    }
  }

  /** Where a present element can start: one place for each fixed element before it, more for variable ones. */
  lemma {:induction false} PlaceOfPresent(elements: seq<Element>, counts: seq<nat>, i: nat, k: nat)
    requires AreCounts(elements, counts) && k <= i < |counts| && counts[i] > 0
    ensures Sum(counts[..k]) >= FixedBefore(elements, k)
    ensures k <= Graph.PrefixLength(elements) ==> Sum(counts[..k]) == k
  {
    if k > 0 {
      PlaceOfPresent(elements, counts, i, k - 1);
      assert counts[..k][..k - 1] == counts[..k - 1];
    }
  }

  /** Every element once, the first variable one `extra` times and element `i` at least once. */
  function CountsWith(elements: seq<Element>, extra: nat, i: nat): (counts: seq<nat>)
    ensures |counts| == |elements|
  {
    var prefix := Graph.PrefixLength(elements);
    seq(|elements|, k requires 0 <= k < |elements| =>
      if !elements[k].flag.Variable? then 1
      else (if k == prefix then extra else 0) + (if k == i then 1 else 0))
  }

  lemma {:induction false} SumOfCountsWith(elements: seq<Element>, extra: nat, i: nat, k: nat)
    requires k <= i < |elements|
    ensures Sum(CountsWith(elements, extra, i)[..k])
            == FixedBefore(elements, k) + if k > Graph.PrefixLength(elements) then extra else 0
  {
    var counts := CountsWith(elements, extra, i);
    if k > 0 {
      assert counts[..k][..k - 1] == counts[..k - 1];
      SumOfCountsWith(elements, extra, i, k - 1);
    }
  }

  /**
   * A prefix element stands only at its own index. Any later one can stand at every index
   * from the number of fixed elements before it on, and nowhere earlier.
   */
  lemma MaySitIff(elements: seq<Element>, i: nat, index: nat)
    requires i < |elements|
    ensures MaySit(elements, i, index)
            <==> if i < Graph.PrefixLength(elements) then index == i else index >= FixedBefore(elements, i)
  {
    var prefix := Graph.PrefixLength(elements);
    FixedBeforeFacts(elements, i);
    if counts :| AreCounts(elements, counts) && SitsAt(counts, i, index) {
      SitsAtIff(counts, i, index);
      PlaceOfPresent(elements, counts, i, i);
    }
    if if i < prefix then index == i else index >= FixedBefore(elements, i) {
      var extra := if i < prefix then 0 else index - FixedBefore(elements, i);
      var counts := CountsWith(elements, extra, i);
      SumOfCountsWith(elements, extra, i, i);
      SitsAtIff(counts, i, index);
      assert AreCounts(elements, counts);
    }
  }

  // ---------- The candidates ----------

  /** The analysis' candidates at an index, by element. */
  predicate IsCandidate(elements: seq<Element>, i: nat, index: nat) {
    var prefix := Graph.PrefixLength(elements);
    i < |elements| && if index < prefix then i == index else i >= prefix
  }

  lemma CandidatesByElement(g: Graph, t: TypeId, index: nat, typ: TypeId)
    requires g.Has(t) && g.ElementTypes(t).Some?
    ensures typ in g.ElementCandidates(t, index)
            <==> exists i: nat :: IsCandidate(ElementsOf(g, t), i, index) && ElementsOf(g, t)[i].typ == typ
  {
    var elements, prefix := ElementsOf(g, t), g.FixedPrefixLength(t);
    var types := g.ElementTypes(t).value;
    if !g.Shape(t).TupleOf? {
      assert IsCandidate(elements, 0, index) && types[..1] == [elements[0].typ];
    } else if index < prefix {
      assert IsCandidate(elements, index, index);
    } else {
      LaterByElement(elements, types, prefix, typ);
      assert forall i: nat :: IsCandidate(elements, i, index) <==> prefix <= i < |elements|;
    }
  }

  lemma LaterByElement(elements: seq<Element>, types: seq<TypeId>, prefix: nat, typ: TypeId)
    requires |types| == |elements| && prefix <= |types| && forall i | 0 <= i < |types| :: types[i] == elements[i].typ
    ensures typ in types[prefix..] <==> exists i: nat :: prefix <= i < |elements| && elements[i].typ == typ
  {
    if typ in types[prefix..] {
      var k :| 0 <= k < |types[prefix..]| && types[prefix..][k] == typ;
      assert elements[prefix + k].typ == typ;
    }
    if i: nat :| prefix <= i < |elements| && elements[i].typ == typ {
      assert types[prefix..][i - prefix] == typ;
    }
  }

  /** Some run-time list of the type has a value of type `typ` at `index`. */
  ghost predicate TypeMaySit(g: Graph, t: TypeId, index: nat, typ: TypeId)
    requires g.Has(t) && g.ElementTypes(t).Some?
  {
    exists i: nat :: i < |ElementsOf(g, t)| && MaySit(ElementsOf(g, t), i, index) && ElementsOf(g, t)[i].typ == typ
  }

  /** No run-time value is missed: whatever can stand at an index is a candidate for it. */
  lemma CandidatesCoverLists(g: Graph, t: TypeId, index: nat, typ: TypeId)
    requires g.Has(t) && g.ElementTypes(t).Some? && TypeMaySit(g, t, index, typ)
    ensures typ in g.ElementCandidates(t, index)
  {
    var elements := ElementsOf(g, t);
    var i: nat :| i < |elements| && MaySit(elements, i, index) && elements[i].typ == typ;
    SittingIsCandidate(elements, i, index);
    CandidatesByElement(g, t, index, typ);
  }

  lemma SittingIsCandidate(elements: seq<Element>, i: nat, index: nat)
    requires i < |elements| && MaySit(elements, i, index)
    ensures IsCandidate(elements, i, index)
  {
    MaySitIff(elements, i, index);
    FixedBeforeFacts(elements, i);
  }

  /** A candidate that cannot stand there is one whose fixed predecessors do not fit before the index. */
  lemma CandidateMaySitIff(elements: seq<Element>, i: nat, index: nat)
    requires IsCandidate(elements, i, index)
    ensures MaySit(elements, i, index) <==> index >= FixedBefore(elements, i)
  {
    MaySitIff(elements, i, index);
    FixedBeforeFacts(elements, i);
  }

  ghost predicate EveryCandidateMaySit(elements: seq<Element>) {
    forall i: nat, index: nat | IsCandidate(elements, i, index) :: MaySit(elements, i, index)
  }

  /** At most one element after the prefix is fixed, and it is the last. */
  predicate FixedOnlyLast(elements: seq<Element>) {
    forall i | Graph.PrefixLength(elements) <= i < |elements| - 1 :: elements[i].flag.Variable?
  }

  lemma {:induction false} FixedBeforeLater(elements: seq<Element>, i: nat)
    requires FixedOnlyLast(elements) && Graph.PrefixLength(elements) <= i < |elements|
    ensures FixedBefore(elements, i) == Graph.PrefixLength(elements)
  {
    if i == Graph.PrefixLength(elements) {
      FixedBeforeFacts(elements, i);
    } else {
      FixedBeforeLater(elements, i - 1);
    }
  }

  /**
   * The candidates are exact at every index if and only if no fixed element but the last
   * follows the first variable one.
   */
  lemma CandidatesExactIff(elements: seq<Element>)
    ensures EveryCandidateMaySit(elements) <==> FixedOnlyLast(elements)
  {
    var prefix := Graph.PrefixLength(elements);
    if EveryCandidateMaySit(elements) {
      forall i | prefix <= i < |elements| - 1
        ensures elements[i].flag.Variable?
      {
        assert IsCandidate(elements, i + 1, prefix);
        CandidateMaySitIff(elements, i + 1, prefix);
        FixedBeforeFacts(elements, i);
      }
    }
    if FixedOnlyLast(elements) {
      forall i: nat, index: nat | IsCandidate(elements, i, index)
        ensures MaySit(elements, i, index)
      {
        CandidateMaySitIff(elements, i, index);
        if index < prefix {
          FixedBeforeFacts(elements, i);
        } else {
          FixedBeforeLater(elements, i);
        }
      }
    }
  }

  /** In `[...A[], B, C]` the last element is a candidate for index 0 and never stands there. */
  lemma TrailingElementIsEarlyCandidate(a: TypeId, b: TypeId, c: TypeId)
    ensures
      var elements := [Element(a, Variable), Element(b, Required), Element(c, Required)];
      IsCandidate(elements, 2, 0) && !MaySit(elements, 2, 0) && MaySit(elements, 2, 1)
  {
    var elements := [Element(a, Variable), Element(b, Required), Element(c, Required)];
    MaySitIff(elements, 2, 0);
    MaySitIff(elements, 2, 1);
    assert FixedBefore(elements, 1) == 0 && FixedBefore(elements, 2) == 1;
  }
}
