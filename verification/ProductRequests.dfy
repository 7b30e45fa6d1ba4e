/**
 * What a product request key stands for (`productRequestPayload` in
 * `src/data-access/biochar-product-create.ts`). Fingerprints are taken to be injective, so
 * payloads are compared themselves.
 */
module ProductRequests {
  import opened Outcomes
  import opened Sorting

  type Id = string

  /** The facts an operator enters per ingredient. */
  datatype Facts = Facts(formulationLine: Option<Id>, bin: Option<Id>, massKg: Option<real>, moisture: Option<real>)

  /** A recipe line as submitted; `catalog` holds the names and ratios read at write time. */
  datatype Line = Line(facts: Facts, catalog: string)

  /** `header` stands for every field but the generated code and the composition. */
  datatype Request = Request(header: string, code: string, lines: seq<Line>)

  datatype Payload = Payload(header: string, ingredients: seq<Facts>)

  function FactsOf(lines: seq<Line>): seq<Facts> {
    seq(|lines|, i requires 0 <= i < |lines| => lines[i].facts)
  }

  /** `String(id)`: a missing identifier sorts as "null". */
  function SortKey(): Facts -> string {
    (facts: Facts) => if facts.formulationLine.Some? then facts.formulationLine.value else "null"
  }

  function PayloadOf(request: Request, le: (string, string) -> bool): Payload {
    Payload(request.header, SortBy(FactsOf(request.lines), SortKey(), le))
  }

  /** No two lines of one identifier differ in what the operator entered. */
  ghost predicate DistinctLines(lines: seq<Line>) {
    KeysTellApart(FactsOf(lines), SortKey())
  }

  function NameOf(line: Line): string {
    match line.facts.formulationLine
    case None => "null"
    case Some(name) => name
  }

  /** Lines are told apart by their recipe line alone; one without any stands as "null". */
  lemma DistinctLinesIff(lines: seq<Line>)
    ensures DistinctLines(lines)
            <==> forall i, j | 0 <= i < |lines| && 0 <= j < |lines| ::
                   NameOf(lines[i]) == NameOf(lines[j]) ==> lines[i].facts == lines[j].facts
  {
    var facts, key := FactsOf(lines), SortKey();
    forall i | 0 <= i < |lines|
      ensures lines[i].facts in facts && key(lines[i].facts) == NameOf(lines[i])
    {
      assert facts[i] == lines[i].facts;
    }
    forall a, b | a in facts && b in facts && key(a) == key(b) && a != b
      ensures exists i, j ::
        0 <= i < |lines| && 0 <= j < |lines| && NameOf(lines[i]) == NameOf(lines[j]) && lines[i].facts != lines[j].facts
    {
      var i :| 0 <= i < |facts| && facts[i] == a;
      var j :| 0 <= j < |facts| && facts[j] == b;
      assert NameOf(lines[i]) == NameOf(lines[j]) && lines[i].facts != lines[j].facts;
    }
  }

  ghost predicate SameLines(a: seq<Line>, b: seq<Line>) {
    multiset(FactsOf(a)) == multiset(FactsOf(b))
  }

  /**
   * Two requests with distinct recipe lines have one payload exactly when they agree on the
   * header and, in any order, on the facts of every line: retries replay, and any changed
   * operator fact shows. The generated code and the catalog data never show.
   */
  lemma SamePayloadIff(a: Request, b: Request, le: (string, string) -> bool)
    requires TotalOrder(le) && DistinctLines(a.lines)
    ensures PayloadOf(a, le) == PayloadOf(b, le) <==> a.header == b.header && SameLines(a.lines, b.lines)
  {
    SortIsNormalForm(FactsOf(a.lines), FactsOf(b.lines), SortKey(), le);
  }

  /** Even with repeated lines, one payload means the same operator facts. */
  lemma PayloadShowsEveryFact(a: Request, b: Request, le: (string, string) -> bool)
    requires TotalOrder(le) && PayloadOf(a, le) == PayloadOf(b, le)
    ensures a.header == b.header && SameLines(a.lines, b.lines)
  {
    SortBySorts(FactsOf(a.lines), SortKey(), le);
    SortBySorts(FactsOf(b.lines), SortKey(), le);
  }

  function Plain(facts: seq<Facts>): seq<Line> {
    seq(|facts|, i requires 0 <= i < |facts| => Line(facts[i], ""))
  }

  /** The order of the lines never shows exactly when no two lines of one identifier differ. */
  lemma LineOrderHiddenIff(a: Request, le: (string, string) -> bool)
    requires TotalOrder(le)
    ensures
      (forall b: Request | b.header == a.header && SameLines(a.lines, b.lines) :: PayloadOf(b, le) == PayloadOf(a, le))
      <==> DistinctLines(a.lines)
  {
    var facts := FactsOf(a.lines);
    OrderIndependentIff(facts, SortKey(), le);
    if !OrderIndependent(facts, SortKey(), le) {
      var p: seq<Facts> :| multiset(p) == multiset(facts) && SortBy(p, SortKey(), le) != SortBy(facts, SortKey(), le);
      var b := Request(a.header, "", Plain(p));
      assert FactsOf(b.lines) == p;
      assert PayloadOf(b, le) != PayloadOf(a, le);
    }
  }
}
