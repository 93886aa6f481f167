/**
 The XML response parser of the recommender: the two `parseURI` overloads.

 The SAX pass that walks a SPARQL Query Results XML document and collects the
 text of every `<uri>` binding is not modelled; a document is given here by the
 sequence of `<uri>` texts that pass sees, in document order, and whether the
 document parsed to its end.
 */
module XmlParser {

  import opened Options

  /** A query-result document as the SAX pass sees it: the `<uri>` texts met
      in document order, and whether the parse reached the end without error
      (when it did not, `uris` holds the texts seen before the error). */
  datatype Document = Document(uris: seq<string>, wellFormed: bool)

  /** How a `parseURI` call ended. */
  datatype Status =
    | Completed    // the document was parsed (and, in count mode, counted)
    | Warned       // container or document was null: a warning is logged, nothing parsed
    | ParseFailed  // the SAX parser threw; the exception leaves the call

  /** The status of a call together with the caller's container as it is
      after the call (`None` when the caller passed `null`). */
  datatype Call<C> = Call(status: Status, container: Option<C>)

  /** An occurrence tally: URI to number of occurrences. */
  type Tally = map<string, nat>

  /** The count a tally holds for `u`, zero when `u` is not a key. */
  function Count(m: Tally, u: string): nat
  {
    if u in m then m[u] else 0
  }

  /** One step of the counting loop: increment the entry for `u`, or create
      it with value 1. */
  function Bump(m: Tally, u: string): (r: Tally)
    ensures r.Keys == m.Keys + {u}
    ensures u !in m ==> r[u] == 1
    ensures forall v :: v != u ==> Count(r, v) == Count(m, v)
  {
    if u in m then m[u := m[u] + 1] else m[u := 1]
  }

  /** The set of distinct URIs in an extracted list. */
  function Distinct(xs: seq<string>): set<string>
  {
    set u | u in xs
  }

  /** Folds the extracted URI list into the tally, left to right. */
  function AddAll(m: Tally, xs: seq<string>): (r: Tally)
    ensures forall u {:trigger Count(r, u)} :: Count(r, u) == Count(m, u) + multiset(xs)[u]
    ensures r.Keys == m.Keys + Distinct(xs)
    decreases |xs|
  {
    if |xs| == 0 then m
    else
      assert xs == [xs[0]] + xs[1..];
      AddAll(Bump(m, xs[0]), xs[1..])
  }

  /** `parseURI(String, Map<String,Integer>)`: count-mode parsing into a
      caller-owned tally. */
  function ParseUriCount(xml: Option<Document>, tally: Option<Tally>): (r: Call<Tally>)
    ensures (xml.None? || tally.None?) ==> r == Call(Warned, tally)
    ensures xml.Some? && tally.Some? && !xml.value.wellFormed ==> r == Call(ParseFailed, tally)
    ensures xml.Some? && tally.Some? && xml.value.wellFormed ==>
              && r.status == Completed
              && r.container.Some?
              && r.container.value.Keys == tally.value.Keys + Distinct(xml.value.uris)
              && forall u {:trigger Count(r.container.value, u)} ::
                   Count(r.container.value, u) == Count(tally.value, u) + multiset(xml.value.uris)[u]
  {
    if tally.Some? && xml.Some? then
      if xml.value.wellFormed then Call(Completed, Some(AddAll(tally.value, xml.value.uris)))
      else Call(ParseFailed, tally)
    else
      Call(Warned, tally)
  }

  /** `parseURI(String, Set<String>)`: set-mode parsing into a caller-owned set. */
  function ParseUriSet(xml: Option<Document>, terms: Option<set<string>>): (r: Call<set<string>>)
    ensures (xml.None? || terms.None?) ==> r == Call(Warned, terms)
    ensures xml.Some? && terms.Some? ==>
              && r.status == (if xml.value.wellFormed then Completed else ParseFailed)
              && r.container.Some?
              && r.container.value == terms.value + Distinct(xml.value.uris)
  {
    if terms.Some? && xml.Some? then
      Call(if xml.value.wellFormed then Completed else ParseFailed,
           Some(terms.value + Distinct(xml.value.uris)))
    else
      Call(Warned, terms)
  }

  /** The two overloads agree: set mode on a tally's key set gives the key
      set that count mode gives on the tally, and either both warn or
      neither does. */
  lemma SetModeIsCountModeKeys(xml: Option<Document>, tally: Option<Tally>)
    ensures var keys := if tally.Some? then Some(tally.value.Keys) else None;
            var bySet := ParseUriSet(xml, keys);
            var byCount := ParseUriCount(xml, tally);
            && (bySet.status == Warned <==> byCount.status == Warned)
            && (xml.Some? && tally.Some? && xml.value.wellFormed ==>
                  bySet.container == Some(byCount.container.value.Keys))
  {
  }

  /** Keys not in the extracted list keep their value; no key is removed. */
  lemma AddAllFrame(m: Tally, xs: seq<string>)
    ensures forall u :: u in m && u !in xs ==> u in AddAll(m, xs) && AddAll(m, xs)[u] == m[u]
    ensures m.Keys <= AddAll(m, xs).Keys
  {
    var r := AddAll(m, xs);
    forall u | u in m && u !in xs
      ensures u in r && r[u] == m[u]
    {
      assert Count(r, u) == Count(m, u) + multiset(xs)[u];
    }
  }

  /** Positive counts stay positive, and a key absent before holds exactly
      its number of occurrences, which is at least one. */
  lemma AddAllPositive(m: Tally, xs: seq<string>)
    requires forall u :: u in m ==> m[u] >= 1
    ensures forall u :: u in AddAll(m, xs) ==> AddAll(m, xs)[u] >= 1
    ensures forall u :: u in xs && u !in m ==> AddAll(m, xs)[u] == multiset(xs)[u] >= 1
  {
    var r := AddAll(m, xs);
    forall u | u in r
      ensures r[u] >= 1
    {
      assert Count(r, u) == Count(m, u) + multiset(xs)[u];
      if u !in m {
        assert u in xs;
        assert multiset(xs)[u] > 0;
      }
    }
    forall u | u in xs && u !in m
      ensures r[u] == multiset(xs)[u] >= 1
    {
      assert Count(r, u) == Count(m, u) + multiset(xs)[u];
      assert multiset(xs)[u] > 0;
    }
  }

  /** Two tallies with the same keys and the same counts are equal. */
  lemma TallyExtensional(a: Tally, b: Tally)
    requires a.Keys == b.Keys
    requires forall u :: Count(a, u) == Count(b, u)
    ensures a == b
  {
    forall u | u in a
      ensures a[u] == b[u]
    {
      assert Count(a, u) == Count(b, u);
    }
  }

  /** The tally depends only on the multiset of extracted URIs. */
  lemma {:induction false} AddAllMultiset(m: Tally, xs: seq<string>, ys: seq<string>)
    requires multiset(xs) == multiset(ys)
    ensures AddAll(m, xs) == AddAll(m, ys)
  {
    assert Distinct(xs) == Distinct(ys) by {
      forall u
        ensures u in xs <==> u in ys
      {
        assert u in xs <==> u in multiset(xs);
        assert u in ys <==> u in multiset(ys);
      }
    }
    TallyExtensional(AddAll(m, xs), AddAll(m, ys));
  }

  /** Cumulative law: counting A into a tally and then B is counting A ++ B. */
  lemma {:induction false} AddAllCumulative(m: Tally, a: seq<string>, b: seq<string>)
    ensures AddAll(AddAll(m, a), b) == AddAll(m, a + b)
    decreases |a|
  {
    if |a| > 0 {
      assert (a + b)[1..] == a[1..] + b;
      assert (a + b)[0] == a[0];
      AddAllCumulative(Bump(m, a[0]), a[1..], b);
    } else {
      assert a + b == b;
    }
  }

  /** Repeated calls on one tally do not depend on the order of the documents. */
  lemma AddAllOrderIndependent(m: Tally, a: seq<string>, b: seq<string>)
    ensures AddAll(AddAll(m, a), b) == AddAll(AddAll(m, b), a)
  {
    AddAllCumulative(m, a, b);
    AddAllCumulative(m, b, a);
    AddAllMultiset(m, a + b, b + a);
  }

  /** Two count-mode calls on one tally accumulate the two documents. */
  lemma ParseUriCountCumulative(t: Tally, d1: Document, d2: Document)
    requires d1.wellFormed && d2.wellFormed
    ensures var first := ParseUriCount(Some(d1), Some(t));
            ParseUriCount(Some(d2), first.container)
              == Call(Completed, Some(AddAll(t, d1.uris + d2.uris)))
  {
    AddAllCumulative(t, d1.uris, d2.uris);
  }

  /** Counting {A, A, B} and then {A, C} into a fresh tally gives A:3, B:1,
      C:1, for any three distinct URIs. */
  lemma CumulativeExample(a: string, b: string, c: string)
    requires a != b && b != c && a != c
    ensures AddAll(AddAll(map[], [a, a, b]), [a, c]) == map[a := 3, b := 1, c := 1]
  {
    var first := AddAll(map[], [a, a, b]);
    var r := AddAll(first, [a, c]);
    var expected := map[a := 3, b := 1, c := 1];
    assert Distinct([a, a, b]) == {a, b};
    assert Distinct([a, c]) == {a, c};
    assert r.Keys == expected.Keys;
    assert multiset([a, a, b]) == multiset{a, a, b};
    assert multiset([a, c]) == multiset{a, c};
    forall u
      ensures Count(r, u) == Count(expected, u)
    {
      assert Count(first, u) == multiset([a, a, b])[u];
      assert Count(r, u) == Count(first, u) + multiset([a, c])[u];
    }
    TallyExtensional(r, expected);
  }

  // ---- Sum of all counts ----

  /** Some key of a non-empty tally. */
  ghost function AnyKey(m: Tally): (k: string)
    requires |m| > 0
    ensures k in m
  {
    assert m.Keys != {};
    var k :| k in m; k
  }

  /** The sum of all counts of a tally. */
  ghost function Total(m: Tally): nat
    decreases |m|
  {
    if |m| == 0 then 0 else var k := AnyKey(m); m[k] + Total(m - {k})
  }

  /** The sum can be split at any key, not only the one `Total` picks. */
  lemma {:induction false} TotalSplit(m: Tally, k: string)
    requires k in m
    ensures Total(m) == m[k] + Total(m - {k})
    decreases |m|
  {
    var j := AnyKey(m);
    if j != k {
      assert (m - {j}) - {k} == (m - {k}) - {j};
      TotalSplit(m - {j}, k);
      TotalSplit(m - {k}, j);
    }
  }

  /** Overwriting the count of one key changes the sum by the difference. */
  lemma TotalUpdate(m: Tally, u: string, v: nat)
    ensures Total(m[u := v]) == v + Total(m - {u})
  {
    var r := m[u := v];
    TotalSplit(r, u);
    assert r - {u} == m - {u};
  }

  /** One counting step adds exactly one to the sum. */
  lemma TotalBump(m: Tally, u: string)
    ensures Total(Bump(m, u)) == Total(m) + 1
  {
    if u in m {
      assert Bump(m, u) == m[u := m[u] + 1];
      TotalUpdate(m, u, m[u] + 1);
      TotalSplit(m, u);
    } else {
      TotalFresh(m, u);
    }
  }

  /** Adding a fresh key with count one adds one to the sum. */
  lemma TotalFresh(m: Tally, u: string)
    requires u !in m
    ensures Total(Bump(m, u)) == Total(m) + 1
  {
    assert Bump(m, u) == m[u := 1];
    TotalUpdate(m, u, 1);
    assert (m - {u}).Keys == m.Keys;
    assert m - {u} == m;
  }

  /** The sum of all counts grows by exactly the length of the extracted list. */
  lemma {:induction false} TotalAddAll(m: Tally, xs: seq<string>)
    ensures Total(AddAll(m, xs)) == Total(m) + |xs|
    decreases |xs|
  {
    if |xs| > 0 {
      TotalBump(m, xs[0]);
      TotalAddAll(Bump(m, xs[0]), xs[1..]);
    }
  }
}
