/** Choosing one price per model from the providers of models.dev
    (controller/ratio_sync.go, lines 838-944).  Costs are modelled as reals. */
module CheapestCandidate {
  import opened Options
  import opened PriceDifferences

  datatype Cost = Cost(input: Option<real>, output: Option<real>, cacheRead: Option<real>)

  datatype Candidate = Candidate(provider: string, input: real, output: Option<real>, cacheRead: Option<real>)

  /** `buildModelsDevCandidate` */
  function Build(provider: string, cost: Cost): Option<Candidate> {
    if cost.input.None? || cost.input.value < 0.0 then None
    else if cost.output.Some? && cost.output.value < 0.0 then None
    else if cost.input.value == 0.0 && cost.output.Some? && cost.output.value > 0.0 then None
    else
      Some(Candidate(provider, cost.input.value, cost.output,
                     if cost.cacheRead.Some? && cost.cacheRead.value >= 0.0 then cost.cacheRead else None))
  }

  /** Go's order of strings. */
  predicate Less(a: string, b: string) {
    if b == "" then false
    else if a == "" then true
    else a[0] < b[0] || (a[0] == b[0] && Less(a[1..], b[1..]))
  }

  /** `shouldReplaceModelsDevCandidate` */
  predicate ShouldReplace(current: Candidate, next: Candidate) {
    var currentNonZero, nextNonZero := current.input > 0.0, next.input > 0.0;
    if currentNonZero != nextNonZero then nextNonZero
    else if nextNonZero && !NearlyEqual(next.input, current.input) then next.input < current.input
    else Less(next.provider, current.provider)
  }

  /** By provider and model. */
  type Offers = map<string, map<string, Cost>>

  /** The candidate that a provider has for a model. */
  function Offer(data: Offers, provider: string, model: string): Option<Candidate> {
    if provider in data && model in data[provider] then Build(provider, data[provider][model]) else None
  }

  function Better(current: Option<Candidate>, next: Option<Candidate>): Option<Candidate> {
    if next.None? then current
    else if current.None? || ShouldReplace(current.value, next.value) then next
    else current
  }

  /** The candidate selected for a model when the providers are visited in the given order. */
  function Pick(data: Offers, order: seq<string>, model: string): Option<Candidate> {
    if order == [] then None
    else Better(Pick(data, order[..|order| - 1], model), Offer(data, order[|order| - 1], model))
  }

  ghost predicate Ascending(xs: seq<string>) {
    forall i, j | 0 <= i < j < |xs| :: Less(xs[i], xs[j])
  }

  function SetOf(xs: seq<string>): set<string> {
    set x | x in xs
  }
}

module CheapestCandidateProofs {
  import opened Options
  import opened PriceDifferences
  import opened CheapestCandidate

  // ---------- The order of strings ----------

  lemma {:induction false} LessTransitive(a: string, b: string, c: string)
    requires Less(a, b) && Less(b, c)
    ensures Less(a, c)
  {
    if a != "" && a[0] == b[0] == c[0] { LessTransitive(a[1..], b[1..], c[1..]); }
  }

  lemma {:induction false} LessTotal(a: string, b: string)
    ensures Less(a, b) || a == b || Less(b, a)
  {
    if a != "" && b != "" && a[0] == b[0] {
      LessTotal(a[1..], b[1..]);
      assert a == [a[0]] + a[1..] && b == [b[0]] + b[1..];
    }
  }

  lemma {:induction false} LessIrreflexive(a: string)
    ensures !Less(a, a)
  {
    if a != "" { LessIrreflexive(a[1..]); }
  }

  lemma LessAsymmetric(a: string, b: string)
    requires Less(a, b)
    ensures !Less(b, a)
  {
    if Less(b, a) {
      LessTransitive(a, b, a);
      LessIrreflexive(a);
    }
  }

  /** The sorted list of a set of names is unique, so the order in which a map is visited before
      sorting does not matter. */
  lemma {:induction false} SortedIsUnique(xs: seq<string>, ys: seq<string>)
    requires Ascending(xs) && Ascending(ys) && SetOf(xs) == SetOf(ys)
    ensures xs == ys
  {
    if xs == [] {
      assert forall k | 0 <= k < |ys| :: ys[k] in SetOf(ys);
    } else {
      assert xs[0] in SetOf(xs);
      var i :| 0 <= i < |ys| && ys[i] == xs[0];
      assert ys[0] in SetOf(ys);
      var j :| 0 <= j < |xs| && xs[j] == ys[0];
      if xs[0] != ys[0] { LessAsymmetric(xs[0], ys[0]); }
      TailSet(xs);
      TailSet(ys);
      SortedIsUnique(xs[1..], ys[1..]);
    }
  }

  lemma TailSet(xs: seq<string>)
    requires Ascending(xs) && xs != []
    ensures SetOf(xs[1..]) == SetOf(xs) - {xs[0]} && Ascending(xs[1..])
  {
    LessIrreflexive(xs[0]);
    forall x | x in SetOf(xs) - {xs[0]} ensures x in SetOf(xs[1..]) {
      var i :| 0 <= i < |xs| && xs[i] == x;
      assert xs[1..][i - 1] == x;
    }
  }

  // ---------- The selection ----------

  /** The offer has no price, or none that undercuts `c` by as much as epsilon. */
  predicate Bears(c: Candidate, offer: Option<Candidate>) {
    offer.Some? && offer.value.input > 0.0 ==> c.input > 0.0 && c.input - offer.value.input < EPSILON
  }

  /** `c` comes from one of the first providers, and no non-zero price among them undercuts it by
      as much as epsilon. */
  ghost predicate Best(data: Offers, order: seq<string>, model: string, c: Option<Candidate>) {
    && (c.None? ==> forall k | 0 <= k < |order| :: Offer(data, order[k], model).None?)
    && (c.Some? ==>
          && (exists k :: 0 <= k < |order| && Offer(data, order[k], model) == c && c.value.provider == order[k])
          && forall k | 0 <= k < |order| :: Bears(c.value, Offer(data, order[k], model)))
  }

  /** Unless the tie-break replaces the current candidate, the better of two bears what the current one
      did, and both. */
  lemma BetterBears(current: Candidate, next: Option<Candidate>, offer: Option<Candidate>)
    requires Bears(current, offer) && (next.Some? ==> !Less(next.value.provider, current.provider))
    ensures var c := Better(Some(current), next); c.Some? && Bears(c.value, offer) && Bears(c.value, next)
  {
  }

  /** Among ascending providers the tie-break never replaces, so the current price only ever drops;
      this is why the comparison with epsilon, which is not transitive, does no harm. */
  lemma {:induction false} PickIsBest(data: Offers, order: seq<string>, model: string)
    requires Ascending(order)
    ensures Best(data, order, model, Pick(data, order, model))
  {
    if order == [] {
    } else {
      var n := |order| - 1;
      var rest := order[..n];
      PickIsBest(data, rest, model);
      var before, next := Pick(data, rest, model), Offer(data, order[n], model);
      assert forall k | 0 <= k < n :: rest[k] == order[k];
      if before.Some? {
        var k :| 0 <= k < |rest| && Offer(data, rest[k], model) == before && before.value.provider == rest[k];
        LessAsymmetric(order[k], order[n]);
        assert Offer(data, order[k], model) == before;
        forall m | 0 <= m < n
          ensures Bears(Pick(data, order, model).value, Offer(data, order[m], model))
          ensures Bears(Pick(data, order, model).value, next)
        {
          BetterBears(before.value, next, Offer(data, rest[m], model));
        }
      }
    }
  }

  /** An offer is valid if it has an input price, no price for input or output is negative, and the
      output of free input is free.  All prices are taken over, except a negative one for cached input. */
  lemma ValidOffers(provider: string, cost: Cost)
    ensures Build(provider, cost).Some?
       <==> && cost.input.Some? && cost.input.value >= 0.0
            && (cost.output.Some? ==> cost.output.value >= 0.0)
            && (cost.output.Some? && cost.input.value == 0.0 ==> cost.output.value == 0.0)
    ensures Build(provider, cost).Some? ==>
              var c := Build(provider, cost).value;
              && c.provider == provider && Some(c.input) == cost.input && c.output == cost.output
              && (c.cacheRead.None? <==> cost.cacheRead.None? || cost.cacheRead.value < 0.0)
              && c.cacheRead in {None, cost.cacheRead}
  {
  }

  /** The cheapest non-zero price, up to epsilon: over the sorted providers, a model gets a candidate
      if and only if some provider has a valid one; the candidate is one of them; it has a
      non-zero price whenever any does, and then exceeds no non-zero price by epsilon or more. */
  lemma SelectsCheapest(data: Offers, order: seq<string>, model: string, provider: string)
    requires Ascending(order) && SetOf(order) == data.Keys
    ensures Pick(data, order, model).Some? <==> exists p :: p in data && Offer(data, p, model).Some?
    ensures var c := Pick(data, order, model);
            && (c.Some? ==> c.value.provider in data && Offer(data, c.value.provider, model) == c)
            && (provider in data && Offer(data, provider, model).Some? ==>
                  c.Some? && Bears(c.value, Offer(data, provider, model)))
  {
    PickIsBest(data, order, model);
    forall p | p in data ensures exists k :: 0 <= k < |order| && order[k] == p {
      assert p in SetOf(order);
    }
    forall k | 0 <= k < |order| ensures order[k] in data {
      assert order[k] in SetOf(order);
    }
    if p :| p in data && Offer(data, p, model).Some? {
      var k :| 0 <= k < |order| && order[k] == p;
    }
  }

  /** Visited in another order, the same comparison drifts: three prices, each within epsilon of the
      next, end with one that exceeds the cheapest by more than epsilon. */
  lemma UnsortedDrifts()
    ensures var data: Offers := map["c" := map["m" := Cost(Some(1.0), None, None)],
                                    "b" := map["m" := Cost(Some(1.0000000006), None, None)],
                                    "a" := map["m" := Cost(Some(1.0000000012), None, None)]];
            Pick(data, ["c", "b", "a"], "m") == Some(Candidate("a", 1.0000000012, None, None))
            && 1.0000000012 - 1.0 > EPSILON
  {
    var data: Offers := map["c" := map["m" := Cost(Some(1.0), None, None)],
                            "b" := map["m" := Cost(Some(1.0000000006), None, None)],
                            "a" := map["m" := Cost(Some(1.0000000012), None, None)]];
    assert ["c", "b", "a"][..2] == ["c", "b"] && ["c", "b"][..1] == ["c"] && ["c"][..0] == [];
    assert Pick(data, ["c"], "m") == Some(Candidate("c", 1.0, None, None));
    assert Less("b", "c") && Less("a", "b");
    assert Pick(data, ["c", "b"], "m") == Some(Candidate("b", 1.0000000006, None, None));
  }
}

/** The selection loop of `convertModelsDevToRatioData`. */
module CheapestCandidateCode {
  import opened Options
  import opened CheapestCandidate
  import Proofs = CheapestCandidateProofs

  lemma InsertAscending(xs: seq<string>, i: nat, x: string)
    requires Ascending(xs) && i <= |xs| && x !in xs
    requires forall k | 0 <= k < i :: Less(xs[k], x)
    requires i < |xs| ==> Less(x, xs[i])
    ensures Ascending(xs[..i] + [x] + xs[i..])
    ensures SetOf(xs[..i] + [x] + xs[i..]) == SetOf(xs) + {x}
  {
    var ys := xs[..i] + [x] + xs[i..];
    forall k | i <= k < |xs| ensures Less(x, xs[k]) {
      if k > i { Proofs.LessTransitive(x, xs[i], xs[k]); }
    }
    assert xs == xs[..i] + xs[i..];
  }

  /** The keys of a map in ascending order: `sort.Strings` of the visited keys. */
  method SortedNames(names: set<string>) returns (sorted: seq<string>)
    ensures Ascending(sorted) && SetOf(sorted) == names
  {
    sorted := [];
    var todo := names;
    while todo != {}
      invariant todo <= names && Ascending(sorted) && SetOf(sorted) == names - todo
    {
      var x :| x in todo;
      assert x !in SetOf(sorted);
      var i := 0;
      while i < |sorted| && Less(sorted[i], x)
        invariant 0 <= i <= |sorted| && forall k | 0 <= k < i :: Less(sorted[k], x)
      {
        i := i + 1;
      }
      if i < |sorted| {
        assert sorted[i] in SetOf(sorted);
        Proofs.LessTotal(x, sorted[i]);
      }
      InsertAscending(sorted, i, x);
      sorted := sorted[..i] + [x] + sorted[i..];
      todo := todo - {x};
    }
  }

  /** One provider: every model it offers replaces the current candidate or does not. */
  method SelectFrom(data: Offers, provider: string, selected: map<string, Candidate>)
    returns (r: map<string, Candidate>)
    requires provider in data
    ensures forall model :: Lookup(r, model) == Better(Lookup(selected, model), Offer(data, provider, model))
  {
    r := selected;
    var names := SortedNames(data[provider].Keys);
    assert forall x :: x in names <==> x in SetOf(names);
    assert forall i, j | 0 <= i < j < |names| :: names[i] != names[j] by {
      forall i, j | 0 <= i < j < |names| ensures names[i] != names[j] { Proofs.LessIrreflexive(names[i]); }
    }
    for i := 0 to |names|
      invariant forall model :: Lookup(r, model) ==
                  if model in names[..i] then Better(Lookup(selected, model), Offer(data, provider, model))
                  else Lookup(selected, model)
    {
      var model := names[i];
      assert names[..i + 1] == names[..i] + [model];
      assert model !in names[..i];
      assert Lookup(r, model) == Lookup(selected, model);
      var candidate := Build(provider, data[provider][model]);
      if candidate.Some? {
        if model !in r || ShouldReplace(r[model], candidate.value) {
          r := r[model := candidate.value];
        }
      }
    }
    assert names[..|names|] == names;
  }

  /** The result is that of `Pick` over the sorted providers, whatever the order of the maps. */
  method SelectCandidates(data: Offers) returns (selected: map<string, Candidate>)
    ensures forall order, model | Ascending(order) && SetOf(order) == data.Keys ::
              Lookup(selected, model) == Pick(data, order, model)
  {
    selected := map[];
    var providers := SortedNames(data.Keys);
    for i := 0 to |providers|
      invariant forall model :: Lookup(selected, model) == Pick(data, providers[..i], model)
    {
      assert providers[i] in SetOf(providers);
      assert providers[..i + 1][..i] == providers[..i];
      selected := SelectFrom(data, providers[i], selected);
    }
    assert providers[..|providers|] == providers;
    forall order, model | Ascending(order) && SetOf(order) == data.Keys
      ensures Lookup(selected, model) == Pick(data, order, model)
    {
      Proofs.SortedIsUnique(order, providers);
    }
  }
}
