module UpstreamUpdateProofs {
  import opened Text
  import opened ModelNames
  import opened UpstreamUpdate

  // ---------- A detection ----------

  lemma DetectOnClean(env: Env, local: Names, ignored: Names)
    ensures var mine := Normalize(local);
            var (add, remove) := Detect(env, local, ignored);
            && add == Keep(Normalize(env.upstream), Wanted(env, mine, Normalize(ignored)))
            && remove == Keep(mine, Stale(env, mine))
            && Clean(add) && Clean(remove)
            && ToSet(add) == Wanted(env, mine, Normalize(ignored)) && ToSet(remove) == Stale(env, mine)
  {
    var mine := Normalize(local);
    var w, s := Wanted(env, mine, Normalize(ignored)), Stale(env, mine);
    NormalizeClean(env.upstream);
    NormalizeClean(local);
    KeepClean(Normalize(env.upstream), w);
    KeepClean(mine, s);
    NormalizeFixed(Keep(Normalize(env.upstream), w));
    NormalizeFixed(Keep(mine, s));
    KeepMember(Normalize(env.upstream), w);
    KeepMember(mine, s);
  }

  /** One of the names is `x`, up to surrounding space. */
  ghost predicate Lists(names: Names, x: string) {
    x != "" && exists y :: y in names && TrimSpace(y) == x
  }

  /** An entry of the ignore list that begins with "regex:" ignores what the rest matches, any other its
      own name. */
  ghost predicate IgnoredBy(env: Env, entry: string, x: string) {
    var e := TrimSpace(entry);
    if |e| >= 6 && e[..6] == "regex:" then env.re(TrimSpace(e[6..]), x) else e != "" && e == x
  }

  lemma IgnoresMeans(env: Env, ignored: Names, x: string)
    requires x != ""
    ensures Ignores(env, Normalize(ignored), x) <==> exists e :: e in ignored && IgnoredBy(env, e, x)
  {
    if Ignores(env, Normalize(ignored), x) {
      var e :| e in Normalize(ignored) && Hits(env, e, x);
      NormalizeMember(ignored, e);
      var y :| y in ignored && TrimSpace(y) == e;
      assert IgnoredBy(env, y, x);
    }
    if y :| y in ignored && IgnoredBy(env, y, x) {
      NormalizeMember(ignored, TrimSpace(y));
      assert Hits(env, TrimSpace(y), x);
    }
  }

  /** A detection finds what the upstream lists and the channel does not, unless it is a mapping target or
      ignored; and what the channel lists and the upstream does not, unless it is a mapping source. */
  lemma DetectExactly(env: Env, local: Names, ignored: Names, x: string)
    ensures x in Detect(env, local, ignored).0
       <==> && Lists(env.upstream, x) && !Lists(local, x) && x !in env.mapping.Values
            && !exists e :: e in ignored && IgnoredBy(env, e, x)
    ensures x in Detect(env, local, ignored).1
       <==> Lists(local, x) && !Lists(env.upstream, x) && x !in env.mapping.Keys
  {
    DetectOnClean(env, local, ignored);
    var (add, remove) := Detect(env, local, ignored);
    assert x in add <==> x in ToSet(add);
    assert x in remove <==> x in ToSet(remove);
    NormalizeMember(env.upstream, x);
    NormalizeMember(local, x);
    if x != "" { IgnoresMeans(env, ignored, x); }
  }

  // ---------- A selection applied to a fresh cache ----------

  lemma SelectionSets(env: Env, row: Row, sel: Selection)
    requires Fresh(env, row)
    ensures Clean(row.pendingAdd) && Clean(row.pendingRemove)
    ensures Clean(AddOf(row, sel)) && Clean(IgnoreOf(row, sel)) && Clean(RemoveOf(row, sel))
    ensures ToSet(AddOf(row, sel)) <= ToSet(row.pendingAdd) && ToSet(IgnoreOf(row, sel)) <= ToSet(row.pendingAdd)
    ensures ToSet(RemoveOf(row, sel)) <= ToSet(row.pendingRemove)
  {
    DetectOnClean(env, ModelsOf(row.models), row.ignored);
    NormalizeFixed(row.pendingAdd);
    NormalizeFixed(row.pendingRemove);
    IntersectOnClean(sel.add, row.pendingAdd);
    IntersectOnClean(sel.ignore, row.pendingAdd);
    IntersectOnClean(sel.remove, row.pendingRemove);
    SubtractOnClean(Intersect(sel.remove, row.pendingRemove), AddOf(row, sel));
  }

  /** On clean lists: drop what is removed and not added, append what is added and not there. */
  lemma ApplySelectedOnClean(o: Names, add: Names, remove: Names)
    requires Clean(o) && Clean(add) && Clean(remove)
    ensures ApplySelected(o, add, remove)
         == Keep(o, ToSet(o) - (ToSet(remove) - ToSet(add))) + Keep(add, ToSet(add) - ToSet(o))
  {
    var more := Keep(add, ToSet(add) - ToSet(o));
    NormalizeFixed(add);
    NormalizeFixed(remove);
    SubtractOnClean(remove, add);
    MergedOnClean(o, add);
    KeepMember(add, ToSet(add) - ToSet(o));
    SubtractAppended(o, more, Subtract(remove, add));
  }

  lemma SubtractAppended(o: Names, add: Names, remove: Names)
    requires Clean(o + add) && Clean(remove) && ToSet(remove) !! ToSet(add)
    ensures Subtract(o + add, remove) == Keep(o, ToSet(o) - ToSet(remove)) + add
  {
    SubtractOnClean(o + add, remove);
    var s := ToSet(o + add) - ToSet(remove);
    KeepConcat(o, add, s);
    KeepSame(o, s, ToSet(o) - ToSet(remove));
    KeepAll(add, s);
  }

  lemma SelectionApart(env: Env, row: Row, sel: Selection)
    requires Fresh(env, row)
    ensures Clean(Local(row))
    ensures ToSet(RemoveOf(row, sel)) !! ToSet(AddOf(row, sel)) && ToSet(AddOf(row, sel)) !! ToSet(Local(row))
  {
    SelectionSets(env, row, sel);
    DetectOnClean(env, ModelsOf(row.models), row.ignored);
    NormalizeClean(ModelsOf(row.models));
    assert ToSet(row.pendingAdd) !! ToSet(row.pendingRemove) && ToSet(row.pendingAdd) !! ToSet(Local(row));
  }

  /** The new models are the old ones without the removed, followed by the added. */
  lemma NextModelsShape(env: Env, row: Row, sel: Selection)
    requires Fresh(env, row)
    ensures NextModels(row, sel) == Keep(Local(row), ToSet(Local(row)) - ToSet(RemoveOf(row, sel))) + AddOf(row, sel)
    ensures Clean(NextModels(row, sel))
    ensures ToSet(NextModels(row, sel)) == (ToSet(Local(row)) - ToSet(RemoveOf(row, sel))) + ToSet(AddOf(row, sel))
  {
    var o, add, remove := Local(row), AddOf(row, sel), RemoveOf(row, sel);
    SelectionSets(env, row, sel);
    SelectionApart(env, row, sel);
    ApplySelectedOnClean(o, add, remove);
    assert ToSet(remove) - ToSet(add) == ToSet(remove);
    KeepAll(add, ToSet(add) - ToSet(o));
    KeptThenAdded(o, ToSet(o) - ToSet(remove), add);
  }

  lemma KeptThenAdded(o: Names, s: set<string>, add: Names)
    requires Clean(o) && Clean(add) && ToSet(add) !! ToSet(o)
    ensures Clean(Keep(o, s) + add) && ToSet(Keep(o, s) + add) == ToSet(o) * s + ToSet(add)
  {
    KeepClean(o, s);
    KeepMember(o, s);
    forall y | y in add ensures y !in Keep(o, s) {
      assert y in ToSet(add);
      KeepIn(o, s, y);
    }
    CleanConcat(Keep(o, s), add);
    assert ToSet(Keep(o, s) + add) == ToSet(Keep(o, s)) + ToSet(add);
  }

  ghost predicate CommaFree(xs: Names) {
    forall x | x in xs :: ',' !in x
  }

  lemma LocalCommaFree(text: string)
    ensures CommaFree(Normalize(ModelsOf(text)))
  {
    forall x | x in Normalize(ModelsOf(text)) ensures ',' !in x {
      NormalizeMember(ModelsOf(text), x);
      var y :| y in ModelsOf(text) && TrimSpace(y) == x;
      TrimShape(Space, y);
      SplitFree(Trim(Only(','), text), ',');
    }
  }

  // ---------- Models as text ----------

  /** The names between the commas of the given names. */
  function SplitAll(xs: Names): Names {
    if xs == [] then [] else Split(xs[0], ',') + SplitAll(xs[1..])
  }

  lemma {:induction false} SplitJoined(xs: Names)
    requires xs != []
    ensures Split(Join(xs, ','), ',') == SplitAll(xs)
  {
    if |xs| == 1 {
      assert SplitAll(xs[1..]) == [];
    } else {
      SplitJoined(xs[1..]);
      SplitConcat(xs[0], Join(xs[1..], ','), ',');
    }
  }

  lemma {:induction false} SplitAllConcat(xs: Names, ys: Names)
    ensures SplitAll(xs + ys) == SplitAll(xs) + SplitAll(ys)
  {
    if xs == [] {
      assert xs + ys == ys;
    } else {
      SplitAllConcat(xs[1..], ys);
      assert (xs + ys)[1..] == xs[1..] + ys && (xs + ys)[0] == xs[0];
      ConcatAssoc(Split(xs[0], ','), SplitAll(xs[1..]), SplitAll(ys));
    }
  }

  lemma {:induction false} SplitAllPlain(xs: Names)
    requires CommaFree(xs)
    ensures SplitAll(xs) == xs
  {
    if xs == [] {
    } else {
      SplitPlain(xs[0], ',');
      SplitAllPlain(xs[1..]);
    }
  }

  lemma {:induction false} NormalizeBlankFirst(xs: Names)
    ensures Normalize([""] + xs) == Normalize(xs)
  {
    if xs == [] {
      assert [""][..0] == [];
    } else {
      assert ([""] + xs)[..|xs|] == [""] + xs[..|xs| - 1];
      NormalizeBlankFirst(xs[..|xs| - 1]);
    }
  }

  lemma {:induction false} TrimmedLeft(s: string)
    ensures Normalize(Split(TrimLeft(Only(','), s), ',')) == Normalize(Split(s, ','))
  {
    if s != [] && s[0] == ',' {
      TrimmedLeft(s[1..]);
      NormalizeBlankFirst(Split(s[1..], ','));
    }
  }

  lemma NormalizeBlankLast(xs: Names)
    ensures Normalize(xs + [""]) == Normalize(xs)
  {
    assert (xs + [""])[..|xs|] == xs;
  }

  lemma {:induction false} TrimmedRight(s: string)
    ensures Normalize(Split(TrimRight(Only(','), s), ',')) == Normalize(Split(s, ','))
  {
    if s != [] && s[|s| - 1] == ',' {
      var r := s[..|s| - 1];
      TrimmedRight(r);
      assert s == r + [','] + "";
      SplitConcat(r, "", ',');
      NormalizeBlankLast(Split(r, ','));
    }
  }

  /** Clean names, stored as text, are read back as what stands between their commas. */
  lemma ReadModels(xs: Names)
    requires Clean(xs)
    ensures Normalize(ModelsOf(Join(xs, ','))) == Normalize(SplitAll(xs))
  {
    if xs == [] {
    } else {
      var s := Join(xs, ',');
      assert s != "";
      SplitJoined(xs);
      TrimmedLeft(s);
      TrimmedRight(TrimLeft(Only(','), s));
    }
  }

  /** What the added names are read back as. */
  function ReadAs(add: Names): Names {
    Normalize(SplitAll(add))
  }

  lemma {:induction false} NormalizeExtends(xs: Names, ys: Names)
    requires Clean(xs)
    ensures xs <= Normalize(xs + ys)
  {
    if ys == [] {
      assert xs + ys == xs;
      NormalizeFixed(xs);
    } else {
      assert (xs + ys)[..|xs + ys| - 1] == xs + ys[..|ys| - 1];
      NormalizeExtends(xs, ys[..|ys| - 1]);
    }
  }

  lemma NormalizeConcatMember(xs: Names, ys: Names, x: string)
    requires Clean(xs)
    ensures x in Normalize(xs + ys) <==> x in xs || x in Normalize(ys)
  {
    NormalizeMember(xs + ys, x);
    NormalizeMember(xs, x);
    NormalizeMember(ys, x);
    NormalizeFixed(xs);
    assert forall y :: y in xs + ys <==> y in xs || y in ys;
  }

  /** The old models that stay. */
  function StayOf(row: Row, sel: Selection): Names {
    Keep(Local(row), ToSet(Local(row)) - ToSet(RemoveOf(row, sel)))
  }

  lemma StayShape(env: Env, row: Row, sel: Selection)
    requires Fresh(env, row)
    ensures NextModels(row, sel) == StayOf(row, sel) + AddOf(row, sel)
    ensures Clean(StayOf(row, sel)) && CommaFree(StayOf(row, sel))
    ensures forall x :: x in StayOf(row, sel) <==> x in Local(row) && x !in RemoveOf(row, sel)
  {
    NextModelsShape(env, row, sel);
    SelectionApart(env, row, sel);
    var s := ToSet(Local(row)) - ToSet(RemoveOf(row, sel));
    KeepClean(Local(row), s);
    LocalCommaFree(row.models);
    forall x ensures x in StayOf(row, sel) <==> x in Local(row) && x !in RemoveOf(row, sel) {
      KeepIn(Local(row), s, x);
    }
  }

  /** The stored models are read back as the old ones that stay, followed by the names between the
      commas of the added ones. */
  lemma StoredModels(env: Env, row: Row, sel: Selection, now: int)
    requires Fresh(env, row)
    ensures var next := Local(Applied(row, sel, now));
            && next == Normalize(StayOf(row, sel) + SplitAll(AddOf(row, sel)))
            && StayOf(row, sel) <= next
            && (forall x :: x in next <==> x in StayOf(row, sel) || x in ReadAs(AddOf(row, sel)))
            && (CommaFree(AddOf(row, sel)) ==> next == NextModels(row, sel))
  {
    var stay, add := StayOf(row, sel), AddOf(row, sel);
    StayShape(env, row, sel);
    NextModelsShape(env, row, sel);
    SplitAllConcat(stay, add);
    SplitAllPlain(stay);
    ReadModels(stay + add);
    if stay + add == Local(row) {
      LocalCommaFree(row.models);
      SplitAllPlain(stay + add);
      NormalizeFixed(stay + add);
    }
    NormalizeExtends(stay, SplitAll(add));
    forall x ensures x in Normalize(stay + SplitAll(add)) <==> x in stay || x in ReadAs(add) {
      NormalizeConcatMember(stay, SplitAll(add), x);
    }
    if CommaFree(add) {
      SplitAllPlain(add);
      NormalizeFixed(stay + add);
    }
  }

  lemma NextIgnoredSet(env: Env, row: Row, sel: Selection)
    requires Fresh(env, row)
    ensures Clean(NextIgnored(row, sel))
    ensures ToSet(NextIgnored(row, sel))
       == ToSet(Normalize(row.ignored)) + ToSet(IgnoreOf(row, sel)) - ToSet(AddOf(row, sel))
  {
    SelectionSets(env, row, sel);
    var n, ign, add := Normalize(row.ignored), IgnoreOf(row, sel), AddOf(row, sel);
    NormalizeClean(row.ignored);
    NormalizeFixed(n);
    MergedOnClean(n, ign);
    assert Merged(row.ignored, ign) == Merged(n, ign);
    SubtractOnClean(Merged(n, ign), add);
    if add == [] { assert ToSet(add) == {}; }
  }

  lemma NormalizeBoth(xs: Names, ys: Names)
    requires Clean(xs) && Clean(ys)
    ensures ToSet(Normalize(xs + ys)) == ToSet(xs) + ToSet(ys)
  {
    forall y | y in xs + ys ensures TrimSpace(y) == y && y != "" {
      TrimFixed(Space, y);
    }
    forall x ensures x in Normalize(xs + ys) <==> x in xs + ys {
      NormalizeMember(xs + ys, x);
    }
  }

  /** The cached lists after the selection. */
  lemma RemainingShape(env: Env, row: Row, sel: Selection, now: int)
    requires Fresh(env, row)
    ensures var next := Applied(row, sel, now);
            && next.pendingAdd
               == Keep(row.pendingAdd, ToSet(row.pendingAdd) - ToSet(AddOf(row, sel)) - ToSet(IgnoreOf(row, sel)))
            && next.pendingRemove == Keep(row.pendingRemove, ToSet(row.pendingRemove) - ToSet(RemoveOf(row, sel)))
  {
    SelectionSets(env, row, sel);
    NormalizeFixed(row.pendingAdd);
    NormalizeFixed(row.pendingRemove);
    SubtractOnClean(row.pendingRemove, RemoveOf(row, sel));
    NormalizeBoth(AddOf(row, sel), IgnoreOf(row, sel));
    var s := ToSet(row.pendingAdd) - ToSet(Normalize(AddOf(row, sel) + IgnoreOf(row, sel)));
    assert s == ToSet(row.pendingAdd) - ToSet(AddOf(row, sel)) - ToSet(IgnoreOf(row, sel));
  }

  // ---------- The stale models ----------

  /** Whatever the added names are read back as is an old model that stays, an upstream model or the
      source of a mapping. */
  ghost predicate PiecesKnown(env: Env, row: Row, sel: Selection) {
    forall p | p in ReadAs(AddOf(row, sel)) ::
      || (p in Local(row) && p !in RemoveOf(row, sel))
      || p in Normalize(env.upstream) || p in env.mapping.Keys
  }

  lemma StaleStay(env: Env, row: Row, sel: Selection, now: int)
    requires Fresh(env, row)
    ensures var next := Applied(row, sel, now);
            Keep(StayOf(row, sel), Stale(env, Local(next))) == next.pendingRemove
  {
    var next := Applied(row, sel, now);
    var o, remove := Local(row), RemoveOf(row, sel);
    var kept, s, s' := ToSet(o) - ToSet(remove), Stale(env, o), Stale(env, Local(next));
    DetectOnClean(env, ModelsOf(row.models), row.ignored);
    RemainingShape(env, row, sel, now);
    StoredModels(env, row, sel, now);
    StayShape(env, row, sel);
    KeepKeep(o, kept, s');
    KeepKeep(o, s, s - ToSet(remove));
    forall x | x in o ensures x in kept * s' <==> x in s * (s - ToSet(remove)) {
      assert x in StayOf(row, sel) <==> x in kept;
      assert x in StayOf(row, sel) ==> x in Local(next);
    }
    KeepSame(o, kept * s', s * (s - ToSet(remove)));
  }

  lemma KeepNothing(xs: Names, s: set<string>)
    ensures Keep(xs, s) == [] <==> forall x | x in xs :: x !in s
  {
    forall x | x in xs && Keep(xs, s) == [] ensures x !in s {
      KeepIn(xs, s, x);
    }
    if forall x | x in xs :: x !in s { KeepNone(xs, s); }
  }

  lemma SplitOff(stay: Names, all: Names) returns (tail: Names)
    requires stay <= all && Clean(all)
    ensures all == stay + tail && forall x :: x in tail <==> x in all && x !in stay
  {
    tail := all[|stay|..];
    forall x ensures x in tail <==> x in all && x !in stay {
      TailMember(stay, tail, x);
    }
  }

  /** The models that are read back behind the old ones. */
  lemma BehindStay(env: Env, row: Row, sel: Selection, now: int) returns (tail: Names)
    requires Fresh(env, row)
    ensures Local(Applied(row, sel, now)) == StayOf(row, sel) + tail
    ensures forall x :: x in tail <==> x in ReadAs(AddOf(row, sel)) && x !in StayOf(row, sel)
  {
    StoredModels(env, row, sel, now);
    NormalizeClean(ModelsOf(Applied(row, sel, now).models));
    tail := SplitOff(StayOf(row, sel), Local(Applied(row, sel, now)));
  }

  /** A new detection finds the stored stale models if and only if all pieces are known. */
  lemma StaleAfter(env: Env, row: Row, sel: Selection, now: int)
    requires Fresh(env, row)
    ensures var next := Applied(row, sel, now);
            Detect(env, ModelsOf(next.models), next.ignored).1 == next.pendingRemove <==> PiecesKnown(env, row, sel)
  {
    var next := Applied(row, sel, now);
    var s' := Stale(env, Local(next));
    DetectOnClean(env, ModelsOf(next.models), next.ignored);
    StaleStay(env, row, sel, now);
    var tail := BehindStay(env, row, sel, now);
    KeepConcat(StayOf(row, sel), tail, s');
    KeepNothing(tail, s');
    PiecesAreTail(env, row, sel, Local(next), tail);
  }

  lemma PiecesAreTail(env: Env, row: Row, sel: Selection, all: Names, tail: Names)
    requires Fresh(env, row) && all == StayOf(row, sel) + tail
    requires forall x :: x in tail <==> x in ReadAs(AddOf(row, sel)) && x !in StayOf(row, sel)
    ensures (forall x | x in tail :: x !in Stale(env, all)) <==> PiecesKnown(env, row, sel)
  {
    StayShape(env, row, sel);
  }

  lemma TailMember(xs: Names, ys: Names, x: string)
    requires Distinct(xs + ys)
    ensures x in ys <==> x in xs + ys && x !in xs
  {
    forall j | 0 <= j < |ys| ensures ys[j] !in xs {
      assert (xs + ys)[|xs| + j] == ys[j];
      assert forall i | 0 <= i < |xs| :: (xs + ys)[i] == xs[i];
    }
  }

  // ---------- The missing models ----------

  /** Neither the mapping nor the models cover `u`, and it is not added. */
  ghost predicate UncoveredAfter(env: Env, row: Row, sel: Selection, u: string) {
    u in Normalize(env.upstream) && u !in Local(row) && u !in AddOf(row, sel) && u !in env.mapping.Values
  }

  /** An entry of the ignore list, or selected to be ignored, but not added: one that stays. */
  predicate Remains(row: Row, sel: Selection, entry: string) {
    (entry in Normalize(row.ignored) || entry in IgnoreOf(row, sel)) && entry !in AddOf(row, sel)
  }

  lemma IgnoredAfter(env: Env, row: Row, sel: Selection, u: string)
    requires Fresh(env, row)
    ensures Ignores(env, NextIgnored(row, sel), u) <==> exists e :: Remains(row, sel, e) && Hits(env, e, u)
  {
    NextIgnoredSet(env, row, sel);
    forall e ensures e in NextIgnored(row, sel) <==> Remains(row, sel, e) {
      assert e in NextIgnored(row, sel) <==> e in ToSet(NextIgnored(row, sel));
      assert e in Normalize(row.ignored) <==> e in ToSet(Normalize(row.ignored));
      assert e in IgnoreOf(row, sel) <==> e in ToSet(IgnoreOf(row, sel));
      assert e in AddOf(row, sel) <==> e in ToSet(AddOf(row, sel));
    }
  }

  /** How the ignore list has to treat a model that is uncovered: if it was ignored, some entry that
      hits it stays; if it is selected to be ignored, and named like a rule, some entry that hits
      it stays or comes; otherwise no selected name is a rule that hits it. */
  ghost predicate RecordedAt(env: Env, row: Row, sel: Selection, u: string) {
    && (Ignores(env, Normalize(row.ignored), u) || (u in IgnoreOf(row, sel) && IsRule(u)) ==>
          exists e :: Remains(row, sel, e) && Hits(env, e, u))
    && (!Ignores(env, Normalize(row.ignored), u) && u !in IgnoreOf(row, sel) ==>
          forall e | e in IgnoreOf(row, sel) && e !in AddOf(row, sel) && IsRule(e) :: !Hits(env, e, u))
  }

  lemma RecordedMeans(env: Env, row: Row, sel: Selection, u: string)
    requires Fresh(env, row) && UncoveredAfter(env, row, sel, u)
    ensures RecordedAt(env, row, sel, u)
       <==> (Ignores(env, NextIgnored(row, sel), u)
         <==> Ignores(env, Normalize(row.ignored), u) || u in IgnoreOf(row, sel))
  {
    IgnoredAfter(env, row, sel, u);
    if u in IgnoreOf(row, sel) && !IsRule(u) {
      assert Remains(row, sel, u) && Hits(env, u, u);
    }
    if !Ignores(env, Normalize(row.ignored), u) {
      forall e | Remains(row, sel, e) && Hits(env, e, u) ensures e in IgnoreOf(row, sel) && (IsRule(e) || e == u) { }
    }
    forall e | e in IgnoreOf(row, sel) && e !in AddOf(row, sel) ensures Remains(row, sel, e) { }
  }

  /** A name that is selected to be ignored is a rule that hits `u`. */
  ghost predicate HitByNewRule(env: Env, row: Row, sel: Selection, u: string) {
    exists e :: e in IgnoreOf(row, sel) && e !in AddOf(row, sel) && IsRule(e) && Hits(env, e, u)
  }

  /** The model is recorded right, or was to be ignored and is found among the pieces. */
  ghost predicate SettledAt(env: Env, row: Row, sel: Selection, u: string) {
    if u in ReadAs(AddOf(row, sel)) then Ignores(env, Normalize(row.ignored), u) || u in IgnoreOf(row, sel)
    else RecordedAt(env, row, sel, u)
  }

  /** Every added name with a comma, which will not be found among the models, is hit by a new rule,
      and every uncovered model is settled. */
  ghost predicate AllSettled(env: Env, row: Row, sel: Selection) {
    && (forall u | u in AddOf(row, sel) && ',' in u :: HitByNewRule(env, row, sel, u))
    && (forall u | UncoveredAfter(env, row, sel, u) :: SettledAt(env, row, sel, u))
  }

  /** What is pending after the selection. */
  function LeftOf(row: Row, sel: Selection): set<string> {
    ToSet(row.pendingAdd) - ToSet(AddOf(row, sel)) - ToSet(IgnoreOf(row, sel))
  }

  function WantedNext(env: Env, row: Row, sel: Selection, now: int): set<string> {
    var next := Applied(row, sel, now);
    Wanted(env, Local(next), Normalize(next.ignored))
  }

  lemma UpstreamStays(env: Env, row: Row, sel: Selection, now: int, u: string)
    requires Fresh(env, row) && u in Normalize(env.upstream)
    ensures u in Local(Applied(row, sel, now)) <==> u in Local(row) || u in ReadAs(AddOf(row, sel))
  {
    DetectOnClean(env, ModelsOf(row.models), row.ignored);
    SelectionSets(env, row, sel);
    StoredModels(env, row, sel, now);
    StayShape(env, row, sel);
    assert u !in ToSet(row.pendingRemove);
    assert u !in ToSet(RemoveOf(row, sel));
  }

  lemma WantedAfter(env: Env, row: Row, sel: Selection, now: int, u: string)
    requires Fresh(env, row) && u in Normalize(env.upstream)
    ensures u in WantedNext(env, row, sel, now)
       <==> && u !in Local(row) && u !in ReadAs(AddOf(row, sel)) && u !in env.mapping.Values
            && !Ignores(env, NextIgnored(row, sel), u)
  {
    UpstreamStays(env, row, sel, now, u);
    NextIgnoredSet(env, row, sel);
    NormalizeFixed(NextIgnored(row, sel));
  }

  lemma LeftMeans(env: Env, row: Row, sel: Selection, u: string)
    requires Fresh(env, row) && u in Normalize(env.upstream)
    ensures u in LeftOf(row, sel)
       <==> UncoveredAfter(env, row, sel, u) && !Ignores(env, Normalize(row.ignored), u) && u !in IgnoreOf(row, sel)
  {
    DetectOnClean(env, ModelsOf(row.models), row.ignored);
    assert u in AddOf(row, sel) <==> u in ToSet(AddOf(row, sel));
    assert u in IgnoreOf(row, sel) <==> u in ToSet(IgnoreOf(row, sel));
  }

  lemma ReadAsAdded(add: Names, u: string)
    requires Clean(add) && u in add
    ensures u in ReadAs(add) <==> ',' !in u
  {
    if ',' !in u { SplitAllMember(add, u); }
    forall y | y in SplitAll(add) ensures ',' !in TrimSpace(y) {
      SplitAllFree(add, y);
      TrimShape(Space, y);
    }
    NormalizeMember(SplitAll(add), u);
    TrimFixed(Space, u);
  }

  lemma {:induction false} SplitAllMember(xs: Names, x: string)
    requires x in xs && ',' !in x
    ensures x in SplitAll(xs)
  {
    if xs[0] == x {
      SplitPlain(x, ',');
    } else {
      SplitAllMember(xs[1..], x);
    }
  }

  lemma {:induction false} SplitAllFree(xs: Names, y: string)
    requires y in SplitAll(xs)
    ensures ',' !in y
  {
    SplitFree(xs[0], ',');
    if y !in Split(xs[0], ',') { SplitAllFree(xs[1..], y); }
  }

  lemma AddedIsPending(env: Env, row: Row, sel: Selection, u: string)
    requires Fresh(env, row) && u in AddOf(row, sel)
    ensures u in Normalize(env.upstream) && u !in Local(row) && u !in env.mapping.Values
            && !Ignores(env, Normalize(row.ignored), u)
    ensures Clean(AddOf(row, sel))
  {
    SelectionSets(env, row, sel);
    DetectOnClean(env, ModelsOf(row.models), row.ignored);
    assert u in ToSet(AddOf(row, sel)) && u in ToSet(row.pendingAdd);
  }

  lemma AddedIsIgnored(env: Env, row: Row, sel: Selection, u: string)
    requires Fresh(env, row) && u in AddOf(row, sel)
    ensures Ignores(env, NextIgnored(row, sel), u) <==> HitByNewRule(env, row, sel, u)
  {
    AddedIsPending(env, row, sel, u);
    IgnoredAfter(env, row, sel, u);
    forall e | Remains(row, sel, e) && Hits(env, e, u)
      ensures e in IgnoreOf(row, sel) && e !in AddOf(row, sel) && IsRule(e)
    {
    }
    forall e | e in IgnoreOf(row, sel) && e !in AddOf(row, sel) ensures Remains(row, sel, e) { }
  }

  ghost predicate AgreesAt(env: Env, row: Row, sel: Selection, u: string) {
    && (u in AddOf(row, sel) && ',' in u ==> HitByNewRule(env, row, sel, u))
    && (UncoveredAfter(env, row, sel, u) ==> SettledAt(env, row, sel, u))
  }

  /** One upstream model: a new detection agrees about it with what is pending. */
  lemma MissingAt(env: Env, row: Row, sel: Selection, now: int, u: string)
    requires Fresh(env, row) && u in Normalize(env.upstream)
    ensures (u in WantedNext(env, row, sel, now) <==> u in LeftOf(row, sel)) <==> AgreesAt(env, row, sel, u)
  {
    WantedAfter(env, row, sel, now, u);
    LeftMeans(env, row, sel, u);
    if u in AddOf(row, sel) {
      AddedIsPending(env, row, sel, u);
      AddedIsIgnored(env, row, sel, u);
      ReadAsAdded(AddOf(row, sel), u);
    } else if UncoveredAfter(env, row, sel, u) {
      RecordedMeans(env, row, sel, u);
    }
  }

  lemma KeepEqual(xs: Names, s: set<string>, t: set<string>)
    ensures Keep(xs, s) == Keep(xs, t) <==> forall x | x in xs :: x in s <==> x in t
  {
    if Keep(xs, s) == Keep(xs, t) {
      forall x | x in xs ensures x in s <==> x in t {
        KeepIn(xs, s, x);
        KeepIn(xs, t, x);
      }
    } else if forall x | x in xs :: x in s <==> x in t {
      KeepSame(xs, s, t);
    }
  }

  lemma AgreeingIsSettled(env: Env, row: Row, sel: Selection)
    requires Fresh(env, row)
    ensures (forall u | u in Normalize(env.upstream) :: AgreesAt(env, row, sel, u)) <==> AllSettled(env, row, sel)
  {
    forall u | u in AddOf(row, sel) ensures u in Normalize(env.upstream) { AddedIsPending(env, row, sel, u); }
    if forall u | u in Normalize(env.upstream) :: AgreesAt(env, row, sel, u) {
      forall u | u in AddOf(row, sel) && ',' in u
        ensures HitByNewRule(env, row, sel, u)
      {
        assert AgreesAt(env, row, sel, u);
      }
      forall u | UncoveredAfter(env, row, sel, u)
        ensures SettledAt(env, row, sel, u)
      {
        assert AgreesAt(env, row, sel, u);
      }
    }
  }

  /** The pending additions and what a new detection finds, as selections of the upstream's models. */
  lemma MissingLists(env: Env, row: Row, sel: Selection, now: int)
    requires Fresh(env, row)
    ensures var next := Applied(row, sel, now);
            && Detect(env, ModelsOf(next.models), next.ignored).0
              == Keep(Normalize(env.upstream), WantedNext(env, row, sel, now))
            && next.pendingAdd == Keep(Normalize(env.upstream), LeftOf(row, sel))
  {
    var next := Applied(row, sel, now);
    var w, left := Wanted(env, Local(row), Normalize(row.ignored)), LeftOf(row, sel);
    DetectOnClean(env, ModelsOf(row.models), row.ignored);
    DetectOnClean(env, ModelsOf(next.models), next.ignored);
    RemainingShape(env, row, sel, now);
    KeepKeep(Normalize(env.upstream), w, left);
    assert w * left == left;
  }

  lemma MissingAfter(env: Env, row: Row, sel: Selection, now: int)
    requires Fresh(env, row)
    ensures var next := Applied(row, sel, now);
            Detect(env, ModelsOf(next.models), next.ignored).0 == next.pendingAdd <==> AllSettled(env, row, sel)
  {
    var us := Normalize(env.upstream);
    MissingLists(env, row, sel, now);
    KeepEqual(us, WantedNext(env, row, sel, now), LeftOf(row, sel));
    forall u | u in us
      ensures (u in WantedNext(env, row, sel, now) <==> u in LeftOf(row, sel)) <==> AgreesAt(env, row, sel, u)
    {
      MissingAt(env, row, sel, now, u);
    }
    AgreeingIsSettled(env, row, sel);
  }

  // ---------- When a new detection finds what is stored ----------

  /** For every selection of whatever names: the stored lists are what a new detection against the
      same upstream finds, as sequences, if and only if the names between the commas of the
      added ones are known, each added name with a comma is hit by a new rule, and each uncovered
      model is settled. */
  lemma RedetectExactly(env: Env, row: Row, sel: Selection, now: int)
    requires Fresh(env, row)
    ensures Fresh(env, Applied(row, sel, now)) <==> PiecesKnown(env, row, sel) && AllSettled(env, row, sel)
  {
    StaleAfter(env, row, sel, now);
    MissingAfter(env, row, sel, now);
  }

  /** Without commas: if and only if every uncovered model is recorded right in the ignore list. */
  lemma RedetectIffRecorded(env: Env, row: Row, sel: Selection, now: int)
    requires Fresh(env, row) && CommaFree(AddOf(row, sel))
    ensures Fresh(env, Applied(row, sel, now))
       <==> forall u | UncoveredAfter(env, row, sel, u) :: RecordedAt(env, row, sel, u)
  {
    var add := AddOf(row, sel);
    RedetectExactly(env, row, sel, now);
    SplitAllPlain(add);
    SelectionSets(env, row, sel);
    NormalizeFixed(add);
    forall u | u in add ensures u in Normalize(env.upstream) { AddedIsPending(env, row, sel, u); }
  }

  ghost predicate RuleFree(xs: Names) {
    forall x | x in xs :: !IsRule(x)
  }

  /** A selection of names that are no rules is always recorded right. */
  lemma PlainNamesAreRecorded(env: Env, row: Row, sel: Selection, u: string)
    requires RuleFree(AddOf(row, sel)) && RuleFree(IgnoreOf(row, sel)) && u !in AddOf(row, sel)
    ensures RecordedAt(env, row, sel, u)
  {
    if e :| e in Normalize(row.ignored) && Hits(env, e, u) {
      assert Remains(row, sel, e);
    }
  }

  /** Without rules: if and only if no added name contains a comma.  Such a name is stored, but read
      back as something else. */
  lemma RedetectIffCommaFree(env: Env, row: Row, sel: Selection, now: int)
    requires Fresh(env, row) && RuleFree(AddOf(row, sel)) && RuleFree(IgnoreOf(row, sel))
    ensures Fresh(env, Applied(row, sel, now)) <==> CommaFree(AddOf(row, sel))
  {
    if CommaFree(AddOf(row, sel)) {
      RedetectIffRecorded(env, row, sel, now);
      forall u | UncoveredAfter(env, row, sel, u) ensures RecordedAt(env, row, sel, u) {
        PlainNamesAreRecorded(env, row, sel, u);
      }
    } else {
      RedetectExactly(env, row, sel, now);
    }
  }

  // ---------- Consequences ----------

  /** No upstream model can be mistaken for a rule or for several models. */
  ghost predicate PlainUpstream(env: Env) {
    RuleFree(Normalize(env.upstream)) && CommaFree(Normalize(env.upstream))
  }

  lemma SelectedFromUpstream(env: Env, row: Row, sel: Selection)
    requires Fresh(env, row) && PlainUpstream(env)
    ensures RuleFree(AddOf(row, sel)) && RuleFree(IgnoreOf(row, sel)) && CommaFree(AddOf(row, sel))
  {
    SelectionSets(env, row, sel);
    DetectOnClean(env, ModelsOf(row.models), row.ignored);
    forall x | x in AddOf(row, sel) || x in IgnoreOf(row, sel) ensures x in Normalize(env.upstream) {
      assert x in ToSet(AddOf(row, sel)) || x in ToSet(IgnoreOf(row, sel));
      assert x in ToSet(row.pendingAdd);
    }
  }

  /** Applying everything that is pending leaves nothing to detect. */
  lemma ApplyingAllEmptiesDetection(env: Env, row: Row, now: int)
    requires Fresh(env, row) && PlainUpstream(env)
    ensures var next := Applied(row, Selection(row.pendingAdd, [], row.pendingRemove), now);
            Detect(env, ModelsOf(next.models), next.ignored) == ([], [])
  {
    var sel := Selection(row.pendingAdd, [], row.pendingRemove);
    SelectedFromUpstream(env, row, sel);
    RedetectIffCommaFree(env, row, sel, now);
    RemainingShape(env, row, sel, now);
    WholeSelection(env, row, sel);
    KeepNone(row.pendingAdd, ToSet(row.pendingAdd) - ToSet(AddOf(row, sel)) - ToSet(IgnoreOf(row, sel)));
    KeepNone(row.pendingRemove, ToSet(row.pendingRemove) - ToSet(RemoveOf(row, sel)));
  }

  lemma WholeSelection(env: Env, row: Row, sel: Selection)
    requires Fresh(env, row) && sel.add == row.pendingAdd
    ensures AddOf(row, sel) == row.pendingAdd
    ensures sel.remove == row.pendingRemove ==> RemoveOf(row, sel) == row.pendingRemove
    ensures sel.remove == [] ==> RemoveOf(row, sel) == []
    ensures sel.ignore == [] ==> IgnoreOf(row, sel) == []
  {
    SelectionSets(env, row, sel);
    DetectOnClean(env, ModelsOf(row.models), row.ignored);
    NormalizeFixed(row.pendingAdd);
    NormalizeFixed(row.pendingRemove);
    KeepAll(row.pendingAdd, ToSet(row.pendingAdd));
    if sel.remove == row.pendingRemove {
      KeepAll(row.pendingRemove, ToSet(row.pendingRemove));
      SubtractOnClean(row.pendingRemove, row.pendingAdd);
      KeepAll(row.pendingRemove, ToSet(row.pendingRemove) - ToSet(row.pendingAdd));
    }
  }

  lemma NothingTaken(xs: Names, taken: Names)
    requires taken == []
    ensures Keep(xs, ToSet(xs) - ToSet(taken)) == xs
  {
    KeepAll(xs, ToSet(xs) - ToSet(taken));
  }

  lemma AddEverythingModels(env: Env, row: Row, sel: Selection)
    requires Fresh(env, row) && sel == Selection(row.pendingAdd, [], [])
    ensures NextModels(row, sel) == Local(row) + row.pendingAdd
  {
    WholeSelection(env, row, sel);
    NextModelsShape(env, row, sel);
    NothingTaken(Local(row), RemoveOf(row, sel));
  }

  lemma AddEverythingPending(env: Env, row: Row, sel: Selection, now: int)
    requires Fresh(env, row) && sel == Selection(row.pendingAdd, [], [])
    ensures Applied(row, sel, now).pendingAdd == [] && Applied(row, sel, now).pendingRemove == row.pendingRemove
  {
    WholeSelection(env, row, sel);
    RemainingShape(env, row, sel, now);
    KeepNone(row.pendingAdd, ToSet(row.pendingAdd) - ToSet(AddOf(row, sel)) - ToSet(IgnoreOf(row, sel)));
    NothingTaken(row.pendingRemove, RemoveOf(row, sel));
  }

  lemma AddEverything(env: Env, row: Row, now: int)
    requires Fresh(env, row)
    ensures var next := Applied(row, Selection(row.pendingAdd, [], []), now);
            && next.pendingAdd == [] && next.pendingRemove == row.pendingRemove
            && next.models == if row.pendingAdd == [] then row.models else Join(Local(row) + row.pendingAdd, ',')
  {
    var sel := Selection(row.pendingAdd, [], []);
    AddEverythingModels(env, row, sel);
    AddEverythingPending(env, row, sel, now);
    if row.pendingAdd == [] {
      assert Local(row) + row.pendingAdd == Local(row);
    }
  }

  lemma MergePending(env: Env, row: Row)
    requires Fresh(env, row)
    ensures Merged(Local(row), row.pendingAdd) == Local(row) + row.pendingAdd
  {
    DetectOnClean(env, ModelsOf(row.models), row.ignored);
    NormalizeClean(ModelsOf(row.models));
    MergedOnClean(Local(row), row.pendingAdd);
    KeepAll(row.pendingAdd, ToSet(row.pendingAdd) - ToSet(Local(row)));
  }

  lemma AutoSyncRow(env: Env, row: Row, now: int)
    ensures var plain, auto := Checked(env, row, false, now), Checked(env, row, true, now);
            && auto.models == (if plain.pendingAdd == [] then row.models else Join(Local(row) + plain.pendingAdd, ','))
            && auto.pendingAdd == [] && auto.pendingRemove == plain.pendingRemove
            && AutoAdded(env, row, true) == |plain.pendingAdd|
  {
    MergePending(env, Checked(env, row, false, now));
  }

  /** Auto-sync is a plain detection followed by applying all additions and no removal: the same
      stored models, the same pending lists and time; but it leaves the ignore list as it is.  It
      reports as many additions as were pending. */
  lemma AutoSyncIsDetectThenApply(env: Env, row: Row, now: int)
    ensures var plain := Checked(env, row, false, now);
            var applied := Applied(plain, Selection(plain.pendingAdd, [], []), now);
            var auto := Checked(env, row, true, now);
            && auto.models == applied.models
            && auto.pendingAdd == applied.pendingAdd && auto.pendingRemove == applied.pendingRemove
            && auto.ignored == plain.ignored == row.ignored
            && auto.lastCheck == plain.lastCheck == applied.lastCheck == now
            && AutoAdded(env, row, true) == |plain.pendingAdd|
  {
    AutoSyncRow(env, row, now);
    AddEverything(env, Checked(env, row, false, now), now);
  }

  lemma AutoSyncStale(env: Env, row: Row, now: int)
    requires CommaFree(Detect(env, ModelsOf(row.models), row.ignored).0)
    ensures var auto := Checked(env, row, true, now);
            Detect(env, ModelsOf(auto.models), auto.ignored).1 == auto.pendingRemove
  {
    var plain := Checked(env, row, false, now);
    var sel := Selection(plain.pendingAdd, [], []);
    AutoSyncIsDetectThenApply(env, row, now);
    WholeSelection(env, plain, sel);
    SelectionSets(env, plain, sel);
    SplitAllPlain(AddOf(plain, sel));
    NormalizeFixed(AddOf(plain, sel));
    forall u | u in AddOf(plain, sel) ensures u in Normalize(env.upstream) { AddedIsPending(env, plain, sel, u); }
    StaleAfter(env, plain, sel, now);
  }

  /** What a detection still misses after auto-sync: the added models whose names contain a comma. */
  lemma AutoSyncMisses(env: Env, row: Row, now: int, u: string)
    ensures var auto := Checked(env, row, true, now);
            (u in Wanted(env, Local(auto), Normalize(auto.ignored))
        <==> u in Detect(env, ModelsOf(row.models), row.ignored).0 && ',' in u)
  {
    var plain := Checked(env, row, false, now);
    var sel := Selection(plain.pendingAdd, [], []);
    AutoSyncIsDetectThenApply(env, row, now);
    WholeSelection(env, plain, sel);
    DetectOnClean(env, ModelsOf(row.models), row.ignored);
    assert u in plain.pendingAdd <==> u in Wanted(env, Local(row), Normalize(row.ignored)) by {
      assert u in plain.pendingAdd <==> u in ToSet(plain.pendingAdd);
    }
    if u in Normalize(env.upstream) {
      UpstreamStays(env, plain, sel, now, u);
      if u in plain.pendingAdd { ReadAsAdded(plain.pendingAdd, u); }
    }
  }

  /** After a check the cache is what a detection would find: always without auto-sync, and with it if
      and only if no name that is added contains a comma. */
  lemma CheckedIsFresh(env: Env, row: Row, now: int)
    ensures Fresh(env, Checked(env, row, false, now))
    ensures Fresh(env, Checked(env, row, true, now)) <==> CommaFree(Detect(env, ModelsOf(row.models), row.ignored).0)
  {
    var auto := Checked(env, row, true, now);
    var add := Detect(env, ModelsOf(row.models), row.ignored).0;
    var missing := Wanted(env, Local(auto), Normalize(auto.ignored));
    DetectOnClean(env, ModelsOf(auto.models), auto.ignored);
    forall u ensures u in missing <==> u in add && ',' in u { AutoSyncMisses(env, row, now, u); }
    KeepNothing(Normalize(env.upstream), missing);
    if CommaFree(add) {
      AutoSyncStale(env, row, now);
    }
  }

  lemma PlainIsFresh(env: Env, row: Row, auto: bool, now: int)
    requires PlainUpstream(env)
    ensures Fresh(env, Checked(env, row, auto, now))
  {
    CheckedIsFresh(env, row, now);
    DetectOnClean(env, ModelsOf(row.models), row.ignored);
    forall u | u in Detect(env, ModelsOf(row.models), row.ignored).0 ensures ',' !in u {
      assert u in ToSet(Detect(env, ModelsOf(row.models), row.ignored).0);
    }
  }

  datatype Action = Check(auto: bool, now: int) | Select(sel: Selection, now: int)

  /** Checks, with or without auto-sync, and selections, one after the other. */
  function Acted(env: Env, row: Row, actions: seq<Action>): Row {
    if actions == [] then row
    else
      var before := Acted(env, row, actions[..|actions| - 1]);
      match actions[|actions| - 1]
      case Check(auto, now) => Checked(env, before, auto, now)
      case Select(sel, now) => Applied(before, sel, now)
  }

  /** However many checks are made and selections of whatever names applied, the cache never deviates
      from what a detection against the unchanged upstream would find; the first check makes it so. */
  lemma {:induction false} CacheStaysFresh(env: Env, row: Row, actions: seq<Action>)
    requires PlainUpstream(env) && (Fresh(env, row) || (actions != [] && actions[0].Check?))
    ensures Fresh(env, Acted(env, row, actions))
  {
    if actions == [] {
    } else {
      var prefix, last := actions[..|actions| - 1], actions[|actions| - 1];
      var before := Acted(env, row, prefix);
      if last.Check? {
        PlainIsFresh(env, before, last.auto, last.now);
      } else {
        CacheStaysFresh(env, row, prefix);
        SelectedFromUpstream(env, before, last.sel);
        RedetectIffCommaFree(env, before, last.sel, last.now);
      }
    }
  }

  // ---------- What goes wrong with other names ----------

  /** A single upstream model whose name is a rule that does not match the name: ignoring it stores
      the rule, and the next detection reports the model again. */
  lemma RuleNameIsDetectedAgain(env: Env, name: string, now: int)
    requires env.upstream == [name] && env.mapping == map[] && name != "" && Trimmed(Space, name)
    requires IsRule(name) && !Hits(env, name, name)
    ensures var row := Row("", [], [name], [], 0);
            Fresh(env, row) && !Fresh(env, Applied(row, Selection([], [name], []), now))
  {
    var row := Row("", [], [name], [], 0);
    var sel := Selection([], [name], []);
    OneModelMissing(env, name);
    SelectionSets(env, row, sel);
    NormalizeFixed([name]);
    KeepAll([name], ToSet([name]));
    assert AddOf(row, sel) == [] && IgnoreOf(row, sel) == [name];
    forall e | Remains(row, sel, e) ensures !Hits(env, e, name) { }
    assert UncoveredAfter(env, row, sel, name) && !RecordedAt(env, row, sel, name);
    RedetectIffRecorded(env, row, sel, now);
  }

  lemma OneModelMissing(env: Env, name: string)
    requires env.upstream == [name] && env.mapping == map[] && name != "" && Trimmed(Space, name)
    ensures Fresh(env, Row("", [], [name], [], 0))
  {
    NormalizeFixed([name]);
    DetectOnClean(env, [], []);
    assert Normalize([]) == [] && !Ignores(env, [], name);
    KeepAll([name], Wanted(env, [], []));
  }

  /** A concrete such name. */
  lemma RegexZIsDetectedAgain(env: Env, now: int)
    requires env.upstream == ["regex:z"] && env.mapping == map[] && !env.re("z", "regex:z")
    ensures !Fresh(env, Applied(Row("", [], ["regex:z"], [], 0), Selection([], ["regex:z"], []), now))
  {
    assert "regex:z"[|RULE_PREFIX|..] == "z" && TrimSpace("z") == "z";
    RuleNameIsDetectedAgain(env, "regex:z", now);
  }

  /** A model whose name contains a comma is detected again after it was added. */
  lemma CommaNameIsDetectedAgain(env: Env, now: int)
    requires env.upstream == ["a,b"] && env.mapping == map[]
    ensures !Fresh(env, Applied(Row("", [], ["a,b"], [], 0), Selection(["a,b"], [], []), now))
  {
    var row := Row("", [], ["a,b"], [], 0);
    var sel := Selection(["a,b"], [], []);
    OneModelMissing(env, "a,b");
    WholeSelection(env, row, sel);
    assert "a,b"[1] == ',' && "a,b" in AddOf(row, sel) && !IsRule("a,b");
    RedetectIffCommaFree(env, row, sel, now);
  }
}
