/** The model-name lists of controller/channel_upstream_update.go (lines 93-143). */
module ModelNames {
  import opened Text

  type Names = seq<string>

  function ToSet(xs: Names): set<string> {
    set x | x in xs
  }

  /** `normalizeModelNames`: trimmed, non-empty, first occurrences only. */
  function Normalize(xs: Names): Names {
    if xs == [] then []
    else
      var rest := Normalize(xs[..|xs| - 1]);
      var name := TrimSpace(xs[|xs| - 1]);
      if name == "" || name in rest then rest else rest + [name]
  }

  /** The elements that lie in `s`, in order (`lo.Filter` with a set lookup). */
  function Keep(xs: Names, s: set<string>): Names {
    if xs == [] then []
    else Keep(xs[..|xs| - 1], s) + (if xs[|xs| - 1] in s then [xs[|xs| - 1]] else [])
  }

  /** `subtractModelNames` */
  function Subtract(base: Names, removed: Names): Names {
    var names := Normalize(base);
    Keep(names, ToSet(names) - ToSet(Normalize(removed)))
  }

  /** `intersectModelNames` */
  function Intersect(base: Names, allowed: Names): Names {
    Keep(Normalize(base), ToSet(Normalize(allowed)))
  }

  /** What `mergeModelNames` computes. */
  function Merged(base: Names, appended: Names): Names {
    var names := Normalize(base);
    names + Keep(Normalize(appended), ToSet(Normalize(appended)) - ToSet(names))
  }

  /** `applySelectedModelChanges`: an added model is not removed. */
  function ApplySelected(origin: Names, add: Names, remove: Names): Names {
    var added := Normalize(add);
    Subtract(Merged(origin, added), Subtract(Normalize(remove), added))
  }

  // ---------- Clean lists ----------

  ghost predicate Distinct(xs: Names) {
    forall i, j | 0 <= i < j < |xs| :: xs[i] != xs[j]
  }

  /** What `Normalize` produces. */
  ghost predicate Clean(xs: Names) {
    Distinct(xs) && forall i | 0 <= i < |xs| :: xs[i] != "" && Trimmed(Space, xs[i])
  }

  lemma {:induction false} NormalizeClean(xs: Names)
    ensures Clean(Normalize(xs))
  {
    if xs == [] {
    } else {
      NormalizeClean(xs[..|xs| - 1]);
      TrimShape(Space, xs[|xs| - 1]);
    }
  }

  lemma {:induction false} NormalizeFixed(xs: Names)
    requires Clean(xs)
    ensures Normalize(xs) == xs
  {
    if xs == [] {
    } else {
      var rest, name := xs[..|xs| - 1], xs[|xs| - 1];
      NormalizeFixed(rest);
      TrimFixed(Space, name);
      assert name !in rest;
      assert xs == rest + [name];
    }
  }

  /** A name survives normalization exactly when it is the trimmed form of an entry. */
  lemma {:induction false} NormalizeMember(xs: Names, x: string)
    ensures x in Normalize(xs) <==> x != "" && exists y :: y in xs && TrimSpace(y) == x
  {
    if xs == [] {
    } else {
      var rest, last := xs[..|xs| - 1], xs[|xs| - 1];
      NormalizeMember(rest, x);
      assert xs == rest + [last];
      if x != "" && (exists y :: y in xs && TrimSpace(y) == x) && x != TrimSpace(last) {
        var y :| y in xs && TrimSpace(y) == x;
        assert y in rest;
      }
    }
  }

  // ---------- The algebra of filtering ----------

  lemma {:induction false} KeepIn(xs: Names, s: set<string>, x: string)
    ensures x in Keep(xs, s) <==> x in xs && x in s
  {
    if xs == [] {
    } else {
      KeepIn(xs[..|xs| - 1], s, x);
      assert x in xs <==> x in xs[..|xs| - 1] || x == xs[|xs| - 1];
    }
  }

  lemma KeepMember(xs: Names, s: set<string>)
    ensures ToSet(Keep(xs, s)) == ToSet(xs) * s
  {
    forall x ensures x in ToSet(Keep(xs, s)) <==> x in ToSet(xs) * s {
      KeepIn(xs, s, x);
    }
  }

  lemma {:induction false} KeepClean(xs: Names, s: set<string>)
    requires Clean(xs)
    ensures Clean(Keep(xs, s))
  {
    if xs == [] {
    } else {
      var rest, last := xs[..|xs| - 1], xs[|xs| - 1];
      KeepClean(rest, s);
      assert last !in rest;
      KeepIn(rest, s, last);
    }
  }

  lemma {:induction false} KeepKeep(xs: Names, s: set<string>, t: set<string>)
    ensures Keep(Keep(xs, s), t) == Keep(xs, s * t)
  {
    if xs == [] {
    } else {
      var rest, last := xs[..|xs| - 1], xs[|xs| - 1];
      KeepKeep(rest, s, t);
      if last in s {
        KeepConcat(Keep(rest, s), [last], t);
        assert [last][..0] == [] && Keep([last], t) == (if last in t then [last] else []);
      } else {
        assert Keep(xs, s) == Keep(rest, s);
      }
    }
  }

  lemma {:induction false} KeepSame(xs: Names, s: set<string>, t: set<string>)
    requires forall x | x in xs :: x in s <==> x in t
    ensures Keep(xs, s) == Keep(xs, t)
  {
    if xs == [] {
    } else {
      KeepSame(xs[..|xs| - 1], s, t);
    }
  }

  lemma {:induction false} KeepAll(xs: Names, s: set<string>)
    requires forall x | x in xs :: x in s
    ensures Keep(xs, s) == xs
  {
    if xs == [] {
    } else {
      KeepAll(xs[..|xs| - 1], s);
    }
  }

  lemma KeepNone(xs: Names, s: set<string>)
    requires forall x | x in xs :: x !in s
    ensures Keep(xs, s) == []
  {
    if Keep(xs, s) != [] {
      KeepIn(xs, s, Keep(xs, s)[0]);
    }
  }

  lemma {:induction false} KeepConcat(xs: Names, ys: Names, s: set<string>)
    ensures Keep(xs + ys, s) == Keep(xs, s) + Keep(ys, s)
  {
    if ys == [] {
      assert xs + ys == xs;
    } else {
      assert (xs + ys)[..|xs + ys| - 1] == xs + ys[..|ys| - 1];
      KeepConcat(xs, ys[..|ys| - 1], s);
    }
  }

  lemma CleanConcat(xs: Names, ys: Names)
    requires Clean(xs) && Clean(ys) && forall y | y in ys :: y !in xs
    ensures Clean(xs + ys)
  {
    forall i, j | 0 <= i < j < |xs + ys| ensures (xs + ys)[i] != (xs + ys)[j] {
      if i < |xs| <= j { assert ys[j - |xs|] in ys; }
    }
  }

  // ---------- The same functions on clean lists ----------

  lemma SubtractOnClean(base: Names, removed: Names)
    requires Clean(base) && Clean(removed)
    ensures Subtract(base, removed) == Keep(base, ToSet(base) - ToSet(removed))
    ensures Clean(Subtract(base, removed))
    ensures ToSet(Subtract(base, removed)) == ToSet(base) - ToSet(removed)
  {
    NormalizeFixed(base);
    NormalizeFixed(removed);
    KeepClean(base, ToSet(base) - ToSet(removed));
    KeepMember(base, ToSet(base) - ToSet(removed));
  }

  lemma IntersectOnClean(base: Names, allowed: Names)
    requires Clean(allowed)
    ensures Clean(Intersect(base, allowed))
    ensures ToSet(Intersect(base, allowed)) == ToSet(Normalize(base)) * ToSet(allowed)
  {
    NormalizeFixed(allowed);
    NormalizeClean(base);
    KeepClean(Normalize(base), ToSet(allowed));
    KeepMember(Normalize(base), ToSet(allowed));
  }

  lemma MergedOnClean(base: Names, appended: Names)
    requires Clean(base) && Clean(appended)
    ensures Merged(base, appended) == base + Keep(appended, ToSet(appended) - ToSet(base))
    ensures Clean(Merged(base, appended))
    ensures ToSet(Merged(base, appended)) == ToSet(base) + ToSet(appended)
  {
    NormalizeFixed(base);
    NormalizeFixed(appended);
    var unseen := ToSet(appended) - ToSet(base);
    KeepClean(appended, unseen);
    KeepMember(appended, unseen);
    forall y | y in Keep(appended, unseen) ensures y !in base { assert y in ToSet(Keep(appended, unseen)); }
    CleanConcat(base, Keep(appended, unseen));
    forall x ensures x in ToSet(Merged(base, appended)) <==> x in ToSet(base) + ToSet(appended) {
      assert x in ToSet(Keep(appended, unseen)) <==> x in Keep(appended, unseen);
    }
  }

  lemma PrefixStep(xs: Names, i: nat, s: set<string>)
    requires Clean(xs) && i < |xs|
    ensures xs[i] !in xs[..i] && ToSet(xs[..i + 1]) == ToSet(xs[..i]) + {xs[i]}
    ensures Keep(xs[..i + 1], s) == Keep(xs[..i], s) + (if xs[i] in s then [xs[i]] else [])
  {
    assert xs[..i + 1] == xs[..i] + [xs[i]];
    assert xs[..i + 1][..i] == xs[..i];
  }

  /** `mergeModelNames`: the loop with its `seen` set. */
  method Merge(base: Names, appended: Names) returns (merged: Names)
    ensures merged == Merged(base, appended)
  {
    var start := Normalize(base);
    var more := Normalize(appended);
    NormalizeClean(appended);
    var added := AddUnseen(ToSet(start), more);
    merged := start + added;
  }

  method AddUnseen(start: set<string>, more: Names) returns (added: Names)
    requires Clean(more)
    ensures added == Keep(more, ToSet(more) - start)
  {
    added := [];
    var seen := start;
    ghost var unseen := ToSet(more) - start;
    for i := 0 to |more|
      invariant seen == start + ToSet(more[..i])
      invariant added == Keep(more[..i], unseen)
    {
      PrefixStep(more, i, unseen);
      assert more[i] in unseen <==> more[i] !in seen;
      if more[i] !in seen {
        seen := seen + {more[i]};
        added := added + [more[i]];
      }
    }
    assert more[..|more|] == more;
  }
}
