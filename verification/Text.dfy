/** The Go string functions that the modelled code relies on, over sequences of characters. */
module Text {

  // ---------- Trimming ----------

  /** White space as Unicode and Go's `strings.TrimSpace` understand it. */
  predicate IsSpace(c: char) {
    || '\t' <= c <= '\r' || c == ' ' || c == '\U{85}' || c == '\U{A0}' || c == '\U{1680}'
    || '\U{2000}' <= c <= '\U{200A}' || c == '\U{2028}' || c == '\U{2029}' || c == '\U{202F}'
    || c == '\U{205F}' || c == '\U{3000}'
  }

  /** The characters a trim removes: white space, or one given character. */
  datatype Cut = Space | Only(c: char)

  predicate Cuts(cut: Cut, c: char) {
    match cut
    case Space => IsSpace(c)
    case Only(x) => c == x
  }

  function TrimLeft(cut: Cut, s: string): string {
    if s != [] && Cuts(cut, s[0]) then TrimLeft(cut, s[1..]) else s
  }

  function TrimRight(cut: Cut, s: string): string {
    if s != [] && Cuts(cut, s[|s| - 1]) then TrimRight(cut, s[..|s| - 1]) else s
  }

  function Trim(cut: Cut, s: string): string {
    TrimRight(cut, TrimLeft(cut, s))
  }

  function TrimSpace(s: string): string {
    Trim(Space, s)
  }

  predicate Trimmed(cut: Cut, s: string) {
    s == [] || (!Cuts(cut, s[0]) && !Cuts(cut, s[|s| - 1]))
  }

  lemma {:induction false} TrimRightShape(cut: Cut, s: string)
    ensures TrimRight(cut, s) <= s
    ensures TrimRight(cut, s) == [] || !Cuts(cut, TrimRight(cut, s)[|TrimRight(cut, s)| - 1])
  {
    if s != [] && Cuts(cut, s[|s| - 1]) {
      TrimRightShape(cut, s[..|s| - 1]);
    }
  }

  lemma {:induction false} TrimLeftShape(cut: Cut, s: string)
    ensures TrimLeft(cut, s) == [] || !Cuts(cut, TrimLeft(cut, s)[0])
    ensures forall c | c in TrimLeft(cut, s) :: c in s
  {
    if s != [] && Cuts(cut, s[0]) {
      TrimLeftShape(cut, s[1..]);
    }
  }

  /** Trimming leaves a string that further trimming leaves alone, and invents no character. */
  lemma TrimShape(cut: Cut, s: string)
    ensures Trimmed(cut, Trim(cut, s))
    ensures forall c | c in Trim(cut, s) :: c in s
  {
    TrimLeftShape(cut, s);
    TrimRightShape(cut, TrimLeft(cut, s));
  }

  lemma {:induction false} TrimLeftExactly(cut: Cut, s: string) returns (i: nat)
    ensures i <= |s| && TrimLeft(cut, s) == s[i..] && forall k | 0 <= k < i :: Cuts(cut, s[k])
  {
    if s != [] && Cuts(cut, s[0]) {
      var j := TrimLeftExactly(cut, s[1..]);
      i := j + 1;
      assert forall k | 0 < k < i :: s[k] == s[1..][k - 1];
    } else {
      i := 0;
    }
  }

  lemma {:induction false} TrimRightExactly(cut: Cut, s: string) returns (j: nat)
    ensures j <= |s| && TrimRight(cut, s) == s[..j] && forall k | j <= k < |s| :: Cuts(cut, s[k])
  {
    if s != [] && Cuts(cut, s[|s| - 1]) {
      j := TrimRightExactly(cut, s[..|s| - 1]);
    } else {
      j := |s|;
    }
  }

  /** Trimming removes only what is to be removed, at both ends (and by `TrimShape` all of it). */
  lemma TrimExactly(cut: Cut, s: string) returns (i: nat, j: nat)
    ensures i <= j <= |s| && Trim(cut, s) == s[i..j]
    ensures forall k | 0 <= k < i || j <= k < |s| :: Cuts(cut, s[k])
  {
    i := TrimLeftExactly(cut, s);
    var n := TrimRightExactly(cut, s[i..]);
    j := i + n;
    assert forall k | j <= k < |s| :: s[k] == s[i..][k - i];
  }

  lemma TrimFixed(cut: Cut, s: string)
    requires Trimmed(cut, s)
    ensures Trim(cut, s) == s
  {
  }

  // ---------- Splitting and joining at one character ----------

  /** `strings.Split(s, sep)`. */
  function Split(s: string, sep: char): (r: seq<string>)
    ensures r != []
  {
    if s == [] then [""]
    else
      var rest := Split(s[1..], sep);
      if s[0] == sep then [""] + rest else [[s[0]] + rest[0]] + rest[1..]
  }

  /** `strings.Join(xs, sep)`. */
  function Join(xs: seq<string>, sep: char): string {
    if xs == [] then "" else if |xs| == 1 then xs[0] else xs[0] + [sep] + Join(xs[1..], sep)
  }

  predicate Free(xs: seq<string>, sep: char) {
    forall k | 0 <= k < |xs| :: sep !in xs[k]
  }

  lemma {:induction false} SplitFree(s: string, sep: char)
    ensures Free(Split(s, sep), sep)
  {
    if s == [] {
    } else {
      SplitFree(s[1..], sep);
      var rest := Split(s[1..], sep);
      var r := Split(s, sep);
      if s[0] == sep {
        forall k | 0 <= k < |r| ensures sep !in r[k] {
          if k > 0 { assert r[k] == rest[k - 1]; }
        }
      } else {
        forall k | 0 <= k < |r| ensures sep !in r[k] {
          if k > 0 { assert r[k] == rest[k]; }
        }
      }
    }
  }

  lemma {:induction false} SplitPlain(s: string, sep: char)
    requires sep !in s
    ensures Split(s, sep) == [s]
  {
    if s == [] {
    } else {
      SplitPlain(s[1..], sep);
      assert [s[0]] + s[1..] == s;
    }
  }

  lemma {:induction false} SplitAt(x: string, rest: string, sep: char)
    requires sep !in x
    ensures Split(x + [sep] + rest, sep) == [x] + Split(rest, sep)
  {
    var s := x + [sep] + rest;
    if x == [] {
      assert s[1..] == rest;
    } else {
      SplitAt(x[1..], rest, sep);
      assert s[1..] == x[1..] + [sep] + rest;
      assert [x[0]] + x[1..] == x;
    }
  }

  lemma ConcatAssoc(xs: seq<string>, ys: seq<string>, zs: seq<string>)
    ensures xs + (ys + zs) == (xs + ys) + zs
  {
  }

  lemma FirstOfConcat(c: char, xs: seq<string>, ys: seq<string>)
    requires xs != []
    ensures [[c] + (xs + ys)[0]] + (xs + ys)[1..] == ([[c] + xs[0]] + xs[1..]) + ys
  {
    assert (xs + ys)[1..] == xs[1..] + ys;
    ConcatAssoc([[c] + xs[0]], xs[1..], ys);
  }

  lemma {:induction false} SplitConcat(x: string, rest: string, sep: char)
    ensures Split(x + [sep] + rest, sep) == Split(x, sep) + Split(rest, sep)
  {
    var s := x + [sep] + rest;
    if x == [] {
      assert s[1..] == rest;
    } else {
      SplitConcat(x[1..], rest, sep);
      assert s[1..] == x[1..] + [sep] + rest;
      assert s[0] == x[0];
      if x[0] == sep {
        ConcatAssoc([""], Split(x[1..], sep), Split(rest, sep));
      } else {
        FirstOfConcat(x[0], Split(x[1..], sep), Split(rest, sep));
      }
    }
  }

  // ---------- How many parts trimming leaves ----------

  lemma {:induction false} TrimLeftCount(s: string, sep: char)
    ensures |Split(TrimLeft(Only(sep), s), sep)| <= |Split(s, sep)|
    ensures s != [] && s[0] == sep ==> |Split(TrimLeft(Only(sep), s), sep)| < |Split(s, sep)|
  {
    if s != [] && s[0] == sep {
      TrimLeftCount(s[1..], sep);
    }
  }

  lemma {:induction false} TrimRightCount(s: string, sep: char)
    ensures |Split(TrimRight(Only(sep), s), sep)| <= |Split(s, sep)|
    ensures s != [] && s[|s| - 1] == sep ==> |Split(TrimRight(Only(sep), s), sep)| < |Split(s, sep)|
  {
    if s != [] && s[|s| - 1] == sep {
      var r := s[..|s| - 1];
      TrimRightCount(r, sep);
      assert s == r + [sep] + [];
      SplitConcat(r, [], sep);
    }
  }

  /** Trimming the separator leaves as many parts if and only if there is nothing to trim. */
  lemma TrimCount(s: string, sep: char)
    ensures |Split(Trim(Only(sep), s), sep)| == |Split(s, sep)| <==> Trimmed(Only(sep), s)
  {
    TrimLeftCount(s, sep);
    TrimRightCount(TrimLeft(Only(sep), s), sep);
    if Trimmed(Only(sep), s) { TrimFixed(Only(sep), s); }
  }

  lemma {:induction false} JoinEmptyLast(xs: seq<string>, sep: char)
    requires |xs| > 1 && xs[|xs| - 1] == []
    ensures var s := Join(xs, sep); s != [] && s[|s| - 1] == sep
  {
    if |xs| == 2 {
      assert Join(xs[1..], sep) == [];
    } else {
      JoinEmptyLast(xs[1..], sep);
    }
  }

  /** Joined parts without the separator have nothing to trim if and only if the outer ones are not
      empty. */
  lemma JoinTrimmed(xs: seq<string>, sep: char)
    requires |xs| > 1 && Free(xs, sep)
    ensures Trimmed(Only(sep), Join(xs, sep)) <==> xs[0] != [] && xs[|xs| - 1] != []
  {
    if xs[0] != [] && xs[|xs| - 1] != [] {
      JoinEnds(xs, sep);
    } else if xs[|xs| - 1] == [] {
      JoinEmptyLast(xs, sep);
    }
  }

  /** Splitting undoes joining, as long as no part contains the separator. */
  lemma {:induction false} SplitJoin(xs: seq<string>, sep: char)
    requires xs != [] && Free(xs, sep)
    ensures Split(Join(xs, sep), sep) == xs
  {
    if |xs| == 1 {
      SplitPlain(xs[0], sep);
    } else {
      forall k | 0 <= k < |xs[1..]| ensures sep !in xs[1..][k] {
        assert xs[1..][k] == xs[k + 1];
      }
      SplitJoin(xs[1..], sep);
      SplitAt(xs[0], Join(xs[1..], sep), sep);
    }
  }

  lemma {:induction false} JoinEnds(xs: seq<string>, sep: char)
    requires xs != [] && xs[0] != [] && xs[|xs| - 1] != []
    ensures var s := Join(xs, sep); s != [] && s[0] == xs[0][0] && s[|s| - 1] == xs[|xs| - 1][|xs[|xs| - 1]| - 1]
  {
    if |xs| > 1 {
      if |xs| == 2 {
        assert Join(xs[1..], sep) == xs[1];
      } else {
        JoinTail(xs[1..], sep);
      }
    }
  }

  lemma {:induction false} JoinTail(xs: seq<string>, sep: char)
    requires xs != [] && xs[|xs| - 1] != []
    ensures var s := Join(xs, sep); s != [] && s[|s| - 1] == xs[|xs| - 1][|xs[|xs| - 1]| - 1]
  {
    if |xs| > 1 {
      JoinTail(xs[1..], sep);
    }
  }

  /** A list stored as joined text and read back by trimming the separator and splitting is
      the same list, if its parts are free of the separator and the outer ones not empty. */
  lemma ReadBack(xs: seq<string>, sep: char)
    requires xs != [] && Free(xs, sep) && xs[0] != [] && xs[|xs| - 1] != []
    ensures Join(xs, sep) != [] && Split(Trim(Only(sep), Join(xs, sep)), sep) == xs
  {
    JoinEnds(xs, sep);
    TrimFixed(Only(sep), Join(xs, sep));
    SplitJoin(xs, sep);
  }
}
