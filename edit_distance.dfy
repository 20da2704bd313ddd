/** Optimal string alignment distance (the restricted Damerau-Levenshtein
    distance) of `damerau_levenshtein_osa` in `src/shared.cc`: edits are
    insertion, deletion, substitution and the transposition of two adjacent
    characters, and no substring is edited twice. */
module EditDistance {

  function Min(x: nat, y: nat): nat
  {
    if x <= y then x else y
  }

  function Min3(x: nat, y: nat, z: nat): nat
  {
    Min(Min(x, y), z)
  }

  /** Whether the last two characters of `a[..i]` are those of `b[..j]` swapped. */
  predicate Transposed(a: string, b: string, i: nat, j: nat)
    requires i <= |a| && j <= |b|
  {
    i > 1 && j > 1 && a[i - 1] == b[j - 2] && a[i - 2] == b[j - 1]
  }

  /** One cell of the table from its neighbours: deletion (`up`), insertion
      (`left`), substitution (`diag`) and, after a swapped pair, transposition
      (`diag2`, two rows and two columns back). */
  function Cell(a: string, b: string, i: nat, j: nat, up: nat, left: nat, diag: nat, diag2: nat): nat
    requires 0 < i <= |a| && 0 < j <= |b|
  {
    var cost := if a[i - 1] == b[j - 1] then 0 else 1;
    var best := Min3(up + 1, left + 1, diag + cost);
    if Transposed(a, b, i, j) then Min(best, diag2 + 1) else best
  }

  /** The distance between the prefixes `a[..i]` and `b[..j]`, by the recurrence:
      a row or column against the empty prefix costs its length. */
  function Osa(a: string, b: string, i: nat, j: nat): nat
    requires i <= |a| && j <= |b|
    decreases i + j, 1
  {
    if i == 0 then j
    else if j == 0 then i
    else InnerOsa(a, b, i, j)
  }

  /** An inner cell of the recurrence, from the cells it depends on. */
  function InnerOsa(a: string, b: string, i: nat, j: nat): nat
    requires 0 < i <= |a| && 0 < j <= |b|
    decreases i + j, 0
  {
    Cell(a, b, i, j, Osa(a, b, i - 1, j), Osa(a, b, i, j - 1), Osa(a, b, i - 1, j - 1),
         if i > 1 && j > 1 then Osa(a, b, i - 2, j - 2) else 0)
  }

  function Distance(a: string, b: string): nat
  {
    Osa(a, b, |a|, |b|)
  }

  /** `damerau_levenshtein_osa`: three rolling rows, `prev2` two rows back,
      `prev` the previous row and `curr` the one being filled. */
  method DamerauLevenshteinOsa(a: string, b: string) returns (d: nat)
    ensures d == Distance(a, b)
  {
    var n := |a|;
    var m := |b|;
    if n == 0 {
      return m;
    }
    if m == 0 {
      return n;
    }
    var prev2: seq<nat> := seq(m + 1, _ => 0);
    var curr: seq<nat> := seq(m + 1, _ => 0);
    var prev: seq<nat> := seq(m + 1, k => k);

    var i := 1;
    while i <= n
      invariant 1 <= i <= n + 1
      invariant |prev| == m + 1 && |prev2| == m + 1 && |curr| == m + 1
      invariant forall k :: 0 <= k <= m ==> prev[k] == Osa(a, b, i - 1, k)
      invariant i >= 2 ==> forall k :: 0 <= k <= m ==> prev2[k] == Osa(a, b, i - 2, k)
    {
      curr := curr[0 := i];
      var j := 1;
      while j <= m
        invariant 1 <= j <= m + 1
        invariant |curr| == m + 1
        invariant forall k :: 0 <= k < j ==> curr[k] == Osa(a, b, i, k)
      {
        var cost := if a[i - 1] == b[j - 1] then 0 else 1;
        var cell := Min3(prev[j] + 1, curr[j - 1] + 1, prev[j - 1] + cost);
        if i > 1 && j > 1 && a[i - 1] == b[j - 2] && a[i - 2] == b[j - 1] {
          cell := Min(cell, prev2[j - 2] + 1);
        }
        assert cell == Cell(a, b, i, j, prev[j], curr[j - 1], prev[j - 1],
                            if i > 1 && j > 1 then prev2[j - 2] else 0);
        OsaInner(a, b, i, j);
        curr := curr[j := cell];
        j := j + 1;
      }
      prev2 := prev;
      prev := curr;
      i := i + 1;
    }
    d := prev[m];
  }

  /** Against an empty string the distance is the other string's length. */
  lemma DistanceToEmpty(a: string, b: string)
    ensures Distance(a, "") == |a| && Distance("", b) == |b|
  {
  }

  /** A cell is never more than one edit past any of the neighbours it draws on. */
  lemma CellBounds(a: string, b: string, i: nat, j: nat, up: nat, left: nat, diag: nat, diag2: nat)
    requires 0 < i <= |a| && 0 < j <= |b|
    ensures var c := Cell(a, b, i, j, up, left, diag, diag2);
            && c <= up + 1 && c <= left + 1 && c <= diag + 1
            && (a[i - 1] == b[j - 1] ==> c <= diag)
            && (Transposed(a, b, i, j) ==> c <= diag2 + 1)
            && (c == up + 1 || c == left + 1 || (c == diag && a[i - 1] == b[j - 1]) || c == diag + 1
                || (Transposed(a, b, i, j) && c == diag2 + 1))
  {
  }

  /** `Osa` at an inner cell, read off its four neighbours. */
  lemma OsaInner(a: string, b: string, i: nat, j: nat)
    requires 0 < i <= |a| && 0 < j <= |b|
    ensures Osa(a, b, i, j) == Cell(a, b, i, j, Osa(a, b, i - 1, j), Osa(a, b, i, j - 1),
                                    Osa(a, b, i - 1, j - 1), if i > 1 && j > 1 then Osa(a, b, i - 2, j - 2) else 0)
  {
  }

  lemma {:induction false} OsaUpper(a: string, b: string, i: nat, j: nat)
    requires i <= |a| && j <= |b|
    ensures Osa(a, b, i, j) <= if i >= j then i else j
    decreases i + j
  {
    if i > 0 && j > 0 {
      OsaUpper(a, b, i - 1, j - 1);
      OsaInner(a, b, i, j);
      CellBounds(a, b, i, j, Osa(a, b, i - 1, j), Osa(a, b, i, j - 1),
                 Osa(a, b, i - 1, j - 1), if i > 1 && j > 1 then Osa(a, b, i - 2, j - 2) else 0);
    }
  }

  lemma {:induction false} OsaLower(a: string, b: string, i: nat, j: nat)
    requires i <= |a| && j <= |b|
    ensures Osa(a, b, i, j) >= if i >= j then i - j else j - i
    decreases i + j
  {
    if i > 0 && j > 0 {
      OsaInner(a, b, i, j);
      CellBounds(a, b, i, j, Osa(a, b, i - 1, j), Osa(a, b, i, j - 1),
                 Osa(a, b, i - 1, j - 1), if i > 1 && j > 1 then Osa(a, b, i - 2, j - 2) else 0);
      OsaLower(a, b, i - 1, j);
      OsaLower(a, b, i, j - 1);
      OsaLower(a, b, i - 1, j - 1);
      if Transposed(a, b, i, j) {
        OsaLower(a, b, i - 2, j - 2);
      }
    }
  }

  /** No more edits than the longer string has characters, no fewer than the
      difference of the lengths. */
  lemma DistanceBounds(a: string, b: string)
    ensures Distance(a, b) <= if |a| >= |b| then |a| else |b|
    ensures Distance(a, b) >= if |a| >= |b| then |a| - |b| else |b| - |a|
  {
    OsaUpper(a, b, |a|, |b|);
    OsaLower(a, b, |a|, |b|);
  }

  lemma PrefixSnoc(a: string, i: nat)
    requires 0 < i <= |a|
    ensures a[..i] == a[..i - 1] + [a[i - 1]]
  {
  }

  lemma {:induction false} OsaZero(a: string, b: string, i: nat, j: nat)
    requires i <= |a| && j <= |b|
    ensures Osa(a, b, i, j) == 0 <==> i == j && a[..i] == b[..j]
    decreases i + j
  {
    if i > 0 && j > 0 {
      var diag := Osa(a, b, i - 1, j - 1);
      OsaInner(a, b, i, j);
      CellBounds(a, b, i, j, Osa(a, b, i - 1, j), Osa(a, b, i, j - 1),
                 diag, if i > 1 && j > 1 then Osa(a, b, i - 2, j - 2) else 0);
      OsaZero(a, b, i - 1, j - 1);
      PrefixSnoc(a, i);
      PrefixSnoc(b, j);
      if i == j && a[..i] == b[..j] {
        assert a[i - 1] == b[j - 1] && a[..i - 1] == b[..j - 1] by {
          assert a[..i][i - 1] == b[..j][j - 1];
          assert a[..i][..i - 1] == b[..j][..j - 1];
        }
        assert diag == 0;
      }
    }
  }

  /** The distance is zero exactly for equal strings. */
  lemma DistanceZeroIff(a: string, b: string)
    ensures Distance(a, b) == 0 <==> a == b
  {
    OsaZero(a, b, |a|, |b|);
    assert a[..|a|] == a && b[..|b|] == b;
  }

  lemma CellSymmetric(a: string, b: string, i: nat, j: nat, up: nat, left: nat, diag: nat, diag2: nat)
    requires 0 < i <= |a| && 0 < j <= |b|
    ensures Cell(a, b, i, j, up, left, diag, diag2) == Cell(b, a, j, i, left, up, diag, diag2)
  {
  }

  lemma {:induction false} OsaSymmetric(a: string, b: string, i: nat, j: nat)
    requires i <= |a| && j <= |b|
    ensures Osa(a, b, i, j) == Osa(b, a, j, i)
    decreases i + j
  {
    if i > 0 && j > 0 {
      OsaInner(a, b, i, j);
      OsaInner(b, a, j, i);
      CellSymmetric(a, b, i, j, Osa(b, a, j, i - 1), Osa(b, a, j - 1, i), Osa(b, a, j - 1, i - 1),
                    if i > 1 && j > 1 then Osa(b, a, j - 2, i - 2) else 0);
      OsaSymmetric(a, b, i - 1, j);
      OsaSymmetric(a, b, i, j - 1);
      OsaSymmetric(a, b, i - 1, j - 1);
      if i > 1 && j > 1 {
        OsaSymmetric(a, b, i - 2, j - 2);
      }
    }
  }

  lemma DistanceSymmetric(a: string, b: string)
    ensures Distance(a, b) == Distance(b, a)
  {
    OsaSymmetric(a, b, |a|, |b|);
  }

  /** Swapping two adjacent characters costs one edit. */
  lemma AdjacentSwap(x: string, p: char, q: char, y: string)
    requires p != q
    ensures Distance(x + [p, q] + y, x + [q, p] + y) == 1
  {
    var a, b := x + [p, q] + y, x + [q, p] + y;
    DistanceZeroIff(a, b);
    assert a[|x|] != b[|x|];
    SwapPrefix(x, p, q, y);
    assert a[|x| + 2..] == y == b[|x| + 2..];
    OsaTail(a, b, |x| + 2, |x| + 2);
  }

  lemma SwapPrefix(x: string, p: char, q: char, y: string)
    ensures var a, b := x + [p, q] + y, x + [q, p] + y;
            Osa(a, b, |x| + 2, |x| + 2) <= 1
  {
    var a, b := x + [p, q] + y, x + [q, p] + y;
    var k := |x|;
    OsaZero(a, b, k, k);
    assert a[..k] == x && b[..k] == x;
    if p != q {
      assert Transposed(a, b, k + 2, k + 2);
    }
  }

  /** A common suffix adds nothing beyond the distance of what precedes it:
      when `a[i..]` and `b[j..]` are equal, matching them character by
      character costs nothing, whatever the lengths of the prefixes. */
  lemma {:induction false} OsaTail(a: string, b: string, i: nat, j: nat)
    requires i <= |a| && j <= |b| && a[i..] == b[j..]
    ensures Osa(a, b, |a|, |b|) <= Osa(a, b, i, j)
    decreases |a| - i
  {
    assert |a| - i == |b| - j;
    if i < |a| {
      assert a[i] == a[i..][0] == b[j..][0] == b[j];
      assert a[i + 1..] == a[i..][1..] == b[j..][1..] == b[j + 1..];
      OsaInner(a, b, i + 1, j + 1);
      CellBounds(a, b, i + 1, j + 1, Osa(a, b, i, j + 1), Osa(a, b, i + 1, j), Osa(a, b, i, j),
                 if i > 0 && j > 0 then Osa(a, b, i - 1, j - 1) else 0);
      OsaTail(a, b, i + 1, j + 1);
    }
  }
}
