/** Ordered, duplicate-free lists as the extractor builds them with
    `if f not in files: files.append(f)` and `list(dict.fromkeys(...))`. */
module Seqs {


  predicate NoDup(xs: seq<string>) {
    forall i, j :: 0 <= i < j < |xs| ==> xs[i] != xs[j]
  }

  /** First-seen-order de-duplication: walk `xs` and append each element not
      already collected. */
  function Dedup(xs: seq<string>): (d: seq<string>)
    ensures NoDup(d)
    ensures forall x :: x in d <==> x in xs
    ensures |d| <= |xs|
    decreases |xs|
  {
    if |xs| == 0 then []
    else
      var d := Dedup(xs[..|xs| - 1]);
      var x := xs[|xs| - 1];
      if x in d then d else d + [x]
  }

  /** Appending one element to the input appends it to the output exactly when it
      is new: the step the source's append loops take. */
  lemma DedupSnoc(xs: seq<string>, x: string)
    ensures Dedup(xs + [x]) == if x in Dedup(xs) then Dedup(xs) else Dedup(xs) + [x]
  {
    assert (xs + [x])[..|xs|] == xs;
  }

  lemma DedupEmpty(xs: seq<string>)
    ensures Dedup(xs) == [] <==> xs == []
  {
    if xs != [] {
      assert xs[0] in Dedup(xs);
    }
  }

  /** Index of the first occurrence of `x` in `xs`. */
  function FirstIndex(xs: seq<string>, x: string): (k: nat)
    requires x in xs
    ensures k < |xs| && xs[k] == x && x !in xs[..k]
  {
    if xs[0] == x then 0 else 1 + FirstIndex(xs[1..], x)
  }

  lemma FirstIndexInPrefix(xs: seq<string>, n: nat, x: string)
    requires n <= |xs| && x in xs[..n]
    ensures FirstIndex(xs, x) == FirstIndex(xs[..n], x)
  {
    var k := FirstIndex(xs, x);
    var k' := FirstIndex(xs[..n], x);
    assert xs[..n][..k'] == xs[..k'];
    assert xs[k'] == x;
  }

  /** The elements of Dedup(xs) appear in the order of their first occurrence in xs. */
  lemma {:induction false} DedupFirstSeenOrder(xs: seq<string>, i: nat, j: nat)
    requires i < j < |Dedup(xs)|
    ensures FirstIndex(xs, Dedup(xs)[i]) < FirstIndex(xs, Dedup(xs)[j])
    decreases |xs|
  {
    var n := |xs| - 1;
    var p := xs[..n];
    var d := Dedup(p);
    var x := xs[n];
    if x in d {
      DedupFirstSeenOrder(p, i, j);
      FirstIndexInPrefix(xs, n, d[i]);
      FirstIndexInPrefix(xs, n, d[j]);
    } else {
      assert Dedup(xs) == d + [x];
      FirstIndexInPrefix(xs, n, d[i]);
      if j < |d| {
        DedupFirstSeenOrder(p, i, j);
        FirstIndexInPrefix(xs, n, d[j]);
      } else {
        assert x !in p;
        assert x !in xs[..n];
      }
    }
  }

  /** `[f for f in xs if f not in ys]`. */
  function Without(xs: seq<string>, ys: seq<string>): (r: seq<string>)
    ensures forall x :: x in r <==> x in xs && x !in ys
    ensures NoDup(xs) ==> NoDup(r)
    decreases |xs|
  {
    if |xs| == 0 then []
    else
      var r := Without(xs[..|xs| - 1], ys);
      var x := xs[|xs| - 1];
      if x in ys then r else r + [x]
  }

  /** De-duplicating a list without repeats leaves it unchanged. */
  lemma {:induction false} DedupOfNoDup(xs: seq<string>)
    requires NoDup(xs)
    ensures Dedup(xs) == xs
    decreases |xs|
  {
    if |xs| > 0 {
      var p := xs[..|xs| - 1];
      assert NoDup(p);
      DedupOfNoDup(p);
      assert xs[|xs| - 1] !in p;
      assert p + [xs[|xs| - 1]] == xs;
    }
  }

  /** Removing the elements of a list that shares none leaves `xs` unchanged. */
  lemma {:induction false} WithoutDisjoint(xs: seq<string>, ys: seq<string>)
    requires forall x :: x in xs ==> x !in ys
    ensures Without(xs, ys) == xs
    decreases |xs|
  {
    if |xs| > 0 {
      var p := xs[..|xs| - 1];
      assert forall x :: x in p ==> x in xs;
      WithoutDisjoint(p, ys);
      assert p + [xs[|xs| - 1]] == xs;
    }
  }

  /** The source's `for f in new: if f not in files: files.append(f)` loop: extends
      a de-duplicated list with the unseen elements of `more`, in order. */
  method AppendUnseen(files: seq<string>, more: seq<string>, ghost prev: seq<string>)
      returns (r: seq<string>)
    requires files == Dedup(prev)
    ensures r == Dedup(prev + more)
  {
    r := files;
    var k := 0;
    assert prev + more[..0] == prev;
    while k < |more|
      invariant 0 <= k <= |more|
      invariant r == Dedup(prev + more[..k])
    {
      DedupSnoc(prev + more[..k], more[k]);
      assert prev + more[..k + 1] == (prev + more[..k]) + [more[k]];
      if more[k] !in r {
        r := r + [more[k]];
      }
      k := k + 1;
    }
    assert more[..k] == more;
  }
}
