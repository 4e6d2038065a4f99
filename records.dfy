/** Records, pages and runs as the physical operators see them. */
module Records {
  /** A typed column value (the DataBox of the engine); value equality is the join predicate. */
  datatype Value = IntValue(n: int) | StringValue(s: string)

  /** An ordered, fixed-arity tuple of column values. */
  datatype Record = Record(values: seq<Value>)

  /** A page holds a sequence of records; a run is a sequence of records too. */
  type Page = seq<Record>

  /** Every record of `rs` has a column at index `col`. */
  predicate HasColumn(rs: seq<Record>, col: nat) {
    forall i :: 0 <= i < |rs| ==> col < |rs[i].values|
  }

  /** Every record on every page has a column at index `col`. */
  predicate PagesHaveColumn(pages: seq<Page>, col: nat) {
    forall p :: 0 <= p < |pages| ==> HasColumn(pages[p], col)
  }

  /** Every page holds at least one record. */
  predicate NonEmptyPages(pages: seq<Page>) {
    forall p :: 0 <= p < |pages| ==> pages[p] != []
  }

  /** The records of a sequence of pages or runs, in order. */
  function Concat<T>(runs: seq<seq<T>>): seq<T> {
    if runs == [] then [] else runs[0] + Concat(runs[1..])
  }

  lemma {:induction false} ConcatAppend<T>(runs: seq<seq<T>>, run: seq<T>)
    ensures Concat(runs + [run]) == Concat(runs) + run
  {
    if runs == [] {
      assert runs + [run] == [run];
      assert [run][1..] == [];
    } else {
      assert (runs + [run])[1..] == runs[1..] + [run];
      ConcatAppend(runs[1..], run);
    }
  }

  lemma {:induction false} ConcatSplit<T>(runs: seq<seq<T>>, k: nat)
    requires k <= |runs|
    ensures Concat(runs) == Concat(runs[..k]) + Concat(runs[k..])
  {
    if k == 0 {
      assert runs[..0] == [];
      assert runs[0..] == runs;
    } else {
      ConcatSplit(runs[1..], k - 1);
      assert runs[1..][..k - 1] == runs[..k][1..];
      assert runs[1..][k - 1..] == runs[k..];
    }
  }

  lemma {:induction false} ConcatSingle<T>(run: seq<T>)
    ensures Concat([run]) == run
  {
    assert [run][1..] == [];
  }

  /** A non-empty sequence holds its head and its tail. */
  lemma MultisetHeadTail<T>(s: seq<T>)
    requires s != []
    ensures multiset(s) == multiset{s[0]} + multiset(s[1..])
  {
    assert s == [s[0]] + s[1..];
  }

  /** Replacing one run changes the concatenation's contents by exactly that replacement. */
  lemma {:induction false} ConcatUpdate<T>(runs: seq<seq<T>>, i: nat, run: seq<T>)
    requires i < |runs|
    ensures multiset(Concat(runs[i := run])) + multiset(runs[i]) == multiset(Concat(runs)) + multiset(run)
    ensures |Concat(runs[i := run])| + |runs[i]| == |Concat(runs)| + |run|
  {
    if i == 0 {
      assert runs[0 := run][1..] == runs[1..];
    } else {
      assert runs[i := run][1..] == runs[1..][i - 1 := run];
      assert runs[i := run][0] == runs[0] && runs[1..][i - 1] == runs[i];
      ConcatUpdate(runs[1..], i - 1, run);
      var tail := Concat(runs[1..][i - 1 := run]);
      assert Concat(runs[i := run]) == runs[0] + tail;
      assert multiset(Concat(runs)) == multiset(runs[0]) + multiset(Concat(runs[1..]));
      assert |Concat(runs)| == |runs[0]| + |Concat(runs[1..])|;
      calc {
        multiset(Concat(runs[i := run])) + multiset(runs[i]);
        multiset(runs[0]) + (multiset(tail) + multiset(runs[i]));
        multiset(runs[0]) + (multiset(Concat(runs[1..])) + multiset(run));
      }
    }
  }

  lemma {:induction false} ConcatOfEmpty<T>(runs: seq<seq<T>>)
    requires forall i :: 0 <= i < |runs| ==> runs[i] == []
    ensures Concat(runs) == []
  {
    if runs != [] {
      ConcatOfEmpty(runs[1..]);
    }
  }

  lemma {:induction false} ConcatOfAppend<T>(a: seq<seq<T>>, b: seq<seq<T>>)
    ensures Concat(a + b) == Concat(a) + Concat(b)
  {
    ConcatSplit(a + b, |a|);
    assert (a + b)[..|a|] == a && (a + b)[|a|..] == b;
  }

  /** The runs made by concatenating each group of pages. */
  function Flatten<T>(groups: seq<seq<seq<T>>>): (runs: seq<seq<T>>)
    ensures |runs| == |groups|
  {
    seq(|groups|, j requires 0 <= j < |groups| => Concat(groups[j]))
  }

  /** Concatenating each group and then the results gives the same records as concatenating twice. */
  lemma {:induction false} ConcatFlatten<T>(groups: seq<seq<seq<T>>>)
    ensures Concat(Flatten(groups)) == Concat(Concat(groups))
  {
    if groups != [] {
      ConcatFlatten(groups[1..]);
      assert Flatten(groups)[1..] == Flatten(groups[1..]);
      assert Flatten(groups)[0] == Concat(groups[0]);
      ConcatOfAppend(groups[0], Concat(groups[1..]));
    }
  }

  /** Pointwise permutations of runs concatenate to a permutation. */
  lemma {:induction false} ConcatPermutation<T>(a: seq<seq<T>>, b: seq<seq<T>>)
    requires |a| == |b|
    requires forall j :: 0 <= j < |a| ==> multiset(a[j]) == multiset(b[j])
    ensures multiset(Concat(a)) == multiset(Concat(b))
  {
    if a != [] {
      ConcatPermutation(a[1..], b[1..]);
    }
  }
}
