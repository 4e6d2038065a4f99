/**
 * Equijoins over records: the joined record, the matches of one left record
 * against a sequence of right records, and the reference nested-loop join in
 * the order left record, then right record.
 */
module Joins {
  import opened Records

  /**
   * Why a join iterator's next() gives no record: the join is exhausted, or
   * the index probe could not be built.
   */
  datatype JoinError = NoSuchElement | ProbeFailed

  /** The join-column value of a record. */
  function Key(rec: Record, col: nat): Value
    requires col < |rec.values|
  {
    rec.values[col]
  }

  /** The joined record: the left record's values followed by the right record's. */
  function JoinRecords(l: Record, r: Record): (joined: Record)
    ensures |joined.values| == |l.values| + |r.values|
    ensures joined.values[..|l.values|] == l.values && joined.values[|l.values|..] == r.values
  {
    Record(l.values + r.values)
  }

  /**
   * The join predicate: both join columns exist and hold equal values. Where
   * the columns exist (as the iterators require) this is the engine's
   * `leftJoinValue.equals(rightJoinValue)`.
   */
  predicate KeysMatch(l: Record, r: Record, lc: nat, rc: nat) {
    lc < |l.values| && rc < |r.values| && Key(l, lc) == Key(r, rc)
  }

  /** The joins of `l` with the key-equal records of `rs`, in the order of `rs`. */
  function Matches(l: Record, rs: seq<Record>, lc: nat, rc: nat): (out: seq<Record>)
    ensures |out| <= |rs|
  {
    if rs == [] then []
    else (if KeysMatch(l, rs[0], lc, rc) then [JoinRecords(l, rs[0])] else []) + Matches(l, rs[1..], lc, rc)
  }

  /** The nested-loop join: for each left record in order, its matches in `rs`. */
  function NestedLoopJoin(ls: seq<Record>, rs: seq<Record>, lc: nat, rc: nat): seq<Record> {
    if ls == [] then [] else Matches(ls[0], rs, lc, rc) + NestedLoopJoin(ls[1..], rs, lc, rc)
  }

  /** One left page joined with each right page in turn. */
  function LeftPageJoin(lp: Page, rights: seq<Page>, lc: nat, rc: nat): seq<Record> {
    if rights == [] then []
    else NestedLoopJoin(lp, rights[0], lc, rc) + LeftPageJoin(lp, rights[1..], lc, rc)
  }

  /**
   * The block nested-loop join order with one-page blocks: for each left
   * page, for each right page, for each left record of the page, for each
   * matching right record of the page.
   */
  function BnljReference(lefts: seq<Page>, rights: seq<Page>, lc: nat, rc: nat): seq<Record> {
    if lefts == [] then []
    else LeftPageJoin(lefts[0], rights, lc, rc) + BnljReference(lefts[1..], rights, lc, rc)
  }

  // ---------------------------------------------------------------------------
  // What the joins contain
  // ---------------------------------------------------------------------------

  /** `o` is the join record of `l` and `r`, whose keys are equal. */
  predicate JoinedPair(l: Record, r: Record, lc: nat, rc: nat, o: Record) {
    KeysMatch(l, r, lc, rc) && o == JoinRecords(l, r)
  }

  /** `o` is in the matches of `l` exactly when it joins `l` with a key-equal record of `rs`. */
  lemma {:induction false} MatchesMembership(l: Record, rs: seq<Record>, lc: nat, rc: nat, o: Record)
    ensures o in Matches(l, rs, lc, rc) <==> exists j :: 0 <= j < |rs| && JoinedPair(l, rs[j], lc, rc, o)
  {
    if rs != [] {
      var t := rs[1..];
      MatchesMembership(l, t, lc, rc, o);
      if o in Matches(l, rs, lc, rc) {
        if o in Matches(l, t, lc, rc) {
          var j :| 0 <= j < |t| && JoinedPair(l, t[j], lc, rc, o);
          assert rs[j + 1] == t[j];
        } else {
          assert JoinedPair(l, rs[0], lc, rc, o);
        }
      }
      if exists j :: 0 <= j < |rs| && JoinedPair(l, rs[j], lc, rc, o) {
        var j :| 0 <= j < |rs| && JoinedPair(l, rs[j], lc, rc, o);
        if j > 0 {
          assert t[j - 1] == rs[j];
        }
      }
    }
  }

  /** `o` is in the nested-loop join exactly when it joins a left and a right record with equal keys. */
  lemma {:induction false} NestedLoopJoinMembership(ls: seq<Record>, rs: seq<Record>, lc: nat, rc: nat, o: Record)
    ensures o in NestedLoopJoin(ls, rs, lc, rc) <==>
              exists i, j :: 0 <= i < |ls| && 0 <= j < |rs| && JoinedPair(ls[i], rs[j], lc, rc, o)
  {
    if ls != [] {
      var t := ls[1..];
      NestedLoopJoinMembership(t, rs, lc, rc, o);
      MatchesMembership(ls[0], rs, lc, rc, o);
      assert NestedLoopJoin(ls, rs, lc, rc) == Matches(ls[0], rs, lc, rc) + NestedLoopJoin(t, rs, lc, rc);
      if o in NestedLoopJoin(ls, rs, lc, rc) {
        if o in Matches(ls[0], rs, lc, rc) {
          var j :| 0 <= j < |rs| && JoinedPair(ls[0], rs[j], lc, rc, o);
        } else {
          var i, j :| 0 <= i < |t| && 0 <= j < |rs| && JoinedPair(t[i], rs[j], lc, rc, o);
          assert ls[i + 1] == t[i];
        }
      }
      if exists i, j :: 0 <= i < |ls| && 0 <= j < |rs| && JoinedPair(ls[i], rs[j], lc, rc, o) {
        var i, j :| 0 <= i < |ls| && 0 <= j < |rs| && JoinedPair(ls[i], rs[j], lc, rc, o);
        if i > 0 {
          assert t[i - 1] == ls[i];
          assert o in NestedLoopJoin(t, rs, lc, rc);
        } else {
          assert o in Matches(ls[0], rs, lc, rc);
        }
      }
    }
  }

  // ---------------------------------------------------------------------------
  // How the joins split over concatenated inputs
  // ---------------------------------------------------------------------------

  lemma {:induction false} MatchesAppend(l: Record, a: seq<Record>, b: seq<Record>, lc: nat, rc: nat)
    ensures Matches(l, a + b, lc, rc) == Matches(l, a, lc, rc) + Matches(l, b, lc, rc)
  {
    if a == [] {
      assert a + b == b;
    } else {
      assert (a + b)[0] == a[0];
      assert (a + b)[1..] == a[1..] + b;
      MatchesAppend(l, a[1..], b, lc, rc);
    }
  }

  /** Splitting the left input splits the nested-loop join at the same point. */
  lemma {:induction false} NestedLoopJoinAppendLeft(a: seq<Record>, b: seq<Record>, rs: seq<Record>, lc: nat, rc: nat)
    ensures NestedLoopJoin(a + b, rs, lc, rc) == NestedLoopJoin(a, rs, lc, rc) + NestedLoopJoin(b, rs, lc, rc)
  {
    if a == [] {
      assert a + b == b;
    } else {
      assert (a + b)[0] == a[0];
      assert (a + b)[1..] == a[1..] + b;
      NestedLoopJoinAppendLeft(a[1..], b, rs, lc, rc);
    }
  }

  /** Splitting the right input splits the nested-loop join's contents (the order interleaves). */
  lemma {:induction false} NestedLoopJoinAppendRight(ls: seq<Record>, a: seq<Record>, b: seq<Record>, lc: nat, rc: nat)
    ensures multiset(NestedLoopJoin(ls, a + b, lc, rc))
            == multiset(NestedLoopJoin(ls, a, lc, rc)) + multiset(NestedLoopJoin(ls, b, lc, rc))
  {
    if ls != [] {
      MatchesAppend(ls[0], a, b, lc, rc);
      NestedLoopJoinAppendRight(ls[1..], a, b, lc, rc);
      var ma, mb := Matches(ls[0], a, lc, rc), Matches(ls[0], b, lc, rc);
      var ta, tb := NestedLoopJoin(ls[1..], a, lc, rc), NestedLoopJoin(ls[1..], b, lc, rc);
      calc {
        multiset(NestedLoopJoin(ls, a + b, lc, rc));
        multiset(ma + mb) + multiset(NestedLoopJoin(ls[1..], a + b, lc, rc));
        (multiset(ma) + multiset(mb)) + (multiset(ta) + multiset(tb));
        (multiset(ma) + multiset(ta)) + (multiset(mb) + multiset(tb));
        multiset(ma + ta) + multiset(mb + tb);
      }
    }
  }

  /** Nothing on the right joins to nothing. */
  lemma {:induction false} NestedLoopJoinEmptyRight(ls: seq<Record>, lc: nat, rc: nat)
    ensures NestedLoopJoin(ls, [], lc, rc) == []
  {
    if ls != [] {
      NestedLoopJoinEmptyRight(ls[1..], lc, rc);
    }
  }

  /** One left page against all right pages holds its join with the whole right relation. */
  lemma {:induction false} LeftPageJoinIsJoin(lp: Page, rights: seq<Page>, lc: nat, rc: nat)
    ensures multiset(LeftPageJoin(lp, rights, lc, rc)) == multiset(NestedLoopJoin(lp, Concat(rights), lc, rc))
  {
    if rights == [] {
      NestedLoopJoinEmptyRight(lp, lc, rc);
    } else {
      LeftPageJoinIsJoin(lp, rights[1..], lc, rc);
      NestedLoopJoinAppendRight(lp, rights[0], Concat(rights[1..]), lc, rc);
      assert Concat(rights) == rights[0] + Concat(rights[1..]);
    }
  }

  /**
   * The block nested-loop order holds exactly the records of the nested-loop
   * join of the two whole relations: the page structure changes only the
   * order in which they appear.
   */
  lemma {:induction false} BnljReferenceIsJoin(lefts: seq<Page>, rights: seq<Page>, lc: nat, rc: nat)
    ensures multiset(BnljReference(lefts, rights, lc, rc))
            == multiset(NestedLoopJoin(Concat(lefts), Concat(rights), lc, rc))
  {
    if lefts != [] {
      BnljReferenceIsJoin(lefts[1..], rights, lc, rc);
      LeftPageJoinIsJoin(lefts[0], rights, lc, rc);
      NestedLoopJoinAppendLeft(lefts[0], Concat(lefts[1..]), Concat(rights), lc, rc);
    }
  }

  /** A left relation with no records joins to nothing, whatever the right pages. */
  lemma {:induction false} EmptyLeftJoinsNothing(lefts: seq<Page>, rights: seq<Page>, lc: nat, rc: nat)
    requires forall p :: 0 <= p < |lefts| ==> lefts[p] == []
    ensures BnljReference(lefts, rights, lc, rc) == []
  {
    if lefts != [] {
      EmptyLeftJoinsNothing(lefts[1..], rights, lc, rc);
      EmptyPageJoinsNothing(lefts[0], rights, lc, rc);
    }
  }

  lemma {:induction false} EmptyPageJoinsNothing(lp: Page, rights: seq<Page>, lc: nat, rc: nat)
    requires lp == []
    ensures LeftPageJoin(lp, rights, lc, rc) == []
  {
    if rights != [] {
      EmptyPageJoinsNothing(lp, rights[1..], lc, rc);
    }
  }

  /**
   * A record is in the block nested-loop order exactly when it joins a left
   * and a right record whose join-column values are equal.
   */
  lemma BnljReferenceMembership(lefts: seq<Page>, rights: seq<Page>, lc: nat, rc: nat, o: Record)
    ensures o in BnljReference(lefts, rights, lc, rc) <==>
              exists i, j :: 0 <= i < |Concat(lefts)| && 0 <= j < |Concat(rights)| &&
                JoinedPair(Concat(lefts)[i], Concat(rights)[j], lc, rc, o)
  {
    BnljReferenceIsJoin(lefts, rights, lc, rc);
    NestedLoopJoinMembership(Concat(lefts), Concat(rights), lc, rc, o);
    assert o in BnljReference(lefts, rights, lc, rc)
       <==> o in multiset(BnljReference(lefts, rights, lc, rc));
    assert o in NestedLoopJoin(Concat(lefts), Concat(rights), lc, rc)
       <==> o in multiset(NestedLoopJoin(Concat(lefts), Concat(rights), lc, rc));
  }

  // ---------------------------------------------------------------------------
  // The matches of one record as a filter of the right records
  // ---------------------------------------------------------------------------

  /** The records of `rs`, in order, whose column `rc` holds `v`: what an equality probe on `rc` returns. */
  function KeyFilter(rs: seq<Record>, rc: nat, v: Value): (out: seq<Record>)
    ensures |out| <= |rs|
    ensures forall k :: 0 <= k < |out| ==> rc < |out[k].values| && Key(out[k], rc) == v
  {
    if rs == [] then []
    else (if rc < |rs[0].values| && Key(rs[0], rc) == v then [rs[0]] else []) + KeyFilter(rs[1..], rc, v)
  }

  /** `l` joined with each record of `rs` in turn. */
  function JoinEach(l: Record, rs: seq<Record>): (out: seq<Record>)
    ensures |out| == |rs|
  {
    if rs == [] then [] else [JoinRecords(l, rs[0])] + JoinEach(l, rs[1..])
  }

  /** The matches of `l` are `l` joined with the records an equality probe on its key would return. */
  lemma {:induction false} MatchesAreKeyFilter(l: Record, rs: seq<Record>, lc: nat, rc: nat)
    requires lc < |l.values|
    ensures Matches(l, rs, lc, rc) == JoinEach(l, KeyFilter(rs, rc, Key(l, lc)))
  {
    if rs != [] {
      MatchesAreKeyFilter(l, rs[1..], lc, rc);
      var v := Key(l, lc);
      var head := if rc < |rs[0].values| && Key(rs[0], rc) == v then [rs[0]] else [];
      JoinEachAppend(l, head, KeyFilter(rs[1..], rc, v));
    }
  }

  lemma {:induction false} JoinEachAppend(l: Record, a: seq<Record>, b: seq<Record>)
    ensures JoinEach(l, a + b) == JoinEach(l, a) + JoinEach(l, b)
  {
    if a == [] {
      assert a + b == b;
    } else {
      assert (a + b)[0] == a[0] && (a + b)[1..] == a[1..] + b;
      JoinEachAppend(l, a[1..], b);
    }
  }

  // ---------------------------------------------------------------------------
  // A worked example
  // ---------------------------------------------------------------------------

  /** A two-column record: the integer n, then the string `tag`. */
  function Row(n: int, tag: string): (rec: Record)
    ensures |rec.values| == 2 && rec.values[0] == IntValue(n) && rec.values[1] == StringValue(tag)
  {
    Record([IntValue(n), StringValue(tag)])
  }

  /** Joining {(1,a),(2,b),(3,c)} with {(2,x),(3,y),(4,z)} on the numbers gives (2,b,2,x) then (3,c,3,y). */
  lemma ThreeByThreeJoin()
    ensures NestedLoopJoin([Row(1, "a"), Row(2, "b"), Row(3, "c")], [Row(2, "x"), Row(3, "y"), Row(4, "z")], 0, 0)
            == [Record([IntValue(2), StringValue("b"), IntValue(2), StringValue("x")]),
                Record([IntValue(3), StringValue("c"), IntValue(3), StringValue("y")])]
  {
    var rs := [Row(2, "x"), Row(3, "y"), Row(4, "z")];
    var ls := [Row(1, "a"), Row(2, "b"), Row(3, "c")];
    assert rs[1..] == [Row(3, "y"), Row(4, "z")] && rs[1..][1..] == [Row(4, "z")] && rs[1..][1..][1..] == [];
    assert ls[1..] == [Row(2, "b"), Row(3, "c")] && ls[1..][1..] == [Row(3, "c")] && ls[1..][1..][1..] == [];
    assert Matches(Row(1, "a"), rs, 0, 0) == [];
    assert Matches(Row(2, "b"), rs, 0, 0) == [JoinRecords(Row(2, "b"), Row(2, "x"))];
    assert Matches(Row(3, "c"), rs, 0, 0) == [JoinRecords(Row(3, "c"), Row(3, "y"))];
    assert NestedLoopJoin(ls[1..][1..][1..], rs, 0, 0) == [];
    assert NestedLoopJoin(ls[1..][1..], rs, 0, 0) == [JoinRecords(Row(3, "c"), Row(3, "y"))];
    assert NestedLoopJoin(ls[1..], rs, 0, 0) == [JoinRecords(Row(2, "b"), Row(2, "x")), JoinRecords(Row(3, "c"), Row(3, "y"))];
    assert [IntValue(2), StringValue("b")] + [IntValue(2), StringValue("x")]
        == [IntValue(2), StringValue("b"), IntValue(2), StringValue("x")];
    assert [IntValue(3), StringValue("c")] + [IntValue(3), StringValue("y")]
        == [IntValue(3), StringValue("c"), IntValue(3), StringValue("y")];
  }

  /** The block nested-loop join of the example holds those two records however the rows are paged. */
  lemma ThreeByThreeBnlj(lefts: seq<Page>, rights: seq<Page>)
    requires Concat(lefts) == [Row(1, "a"), Row(2, "b"), Row(3, "c")]
    requires Concat(rights) == [Row(2, "x"), Row(3, "y"), Row(4, "z")]
    ensures multiset(BnljReference(lefts, rights, 0, 0))
            == multiset{Record([IntValue(2), StringValue("b"), IntValue(2), StringValue("x")]),
                        Record([IntValue(3), StringValue("c"), IntValue(3), StringValue("y")])}
  {
    BnljReferenceIsJoin(lefts, rights, 0, 0);
    ThreeByThreeJoin();
  }
}
