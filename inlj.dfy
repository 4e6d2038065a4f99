/**
 * The index nested-loop join iterator: for each left record in order, an
 * equality probe on the right join column with the left record's join value;
 * the first record the probe returns is joined with the left record, and a
 * left record whose probe returns nothing is skipped.
 *
 * The index is modelled by what the probe returns: `probe(v)` is the sequence
 * of right records an equality index scan on the right join column with value
 * `v` yields, in its order. Whether building that scan fails (a query-plan
 * error, e.g. an unindexed column) does not depend on the value, so it is the
 * constant `probeOk`.
 */
module Inlj {
  import opened Wrappers
  import opened Records
  import opened Joins
  import opened Cursors

  /** What one left record contributes: its join with the first record its probe returns, if any. */
  function FirstMatch(l: Record, probe: Value -> seq<Record>, lc: nat): (out: seq<Record>)
    ensures |out| <= 1
    ensures out != [] <==> lc < |l.values| && probe(Key(l, lc)) != []
  {
    if lc < |l.values| && probe(Key(l, lc)) != [] then [JoinRecords(l, probe(Key(l, lc))[0])] else []
  }

  /** The index nested-loop join order: for each left record in turn, its first match. */
  function InljReference(ls: seq<Record>, probe: Value -> seq<Record>, lc: nat): (out: seq<Record>)
    ensures |out| <= |ls|
  {
    if ls == [] then [] else FirstMatch(ls[0], probe, lc) + InljReference(ls[1..], probe, lc)
  }

  lemma InljReferenceAt(ls: seq<Record>, probe: Value -> seq<Record>, lc: nat, p: nat)
    requires p < |ls|
    ensures InljReference(ls[p..], probe, lc) == FirstMatch(ls[p], probe, lc) + InljReference(ls[p + 1..], probe, lc)
  {
    assert ls[p..][0] == ls[p] && ls[p..][1..] == ls[p + 1..];
  }

  /** A left record whose probe returns nothing contributes nothing. */
  lemma SkipLeft(ls: seq<Record>, probe: Value -> seq<Record>, lc: nat, p: nat)
    requires p < |ls| && lc < |ls[p].values| && probe(Key(ls[p], lc)) == []
    ensures InljReference(ls[p..], probe, lc) == InljReference(ls[p + 1..], probe, lc)
  {
    InljReferenceAt(ls, probe, lc, p);
  }

  /** A left record whose probe returns something contributes its join with the first record returned. */
  lemma HitLeft(ls: seq<Record>, probe: Value -> seq<Record>, lc: nat, p: nat)
    requires p < |ls| && lc < |ls[p].values| && probe(Key(ls[p], lc)) != []
    ensures InljReference(ls[p..], probe, lc)
            == [JoinRecords(ls[p], probe(Key(ls[p], lc))[0])] + InljReference(ls[p + 1..], probe, lc)
  {
    InljReferenceAt(ls, probe, lc, p);
  }

  /** The probe is an equality scan on column `rc`: every record it returns for `v` holds `v` there. */
  ghost predicate ProbeAgrees(probe: Value -> seq<Record>, rc: nat) {
    forall v, k :: 0 <= k < |probe(v)| ==> rc < |probe(v)[k].values| && Key(probe(v)[k], rc) == v
  }

  /**
   * Every record of the join is a left record joined with a key-equal right
   * record the probe returned, and every left record whose probe returns
   * something contributes its first match.
   */
  lemma {:induction false} InljReferenceMembership(ls: seq<Record>, probe: Value -> seq<Record>, lc: nat, rc: nat,
                                                    o: Record)
    requires ProbeAgrees(probe, rc)
    ensures o in InljReference(ls, probe, lc) <==>
              exists i :: 0 <= i < |ls| && lc < |ls[i].values| && probe(Key(ls[i], lc)) != [] &&
                JoinedPair(ls[i], probe(Key(ls[i], lc))[0], lc, rc, o)
  {
    if ls != [] {
      var t := ls[1..];
      InljReferenceMembership(t, probe, lc, rc, o);
      if o in InljReference(ls, probe, lc) {
        if o in FirstMatch(ls[0], probe, lc) {
          assert JoinedPair(ls[0], probe(Key(ls[0], lc))[0], lc, rc, o);
        } else {
          var i :| 0 <= i < |t| && lc < |t[i].values| && probe(Key(t[i], lc)) != [] &&
                   JoinedPair(t[i], probe(Key(t[i], lc))[0], lc, rc, o);
          assert ls[i + 1] == t[i];
        }
      }
      if exists i :: 0 <= i < |ls| && lc < |ls[i].values| && probe(Key(ls[i], lc)) != [] &&
                     JoinedPair(ls[i], probe(Key(ls[i], lc))[0], lc, rc, o) {
        var i :| 0 <= i < |ls| && lc < |ls[i].values| && probe(Key(ls[i], lc)) != [] &&
                 JoinedPair(ls[i], probe(Key(ls[i], lc))[0], lc, rc, o);
        if i > 0 {
          assert t[i - 1] == ls[i];
        }
      }
    }
  }

  /**
   * When the probe returns exactly the key-equal right records and no key
   * occurs twice on the right, the index join equals the nested-loop join,
   * in the same order.
   */
  lemma {:induction false} InljIsNestedLoopJoin(ls: seq<Record>, rights: seq<Record>, probe: Value -> seq<Record>,
                                                lc: nat, rc: nat)
    requires HasColumn(ls, lc)
    requires forall v :: probe(v) == KeyFilter(rights, rc, v)
    requires forall v :: |KeyFilter(rights, rc, v)| <= 1
    ensures InljReference(ls, probe, lc) == NestedLoopJoin(ls, rights, lc, rc)
  {
    if ls != [] {
      var l := ls[0];
      InljIsNestedLoopJoin(ls[1..], rights, probe, lc, rc);
      MatchesAreKeyFilter(l, rights, lc, rc);
      var f := KeyFilter(rights, rc, Key(l, lc));
      assert probe(Key(l, lc)) == f && |f| <= 1;
      if f != [] {
        assert f == [f[0]];
        assert JoinEach(l, f) == [JoinRecords(l, f[0])] + JoinEach(l, []);
      }
    }
  }

  /** With two right records sharing a key, the index join keeps only the first of the two matches. */
  lemma DuplicateKeyKeepsFirstMatch()
    ensures var l, r1, r2 := Row(1, "a"), Row(1, "x"), Row(1, "y");
      && KeyFilter([r1, r2], 0, IntValue(1)) == [r1, r2]
      && NestedLoopJoin([l], [r1, r2], 0, 0) == [JoinRecords(l, r1), JoinRecords(l, r2)]
      && InljReference([l], v => KeyFilter([r1, r2], 0, v), 0) == [JoinRecords(l, r1)]
  {
    var l, r1, r2 := Row(1, "a"), Row(1, "x"), Row(1, "y");
    var rs := [r1, r2];
    assert rs[1..] == [r2] && [r2][1..] == [];
    assert KeyFilter([r2], 0, IntValue(1)) == [r2];
    assert KeyFilter(rs, 0, IntValue(1)) == [r1, r2];
    assert Matches(l, [r2], 0, 0) == [JoinRecords(l, r2)];
    assert Matches(l, rs, 0, 0) == [JoinRecords(l, r1), JoinRecords(l, r2)];
    assert [l][1..] == [];
  }

  class InljIterator {
    const lefts: seq<Record>
    const probe: Value -> seq<Record>
    const lc: nat
    /** Whether the index scan can be built (no query-plan error). */
    const probeOk: bool
    /** leftSourceIterator: the records of the left relation. */
    var leftSource: Cursor<Record>
    var leftRecord: Option<Record>
    /** The look-ahead cache filled by hasNext. */
    var nextRecord: Option<Record>

    ghost predicate Valid()
      reads this`leftSource, this`nextRecord
    {
      && HasColumn(lefts, lc)
      && leftSource.items == lefts && leftSource.pos <= |lefts| && leftSource.mark == None
      && (!probeOk ==> nextRecord == None)
    }

    /** The join records fetchNextRecord has still to find: those of the left records not yet read. */
    ghost function Pending(): seq<Record>
      reads this`leftSource
      requires leftSource.pos <= |leftSource.items|
    {
      InljReference(leftSource.items[leftSource.pos..], probe, lc)
    }

    /** The records the iterator has still to return, the cached one first. */
    ghost function Output(): seq<Record>
      reads this`leftSource, this`nextRecord
      requires Valid()
    {
      (if nextRecord.Some? then [nextRecord.value] else []) + Pending()
    }

    /** The iterator starts before the first left record, with the whole index join still to return. */
    constructor (lefts: seq<Record>, probe: Value -> seq<Record>, lc: nat, probeOk: bool)
      requires HasColumn(lefts, lc)
      ensures this.lefts == lefts && this.probe == probe && this.lc == lc && this.probeOk == probeOk
      ensures Valid() && leftSource.pos == 0 && leftRecord == None && nextRecord == None
      ensures Output() == InljReference(lefts, probe, lc)
    {
      this.lefts := lefts;
      this.probe := probe;
      this.lc := lc;
      this.probeOk := probeOk;
      leftSource := Open(lefts);
      leftRecord := None;
      nextRecord := None;
      new;
      assert lefts[0..] == lefts;
    }

    /** The join records still owed once the current left record has been read: its own first match onwards. */
    ghost function Owed(): seq<Record>
      reads this`leftSource
      requires 0 < leftSource.pos <= |leftSource.items|
    {
      InljReference(leftSource.items[leftSource.pos - 1..], probe, lc)
    }

    /**
     * fetchNextRecord: reads left records until one's probe returns a record
     * and answers the join with the first of them; None once the left records
     * run out. A probe that cannot be built fails after its left record is read.
     */
    method FetchNextRecord() returns (r: Result<Option<Record>, JoinError>)
      requires Valid()
      modifies this`leftSource, this`leftRecord
      ensures Valid() && leftSource.pos >= old(leftSource.pos)
      ensures probeOk ==> r.Ok? && (r.value.None? <==> old(Pending()) == [])
      ensures probeOk && r == Ok(None) ==> leftSource.pos == |lefts|
      ensures probeOk && r.Ok? && r.value.Some? ==> old(Pending()) == [r.value.value] + Pending()
      ensures !probeOk && old(leftSource.pos) == |lefts| ==> r == Ok(None)
      ensures !probeOk && old(leftSource.pos) < |lefts| ==> r == Err(ProbeFailed) && leftSource.pos == old(leftSource.pos) + 1
    {
      if !Cursors.HasNext(leftSource) {
        return Ok(None);
      }
      leftRecord := Some(Current(leftSource));
      leftSource := Advance(leftSource);
      r := ProbeLoop();
    }

    /**
     * The probing loop of fetchNextRecord, entered with a left record read:
     * probes for the current left record and, while a probe returns nothing
     * and left records remain, reads the next one.
     */
    method ProbeLoop() returns (r: Result<Option<Record>, JoinError>)
      requires Valid() && 0 < leftSource.pos && leftRecord == Some(lefts[leftSource.pos - 1])
      modifies this`leftSource, this`leftRecord
      ensures Valid() && leftSource.pos >= old(leftSource.pos)
      ensures probeOk ==> r.Ok? && (r.value.None? <==> old(Owed()) == [])
      ensures probeOk && r == Ok(None) ==> leftSource.pos == |lefts|
      ensures probeOk && r.Ok? && r.value.Some? ==> old(Owed()) == [r.value.value] + Pending()
      ensures !probeOk ==> r == Err(ProbeFailed) && leftSource == old(leftSource)
    {
      ghost var owed := Owed();
      while true
        invariant Valid() && 0 < leftSource.pos && leftRecord == Some(lefts[leftSource.pos - 1])
        invariant leftSource.pos >= old(leftSource.pos)
        invariant !probeOk ==> leftSource == old(leftSource)
        invariant owed == Owed()
        decreases |lefts| - leftSource.pos
      {
        ghost var p := leftSource.pos - 1;
        var joinValue := Key(leftRecord.value, lc);
        if !probeOk {
          return Err(ProbeFailed);
        }
        var matches := probe(joinValue);
        if |matches| > 0 {
          HitLeft(lefts, probe, lc, p);
          r := Ok(Some(JoinRecords(leftRecord.value, matches[0])));
          return;
        } else if Cursors.HasNext(leftSource) {
          SkipLeft(lefts, probe, lc, p);
          leftRecord := Some(Current(leftSource));
          leftSource := Advance(leftSource);
        } else {
          SkipLeft(lefts, probe, lc, p);
          assert lefts[p + 1..] == [];
          return Ok(None);
        }
      }
    }

    /**
     * hasNext: fills the cache only when it is empty; true exactly when a
     * record remains. A failed probe is not caught here and surfaces as Err.
     */
    method HasNext() returns (r: Result<bool, JoinError>)
      requires Valid()
      modifies this`leftSource, this`leftRecord, this`nextRecord
      ensures Valid()
      ensures old(nextRecord).Some? ==> r == Ok(true) && nextRecord == old(nextRecord) && leftSource == old(leftSource)
      ensures probeOk ==> r.Ok? && Output() == old(Output())
      ensures probeOk ==> (r == Ok(true) <==> Output() != []) && (r == Ok(true) <==> nextRecord.Some?)
      ensures !probeOk && old(leftSource.pos) == |lefts| ==> r == Ok(false)
      ensures !probeOk && old(leftSource.pos) < |lefts| ==> r == Err(ProbeFailed) && leftSource.pos == old(leftSource.pos) + 1
    {
      if nextRecord.None? {
        var fetched := FetchNextRecord();
        if fetched.Err? {
          return Err(fetched.error);
        }
        nextRecord := fetched.value;
      }
      r := Ok(nextRecord.Some?);
    }

    /** next: the first record still to return, which it removes; NoSuchElement when none remains. */
    method Next() returns (r: Result<Record, JoinError>)
      requires Valid()
      modifies this`leftSource, this`leftRecord, this`nextRecord
      ensures Valid() && nextRecord == None
      ensures probeOk ==> (r.Err? <==> old(Output()) == [])
      ensures probeOk && r.Err? ==> r.error == NoSuchElement && Output() == []
      ensures probeOk && r.Ok? ==> old(Output()) == [r.value] + Output()
      ensures !probeOk ==> r.Err? && (r.error == NoSuchElement <==> old(leftSource.pos) == |lefts|)
    {
      var has := HasNext();
      if has.Err? {
        return Err(has.error);
      }
      if !has.value {
        return Err(NoSuchElement);
      }
      r := Ok(nextRecord.value);
      nextRecord := None;
    }
  }
}
