/**
 * The block nested-loop join iterator with one-page blocks.
 *
 * The iterator walks four cursors: one over the left pages, one over the right
 * pages (marked at the first right page, so it can restart), and one per
 * loaded page over that page's records (marked at the page's first record).
 * `BlockOrderFrom` names, for every position of the four cursors, the join
 * records still to come; each transition of fetchNextRecord is proved to keep it,
 * so the records emitted are exactly `BnljReference` in its order.
 */
module Bnlj {
  import opened Wrappers
  import opened Records
  import opened Joins
  import opened Cursors

  /**
   * What the iterator asks of its inputs: the join columns exist, every page
   * holds a record (a block iterator's first next() must succeed), and a
   * non-empty left input comes with a non-empty right input (otherwise no
   * right block is ever loaded).
   */
  predicate JoinInputs(lefts: seq<Page>, rights: seq<Page>, lc: nat, rc: nat) {
    && PagesHaveColumn(lefts, lc) && PagesHaveColumn(rights, rc)
    && NonEmptyPages(lefts) && NonEmptyPages(rights)
    && (lefts != [] ==> rights != [])
  }

  /**
   * A state of the loaded cursors: left page `lpi - 1` is loaded and its
   * record `lnext - 1` is the current left record; right page `rpi - 1` is
   * loaded and `rnext` is the next right record to compare.
   */
  predicate Position(lefts: seq<Page>, rights: seq<Page>, lpi: nat, lnext: nat, rpi: nat, rnext: nat) {
    && 1 <= lpi <= |lefts| && 1 <= lnext <= |lefts[lpi - 1]|
    && 1 <= rpi <= |rights| && rnext <= |rights[rpi - 1]|
  }

  lemma PositionColumns(lefts: seq<Page>, rights: seq<Page>, lc: nat, rc: nat,
                        lpi: nat, lnext: nat, rpi: nat, rnext: nat)
    requires JoinInputs(lefts, rights, lc, rc) && Position(lefts, rights, lpi, lnext, rpi, rnext)
    ensures HasColumn(lefts[lpi - 1], lc) && HasColumn(rights[rpi - 1], rc)
  {
  }

  /**
   * The join records still to come from a position, in closed form: the rest of the current
   * left record against the current right page, the rest of the left page
   * against it, the whole left page against the later right pages, and the
   * later left pages against every right page.
   */
  function BlockOrderFrom(lefts: seq<Page>, rights: seq<Page>, lc: nat, rc: nat,
                     lpi: nat, lnext: nat, rpi: nat, rnext: nat): seq<Record>
    requires Position(lefts, rights, lpi, lnext, rpi, rnext)
  {
    var lp, rp := lefts[lpi - 1], rights[rpi - 1];
    Matches(lp[lnext - 1], rp[rnext..], lc, rc)
      + NestedLoopJoin(lp[lnext..], rp, lc, rc)
      + LeftPageJoin(lp, rights[rpi..], lc, rc)
      + BnljReference(lefts[lpi..], rights, lc, rc)
  }

  /** Comparing the current left record with the next right record emits their join exactly when the keys agree. */
  lemma BlockOrderScan(lefts: seq<Page>, rights: seq<Page>, lc: nat, rc: nat,
                      lpi: nat, lnext: nat, rpi: nat, rnext: nat)
    requires Position(lefts, rights, lpi, lnext, rpi, rnext) && rnext < |rights[rpi - 1]|
    ensures Position(lefts, rights, lpi, lnext, rpi, rnext + 1)
    ensures var l, r := lefts[lpi - 1][lnext - 1], rights[rpi - 1][rnext];
      BlockOrderFrom(lefts, rights, lc, rc, lpi, lnext, rpi, rnext)
      == (if KeysMatch(l, r, lc, rc) then [JoinRecords(l, r)] else [])
         + BlockOrderFrom(lefts, rights, lc, rc, lpi, lnext, rpi, rnext + 1)
  {
    var lp, rp := lefts[lpi - 1], rights[rpi - 1];
    var l, r := lp[lnext - 1], rp[rnext];
    assert rp[rnext..][0] == r;
    assert rp[rnext..][1..] == rp[rnext + 1..];
    var emitted := if KeysMatch(l, r, lc, rc) then [JoinRecords(l, r)] else [];
    var m := Matches(l, rp[rnext + 1..], lc, rc);
    var b, c, d := NestedLoopJoin(lp[lnext..], rp, lc, rc), LeftPageJoin(lp, rights[rpi..], lc, rc),
                   BnljReference(lefts[lpi..], rights, lc, rc);
    assert Matches(l, rp[rnext..], lc, rc) == emitted + m;
    assert BlockOrderFrom(lefts, rights, lc, rc, lpi, lnext, rpi, rnext) == (emitted + m) + b + c + d;
    assert BlockOrderFrom(lefts, rights, lc, rc, lpi, lnext, rpi, rnext + 1) == m + b + c + d;
  }

  /** A right page exhausted for one left record: the next left record starts on the same right page. */
  lemma BlockOrderNextLeftRecord(lefts: seq<Page>, rights: seq<Page>, lc: nat, rc: nat,
                                lpi: nat, lnext: nat, rpi: nat, rnext: nat)
    requires Position(lefts, rights, lpi, lnext, rpi, rnext)
    requires rnext == |rights[rpi - 1]| && lnext < |lefts[lpi - 1]|
    ensures Position(lefts, rights, lpi, lnext + 1, rpi, 0)
    ensures BlockOrderFrom(lefts, rights, lc, rc, lpi, lnext, rpi, rnext)
            == BlockOrderFrom(lefts, rights, lc, rc, lpi, lnext + 1, rpi, 0)
  {
    var lp, rp := lefts[lpi - 1], rights[rpi - 1];
    assert rp[rnext..] == [] && rp[0..] == rp;
    assert lp[lnext..][0] == lp[lnext];
    assert lp[lnext..][1..] == lp[lnext + 1..];
    var a, b := Matches(lp[lnext], rp, lc, rc), NestedLoopJoin(lp[lnext + 1..], rp, lc, rc);
    var c, d := LeftPageJoin(lp, rights[rpi..], lc, rc), BnljReference(lefts[lpi..], rights, lc, rc);
    assert Matches(lp[lnext - 1], rp[rnext..], lc, rc) == [];
    assert NestedLoopJoin(lp[lnext..], rp, lc, rc) == a + b;
    assert BlockOrderFrom(lefts, rights, lc, rc, lpi, lnext, rpi, rnext) == [] + (a + b) + c + d;
    assert BlockOrderFrom(lefts, rights, lc, rc, lpi, lnext + 1, rpi, 0) == a + b + c + d;
  }

  /** A left page exhausted against a right page: the left page starts over on the next right page. */
  lemma BlockOrderNextRightPage(lefts: seq<Page>, rights: seq<Page>, lc: nat, rc: nat,
                               lpi: nat, lnext: nat, rpi: nat, rnext: nat)
    requires Position(lefts, rights, lpi, lnext, rpi, rnext)
    requires rnext == |rights[rpi - 1]| && lnext == |lefts[lpi - 1]| && rpi < |rights|
    ensures Position(lefts, rights, lpi, 1, rpi + 1, 0)
    ensures BlockOrderFrom(lefts, rights, lc, rc, lpi, lnext, rpi, rnext)
            == BlockOrderFrom(lefts, rights, lc, rc, lpi, 1, rpi + 1, 0)
  {
    var lp, rp, next := lefts[lpi - 1], rights[rpi - 1], rights[rpi];
    assert rp[rnext..] == [] && lp[lnext..] == [] && next[0..] == next;
    assert rights[rpi..][0] == next && rights[rpi..][1..] == rights[rpi + 1..];
    var a, b := Matches(lp[0], next, lc, rc), NestedLoopJoin(lp[1..], next, lc, rc);
    var c, d := LeftPageJoin(lp, rights[rpi + 1..], lc, rc), BnljReference(lefts[lpi..], rights, lc, rc);
    assert Matches(lp[lnext - 1], rp[rnext..], lc, rc) == [];
    assert NestedLoopJoin(lp[lnext..], rp, lc, rc) == [];
    assert NestedLoopJoin(lp, next, lc, rc) == a + b;
    assert LeftPageJoin(lp, rights[rpi..], lc, rc) == (a + b) + c;
    assert BlockOrderFrom(lefts, rights, lc, rc, lpi, lnext, rpi, rnext) == [] + [] + ((a + b) + c) + d;
    assert BlockOrderFrom(lefts, rights, lc, rc, lpi, 1, rpi + 1, 0) == a + b + c + d;
  }

  /** A left page loaded afresh, with the right side at its first page, still owes its whole block order. */
  lemma BlockOrderFreshLeftPage(lefts: seq<Page>, rights: seq<Page>, lc: nat, rc: nat, lpi: nat)
    requires 1 <= lpi <= |lefts| && lefts[lpi - 1] != [] && rights != []
    ensures Position(lefts, rights, lpi, 1, 1, 0)
    ensures BlockOrderFrom(lefts, rights, lc, rc, lpi, 1, 1, 0) == BnljReference(lefts[lpi - 1..], rights, lc, rc)
  {
    var lp, rp := lefts[lpi - 1], rights[0];
    assert rp[0..] == rp;
    assert lefts[lpi - 1..][0] == lp && lefts[lpi - 1..][1..] == lefts[lpi..];
    assert rights[0..1] == [rp] && rights[1..] == rights[1..];
    var a, b := Matches(lp[0], rp, lc, rc), NestedLoopJoin(lp[1..], rp, lc, rc);
    var c, d := LeftPageJoin(lp, rights[1..], lc, rc), BnljReference(lefts[lpi..], rights, lc, rc);
    assert NestedLoopJoin(lp, rp, lc, rc) == a + b;
    assert LeftPageJoin(lp, rights, lc, rc) == (a + b) + c;
    assert BnljReference(lefts[lpi - 1..], rights, lc, rc) == ((a + b) + c) + d;
    assert BlockOrderFrom(lefts, rights, lc, rc, lpi, 1, 1, 0) == a + b + c + d;
  }

  /** Every right page done for a left page: the next left page starts on the first right page. */
  lemma BlockOrderNextLeftPage(lefts: seq<Page>, rights: seq<Page>, lc: nat, rc: nat,
                              lpi: nat, lnext: nat, rpi: nat, rnext: nat)
    requires Position(lefts, rights, lpi, lnext, rpi, rnext)
    requires rnext == |rights[rpi - 1]| && lnext == |lefts[lpi - 1]| && rpi == |rights| && lpi < |lefts|
    requires lefts[lpi] != []
    ensures Position(lefts, rights, lpi + 1, 1, 1, 0)
    ensures BlockOrderFrom(lefts, rights, lc, rc, lpi, lnext, rpi, rnext)
            == BlockOrderFrom(lefts, rights, lc, rc, lpi + 1, 1, 1, 0)
  {
    var lp, rp := lefts[lpi - 1], rights[rpi - 1];
    assert rp[rnext..] == [] && lp[lnext..] == [] && rights[rpi..] == [];
    assert Matches(lp[lnext - 1], rp[rnext..], lc, rc) == [];
    assert NestedLoopJoin(lp[lnext..], rp, lc, rc) == [];
    assert LeftPageJoin(lp, rights[rpi..], lc, rc) == [];
    var d := BnljReference(lefts[lpi..], rights, lc, rc);
    assert BlockOrderFrom(lefts, rights, lc, rc, lpi, lnext, rpi, rnext) == [] + [] + [] + d;
    BlockOrderFreshLeftPage(lefts, rights, lc, rc, lpi + 1);
  }

  /** With every cursor exhausted nothing remains. */
  lemma BlockOrderDone(lefts: seq<Page>, rights: seq<Page>, lc: nat, rc: nat,
                      lpi: nat, lnext: nat, rpi: nat, rnext: nat)
    requires Position(lefts, rights, lpi, lnext, rpi, rnext)
    requires rnext == |rights[rpi - 1]| && lnext == |lefts[lpi - 1]| && rpi == |rights| && lpi == |lefts|
    ensures BlockOrderFrom(lefts, rights, lc, rc, lpi, lnext, rpi, rnext) == []
  {
    var lp, rp := lefts[lpi - 1], rights[rpi - 1];
    assert rp[rnext..] == [] && lp[lnext..] == [] && rights[rpi..] == [] && lefts[lpi..] == [];
  }

  /** The starting position owes the whole block nested-loop order. */
  lemma BlockOrderStart(lefts: seq<Page>, rights: seq<Page>, lc: nat, rc: nat)
    requires lefts != [] && lefts[0] != [] && rights != []
    ensures Position(lefts, rights, 1, 1, 1, 0)
    ensures BlockOrderFrom(lefts, rights, lc, rc, 1, 1, 1, 0) == BnljReference(lefts, rights, lc, rc)
  {
    BlockOrderFreshLeftPage(lefts, rights, lc, rc, 1);
    assert lefts[0..] == lefts;
  }

  // ---------------------------------------------------------------------------
  // The iterator's cursors as a value, and the invariant the loop keeps
  // ---------------------------------------------------------------------------

  /** The four cursors and the current left record of a BNLJ iterator. */
  datatype Scan = Scan(leftSource: Cursor<Page>, rightSource: Cursor<Page>,
                       leftBlock: Option<Cursor<Record>>, rightBlock: Option<Cursor<Record>>,
                       leftRecord: Option<Record>)

  /**
   * The cursors are in a state fetchNextRecord's loop can reach and `pending`
   * is what the loop yields from there: with a left input, both page blocks
   * are loaded and marked at their first records, the right pages are marked
   * at the first one, and the current left record is the one before the left
   * block's cursor.
   */
  predicate Tracks(lefts: seq<Page>, rights: seq<Page>, lc: nat, rc: nat, s: Scan, pending: seq<Record>) {
    && JoinInputs(lefts, rights, lc, rc)
    && s.leftSource.items == lefts && s.rightSource.items == rights && s.leftSource.mark == None
    && if lefts == [] then s.leftSource.pos == 0 && s.leftRecord == None && pending == []
       else
         && s.leftBlock.Some? && s.rightBlock.Some? && s.leftRecord.Some?
         && s.rightSource.mark == Some(0)
         && Position(lefts, rights, s.leftSource.pos, s.leftBlock.value.pos, s.rightSource.pos, s.rightBlock.value.pos)
         && s.leftBlock.value == Cursor(lefts[s.leftSource.pos - 1], s.leftBlock.value.pos, Some(0))
         && s.rightBlock.value == Cursor(rights[s.rightSource.pos - 1], s.rightBlock.value.pos, Some(0))
         && s.leftRecord.value == lefts[s.leftSource.pos - 1][s.leftBlock.value.pos - 1]
         && pending == BlockOrderFrom(lefts, rights, lc, rc, s.leftSource.pos, s.leftBlock.value.pos,
                                      s.rightSource.pos, s.rightBlock.value.pos)
  }

  /** The cursors at a position, each page cursor marked at its page's first record. */
  function At(lefts: seq<Page>, rights: seq<Page>, lpi: nat, lnext: nat, rpi: nat, rnext: nat): Scan
    requires Position(lefts, rights, lpi, lnext, rpi, rnext)
  {
    Scan(Cursor(lefts, lpi, None), Cursor(rights, rpi, Some(0)),
         Some(Cursor(lefts[lpi - 1], lnext, Some(0))), Some(Cursor(rights[rpi - 1], rnext, Some(0))),
         Some(lefts[lpi - 1][lnext - 1]))
  }

  lemma TracksAt(lefts: seq<Page>, rights: seq<Page>, lc: nat, rc: nat, lpi: nat, lnext: nat, rpi: nat, rnext: nat)
    requires JoinInputs(lefts, rights, lc, rc) && Position(lefts, rights, lpi, lnext, rpi, rnext)
    ensures Tracks(lefts, rights, lc, rc, At(lefts, rights, lpi, lnext, rpi, rnext),
                   BlockOrderFrom(lefts, rights, lc, rc, lpi, lnext, rpi, rnext))
  {
  }

  /** The cursors right after construction. */
  function StartScan(lefts: seq<Page>, rights: seq<Page>): (s: Scan)
    requires NonEmptyPages(lefts) && NonEmptyPages(rights) && lefts != [] && rights != []
    ensures s.leftRecord == Some(lefts[0][0])
  {
    Scan(Cursor(lefts, 1, None), Cursor(rights, 1, Some(0)),
         Some(Cursor(lefts[0], 1, Some(0))), Some(Cursor(rights[0], 0, Some(0))), Some(lefts[0][0]))
  }

  /** After construction every join record of the block order is still to come. */
  lemma StartTracks(lefts: seq<Page>, rights: seq<Page>, lc: nat, rc: nat)
    requires JoinInputs(lefts, rights, lc, rc) && lefts != []
    ensures Tracks(lefts, rights, lc, rc, StartScan(lefts, rights), BnljReference(lefts, rights, lc, rc))
  {
    BlockOrderStart(lefts, rights, lc, rc);
  }

  /** The next right record of the page is compared with the left record; a match is the next record. */
  lemma ScanStep(lefts: seq<Page>, rights: seq<Page>, lc: nat, rc: nat, s: Scan, pending: seq<Record>)
    requires Tracks(lefts, rights, lc, rc, s, pending) && lefts != [] && HasNext(s.rightBlock.value)
    ensures lc < |s.leftRecord.value.values| && rc < |Current(s.rightBlock.value).values|
    ensures var l, r := s.leftRecord.value, Current(s.rightBlock.value);
      var emitted := if KeysMatch(l, r, lc, rc) then [JoinRecords(l, r)] else [];
      && pending == emitted + pending[|emitted|..]
      && Tracks(lefts, rights, lc, rc, s.(rightBlock := Some(Advance(s.rightBlock.value))), pending[|emitted|..])
  {
    var lpi, lnext, rpi, rnext := s.leftSource.pos, s.leftBlock.value.pos, s.rightSource.pos, s.rightBlock.value.pos;
    PositionColumns(lefts, rights, lc, rc, lpi, lnext, rpi, rnext);
    BlockOrderScan(lefts, rights, lc, rc, lpi, lnext, rpi, rnext);
    var l, r := lefts[lpi - 1][lnext - 1], rights[rpi - 1][rnext];
    var emitted := if KeysMatch(l, r, lc, rc) then [JoinRecords(l, r)] else [];
    var rest := BlockOrderFrom(lefts, rights, lc, rc, lpi, lnext, rpi, rnext + 1);
    assert (emitted + rest)[|emitted|..] == rest;
    var rb := Advance(s.rightBlock.value);
    assert rb == Cursor(rights[rpi - 1], rnext + 1, Some(0));
    var s' := s.(rightBlock := Some(rb));
    assert s'.leftSource == s.leftSource && s'.rightSource == s.rightSource && s'.leftBlock == s.leftBlock;
    assert s'.leftRecord == s.leftRecord;
  }

  /** Right page done, left page not: the next left record, with the right page rewound. */
  lemma NextLeftRecordStep(lefts: seq<Page>, rights: seq<Page>, lc: nat, rc: nat, s: Scan, pending: seq<Record>)
    requires Tracks(lefts, rights, lc, rc, s, pending) && lefts != []
    requires !HasNext(s.rightBlock.value) && HasNext(s.leftBlock.value)
    ensures Tracks(lefts, rights, lc, rc,
                   s.(leftRecord := Some(Current(s.leftBlock.value)), leftBlock := Some(Advance(s.leftBlock.value)),
                      rightBlock := Some(Reset(s.rightBlock.value))),
                   pending)
  {
    var lpi, lnext, rpi, rnext := s.leftSource.pos, s.leftBlock.value.pos, s.rightSource.pos, s.rightBlock.value.pos;
    BlockOrderNextLeftRecord(lefts, rights, lc, rc, lpi, lnext, rpi, rnext);
  }

  /** Left page done against this right page: the next right page, with the left page rewound. */
  lemma NextRightPageStep(lefts: seq<Page>, rights: seq<Page>, lc: nat, rc: nat, s: Scan, pending: seq<Record>)
    requires Tracks(lefts, rights, lc, rc, s, pending) && lefts != []
    requires !HasNext(s.rightBlock.value) && !HasNext(s.leftBlock.value) && HasNext(s.rightSource)
    ensures HasNext(Reset(s.leftBlock.value))
    ensures var lb := Reset(s.leftBlock.value);
      Tracks(lefts, rights, lc, rc,
             s.(rightSource := Advance(s.rightSource), rightBlock := Some(Cursor(Current(s.rightSource), 0, Some(0))),
                leftRecord := Some(Current(lb)), leftBlock := Some(Advance(lb))),
             pending)
  {
    var lpi, lnext, rpi, rnext := s.leftSource.pos, s.leftBlock.value.pos, s.rightSource.pos, s.rightBlock.value.pos;
    BlockOrderNextRightPage(lefts, rights, lc, rc, lpi, lnext, rpi, rnext);
  }

  /** Every right page done for this left page: the next left page, with the right pages restarted, owes the same. */
  lemma NextLeftPageStep(lefts: seq<Page>, rights: seq<Page>, lc: nat, rc: nat,
                         lpi: nat, lnext: nat, rpi: nat, rnext: nat)
    requires JoinInputs(lefts, rights, lc, rc) && Position(lefts, rights, lpi, lnext, rpi, rnext)
    requires rnext == |rights[rpi - 1]| && lnext == |lefts[lpi - 1]| && rpi == |rights| && lpi < |lefts|
    ensures lefts[lpi] != [] && Position(lefts, rights, lpi + 1, 1, 1, 0)
    ensures Tracks(lefts, rights, lc, rc, At(lefts, rights, lpi + 1, 1, 1, 0),
                   BlockOrderFrom(lefts, rights, lc, rc, lpi, lnext, rpi, rnext))
  {
    assert lefts[lpi] != [];
    BlockOrderNextLeftPage(lefts, rights, lc, rc, lpi, lnext, rpi, rnext);
    TracksAt(lefts, rights, lc, rc, lpi + 1, 1, 1, 0);
  }

  /** Every cursor exhausted: nothing is pending. */
  lemma DoneStep(lefts: seq<Page>, rights: seq<Page>, lc: nat, rc: nat, s: Scan, pending: seq<Record>)
    requires Tracks(lefts, rights, lc, rc, s, pending) && lefts != []
    requires !HasNext(s.rightBlock.value) && !HasNext(s.leftBlock.value) && !HasNext(s.rightSource)
    requires !HasNext(s.leftSource)
    ensures pending == []
  {
    var lpi, lnext, rpi, rnext := s.leftSource.pos, s.leftBlock.value.pos, s.rightSource.pos, s.rightBlock.value.pos;
    BlockOrderDone(lefts, rights, lc, rc, lpi, lnext, rpi, rnext);
  }

  /** The cursors of `s'` are nearer the end than those of `s`, compared outermost first. */
  predicate Progress(s: Scan, s': Scan)
    requires s.leftBlock.Some? && s.rightBlock.Some? && s'.leftBlock.Some? && s'.rightBlock.Some?
  {
    var m1, m1' := |s.leftSource.items| - s.leftSource.pos, |s'.leftSource.items| - s'.leftSource.pos;
    var m2, m2' := |s.rightSource.items| - s.rightSource.pos, |s'.rightSource.items| - s'.rightSource.pos;
    var m3, m3' := |s.leftBlock.value.items| - s.leftBlock.value.pos, |s'.leftBlock.value.items| - s'.leftBlock.value.pos;
    var m4, m4' := |s.rightBlock.value.items| - s.rightBlock.value.pos, |s'.rightBlock.value.items| - s'.rightBlock.value.pos;
    || (0 <= m1' < m1)
    || (m1' == m1 && 0 <= m2' < m2)
    || (m1' == m1 && m2' == m2 && 0 <= m3' < m3)
    || (m1' == m1 && m2' == m2 && m3' == m3 && 0 <= m4' < m4)
  }

  class BnljIterator {
    const lefts: seq<Page>
    const rights: seq<Page>
    const lc: nat
    const rc: nat
    /** leftSourceIterator: the left pages. */
    var leftSource: Cursor<Page>
    /** rightSourceIterator: the right pages, marked at the first one. */
    var rightSource: Cursor<Page>
    /** leftRecordPerPageIterator: the records of the loaded left page. */
    var leftBlock: Option<Cursor<Record>>
    /** rightRecordPerPageIterator: the records of the loaded right page. */
    var rightBlock: Option<Cursor<Record>>
    var leftRecord: Option<Record>
    /** The look-ahead cache filled by hasNext. */
    var nextRecord: Option<Record>
    /** The join records fetchNextRecord has still to find. */
    ghost var pending: seq<Record>

    ghost function State(): Scan
      reads this`leftSource, this`rightSource, this`leftBlock, this`rightBlock, this`leftRecord
    {
      Scan(leftSource, rightSource, leftBlock, rightBlock, leftRecord)
    }

    ghost predicate Valid()
      reads this`leftSource, this`rightSource, this`leftBlock, this`rightBlock, this`leftRecord, this`pending
    {
      Tracks(lefts, rights, lc, rc, State(), pending)
    }

    /** The records the iterator has still to return, the cached one first. */
    ghost function Output(): seq<Record>
      reads this`nextRecord, this`pending
    {
      (if nextRecord.Some? then [nextRecord.value] else []) + pending
    }

    /** The iterator starts with all of the block nested-loop order still to return. */
    constructor (lefts: seq<Page>, rights: seq<Page>, lc: nat, rc: nat)
      requires JoinInputs(lefts, rights, lc, rc)
      ensures this.lefts == lefts && this.rights == rights && this.lc == lc && this.rc == rc
      ensures Valid() && nextRecord == None
      ensures lefts != [] ==> State() == StartScan(lefts, rights)
      ensures lefts == [] ==> leftSource == Open(lefts) && leftRecord == None
      ensures Output() == BnljReference(lefts, rights, lc, rc)
    {
      this.lefts := lefts;
      this.rights := rights;
      this.lc := lc;
      this.rc := rc;
      leftSource := Open(lefts);
      leftBlock := None;
      leftRecord := None;
      rightSource := Open(rights);
      rightBlock := None;
      nextRecord := None;
      pending := BnljReference(lefts, rights, lc, rc);
      new;
      FetchNextLeftPage();
      StartRightSource();
      if lefts != [] {
        StartTracks(lefts, rights, lc, rc);
        assert State() == StartScan(lefts, rights);
      } else {
        assert leftSource == Open(lefts) && leftRecord == None && pending == [];
      }
    }

    /** fetchNextLeftPage: loads the next left page, takes its first record and marks it. */
    method FetchNextLeftPage()
      requires leftSource.pos <= |leftSource.items| && NonEmptyPages(leftSource.items)
      modifies this`leftSource, this`leftBlock, this`leftRecord
      ensures old(Cursors.HasNext(leftSource)) ==>
                && leftSource == old(Advance(leftSource))
                && leftBlock == Some(Cursor(old(Current(leftSource)), 1, Some(0)))
                && leftRecord == Some(old(Current(leftSource))[0])
      ensures !old(Cursors.HasNext(leftSource)) ==>
                leftSource == old(leftSource) && leftBlock == old(leftBlock) && leftRecord == old(leftRecord)
    {
      if Cursors.HasNext(leftSource) {
        var page := Current(leftSource);
        leftSource := Advance(leftSource);
        var block := Open(page);
        leftRecord := Some(Current(block));
        block := Advance(block);
        leftBlock := Some(Mark(block));
      }
    }

    /** The constructor's right side: marks the first right page, then loads it with fetchNextRightPage. */
    method StartRightSource()
      requires rightSource == Open(rights) && NonEmptyPages(rights)
      modifies this`rightSource, this`rightBlock
      ensures rights != [] ==> rightSource == Cursor(rights, 1, Some(0)) && rightBlock == Some(Cursor(rights[0], 0, Some(0)))
      ensures rights == [] ==> rightSource == old(rightSource) && rightBlock == old(rightBlock)
    {
      if Cursors.HasNext(rightSource) {
        rightSource := Reset(Mark(Advance(rightSource)));
      }
      FetchNextRightPage();
    }

    /** fetchNextRightPage: loads the next right page with its cursor marked and rewound to the first record. */
    method FetchNextRightPage()
      requires rightSource.pos <= |rightSource.items| && NonEmptyPages(rightSource.items)
      modifies this`rightSource, this`rightBlock
      ensures old(Cursors.HasNext(rightSource)) ==>
                && rightSource == old(Advance(rightSource))
                && rightBlock == Some(Cursor(old(Current(rightSource)), 0, Some(0)))
      ensures !old(Cursors.HasNext(rightSource)) ==> rightSource == old(rightSource) && rightBlock == old(rightBlock)
    {
      if Cursors.HasNext(rightSource) {
        var page := Current(rightSource);
        rightSource := Advance(rightSource);
        var block := Open(page);
        block := Advance(block);
        block := Mark(block);
        rightBlock := Some(Reset(block));
      }
    }

    /** reset() on the right page iterator, then fetchNextRightPage: the right side restarts at its first page. */
    method RestartRightPages()
      requires rightSource.items != [] && rightSource.mark == Some(0) && NonEmptyPages(rightSource.items)
      modifies this`rightSource, this`rightBlock
      ensures rightSource == Cursor(old(rightSource.items), 1, Some(0))
      ensures rightBlock == Some(Cursor(old(rightSource.items)[0], 0, Some(0)))
    {
      rightSource := Reset(rightSource);
      FetchNextRightPage();
    }

    /** fetchNextRecord, first branch: take the next right record of the page; a key match is the next join record. */
    method NextRightRecord() returns (rightRecord: Record)
      requires Valid() && lefts != [] && Cursors.HasNext(rightBlock.value)
      modifies this`rightBlock, this`pending
      ensures Valid()
      ensures rightRecord == old(Current(rightBlock.value))
      ensures rightBlock.value.items == old(rightBlock.value.items) && rightBlock.value.pos == old(rightBlock.value.pos) + 1
      ensures leftBlock.Some? && rightBlock.Some? && Progress(old(State()), State())
      ensures lc < |leftRecord.value.values| && rc < |rightRecord.values|
      ensures old(pending)
              == (if KeysMatch(leftRecord.value, rightRecord, lc, rc) then [JoinRecords(leftRecord.value, rightRecord)] else [])
                 + pending
    {
      ScanStep(lefts, rights, lc, rc, State(), pending);
      rightRecord := Current(rightBlock.value);
      rightBlock := Some(Advance(rightBlock.value));
      if Key(leftRecord.value, lc) == Key(rightRecord, rc) {
        pending := pending[1..];
      }
    }

    /** fetchNextRecord, second branch: the next left record, compared again from the start of the same right page. */
    method NextLeftRecord()
      requires Valid() && lefts != [] && !Cursors.HasNext(rightBlock.value) && Cursors.HasNext(leftBlock.value)
      modifies this`leftRecord, this`leftBlock, this`rightBlock
      ensures Valid()
      ensures leftRecord == Some(old(Current(leftBlock.value))) && leftBlock == Some(old(Advance(leftBlock.value)))
      ensures rightBlock == Some(old(Reset(rightBlock.value)))
      ensures leftBlock.Some? && rightBlock.Some? && Progress(old(State()), State())
    {
      NextLeftRecordStep(lefts, rights, lc, rc, State(), pending);
      leftRecord := Some(Current(leftBlock.value));
      leftBlock := Some(Advance(leftBlock.value));
      rightBlock := Some(Reset(rightBlock.value));
    }

    /** fetchNextRecord, third branch: the next right page, compared from the start of the same left page. */
    method NextRightPage()
      requires Valid() && lefts != [] && !Cursors.HasNext(rightBlock.value) && !Cursors.HasNext(leftBlock.value)
      requires Cursors.HasNext(rightSource)
      modifies this`rightSource, this`rightBlock, this`leftRecord, this`leftBlock
      ensures Valid()
      ensures rightSource == old(Advance(rightSource)) && rightBlock == Some(Cursor(old(Current(rightSource)), 0, Some(0)))
      ensures leftRecord == Some(old(Current(Reset(leftBlock.value))))
      ensures leftBlock == Some(old(Advance(Reset(leftBlock.value))))
      ensures leftBlock.Some? && rightBlock.Some? && Progress(old(State()), State())
    {
      NextRightPageStep(lefts, rights, lc, rc, State(), pending);
      FetchNextRightPage();
      leftBlock := Some(Reset(leftBlock.value));
      leftRecord := Some(Current(leftBlock.value));
      leftBlock := Some(Advance(leftBlock.value));
    }

    /** fetchNextRecord, fourth branch: the next left page, compared from the first right page. */
    method NextLeftPage()
      requires Valid() && lefts != [] && !Cursors.HasNext(rightBlock.value) && !Cursors.HasNext(leftBlock.value)
      requires !Cursors.HasNext(rightSource) && Cursors.HasNext(leftSource)
      modifies this`leftSource, this`leftBlock, this`leftRecord, this`rightSource, this`rightBlock
      ensures Valid()
      ensures leftSource == old(Advance(leftSource)) && leftBlock == Some(Cursor(old(Current(leftSource)), 1, Some(0)))
      ensures leftRecord == Some(old(Current(leftSource))[0])
      ensures rightSource == Cursor(rights, 1, Some(0)) && rightBlock == Some(Cursor(rights[0], 0, Some(0)))
      ensures leftBlock.Some? && rightBlock.Some? && Progress(old(State()), State())
    {
      ghost var lpi, rpi := leftSource.pos, rightSource.pos;
      NextLeftPageStep(lefts, rights, lc, rc, lpi, leftBlock.value.pos, rpi, rightBlock.value.pos);
      FetchNextLeftPage();
      assert leftSource == Cursor(lefts, lpi + 1, None);
      assert leftBlock == Some(Cursor(lefts[lpi], 1, Some(0))) && leftRecord == Some(lefts[lpi][0]);
      RestartRightPages();
      assert rightSource == Cursor(rights, 1, Some(0)) && rightBlock == Some(Cursor(rights[0], 0, Some(0)));
      assert State() == At(lefts, rights, lpi + 1, 1, 1, 0);
    }

    /**
     * One turn of fetchNextRecord's loop: a join record, the end of the block
     * order, or a move of the cursors that brings the end nearer.
     */
    method Turn() returns (r: Option<Record>, stop: bool)
      requires Valid() && lefts != []
      modifies this`leftSource, this`rightSource, this`leftBlock, this`rightBlock, this`leftRecord, this`pending
      ensures Valid() && leftBlock.Some? && rightBlock.Some?
      ensures r.Some? ==> !stop && old(pending) == [r.value] + pending
      ensures stop ==> r.None? && old(pending) == [] && pending == []
      ensures r.None? && !stop ==> pending == old(pending) && Progress(old(State()), State())
    {
      r, stop := None, false;
      if Cursors.HasNext(rightBlock.value) {
        var rightRecord := NextRightRecord();
        if Key(leftRecord.value, lc) == Key(rightRecord, rc) {
          r := Some(JoinRecords(leftRecord.value, rightRecord));
        }
      } else {
        stop := MoveOn();
      }
    }

    /**
     * The turn after the right page is used up: the next left record, the next
     * right page, the next left page, or the end of the block order.
     */
    method MoveOn() returns (stop: bool)
      requires Valid() && lefts != [] && !Cursors.HasNext(rightBlock.value)
      modifies this`leftSource, this`rightSource, this`leftBlock, this`rightBlock, this`leftRecord
      ensures Valid() && leftBlock.Some? && rightBlock.Some?
      ensures stop ==> old(pending) == []
      ensures !stop ==> Progress(old(State()), State())
    {
      stop := false;
      if Cursors.HasNext(leftBlock.value) {
        NextLeftRecord();
      } else if Cursors.HasNext(rightSource) {
        NextRightPage();
      } else if Cursors.HasNext(leftSource) {
        NextLeftPage();
      } else {
        DoneStep(lefts, rights, lc, rc, State(), pending);
        stop := true;
      }
    }

    /**
     * fetchNextRecord: the next join record of the block order, or None when
     * the order is exhausted (at once when no left page was loaded).
     */
    method FetchNextRecord() returns (r: Option<Record>)
      requires Valid()
      modifies this`leftSource, this`rightSource, this`leftBlock, this`rightBlock, this`leftRecord, this`pending
      ensures Valid()
      ensures old(leftRecord).None? ==> r.None?
      ensures r.None? <==> old(pending) == []
      ensures r.None? ==> pending == []
      ensures r.Some? ==> old(pending) == [r.value] + pending
    {
      r := None;
      if leftRecord.None? {
        return;
      }
      while true
        invariant Valid() && lefts != [] && r == None && pending == old(pending)
        invariant leftBlock.Some? && rightBlock.Some?
        decreases |leftSource.items| - leftSource.pos, |rightSource.items| - rightSource.pos,
                  |leftBlock.value.items| - leftBlock.value.pos, |rightBlock.value.items| - rightBlock.value.pos
      {
        var stop;
        r, stop := Turn();
        if r.Some? || stop {
          break;
        }
      }
    }

    /** hasNext: fills the cache only when it is empty; true exactly when a record remains. */
    method HasNext() returns (b: bool)
      requires Valid()
      modifies this
      ensures Valid() && Output() == old(Output())
      ensures b <==> Output() != []
      ensures b <==> nextRecord.Some?
      ensures old(nextRecord).Some? ==> nextRecord == old(nextRecord) && State() == old(State())
    {
      if nextRecord.None? {
        nextRecord := FetchNextRecord();
      }
      b := nextRecord.Some?;
    }

    /** next: the first record still to return, which it removes; NoSuchElement when none remains. */
    method Next() returns (r: Result<Record, JoinError>)
      requires Valid()
      modifies this
      ensures Valid() && nextRecord == None
      ensures r.Err? <==> old(Output()) == []
      ensures r.Err? ==> r.error == NoSuchElement && Output() == []
      ensures r.Ok? ==> old(Output()) == [r.value] + Output()
    {
      var has := HasNext();
      if !has {
        return Err(NoSuchElement);
      }
      ghost var rest := pending;
      r := Ok(nextRecord.value);
      nextRecord := None;
      assert Output() == rest;
    }
  }
}
