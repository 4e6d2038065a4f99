/**
 * A backtracking iterator over a fixed sequence: next() returns the item at
 * `pos`, mark() remembers the item next() returned last, and reset() makes
 * the following next() return the remembered item again.
 */
module Cursors {
  import opened Wrappers

  datatype Cursor<T> = Cursor(items: seq<T>, pos: nat, mark: Option<nat>)

  /** An iterator that has returned nothing and marked nothing. */
  function Open<T>(items: seq<T>): Cursor<T> {
    Cursor(items, 0, None)
  }

  predicate HasNext<T>(c: Cursor<T>) {
    c.pos < |c.items|
  }

  /** The item next() returns. */
  function Current<T>(c: Cursor<T>): T
    requires HasNext(c)
  {
    c.items[c.pos]
  }

  /** The iterator after next(). */
  function Advance<T>(c: Cursor<T>): Cursor<T>
    requires HasNext(c)
  {
    c.(pos := c.pos + 1)
  }

  /** mark(): remembers the last item returned; before any next() it does nothing. */
  function Mark<T>(c: Cursor<T>): Cursor<T> {
    if c.pos > 0 then c.(mark := Some(c.pos - 1)) else c
  }

  /** reset(): the next next() returns the marked item; without a mark it does nothing. */
  function Reset<T>(c: Cursor<T>): Cursor<T> {
    if c.mark.Some? then c.(pos := c.mark.value) else c
  }

  /** next(); mark(); reset() leaves the iterator where it was, now marked there. */
  lemma NextMarkResetReplays<T>(c: Cursor<T>)
    requires HasNext(c)
    ensures Reset(Mark(Advance(c))) == c.(mark := Some(c.pos))
    ensures HasNext(Reset(Mark(Advance(c)))) && Current(Reset(Mark(Advance(c)))) == Current(c)
  {
  }

  /** After next(); mark(), any number of further next() calls are undone by reset(). */
  lemma ResetReturnsToMark<T>(c: Cursor<T>, k: nat)
    requires c.pos + k < |c.items|
    ensures var m := Mark(Advance(c));
      Reset(m.(pos := m.pos + k)) == Cursor(c.items, c.pos, Some(c.pos))
  {
  }
}
