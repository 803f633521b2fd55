/** The hosted record store, replaced by in-memory tables. A table is a sequence of rows in
    insertion order; `insert`, `delete().eq(...)` and `update(...).eq(...)` become methods
    that reassign it. Whether the store accepts a write is decided outside the model and
    passed to the pages as a parameter. */
module Store {

  import Seqs

  class Table<R(!new)> {
    var rows: seq<R>

    constructor (initial: seq<R>)
      ensures rows == initial
    {
      rows := initial;
    }

    /** An accepted `insert(row)`: the row is appended, the others stay as they were. */
    method Insert(row: R)
      modifies this
      ensures rows == old(rows) + [row]
    {
      rows := rows + [row];
    }

    /** `delete()` filtered by `matches`: every selected row goes, the rest stay in order. */
    method Delete(matches: R -> bool)
      modifies this
      ensures rows == Without(old(rows), matches)
    {
      rows := Without(rows, matches);
    }

    /** `update(patch)` filtered by `matches`: selected rows are patched in place. */
    method Update(matches: R -> bool, patch: R -> R)
      modifies this
      ensures rows == Patched(old(rows), matches, patch)
    {
      rows := Patched(rows, matches, patch);
    }
  }

  /** How a guarded form submission ends: no signed-in user, input the page rejects before
      writing, an insert the store refuses, or an accepted insert. */
  datatype SubmitOutcome = NotSignedIn | Invalid | Failed | Submitted

  /** The rows a delete leaves: exactly the unselected ones, in their original order. */
  function Without<R(!new)>(rows: seq<R>, matches: R -> bool): (r: seq<R>)
    ensures forall x :: x in r <==> x in rows && !matches(x)
    ensures forall x :: multiset(r)[x] == if matches(x) then 0 else multiset(rows)[x]
    ensures Seqs.IsSubsequence(r, rows)
  {
    Seqs.FilterIsSubsequence(rows, x => !matches(x));
    Seqs.FilterMultiplicity(rows, x => !matches(x));
    Seqs.Filter(rows, x => !matches(x))
  }

  /** The rows after an update: same positions, selected rows patched, others untouched. */
  function Patched<R>(rows: seq<R>, matches: R -> bool, patch: R -> R): (r: seq<R>)
    ensures |r| == |rows|
    ensures forall i :: 0 <= i < |rows| && !matches(rows[i]) ==> r[i] == rows[i]
    ensures forall i :: 0 <= i < |rows| && matches(rows[i]) ==> r[i] == patch(rows[i])
  {
    seq(|rows|, i requires 0 <= i < |rows| => if matches(rows[i]) then patch(rows[i]) else rows[i])
  }

  /** Re-applying an update with an idempotent patch changes nothing. */
  lemma PatchedTwice<R>(rows: seq<R>, matches: R -> bool, patch: R -> R)
    requires forall x :: patch(patch(x)) == patch(x)
    ensures Patched(Patched(rows, matches, patch), matches, patch) == Patched(rows, matches, patch)
  {
    var once := Patched(rows, matches, patch);
    var twice := Patched(once, matches, patch);
    forall i | 0 <= i < |rows| ensures twice[i] == once[i] {
      if matches(rows[i]) {
        assert once[i] == patch(rows[i]);
      }
    }
  }
}
