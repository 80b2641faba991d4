/**
 * The retention statements the three record repositories share: an UPDATE that retires the stale
 * rows in place and a DELETE that removes the old ones, each answering with a row count.
 */
module Retention {
  import opened Ordering

  /** UPDATE ... WHERE stale: every stale row is replaced by its retired form, the rest stay. */
  function Deactivated<T>(s: seq<T>, stale: T -> bool, retire: T -> T): (r: seq<T>)
    ensures |r| == |s|
    ensures forall i :: 0 <= i < |s| ==> r[i] == (if stale(s[i]) then retire(s[i]) else s[i])
  {
    seq(|s|, i requires 0 <= i < |s| => if stale(s[i]) then retire(s[i]) else s[i])
  }

  /** An UPDATE that has visited the first i rows of s: those retired where stale, the rest untouched. */
  predicate RetiredUpTo<T(==)>(rows: seq<T>, s: seq<T>, i: nat, stale: T -> bool, retire: T -> T) {
    && |rows| == |s| && i <= |s|
    && (forall k :: 0 <= k < i ==> rows[k] == (if stale(s[k]) then retire(s[k]) else s[k]))
    && (forall k :: i <= k < |s| ==> rows[k] == s[k])
  }

  /** Visiting row i retires it exactly when it is stale. */
  lemma RetireStep<T>(rows: seq<T>, s: seq<T>, i: nat, stale: T -> bool, retire: T -> T)
    requires RetiredUpTo(rows, s, i, stale, retire) && i < |s|
    ensures rows[i] == s[i]
    ensures RetiredUpTo(if stale(rows[i]) then rows[i := retire(rows[i])] else rows, s, i + 1, stale, retire)
  {
  }

  /** Having visited every row, the UPDATE has produced Deactivated. */
  lemma RetiredAll<T>(rows: seq<T>, s: seq<T>, stale: T -> bool, retire: T -> T)
    requires RetiredUpTo(rows, s, |s|, stale, retire)
    ensures rows == Deactivated(s, stale, retire)
  {
  }

  lemma {:induction false} CountAppend<T>(s: seq<T>, x: T, p: T -> bool)
    ensures Count(s + [x], p) == Count(s, p) + (if p(x) then 1 else 0)
    decreases |s|
  {
    if s == [] {
      assert [] + [x] == [x];
      assert [x][1..] == [];
    } else {
      assert (s + [x])[1..] == s[1..] + [x];
      CountAppend(s[1..], x, p);
    }
  }

  /** Once retired, no row is stale any more: a second UPDATE with the same cutoff changes nothing. */
  lemma DeactivatedIdempotent<T>(s: seq<T>, stale: T -> bool, retire: T -> T)
    requires forall i :: 0 <= i < |s| && stale(s[i]) ==> !stale(retire(s[i]))
    ensures Count(Deactivated(s, stale, retire), stale) == 0
    ensures Deactivated(Deactivated(s, stale, retire), stale, retire) == Deactivated(s, stale, retire)
  {
    var d := Deactivated(s, stale, retire);
    CountZero(d, stale);
  }

  /** DELETE ... WHERE old: the rows kept are those that are not old, and the count is of the old ones. */
  lemma {:induction false} FilterComplement<T>(s: seq<T>, aged: T -> bool, keep: T -> bool)
    requires forall i :: 0 <= i < |s| ==> (keep(s[i]) <==> !aged(s[i]))
    ensures |Filter(s, keep)| + Count(s, aged) == |s|
    decreases |s|
  {
    if s != [] {
      FilterComplement(s[1..], aged, keep);
    }
  }

  /** After the DELETE no old row remains. */
  lemma NothingOldRemains<T>(s: seq<T>, aged: T -> bool, keep: T -> bool)
    requires forall x :: keep(x) ==> !aged(x)
    ensures Count(Filter(s, keep), aged) == 0
  {
    var f := Filter(s, keep);
    CountZero(f, aged);
  }
}
