/**
 * persist(list) inside one transaction: the entities are inserted one after another and the first
 * one the database rejects aborts the whole call, so either every row is stored or none is.
 */
module Persistence {
  import opened Wrappers

  /** The rows storing fs in order, or None when store rejects one of them. */
  function InsertAll<F, R>(fs: seq<F>, store: F -> Option<R>): (r: Option<seq<R>>)
    ensures r.Some? <==> forall i :: 0 <= i < |fs| ==> store(fs[i]).Some?
    ensures r.Some? ==> |r.value| == |fs|
    ensures r.Some? ==> forall i :: 0 <= i < |fs| ==> r.value[i] == store(fs[i]).value
  {
    if fs == [] then Some([])
    else
      var head := store(fs[0]);
      var tail := InsertAll(fs[1..], store);
      if head.None? || tail.None? then
        assert tail.None? ==> exists i :: 0 <= i < |fs[1..]| && store(fs[1..][i]).None?;
        None
      else
        Some([head.value] + tail.value)
  }

  /** Storing one more entity extends the stored rows by its row. */
  lemma InsertAllAppend<F, R>(fs: seq<F>, f: F, store: F -> Option<R>)
    requires InsertAll(fs, store).Some? && store(f).Some?
    ensures InsertAll(fs + [f], store) == Some(InsertAll(fs, store).value + [store(f).value])
  {
    var g := fs + [f];
    assert forall i :: 0 <= i < |g| ==> store(g[i]).Some? by {
      forall i | 0 <= i < |g| ensures store(g[i]).Some? {
        if i < |fs| { assert g[i] == fs[i]; }
      }
    }
    var lhs := InsertAll(g, store).value;
    var rhs := InsertAll(fs, store).value + [store(f).value];
    forall i | 0 <= i < |g| ensures lhs[i] == rhs[i] {
      if i < |fs| { assert g[i] == fs[i]; }
    }
    assert lhs == rhs;
  }

  /** The same, for a loop that has stored the first i entities of fs. */
  lemma StoredPrefix<F, R>(fs: seq<F>, i: nat, row: R, store: F -> Option<R>)
    requires i < |fs| && InsertAll(fs[..i], store).Some? && store(fs[i]) == Some(row)
    ensures InsertAll(fs[..i + 1], store) == Some(InsertAll(fs[..i], store).value + [row])
  {
    assert fs[..i + 1] == fs[..i] + [fs[i]];
    InsertAllAppend(fs[..i], fs[i], store);
  }

  /** The results of the elements convert accepts, in order; the elements it rejects are skipped. */
  function Converted<S, F>(xs: seq<S>, convert: S -> Option<F>): (r: seq<F>)
    ensures |r| <= |xs|
  {
    if xs == [] then []
    else
      var last := convert(xs[|xs| - 1]);
      Converted(xs[..|xs| - 1], convert) + (if last.Some? then [last.value] else [])
  }

  /**
   * Skipping loses exactly the rejected elements: every result comes from some element, every
   * accepted element's result is there, and when all are accepted there is one result each.
   */
  lemma {:induction false} ConvertedKeepsAccepted<S, F>(xs: seq<S>, convert: S -> Option<F>)
    ensures forall f :: f in Converted(xs, convert) ==> exists i :: 0 <= i < |xs| && convert(xs[i]) == Some(f)
    ensures forall i :: 0 <= i < |xs| && convert(xs[i]).Some? ==> convert(xs[i]).value in Converted(xs, convert)
    ensures (forall i :: 0 <= i < |xs| ==> convert(xs[i]).Some?) ==> |Converted(xs, convert)| == |xs|
    decreases |xs|
  {
    if xs != [] {
      var init := xs[..|xs| - 1];
      ConvertedKeepsAccepted(init, convert);
      assert forall i :: 0 <= i < |init| ==> init[i] == xs[i];
    }
  }

  /** One converted element that store rejects makes the whole insert fail. */
  lemma ConvertedRejected<S, F, R>(xs: seq<S>, convert: S -> Option<F>, store: F -> Option<R>, i: int)
    requires 0 <= i < |xs| && convert(xs[i]).Some? && store(convert(xs[i]).value).None?
    ensures InsertAll(Converted(xs, convert), store).None?
  {
    ConvertedKeepsAccepted(xs, convert);
    var fs := Converted(xs, convert);
    var k :| 0 <= k < |fs| && fs[k] == convert(xs[i]).value;
  }

  /** The same, for a loop that has converted the first i elements of xs. */
  lemma ConvertedPrefix<S, F>(xs: seq<S>, i: nat, convert: S -> Option<F>)
    requires i < |xs|
    ensures Converted(xs[..i + 1], convert) ==
      Converted(xs[..i], convert) + (if convert(xs[i]).Some? then [convert(xs[i]).value] else [])
  {
    assert xs[..i + 1][..i] == xs[..i];
  }
}
