/**
Merging keystore and pipeline deltas from several sources into one apply plan, and what the
single merged apply does compared with applying the deltas one after another.
*/
module DeltaMerge {

  /** Names to set and names to delete. One apply deletes first and sets afterwards. */
  datatype Delta<V> = Delta(sets: map<string, V>, deletes: seq<string>)

  function Apply<V>(m: map<string, V>, d: Delta<V>): map<string, V> {
    (m - (set n | n in d.deletes)) + d.sets
  }

  /** The deltas applied one after another. */
  function ApplyAll<V>(m: map<string, V>, ds: seq<Delta<V>>): map<string, V> {
    if ds == [] then m else Apply(ApplyAll(m, ds[..|ds| - 1]), ds[|ds| - 1])
  }

  /** Append the names that are not listed yet. */
  function AppendNew(xs: seq<string>, ys: seq<string>): seq<string>
    decreases |ys|
  {
    if ys == [] then xs
    else AppendNew(if ys[0] in xs then xs else xs + [ys[0]], ys[1..])
  }

  function Merge<V>(plan: Delta<V>, incoming: Delta<V>): Delta<V> {
    Delta(plan.sets + incoming.sets, AppendNew(plan.deletes, incoming.deletes))
  }

  /** The plan after every source contributed. */
  function Merged<V>(ds: seq<Delta<V>>): Delta<V> {
    if ds == [] then Delta(map[], []) else Merge(Merged(ds[..|ds| - 1]), ds[|ds| - 1])
  }

  function Without<V>(names: seq<string>, m: map<string, V>): seq<string> {
    if names == [] then []
    else if names[0] in m then Without(names[1..], m)
    else [names[0]] + Without(names[1..], m)
  }

  /** A name being set supersedes a delete of the same name. */
  function Filtered<V>(d: Delta<V>): Delta<V> {
    d.(deletes := Without(d.deletes, d.sets))
  }

  /** The shared plan, updated in place by every source. */
  class DeltaPlan<V> {
    var sets: map<string, V>
    var deletes: seq<string>

    function Value(): Delta<V>
      reads this
    {
      Delta(sets, deletes)
    }

    constructor ()
      ensures Value() == Delta(map[], [])
    {
      sets, deletes := map[], [];
    }

    method MergeSets(incoming: map<string, V>)
      modifies this`sets
      ensures sets == old(sets) + incoming
    {
      var todo := incoming.Keys;
      while todo != {}
        invariant todo <= incoming.Keys
        invariant sets == old(sets) + (incoming - todo)
        decreases |todo|
      {
        var name :| name in todo;
        assert (old(sets) + (incoming - todo))[name := incoming[name]] == old(sets) + (incoming - (todo - {name}));
        sets := sets[name := incoming[name]];
        todo := todo - {name};
      }
      assert incoming - {} == incoming;
    }

    /** `_merge_keystore_into` and `_merge_pipelines_into`. */
    method MergeIn(incoming: Delta<V>)
      modifies this
      ensures Value() == Merge(old(Value()), incoming)
    {
      MergeSets(incoming.sets);
      for i := 0 to |incoming.deletes|
        invariant sets == old(sets) + incoming.sets
        invariant AppendNew(deletes, incoming.deletes[i..]) == AppendNew(old(deletes), incoming.deletes)
      {
        var name := incoming.deletes[i];
        assert incoming.deletes[i..][1..] == incoming.deletes[i + 1..];
        if name !in deletes {
          deletes := deletes + [name];
        }
      }
    }

    /** The "set supersedes delete" filter of `_apply_merged_plan`. */
    method DropSuperseded()
      modifies this
      ensures Value() == Filtered(old(Value()))
    {
      var kept := [];
      for i := 0 to |deletes|
        invariant sets == old(sets) && deletes == old(deletes)
        invariant kept + Without(deletes[i..], sets) == Without(deletes, sets)
      {
        assert deletes[i..][1..] == deletes[i + 1..];
        if deletes[i] !in sets {
          kept := kept + [deletes[i]];
        }
      }
      deletes := kept;
    }
  }

  lemma {:induction false} AppendNewMembers(xs: seq<string>, ys: seq<string>)
    ensures forall n :: n in AppendNew(xs, ys) <==> n in xs || n in ys
    decreases |ys|
  {
    if ys != [] {
      var xs' := if ys[0] in xs then xs else xs + [ys[0]];
      AppendNewMembers(xs', ys[1..]);
      assert ys == [ys[0]] + ys[1..];
      assert forall n :: n in xs' <==> n in xs || n == ys[0];
    }
  }

  lemma {:induction false} WithoutMembers<V>(names: seq<string>, m: map<string, V>)
    ensures forall n :: n in Without(names, m) <==> n in names && n !in m
  {
    if names != [] {
      WithoutMembers(names[1..], m);
      assert names == [names[0]] + names[1..];
    }
  }

  /** The filter does not change what the plan does to any map. */
  lemma FilterIsNeutral<V>(m: map<string, V>, d: Delta<V>)
    ensures Apply(m, Filtered(d)) == Apply(m, d)
  {
    WithoutMembers(d.deletes, d.sets);
    var a, b := Apply(m, Filtered(d)), Apply(m, d);
    assert a.Keys == b.Keys;
    assert forall n | n in a :: a[n] == b[n];
  }

  /** Whether and how the deltas, taken in order, decide about one name. */
  datatype Fate<V> = Untouched | Gone | SetTo(value: V)

  ghost function FateOf<V>(ds: seq<Delta<V>>, n: string): Fate<V> {
    if ds == [] then Untouched
    else
      var d := ds[|ds| - 1];
      if n in d.sets then SetTo(d.sets[n])
      else if n in d.deletes then Gone
      else FateOf(ds[..|ds| - 1], n)
  }

  lemma {:induction false} SequentialByFate<V>(m: map<string, V>, ds: seq<Delta<V>>, n: string)
    ensures match FateOf(ds, n)
      case Untouched => (n in ApplyAll(m, ds) <==> n in m) && (n in m ==> ApplyAll(m, ds)[n] == m[n])
      case Gone => n !in ApplyAll(m, ds)
      case SetTo(v) => n in ApplyAll(m, ds) && ApplyAll(m, ds)[n] == v
  {
    if ds != [] {
      SequentialByFate(m, ds[..|ds| - 1], n);
    }
  }

  /** The merged plan sets the right-biased union of all sets and deletes the union of all deletes. */
  lemma {:induction false} MergedByName<V>(ds: seq<Delta<V>>, n: string)
    ensures n in Merged(ds).sets <==> exists i :: 0 <= i < |ds| && n in ds[i].sets
    ensures forall i | 0 <= i < |ds| && n in ds[i].sets && (forall j | i < j < |ds| :: n !in ds[j].sets) ::
              Merged(ds).sets[n] == ds[i].sets[n]
    ensures n in Merged(ds).deletes <==> exists i :: 0 <= i < |ds| && n in ds[i].deletes
  {
    if ds != [] {
      var init, d := ds[..|ds| - 1], ds[|ds| - 1];
      MergedByName(init, n);
      AppendNewMembers(Merged(init).deletes, d.deletes);
      assert forall i | 0 <= i < |init| :: init[i] == ds[i];
      assert (exists i :: 0 <= i < |ds| && n in ds[i].sets) <==>
             (exists i :: 0 <= i < |init| && n in init[i].sets) || n in d.sets;
      assert (exists i :: 0 <= i < |ds| && n in ds[i].deletes) <==>
             (exists i :: 0 <= i < |init| && n in init[i].deletes) || n in d.deletes;
    }
  }

  /** A name whose last mention deletes it, although an earlier delta set it. */
  ghost predicate Resurrected<V>(ds: seq<Delta<V>>, n: string) {
    FateOf(ds, n).Gone? && n in Merged(ds).sets
  }

  lemma {:induction false} FateAgainstMerged<V>(ds: seq<Delta<V>>, n: string)
    ensures match FateOf(ds, n)
      case Untouched => n !in Merged(ds).sets && n !in Merged(ds).deletes
      case Gone => n in Merged(ds).deletes
      case SetTo(v) => n in Merged(ds).sets && Merged(ds).sets[n] == v
  {
    if ds != [] {
      FateAgainstMerged(ds[..|ds| - 1], n);
      AppendNewMembers(Merged(ds[..|ds| - 1]).deletes, ds[|ds| - 1].deletes);
    }
  }

  /**
  Every name that an earlier delta sets and a later delta deletes is set again at or after
  that delete.
  */
  ghost predicate SetAgainAfterDelete<V>(ds: seq<Delta<V>>) {
    forall i, j, n | 0 <= i < j < |ds| && n in ds[i].sets && n in ds[j].deletes ::
      exists k :: j <= k < |ds| && n in ds[k].sets
  }

  /** The last delete decides a name that is gone, and nothing sets it from there on. */
  lemma {:induction false} GoneAt<V>(ds: seq<Delta<V>>, n: string) returns (j: nat)
    requires FateOf(ds, n).Gone?
    ensures j < |ds| && n in ds[j].deletes
    ensures forall k | j <= k < |ds| :: n !in ds[k].sets
  {
    if n in ds[|ds| - 1].deletes {
      j := |ds| - 1;
    } else {
      j := GoneAt(ds[..|ds| - 1], n);
    }
  }

  lemma {:induction false} GoneIf<V>(ds: seq<Delta<V>>, n: string, j: nat)
    requires j < |ds| && n in ds[j].deletes
    requires forall k | j <= k < |ds| :: n !in ds[k].sets
    ensures FateOf(ds, n).Gone?
  {
    assert n !in ds[|ds| - 1].sets;
    if n !in ds[|ds| - 1].deletes {
      GoneIf(ds[..|ds| - 1], n, j);
    }
  }

  lemma NoneResurrected<V>(ds: seq<Delta<V>>)
    ensures SetAgainAfterDelete(ds) <==> forall n :: !Resurrected(ds, n)
  {
    if !SetAgainAfterDelete(ds) {
      var i, j, n :| 0 <= i < j < |ds| && n in ds[i].sets && n in ds[j].deletes &&
        forall k | j <= k < |ds| :: n !in ds[k].sets;
      GoneIf(ds, n, j);
      MergedByName(ds, n);
      assert Resurrected(ds, n);
    }
    if n :| Resurrected(ds, n) {
      MergedByName(ds, n);
      var j := GoneAt(ds, n);
      var i :| 0 <= i < |ds| && n in ds[i].sets;
      assert i < j;
    }
  }

  /**
  The one merged apply has the effect of applying the deltas one after another, on every
  map, if and only if no name stays deleted that an earlier delta had set.
  */
  lemma MergedEqualsSequential<V>(m: map<string, V>, ds: seq<Delta<V>>)
    ensures Apply(m, Filtered(Merged(ds))) == ApplyAll(m, ds) <==> SetAgainAfterDelete(ds)
  {
    FilterIsNeutral(m, Merged(ds));
    NoneResurrected(ds);
    var a, b := Apply(m, Merged(ds)), ApplyAll(m, ds);
    if SetAgainAfterDelete(ds) {
      forall n
        ensures n in a <==> n in b
        ensures n in a ==> a[n] == b[n]
      {
        SequentialByFate(m, ds, n);
        FateAgainstMerged(ds, n);
        assert !Resurrected(ds, n);
      }
      assert a == b;
    } else {
      var n :| Resurrected(ds, n);
      SequentialByFate(m, ds, n);
      assert n in a && n !in b;
    }
  }
}
