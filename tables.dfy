/**
 * The two ways the container fills a `HashMap` from a list: `put` for every entry in turn (a
 * later key overwrites an earlier one), and a list of per-entry conversions any one of which
 * may fail (the first failure aborts the whole parse).
 */
module Tables {
  import opened Wrappers

  /** The map after `put(k, v)` for every pair, first to last. */
  function PutAll<K, V>(m: map<K, V>, pairs: seq<(K, V)>): map<K, V>
    decreases |pairs|
  {
    if pairs == [] then m
    else PutAll(m, pairs[..|pairs| - 1])[pairs[|pairs| - 1].0 := pairs[|pairs| - 1].1]
  }

  /** The position of the last pair whose key is `k`. */
  function LastIndex<K(==), V>(pairs: seq<(K, V)>, k: K): (r: Option<nat>)
    ensures r.Some? ==> r.value < |pairs| && pairs[r.value].0 == k
    ensures r.Some? ==> forall j :: r.value < j < |pairs| ==> pairs[j].0 != k
    ensures r.None? ==> forall j :: 0 <= j < |pairs| ==> pairs[j].0 != k
    decreases |pairs|
  {
    if pairs == [] then None
    else if pairs[|pairs| - 1].0 == k then Some(|pairs| - 1)
    else LastIndex(pairs[..|pairs| - 1], k)
  }

  /** A key ends up bound to the value of its last pair; keys without a pair keep their entry. */
  lemma {:induction false} PutAllLookup<K, V>(m: map<K, V>, pairs: seq<(K, V)>, k: K)
    ensures k in PutAll(m, pairs) <==> k in m || LastIndex(pairs, k).Some?
    ensures LastIndex(pairs, k).Some? ==> PutAll(m, pairs)[k] == pairs[LastIndex(pairs, k).value].1
    ensures LastIndex(pairs, k).None? && k in m ==> PutAll(m, pairs)[k] == m[k]
    decreases |pairs|
  {
    if pairs != [] {
      PutAllLookup(m, pairs[..|pairs| - 1], k);
    }
  }

  /** Putting one pair after the others. */
  lemma PutAllSnoc<K, V>(m: map<K, V>, pairs: seq<(K, V)>, p: (K, V))
    ensures PutAll(m, pairs + [p]) == PutAll(m, pairs)[p.0 := p.1]
  {
    assert (pairs + [p])[..|pairs|] == pairs;
  }

  /**
   * Every conversion of `xs` by `f`, in order, or `None` as soon as one fails. Defined from the
   * last element so that it follows a loop over a growing prefix.
   */
  function MapAll<A, B>(xs: seq<A>, f: A -> Option<B>): (r: Option<seq<B>>)
    ensures r.Some? <==> forall i :: 0 <= i < |xs| ==> f(xs[i]).Some?
    ensures r.Some? ==> |r.value| == |xs|
    ensures r.Some? ==> forall i :: 0 <= i < |xs| ==> r.value[i] == f(xs[i]).value
    decreases |xs|
  {
    if xs == [] then Some([])
    else
      match MapAll(xs[..|xs| - 1], f)
      case None => None
      case Some(init) =>
        match f(xs[|xs| - 1])
        case None => None
        case Some(y) => Some(init + [y])
  }

  /** One more element converted after a prefix. */
  lemma MapAllSnoc<A, B>(xs: seq<A>, f: A -> Option<B>, i: nat)
    requires i < |xs|
    ensures MapAll(xs[..i + 1], f) ==
      match MapAll(xs[..i], f)
      case None => None
      case Some(init) => if f(xs[i]).Some? then Some(init + [f(xs[i]).value]) else None
  {
    assert xs[..i + 1][..i] == xs[..i];
  }

  /**
   * Putting the converted entries of `xs` into `m`: a key is present when `m` has it or some
   * entry carries it, and an entry that no later entry overrides gives the key its value.
   */
  lemma PutAllMapAll<A, K, V>(m: map<K, V>, xs: seq<A>, f: A -> Option<(K, V)>, k: K)
    requires MapAll(xs, f).Some?
    ensures k in PutAll(m, MapAll(xs, f).value) <==> k in m || exists i :: 0 <= i < |xs| && f(xs[i]).value.0 == k
    ensures forall i :: (0 <= i < |xs| && f(xs[i]).value.0 == k &&
                         forall j :: i < j < |xs| ==> f(xs[j]).value.0 != k) ==>
                        PutAll(m, MapAll(xs, f).value)[k] == f(xs[i]).value.1
  {
    var pairs := MapAll(xs, f).value;
    PutAllLookup(m, pairs, k);
    if exists i :: 0 <= i < |xs| && f(xs[i]).value.0 == k {
      var i :| 0 <= i < |xs| && f(xs[i]).value.0 == k;
      assert pairs[i].0 == k;
    }
    forall i | 0 <= i < |xs| && f(xs[i]).value.0 == k && forall j :: i < j < |xs| ==> f(xs[j]).value.0 != k
      ensures PutAll(m, pairs)[k] == f(xs[i]).value.1
    {
      assert pairs[i].0 == k;
      assert LastIndex(pairs, k).value == i;
    }
  }
}
