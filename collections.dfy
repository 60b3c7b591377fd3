/** Value-level helpers shared by the planner, the compressors and the board helpers. */
module Collections {

  datatype Option<+T> = None | Some(value: T)

  datatype Result<+T, +E> = Ok(value: T) | Err(error: E)

  /** The concatenation, in order, of a sequence of sequences. */
  function Flatten<T>(ss: seq<seq<T>>): seq<T>
  {
    if ss == [] then [] else Flatten(ss[..|ss| - 1]) + ss[|ss| - 1]
  }

  function Sum(xs: seq<int>): int
  {
    if xs == [] then 0 else Sum(xs[..|xs| - 1]) + xs[|xs| - 1]
  }

  /** The lengths of the member sequences, in order. */
  function Lengths<T>(ss: seq<seq<T>>): (ls: seq<nat>)
    ensures |ls| == |ss|
    ensures forall i :: 0 <= i < |ss| ==> ls[i] == |ss[i]|
  {
    seq(|ss|, i requires 0 <= i < |ss| => |ss[i]|)
  }

  /** `m.get(k, default)`. */
  function GetOr<K, V>(m: map<K, V>, k: K, default: V): V
  {
    if k in m then m[k] else default
  }

  /** The dictionary a Python loop builds by executing `d[k] = v` for each pair
      in order: a later pair overwrites an earlier one with the same key. */
  function ToDict<K, V>(pairs: seq<(K, V)>): (d: map<K, V>)
    ensures pairs != [] ==> pairs[|pairs| - 1].0 in d && d[pairs[|pairs| - 1].0] == pairs[|pairs| - 1].1
  {
    if pairs == [] then map[]
    else ToDict(pairs[..|pairs| - 1])[pairs[|pairs| - 1].0 := pairs[|pairs| - 1].1]
  }

  /** The keys of the dictionary are exactly the keys of the pairs. */
  lemma {:induction false} ToDictKeys<K, V>(pairs: seq<(K, V)>)
    ensures ToDict(pairs).Keys == set i | 0 <= i < |pairs| :: pairs[i].0
  {
    if pairs != [] {
      var init := pairs[..|pairs| - 1];
      ToDictKeys(init);
      assert forall i :: 0 <= i < |init| ==> init[i] == pairs[i];
      var s := set i | 0 <= i < |pairs| :: pairs[i].0;
      var s' := set i | 0 <= i < |init| :: init[i].0;
      assert s == s' + {pairs[|pairs| - 1].0} by {
        forall k | k in s ensures k in s' + {pairs[|pairs| - 1].0} {
          var i :| 0 <= i < |pairs| && pairs[i].0 == k;
          if i < |init| { assert init[i].0 == k; }
        }
      }
    }
  }

  /** A dictionary built from `n` assignments holds at most `n` entries. */
  lemma {:induction false} ToDictSize<K, V>(pairs: seq<(K, V)>)
    ensures |ToDict(pairs)| <= |pairs|
  {
    if pairs != [] {
      ToDictSize(pairs[..|pairs| - 1]);
    }
  }

  /** The value stored for the key of pair `i` is that pair's value when no
      later pair has the same key (the last assignment wins). */
  lemma {:induction false} ToDictLastWins<K, V>(pairs: seq<(K, V)>, i: nat)
    requires i < |pairs|
    requires forall j :: i < j < |pairs| ==> pairs[j].0 != pairs[i].0
    ensures pairs[i].0 in ToDict(pairs) && ToDict(pairs)[pairs[i].0] == pairs[i].1
  {
    var init := pairs[..|pairs| - 1];
    if i < |pairs| - 1 {
      assert init[i] == pairs[i];
      forall j | i < j < |init| ensures init[j].0 != init[i].0 {
        assert init[j] == pairs[j];
      }
      ToDictLastWins(init, i);
    }
  }

  /** With pairwise distinct keys no entry is overwritten. */
  lemma {:induction false} ToDictDistinctSize<K, V>(pairs: seq<(K, V)>)
    requires forall i, j :: 0 <= i < j < |pairs| ==> pairs[i].0 != pairs[j].0
    ensures |ToDict(pairs)| == |pairs|
  {
    if pairs != [] {
      var init := pairs[..|pairs| - 1];
      assert forall i :: 0 <= i < |init| ==> init[i] == pairs[i];
      ToDictDistinctSize(init);
      ToDictKeys(init);
      assert pairs[|pairs| - 1].0 !in ToDict(init);
    }
  }

  lemma {:induction false} FlattenAppend<T>(ss: seq<seq<T>>, s: seq<T>)
    ensures Flatten(ss + [s]) == Flatten(ss) + s
  {
    assert (ss + [s])[..|ss|] == ss;
  }

  /** The flattened length is the sum of the member lengths. */
  lemma {:induction false} FlattenLength<T>(ss: seq<seq<T>>)
    ensures |Flatten(ss)| == Sum(Lengths(ss))
  {
    if ss != [] {
      var init := ss[..|ss| - 1];
      FlattenLength(init);
      assert Lengths(ss)[..|ss| - 1] == Lengths(init);
    }
  }
}
