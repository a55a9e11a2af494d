/** remappable_map: a shared map read through a renaming of its keys, and the in-place renaming
    Subprogram::call applies to the map a user function returns. */
module Remap {
  import opened Common
  import opened StringOrder

  /** _get_map_key: the key of the underlying map behind a visible key. */
  function MapKey<K(==)>(remap: map<K, K>, k: K): K {
    if k in remap then remap[k] else k
  }

  /** Everything find and at can reach through the renaming. */
  function View<K(==), V>(m: map<K, V>, remap: map<K, K>): map<K, V> {
    map k | k in m.Keys + remap.Keys && MapKey(remap, k) in m :: m[MapKey(remap, k)]
  }

  /** One turn of the renaming loop for the source key k: emplace keeps an entry that is already
      there, erase then removes the source. */
  function RenameKey<K(==), V>(res: map<K, V>, k: K, target: K): map<K, V> {
    if k !in res then res
    else (if target in res then res else res[target := res[k]]) - {k}
  }

  function RenameFrom<K(==), V>(res: map<K, V>, keys: seq<K>, remap: map<K, K>): map<K, V>
    requires forall k <- keys :: k in remap
    decreases keys
  {
    if keys == [] then res
    else RenameFrom(RenameKey(res, keys[0], remap[keys[0]]), keys[1..], remap)
  }

  function Rename<V>(res: map<string, V>, remap: map<string, string>): map<string, V> {
    RenameFrom(res, SortedKeys(remap.Keys), remap)
  }

  /** The loop of Subprogram::call over get_key_map(). */
  method RenameInPlace<V>(m: map<string, V>, remap: map<string, string>) returns (res: map<string, V>)
    ensures res == Rename(m, remap)
  {
    res := m;
    var keys := SortedKeys(remap.Keys);
    for i := 0 to |keys|
      invariant RenameFrom(res, keys[i..], remap) == Rename(m, remap)
    {
      var source, target := keys[i], remap[keys[i]];
      if source in res {
        if target !in res {
          res := res[target := res[source]];
        }
        res := res - {source};
      }
    }
  }

  /** out is res with every key replaced at once: new names do not collide, every entry is found
      under its new name, and the equal sizes leave room for nothing else. */
  ghost predicate RenamedAtOnce<K, V>(res: map<K, V>, remap: map<K, K>, out: map<K, V>) {
    && |out| == |res|
    && (forall k, l | k in res && l in res && k != l :: MapKey(remap, k) != MapKey(remap, l))
    && (forall k {:trigger res[k]} | k in res :: MapKey(remap, k) in out && out[MapKey(remap, k)] == res[k])
  }

  lemma RenameKeySize<K, V>(res: map<K, V>, k: K, target: K)
    ensures |RenameKey(res, k, target)| == if k in res && target in res then |res| - 1 else |res|
  {
    if k in res {
      var added := if target in res then res else res[target := res[k]];
      assert added.Keys == res.Keys + {target};
      assert (added - {k}).Keys == added.Keys - {k};
      assert |added.Keys| == if target in res then |res.Keys| else |res.Keys| + 1 by {
        if target in res { assert res.Keys + {target} == res.Keys; }
      }
      assert |added| == |added.Keys| && |added - {k}| == |(added - {k}).Keys|;
    }
  }

  /** Whatever the renaming, the returned map never gains entries. */
  lemma {:induction false} RenameNeverGrows<K, V>(res: map<K, V>, keys: seq<K>, remap: map<K, K>)
    requires forall k <- keys :: k in remap
    ensures |RenameFrom(res, keys, remap)| <= |res|
    decreases keys
  {
    if keys != [] {
      RenameKeySize(res, keys[0], remap[keys[0]]);
      RenameNeverGrows(RenameKey(res, keys[0], remap[keys[0]]), keys[1..], remap);
    }
  }

  /** res1 is res with the entry of k moved to a free target. */
  ghost predicate Moved<K, V>(res: map<K, V>, k: K, target: K, res1: map<K, V>) {
    && k in res && target !in res && res1.Keys == res.Keys - {k} + {target}
    && res1[target] == res[k] && |res1| == |res|
    && forall l {:trigger res1[l]} | l in res && l != k :: res1[l] == res[l]
  }

  lemma RenameKeyMoves<K, V>(res: map<K, V>, k: K, target: K)
    requires k in res && target !in res
    ensures Moved(res, k, target, RenameKey(res, k, target))
  {
    RenameKeySize(res, k, target);
  }

  // ----- where an entry ends -----

  /** Where the turns for the given keys leave an entry that stands at k, if no other entry is in its
      way; a turn that maps a name to itself erases it. */
  function EndAfter<K(==)>(keys: seq<K>, remap: map<K, K>, k: K): Option<K>
    requires forall l <- keys :: l in remap
    decreases keys
  {
    if keys == [] then Some(k)
    else if keys[0] != k then EndAfter(keys[1..], remap, k)
    else if remap[k] == k then None
    else EndAfter(keys[1..], remap, remap[k])
  }

  /** Every entry has an end, and no two have the same. */
  ghost predicate Survives<K, V>(res: map<K, V>, keys: seq<K>, remap: map<K, K>)
    requires forall l <- keys :: l in remap
  {
    && (forall k {:trigger res[k]} | k in res :: EndAfter(keys, remap, k).Some?)
    && forall k, l {:trigger res[k], res[l]} | k in res && l in res && k != l ::
         EndAfter(keys, remap, k) != EndAfter(keys, remap, l)
  }

  ghost predicate AtEnds<K, V>(res: map<K, V>, keys: seq<K>, remap: map<K, K>, out: map<K, V>)
    requires forall l <- keys :: l in remap
  {
    forall k {:trigger res[k]} | k in res ::
      EndAfter(keys, remap, k).Some? && EndAfter(keys, remap, k).value in out &&
        out[EndAfter(keys, remap, k).value] == res[k]
  }

  /** A turn that moves an entry, seen from the remaining turns. */
  lemma MovedSurvives<K, V>(res: map<K, V>, keys: seq<K>, remap: map<K, K>, res1: map<K, V>)
    requires (forall l <- keys :: l in remap) && keys != []
    requires remap[keys[0]] != keys[0] && Moved(res, keys[0], remap[keys[0]], res1)
    ensures Survives(res, keys, remap) <==> Survives(res1, keys[1..], remap)
  {
    var k0, rest := keys[0], keys[1..];
    var t := remap[k0];
    forall k | k in res ensures EndAfter(keys, remap, k) == EndAfter(rest, remap, if k == k0 then t else k) {}
    if Survives(res1, rest, remap) {
      forall k, l | k in res && l in res && k != l ensures EndAfter(keys, remap, k) != EndAfter(keys, remap, l) {
        var k1, l1 := if k == k0 then t else k, if l == k0 then t else l;
        var _, _ := res1[k1], res1[l1];
      }
      forall k | k in res ensures EndAfter(keys, remap, k).Some? { var _ := res1[if k == k0 then t else k]; }
    }
    if Survives(res, keys, remap) {
      forall k, l | k in res1 && l in res1 && k != l ensures EndAfter(rest, remap, k) != EndAfter(rest, remap, l) {
        var k1, l1 := if k == t then k0 else k, if l == t then k0 else l;
        var _, _ := res[k1], res[l1];
      }
      forall k | k in res1 ensures EndAfter(rest, remap, k).Some? { var _ := res[if k == t then k0 else k]; }
    }
  }

  lemma MovedAtEnds<K, V>(res: map<K, V>, keys: seq<K>, remap: map<K, K>, res1: map<K, V>, out: map<K, V>)
    requires (forall l <- keys :: l in remap) && keys != []
    requires remap[keys[0]] != keys[0] && Moved(res, keys[0], remap[keys[0]], res1) &&
             AtEnds(res1, keys[1..], remap, out)
    ensures AtEnds(res, keys, remap, out)
  {
    var k0 := keys[0];
    forall k | k in res
      ensures EndAfter(keys, remap, k).Some? && EndAfter(keys, remap, k).value in out &&
              out[EndAfter(keys, remap, k).value] == res[k]
    {
      var _ := res1[if k == k0 then remap[k0] else k];
    }
  }

  /** Entries other than a self-mapped one, or one in the way of another, are lost for good. */
  lemma LostIsNotSurvival<K, V>(res: map<K, V>, keys: seq<K>, remap: map<K, K>)
    requires (forall l <- keys :: l in remap) && keys != [] && keys[0] in res && remap[keys[0]] in res
    ensures !Survives(res, keys, remap)
  {
    var k0 := keys[0];
    var _, _ := res[k0], res[remap[k0]];
    if remap[k0] != k0 { assert EndAfter(keys, remap, k0) == EndAfter(keys, remap, remap[k0]); }
  }

  /** For any renaming at all: the loop loses no entry if and only if the entries have different ends,
      and then it leaves each at its end. */
  lemma {:induction false} LosslessIff<K, V>(res: map<K, V>, keys: seq<K>, remap: map<K, K>)
    requires forall l <- keys :: l in remap
    ensures |RenameFrom(res, keys, remap)| == |res| <==> Survives(res, keys, remap)
    ensures Survives(res, keys, remap) ==> AtEnds(res, keys, remap, RenameFrom(res, keys, remap))
    decreases keys
  {
    if keys != [] {
      var k0, rest := keys[0], keys[1..];
      var t := remap[k0];
      var res1 := RenameKey(res, k0, t);
      LosslessIff(res1, rest, remap);
      if k0 !in res {
        forall k | k in res ensures EndAfter(keys, remap, k) == EndAfter(rest, remap, k) {}
      } else if t in res {
        RenameKeySize(res, k0, t);
        RenameNeverGrows(res1, rest, remap);
        LostIsNotSurvival(res, keys, remap);
      } else {
        RenameKeyMoves(res, k0, t);
        MovedSurvives(res, keys, remap, res1);
        if Survives(res, keys, remap) { MovedAtEnds(res, keys, remap, res1, RenameFrom(res, keys, remap)); }
      }
    }
  }

  /** Whatever is lost, every key that is left is the end of some entry. */
  lemma {:induction false} OnlyEnds<K, V>(res: map<K, V>, keys: seq<K>, remap: map<K, K>, n: K) returns (k: K)
    requires (forall l <- keys :: l in remap) && n in RenameFrom(res, keys, remap)
    ensures k in res && EndAfter(keys, remap, k) == Some(n)
    decreases keys
  {
    if keys == [] {
      k := n;
    } else {
      var k0 := keys[0];
      k := OnlyEnds(RenameKey(res, k0, remap[k0]), keys[1..], remap, n);
      if k0 in res && k == remap[k0] && k !in res { k := k0; }
    }
  }

  // ----- the ends, read off the renaming -----

  function Later(remap: map<string, string>, k: string): set<string> {
    set l | l in remap && Less(k, l)
  }

  lemma LaterShrinks(remap: map<string, string>, k: string, l: string)
    requires l in remap && Less(k, l)
    ensures Later(remap, l) < Later(remap, k)
  {
    forall m | m in Later(remap, l) ensures m in Later(remap, k) { LessTransitive(k, l, m); }
    if l in Later(remap, l) { LessAsymmetric(l, l); }
  }

  /** The chain an entry follows: a name mapped to a later source is moved on from there, a name mapped
      to itself is lost, any other target is final. */
  function End(remap: map<string, string>, k: string): Option<string>
    decreases Later(remap, k)
  {
    if k !in remap then Some(k)
    else
      var t := remap[k];
      if t == k then None
      else if t in remap && Less(k, t) then LaterShrinks(remap, k, t); End(remap, t)
      else Some(t)
  }

  ghost predicate Ascending(keys: seq<string>) {
    forall i, j | 0 <= i < j < |keys| :: Less(keys[i], keys[j])
  }

  lemma NotAgain(keys: seq<string>, k: string)
    requires Ascending(keys) && keys != [] && (k == keys[0] || Less(k, keys[0]))
    ensures k !in keys[1..]
  {
    if k in keys[1..] {
      var i :| 0 <= i < |keys[1..]| && keys[1..][i] == k;
      assert Less(keys[0], keys[i + 1]);
      LessAsymmetric(keys[0], k);
    }
  }

  lemma {:induction false} PassedStays(keys: seq<string>, remap: map<string, string>, k: string)
    requires (forall l <- keys :: l in remap) && k !in keys
    ensures EndAfter(keys, remap, k) == Some(k)
    decreases keys
  {
    if keys != [] { PassedStays(keys[1..], remap, k); }
  }

  /** While its turn is still to come, an entry ends where its chain does. */
  lemma {:induction false} EndIsChain(keys: seq<string>, remap: map<string, string>, k: string)
    requires (forall l <- keys :: l in remap) && Ascending(keys)
    requires forall l | l in remap && (l == k || Less(k, l)) :: l in keys
    ensures EndAfter(keys, remap, k) == End(remap, k)
    decreases keys
  {
    if k !in remap {
      PassedStays(keys, remap, k);
    } else if keys[0] != k {
      forall l | l in remap && (l == k || Less(k, l)) ensures l in keys[1..] {
        if l == keys[0] {
          var i :| 0 <= i < |keys| && keys[i] == k;
          assert Less(keys[0], keys[i]);
          LessAsymmetric(k, l);
        }
      }
      EndIsChain(keys[1..], remap, k);
    } else {
      OwnTurn(keys, remap);
    }
  }

  lemma {:induction false} OwnTurn(keys: seq<string>, remap: map<string, string>)
    requires (forall l <- keys :: l in remap) && Ascending(keys) && keys != []
    requires forall l | l in remap && (l == keys[0] || Less(keys[0], l)) :: l in keys
    ensures EndAfter(keys, remap, keys[0]) == End(remap, keys[0])
    decreases keys, 0
  {
    var k := keys[0];
    var t := remap[k];
    if t != k {
      LessTotal(k, t);
      if Less(k, t) {
        forall l | l in remap && (l == t || Less(t, l)) ensures l in keys[1..] {
          if l != t { LessTransitive(k, t, l); }
          LessAsymmetric(k, l);
        }
        EndIsChain(keys[1..], remap, t);
      } else {
        LessAsymmetric(t, k);
        NotAgain(keys, t);
        PassedStays(keys[1..], remap, t);
      }
    }
  }

  lemma EndAfterAll(remap: map<string, string>, k: string)
    ensures EndAfter(SortedKeys(remap.Keys), remap, k) == End(remap, k)
  {
    SortedKeysAscend(remap.Keys);
    EndIsChain(SortedKeys(remap.Keys), remap, k);
  }

  /** No entry is mapped to itself on its way, and no two entries come together. */
  ghost predicate EndsApart<V>(res: map<string, V>, remap: map<string, string>) {
    && (forall k {:trigger res[k]} | k in res :: End(remap, k).Some?)
    && forall k, l {:trigger res[k], res[l]} | k in res && l in res && k != l :: End(remap, k) != End(remap, l)
  }

  /** The renaming loop of the code, for any renaming: no entry is lost if and only if the chains of the
      present names end apart; then the entry of each name stands at the end of its chain. */
  lemma RenameLosesNothingIff<V>(res: map<string, V>, remap: map<string, string>)
    ensures |Rename(res, remap)| == |res| <==> EndsApart(res, remap)
    ensures EndsApart(res, remap) ==> forall k {:trigger res[k]} | k in res ::
              End(remap, k).Some? && End(remap, k).value in Rename(res, remap) &&
                Rename(res, remap)[End(remap, k).value] == res[k]
  {
    hide End, EndAfter, RenameFrom, SortedKeys;
    var keys := SortedKeys(remap.Keys);
    forall k ensures EndAfter(keys, remap, k) == End(remap, k) { EndAfterAll(remap, k); }
    LosslessIff(res, keys, remap);
    assert EndsApart(res, remap) <==> Survives(res, keys, remap);
    if EndsApart(res, remap) {
      forall k | k in res
        ensures End(remap, k).Some? && End(remap, k).value in Rename(res, remap) &&
                Rename(res, remap)[End(remap, k).value] == res[k]
      {
        var _ := res[k];
      }
    }
  }

  /** New names of different entries differ. */
  ghost predicate NewNamesApart<V>(res: map<string, V>, remap: map<string, string>) {
    forall k, l {:trigger res[k], res[l]} | k in res && l in res && k != l :: MapKey(remap, k) != MapKey(remap, l)
  }

  /** Some present entry with the value of k ends at the new name of k. */
  ghost predicate Delivered<V>(res: map<string, V>, remap: map<string, string>, k: string)
    requires k in res
  {
    exists l {:trigger res[l]} :: l in res && End(remap, l) == Some(MapKey(remap, k)) && res[l] == res[k]
  }

  lemma KeptIsEnd<V>(res: map<string, V>, remap: map<string, string>, n: string) returns (k: string)
    requires n in Rename(res, remap)
    ensures k in res && End(remap, k) == Some(n)
  {
    k := OnlyEnds(res, SortedKeys(remap.Keys), remap, n);
    EndAfterAll(remap, k);
  }

  /** When nothing is lost, the new name of k holds its value exactly when some entry brings it there. */
  lemma DeliveredIffThere<V>(res: map<string, V>, remap: map<string, string>, k: string)
    requires k in res && EndsApart(res, remap)
    ensures MapKey(remap, k) in Rename(res, remap) && Rename(res, remap)[MapKey(remap, k)] == res[k] <==>
            Delivered(res, remap, k)
  {
    hide End, Rename, EndsApart;
    RenameLosesNothingIff(res, remap);
    if MapKey(remap, k) in Rename(res, remap) {
      var l := KeptIsEnd(res, remap, MapKey(remap, k));
      var _ := res[l];
    }
  }

  /** Exactly when the loop is the simultaneous renaming, for any renaming and any result. */
  lemma RenameIsSimultaneousIff<V>(res: map<string, V>, remap: map<string, string>)
    ensures RenamedAtOnce(res, remap, Rename(res, remap)) <==>
            NewNamesApart(res, remap) && EndsApart(res, remap) && forall k {:trigger res[k]} | k in res ::
              Delivered(res, remap, k)
  {
    hide End, Rename, Delivered, EndsApart, MapKey;
    RenameLosesNothingIff(res, remap);
    if EndsApart(res, remap) {
      forall k | k in res
        ensures (MapKey(remap, k) in Rename(res, remap) && Rename(res, remap)[MapKey(remap, k)] == res[k]) <==>
                Delivered(res, remap, k)
      {
        DeliveredIffThere(res, remap, k);
      }
      assert (forall k {:trigger res[k]} | k in res :: Delivered(res, remap, k)) <==>
             forall k {:trigger res[k]} | k in res :: MapKey(remap, k) in Rename(res, remap) &&
               Rename(res, remap)[MapKey(remap, k)] == res[k];
    }
  }

  /** Every one of the names ends at its own new name, and the new names differ. */
  predicate NamesMove(names: set<string>, remap: map<string, string>) {
    && (forall k <- names :: End(remap, k) == Some(MapKey(remap, k)))
    && forall k <- names, l <- names :: k != l ==> MapKey(remap, k) != MapKey(remap, l)
  }

  lemma NamesMoveSuffices<V>(res: map<string, V>, remap: map<string, string>)
    requires NamesMove(res.Keys, remap)
    ensures RenamedAtOnce(res, remap, Rename(res, remap))
  {
    hide End, Rename, MapKey, RenamedAtOnce, Delivered;
    forall k | k in res ensures End(remap, k).Some? && Delivered(res, remap, k) { OwnDelivery(res, remap, k); }
    RenameIsSimultaneousIff(res, remap);
  }

  lemma OwnDelivery<V>(res: map<string, V>, remap: map<string, string>, k: string)
    requires k in res && End(remap, k) == Some(MapKey(remap, k))
    ensures Delivered(res, remap, k)
  {
    var _ := res[k];
  }

  /** A value that only the entry of k has. */
  lemma MarkedNameMoves<V>(names: set<string>, remap: map<string, string>, k: string, x: V, y: V)
    requires k in names && x != y
    requires var res := map n | n in names :: if n == k then x else y; RenamedAtOnce(res, remap, Rename(res, remap))
    ensures End(remap, k) == Some(MapKey(remap, k))
    ensures forall l <- names :: k != l ==> MapKey(remap, k) != MapKey(remap, l)
  {
    hide End, Rename, MapKey, RenamedAtOnce;
    var res := map n | n in names :: if n == k then x else y;
    RenameIsSimultaneousIff(res, remap);
    var _ := res[k];
    assert Delivered(res, remap, k);
    forall l | l in names && k != l ensures MapKey(remap, k) != MapKey(remap, l) { var _ := res[l]; }
  }

  /** Exactly when the loop is the simultaneous renaming of these names whatever their values are, once
      there are two different ones. */
  lemma RenameMovesNamesIff<V>(names: set<string>, remap: map<string, string>, x: V, y: V)
    requires x != y
    ensures (forall res: map<string, V> {:trigger Rename(res, remap)} | res.Keys == names ::
               RenamedAtOnce(res, remap, Rename(res, remap))) <==> NamesMove(names, remap)
  {
    hide End, Rename, MapKey, RenamedAtOnce;
    if NamesMove(names, remap) {
      forall res: map<string, V> | res.Keys == names ensures RenamedAtOnce(res, remap, Rename(res, remap)) {
        NamesMoveSuffices(res, remap);
      }
    }
    if forall res: map<string, V> {:trigger Rename(res, remap)} | res.Keys == names ::
         RenamedAtOnce(res, remap, Rename(res, remap))
    {
      forall k | k in names
        ensures End(remap, k) == Some(MapKey(remap, k)) &&
                forall l <- names :: k != l ==> MapKey(remap, k) != MapKey(remap, l)
      {
        var res := map n | n in names :: if n == k then x else y;
        assert res.Keys == names && RenamedAtOnce(res, remap, Rename(res, remap));
        MarkedNameMoves(names, remap, k, x, y);
      }
    }
  }

  // ----- renamings whose targets are no later sources -----

  /** A target that is itself a source has had its turn. */
  ghost predicate NoForwardTargets(remap: map<string, string>) {
    forall k {:trigger remap[k]} | k in remap :: remap[k] in remap ==> Less(remap[k], k)
  }

  /** Present sources have different targets, and a present target makes way by being a source. */
  predicate TargetsFree<V>(res: map<string, V>, remap: map<string, string>) {
    && (forall k {:trigger remap[k]} | k in remap && k in res :: remap[k] in res ==> remap[k] in remap)
    && forall k, l {:trigger remap[k], remap[l]} | k in remap && l in remap && k in res && l in res && k != l ::
         remap[k] != remap[l]
  }

  lemma BackwardEnd(remap: map<string, string>, k: string)
    requires NoForwardTargets(remap)
    ensures End(remap, k) == Some(MapKey(remap, k))
  {
    if k in remap && remap[k] in remap { LessAsymmetric(remap[k], k); }
  }

  lemma FreeIsApart<V>(res: map<string, V>, remap: map<string, string>)
    requires TargetsFree(res, remap)
    ensures NoForwardTargets(remap) ==> NewNamesApart(res, remap)
  {
    if NoForwardTargets(remap) {
      forall k, l | k in res && l in res && k != l ensures MapKey(remap, k) != MapKey(remap, l) {
        assert k in remap ==> MapKey(remap, k) == remap[k];
        assert l in remap ==> MapKey(remap, l) == remap[l];
      }
    }
  }

  lemma ApartIsFree<V>(res: map<string, V>, remap: map<string, string>)
    requires NewNamesApart(res, remap)
    ensures NoForwardTargets(remap) ==> TargetsFree(res, remap)
  {
    forall k | k in remap && k in res && remap[k] in res && remap[k] != k ensures remap[k] in remap {
      var _, _ := res[k], res[remap[k]];
    }
    forall k, l | k in remap && l in remap && k in res && l in res && k != l ensures remap[k] != remap[l] {
      var _, _ := res[k], res[l];
    }
  }

  lemma BackwardEndsApart<V>(res: map<string, V>, remap: map<string, string>)
    requires NoForwardTargets(remap) && NewNamesApart(res, remap)
    ensures EndsApart(res, remap) && forall k {:trigger res[k]} | k in res :: Delivered(res, remap, k)
  {
    hide End, MapKey;
    forall k ensures End(remap, k) == Some(MapKey(remap, k)) { BackwardEnd(remap, k); }
    forall k | k in res ensures Delivered(res, remap, k) { var _ := res[k]; }
  }

  /** For such a renaming the loop is the simultaneous renaming exactly when the targets are free. */
  lemma BackwardRenameIff<V>(res: map<string, V>, remap: map<string, string>)
    requires NoForwardTargets(remap)
    ensures RenamedAtOnce(res, remap, Rename(res, remap)) <==> TargetsFree(res, remap)
  {
    hide EndsApart, Delivered, RenamedAtOnce, TargetsFree, NewNamesApart, Rename, NoForwardTargets;
    RenameIsSimultaneousIff(res, remap);
    if TargetsFree(res, remap) { FreeIsApart(res, remap); }
    if NewNamesApart(res, remap) { ApartIsFree(res, remap); }
    if NewNamesApart(res, remap) { BackwardEndsApart(res, remap); }
  }

  // ----- what a forward target does -----

  /** Where a chain ends there was a renaming to it, from the first name of the chain or a later one. */
  lemma {:induction false} EndIsTarget(remap: map<string, string>, k: string) returns (l: string)
    requires k in remap && End(remap, k).Some?
    ensures l in remap && (l == k || Less(k, l)) && End(remap, k) == Some(remap[l])
    decreases Later(remap, k)
  {
    l := k;
    var t := remap[k];
    if t in remap && Less(k, t) {
      LaterShrinks(remap, k, t);
      l := EndIsTarget(remap, t);
      if l != t { LessTransitive(k, t, l); }
    }
  }

  /** An entry whose target is a later source moves on: it ends where that source ends.  That is the target
      again only on a cycle, when a source later still is renamed to it.  If the target was present an
      entry is lost. */
  lemma ForwardTargetMovesOn<V>(res: map<string, V>, remap: map<string, string>, k: string)
    requires k in res && k in remap && remap[k] in remap && Less(k, remap[k])
    ensures End(remap, k) == End(remap, remap[k])
    ensures End(remap, k) == Some(remap[k]) ==> exists l <- remap :: Less(remap[k], l) && remap[l] == remap[k]
    ensures remap[k] in Rename(res, remap) ==> exists l {:trigger res[l]} :: l in res && End(remap, l) == Some(remap[k])
    ensures remap[k] in res ==> |Rename(res, remap)| < |res|
  {
    LessAsymmetric(k, remap[k]);
    if End(remap, k) == Some(remap[k]) {
      var l := EndIsTarget(remap, remap[k]);
    }
    if remap[k] in Rename(res, remap) {
      var l := KeptIsEnd(res, remap, remap[k]);
      var _ := res[l];
    }
    if remap[k] in res {
      var _, _ := res[k], res[remap[k]];
      RenameLosesNothingIff(res, remap);
      RenameNeverGrows(res, SortedKeys(remap.Keys), remap);
    }
  }

  /** On a cycle the entry does come back, and the loop is the simultaneous renaming all the same. */
  lemma CycleComesBack<V>(a: string, b: string, c: string, x: V)
    requires Less(a, b) && Less(b, c)
    ensures var remap := map[a := b, b := c, c := b];
            && Rename(map[a := x], remap) == map[b := x]
            && RenamedAtOnce(map[a := x], remap, Rename(map[a := x], remap))
  {
    LessTransitive(a, b, c);
    LessAsymmetric(a, b);
    LessAsymmetric(b, c);
    LessAsymmetric(a, c);
    var remap := map[a := b, b := c, c := b];
    var res := map[a := x];
    assert End(remap, c) == Some(b) && End(remap, b) == Some(b) && End(remap, a) == Some(b);
    RenameLosesNothingIff(res, remap);
    var _ := res[a];
    assert |res| == 1;
    OnlyOneEntry(Rename(res, remap), b, x);
  }

  lemma OnlyOneEntry<V>(m: map<string, V>, k: string, x: V)
    requires |m| == 1 && k in m && m[k] == x
    ensures m == map[k := x]
  {
    assert m.Keys == {k} + (m.Keys - {k}) && |m.Keys - {k}| == 0;
  }

  lemma SortedPair(a: string, b: string)
    requires Less(a, b)
    ensures SortedKeys({a, b}) == [a, b]
  {
    LessAsymmetric(a, b);
    SortedKeysAscend({a, b});
    var ks := SortedKeys({a, b});
    assert ks[0] in {a, b} && ks[1] in {a, b} && Less(ks[0], ks[1]);
  }

  /** A name mapped to itself is lost: emplace finds its own key present, erase removes it. */
  lemma SelfMapLosesEntry<V>(res: map<string, V>, x: string)
    requires x in res
    ensures Rename(res, map[x := x]) == res - {x}
  {
    var self := map[x := x];
    var keys := SortedKeys(self.Keys);
    SortedKeysAscend(self.Keys);
    assert self.Keys == {x} && keys[0] in self.Keys && keys == [x];
    assert RenameFrom(res, [x], self) == RenameFrom(RenameKey(res, x, x), [], self);
  }

  /** In any renaming with a present name mapped to itself an entry is lost. */
  lemma SelfMapAlwaysLoses<V>(res: map<string, V>, remap: map<string, string>, x: string)
    requires x in res && x in remap && remap[x] == x
    ensures |Rename(res, remap)| < |res|
  {
    var _ := res[x];
    RenameLosesNothingIff(res, remap);
    RenameNeverGrows(res, SortedKeys(remap.Keys), remap);
  }

  /** In a chain of two present sources whose first comes first in key order, the first entry is lost;
      in the opposite order nothing is (BackwardRenameIff). */
  lemma ChainLosesEntry<V>(a: string, b: string, c: string, x: V, y: V)
    requires Less(a, b) && c != a && c != b
    ensures Rename(map[a := x, b := y], map[a := b, b := c]) == map[c := y]
  {
    LessAsymmetric(a, b);
    var chain := map[a := b, b := c];
    assert chain.Keys == {a, b};
    SortedPair(a, b);
    var s0 := map[a := x, b := y];
    var s1 := RenameKey(s0, a, b);
    assert s1 == map[b := y];
    assert RenameKey(s1, b, c) == map[c := y];
    assert RenameFrom(s0, [a, b], chain) == RenameFrom(s1, [b], chain) == RenameFrom(RenameKey(s1, b, c), [], chain);
  }

  // ----- the container -----

  /** The std::map behind the shared pointer. */
  class MapCell<V> {
    var entries: map<string, V>

    constructor (entries: map<string, V>)
      ensures this.entries == entries
    {
      this.entries := entries;
    }
  }

  class RemappableMap<V> {
    var data: MapCell<V>
    var hasRemap: bool
    var remap: map<string, string>

    ghost predicate Valid()
      reads this
    {
      !hasRemap ==> remap == map[]
    }

    ghost function Visible(): map<string, V>
      reads this, data
    {
      View(data.entries, remap)
    }

    constructor ()
      ensures Valid() && fresh(data) && data.entries == map[] && remap == map[]
    {
      data := new MapCell(map[]);
      hasRemap, remap := false, map[];
    }

    /** The copy constructor duplicates the entries. */
    constructor Copy(other: RemappableMap<V>)
      requires other.Valid()
      ensures Valid() && fresh(data) && data.entries == other.data.entries && remap == other.remap
    {
      data := new MapCell(other.data.entries);
      hasRemap, remap := other.hasRemap, other.remap;
    }

    /** operator= duplicates the entries, except onto itself. */
    method Assign(other: RemappableMap<V>)
      requires Valid() && other.Valid()
      modifies this
      ensures Valid() && data.entries == old(other.data.entries) && remap == old(other.remap)
      ensures this == other ==> data == old(data)
      ensures this != other ==> fresh(data)
    {
      if this != other {
        data := new MapCell(other.data.entries);
        remap, hasRemap := other.remap, other.hasRemap;
      }
    }

    /** use_data shares the entries and keeps the own renaming. */
    method UseData(other: RemappableMap<V>)
      requires Valid()
      modifies this`data
      ensures Valid() && data == old(other.data)
    {
      data := other.data;
    }

    function GetMapKey(k: string): (r: string)
      requires Valid()
      reads this
      ensures r == MapKey(remap, k)
    {
      if !hasRemap then k else if k in remap then remap[k] else k
    }

    /** find, then at or the dereference: what a user of the container sees. */
    method Find(k: string) returns (found: bool, key: string)
      requires Valid()
      ensures key == MapKey(remap, k)
      ensures found <==> k in Visible()
      ensures found ==> key in data.entries && Visible()[k] == data.entries[key]
    {
      key := GetMapKey(k);
      found := key in data.entries;
    }

    method Emplace(k: string, v: V) returns (inserted: bool)
      requires Valid()
      modifies data
      ensures inserted == (k !in old(Visible()))
      ensures data.entries == if inserted then old(data.entries)[MapKey(remap, k) := v] else old(data.entries)
      ensures k in Visible() && (inserted ==> Visible()[k] == v)
    {
      var key := GetMapKey(k);
      inserted := key !in data.entries;
      if inserted { data.entries := data.entries[key := v]; }
    }

    /** erase takes the position find returned, so it removes the underlying entry. */
    method EraseFound(k: string)
      requires Valid() && k in Visible()
      modifies data
      ensures data.entries == old(data.entries) - {MapKey(remap, k)}
      ensures k !in Visible()
    {
      data.entries := data.entries - {GetMapKey(k)};
    }

    method SetKeyRemap(existed: string, remapped: string) returns (ok: bool)
      requires Valid()
      modifies this`remap, this`hasRemap
      ensures Valid() && ok == (remapped !in old(remap))
      ensures remap == if ok then old(remap)[remapped := existed] else old(remap)
      ensures ok && existed in data.entries ==> remapped in Visible() && Visible()[remapped] == data.entries[existed]
    {
      if remapped in remap { return false; }
      remap := remap[remapped := existed];
      hasRemap := true;
      return true;
    }
  }
}
