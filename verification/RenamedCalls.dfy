/** Subprogram::call under a renaming: the plain function, run in the namespace it was written for. */
module RenamedCalls {
  import opened Common
  import opened StringOrder
  import opened Values
  import opened Engine
  import Remap

  /** Reading a result that was renamed at once through the same renaming gives the result back. */
  lemma ViewUndoesRenaming(res: Params, remap: map<string, string>, out: Params)
    requires Remap.RenamedAtOnce(res, remap, out)
    ensures forall n {:trigger res[n]} | n in res :: n in Remap.View(out, remap) && Remap.View(out, remap)[n] == res[n]
  {
    forall n | n in res ensures n in Remap.View(out, remap) && Remap.View(out, remap)[n] == res[n] {
      var _ := res[n];
      assert Remap.MapKey(remap, n) in out && n in out.Keys + remap.Keys;
    }
  }

  /** A result map read through the renaming is res, entry for entry and nothing else. */
  ghost predicate SeenAs(out: Params, remap: map<string, string>, res: Params) {
    && |out| == |res| && Remap.NewNamesApart(res, remap)
    && forall n {:trigger res[n]} | n in res :: n in Remap.View(out, remap) && Remap.View(out, remap)[n] == res[n]
  }

  lemma SeenIsRenamedAtOnce(res: Params, remap: map<string, string>, out: Params)
    requires SeenAs(out, remap, res)
    ensures Remap.RenamedAtOnce(res, remap, out)
  {
    forall n | n in res ensures Remap.MapKey(remap, n) in out &&
      out[Remap.MapKey(remap, n)] == res[n] { var _ := res[n]; }
    forall k, l | k in res && l in res && k != l ensures Remap.MapKey(remap, k) != Remap.MapKey(remap, l) {
      var _, _ := res[k], res[l];
    }
  }

  lemma SeenIffRenamedAtOnce(res: Params, remap: map<string, string>, out: Params)
    ensures SeenAs(out, remap, res) <==> Remap.RenamedAtOnce(res, remap, out)
  {
    if SeenAs(out, remap, res) { SeenIsRenamedAtOnce(res, remap, out); }
    if Remap.RenamedAtOnce(res, remap, out) { ViewUndoesRenaming(res, remap, out); }
  }

  /** The call is the plain function in the renamed namespace, whatever the renaming, if and only if the
      names of the result are apart under it, end apart, and are delivered to their new names. */
  lemma CallIsFunctionRenamedIff(env: Env, sc: SubCfg, time: real, delta: real, v: Params, up: Params, res: Params)
    requires sc.func in env && env[sc.func](time, delta, Remap.View(v, sc.remap), up) == Ok(res)
    ensures CallFn(env, sc, time, delta, v, up).Ok?
    ensures SeenAs(CallFn(env, sc, time, delta, v, up).value, sc.remap, res) <==>
            && Remap.NewNamesApart(res, sc.remap) && Remap.EndsApart(res, sc.remap)
            && forall k {:trigger res[k]} | k in res :: Remap.Delivered(res, sc.remap, k)
  {
    hide Remap.Rename, Remap.End, Remap.EndsApart, Remap.NewNamesApart, Remap.Delivered, SeenAs, Remap.RenamedAtOnce;
    Remap.RenameIsSimultaneousIff(res, sc.remap);
    SeenIffRenamedAtOnce(res, sc.remap, Remap.Rename(res, sc.remap));
  }

  /** When no target is a later source: if and only if the targets are free. */
  lemma CallIsFunctionRenamed(env: Env, sc: SubCfg, time: real, delta: real, v: Params, up: Params, res: Params)
    requires sc.func in env && env[sc.func](time, delta, Remap.View(v, sc.remap), up) == Ok(res)
    requires Remap.NoForwardTargets(sc.remap)
    ensures CallFn(env, sc, time, delta, v, up).Ok?
    ensures SeenAs(CallFn(env, sc, time, delta, v, up).value, sc.remap, res) <==> Remap.TargetsFree(res, sc.remap)
  {
    hide Remap.Rename, Remap.TargetsFree, Remap.NoForwardTargets, SeenAs, Remap.RenamedAtOnce;
    Remap.BackwardRenameIff(res, sc.remap);
    SeenIffRenamedAtOnce(res, sc.remap, Remap.Rename(res, sc.remap));
  }

  /** Without any condition the call never returns more entries than the function did. */
  lemma CallNeverGrows(env: Env, sc: SubCfg, time: real, delta: real, v: Params, up: Params, res: Params)
    requires sc.func in env && env[sc.func](time, delta, Remap.View(v, sc.remap), up) == Ok(res)
    ensures CallFn(env, sc, time, delta, v, up).Ok? && |CallFn(env, sc, time, delta, v, up).value| <= |res|
  {
    Remap.RenameNeverGrows(res, SortedKeys(sc.remap.Keys), sc.remap);
  }
}
