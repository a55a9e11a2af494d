/** What get_nextcall_objs promises: ascending priority, ties in name order with child blocks
    before subprograms, every due object once. */
module Scheduling {
  import opened StringOrder
  import opened Engine

  /** Child blocks come before subprograms, each kind in name order. */
  predicate Before(a: Ref, b: Ref) {
    match (a, b)
    case (Child(i), Child(k)) => i < k
    case (Child(_), Sub(_)) => true
    case (Sub(_), Child(_)) => false
    case (Sub(j), Sub(k)) => j < k
  }

  predicate Precedes(a: Cand, b: Cand) {
    a.priority < b.priority || (a.priority == b.priority && Before(a.ref, b.ref))
  }

  ghost predicate Ordered(s: seq<Cand>) {
    forall a, b | 0 <= a < b < |s| :: Precedes(s[a], s[b])
  }

  ghost predicate InNameOrder(s: seq<Cand>) {
    forall a, b | 0 <= a < b < |s| :: Before(s[a].ref, s[b].ref)
  }

  lemma {:induction false} InsertKeepsOrder(s: seq<Cand>, c: Cand)
    requires Ordered(s) && forall x <- s :: Before(x.ref, c.ref)
    ensures Ordered(Insert(s, c))
    ensures forall x :: x in Insert(s, c) <==> x in s || x == c
    decreases |s|
  {
    if s != [] {
      var init, last := s[..|s| - 1], s[|s| - 1];
      assert s == init + [last];
      if last.priority > c.priority {
        InsertKeepsOrder(init, c);
        var r := Insert(init, c);
        forall a | 0 <= a < |r| ensures Precedes(r[a], last) {
          if r[a] in init {
            var k :| 0 <= k < |init| && init[k] == r[a];
            assert Precedes(s[k], s[|s| - 1]);
          } else {
            assert r[a] == c;
          }
        }
      } else {
        forall a | 0 <= a < |s| ensures Precedes(s[a], c) {
          assert a < |s| - 1 ==> Precedes(s[a], last);
        }
      }
    }
  }

  lemma {:induction false} InsertAllSorts(cs: seq<Cand>)
    requires InNameOrder(cs)
    ensures Ordered(InsertAll([], cs))
    ensures forall x :: x in InsertAll([], cs) <==> x in cs
    decreases |cs|
  {
    if cs != [] {
      var init, last := cs[..|cs| - 1], cs[|cs| - 1];
      assert cs == init + [last];
      InsertAllSorts(init);
      InsertKeepsOrder(InsertAll([], init), last);
    }
  }

  lemma {:induction false} ChildCandsInOrder(cfg: Cfg, st: St, time: real, n: nat)
    requires Shape(cfg, st) && n <= |cfg.children|
    ensures InNameOrder(ChildCands(cfg, st, time, n))
    ensures forall c :: c in ChildCands(cfg, st, time, n) <==>
                        c.ref.Child? && c.ref.i < n && Due(st.children[c.ref.i], time) &&
                          c.priority == cfg.children[c.ref.i].priority
  {
    if n > 0 { ChildCandsInOrder(cfg, st, time, n - 1); }
  }

  lemma {:induction false} SubCandsInOrder(cfg: Cfg, st: St, n: nat)
    requires Shape(cfg, st) && n <= |cfg.subs|
    ensures InNameOrder(SubCands(cfg, st, n))
    ensures forall c :: c in SubCands(cfg, st, n) <==>
                        c.ref.Sub? && c.ref.j < n && !st.subs[c.ref.j].blocked &&
                          c.priority == cfg.subs[c.ref.j].priority
  {
    if n > 0 { SubCandsInOrder(cfg, st, n - 1); }
  }

  /** Not blocked and, for a child block, past its planned time.  Neither the periodical flag nor
      the blocked-in-stop flag is asked. */
  predicate Eligible(cfg: Cfg, st: St, time: real, r: Ref)
    requires Shape(cfg, st)
  {
    match r
    case Child(i) => i < |cfg.children| && !st.children[i].blocked && time > st.children[i].plan
    case Sub(j) => j < |cfg.subs| && !st.subs[j].blocked
  }

  function Priority(cfg: Cfg, r: Ref): real
    requires ValidRef(cfg, r)
  {
    match r case Child(i) => cfg.children[i].priority case Sub(j) => cfg.subs[j].priority
  }

  ghost predicate InCallOrder(cfg: Cfg, s: seq<Ref>)
    requires forall r <- s :: ValidRef(cfg, r)
  {
    forall a, b | 0 <= a < b < |s| ::
      Priority(cfg, s[a]) < Priority(cfg, s[b]) || (Priority(cfg, s[a]) == Priority(cfg, s[b]) && Before(s[a], s[b]))
  }

  /** The candidates are the eligible objects with their priorities, in name order. */
  lemma CandidatesAre(cfg: Cfg, st: St, time: real)
    requires Shape(cfg, st)
    ensures var cs := Candidates(cfg, st, time);
            && InNameOrder(cs)
            && (forall c <- cs ::
                  Eligible(cfg, st, time, c.ref) && ValidRef(cfg, c.ref) && c.priority == Priority(cfg, c.ref))
            && forall r | Eligible(cfg, st, time, r) :: Cand(Priority(cfg, r), r) in cs
  {
    var kids, subs := ChildCands(cfg, st, time, |cfg.children|), SubCands(cfg, st, |cfg.subs|);
    var cs := kids + subs;
    ChildCandsInOrder(cfg, st, time, |cfg.children|);
    SubCandsInOrder(cfg, st, |cfg.subs|);
    forall a, b | 0 <= a < b < |cs| ensures Before(cs[a].ref, cs[b].ref) {
      assert a < |kids| ==> cs[a] in kids;
      assert b >= |kids| ==> cs[b] in subs;
    }
    forall r | Eligible(cfg, st, time, r) ensures Cand(Priority(cfg, r), r) in cs {
      assert Cand(Priority(cfg, r), r) in if r.Child? then kids else subs;
    }
  }

  /** The schedule holds exactly the eligible objects, by ascending priority, ties in name order. */
  lemma ScheduleIsStableSort(cfg: Cfg, st: St, time: real)
    requires Shape(cfg, st)
    ensures var s := Schedule(cfg, st, time);
            && (forall r :: r in s <==> Eligible(cfg, st, time, r))
            && InCallOrder(cfg, s)
            && NoDuplicates(s)
  {
    hide Candidates, InsertAll, Eligible, Priority;
    var cs := Candidates(cfg, st, time);
    CandidatesAre(cfg, st, time);
    InsertAllSorts(cs);
    var sorted := InsertAll([], cs);
    var s := Schedule(cfg, st, time);
    forall i | 0 <= i < |sorted|
      ensures s[i] == sorted[i].ref && Eligible(cfg, st, time, s[i]) && ValidRef(cfg, s[i])
      ensures Priority(cfg, s[i]) == sorted[i].priority
    {
      assert sorted[i] in cs;
    }
    forall r | Eligible(cfg, st, time, r) ensures r in s {
      assert Cand(Priority(cfg, r), r) in sorted;
      var i :| 0 <= i < |sorted| && sorted[i] == Cand(Priority(cfg, r), r);
      assert s[i] == r;
    }
    forall a, b | 0 <= a < b < |s|
      ensures Priority(cfg, s[a]) < Priority(cfg, s[b]) ||
              (Priority(cfg, s[a]) == Priority(cfg, s[b]) && Before(s[a], s[b]))
      ensures s[a] != s[b]
    {
      assert Precedes(sorted[a], sorted[b]);
      BeforeIsStrict(s[a]);
    }
  }

  lemma BeforeIsStrict(r: Ref)
    ensures !Before(r, r)
  {
  }

  /** Contents and order leave no choice: any list with both is the schedule. */
  lemma ScheduleUnique(cfg: Cfg, st: St, time: real, other: seq<Ref>)
    requires Shape(cfg, st)
    requires forall r :: r in other <==> Eligible(cfg, st, time, r)
    requires (forall r <- other :: ValidRef(cfg, r)) && InCallOrder(cfg, other)
    ensures other == Schedule(cfg, st, time)
  {
    ScheduleIsStableSort(cfg, st, time);
    SameMembersSameOrder(cfg, other, Schedule(cfg, st, time));
  }

  lemma HeadIsFirst(cfg: Cfg, s: seq<Ref>)
    requires (forall r <- s :: ValidRef(cfg, r)) && InCallOrder(cfg, s) && s != []
    ensures s[0] !in s[1..] && InCallOrder(cfg, s[1..])
    ensures forall r :: r in s <==> r == s[0] || r in s[1..]
    ensures forall r | r in s[1..] ::
              Priority(cfg, s[0]) < Priority(cfg, r) || (Priority(cfg, s[0]) == Priority(cfg, r) && Before(s[0], r))
  {
    assert s == [s[0]] + s[1..];
    forall r | r in s[1..]
      ensures Priority(cfg, s[0]) < Priority(cfg, r) || (Priority(cfg, s[0]) == Priority(cfg, r) && Before(s[0], r))
    {
      var k :| 0 <= k < |s[1..]| && s[1..][k] == r;
      assert s[k + 1] == r;
    }
  }

  lemma {:induction false} SameMembersSameOrder(cfg: Cfg, s: seq<Ref>, t: seq<Ref>)
    requires (forall r <- s :: ValidRef(cfg, r)) && (forall r <- t :: ValidRef(cfg, r))
    requires InCallOrder(cfg, s) && InCallOrder(cfg, t)
    requires forall r :: r in s <==> r in t
    ensures s == t
    decreases |s|
  {
    assert t != [] ==> t[0] in s;
    assert s != [] ==> s[0] in t;
    if s != [] {
      HeadIsFirst(cfg, s);
      HeadIsFirst(cfg, t);
      assert s[0] == t[0];
      SameMembersSameOrder(cfg, s[1..], t[1..]);
      assert s == [s[0]] + s[1..] && t == [t[0]] + t[1..];
    }
  }
}
