/**
 * The registration of ECDSA signature curves: curves with equal hash sets share one object.
 * What the grouping in src/amvp_build_register.c emits, and what the emitted objects mean.
 */
module EcdsaSpec {
  /** AMVP_HASH_ALG_MAX and AMVP_EC_CURVE_END */
  const HASH_ALG_MAX := 2048
  const EC_CURVE_END := 16

  /** Flags indexed by hash algorithm. */
  type Flags = seq<bool>

  /** One node of the list of enabled curves. */
  datatype Curve = Curve(id: nat, algs: Flags)

  /** One object of the `capabilities` array. */
  datatype Group = Group(ids: seq<nat>, algs: Flags)

  predicate ValidCurve(c: Curve) {
    0 < c.id < EC_CURVE_END && |c.algs| == HASH_ALG_MAX
  }

  predicate ValidCurves(curves: seq<Curve>) {
    forall k :: 0 <= k < |curves| ==> ValidCurve(curves[k])
  }

  // ---- universal hash algorithms -------------------------------------------

  function Or(a: Flags, b: Flags): (r: Flags)
    requires |a| <= |b|
    ensures |r| == |a|
  {
    seq(|a|, i requires 0 <= i < |a| => a[i] || b[i])
  }

  /** Every curve with the universally set hash algorithms added. */
  function Merge(curves: seq<Curve>, universal: Flags): (r: seq<Curve>)
    requires ValidCurves(curves) && |universal| >= HASH_ALG_MAX
    ensures |r| == |curves| && ValidCurves(r)
    ensures forall k :: 0 <= k < |r| ==> r[k] == Curve(curves[k].id, Or(curves[k].algs, universal))
  {
    seq(|curves|, k requires 0 <= k < |curves| => Curve(curves[k].id, Or(curves[k].algs, universal)))
  }

  /** Registering twice adds nothing the second time. */
  lemma MergeIdempotent(curves: seq<Curve>, universal: Flags)
    requires ValidCurves(curves) && |universal| >= HASH_ALG_MAX
    ensures Merge(Merge(curves, universal), universal) == Merge(curves, universal)
  {
    forall k | 0 <= k < |curves|
      ensures Or(Or(curves[k].algs, universal), universal) == Or(curves[k].algs, universal)
    {
    }
  }

  // ---- grouping ------------------------------------------------------------

  /** The untracked curves of `list` whose flags equal `algs`, in order. */
  function Members(list: seq<Curve>, algs: Flags, tracked: set<nat>): seq<nat> {
    if list == [] then []
    else if list[0].id in tracked || list[0].algs != algs then Members(list[1..], algs, tracked)
    else [list[0].id] + Members(list[1..], algs, tracked + {list[0].id})
  }

  function Ids(s: seq<nat>): set<nat> {
    set k | 0 <= k < |s| :: s[k]
  }

  /** The objects emitted for `list` when the curves in `tracked` are already accounted for. */
  function Grouping(list: seq<Curve>, tracked: set<nat>): seq<Group> {
    if list == [] then []
    else if list[0].id in tracked then Grouping(list[1..], tracked)
    else
      var ids := [list[0].id] + Members(list[1..], list[0].algs, tracked + {list[0].id});
      [Group(ids, list[0].algs)] + Grouping(list[1..], tracked + Ids(ids))
  }

  function AllIds(list: seq<Curve>): set<nat> {
    set k | 0 <= k < |list| :: list[k].id
  }

  /** All curves of all groups, run together. */
  function Emitted(groups: seq<Group>): seq<nat> {
    if groups == [] then [] else groups[0].ids + Emitted(groups[1..])
  }

  ghost predicate NoRepeats(s: seq<nat>) {
    forall i, j :: 0 <= i < j < |s| ==> s[i] != s[j]
  }

  lemma {:induction false} MembersFacts(list: seq<Curve>, algs: Flags, tracked: set<nat>)
    ensures var m := Members(list, algs, tracked);
      && NoRepeats(m)
      && (forall id :: id in m <==> id !in tracked && exists k :: 0 <= k < |list| && list[k] == Curve(id, algs))
  {
    if list != [] {
      var m := Members(list, algs, tracked);
      if list[0].id in tracked || list[0].algs != algs {
        MembersFacts(list[1..], algs, tracked);
        forall id
          ensures id in m <==> id !in tracked && exists k :: 0 <= k < |list| && list[k] == Curve(id, algs)
        {
          if k :| 0 <= k < |list| && list[k] == Curve(id, algs) && id !in tracked {
            assert list[1..][k - 1] == Curve(id, algs);
          }
        }
      } else {
        var tracked' := tracked + {list[0].id};
        MembersFacts(list[1..], algs, tracked');
        var m' := Members(list[1..], algs, tracked');
        assert list[0] == Curve(list[0].id, algs);
        forall id
          ensures id in m <==> id !in tracked && exists k :: 0 <= k < |list| && list[k] == Curve(id, algs)
        {
          assert id in m <==> id == list[0].id || id in m';
          if k :| 0 <= k < |list| && list[k] == Curve(id, algs) && id !in tracked && id != list[0].id {
            assert list[1..][k - 1] == Curve(id, algs);
          }
        }
      }
    }
  }

  /** The entry `Curve(id, algs)` is on the list. */
  predicate On(list: seq<Curve>, id: nat, algs: Flags) {
    exists k :: 0 <= k < |list| && list[k] == Curve(id, algs)
  }

  lemma OnTail(list: seq<Curve>, id: nat, algs: Flags)
    requires list != []
    ensures On(list, id, algs) <==> list[0] == Curve(id, algs) || On(list[1..], id, algs)
  {
    if k :| 0 < k < |list| && list[k] == Curve(id, algs) {
      assert list[1..][k - 1] == Curve(id, algs);
    }
  }

  /** Every group carries the flags of an entry of each of its curves. */
  ghost predicate Sound(groups: seq<Group>, list: seq<Curve>) {
    forall g, id :: 0 <= g < |groups| && id in groups[g].ids ==> On(list, id, groups[g].algs)
  }

  ghost predicate DistinctFlags(groups: seq<Group>) {
    forall i, j :: 0 <= i < j < |groups| ==> groups[i].algs != groups[j].algs
  }

  lemma {:induction false} EmittedIn(groups: seq<Group>, id: nat)
    ensures id in Emitted(groups) <==> exists g :: 0 <= g < |groups| && id in groups[g].ids
  {
    if groups != [] {
      var head, tail := groups[0], groups[1..];
      EmittedIn(tail, id);
      assert forall g :: 0 < g < |groups| ==> groups[g] == tail[g - 1];
      assert forall g :: 0 <= g < |tail| ==> tail[g] == groups[g + 1];
      assert id in Emitted(groups) <==> id in head.ids || id in Emitted(tail);
    }
  }

  /** Each curve that is not yet accounted for is emitted exactly once, and no two groups share their flags. */
  ghost predicate Covers(groups: seq<Group>, list: seq<Curve>, tracked: set<nat>) {
    && NoRepeats(Emitted(groups))
    && (forall id :: id in Emitted(groups) <==> id in AllIds(list) && id !in tracked)
    && Sound(groups, list)
    && DistinctFlags(groups)
    && (forall g :: 0 <= g < |groups| ==> groups[g].ids != [])
  }

  lemma IdsIn(s: seq<nat>)
    ensures forall id :: id in Ids(s) <==> id in s
  {
  }

  lemma NoRepeatsConcat(a: seq<nat>, b: seq<nat>)
    requires NoRepeats(a) && NoRepeats(b) && forall id :: id in a ==> id !in b
    ensures NoRepeats(a + b)
  {
    forall i, j | 0 <= i < j < |a + b|
      ensures (a + b)[i] != (a + b)[j]
    {
      if i < |a| <= j {
        assert a[i] in a && b[j - |a|] in b;
      }
    }
  }

  lemma AllIdsTail(list: seq<Curve>)
    requires list != []
    ensures AllIds(list) == {list[0].id} + AllIds(list[1..])
  {
    assert forall k :: 0 < k < |list| ==> list[k] == list[1..][k - 1];
    assert forall k :: 0 <= k < |list[1..]| ==> list[1..][k] == list[k + 1];
  }

  /** For every list, duplicates included, the emitted groups cover it. */
  lemma {:induction false} GroupingCovers(list: seq<Curve>, tracked: set<nat>)
    ensures Covers(Grouping(list, tracked), list, tracked)
    decreases list, 1
  {
    if list != [] && list[0].id in tracked {
      AllIdsTail(list);
      GroupingCovers(list[1..], tracked);
      var groups := Grouping(list, tracked);
      forall g, id | 0 <= g < |groups| && id in groups[g].ids
        ensures On(list, id, groups[g].algs)
      {
        OnTail(list, id, groups[g].algs);
      }
    } else if list != [] {
      var ids := [list[0].id] + Members(list[1..], list[0].algs, tracked + {list[0].id});
      GroupingCovers(list[1..], tracked + Ids(ids));
      NewLeader(list, tracked, ids, Grouping(list[1..], tracked + Ids(ids)));
    }
  }

  /** The case of a new leader, whose group takes `ids`. */
  lemma NewLeader(list: seq<Curve>, tracked: set<nat>, ids: seq<nat>, rest: seq<Group>)
    requires list != [] && list[0].id !in tracked
    requires ids == [list[0].id] + Members(list[1..], list[0].algs, tracked + {list[0].id})
    requires Covers(rest, list[1..], tracked + Ids(ids))
    ensures Covers([Group(ids, list[0].algs)] + rest, list, tracked)
  {
    var head, tail := list[0], list[1..];
    AllIdsTail(list);
    IdsIn(ids);
    var more := Members(tail, head.algs, tracked + {head.id});
    MembersFacts(tail, head.algs, tracked + {head.id});
    assert forall id :: id in ids <==> id == head.id || id in more;
    NoRepeatsConcat([head.id], more);
    NoRepeatsConcat(ids, Emitted(rest));
    var groups := [Group(ids, head.algs)] + rest;
    assert groups[1..] == rest;
    assert Emitted(groups) == ids + Emitted(rest);
    forall id | id in more
      ensures id in AllIds(tail)
    {
      assert On(tail, id, head.algs);
    }
    assert Sound(groups, list) by {
      NewLeaderSound(list, tracked, ids, rest);
    }
    forall j | 0 <= j < |rest|
      ensures rest[j].algs != head.algs
    {
      var id := rest[j].ids[0];
      EmittedIn(rest, id);
      assert On(tail, id, rest[j].algs);
      assert id !in more;
    }
  }

  lemma NewLeaderSound(list: seq<Curve>, tracked: set<nat>, ids: seq<nat>, rest: seq<Group>)
    requires list != [] && Sound(rest, list[1..])
    requires ids == [list[0].id] + Members(list[1..], list[0].algs, tracked + {list[0].id})
    ensures Sound([Group(ids, list[0].algs)] + rest, list)
  {
    MembersFacts(list[1..], list[0].algs, tracked + {list[0].id});
    var groups := [Group(ids, list[0].algs)] + rest;
    forall g, id | 0 <= g < |groups| && id in groups[g].ids
      ensures On(list, id, groups[g].algs)
    {
      OnTail(list, id, groups[g].algs);
      if g > 0 {
        assert groups[g] == rest[g - 1];
      } else if id != list[0].id {
        assert id in ids[1..];
      }
    }
  }

  // ---- what the groups mean ------------------------------------------------

  /** All entries of one curve have the same flags: in particular when no curve was enabled twice. */
  ghost predicate Consistent(list: seq<Curve>) {
    forall i, j :: 0 <= i < |list| && 0 <= j < |list| && list[i].id == list[j].id ==> list[i].algs == list[j].algs
  }

  ghost predicate Enabled(list: seq<Curve>, id: nat, h: nat) {
    exists k :: 0 <= k < |list| && list[k].id == id && h < |list[k].algs| && list[k].algs[h]
  }

  ghost predicate Says(groups: seq<Group>, id: nat, h: nat) {
    exists g :: 0 <= g < |groups| && id in groups[g].ids && h < |groups[g].algs| && groups[g].algs[h]
  }

  /** The group of an enabled curve carries that curve's flags. */
  lemma GroupOf(list: seq<Curve>, i: nat) returns (g: nat)
    requires Consistent(list) && i < |list|
    ensures g < |Grouping(list, {})| && list[i].id in Grouping(list, {})[g].ids
    ensures forall m :: 0 <= m < |Grouping(list, {})| && list[i].id in Grouping(list, {})[m].ids ==>
      Grouping(list, {})[m].algs == list[i].algs
  {
    var groups := Grouping(list, {});
    GroupingCovers(list, {});
    EmittedIn(groups, list[i].id);
    g :| 0 <= g < |groups| && list[i].id in groups[g].ids;
    forall m | 0 <= m < |groups| && list[i].id in groups[m].ids
      ensures groups[m].algs == list[i].algs
    {
      assert On(list, list[i].id, groups[m].algs);
    }
  }

  /** Expanding the emitted objects gives back exactly the enabled pairs of curve and hash. */
  lemma GroupingPreservesMeaning(list: seq<Curve>, id: nat, h: nat)
    requires Consistent(list)
    ensures Says(Grouping(list, {}), id, h) <==> Enabled(list, id, h)
  {
    var groups := Grouping(list, {});
    if Says(groups, id, h) {
      GroupingCovers(list, {});
      var g :| 0 <= g < |groups| && id in groups[g].ids && h < |groups[g].algs| && groups[g].algs[h];
      assert On(list, id, groups[g].algs);
    }
    if Enabled(list, id, h) {
      var k :| 0 <= k < |list| && list[k].id == id && h < |list[k].algs| && list[k].algs[h];
      var g := GroupOf(list, k);
    }
  }

  ghost predicate Together(groups: seq<Group>, a: nat, b: nat) {
    exists g :: 0 <= g < |groups| && a in groups[g].ids && b in groups[g].ids
  }

  /** The groups are the equivalence classes of equal hash sets. */
  lemma {:induction false} GroupsAreClasses(list: seq<Curve>, i: nat, j: nat)
    requires Consistent(list) && i < |list| && j < |list|
    ensures Together(Grouping(list, {}), list[i].id, list[j].id) <==> list[i].algs == list[j].algs
  {
    var groups := Grouping(list, {});
    var a := GroupOf(list, i);
    var b := GroupOf(list, j);
    GroupingCovers(list, {});
    if list[i].algs == list[j].algs {
      assert groups[a].algs == groups[b].algs;
    }
  }

  /** Different flags of a list, in the order in which they first occur, leaving out those in `seen`. */
  function FirstSeen(list: seq<Curve>, seen: set<Flags>): seq<Flags> {
    if list == [] then []
    else if list[0].algs in seen then FirstSeen(list[1..], seen)
    else [list[0].algs] + FirstSeen(list[1..], seen + {list[0].algs})
  }

  function GroupFlags(groups: seq<Group>): seq<Flags> {
    seq(|groups|, g requires 0 <= g < |groups| => groups[g].algs)
  }

  /** The groups come in the order in which their hash sets first occur. */
  lemma {:induction false} GroupsInFirstOrder(list: seq<Curve>, tracked: set<nat>, seen: set<Flags>)
    requires Consistent(list)
    requires forall k :: 0 <= k < |list| ==> (list[k].id in tracked <==> list[k].algs in seen)
    ensures GroupFlags(Grouping(list, tracked)) == FirstSeen(list, seen)
  {
    if list != [] {
      var head, tail := list[0], list[1..];
      assert Consistent(tail);
      if head.id in tracked {
        GroupsInFirstOrder(tail, tracked, seen);
      } else {
        var more := Members(tail, head.algs, tracked + {head.id});
        MembersFacts(tail, head.algs, tracked + {head.id});
        var ids := [head.id] + more;
        IdsIn(ids);
        var tracked', seen' := tracked + Ids(ids), seen + {head.algs};
        forall k | 0 <= k < |tail|
          ensures tail[k].id in tracked' <==> tail[k].algs in seen'
        {
          assert list[k + 1] == tail[k];
          assert tail[k].id in Ids(ids) <==> tail[k].id == head.id || tail[k].id in more;
          if tail[k].algs == head.algs {
            assert tail[k] == Curve(tail[k].id, head.algs);
          }
        }
        GroupsInFirstOrder(tail, tracked', seen');
        assert GroupFlags(Grouping(list, tracked)) == [head.algs] + GroupFlags(Grouping(tail, tracked'));
      }
    }
  }

  /**
   * A curve that was enabled twice can lose hash algorithms: here curve 2 has all of `more`, but its
   * second entry matches the flags of curve 1 first, and it is registered with those alone.
   */
  lemma DuplicateCurveLosesHashes(base: Flags, more: Flags)
    requires base != more
    ensures Grouping([Curve(1, base), Curve(2, more), Curve(2, base)], {}) == [Group([1, 2], base)]
  {
    var last := [Curve(2, base)];
    var tail := [Curve(2, more)] + last;
    var list := [Curve(1, base)] + tail;
    assert list == [Curve(1, base), Curve(2, more), Curve(2, base)] && list[1..] == tail && tail[1..] == last;
    assert last[1..] == [] && Members(last, base, {1}) == [2] + Members([], base, {1, 2}) == [2];
    assert {1} == {} + {1} && Members(tail, base, {} + {1}) == Members(last, base, {1});
    var ids := [1] + Members(tail, base, {} + {1});
    assert ids == [1, 2];
    IdsIn(ids);
    assert Grouping(last, {} + Ids(ids)) == Grouping([], {} + Ids(ids)) == [];
    assert Grouping(tail, {} + Ids(ids)) == [];
  }
}
