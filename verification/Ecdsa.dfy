/** The ECDSA signature capability: its setters, and the building of its registration. */
module Ecdsa {
  import opened EcdsaSpec
  import opened EcdsaCalls
  import opened EcdsaDuplicates

  datatype Rv = Success | MissingArg | InvalidArg | UnsupportedOp

  /** The curves marked in the track array. */
  ghost function Marked(track: array<bool>): set<nat>
    reads track
  {
    set id: nat | id < track.Length && track[id]
  }

  class EcdsaCap {
    var curves: seq<Curve>
    var hashAlgs: Flags
    ghost var calls: seq<Call>

    constructor ()
      ensures Valid() && calls == []
    {
      curves, hashAlgs, calls := [], NoFlags(HASH_ALG_MAX + 1), [];
    }

    ghost function Value(): State
      reads this
    {
      State(curves, hashAlgs)
    }

    predicate Shaped()
      reads this
    {
      ValidCurves(curves) && |hashAlgs| == HASH_ALG_MAX + 1
    }

    /** The fields are what the calls so far make of a fresh capability. */
    ghost predicate Valid()
      reads this
    {
      Value() == Replay(calls)
    }

    /** amvp_cap_ecdsa_set_parm with AMVP_ECDSA_CURVE: a curve may be enabled again. */
    method EnableCurve(value: int) returns (rv: Rv)
      requires Valid()
      modifies this`curves, this`calls
      ensures Valid() && calls == old(calls) + [Call.EnableCurve(value)]
      ensures (rv == Success <==> CurveId(value)) && (rv == MissingArg <==> value == 0)
      ensures curves == old(curves) + if rv == Success then [Curve(value, NoFlags(HASH_ALG_MAX))] else []
    {
      ReplayNext(calls, Call.EnableCurve(value));
      calls := calls + [Call.EnableCurve(value)];
      if value == 0 {
        return MissingArg;
      }
      if value <= 0 || value >= EC_CURVE_END {
        return InvalidArg;
      }
      curves := curves + [Curve(value, NoFlags(HASH_ALG_MAX))];
      return Success;
    }

    /** amvp_cap_ecdsa_set_parm with AMVP_ECDSA_HASH_ALG: a hash algorithm for all curves. */
    method SetHashAlg(value: int) returns (rv: Rv)
      requires Valid()
      modifies this`hashAlgs, this`calls
      ensures Valid() && calls == old(calls) + [AddHash(value)]
      ensures (rv == Success <==> SingleHash(value)) && (rv == MissingArg <==> value == 0)
      ensures hashAlgs == if rv == Success then old(hashAlgs)[value := true] else old(hashAlgs)
    {
      ReplayNext(calls, AddHash(value));
      calls := calls + [AddHash(value)];
      if value == 0 {
        return MissingArg;
      }
      if !SingleHash(value) {
        return InvalidArg;
      }
      hashAlgs := hashAlgs[value := true];
      return Success;
    }

    /** amvp_cap_ecdsa_set_curve_hash_alg: a hash algorithm for the first entry of one curve. */
    method SetCurveHashAlg(id: int, alg: int) returns (rv: Rv)
      requires Valid()
      modifies this`curves, this`calls
      ensures Valid() && calls == old(calls) + [AddCurveHash(id, alg)]
      ensures rv == Success <==> CurveId(id) && SingleHash(alg) && FirstOf(old(curves), id) < |old(curves)|
      ensures rv == UnsupportedOp <==> CurveId(id) && SingleHash(alg) && FirstOf(old(curves), id) == |old(curves)|
      ensures curves == if rv != Success then old(curves) else
        var k := FirstOf(old(curves), id);
        old(curves)[k := Curve(id, old(curves)[k].algs[alg := true])]
    {
      ReplayNext(calls, AddCurveHash(id, alg));
      calls := calls + [AddCurveHash(id, alg)];
      if !CurveId(id) || !SingleHash(alg) {
        return InvalidArg;
      }
      var k := 0;
      while k < |curves|
        invariant k <= |curves| && forall m :: 0 <= m < k ==> curves[m].id != id
      {
        if curves[k].id == id {
          curves := curves[k := Curve(id, curves[k].algs[alg := true])];
          return Success;
        }
        k := k + 1;
      }
      return UnsupportedOp;
    }

    /** The loops that add the universally set hash algorithms to every curve, for good. */
    method MergeUniversal()
      requires Shaped()
      modifies this`curves
      ensures Shaped() && curves == Merge(old(curves), hashAlgs)
    {
      for k := 0 to |curves|
        invariant Shaped() && |curves| == |old(curves)|
        invariant forall m :: 0 <= m < k ==> curves[m] == Merge(old(curves), hashAlgs)[m]
        invariant forall m :: k <= m < |curves| ==> curves[m] == old(curves)[m]
      {
        var algs := MergeOne(curves[k].algs);
        curves := curves[k := Curve(curves[k].id, algs)];
      }
    }

    method MergeOne(own: Flags) returns (algs: Flags)
      requires |own| == HASH_ALG_MAX && |hashAlgs| == HASH_ALG_MAX + 1
      ensures algs == Or(own, hashAlgs)
    {
      algs := own;
      for i := 0 to HASH_ALG_MAX
        invariant |algs| == HASH_ALG_MAX
        invariant forall m :: 0 <= m < i ==> algs[m] == (own[m] || hashAlgs[m])
        invariant forall m :: i <= m < HASH_ALG_MAX ==> algs[m] == own[m]
      {
        if hashAlgs[i] {
          algs := algs[i := true];
        }
      }
    }

    /** The inner loop: the members of the group led by entry `cur`; `ok` is lost at a curve without a name. */
    method CollectGroup(cur: nat, track: array<bool>, named: nat -> bool) returns (ok: bool, ids: seq<nat>)
      requires Shaped() && cur < |curves| && track.Length == EC_CURVE_END + 1
      requires !track[curves[cur].id]
      modifies track
      ensures var c := curves[cur];
        ok ==> ids == [c.id] + Members(curves[cur + 1..], c.algs, old(Marked(track)) + {c.id})
      ensures ok ==> Marked(track) == old(Marked(track)) + Ids(ids)
      ensures ok ==> forall id :: id in ids ==> named(id)
      ensures !ok ==> exists k :: 0 <= k < |curves| && !named(curves[k].id)
    {
      var c := curves[cur];
      ids := [];
      if !named(c.id) {
        return false, ids;
      }
      Mark(track, c.id);
      IdsOne(c.id);
      var more;
      ok, more := CollectRest(cur, track, named);
      IdsSplit([c.id], more);
      ids := [c.id] + more;
    }

    /** The loop itself, behind the leader. */
    method CollectRest(cur: nat, track: array<bool>, named: nat -> bool) returns (ok: bool, ids: seq<nat>)
      requires Shaped() && cur < |curves| && track.Length == EC_CURVE_END + 1 && track[curves[cur].id]
      modifies track
      ensures ok ==> ids == Members(curves[cur + 1..], curves[cur].algs, old(Marked(track)))
      ensures ok ==> Marked(track) == old(Marked(track)) + Ids(ids) && forall id :: id in ids ==> named(id)
      ensures !ok ==> exists k :: 0 <= k < |curves| && !named(curves[k].id)
    {
      var c := curves[cur];
      ids := [];
      for iter := cur + 1 to |curves|
        invariant track[c.id] && forall id :: id in ids ==> named(id)
        invariant Collected(curves, cur + 1, iter, c.algs, old(Marked(track)), Marked(track), ids)
      {
        var more;
        ghost var before := Marked(track);
        ok, more := CollectOne(c, iter, track, named);
        if !ok {
          return;
        }
        CollectedNext(curves, cur + 1, iter, c.algs, old(Marked(track)), before, Marked(track), ids, more);
        ids := ids + more;
      }
      ok := true;
    }

    /** The body of the inner loop: entry `iter` joins the group of `c`, unless it is accounted for or differs. */
    method CollectOne(c: Curve, iter: nat, track: array<bool>, named: nat -> bool) returns (ok: bool, more: seq<nat>)
      requires Shaped() && iter < |curves| && track.Length == EC_CURVE_END + 1
      requires c.id < track.Length && track[c.id]
      modifies track
      ensures track[c.id]
      ensures ok ==>
        Members(curves[iter..], c.algs, old(Marked(track))) == more + Members(curves[iter + 1..], c.algs, Marked(track))
      ensures ok ==> Marked(track) == old(Marked(track)) + Ids(more) && forall id :: id in more ==> named(id)
      ensures !ok ==> !named(curves[iter].id)
    {
      var e := curves[iter];
      MembersStep(curves, iter, c.algs, Marked(track));
      more := [];
      if c.id == e.id || track[e.id] || c.algs != e.algs {
        return true, more;
      }
      if !named(e.id) {
        return false, more;
      }
      more := [e.id];
      IdsOne(e.id);
      Mark(track, e.id);
      return true, more;
    }

    /** Note that a curve is accounted for. */
    method Mark(track: array<bool>, id: nat)
      requires id < track.Length
      modifies track
      ensures Marked(track) == old(Marked(track)) + {id} && track[id]
      ensures forall k :: 0 <= k < track.Length && old(track[k]) ==> track[k]
    {
      track[id] := true;
    }

    /** One turn of the outer loop: nothing for a curve already accounted for, otherwise its group. */
    method VisitCurve(cur: nat, track: array<bool>, named: nat -> bool) returns (ok: bool, found: seq<Group>)
      requires Shaped() && cur < |curves| && track.Length == EC_CURVE_END + 1
      modifies track
      ensures ok ==> found + Grouping(curves[cur + 1..], Marked(track)) == Grouping(curves[cur..], old(Marked(track)))
      ensures ok ==> forall g, id :: 0 <= g < |found| && id in found[g].ids ==> named(id)
      ensures !ok ==> exists k :: 0 <= k < |curves| && !named(curves[k].id)
    {
      assert curves[cur..][0] == curves[cur] && curves[cur..][1..] == curves[cur + 1..];
      if track[curves[cur].id] {
        return true, [];
      }
      var ids;
      ok, ids := CollectGroup(cur, track, named);
      found := [Group(ids, curves[cur].algs)];
    }

    /** The grouping loops of amvp_build_ecdsa_register_cap for signature generation and verification. */
    method BuildGroups(named: nat -> bool) returns (rv: Rv, groups: seq<Group>)
      requires Valid()
      modifies this`curves, this`calls
      ensures Valid() && calls == old(calls) + [Register]
      ensures curves == Merge(old(curves), hashAlgs)
      ensures (rv, groups) == GroupingResult(curves, named)
      ensures rv == MissingArg <==> curves == []
      ensures rv == InvalidArg <==> curves != [] && exists k :: 0 <= k < |curves| && !named(curves[k].id)
      ensures rv == Success ==> Covers(groups, curves, {})
      ensures rv == Success && Consistent(curves) ==> GroupFlags(groups) == FirstSeen(curves, {})
      ensures rv == Success ==> (SayMeant(groups, old(calls)) <==> !Lossy(curves, hashAlgs[..HASH_ALG_MAX]))
    {
      ReplayNext(calls, Register);
      ResultMeans(calls, named);
      calls := calls + [Register];
      MergeUniversal();
      if curves == [] {
        return MissingArg, [];
      }
      rv, groups := GroupCurves(named);
    }

    /** The outer loop, over the merged curves. */
    method GroupCurves(named: nat -> bool) returns (rv: Rv, groups: seq<Group>)
      requires Shaped() && curves != []
      ensures (rv, groups) == GroupingResult(curves, named)
    {
      groups := [];
      var track := new bool[EC_CURVE_END + 1](_ => false);
      assert Marked(track) == {} && curves[0..] == curves;
      for cur := 0 to |curves|
        invariant groups + Grouping(curves[cur..], Marked(track)) == Grouping(curves, {})
        invariant forall g, id :: 0 <= g < |groups| && id in groups[g].ids ==> named(id)
        modifies track
      {
        var ok, found := VisitCurve(cur, track, named);
        if !ok {
          return InvalidArg, [];
        }
        groups := groups + found;
      }
      AllNamed(curves, groups, named);
      return Success, groups;
    }

    /** A second registration groups the curves as the first one did. */
    method BuildGroupsTwice(named: nat -> bool) returns (rv: Rv, groups: seq<Group>, rv': Rv, groups': seq<Group>)
      requires Valid()
      modifies this`curves, this`calls
      ensures Valid() && calls == old(calls) + [Register, Register]
      ensures rv == rv' && groups == groups' && (rv, groups) == GroupingResult(Merge(old(curves), hashAlgs), named)
    {
      MergeIdempotent(curves, hashAlgs);
      rv, groups := BuildGroups(named);
      rv', groups' := BuildGroups(named);
    }
  }

  /** The result for merged curves: their grouping, unless there are none or one of them has no name. */
  function GroupingResult(curves: seq<Curve>, named: nat -> bool): (Rv, seq<Group>) {
    if curves == [] then (MissingArg, [])
    else if forall k :: 0 <= k < |curves| ==> named(curves[k].id) then (Success, Grouping(curves, {}))
    else (InvalidArg, [])
  }

  /** From entry `from` up to entry `k`, the group has taken `ids`, which took the tracked curves from `t0` to `t`. */
  ghost predicate Collected(list: seq<Curve>, from: nat, k: nat, algs: Flags, t0: set<nat>, t: set<nat>, ids: seq<nat>)
    requires from <= k <= |list|
  {
    t == t0 + Ids(ids) && Members(list[from..], algs, t0) == ids + Members(list[k..], algs, t)
  }

  lemma CollectedNext(list: seq<Curve>, from: nat, k: nat, algs: Flags, t0: set<nat>, t: set<nat>, t': set<nat>,
                      ids: seq<nat>, more: seq<nat>)
    requires from <= k < |list| && Collected(list, from, k, algs, t0, t, ids)
    requires t' == t + Ids(more) && Members(list[k..], algs, t) == more + Members(list[k + 1..], algs, t')
    ensures Collected(list, from, k + 1, algs, t0, t', ids + more)
  {
    IdsSplit(ids, more);
    var rest := Members(list[k + 1..], algs, t');
    assert ids + (more + rest) == ids + more + rest;
  }

  /** What a successful registration behind the calls consists of. */
  lemma ResultMeans(calls: seq<Call>, named: nat -> bool)
    ensures var (list, r) := (Merged(calls), GroupingResult(Merged(calls), named));
      r.0 == Success ==>
        && Covers(r.1, list, {})
        && (Consistent(list) ==> GroupFlags(r.1) == FirstSeen(list, {}))
        && (SayMeant(r.1, calls) <==> !Lossy(list, Replay(calls).universal[..HASH_ALG_MAX]))
  {
    var list := Merged(calls);
    GroupingCovers(list, {});
    if Consistent(list) {
      GroupsInFirstOrder(list, {}, {});
    }
    RegistrationMeans(calls);
  }

  lemma IdsOne(id: nat)
    ensures Ids([id]) == {id}
  {
    IdsIn([id]);
  }

  lemma IdsSplit(a: seq<nat>, b: seq<nat>)
    ensures Ids(a + b) == Ids(a) + Ids(b)
  {
    IdsIn(a);
    IdsIn(b);
    IdsIn(a + b);
  }

  lemma MembersStep(list: seq<Curve>, k: nat, algs: Flags, tracked: set<nat>)
    requires k < |list|
    ensures var rest := list[k + 1..];
      Members(list[k..], algs, tracked) ==
        if list[k].id in tracked || list[k].algs != algs then Members(rest, algs, tracked)
        else [list[k].id] + Members(rest, algs, tracked + {list[k].id})
  {
    assert list[k..][0] == list[k] && list[k..][1..] == list[k + 1..];
  }

  /** When every emitted curve has a name, every curve on the list has. */
  lemma AllNamed(list: seq<Curve>, groups: seq<Group>, named: nat -> bool)
    requires groups == Grouping(list, {})
    requires forall g, id :: 0 <= g < |groups| && id in groups[g].ids ==> named(id)
    ensures forall k :: 0 <= k < |list| ==> named(list[k].id)
  {
    GroupingCovers(list, {});
    forall k | 0 <= k < |list|
      ensures named(list[k].id)
    {
      EmittedIn(groups, list[k].id);
    }
  }
}
