/**
 * The calls on an ECDSA signature capability, what they make of its curves and hash algorithms, and
 * what they were meant to say.
 */
module EcdsaCalls {
  import opened EcdsaSpec

  /** Exactly one hash algorithm flag, within range. */
  predicate SingleHash(value: int) {
    0 < value < HASH_ALG_MAX && value in {1, 2, 4, 8, 16, 32, 64, 128, 256, 512, 1024}
  }

  /** The source finds single flags by `value & (value - 1)`, which is 0 for just these numbers. */
  lemma SingleBits(x: bv12)
    requires 0 < x < 2048
    ensures x & (x - 1) == 0 <==> x in {1, 2, 4, 8, 16, 32, 64, 128, 256, 512, 1024}
  {
  }

  predicate CurveId(value: int) {
    0 < value < EC_CURVE_END
  }

  function NoFlags(n: nat): (r: Flags)
    ensures |r| == n && forall i :: 0 <= i < n ==> !r[i]
  {
    seq(n, i => false)
  }

  /** Position of the first entry of a curve, or the length of the list. */
  function FirstOf(list: seq<Curve>, id: nat): (k: nat)
    ensures k <= |list| && (k < |list| ==> list[k].id == id)
    ensures forall m :: 0 <= m < k ==> list[m].id != id
  {
    if list == [] || list[0].id == id then 0 else FirstOf(list[1..], id) + 1
  }

  predicate FirstEntry(list: seq<Curve>, k: nat)
    requires k < |list|
  {
    FirstOf(list, list[k].id) == k
  }

  /** Only the first entry of a curve has hash algorithms beyond the universal ones. */
  predicate LaterPlain(list: seq<Curve>, universal: Flags) {
    forall k, h :: 0 <= k < |list| && !FirstEntry(list, k) && 0 <= h < |list[k].algs| && list[k].algs[h] ==>
      h < |universal| && universal[h]
  }

  /** Which entry of a curve comes first depends on the curves alone. */
  lemma SamePosition(a: seq<Curve>, b: seq<Curve>, id: nat)
    requires |a| <= |b| && forall m :: 0 <= m < |a| ==> a[m].id == b[m].id
    ensures FirstOf(a, id) < |a| ==> FirstOf(b, id) == FirstOf(a, id)
    ensures FirstOf(a, id) == |a| ==> FirstOf(b, id) >= |a|
  {
  }

  lemma AllFirstEntriesKept(a: seq<Curve>, b: seq<Curve>)
    requires |a| <= |b| && forall m :: 0 <= m < |a| ==> a[m].id == b[m].id
    ensures forall k :: 0 <= k < |a| ==> (FirstEntry(a, k) <==> FirstEntry(b, k))
  {
    forall k | 0 <= k < |a|
      ensures FirstEntry(a, k) <==> FirstEntry(b, k)
    {
      SamePosition(a, b, a[k].id);
    }
  }

  // ---- the calls -----------------------------------------------------------

  datatype Call =
    | EnableCurve(id: int)
    | AddHash(alg: int)                 // for all curves
    | AddCurveHash(id: int, alg: int)
    | Register                          // building a registration

  datatype State = State(curves: seq<Curve>, universal: Flags)

  predicate Shaped(s: State) {
    ValidCurves(s.curves) && |s.universal| == HASH_ALG_MAX + 1
  }

  predicate Accepted(s: State, c: Call) {
    match c
    case EnableCurve(id) => CurveId(id)
    case AddHash(alg) => SingleHash(alg)
    case AddCurveHash(id, alg) => CurveId(id) && SingleHash(alg) && FirstOf(s.curves, id) < |s.curves|
    case Register => true
  }

  /** What an accepted call does; any other changes nothing. */
  function Step(s: State, c: Call): (t: State)
    requires Shaped(s)
    ensures Shaped(t)
  {
    if !Accepted(s, c) then s else
    match c
    case EnableCurve(id) => s.(curves := s.curves + [Curve(id, NoFlags(HASH_ALG_MAX))])
    case AddHash(alg) => s.(universal := s.universal[alg := true])
    case AddCurveHash(id, alg) =>
      var k := FirstOf(s.curves, id);
      s.(curves := s.curves[k := Curve(id, s.curves[k].algs[alg := true])])
    case Register => s.(curves := Merge(s.curves, s.universal))
  }

  const FRESH := State([], NoFlags(HASH_ALG_MAX + 1))

  function Replay(calls: seq<Call>): (s: State)
    ensures Shaped(s)
  {
    if calls == [] then FRESH else Step(Replay(calls[..|calls| - 1]), calls[|calls| - 1])
  }

  lemma ReplayNext(calls: seq<Call>, c: Call)
    ensures Replay(calls + [c]) == Step(Replay(calls), c)
  {
    assert (calls + [c])[..|calls|] == calls;
  }

  // ---- what every state keeps ----------------------------------------------

  lemma StepPlain(s: State, c: Call)
    requires Shaped(s) && LaterPlain(s.curves, s.universal)
    ensures LaterPlain(Step(s, c).curves, Step(s, c).universal)
  {
    AllFirstEntriesKept(s.curves, Step(s, c).curves);
  }

  lemma {:induction false} AlwaysPlain(calls: seq<Call>)
    ensures LaterPlain(Replay(calls).curves, Replay(calls).universal)
  {
    if calls != [] {
      AlwaysPlain(calls[..|calls| - 1]);
      StepPlain(Replay(calls[..|calls| - 1]), calls[|calls| - 1]);
    }
  }

  // ---- what the calls mean -------------------------------------------------

  ghost predicate Enables(calls: seq<Call>, id: nat) {
    CurveId(id) && EnableCurve(id) in calls
  }

  /** A hash algorithm was set for all curves. */
  ghost predicate ForAll(calls: seq<Call>, h: nat) {
    SingleHash(h) && AddHash(h) in calls
  }

  /** A hash algorithm was set for a curve that had been enabled before. */
  ghost predicate ForCurve(calls: seq<Call>, id: nat, h: nat) {
    SingleHash(h) && exists k :: 0 <= k < |calls| && calls[k] == AddCurveHash(id, h) && Enables(calls[..k], id)
  }

  /** The calls ask for the curve to be registered with the hash algorithm. */
  ghost predicate Meant(calls: seq<Call>, id: nat, h: nat) {
    Enables(calls, id) && (ForCurve(calls, id, h) || ForAll(calls, h))
  }

  lemma ForCurveNext(calls: seq<Call>, c: Call, id: nat, h: nat)
    ensures ForCurve(calls + [c], id, h) <==>
      ForCurve(calls, id, h) || (SingleHash(h) && c == AddCurveHash(id, h) && Enables(calls, id))
  {
    var all := calls + [c];
    assert all[..|calls|] == calls;
    assert forall k :: 0 <= k < |calls| ==> all[k] == calls[k] && all[..k] == calls[..k];
    if ForCurve(calls, id, h) {
      var k :| 0 <= k < |calls| && calls[k] == AddCurveHash(id, h) && Enables(calls[..k], id);
      assert all[k] == AddCurveHash(id, h) && Enables(all[..k], id);
    } else if SingleHash(h) && c == AddCurveHash(id, h) && Enables(calls, id) {
      assert all[|calls|] == AddCurveHash(id, h) && Enables(all[..|calls|], id);
    }
  }

  /** The flags of a curve hold what was set for it, and nothing that was not set for it or for all. */
  ghost predicate Holds(s: State, calls: seq<Call>, id: nat, h: nat)
    requires Shaped(s)
  {
    var k := FirstOf(s.curves, id);
    && (k < |s.curves| <==> Enables(calls, id))
    && (h < HASH_ALG_MAX ==> (s.universal[h] <==> ForAll(calls, h)))
    && (k < |s.curves| && h < HASH_ALG_MAX ==>
          && (ForCurve(calls, id, h) ==> s.curves[k].algs[h])
          && (s.curves[k].algs[h] ==> ForCurve(calls, id, h) || ForAll(calls, h)))
  }

  lemma EnablesNext(calls: seq<Call>, c: Call, id: nat, h: nat)
    ensures Enables(calls + [c], id) <==> Enables(calls, id) || (CurveId(id) && c == EnableCurve(id))
    ensures ForAll(calls + [c], h) <==> ForAll(calls, h) || (SingleHash(h) && c == AddHash(h))
  {
  }

  lemma CurveHashNeedsEnabling(calls: seq<Call>, id: nat, h: nat)
    requires ForCurve(calls, id, h)
    ensures Enables(calls, id)
  {
  }

  /** What a call does to the first entry of a curve. */
  lemma EntryNext(s: State, c: Call, id: nat, h: nat)
    requires Shaped(s) && h < HASH_ALG_MAX
    ensures var (t, k, k') := (Step(s, c), FirstOf(s.curves, id), FirstOf(Step(s, c).curves, id));
      && (k' < |t.curves| <==> k < |s.curves| || (CurveId(id) && c == EnableCurve(id)))
      && (k < |s.curves| ==>
            && k' == k < |t.curves|
            && (t.curves[k].algs[h] <==>
                  || s.curves[k].algs[h]
                  || (SingleHash(h) && c == AddCurveHash(id, h))
                  || (c.Register? && s.universal[h])))
      && (k == |s.curves| && k' < |t.curves| ==> !t.curves[k'].algs[h])
  {
    var t, k := Step(s, c), FirstOf(s.curves, id);
    SamePosition(s.curves, t.curves, id);
    match c
    case EnableCurve(other) =>
      if CurveId(other) && k == |s.curves| {
        assert t.curves[k] == Curve(other, NoFlags(HASH_ALG_MAX));
      }
    case AddHash(_) =>
      assert t.curves == s.curves;
    case AddCurveHash(other, _) =>
      assert |t.curves| == |s.curves|;
    case Register =>
      assert |t.curves| == |s.curves|;
  }

  /** A further call keeps that. */
  lemma HoldsNext(s: State, calls: seq<Call>, c: Call, id: nat, h: nat)
    requires Shaped(s) && Holds(s, calls, id, h)
    ensures Holds(Step(s, c), calls + [c], id, h)
  {
    EnablesNext(calls, c, id, h);
    ForCurveNext(calls, c, id, h);
    EntryNext(s, c, id, if h < HASH_ALG_MAX then h else 0);
    if ForCurve(calls, id, h) {
      CurveHashNeedsEnabling(calls, id, h);
    }
    assert h < HASH_ALG_MAX ==> (Step(s, c).universal[h] <==> s.universal[h] || (SingleHash(h) && c == AddHash(h)));
  }

  lemma {:induction false} ReplayHolds(calls: seq<Call>, id: nat, h: nat)
    ensures Holds(Replay(calls), calls, id, h)
  {
    if calls != [] {
      var n := |calls| - 1;
      ReplayHolds(calls[..n], id, h);
      HoldsNext(Replay(calls[..n]), calls[..n], calls[n], id, h);
      assert calls == calls[..n] + [calls[n]];
    }
  }

  /** The merge that opens a registration leaves exactly the flags that the calls asked for. */
  lemma MergeMeans(calls: seq<Call>, id: nat, h: nat)
    ensures var (s, k) := (Replay(calls), FirstOf(Replay(calls).curves, id));
      Meant(calls, id, h) <==> k < |s.curves| && h < HASH_ALG_MAX && Merge(s.curves, s.universal)[k].algs[h]
  {
    ReplayHolds(calls, id, h);
  }

  /** No call enables a curve that an earlier one enabled. */
  ghost predicate EnabledOnce(calls: seq<Call>) {
    forall i, j :: 0 <= i < j < |calls| && calls[i].EnableCurve? ==> calls[i] != calls[j]
  }

  ghost predicate DistinctCurves(list: seq<Curve>) {
    forall i, j :: 0 <= i < j < |list| ==> list[i].id != list[j].id
  }

  lemma {:induction false} OnceMeansDistinct(calls: seq<Call>)
    requires EnabledOnce(calls)
    ensures DistinctCurves(Replay(calls).curves)
  {
    if calls != [] {
      var n := |calls| - 1;
      var s := Replay(calls[..n]);
      OnceMeansDistinct(calls[..n]);
      if calls[n].EnableCurve? && CurveId(calls[n].id) {
        ReplayHolds(calls[..n], calls[n].id, 0);
        assert calls[n] !in calls[..n];
        assert FirstOf(s.curves, calls[n].id) == |s.curves|;
      }
    }
  }
}
