/**
 * What becomes of a curve that was enabled twice. Per-curve hash algorithms go to its first entry
 * only, so after the merge its later entries hold the universal ones; and the grouping may pick a
 * later entry. This module says exactly when that changes what is registered.
 */
module EcdsaDuplicates {
  import opened EcdsaSpec
  import opened EcdsaCalls

  /** As the setters and the merge leave a list: only first entries have flags of their own. */
  ghost predicate Reached(list: seq<Curve>, universal: Flags) {
    && (forall k :: 0 <= k < |list| ==> |list[k].algs| == |universal|)
    && (forall k :: 0 <= k < |list| && !FirstEntry(list, k) ==> list[k].algs == universal)
  }

  /** In every state of the capability, the merge that opens a registration leaves such a list. */
  lemma MergeReaches(list: seq<Curve>, universal: Flags)
    requires ValidCurves(list) && |universal| == HASH_ALG_MAX + 1 && LaterPlain(list, universal)
    ensures Reached(Merge(list, universal), universal[..HASH_ALG_MAX])
  {
    var merged := Merge(list, universal);
    AllFirstEntriesKept(list, merged);
    forall k | 0 <= k < |merged| && !FirstEntry(merged, k)
      ensures merged[k].algs == universal[..HASH_ALG_MAX]
    {
      assert forall h :: 0 <= h < HASH_ALG_MAX && list[k].algs[h] ==> universal[h];
    }
  }

  /** The flags that the calls gave to a curve. */
  ghost predicate Intended(list: seq<Curve>, id: nat, h: nat) {
    var k := FirstOf(list, id);
    k < |list| && h < |list[k].algs| && list[k].algs[h]
  }

  ghost predicate Preserved(list: seq<Curve>) {
    forall id: nat, h: nat :: Says(Grouping(list, {}), id, h) <==> Intended(list, id, h)
  }

  /** Entry `l` opens the universal group before any entry with the flags of entry `a`, which recurs. */
  ghost predicate Swallows(list: seq<Curve>, universal: Flags, l: nat, a: nat)
    requires l < a < |list|
  {
    && FirstEntry(list, l) && FirstEntry(list, a)
    && list[l].algs == universal != list[a].algs
    && Recurs(list, a)
    && forall k :: 0 <= k < l && FirstEntry(list, k) ==> list[k].algs != list[a].algs
  }

  ghost predicate Lossy(list: seq<Curve>, universal: Flags) {
    exists l: nat, a: nat :: l < a < |list| && Swallows(list, universal, l, a)
  }

  /** The flags of the first group that takes curve `id`. */
  ghost function Capture(list: seq<Curve>, tracked: set<nat>, id: nat): Flags
    requires id in AllIds(list) && id !in tracked
  {
    AllIdsTail(list);
    if list[0].id in tracked then Capture(list[1..], tracked, id)
    else if list[0].id == id || On(list[1..], id, list[0].algs) then list[0].algs
    else
      var ids := [list[0].id] + Members(list[1..], list[0].algs, tracked + {list[0].id});
      MembersFacts(list[1..], list[0].algs, tracked + {list[0].id});
      IdsIn(ids);
      Capture(list[1..], tracked + Ids(ids), id)
  }

  lemma {:induction false} CaptureIsGroup(list: seq<Curve>, tracked: set<nat>, id: nat)
    requires id in AllIds(list) && id !in tracked
    ensures exists g ::
      0 <= g < |Grouping(list, tracked)| && id in Grouping(list, tracked)[g].ids &&
      Grouping(list, tracked)[g].algs == Capture(list, tracked, id)
  {
    AllIdsTail(list);
    var groups := Grouping(list, tracked);
    if list[0].id in tracked {
      CaptureIsGroup(list[1..], tracked, id);
    } else {
      var ids := [list[0].id] + Members(list[1..], list[0].algs, tracked + {list[0].id});
      MembersFacts(list[1..], list[0].algs, tracked + {list[0].id});
      IdsIn(ids);
      if list[0].id == id || On(list[1..], id, list[0].algs) {
        assert id in groups[0].ids;
      } else {
        var rest := Grouping(list[1..], tracked + Ids(ids));
        CaptureIsGroup(list[1..], tracked + Ids(ids), id);
        var g :| 0 <= g < |rest| && id in rest[g].ids && rest[g].algs == Capture(list[1..], tracked + Ids(ids), id);
        assert groups[g + 1] == rest[g];
      }
    }
  }

  /** A curve in two groups is emitted twice. */
  lemma {:induction false} InTwoGroups(groups: seq<Group>, i: nat, j: nat, id: nat)
    requires i < j < |groups| && id in groups[i].ids && id in groups[j].ids
    ensures !NoRepeats(Emitted(groups))
  {
    var head, tail := groups[0].ids, groups[1..];
    var e := Emitted(groups);
    assert e == head + Emitted(tail);
    if i == 0 {
      EmittedIn(tail, id);
      assert id in tail[j - 1].ids;
      var a :| 0 <= a < |head| && head[a] == id;
      var b :| 0 <= b < |Emitted(tail)| && Emitted(tail)[b] == id;
      assert e[a] == e[|head| + b];
    } else {
      InTwoGroups(tail, i - 1, j - 1, id);
      var x, y :| 0 <= x < y < |Emitted(tail)| && Emitted(tail)[x] == Emitted(tail)[y];
      assert e[|head| + x] == e[|head| + y];
    }
  }

  /** What is said of a curve is what its capturing group holds. */
  lemma SaysIsCapture(list: seq<Curve>, id: nat, h: nat)
    ensures Says(Grouping(list, {}), id, h) <==>
      id in AllIds(list) && h < |Capture(list, {}, id)| && Capture(list, {}, id)[h]
  {
    var groups := Grouping(list, {});
    GroupingCovers(list, {});
    EmittedIn(groups, id);
    if id in AllIds(list) {
      CaptureIsGroup(list, {}, id);
      var g :| 0 <= g < |groups| && id in groups[g].ids && groups[g].algs == Capture(list, {}, id);
      forall m | 0 <= m < |groups| && id in groups[m].ids
        ensures m == g
      {
        if m < g {
          InTwoGroups(groups, m, g, id);
        } else if g < m {
          InTwoGroups(groups, g, m, id);
        }
      }
    }
  }

  // ---- who captures a curve ------------------------------------------------

  /** The curves with an entry that holds `algs`. */
  ghost function Holders(list: seq<Curve>, algs: Flags): set<nat> {
    if list == [] then {}
    else Holders(list[1..], algs) + if list[0].algs == algs then {list[0].id} else {}
  }

  lemma {:induction false} HoldersOn(list: seq<Curve>, algs: Flags, id: nat)
    ensures id in Holders(list, algs) <==> On(list, id, algs)
  {
    if list != [] {
      HoldersOn(list[1..], algs, id);
      OnTail(list, id, algs);
    }
  }

  /** The curves that the leaders among the first `q` entries could take. */
  ghost function Led(list: seq<Curve>, q: nat): set<nat>
    requires q <= |list|
  {
    if q == 0 then {}
    else Led(list, q - 1) + if FirstEntry(list, q - 1) then Holders(list, list[q - 1].algs) else {}
  }

  /** After the first `q` entries: they are all accounted for, and whoever is was taken by one of them. */
  ghost predicate Walked(list: seq<Curve>, q: nat, tracked: set<nat>)
    requires q <= |list|
  {
    (forall k :: 0 <= k < q ==> list[k].id in tracked) && tracked <= Led(list, q)
  }

  ghost predicate Recurs(list: seq<Curve>, a: nat)
    requires a < |list|
  {
    exists b :: a < b < |list| && list[b].id == list[a].id
  }

  /** No first entry ahead of `p` holds `algs` or the universal flags. */
  ghost predicate NoneAhead(list: seq<Curve>, universal: Flags, algs: Flags, p: nat)
    requires p <= |list|
  {
    forall k :: 0 <= k < p && FirstEntry(list, k) ==> list[k].algs != universal && list[k].algs != algs
  }

  /** Entry `p` captures the curve of entry `a`: it is the first rival, and finds the curve behind it. */
  ghost predicate Captor(list: seq<Curve>, universal: Flags, a: nat, p: nat) {
    && p <= a < |list| && FirstEntry(list, a) && FirstEntry(list, p)
    && NoneAhead(list, universal, list[a].algs, p)
    && (list[p].algs == list[a].algs || (list[p].algs == universal && Recurs(list, a)))
  }

  /** Capture by the entry at the head. */
  lemma CaptureHere(list: seq<Curve>, q: nat, tail: seq<Curve>, tracked: set<nat>, id: nat)
    requires q < |list| && tail == list[q + 1..] && id !in tracked && list[q].id !in tracked
    requires list[q].id == id || On(tail, id, list[q].algs)
    ensures id in AllIds(list[q..]) && Capture(list[q..], tracked, id) == list[q].algs
  {
    assert list[q..][0] == list[q] && list[q..][1..] == tail;
    AllIdsTail(list[q..]);
  }

  /** An entry that is accounted for does not matter. */
  lemma CaptureSkips(list: seq<Curve>, q: nat, tail: seq<Curve>, tracked: set<nat>, id: nat)
    requires q < |list| && tail == list[q + 1..] && id !in tracked && list[q].id in tracked && id in AllIds(tail)
    ensures id in AllIds(list[q..]) && Capture(list[q..], tracked, id) == Capture(tail, tracked, id)
  {
    assert list[q..][0] == list[q] && list[q..][1..] == tail;
    AllIdsTail(list[q..]);
  }

  /** A leader that does not find the curve behind it passes it on. */
  lemma CapturePasses(list: seq<Curve>, q: nat, tail: seq<Curve>, tracked: set<nat>, id: nat, ids: seq<nat>)
    requires q < |list| && tail == list[q + 1..] && id !in tracked && list[q].id !in tracked
    requires list[q].id != id && !On(tail, id, list[q].algs) && id in AllIds(tail)
    requires ids == [list[q].id] + Members(tail, list[q].algs, tracked + {list[q].id})
    ensures id !in tracked + Ids(ids) && id in AllIds(list[q..])
    ensures Capture(list[q..], tracked, id) == Capture(tail, tracked + Ids(ids), id)
  {
    assert list[q..][0] == list[q] && list[q..][1..] == tail;
    AllIdsTail(list[q..]);
    NotCollected(list[q], tail, tracked, id, ids);
  }

  lemma NotCollected(head: Curve, tail: seq<Curve>, tracked: set<nat>, id: nat, ids: seq<nat>)
    requires id !in tracked && head.id != id && !On(tail, id, head.algs)
    requires ids == [head.id] + Members(tail, head.algs, tracked + {head.id})
    ensures id !in tracked + Ids(ids)
  {
    MembersFacts(tail, head.algs, tracked + {head.id});
    IdsIn(ids);
    assert forall t :: t in ids ==> t == head.id || t in ids[1..];
  }

  /** The leader that captures curve `a` is the first entry holding its own flags, or the universal ones. */
  lemma {:induction false} CapturedBy(list: seq<Curve>, universal: Flags, a: nat, p: nat, q: nat, tracked: set<nat>)
    requires Reached(list, universal) && q <= p && Captor(list, universal, a, p)
    requires Walked(list, q, tracked) && list[a].id !in tracked
    ensures list[a].id in AllIds(list[q..]) && Capture(list[q..], tracked, list[a].id) == list[p].algs
    decreases p - q
  {
    var id, tail := list[a].id, list[q + 1..];
    if q == p {
      CapturedAt(list, universal, a, p, tracked);
    } else if list[q].id in tracked {
      WalkedPast(list, q, tracked);
      CapturedBy(list, universal, a, p, q + 1, tracked);
      CaptureSkips(list, q, tail, tracked, id);
    } else {
      var ids := PassedOver(list, universal, a, p, q, tail, tracked);
      CapturedBy(list, universal, a, p, q + 1, tracked + Ids(ids));
      CapturePasses(list, q, tail, tracked, id, ids);
    }
  }

  /** The captor itself. */
  lemma CapturedAt(list: seq<Curve>, universal: Flags, a: nat, p: nat, tracked: set<nat>)
    requires Reached(list, universal) && Captor(list, universal, a, p)
    requires Walked(list, p, tracked) && list[a].id !in tracked
    ensures list[a].id in AllIds(list[p..]) && Capture(list[p..], tracked, list[a].id) == list[p].algs
  {
    NotLed(list, universal, a, p, p);
    FoundBehind(list, universal, a, p);
    CaptureHere(list, p, list[p + 1..], tracked, list[a].id);
  }

  /** An untracked entry ahead of the captor leads a group of its own, without the curve. */
  lemma PassedOver(list: seq<Curve>, universal: Flags, a: nat, p: nat, q: nat, tail: seq<Curve>, tracked: set<nat>)
    returns (ids: seq<nat>)
    requires Reached(list, universal) && Captor(list, universal, a, p) && q < p && tail == list[q + 1..]
    requires Walked(list, q, tracked) && list[q].id !in tracked && list[a].id !in tracked
    ensures ids == [list[q].id] + Members(tail, list[q].algs, tracked + {list[q].id})
    ensures list[q].id != list[a].id && !On(tail, list[a].id, list[q].algs)
    ensures Walked(list, q + 1, tracked + Ids(ids)) && list[a].id !in tracked + Ids(ids)
  {
    ids := [list[q].id] + Members(tail, list[q].algs, tracked + {list[q].id});
    NextLeads(list, q, tracked);
    WalkedOn(list, q, tracked, ids);
    NotFoundBehind(list, universal, a, p, q);
    NotCollected(list[q], tail, tracked, list[a].id, ids);
  }

  /** The captor holds the curve itself, or finds it with its own flags. */
  lemma FoundBehind(list: seq<Curve>, universal: Flags, a: nat, p: nat)
    requires Reached(list, universal) && Captor(list, universal, a, p)
    ensures list[p].id == list[a].id || On(list[p + 1..], list[a].id, list[p].algs)
  {
    if list[p].id != list[a].id {
      var b := a;
      if list[p].algs != list[a].algs {
        b := OtherEntry(list, universal, a);
      }
      assert list[p + 1..][b - p - 1] == Curve(list[a].id, list[p].algs);
    }
  }

  /** An earlier leader does not. */
  lemma NotFoundBehind(list: seq<Curve>, universal: Flags, a: nat, p: nat, q: nat)
    requires Reached(list, universal) && Captor(list, universal, a, p) && q < p && FirstEntry(list, q)
    ensures list[q].id != list[a].id && !On(list[q + 1..], list[a].id, list[q].algs)
  {
    EntriesOf(list, universal, a);
    if On(list[q + 1..], list[a].id, list[q].algs) {
      OnLater(list, q + 1, list[a].id, list[q].algs);
    }
  }

  /** An entry that is not accounted for is the first one of its curve. */
  lemma NextLeads(list: seq<Curve>, q: nat, tracked: set<nat>)
    requires q < |list| && Walked(list, q, tracked) && list[q].id !in tracked
    ensures FirstEntry(list, q)
  {
  }

  /** A later entry of a curve, holding the universal flags. */
  lemma OtherEntry(list: seq<Curve>, universal: Flags, a: nat) returns (b: nat)
    requires Reached(list, universal) && a < |list| && Recurs(list, a)
    ensures a < b < |list| && list[b] == Curve(list[a].id, universal)
  {
    b :| a < b < |list| && list[b].id == list[a].id;
    assert !FirstEntry(list, b);
  }

  /** The entries of a curve hold its own flags or the universal ones. */
  lemma EntriesOf(list: seq<Curve>, universal: Flags, a: nat)
    requires Reached(list, universal) && a < |list| && FirstEntry(list, a)
    ensures forall algs :: On(list, list[a].id, algs) ==> algs == list[a].algs || algs == universal
  {
    forall m | 0 <= m < |list| && list[m].id == list[a].id
      ensures list[m].algs == list[a].algs || list[m].algs == universal
    {
      assert m == a || !FirstEntry(list, m);
    }
  }

  /** Nobody ahead of the captor has taken its curve. */
  lemma {:induction false} NotLed(list: seq<Curve>, universal: Flags, a: nat, p: nat, n: nat)
    requires Reached(list, universal) && Captor(list, universal, a, p) && n <= p
    ensures list[p].id !in Led(list, n)
  {
    if n > 0 {
      NotLed(list, universal, a, p, n - 1);
      EntriesOf(list, universal, p);
      HoldersOn(list, list[n - 1].algs, list[p].id);
    }
  }

  lemma WalkedPast(list: seq<Curve>, q: nat, tracked: set<nat>)
    requires q < |list| && Walked(list, q, tracked) && list[q].id in tracked
    ensures Walked(list, q + 1, tracked)
  {
    assert Led(list, q) <= Led(list, q + 1);
  }

  lemma OnLater(list: seq<Curve>, q: nat, id: nat, algs: Flags)
    requires q <= |list| && On(list[q..], id, algs)
    ensures On(list, id, algs)
  {
    var m :| 0 <= m < |list[q..]| && list[q..][m] == Curve(id, algs);
    assert list[q + m] == Curve(id, algs);
  }

  lemma WalkedOn(list: seq<Curve>, q: nat, tracked: set<nat>, ids: seq<nat>)
    requires q < |list| && Walked(list, q, tracked) && FirstEntry(list, q)
    requires ids == [list[q].id] + Members(list[q + 1..], list[q].algs, tracked + {list[q].id})
    ensures Walked(list, q + 1, tracked + Ids(ids))
  {
    IdsIn(ids);
    assert list[q].id in ids;
    forall t | t in ids
      ensures t in Holders(list, list[q].algs)
    {
      CollectedHolds(list, q, tracked, ids, t);
    }
    assert Led(list, q + 1) == Led(list, q) + Holders(list, list[q].algs);
  }

  lemma CollectedHolds(list: seq<Curve>, q: nat, tracked: set<nat>, ids: seq<nat>, t: nat)
    requires q < |list| && t in ids
    requires ids == [list[q].id] + Members(list[q + 1..], list[q].algs, tracked + {list[q].id})
    ensures t in Holders(list, list[q].algs)
  {
    var head, tail := list[q], list[q + 1..];
    if t == head.id {
      assert list[q] == Curve(t, head.algs);
    } else {
      assert t in ids[1..];
      MembersFacts(tail, head.algs, tracked + {head.id});
      assert On(tail, t, head.algs);
      OnLater(list, q + 1, t, head.algs);
    }
    HoldersOn(list, head.algs, t);
  }

  // ---- the exact condition -------------------------------------------------

  /** The first of the first entries that hold the flags of entry `a` or the universal ones. */
  lemma {:induction false} FirstRival(list: seq<Curve>, universal: Flags, a: nat, n: nat) returns (p: nat)
    requires n <= a < |list| && FirstEntry(list, a) && NoneAhead(list, universal, list[a].algs, n)
    ensures n <= p <= a && FirstEntry(list, p) && (list[p].algs == universal || list[p].algs == list[a].algs)
    ensures NoneAhead(list, universal, list[a].algs, p)
    decreases a - n
  {
    if FirstEntry(list, n) && (list[n].algs == universal || list[n].algs == list[a].algs) {
      p := n;
    } else {
      p := FirstRival(list, universal, a, n + 1);
    }
  }

  /** A curve is captured with flags of one of its entries. */
  lemma CaptureOn(list: seq<Curve>, id: nat)
    requires id in AllIds(list)
    ensures On(list, id, Capture(list, {}, id))
  {
    CaptureIsGroup(list, {}, id);
    GroupingCovers(list, {});
  }

  /** Where nothing is swallowed, a curve is captured with its own flags. */
  lemma KeepsOwnFlags(list: seq<Curve>, universal: Flags, a: nat)
    requires Reached(list, universal) && !Lossy(list, universal) && a < |list| && FirstEntry(list, a)
    requires list[a].id in AllIds(list)
    ensures Capture(list, {}, list[a].id) == list[a].algs
  {
    CaptureOn(list, list[a].id);
    if Recurs(list, a) && list[a].algs != universal {
      var p := FirstRival(list, universal, a, 0);
      assert list[p].algs == universal ==> Swallows(list, universal, p, a);
      assert list[0..] == list;
      CapturedBy(list, universal, a, p, 0, {});
    } else if !Recurs(list, a) {
      OnlyEntry(list, a, Capture(list, {}, list[a].id));
    } else {
      EntriesOf(list, universal, a);
    }
  }

  lemma OnlyEntry(list: seq<Curve>, a: nat, algs: Flags)
    requires a < |list| && FirstEntry(list, a) && !Recurs(list, a) && On(list, list[a].id, algs)
    ensures algs == list[a].algs
  {
    var m :| 0 <= m < |list| && list[m] == Curve(list[a].id, algs);
    assert m >= a;
  }

  /** A swallowed curve is captured with the universal flags. */
  lemma LosesOwnFlags(list: seq<Curve>, universal: Flags, l: nat, a: nat)
    requires Reached(list, universal) && l < a < |list| && Swallows(list, universal, l, a)
    requires list[a].id in AllIds(list)
    ensures Capture(list, {}, list[a].id) == universal
  {
    var p := FirstRival(list, universal, a, 0);
    assert p <= l;
    assert list[0..] == list;
    CapturedBy(list, universal, a, p, 0, {});
  }

  lemma FlagsDiffer(a: Flags, b: Flags) returns (h: nat)
    requires |a| == |b| && a != b
    ensures h < |a| && a[h] != b[h]
  {
    h :| h < |a| && a[h] != b[h];
  }

  /**
   * The registration says exactly what the calls meant, if and only if no curve that was enabled
   * again, with hash algorithms of its own, comes behind the first curve with only the universal
   * ones while no curve ahead of that shares its hash set.
   */
  lemma PreservedExactly(list: seq<Curve>, universal: Flags)
    requires Reached(list, universal)
    ensures Preserved(list) <==> !Lossy(list, universal)
  {
    if Lossy(list, universal) {
      var l: nat, a: nat :| l < a < |list| && Swallows(list, universal, l, a);
      var id := list[a].id;
      assert id in AllIds(list);
      LosesOwnFlags(list, universal, l, a);
      var h := FlagsDiffer(universal, list[a].algs);
      SaysIsCapture(list, id, h);
      assert Says(Grouping(list, {}), id, h) != Intended(list, id, h);
    } else {
      forall id: nat, h: nat
        ensures Says(Grouping(list, {}), id, h) <==> Intended(list, id, h)
      {
        SaysIsCapture(list, id, h);
        var a := FirstOf(list, id);
        if a < |list| {
          assert id in AllIds(list);
          KeepsOwnFlags(list, universal, a);
        }
      }
    }
  }

  /** When no curve was enabled twice, nothing can be swallowed. */
  lemma DistinctNotLossy(list: seq<Curve>, universal: Flags)
    requires DistinctCurves(list)
    ensures !Lossy(list, universal)
  {
  }

  /** The curves of a registration behind the calls, after the merge that opens it. */
  function Merged(calls: seq<Call>): seq<Curve> {
    Merge(Replay(calls).curves, Replay(calls).universal)
  }

  /** What the objects say of every curve and hash is what the calls asked for. */
  ghost predicate SayMeant(groups: seq<Group>, calls: seq<Call>) {
    forall id: nat, h: nat :: Says(groups, id, h) <==> Meant(calls, id, h)
  }

  ghost predicate SaysWhatWasMeant(calls: seq<Call>) {
    SayMeant(Grouping(Merged(calls), {}), calls)
  }

  lemma IntendedIsMeant(calls: seq<Call>, id: nat, h: nat)
    ensures Intended(Merged(calls), id, h) <==> Meant(calls, id, h)
  {
    MergeMeans(calls, id, h);
    SamePosition(Replay(calls).curves, Merged(calls), id);
  }

  /**
   * After any calls, other registrations among them, a curve and a hash are registered together
   * exactly when the curve was enabled and some call set the hash for it after that, or for all
   * curves, if and only if no curve with hash algorithms of its own is swallowed.
   */
  lemma RegistrationMeans(calls: seq<Call>)
    ensures SaysWhatWasMeant(calls) <==> !Lossy(Merged(calls), Replay(calls).universal[..HASH_ALG_MAX])
  {
    var list, universal := Merged(calls), Replay(calls).universal[..HASH_ALG_MAX];
    AlwaysPlain(calls);
    MergeReaches(Replay(calls).curves, Replay(calls).universal);
    PreservedExactly(list, universal);
    forall id: nat, h: nat
      ensures Intended(list, id, h) <==> Meant(calls, id, h)
    {
      IntendedIsMeant(calls, id, h);
    }
  }

  /** With each curve enabled by one call at most, the registration always says what was meant. */
  lemma EnabledOnceSuffices(calls: seq<Call>)
    requires EnabledOnce(calls)
    ensures SaysWhatWasMeant(calls)
  {
    OnceMeansDistinct(calls);
    DistinctNotLossy(Merged(calls), Replay(calls).universal[..HASH_ALG_MAX]);
    RegistrationMeans(calls);
  }
}
