/** The collection of test results in src/amvp.c, with its list of failed vector sets already named. */
module Results {
  import opened Options
  import opened Server
  import opened Retry

  /** AMVP_RETRY_TIME */
  const RETRY_TIME := 30

  datatype Rv = Success | NoCtx | MissingArg | InvalidArg | JsonErr | TransportFail | UnsupportedOp | Failed

  // ---- string lists --------------------------------------------------------

  function Clip(s: string): string {
    if |s| <= STRING_LIST_MAX_LEN then s else s[..STRING_LIST_MAX_LEN]
  }

  /** The comparison of amvp_lookup_str_list: over the shorter length, and never for an empty string. */
  predicate Similar(t: string, s: string) {
    t != "" && s != "" && (t <= s || s <= t)
  }

  predicate Known(list: seq<string>, s: Option<string>) {
    s.Some? && exists k :: 0 <= k < |list| && Similar(list[k], Clip(s.value))
  }

  /** amvp_lookup_str_list */
  method Lookup(list: seq<string>, s: Option<string>) returns (found: bool)
    ensures found == Known(list, s)
  {
    if s.None? {
      return false;
    }
    var t := Clip(s.value);
    for k := 0 to |list|
      invariant forall m :: 0 <= m < k ==> !Similar(list[m], t)
    {
      var minLen := if |list[k]| < |t| then |list[k]| else |t|;
      if minLen > 0 && list[k][..minLen] == t[..minLen] {
        assert Similar(list[k], t);
        return true;
      }
      assert !Similar(list[k], t);
    }
    return false;
  }

  /** Two sets one of whose URLs is a prefix of the other are taken for one, so the second is never named. */
  lemma PrefixUrlsConfused(short: Url, long: Url)
    requires short != "" && short <= long && |long| <= STRING_LIST_MAX_LEN
    ensures Known([Clip(short)], Some(long)) && Known([Clip(long)], Some(short))
  {
    assert Similar([Clip(short)][0], Clip(long)) && Similar([Clip(long)][0], Clip(short));
  }

  // ---- which failed sets are looked up -------------------------------------

  function Clips(urls: seq<Url>): (r: seq<string>)
    ensures |r| == |urls| && forall k :: 0 <= k < |urls| ==> r[k] == Clip(urls[k])
  {
    seq(|urls|, k requires 0 <= k < |urls| => Clip(urls[k]))
  }

  /** The URLs of the failed sets that a scan of the results reaches. */
  function FailedUrls(entries: seq<Entry>): seq<Url> {
    if entries == [] then []
    else
      var e := entries[0];
      if e.status.None? || e.status.value in {"expired", "unreceived"} then []
      else if e.status.value != "fail" then FailedUrls(entries[1..])
      else if e.url.None? then []
      else [e.url.value] + FailedUrls(entries[1..])
  }

  /** The same over all results that were fetched. */
  function Failures(h: History): seq<Url> {
    if h == [] then []
    else
      var e := h[|h| - 1];
      Failures(h[..|h| - 1]) + if e.GotResults? && e.reply.Results? then FailedUrls(Entries(e.reply)) else []
  }

  /** Those of `urls` that are similar to nothing on the list when their turn comes, where they are added to it. */
  ghost function Fresh(vs: seq<string>, urls: seq<Url>): seq<Url>
    decreases urls
  {
    if urls == [] then []
    else if Known(vs, Some(urls[0])) then Fresh(vs, urls[1..])
    else [urls[0]] + Fresh(vs + [Clip(urls[0])], urls[1..])
  }

  lemma FreshOne(vs: seq<string>, url: Url)
    ensures Fresh(vs, [url]) == if Known(vs, Some(url)) then [] else [url]
  {
    assert Fresh(vs + [Clip(url)], []) == [] && [url][1..] == [];
  }

  lemma {:induction false} FreshSplit(vs: seq<string>, a: seq<Url>, b: seq<Url>)
    ensures Fresh(vs, a + b) == Fresh(vs, a) + Fresh(vs + Clips(Fresh(vs, a)), b)
    decreases a
  {
    if a == [] {
      assert a + b == b && vs + Clips([]) == vs;
    } else {
      var u, rest := a[0], a[1..];
      assert (a + b)[0] == u && (a + b)[1..] == rest + b;
      if Known(vs, Some(u)) {
        FreshSplit(vs, rest, b);
      } else {
        var next := vs + [Clip(u)];
        FreshSplit(next, rest, b);
        assert vs + Clips([u] + Fresh(next, rest)) == next + Clips(Fresh(next, rest));
      }
    }
  }

  /** Of the URLs looked up, none is similar to an earlier one or to one on the list. */
  lemma {:induction false} FreshApart(vs: seq<string>, urls: seq<Url>, j: nat)
    requires j < |Fresh(vs, urls)|
    ensures !Known(vs, Some(Fresh(vs, urls)[j]))
    ensures forall i :: 0 <= i < j ==> !Similar(Clip(Fresh(vs, urls)[i]), Clip(Fresh(vs, urls)[j]))
    decreases urls
  {
    var u, rest := urls[0], urls[1..];
    if Known(vs, Some(u)) {
      FreshApart(vs, rest, j);
    } else if j > 0 {
      var next := vs + [Clip(u)];
      FreshApart(next, rest, j - 1);
      assert next[|vs|] == Clip(u);
      assert forall k :: 0 <= k < |vs| ==> next[k] == vs[k];
    }
  }

  /** Every URL that is not empty is on the list or similar to one of those looked up. */
  lemma {:induction false} FreshCovers(vs: seq<string>, urls: seq<Url>, u: Url)
    requires u in urls && u != ""
    ensures Known(vs + Clips(Fresh(vs, urls)), Some(u))
    decreases urls
  {
    var first, rest := urls[0], urls[1..];
    if Known(vs, Some(u)) {
      KnownLonger(vs, Clips(Fresh(vs, urls)), u);
    } else if Known(vs, Some(first)) {
      FreshCovers(vs, rest, u);
    } else {
      var next := vs + [Clip(first)];
      var more := Clips(Fresh(next, rest));
      assert vs + Clips(Fresh(vs, urls)) == next + more;
      if u == first {
        assert Similar(next[|vs|], Clip(u));
        KnownLonger(next, more, u);
      } else {
        FreshCovers(next, rest, u);
      }
    }
  }

  lemma KnownLonger(vs: seq<string>, more: seq<string>, u: Url)
    requires Known(vs, Some(u))
    ensures Known(vs + more, Some(u))
  {
    var k :| 0 <= k < |vs| && Similar(vs[k], Clip(u));
    assert Similar((vs + more)[k], Clip(u));
  }

  /** The empty URL is never known: its set is downloaded again each time a scan reaches it. */
  lemma {:induction false} EmptyLookedAgain(vs: seq<string>, urls: seq<Url>)
    ensures multiset(Fresh(vs, urls))[""] == multiset(urls)[""]
    decreases urls
  {
    if urls != [] {
      var u, rest := urls[0], urls[1..];
      assert urls == [u] + rest;
      EmptyLookedAgain(vs, rest);
      EmptyLookedAgain(vs + [Clip(u)], rest);
    }
  }

  /** Events that fetch no results leave the failures as they are. */
  lemma {:induction false} NoNewFailures(h: History, g: History)
    requires forall k :: 0 <= k < |g| ==> !g[k].GotResults?
    ensures Failures(h + g) == Failures(h)
  {
    if g == [] {
      assert h + g == h;
    } else {
      var front, last := g[..|g| - 1], g[|g| - 1];
      NoNewFailures(h, front);
      assert (h + g)[..|h + g| - 1] == h + front && (h + g)[|h + g| - 1] == last && !last.GotResults?;
      assert Failures(h + g) == Failures(h + front) + [];
    }
  }

  // ---- the failures seen so far --------------------------------------------

  class FailureLog {
    var vs: seq<string>       // failedVsList
    var algs: seq<string>     // failedAlgList
    var modes: seq<string>    // failedModeList
    var mode: Option<string>  // the last mode read, kept from set to set (see the README)
    ghost var looked: seq<Url>

    constructor ()
      ensures Valid() && looked == []
    {
      vs, algs, modes, mode, looked := [], [], [], None, [];
    }

    ghost predicate Valid()
      reads this
    {
      && |algs| == |modes|
      && vs == Clips(looked)
      && forall i, j :: 0 <= i < j < |vs| ==> !Similar(vs[i], vs[j])
    }

    /**
     * Name the algorithm of a failed set, unless it was downloaded before. `rv0` is the result so
     * far, which a set that is known leaves alone.
     */
    method Name(wire: Wire, url: Url, rv0: Rv) returns (counted: bool, rv: Rv)
      requires Valid()
      modifies this, wire
      ensures Valid()
      ensures url != "" ==> Known(vs, Some(url))
      ensures Known(old(vs), Some(url)) ==>
        && counted && rv == rv0 && looked == old(looked) && wire.history == old(wire.history)
        && algs == old(algs) && modes == old(modes) && mode == old(mode)
      ensures !Known(old(vs), Some(url)) ==>
        var info := wire.server.info(old(wire.history), url);
        && looked == old(looked) + [url] && wire.history == old(wire.history) + [LookedUp(url)]
        && Lookups(wire.history) == Lookups(old(wire.history)) + [url]
        && (counted <==> info.Info? && info.alg.Some?) && (rv == Failed <==> info.NoInfo?)
        && Noted(info, old(algs), old(modes), old(mode), algs, modes, mode)
      ensures rv in {rv0, Success, Failed} && (counted ==> rv == rv0 || rv == Success)
    {
      counted, rv := true, rv0;
      var known := Lookup(vs, Some(url));
      if known {
        return;
      }
      Remember(url);
      counted, rv := Inquire(wire, url);
    }

    /** Download a failed set and name its algorithm, unless the reply lacks it. */
    method Inquire(wire: Wire, url: Url) returns (counted: bool, rv: Rv)
      requires |algs| == |modes|
      modifies this`algs, this`modes, this`mode, wire
      ensures |algs| == |modes|
      ensures wire.history == old(wire.history) + [LookedUp(url)]
      ensures Lookups(wire.history) == Lookups(old(wire.history)) + [url]
      ensures rv == Success || (rv == Failed && !counted)
      ensures var info := wire.server.info(old(wire.history), url);
        && (rv == Failed <==> info.NoInfo?)
        && (counted <==> info.Info? && info.alg.Some?)
        && Noted(info, old(algs), old(modes), old(mode), algs, modes, mode)
    {
      var info := wire.server.info(wire.history, url);
      wire.Log(LookedUp(url));
      counted, rv := true, Success;
      match info {
        case NoInfo => counted, rv := false, Failed;
        case InfoNotJson | InfoNoObject => counted := false;
        case Info(None, _) => counted := false;
        case Info(Some(alg), m) =>
          if m.Some? {
            mode := m;
          }
          NameAlgorithm(alg);
      }
    }

    method Remember(url: Url)
      requires Valid() && !Known(vs, Some(url))
      modifies this`vs, this`looked
      ensures Valid() && looked == old(looked) + [url] && vs == old(vs) + [Clip(url)]
      ensures url != "" ==> Known(vs, Some(url))
    {
      assert forall k :: 0 <= k < |vs| ==> !Similar(vs[k], Clip(url));
      vs, looked := vs + [Clip(url)], looked + [url];
      assert url != "" ==> Similar(vs[|vs| - 1], Clip(url));
    }

    /** Both lists grow together, so that the n-th mode belongs to the n-th algorithm. */
    method NameAlgorithm(alg: string)
      requires |algs| == |modes|
      modifies this`algs, this`modes
      ensures |algs| == |modes| && Named(old(algs), old(modes), algs, modes, alg, mode)
    {
      var algKnown := Lookup(algs, Some(alg));
      var modeKnown := Lookup(modes, mode);
      if !algKnown || !modeKnown {
        algs := algs + [Clip(alg)];
        modes := modes + [if mode.Some? then Clip(mode.value) else ""];
      }
    }

    /** No vector set is downloaded twice, whatever the number of rounds, unless its URL is empty. */
    lemma LookedOnce(i: nat, j: nat)
      requires Valid() && i < j < |looked|
      ensures !Similar(Clip(looked[i]), Clip(looked[j])) && (looked[i] == looked[j] ==> looked[i] == "")
    {
      assert !Similar(vs[i], vs[j]);
    }
  }

  /** What a reply about a failed set makes of the lists: nothing, when it lacks the algorithm. */
  ghost predicate Noted(info: SetInfo, algs: seq<string>, modes: seq<string>, mode: Option<string>,
                        algs': seq<string>, modes': seq<string>, mode': Option<string>) {
    if info.Info? && info.alg.Some? then
      && mode' == (if info.mode.Some? then info.mode else mode)
      && Named(algs, modes, algs', modes', info.alg.value, mode')
    else
      algs' == algs && modes' == modes && mode' == mode
  }

  /** Algorithm and mode were appended, each clipped and an absent mode as "", unless both were known. */
  ghost predicate Named(algs: seq<string>, modes: seq<string>, algs': seq<string>, modes': seq<string>,
                        alg: string, mode: Option<string>) {
    if Known(algs, Some(alg)) && Known(modes, mode) then algs' == algs && modes' == modes
    else algs' == algs + [Clip(alg)] && modes' == modes + [if mode.Some? then Clip(mode.value) else ""]
  }

  // ---- one round over the reply --------------------------------------------

  /** Only such events happen while failed sets are being named. */
  predicate OnlyLookups(h: History) {
    forall k :: 0 <= k < |h| ==> h[k].LookedUp?
  }

  /** Everything a polling loop over results may do to the history. */
  predicate OnlyResults(h: History) {
    forall k :: 0 <= k < |h| ==> h[k].LookedUp? || h[k].GotResults? || h[k].Detailed?
  }

  /** What an entry adds to the failures. */
  function FailedUrl(e: Entry): seq<Url> {
    if e.status == Some("fail") && e.url.Some? then [e.url.value] else []
  }

  /** How the scan goes on after an entry; `Skip` and `Count` go on to the next one. */
  datatype Turn = Stop | Break | Skip | Count

  predicate Stops(e: Entry) {
    e.status.None? || e.status.value in {"expired", "unreceived"}
  }

  predicate Breaks(e: Entry) {
    e.status == Some("fail") && e.url.None?
  }

  /** Since the history `h0` only lookups happened, of what was appended to `looked0`. */
  ghost predicate Looking(h: History, h0: History, looked0: seq<Url>, looked: seq<Url>) {
    && h0 <= h && OnlyLookups(h[|h0|..])
    && looked0 <= looked && Lookups(h) == Lookups(h0) + looked[|looked0|..]
  }

  /** The same, up to entry `i`. */
  ghost predicate ScannedTo(h: History, h0: History, looked0: seq<Url>, looked: seq<Url>, entries: seq<Entry>, i: nat)
    requires i <= |entries|
  {
    && Looking(h, h0, looked0, looked)
    && Outlook(looked0, entries) == Outlook(looked, entries[i..])
  }

  /** The same, over the whole reply. */
  ghost predicate Scanned(h: History, h0: History, looked0: seq<Url>, looked: seq<Url>, entries: seq<Entry>) {
    Looking(h, h0, looked0, looked) && looked == Outlook(looked0, entries)
  }

  /** What will have been looked up when a reply is scanned. */
  ghost function Outlook(looked: seq<Url>, entries: seq<Entry>): seq<Url> {
    looked + Fresh(Clips(looked), FailedUrls(entries))
  }

  ghost predicate Scanning(wire: Wire, log: FailureLog, h0: History, looked0: seq<Url>, entries: seq<Entry>, i: nat)
    requires i <= |entries|
    reads wire, log
  {
    log.Valid() && ScannedTo(wire.history, h0, looked0, log.looked, entries, i)
  }

  lemma ScanStep(h: History, h': History, h0: History, looked0: seq<Url>, looked: seq<Url>,
                 entries: seq<Entry>, i: nat, fresh': seq<Url>)
    requires i < |entries| && ScannedTo(h, h0, looked0, looked, entries, i)
    requires !Stops(entries[i]) && !Breaks(entries[i])
    requires h <= h' && OnlyLookups(h'[|h|..]) && Lookups(h') == Lookups(h) + fresh'
    requires fresh' == Fresh(Clips(looked), FailedUrl(entries[i]))
    ensures ScannedTo(h', h0, looked0, looked + fresh', entries, i + 1)
  {
    var vs, rest := Clips(looked), FailedUrls(entries[i + 1..]);
    FreshEntry(vs, entries, i);
    ClipsSplit(looked, fresh');
    Regrouped(looked, fresh', Fresh(vs + Clips(fresh'), rest));
    LookingOn(h, h', h0, looked0, looked, fresh');
  }

  lemma LookingOn(h: History, h': History, h0: History, looked0: seq<Url>, looked: seq<Url>, fresh': seq<Url>)
    requires Looking(h, h0, looked0, looked)
    requires h <= h' && OnlyLookups(h'[|h|..]) && Lookups(h') == Lookups(h) + fresh'
    ensures Looking(h', h0, looked0, looked + fresh')
  {
    LookupsJoin(h0, h, h');
    var more := looked[|looked0|..];
    assert (looked + fresh')[|looked0|..] == more + fresh';
    Regrouped(Lookups(h0), more, fresh');
  }

  /** The scan is over: at the end, or at an entry that ends it. */
  lemma ScanEnds(h: History, h0: History, looked0: seq<Url>, looked: seq<Url>, entries: seq<Entry>, i: nat)
    requires i <= |entries| && ScannedTo(h, h0, looked0, looked, entries, i)
    requires i == |entries| || Stops(entries[i]) || Breaks(entries[i])
    ensures Scanned(h, h0, looked0, looked, entries)
  {
    if i < |entries| {
      assert entries[i..][0] == entries[i];
    }
    assert FailedUrls(entries[i..]) == [];
    assert Outlook(looked, entries[i..]) == looked + [] == looked;
  }

  lemma FreshEntry(vs: seq<string>, entries: seq<Entry>, i: nat)
    requires i < |entries| && !Stops(entries[i]) && !Breaks(entries[i])
    ensures var more := Fresh(vs, FailedUrl(entries[i]));
      Fresh(vs, FailedUrls(entries[i..])) == more + Fresh(vs + Clips(more), FailedUrls(entries[i + 1..]))
  {
    var rest := entries[i + 1..];
    assert entries[i..][0] == entries[i] && entries[i..][1..] == rest;
    assert FailedUrls(entries[i..]) == FailedUrl(entries[i]) + FailedUrls(rest);
    FreshSplit(vs, FailedUrl(entries[i]), FailedUrls(rest));
  }

  lemma LookupsJoin(h0: History, h1: History, h2: History)
    requires h0 <= h1 <= h2 && OnlyLookups(h1[|h0|..]) && OnlyLookups(h2[|h1|..])
    ensures h0 <= h2 && OnlyLookups(h2[|h0|..])
  {
    assert h2[|h0|..] == h1[|h0|..] + h2[|h1|..];
  }

  /** Every set is final, and every failed one says where it is. */
  predicate AllFinal(entries: seq<Entry>) {
    forall k :: 0 <= k < |entries| ==>
      Finished(entries[k]) && (entries[k].status.value == "fail" ==> entries[k].url.Some?)
  }

  /** Nothing is left to do for this reply: every set is final, and none has failed. */
  predicate Settled(entries: seq<Entry>) {
    forall k :: 0 <= k < |entries| ==> Finished(entries[k]) && entries[k].status != Some("fail")
  }

  /**
   * One pass over the `results` array. `stop` is an exit from the whole collection; otherwise
   * `completed` counts the entries that were not skipped.
   */
  method Scan(wire: Wire, log: FailureLog, entries: seq<Entry>) returns (stop: bool, completed: nat, rv: Rv)
    requires log.Valid()
    modifies wire, log
    ensures log.Valid() && Scanned(wire.history, old(wire.history), old(log.looked), log.looked, entries)
    ensures completed <= |entries|
    ensures !stop && completed == |entries| ==>
      && rv == Success && AllFinal(entries)
      && forall k :: 0 <= k < |entries| && entries[k].status == Some("fail") && entries[k].url.value != "" ==>
           Known(log.vs, entries[k].url)
    ensures Settled(entries) ==> !stop && completed == |entries|
    ensures rv in {Success, Failed}
  {
    ghost var h0, looked0 := wire.history, log.looked;
    stop, completed, rv := false, 0, Success;
    for i := 0 to |entries|
      invariant Scanning(wire, log, h0, looked0, entries, i)
      invariant Tallied(entries, i, completed, rv) && rv in {Success, Failed}
    {
      var turn;
      turn, rv := ScanTurn(wire, log, entries, i, completed, rv, h0, looked0);
      if turn.Stop? || turn.Break? {
        stop := turn.Stop?;
        return;
      }
      if turn.Count? {
        completed := completed + 1;
      }
    }
    ScanEnds(wire.history, h0, looked0, log.looked, entries, |entries|);
    if completed == |entries| {
      ScanComplete(entries, looked0, log.looked);
    }
  }

  /** The body of the scanning loop. */
  method ScanTurn(wire: Wire, log: FailureLog, entries: seq<Entry>, i: nat, completed: nat, rv0: Rv,
                  ghost h0: History, ghost looked0: seq<Url>) returns (turn: Turn, rv: Rv)
    requires i < |entries| && Scanning(wire, log, h0, looked0, entries, i) && Tallied(entries, i, completed, rv0)
    modifies wire, log
    ensures turn.Stop? || turn.Break? ==>
      log.Valid() && wire.history == old(wire.history) && Scanned(wire.history, h0, looked0, log.looked, entries)
    ensures turn.Skip? || turn.Count? ==>
      && Scanning(wire, log, h0, looked0, entries, i + 1)
      && Tallied(entries, i + 1, if turn.Count? then completed + 1 else completed, rv)
    ensures turn.Stop? || turn.Break? ==> completed < |entries| && !Settled(entries)
    ensures rv in {rv0, Success, Failed}
  {
    ghost var h, looked := wire.history, log.looked;
    ghost var fresh';
    turn, rv, fresh' := ScanOne(wire, log, entries[i], rv0);
    if turn.Stop? || turn.Break? {
      ScanEnds(h, h0, looked0, looked, entries, i);
    } else {
      ScanStep(h, wire.history, h0, looked0, looked, entries, i, fresh');
      TallyNext(entries, i, completed, rv0, turn.Count?, rv);
    }
  }

  /** The count before entry `i`: it has kept up only when nothing was skipped. */
  ghost predicate Tallied(entries: seq<Entry>, i: nat, completed: nat, rv: Rv) {
    && completed <= i <= |entries|
    && (completed == i ==> rv == Success && AllFinal(entries[..i]))
    && (Settled(entries) ==> completed == i)
  }

  lemma TallyNext(entries: seq<Entry>, i: nat, completed: nat, rv: Rv, counted: bool, rv': Rv)
    requires Tallied(entries, i, completed, rv) && i < |entries| && !Breaks(entries[i])
    requires counted ==> Finished(entries[i]) && (rv' == rv || rv' == Success)
    requires Finished(entries[i]) && entries[i].status != Some("fail") ==> counted
    ensures Tallied(entries, i + 1, if counted then completed + 1 else completed, rv')
  {
    assert entries[..i + 1] == entries[..i] + [entries[i]];
  }

  lemma ScanComplete(entries: seq<Entry>, looked0: seq<Url>, looked: seq<Url>)
    requires AllFinal(entries[..|entries|]) && looked == Outlook(looked0, entries)
    ensures AllFinal(entries)
    ensures forall k :: 0 <= k < |entries| && entries[k].status == Some("fail") && entries[k].url.value != "" ==>
      Known(Clips(looked), entries[k].url)
  {
    assert entries[..|entries|] == entries;
    AllNamed(Clips(looked0), entries);
    ClipsSplit(looked0, Fresh(Clips(looked0), FailedUrls(entries)));
  }

  /** One entry of a scan; `rv0` is the result so far. */
  method ScanOne(wire: Wire, log: FailureLog, e: Entry, rv0: Rv) returns (turn: Turn, rv: Rv, ghost fresh': seq<Url>)
    requires log.Valid()
    modifies wire, log
    ensures log.Valid()
    ensures old(wire.history) <= wire.history && OnlyLookups(wire.history[|old(wire.history)|..])
    ensures fresh' == if turn.Stop? || turn.Break? then [] else Fresh(old(log.vs), FailedUrl(e))
    ensures log.looked == old(log.looked) + fresh' && log.vs == old(log.vs) + Clips(fresh')
    ensures Lookups(wire.history) == Lookups(old(wire.history)) + fresh'
    ensures (turn.Stop? <==> Stops(e)) && (turn.Break? <==> Breaks(e))
    ensures turn.Stop? || turn.Break? ==> wire.history == old(wire.history)
    ensures rv in {rv0, Success, Failed} && (turn.Count? ==> Finished(e) && (rv == rv0 || rv == Success))
    ensures Finished(e) && e.status != Some("fail") ==> turn.Count?
  {
    fresh' := [];
    rv := rv0;
    if e.status.None? || e.status.value == "expired" || e.status.value == "unreceived" {
      return Stop, rv, fresh';
    }
    if e.status.value == "incomplete" {
      return Skip, rv, fresh';
    }
    if e.status.value == "fail" {
      if e.url.None? {
        return Break, rv, fresh';
      }
      var counted;
      fresh' := Fresh(log.vs, [e.url.value]);
      counted, rv := NameOne(wire, log, e.url.value, rv0);
      if !counted {
        return Skip, rv, fresh';
      }
    }
    return Count, rv, fresh';
  }

  /** One failed entry within a scan. */
  method NameOne(wire: Wire, log: FailureLog, url: Url, rv0: Rv) returns (counted: bool, rv: Rv)
    requires log.Valid()
    modifies wire, log
    ensures log.Valid()
    ensures old(wire.history) <= wire.history && OnlyLookups(wire.history[|old(wire.history)|..])
    ensures var more := Fresh(old(log.vs), [url]);
      && log.looked == old(log.looked) + more && log.vs == old(log.vs) + Clips(more)
      && Lookups(wire.history) == Lookups(old(wire.history)) + more
    ensures rv in {rv0, Success, Failed} && (counted ==> rv == rv0 || rv == Success)
  {
    ghost var h0, looked0, vs0 := wire.history, log.looked, log.vs;
    FreshOne(vs0, url);
    counted, rv := log.Name(wire, url, rv0);
    if Known(vs0, Some(url)) {
      assert looked0 + [] == looked0 && Clips([]) == [];
    } else {
      assert wire.history[|h0|..] == [LookedUp(url)];
      ClipsSplit(looked0, [url]);
    }
  }

  lemma ClipsSplit(a: seq<Url>, b: seq<Url>)
    ensures Clips(a + b) == Clips(a) + Clips(b)
  {
  }

  /** When all entries are final, every failed one is known after the lookups. */
  lemma AllNamed(vs: seq<string>, entries: seq<Entry>)
    requires AllFinal(entries)
    ensures forall k :: 0 <= k < |entries| && entries[k].status == Some("fail") && entries[k].url.value != "" ==>
      Known(vs + Clips(Fresh(vs, FailedUrls(entries))), entries[k].url)
  {
    forall k | 0 <= k < |entries| && entries[k].status == Some("fail") && entries[k].url.value != ""
      ensures Known(vs + Clips(Fresh(vs, FailedUrls(entries))), entries[k].url)
    {
      FailedReached(entries, k);
      FreshCovers(vs, FailedUrls(entries), entries[k].url.value);
    }
  }

  lemma {:induction false} FailedReached(entries: seq<Entry>, k: nat)
    requires AllFinal(entries) && k < |entries| && entries[k].status == Some("fail")
    ensures entries[k].url.value in FailedUrls(entries)
  {
    if k > 0 {
      assert forall m :: 0 <= m < |entries[1..]| ==> entries[1..][m] == entries[m + 1];
      FailedReached(entries[1..], k - 1);
    }
  }

  // ---- all rounds ----------------------------------------------------------

  /** A reply in which the session passed. */
  ghost predicate PassedIn(h: History, from: nat) {
    exists k :: from <= k < |h| && h[k].GotResults? && AllPassed(h[k].reply)
  }

  predicate OnlyDetails(h: History) {
    forall k :: 0 <= k < |h| ==> h[k].Detailed?
  }

  /** Details of the sets that failed, for a verbose log. */
  method Details(wire: Wire, entries: seq<Entry>) returns (rv: Rv)
    requires forall k :: 0 <= k < |entries| ==> Finished(entries[k])
    modifies wire
    ensures old(wire.history) <= wire.history && OnlyDetails(wire.history[|old(wire.history)|..])
    ensures rv == Success ==> wire.history == old(wire.history) + DetailsOf(entries)
    ensures rv in {Success, MissingArg, Failed}
  {
    ghost var h0 := wire.history;
    for i := 0 to |entries|
      invariant h0 <= wire.history && OnlyDetails(wire.history[|h0|..])
      invariant wire.history == h0 + DetailsOf(entries[..i])
    {
      ghost var h := wire.history;
      rv := DetailOne(wire, entries[i]);
      DetailsNext(h0, h, wire.history, entries, i, rv == Success);
      if rv != Success {
        return;
      }
    }
    assert entries[..|entries|] == entries;
    return Success;
  }

  method DetailOne(wire: Wire, e: Entry) returns (rv: Rv)
    requires e.status.Some?
    modifies wire
    ensures wire.history == old(wire.history) || wire.history == old(wire.history) + DetailOf(e)
    ensures rv == Success ==> wire.history == old(wire.history) + DetailOf(e)
    ensures rv in {Success, MissingArg, Failed}
  {
    if e.status.value == "fail" || e.status.value == "error" {
      if e.url.None? {
        return MissingArg;
      }
      var ok := wire.server.details(wire.history, e.url.value);
      wire.Log(Detailed(e.url.value));
      if !ok {
        return Failed;
      }
    }
    return Success;
  }

  function DetailOf(e: Entry): History {
    if (e.status == Some("fail") || e.status == Some("error")) && e.url.Some? then [Detailed(e.url.value)] else []
  }

  /** One request for details per entry that failed or went wrong, in order. */
  function DetailsOf(entries: seq<Entry>): History {
    if entries == [] then [] else DetailsOf(entries[..|entries| - 1]) + DetailOf(entries[|entries| - 1])
  }

  lemma DetailsNext(h0: History, h: History, h': History, entries: seq<Entry>, i: nat, done: bool)
    requires i < |entries| && h0 <= h && OnlyDetails(h[|h0|..]) && h == h0 + DetailsOf(entries[..i])
    requires h' == h || h' == h + DetailOf(entries[i])
    requires done ==> h' == h + DetailOf(entries[i])
    ensures h0 <= h' && OnlyDetails(h'[|h0|..])
    ensures done ==> h' == h0 + DetailsOf(entries[..i + 1])
  {
    var more := DetailOf(entries[i]);
    assert entries[..i + 1][..i] == entries[..i];
    assert h' == h + more ==> h'[|h0|..] == h[|h0|..] + more;
    assert h0 + DetailsOf(entries[..i]) + more == h0 + (DetailsOf(entries[..i]) + more);
  }

  /** Details fetch no results and look no set up. */
  lemma {:induction false} DetailsAdd(h: History, g: History)
    requires OnlyDetails(g)
    ensures Lookups(h + g) == Lookups(h) && Fetches(h + g) == Fetches(h)
  {
    if g == [] {
      assert h + g == h;
    } else {
      DetailsAdd(h, g[..|g| - 1]);
      assert (h + g)[..|h + g| - 1] == h + g[..|g| - 1];
    }
  }

  /** What the rounds so far have left in the history since it was `base`. */
  ghost predicate Collecting(wire: Wire, log: FailureLog, base: History)
    reads wire, log
  {
    log.Valid() && Accounted(wire.history, log.looked, base)
  }

  ghost predicate Accounted(h: History, looked: seq<Url>, base: History) {
    && base <= h && OnlyResults(h[|base|..])
    && Lookups(h) == Lookups(base) + looked
    && looked == Fresh([], Failures(h[|base|..]))
  }

  /** A reply and the lookups behind it add the failures of that reply. */
  lemma RoundFailures(h: History, reply: ResultsReply, g: History)
    requires OnlyLookups(g)
    ensures Failures(h + [GotResults(reply)] + g) == Failures(h) + Reported(reply)
  {
    var mid := h + [GotResults(reply)];
    assert mid[..|h|] == h;
    NoNewFailures(mid, g);
  }

  /** Fetch the results once and scan them. */
  method Visit(wire: Wire, log: FailureLog)
    returns (stop: bool, done: bool, rv: Rv, reply: ResultsReply, ghost fetched: History)
    requires log.Valid()
    modifies wire, log
    ensures log.Valid() && reply == wire.server.results(old(wire.history))
    ensures fetched == old(wire.history) + [GotResults(reply)]
    ensures fetched <= wire.history && OnlyLookups(wire.history[|fetched|..])
    ensures log.looked == old(log.looked) + Fresh(old(log.vs), Reported(reply))
    ensures Lookups(wire.history) == Lookups(old(wire.history)) + Fresh(old(log.vs), Reported(reply))
    ensures !stop ==> reply.Results?
    ensures !stop && done ==> rv == Success && forall k :: 0 <= k < |Entries(reply)| ==> Finished(Entries(reply)[k])
    ensures reply.Results? && Settled(Entries(reply)) ==> !stop && done
    ensures Fetches(wire.history) == Fetches(old(wire.history)) + 1
    ensures rv != TransportFail
  {
    reply := wire.server.results(wire.history);
    stop, done := true, false;
    wire.Log(GotResults(reply));
    fetched := wire.history;
    ghost var looked := log.looked;
    assert Fresh(log.vs, []) == [];
    match reply {
      case NoResults => rv := Failed;
      case ResultsNotJson | NoObject => rv := JsonErr;
      case Results(_, _) =>
        var completed;
        stop, completed, rv := Scan(wire, log, Entries(reply));
        ScannedMeans(wire.history, fetched, looked, log.looked, Entries(reply));
        FetchesKept(fetched, wire.history);
        done := completed >= |Entries(reply)|;
    }
  }

  lemma ScannedMeans(h: History, h0: History, looked0: seq<Url>, looked: seq<Url>, entries: seq<Entry>)
    requires Scanned(h, h0, looked0, looked, entries)
    ensures h0 <= h && OnlyLookups(h[|h0|..])
    ensures looked == looked0 + Fresh(Clips(looked0), FailedUrls(entries))
    ensures Lookups(h) == Lookups(h0) + Fresh(Clips(looked0), FailedUrls(entries))
  {
  }

  lemma FetchesKept(h: History, g: History)
    requires h <= g && OnlyLookups(g[|h|..])
    ensures Fetches(g) == Fetches(h)
  {
    assert g == h + g[|h|..];
    NoFetches(h, g[|h|..]);
  }

  /** One round of the collection. */
  method Round(wire: Wire, log: FailureLog, ghost base: History)
    returns (stop: bool, done: bool, rv: Rv, reply: ResultsReply)
    requires Collecting(wire, log, base)
    modifies wire, log
    ensures Collecting(wire, log, base)
    ensures reply == wire.server.results(old(wire.history))
    ensures !stop ==> reply.Results?
    ensures !stop && done ==> rv == Success && forall k :: 0 <= k < |Entries(reply)| ==> Finished(Entries(reply)[k])
    ensures !stop && done && reply.passed ==> PassedIn(wire.history, |base|)
    ensures reply.Results? && Settled(Entries(reply)) ==> !stop && done
    ensures old(wire.history) + [GotResults(reply)] <= wire.history
    ensures OnlyLookups(wire.history[|old(wire.history)| + 1..])
    ensures Fetches(wire.history) == Fetches(old(wire.history)) + 1
    ensures rv != TransportFail
  {
    ghost var h0, looked, vs := wire.history, log.looked, log.vs;
    ghost var h1;
    stop, done, rv, reply, h1 := Visit(wire, log);
    Collected(base, h0, h1, wire.history, reply, looked, vs);
    assert wire.history[|h0|] == GotResults(reply);
  }

  /** The failures that a reply reports. */
  function Reported(reply: ResultsReply): seq<Url> {
    if reply.Results? then FailedUrls(Entries(reply)) else []
  }

  /** The bookkeeping of a round: the history from `h0` over the reply at `h1` to `h2`. */
  lemma Collected(base: History, h0: History, h1: History, h2: History, reply: ResultsReply,
                  looked: seq<Url>, vs: seq<string>)
    requires Accounted(h0, looked, base) && vs == Clips(looked)
    requires h1 == h0 + [GotResults(reply)] && h1 <= h2 && OnlyLookups(h2[|h1|..])
    requires Lookups(h2) == Lookups(h0) + Fresh(vs, Reported(reply))
    ensures Accounted(h2, looked + Fresh(vs, Reported(reply)), base) && h2[|h0|] == GotResults(reply)
  {
    Seams(base, h0, h1, h2, GotResults(reply));
    OnlyResultsJoin(h0[|base|..], GotResults(reply), h2[|h1|..]);
    FreshNext(h0[|base|..], reply, h2[|h1|..], looked, vs);
    Regrouped(Lookups(base), looked, Fresh(vs, Reported(reply)));
  }

  lemma OnlyResultsJoin(front: History, e: Event, behind: History)
    requires OnlyResults(front) && OnlyLookups(behind) && e.GotResults?
    ensures OnlyResults(front + [e] + behind)
  {
  }

  lemma Seams(base: History, h0: History, h1: History, h2: History, e: Event)
    requires base <= h0 && h1 == h0 + [e] && h1 <= h2
    ensures base <= h2 && h2[|h0|] == e && h2[|base|..] == h0[|base|..] + [e] + h2[|h1|..]
  {
    assert h2[|h0|] == h1[|h0|];
  }

  lemma FreshNext(front: History, reply: ResultsReply, behind: History, looked: seq<Url>, vs: seq<string>)
    requires OnlyLookups(behind) && looked == Fresh([], Failures(front)) && vs == Clips(looked)
    ensures looked + Fresh(vs, Reported(reply)) == Fresh([], Failures(front + [GotResults(reply)] + behind))
  {
    RoundFailures(front, reply, behind);
    FreshSplit([], Failures(front), Reported(reply));
    assert [] + Clips(looked) == vs;
  }

  lemma Regrouped(a: seq<Url>, b: seq<Url>, c: seq<Url>)
    ensures a + b + c == a + (b + c)
  {
  }

  /** A reply with only final results among which none failed was fetched, and the session passed or not. */
  ghost predicate SettledIn(h: History, from: nat, passed: bool) {
    exists k :: from <= k < |h| && IsSettled(h[k], passed)
  }

  predicate IsSettled(e: Event, passed: bool) {
    e.GotResults? && e.reply.Results? && Settled(Entries(e.reply)) && e.reply.passed == passed
  }

  /** No such reply so far. */
  ghost predicate Unsettled(h: History, from: nat) {
    !SettledIn(h, from, true) && !SettledIn(h, from, false)
  }

  lemma SettledLater(h: History, g: History, from: nat, passed: bool)
    requires h <= g && from <= |h|
    ensures SettledIn(g, from, passed) <==> SettledIn(h, from, passed) || SettledIn(g, |h|, passed)
  {
    assert forall k :: 0 <= k < |h| ==> g[k] == h[k];
  }

  lemma NoneSettled(g: History, from: nat, passed: bool)
    requires forall k :: from <= k < |g| ==> !g[k].GotResults?
    ensures !SettledIn(g, from, passed)
  {
  }

  /** The details of a complete collection change nothing in its account. */
  method Report(wire: Wire, entries: seq<Entry>, ghost base: History) returns (rv: Rv)
    requires forall k :: 0 <= k < |entries| ==> Finished(entries[k])
    requires base <= wire.history && OnlyResults(wire.history[|base|..])
    modifies wire
    ensures base <= wire.history && OnlyResults(wire.history[|base|..])
    ensures Lookups(wire.history) == Lookups(old(wire.history))
    ensures Failures(wire.history[|base|..]) == Failures(old(wire.history)[|base|..])
    ensures Fetches(wire.history) == Fetches(old(wire.history))
    ensures old(wire.history) <= wire.history && rv != TransportFail
    ensures forall k :: |old(wire.history)| <= k < |wire.history| ==> !wire.history[k].GotResults?
    ensures rv == Success ==> wire.history == old(wire.history) + DetailsOf(entries)
  {
    ghost var before := wire.history;
    rv := Details(wire, entries);
    DetailsKeep(before, wire.history, base);
  }

  lemma DetailsKeep(h: History, g: History, base: History)
    requires base <= h <= g && OnlyResults(h[|base|..]) && OnlyDetails(g[|h|..])
    ensures base <= g && OnlyResults(g[|base|..]) && Lookups(g) == Lookups(h) && Fetches(g) == Fetches(h)
    ensures Failures(g[|base|..]) == Failures(h[|base|..])
    ensures forall k :: |h| <= k < |g| ==> !g[k].GotResults?
  {
    var more := g[|h|..];
    FailuresKeep(base, h, g);
    assert g == h + more;
    DetailsAdd(h, more);
    assert forall k :: |h| <= k < |g| ==> g[k] == more[k - |h|];
  }

  lemma FailuresKeep(base: History, h: History, g: History)
    requires base <= h <= g && OnlyResults(h[|base|..]) && OnlyDetails(g[|h|..])
    ensures OnlyResults(g[|base|..]) && Failures(g[|base|..]) == Failures(h[|base|..])
  {
    var more := g[|h|..];
    assert g[|base|..] == h[|base|..] + more;
    NoNewFailures(h[|base|..], more);
  }

  /** A round adds one reply, which settles the collection or does not. */
  lemma AfterRound(h: History, g: History, from: nat, reply: ResultsReply)
    requires from <= |h| && h + [GotResults(reply)] <= g && OnlyLookups(g[|h| + 1..]) && Unsettled(h, from)
    ensures g[|h|] == GotResults(reply) && (|h| > from ==> g[from] == h[from])
    ensures forall passed :: SettledIn(g, from, passed) <==> IsSettled(GotResults(reply), passed)
  {
    assert h <= g && forall k :: 0 <= k <= |h| ==> g[k] == (h + [GotResults(reply)])[k];
    assert forall k :: |h| < k < |g| ==> g[k] == g[|h| + 1..][k - |h| - 1];
    forall passed
      ensures SettledIn(g, from, passed) <==> IsSettled(GotResults(reply), passed)
    {
      SettledLater(h, g, from, passed);
      assert IsSettled(g[|h|], passed) == IsSettled(GotResults(reply), passed);
      assert forall k :: |h| < k < |g| ==> !IsSettled(g[k], passed);
    }
  }

  lemma AfterReport(h: History, g: History, from: nat)
    requires from < |h| && h <= g && forall k :: |h| <= k < |g| ==> !g[k].GotResults?
    ensures g[from] == h[from]
    ensures forall passed :: SettledIn(g, from, passed) <==> SettledIn(h, from, passed)
  {
    forall passed
      ensures SettledIn(g, from, passed) <==> SettledIn(h, from, passed)
    {
      SettledLater(h, g, from, passed);
      NoneSettled(g, |h|, passed);
    }
  }

  /** amvp_get_result_test_session */
  method Collect(wire: Wire, limits: Limits, verbose: bool)
    returns (rv: Rv, passed: bool, ghost looked: seq<Url>, ghost grants: nat)
    requires ValidLimits(limits)
    modifies wire
    ensures old(wire.history) <= wire.history && OnlyResults(wire.history[|old(wire.history)|..])
    ensures passed ==> rv == Success && PassedIn(wire.history, |old(wire.history)|)
    ensures Lookups(wire.history) == Lookups(old(wire.history)) + looked
    ensures looked == Fresh([], Failures(wire.history[|old(wire.history)|..]))
    ensures grants <= CeilDiv(limits.maxWait, limits.min + 1)
    ensures |wire.history| > |old(wire.history)|
      && wire.history[|old(wire.history)|] == GotResults(wire.server.results(old(wire.history)))
    ensures SettledIn(wire.history, |old(wire.history)|, true) ==> passed
    ensures SettledIn(wire.history, |old(wire.history)|, false) ==> !passed && (!verbose ==> rv == Success)
    ensures Fetches(wire.history) == Fetches(old(wire.history)) + grants + 1
    ensures rv == TransportFail ==> grants * limits.max >= limits.maxWait
  {
    ghost var base := wire.history;
    var log := new FailureLog();
    var interval, waited := RETRY_TIME, 0;
    ghost var slept := 0;
    grants := 0;
    while true
      invariant fresh(log) && Collecting(wire, log, base) && Repeating(wire, limits, base, grants, waited, slept)
      invariant Int32(interval)
      decreases limits.maxWait + limits.max - waited
    {
      GrantsBounded(limits, grants, waited, slept);
      var over;
      over, rv, passed, interval, waited, slept :=
        CollectOnce(wire, log, limits, verbose, interval, waited, base, grants, slept);
      looked := Fresh([], Failures(wire.history[|base|..]));
      if over {
        return;
      }
      grants := grants + 1;
    }
  }

  /** Behind `n` waits, none of the replies so far has settled the collection. */
  ghost predicate Repeating(wire: Wire, l: Limits, base: History, n: nat, waited: nat, slept: int)
    reads wire
  {
    && Budget(l, n, waited, slept)
    && Unsettled(wire.history, |base|) && Fetches(wire.history) == Fetches(base) + n
    && (wire.history == base || BeganWith(wire, base))
  }

  /** The first thing since `base` was a reply with results. */
  ghost predicate BeganWith(wire: Wire, base: History)
    reads wire
  {
    |wire.history| > |base| && wire.history[|base|] == GotResults(wire.server.results(base))
  }

  /** The body of the loop: one round, and then the end or a wait. */
  method CollectOnce(wire: Wire, log: FailureLog, limits: Limits, verbose: bool, interval: int, waited: nat,
                     ghost base: History, ghost grants: nat, ghost slept: int)
    returns (over: bool, rv: Rv, passed: bool, interval': int, waited': nat, ghost slept': int)
    requires ValidLimits(limits) && Int32(interval)
    requires Collecting(wire, log, base) && Repeating(wire, limits, base, grants, waited, slept)
    modifies wire, log
    ensures BeganWith(wire, base)
    ensures Accounted(wire.history, Fresh([], Failures(wire.history[|base|..])), base)
    ensures over ==> Fetches(wire.history) == Fetches(base) + grants + 1
    ensures over ==> (passed ==> rv == Success && PassedIn(wire.history, |base|))
    ensures over ==> (SettledIn(wire.history, |base|, true) ==> passed)
    ensures over ==> (SettledIn(wire.history, |base|, false) ==> !passed && (!verbose ==> rv == Success))
    ensures over ==> (rv == TransportFail ==> waited >= limits.maxWait)
    ensures !over ==> Collecting(wire, log, base) && waited' > waited && Int32(interval')
    ensures !over ==> Repeating(wire, limits, base, grants + 1, waited', slept')
  {
    ghost var h0 := wire.history;
    over, passed, interval', waited', slept' := true, false, interval, waited, slept;
    var stop, done, reply;
    stop, done, rv, reply := Round(wire, log, base);
    AfterRound(h0, wire.history, |base|, reply);
    if stop {
      return;
    }
    if done {
      if reply.passed {
        rv, passed := Success, true;
      } else if verbose {
        ghost var h1 := wire.history;
        rv := Report(wire, Entries(reply), base);
        AfterReport(h1, wire.history, |base|);
      }
      return;
    }
    var granted, period, sleep;
    granted, period, sleep, waited' := RetryHandler(limits, interval, waited, 1);
    rv := TransportFail;
    if granted {
      BudgetKept(limits, grants, waited, slept, period, sleep, waited');
      over, interval', slept' := false, period, slept + sleep;
    }
  }

  /** No failed set with a URL is downloaded twice, and none is passed over unless a similar one was downloaded. */
  lemma EachFailureOnce(h: History)
    ensures var looked := Fresh([], Failures(h));
      && (forall i, j :: 0 <= i < j < |looked| ==> !Similar(Clip(looked[i]), Clip(looked[j])))
      && (forall u :: u in Failures(h) && u != "" ==> Known(Clips(looked), Some(u)))
      && multiset(looked)[""] == multiset(Failures(h))[""]
  {
    var looked := Fresh([], Failures(h));
    forall i, j | 0 <= i < j < |looked|
      ensures !Similar(Clip(looked[i]), Clip(looked[j]))
    {
      FreshApart([], Failures(h), j);
    }
    forall u | u in Failures(h) && u != ""
      ensures Known(Clips(looked), Some(u))
    {
      FreshCovers([], Failures(h), u);
      assert [] + Clips(looked) == Clips(looked);
    }
    EmptyLookedAgain([], Failures(h));
  }
}
