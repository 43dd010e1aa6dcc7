/**
 * The test session of src/amvp.c: download, process and submit every vector set, collect the
 * results, validate; and the resumption of a session that was interrupted.
 */
module Session {
  import opened Options
  import opened Server
  import opened Retry
  import opened Results

  /** Only such events happen while vector sets are being processed. */
  predicate OnlySets(h: History) {
    forall k :: 0 <= k < |h| ==> h[k].Fetched? || h[k].SavedHeader? || h[k].Saved? || h[k].SavedEnd? || h[k].Submitted?
  }

  /** Nothing was validated between the two histories. */
  ghost predicate Quiet(before: History, after: History) {
    before <= after && NoPut(after[|before|..])
  }

  lemma OnlyResultsNoSubmissions(before: History, after: History)
    requires before <= after && OnlyResults(after[|before|..])
    ensures Submissions(after) == Submissions(before)
    ensures Quiet(before, after)
  {
    SubmissionsKept(before, after);
  }

  class Client {
    const wire: Wire
    const limits: Limits
    const vectorReq: bool       // only download the vector sets to a file
    const verbose: bool
    var vsidUrls: seq<Url>
    var sessionPassed: bool

    /** A fresh context. */
    constructor (wire: Wire, limits: Limits, vectorReq: bool, verbose: bool)
      ensures this.wire == wire && this.limits == limits && this.vectorReq == vectorReq
      ensures vsidUrls == [] && !sessionPassed
    {
      this.wire, this.limits, this.vectorReq, this.verbose := wire, limits, vectorReq, verbose;
      this.vsidUrls, this.sessionPassed := [], false;
    }

    /** amvp_append_vsid_url: a walk to the last node, behind which the new one goes. */
    method AppendVsidUrl(url: Url)
      modifies this`vsidUrls
      ensures vsidUrls == old(vsidUrls) + [Stored(url)]
    {
      var entry := Stored(url);
      if vsidUrls == [] {
        vsidUrls := [entry];
        return;
      }
      var last := 0;
      while last + 1 < |vsidUrls|
        invariant last < |vsidUrls|
      {
        last := last + 1;
      }
      vsidUrls := vsidUrls[..last + 1] + [entry];
    }

    /**
     * The polling part of amvp_process_vsid: fetch until the server has the set ready, or until the
     * budget for waiting is used up. Every granted wait is followed by another fetch.
     */
    method FetchSet(url: Url) returns (rv: Rv, processed: bool, written: bool, ghost grants: nat)
      requires ValidLimits(limits)
      modifies wire
      ensures wire.history == old(wire.history) + Copies(url, grants + 1)
      ensures Waiting(limits, wire.server, old(wire.history), url, grants)
      ensures Outcome(limits, wire.server, old(wire.history), url, grants, rv, processed, written)
      ensures grants <= CeilDiv(limits.maxWait, limits.min + 1)
    {
      ghost var h0 := wire.history;
      var waited := 0;
      ghost var slept := 0;
      grants := 0;
      while true
        invariant wire.history == h0 + Copies(url, grants)
        invariant Polling(limits, wire.server, h0, url, grants, waited, slept)
        decreases limits.maxWait + limits.max - waited
      {
        GrantsBounded(limits, grants, waited, slept);
        var over;
        over, rv, processed, written, waited, slept := FetchOnce(url, waited, h0, grants, slept);
        if over {
          return;
        }
        grants := grants + 1;
      }
    }

    /** The body of the polling loop. */
    method FetchOnce(url: Url, waited: nat, ghost h0: History, ghost grants: nat, ghost slept: int)
      returns (over: bool, rv: Rv, processed: bool, written: bool, waited': nat, ghost slept': int)
      requires ValidLimits(limits) && wire.history == h0 + Copies(url, grants)
      requires Polling(limits, wire.server, h0, url, grants, waited, slept)
      modifies wire
      ensures wire.history == h0 + Copies(url, grants + 1)
      ensures over ==> Outcome(limits, wire.server, h0, url, grants, rv, processed, written)
      ensures !over ==> waited' > waited && Polling(limits, wire.server, h0, url, grants + 1, waited', slept')
    {
      over, processed, written, waited', slept' := true, false, false, waited, slept;
      var reply := wire.server.vectorSet(wire.history, url);
      wire.Log(Fetched(url));
      OneMore(h0, url, grants);
      match reply {
        case NoSet => rv := Failed;
        case NotJson => rv := JsonErr;
        case VectorSet(p, w) => rv, processed, written := Success, p, w;
        case Retry(retry) =>
          var granted, period, sleep;
          granted, period, sleep, waited' := RetryHandler(limits, retry, waited, 1);
          rv := TransportFail;
          if granted {
            BudgetKept(limits, grants, waited, slept, period, sleep, waited');
            WaitingOn(limits, wire.server, h0, url, grants, retry);
            over, slept' := false, slept + sleep;
          }
      }
    }

    /** Append a downloaded set to the request file, behind the header that lists all URLs. */
    method SaveSet(url: Url, count: nat, written: bool) returns (rv: Rv)
      modifies wire
      ensures rv == if written then Success else JsonErr
      ensures wire.history == old(wire.history)
        + (if count == 0 then [SavedHeader(vsidUrls)] else []) + (if written then [Saved(url)] else [])
      ensures Saves(wire.history) == Saves(old(wire.history))
        + (if count == 0 then [SavedHeader(vsidUrls)] else []) + (if written then [Saved(url)] else [])
      ensures Submissions(wire.history) == Submissions(old(wire.history))
    {
      if count == 0 {
        wire.Log(SavedHeader(vsidUrls));
      }
      if !written {
        return JsonErr;
      }
      wire.Log(Saved(url));
      return Success;
    }

    /** amvp_process_vsid */
    method ProcessVsid(url: Url, count: nat) returns (rv: Rv)
      requires ValidLimits(limits)
      modifies wire
      ensures old(wire.history) <= wire.history && OnlySets(wire.history[|old(wire.history)|..])
      ensures Submissions(wire.history) == Submissions(old(wire.history)) +
        if rv == Success && !vectorReq then [url] else []
      ensures vectorReq ==> NoSubmit(wire.history[|old(wire.history)|..])
      ensures !vectorReq ==> Saves(wire.history) == Saves(old(wire.history))
      ensures vectorReq && rv == Success ==>
        Saves(wire.history)
          == Saves(old(wire.history)) + (if count == 0 then [SavedHeader(vsidUrls)] else []) + [Saved(url)]
      ensures rv == Success && !vectorReq ==> JustSubmitted(wire.history)
      ensures Cooperative(wire.server) ==> rv == Success
    {
      var processed, written;
      ghost var grants;
      ghost var h0 := wire.history;
      rv, processed, written, grants := FetchSet(url);
      ghost var h1 := wire.history;
      OnlyFetched(h0, h1, url, grants + 1);
      if rv != Success {
        return;
      }
      if vectorReq {
        rv := SaveSet(url, count, written);
        OnlySaved(h0, h1, wire.history, vsidUrls, url, count, written);
        return;
      }
      if !processed {
        return Failed;
      }
      rv := SubmitSet(url, h0);
    }

    /** Send the response for a processed set. */
    method SubmitSet(url: Url, ghost h0: History) returns (rv: Rv)
      requires h0 <= wire.history && OnlySets(wire.history[|h0|..])
      modifies wire
      ensures h0 <= wire.history && OnlySets(wire.history[|h0|..]) && JustSubmitted(wire.history)
      ensures rv == if wire.server.submit(old(wire.history), url) then Success else Failed
      ensures Submissions(wire.history) == Submissions(old(wire.history)) + if rv == Success then [url] else []
      ensures Saves(wire.history) == Saves(old(wire.history))
    {
      ghost var h1 := wire.history;
      var ok := wire.server.submit(wire.history, url);
      wire.Log(Submitted(url, ok));
      assert wire.history[|h0|..] == h1[|h0|..] + [Submitted(url, ok)];
      rv := if ok then Success else Failed;
    }

    /** amvp_process_tests: the first failure ends the loop, with `done` sets behind it. */
    method ProcessTests() returns (rv: Rv, ghost done: nat)
      requires ValidLimits(limits)
      modifies wire
      ensures old(wire.history) <= wire.history && OnlySets(wire.history[|old(wire.history)|..])
      ensures done <= |vsidUrls| && (rv == Success ==> done == |vsidUrls| > 0)
      ensures Submissions(wire.history) == Submissions(old(wire.history)) +
        if vectorReq then [] else vsidUrls[..done]
      ensures vectorReq ==> NoSubmit(wire.history[|old(wire.history)|..])
      ensures !vectorReq ==> Saves(wire.history) == Saves(old(wire.history))
      ensures vectorReq && rv == Success ==> Saves(wire.history) == Saves(old(wire.history)) + FileOf(vsidUrls)
      ensures rv == Success && !vectorReq ==> JustSubmitted(wire.history)
      ensures Cooperative(wire.server) && vsidUrls != [] ==> rv == Success
    {
      ghost var h0 := wire.history;
      rv, done := Success, 0;
      if vsidUrls == [] {
        return MissingArg, 0;
      }
      for count := 0 to |vsidUrls|
        invariant rv == Success && done == count
        invariant Answered(h0, wire.history, vsidUrls, count, vectorReq)
        invariant Filed(h0, wire.history, vsidUrls, count, vectorReq)
        invariant count > 0 && !vectorReq ==> JustSubmitted(wire.history)
      {
        rv, done := ProcessNext(count, h0);
        if rv != Success {
          return;
        }
      }
      if vectorReq {
        rv := CloseFile(h0);
      }
    }

    /** One turn of the loop. */
    method ProcessNext(count: nat, ghost h0: History) returns (rv: Rv, ghost done: nat)
      requires ValidLimits(limits) && count < |vsidUrls|
      requires Answered(h0, wire.history, vsidUrls, count, vectorReq)
      requires Filed(h0, wire.history, vsidUrls, count, vectorReq)
      modifies wire
      ensures done == if rv == Success then count + 1 else count
      ensures Answered(h0, wire.history, vsidUrls, done, vectorReq)
      ensures rv == Success || !vectorReq ==> Filed(h0, wire.history, vsidUrls, done, vectorReq)
      ensures rv == Success && !vectorReq ==> JustSubmitted(wire.history)
      ensures Cooperative(wire.server) ==> rv == Success
    {
      ghost var h1 := wire.history;
      rv := ProcessVsid(vsidUrls[count], count);
      done := if rv == Success then count + 1 else count;
      AnsweredNext(h0, h1, wire.history, vsidUrls, count, done, vectorReq);
      FileNext(Saves(h0), vsidUrls, count);
    }

    /** The end of the request file. */
    method CloseFile(ghost h0: History) returns (rv: Rv)
      requires vectorReq && Answered(h0, wire.history, vsidUrls, |vsidUrls|, true)
      requires Filed(h0, wire.history, vsidUrls, |vsidUrls|, true)
      modifies wire
      ensures Answered(h0, wire.history, vsidUrls, |vsidUrls|, true)
      ensures rv == if wire.server.closes(old(wire.history)) then Success else JsonErr
      ensures Saves(wire.history) == Saves(h0) + FileOf(vsidUrls)
    {
      ghost var h1 := wire.history;
      rv := if wire.server.closes(wire.history) then Success else JsonErr;
      wire.Log(SavedEnd);
      AnsweredNext(h0, h1, wire.history, vsidUrls, |vsidUrls|, |vsidUrls|, true);
      assert Saves(h0) + FileUpTo(vsidUrls, |vsidUrls|) + [SavedEnd] == Saves(h0) + FileOf(vsidUrls);
    }

    /** The URL list of a registration reply, up to an element that is not a string. */
    method LoadRegistered(urls: seq<Option<Url>>)
      modifies this`vsidUrls
      ensures vsidUrls == old(vsidUrls) + StoredAll(Leading(urls))
    {
      for i := 0 to |urls|
        invariant old(vsidUrls) + StoredAll(Leading(urls)) == vsidUrls + StoredAll(Leading(urls[i..]))
      {
        if urls[i].None? {
          return;
        }
        StoredAllCons(urls[i].value, Leading(urls[i + 1..]));
        AppendVsidUrl(urls[i].value);
      }
    }

    /** The status loop of amvp_resume_test_session. */
    method LoadUnreceived(entries: seq<Entry>) returns (rv: Rv)
      modifies this`vsidUrls
      ensures rv == Success <==> Resumable(entries, vectorReq)
      ensures vsidUrls == old(vsidUrls) + StoredAll(ToSubmit(entries, vectorReq))
    {
      for i := 0 to |entries|
        invariant Resumable(entries, vectorReq) == Resumable(entries[i..], vectorReq)
        invariant ListAfter(old(vsidUrls), entries, vectorReq) == ListAfter(vsidUrls, entries[i..], vectorReq)
      {
        var e := entries[i];
        EntryFirst(entries[i..], vectorReq, vsidUrls);
        assert entries[i..][1..] == entries[i + 1..];
        if e.status.None? || e.url.None? {
          return JsonErr;
        }
        if !vectorReq && e.status.value == "expired" {
          return InvalidArg;
        }
        if vectorReq || e.status.value == "unreceived" {
          AppendVsidUrl(e.url.value);
        }
      }
      return Success;
    }

    /** amvp_check_test_results */
    method CheckTestResults() returns (rv: Rv)
      requires ValidLimits(limits)
      modifies wire, this`sessionPassed
      ensures old(wire.history) <= wire.history && OnlyResults(wire.history[|old(wire.history)|..])
      ensures old(sessionPassed) ==> sessionPassed
      ensures sessionPassed && !old(sessionPassed) ==> PassedIn(wire.history, |old(wire.history)|)
      ensures SettledIn(wire.history, |old(wire.history)|, true) ==> sessionPassed && rv == Success
      ensures SettledIn(wire.history, |old(wire.history)|, false) ==>
        sessionPassed == old(sessionPassed) && (!verbose ==> rv == Success)
      ensures |wire.history| > |old(wire.history)|
        && wire.history[|old(wire.history)|] == GotResults(wire.server.results(old(wire.history)))
      ensures Saves(wire.history) == Saves(old(wire.history))
    {
      var passed;
      ghost var looked, grants;
      ghost var h0 := wire.history;
      rv, passed, looked, grants := Collect(wire, limits, verbose);
      sessionPassed := sessionPassed || passed;
      ResultsSaveNothing(h0, wire.history);
    }

    /** amvp_validate_test_session: without a passed session it reports success and sends nothing. */
    method ValidateTestSession() returns (rv: Rv)
      modifies wire
      ensures wire.history == old(wire.history) +
        if sessionPassed then [PutValidation(wire.server.validation(old(wire.history)))] else []
      ensures Submissions(wire.history) == Submissions(old(wire.history))
      ensures Saves(wire.history) == Saves(old(wire.history))
      ensures sessionPassed ==> (rv == Success <==> wire.server.validation(old(wire.history)))
      ensures !sessionPassed ==> rv == Success
    {
      if !sessionPassed {
        return Success;
      }
      var ok := wire.server.validation(wire.history);
      wire.Log(PutValidation(ok));
      rv := if ok then Success else Failed;
    }

    /** The end of a session whose vector sets were all submitted since `h0`. */
    method CheckAndValidate(fips: bool, ghost h0: History) returns (rv: Rv)
      requires ValidLimits(limits) && h0 <= wire.history && Quiet(h0, wire.history)
      requires Submissions(wire.history) == Submissions(h0) + vsidUrls
      modifies wire, this`sessionPassed
      ensures old(wire.history) <= wire.history && Submissions(wire.history) == Submissions(old(wire.history))
      ensures Saves(wire.history) == Saves(old(wire.history))
      ensures Gate(h0, wire.history, vsidUrls, fips, old(sessionPassed))
      ensures rv == Success && fips && old(sessionPassed) ==> Sent(h0, wire.history)
      ensures SettledIn(wire.history, |old(wire.history)|, true) ==>
        sessionPassed && (fips ==> Sent(h0, wire.history)) && (!fips ==> rv == Success)
      ensures |wire.history| > |old(wire.history)|
        && wire.history[|old(wire.history)|] == GotResults(wire.server.results(old(wire.history)))
      ensures Cooperative(wire.server) && SettlesAt(wire.server, old(wire.history)) && !verbose ==> rv == Success
    {
      ghost var h1 := wire.history;
      rv := CheckTestResults();
      ghost var h2 := wire.history;
      OnlyResultsNoSubmissions(h1, h2);
      HistorySplit(h0, h1, h2);
      FirstReply(h1, h2, wire.server);
      if rv == Success && fips {
        rv := ValidateBehind(h0, h1, old(sessionPassed));
      }
    }

    /** The validation behind a check that began at `h1`, of a session that began at `h0`. */
    method ValidateBehind(ghost h0: History, ghost h1: History, ghost stale: bool) returns (rv: Rv)
      requires h0 <= h1 <= wire.history && |h1| < |wire.history|
      requires Quiet(h0, wire.history) && OnlyResults(wire.history[|h1|..])
      requires Submissions(h1) == Submissions(h0) + vsidUrls
      requires sessionPassed ==> stale || PassedIn(wire.history, |h1|)
      modifies wire
      ensures old(wire.history) <= wire.history && wire.history[|h1|] == old(wire.history)[|h1|]
      ensures Submissions(wire.history) == Submissions(old(wire.history))
      ensures Saves(wire.history) == Saves(old(wire.history))
      ensures if sessionPassed then Sent(h0, wire.history) && (stale || Validated(h0, wire.history, vsidUrls))
        else wire.history == old(wire.history)
      ensures forall passed :: SettledIn(wire.history, |h1|, passed) <==> SettledIn(old(wire.history), |h1|, passed)
      ensures Cooperative(wire.server) ==> rv == Success
    {
      ghost var h2 := wire.history;
      rv := ValidateTestSession();
      if sessionPassed {
        SentBehind(h0, h1, h2, wire.history, vsidUrls);
        PutSettlesNothing(h1, h2, wire.history);
      }
    }

    /** The common end of a run and of a resumption, from the URL list on. */
    method ProcessAndCheck(fips: bool) returns (rv: Rv, ghost done: nat)
      requires ValidLimits(limits)
      modifies wire, this`sessionPassed
      ensures Effect(old(wire.history), wire.history, vsidUrls, done, fips, vectorReq, old(sessionPassed))
      ensures rv == Success ==> done == |vsidUrls| > 0
      ensures rv == Success && fips && !vectorReq && old(sessionPassed) ==> Sent(old(wire.history), wire.history)
      ensures SettledIn(wire.history, |old(wire.history)|, true) ==>
        !vectorReq && sessionPassed && (fips ==> Sent(old(wire.history), wire.history))
      ensures vectorReq && rv == Success ==> Saves(wire.history) == Saves(old(wire.history)) + FileOf(vsidUrls)
      ensures !vectorReq ==> Saves(wire.history) == Saves(old(wire.history))
      ensures Smooth(wire.server, vectorReq, verbose) && vsidUrls != [] ==> rv == Success
      ensures Smooth(wire.server, false, verbose) && vsidUrls != [] && !vectorReq && fips && Passes(wire.server) ==>
        Sent(old(wire.history), wire.history)
    {
      ghost var h0 := wire.history;
      rv, done := ProcessTests();
      ghost var h1 := wire.history;
      SetsSettleNothing(h0, h1, true);
      if rv == Success && !vectorReq {
        rv := CheckAndValidate(fips, h0);
        SettledLater(h1, wire.history, |h0|, true);
        FirstReply(h1, wire.history, wire.server);
      }
    }

    /** The part of amvp_run up to the URL list. */
    method Register(fips: bool, metadataReady: bool) returns (rv: Rv, ghost urls: seq<Option<Url>>)
      modifies wire, this`vsidUrls
      ensures Registering(wire.server, old(wire.history), wire.history, fips, metadataReady, rv, urls)
      ensures vsidUrls == old(vsidUrls) + StoredAll(Leading(urls))
    {
      urls := [];
      var ok := wire.server.login(wire.history);
      wire.Log(LoggedIn(ok));
      if !ok {
        return Failed, urls;
      }
      if fips && !metadataReady {
        return UnsupportedOp, urls;
      }
      var reply := wire.server.register(wire.history);
      wire.Log(Registration(reply));
      if reply.NoRegistration? {
        return Failed, urls;
      }
      LoadRegistered(reply.urls);
      return Success, reply.urls;
    }

    /** amvp_run without the get, post, put, delete and certificate request modes. */
    method Run(fips: bool, metadataReady: bool) returns (rv: Rv, ghost urls: seq<Option<Url>>, ghost done: nat)
      requires ValidLimits(limits)
      modifies wire, this`sessionPassed, this`vsidUrls
      ensures Effect(old(wire.history), wire.history, vsidUrls, done, fips, vectorReq, old(sessionPassed))
      ensures vsidUrls == old(vsidUrls) + StoredAll(Leading(urls))
      ensures urls != [] ==> Registration(Registered(urls)) in wire.history[|old(wire.history)|..]
      ensures urls != [] || rv == Success ==> exists h :: wire.server.register(h) == Registered(urls)
      ensures rv == Success ==> done == |vsidUrls| > 0
      ensures SettledIn(wire.history, |old(wire.history)|, true) ==>
        !vectorReq && sessionPassed && (fips ==> Sent(old(wire.history), wire.history))
      ensures vectorReq && rv == Success ==> Saves(wire.history) == Saves(old(wire.history)) + FileOf(vsidUrls)
      ensures !vectorReq ==> Saves(wire.history) == Saves(old(wire.history))
      ensures Smooth(wire.server, vectorReq, verbose) && (fips ==> metadataReady) && vsidUrls != [] ==> rv == Success
      ensures (Smooth(wire.server, false, verbose) && vsidUrls != [] && !vectorReq && fips && metadataReady
        && Passes(wire.server)) ==> Sent(old(wire.history), wire.history)
    {
      ghost var h0 := wire.history;
      rv, urls := Register(fips, metadataReady);
      ghost var h1 := wire.history;
      done := 0;
      RegisteringMeans(wire.server, h0, h1, fips, metadataReady, rv, urls);
      NothingDone(h0, h1, vsidUrls, fips, vectorReq, sessionPassed);
      RequestsSaveNothing(h0, h1);
      NoneSettled(h1, |h0|, true);
      if rv == Success {
        ghost var stale := sessionPassed;
        rv, done := ProcessAndCheck(fips);
        EffectFromEarlier(h0, h1, wire.history, vsidUrls, done, fips, vectorReq, stale);
        SettledLater(h1, wire.history, |h0|, true);
        StillIn(h0, h1, wire.history, Registration(Registered(urls)));
      }
    }

    /**
     * The part of amvp_resume_test_session up to the URL list, to which it adds `added`; `at` is
     * when the status was asked for.
     */
    method QueryStatus(fips: bool, metadataReady: bool, fileReady: bool)
      returns (rv: Rv, ghost at: History, ghost added: seq<Url>)
      modifies wire, this`vsidUrls
      ensures Querying(wire.server, old(wire.history), wire.history,
                       fips, metadataReady, fileReady, vectorReq, rv, at, added)
      ensures vsidUrls == old(vsidUrls) + added
    {
      at, added := wire.history, [];
      if !fileReady {
        return Failed, at, added;
      }
      var ok := wire.server.login(wire.history);
      wire.Log(LoggedIn(ok));
      at := wire.history;
      if !ok {
        return Failed, at, added;
      }
      var reply := wire.server.results(wire.history);
      wire.Log(GotResults(reply));
      if reply.NoResults? {
        return Failed, at, added;
      }
      if !reply.Results? {
        return JsonErr, at, added;
      }
      if fips && !metadataReady {
        return UnsupportedOp, at, added;
      }
      if reply.list.None? {
        return JsonErr, at, added;
      }
      added := StoredAll(ToSubmit(reply.list.value, vectorReq));
      rv := LoadUnreceived(reply.list.value);
    }

    /**
     * amvp_resume_test_session, on a fresh context or on one that was used before: `urls` are all
     * that its list holds when the vector sets are processed.
     */
    method Resume(fips: bool, metadataReady: bool, fileReady: bool)
      returns (rv: Rv, ghost at: History, ghost urls: seq<Url>, ghost done: nat)
      requires ValidLimits(limits)
      modifies wire, this`sessionPassed, this`vsidUrls
      ensures Effect(old(wire.history), wire.history, urls, done, fips, vectorReq, old(sessionPassed))
      ensures old(wire.history) <= at && Submissions(at) == Submissions(old(wire.history))
      ensures urls != [] || rv == Success ==> var reply := wire.server.results(at);
        && reply.Results? && reply.list.Some?
        && urls == old(vsidUrls) + StoredAll(ToSubmit(reply.list.value, vectorReq))
      ensures rv == Success ==> done == |urls|
      ensures rv == Success && fips && !vectorReq && old(sessionPassed) && urls != [] ==>
        Sent(old(wire.history), wire.history)
      ensures SettledIn(wire.history, |at| + 1, true) ==>
        !vectorReq && sessionPassed && (fips ==> Sent(old(wire.history), wire.history))
      ensures vectorReq && rv == Success && urls != [] ==>
        Saves(wire.history) == Saves(old(wire.history)) + FileOf(urls)
      ensures !vectorReq ==> Saves(wire.history) == Saves(old(wire.history))
      ensures var reply := wire.server.results(old(wire.history) + [LoggedIn(true)]);
        (Smooth(wire.server, vectorReq, verbose) && metadataReady && fileReady && CanResume(reply, vectorReq)) ==>
          && rv == Success && urls == old(vsidUrls) + StoredAll(ToSubmit(reply.list.value, vectorReq))
          && (fips && !vectorReq && urls != [] && Passes(wire.server) ==> Sent(old(wire.history), wire.history))
    {
      ghost var h0, added := wire.history, [];
      rv, at, added := QueryStatus(fips, metadataReady, fileReady);
      ghost var h1, stale := wire.history, sessionPassed;
      QueryingMeans(wire.server, h0, h1, fips, metadataReady, fileReady, vectorReq, rv, at, added);
      QueriesSubmitNothing(h0, at, h1);
      urls, done := if rv == Success then vsidUrls else [], 0;
      NothingDone(h0, h1, urls, fips, vectorReq, stale);
      RequestsSaveNothing(h0, h1);
      NoneSettled(h1, |at| + 1, true);
      if rv == Success && vsidUrls != [] {
        rv, done := ProcessAndCheck(fips);
        EffectFromEarlier(h0, h1, wire.history, urls, done, fips, vectorReq, stale);
        SettledFrom(h1, wire.history, |at| + 1, true);
      }
    }
  }

  /** Login and registration: what is sent, and how each step can end the run. */
  ghost predicate Registering(server: Behaviour, h0: History, h: History, fips: bool, metadataReady: bool,
                              rv: Rv, urls: seq<Option<Url>>) {
    var h1 := h0 + [LoggedIn(server.login(h0))];
    if !server.login(h0) then h == h1 && rv == Failed && urls == []
    else if fips && !metadataReady then h == h1 && rv == UnsupportedOp && urls == []
    else
      var reply := server.register(h1);
      && h == h1 + [Registration(reply)]
      && if reply.NoRegistration? then rv == Failed && urls == [] else rv == Success && urls == reply.urls
  }

  lemma RegisteringMeans(server: Behaviour, h0: History, h: History, fips: bool, metadataReady: bool,
                         rv: Rv, urls: seq<Option<Url>>)
    requires Registering(server, h0, h, fips, metadataReady, rv, urls)
    ensures h0 <= h && OnlyRequests(h[|h0|..])
    ensures rv == Success ==> Registration(Registered(urls)) in h[|h0|..]
    ensures rv == Success ==> exists g :: server.register(g) == Registered(urls)
    ensures rv != Success ==> urls == []
    ensures forall k :: |h0| <= k < |h| ==> !h[k].GotResults?
    ensures Cooperative(server) && (fips ==> metadataReady) ==> rv == Success
  {
    var h1 := h0 + [LoggedIn(server.login(h0))];
    if h == h1 {
      assert h[|h0|..] == [LoggedIn(server.login(h0))];
    } else {
      var reply := server.register(h1);
      assert h[|h0|..] == [LoggedIn(true), Registration(reply)];
      assert h[|h0|..][1] == Registration(reply);
    }
  }

  /** Login and status query: what is sent, and how each step can end the resumption. */
  ghost predicate Querying(server: Behaviour, h0: History, h: History, fips: bool, metadataReady: bool, fileReady: bool,
                           all: bool, rv: Rv, at: History, added: seq<Url>) {
    var h1 := h0 + [LoggedIn(server.login(h0))];
    if !fileReady then h == at == h0 && rv == Failed && added == []
    else if !server.login(h0) then h == at == h1 && rv == Failed && added == []
    else
      var reply := server.results(h1);
      && at == h1 && h == h1 + [GotResults(reply)]
      && if reply.NoResults? then rv == Failed && added == []
         else if !reply.Results? then rv == JsonErr && added == []
         else if fips && !metadataReady then rv == UnsupportedOp && added == []
         else if reply.list.None? then rv == JsonErr && added == []
         else (rv == Success <==> CanResume(reply, all)) && added == StoredAll(ToSubmit(reply.list.value, all))
  }

  lemma QueryingMeans(server: Behaviour, h0: History, h: History, fips: bool, metadataReady: bool, fileReady: bool,
                      all: bool, rv: Rv, at: History, added: seq<Url>)
    requires Querying(server, h0, h, fips, metadataReady, fileReady, all, rv, at, added)
    ensures h0 <= at <= h && OnlyRequests(h[|h0|..]) && |h| <= |at| + 1
    ensures rv == Success ==> CanResume(server.results(at), all)
    ensures rv == Success ==> added == StoredAll(ToSubmit(server.results(at).list.value, all))
    ensures server.login(h0) && fileReady ==> at == h0 + [LoggedIn(true)]
    ensures server.login(h0) && metadataReady && fileReady && CanResume(server.results(h0 + [LoggedIn(true)]), all) ==>
      rv == Success
  {
    var h1 := h0 + [LoggedIn(server.login(h0))];
    if h == h1 {
      assert h[|h0|..] == [LoggedIn(server.login(h0))];
    } else if h != h0 {
      assert h[|h0|..] == [LoggedIn(server.login(h0)), GotResults(server.results(h1))];
    }
  }

  /** So many fetches of one set. */
  function Copies(url: Url, n: nat): (r: History)
    ensures |r| == n && forall k :: 0 <= k < n ==> r[k] == Fetched(url)
  {
    seq(n, k => Fetched(url))
  }

  /** The reply to fetch number `i` of a set, counted from 0. */
  function Ask(server: Behaviour, h: History, url: Url, i: nat): SetReply {
    server.vectorSet(h + Copies(url, i), url)
  }

  /** The time counted for the waits that the first `n` replies asked for. */
  function Waited(l: Limits, server: Behaviour, h: History, url: Url, n: nat): int {
    if n == 0 then 0
    else
      var before, reply := Waited(l, server, h, url, n - 1), Ask(server, h, url, n - 1);
      if reply.Retry? && before >= 0 then before + Period(l, before, reply.period) else before
  }

  /** Each of the first `n` replies asked for a wait, which the budget still allowed. */
  ghost predicate Waiting(l: Limits, server: Behaviour, h: History, url: Url, n: nat) {
    n == 0 || (Waiting(l, server, h, url, n - 1)
               && Ask(server, h, url, n - 1).Retry? && Waited(l, server, h, url, n - 1) < l.maxWait)
  }

  /** A polling loop behind `n` waits. */
  ghost predicate Polling(l: Limits, server: Behaviour, h: History, url: Url, n: nat, waited: nat, slept: int) {
    Waiting(l, server, h, url, n) && waited == Waited(l, server, h, url, n) && Budget(l, n, waited, slept)
  }

  /** How a polling loop ends behind `n` waits: as the last reply says, or with the budget used up. */
  ghost predicate Outcome(l: Limits, server: Behaviour, h: History, url: Url, n: nat,
                          rv: Rv, processed: bool, written: bool) {
    match Ask(server, h, url, n)
    case NoSet => rv == Failed
    case NotJson => rv == JsonErr
    case VectorSet(p, w) => rv == Success && processed == p && written == w
    case Retry(_) => rv == TransportFail && Waited(l, server, h, url, n) >= l.maxWait
  }

  lemma WaitingOn(l: Limits, server: Behaviour, h: History, url: Url, n: nat, retry: RetryPeriod)
    requires Waiting(l, server, h, url, n) && Ask(server, h, url, n) == Retry(retry)
    requires 0 <= Waited(l, server, h, url, n) < l.maxWait
    ensures Waiting(l, server, h, url, n + 1)
    ensures Waited(l, server, h, url, n + 1)
         == Waited(l, server, h, url, n) + Period(l, Waited(l, server, h, url, n), retry)
  {
  }

  lemma OneMore(h: History, url: Url, n: nat)
    ensures h + Copies(url, n) + [Fetched(url)] == h + Copies(url, n + 1)
  {
  }

  lemma OnlyFetched(h0: History, h1: History, url: Url, n: nat)
    requires h1 == h0 + Copies(url, n)
    ensures OnlySets(h1[|h0|..]) && NoSubmit(h1[|h0|..])
    ensures Submissions(h1) == Submissions(h0) && Saves(h1) == Saves(h0)
  {
    assert h1[|h0|..] == Copies(url, n);
    SubmissionsKept(h0, h1);
    NothingSaved(h0, Copies(url, n));
  }

  lemma OnlySaved(h0: History, h1: History, h2: History, urls: seq<Url>, url: Url, count: nat, written: bool)
    requires h0 <= h1 && OnlySets(h1[|h0|..]) && NoSubmit(h1[|h0|..])
    requires h2 == h1 + (if count == 0 then [SavedHeader(urls)] else []) + (if written then [Saved(url)] else [])
    ensures h0 <= h2 && OnlySets(h2[|h0|..]) && NoSubmit(h2[|h0|..])
  {
    var more := (if count == 0 then [SavedHeader(urls)] else []) + (if written then [Saved(url)] else []);
    assert h2[|h0|..] == h1[|h0|..] + more;
  }

  /** The request file: a header with all URLs, the sets in order, and the end. */
  function FileUpTo(urls: seq<Url>, n: nat): seq<Event>
    requires n <= |urls|
  {
    if n == 0 then [] else
      FileUpTo(urls, n - 1) + (if n == 1 then [SavedHeader(urls)] else []) + [Saved(urls[n - 1])]
  }

  function FileOf(urls: seq<Url>): seq<Event> {
    FileUpTo(urls, |urls|) + [SavedEnd]
  }

  lemma {:induction false} FileMeans(urls: seq<Url>, n: nat)
    requires 0 < n <= |urls|
    ensures |FileUpTo(urls, n)| == n + 1 && FileUpTo(urls, n)[0] == SavedHeader(urls)
    ensures forall k :: 0 <= k < n ==> FileUpTo(urls, n)[k + 1] == Saved(urls[k])
  {
    if n > 1 {
      FileMeans(urls, n - 1);
    }
  }

  /** Between the two histories the file got its first `n` sets, when `all` is set, and else nothing. */
  ghost predicate Filed(h0: History, h: History, urls: seq<Url>, n: nat, all: bool) {
    n <= |urls| && Saves(h) == Saves(h0) + if all then FileUpTo(urls, n) else []
  }

  lemma FileNext(before: seq<Event>, urls: seq<Url>, n: nat)
    requires n < |urls|
    ensures before + FileUpTo(urls, n) + (if n == 0 then [SavedHeader(urls)] else []) + [Saved(urls[n])]
         == before + FileUpTo(urls, n + 1)
  {
  }

  lemma ResultsSaveNothing(h0: History, h1: History)
    requires h0 <= h1 && OnlyResults(h1[|h0|..])
    ensures Saves(h1) == Saves(h0)
  {
    assert h1 == h0 + h1[|h0|..];
    NothingSaved(h0, h1[|h0|..]);
  }

  lemma RequestsSaveNothing(h0: History, h1: History)
    requires h0 <= h1 && OnlyRequests(h1[|h0|..])
    ensures Saves(h1) == Saves(h0)
  {
    assert h1 == h0 + h1[|h0|..];
    NothingSaved(h0, h1[|h0|..]);
  }

  lemma SetsSettleNothing(h0: History, h1: History, passed: bool)
    requires h0 <= h1 && OnlySets(h1[|h0|..])
    ensures !SettledIn(h1, |h0|, passed)
  {
    assert forall k :: |h0| <= k < |h1| ==> h1[k] == h1[|h0|..][k - |h0|];
  }

  lemma SettledFrom(h: History, g: History, from: nat, passed: bool)
    requires h <= g && !SettledIn(h, from, passed)
    ensures SettledIn(g, from, passed) ==> SettledIn(g, |h|, passed)
  {
    assert forall k :: 0 <= k < |h| ==> g[k] == h[k];
  }

  lemma SettledBeforePut(h: History, g: History, from: nat, passed: bool)
    requires h <= g && from <= |h| && forall k :: |h| <= k < |g| ==> g[k].PutValidation?
    ensures SettledIn(g, from, passed) <==> SettledIn(h, from, passed)
  {
    SettledLater(h, g, from, passed);
    NoneSettled(g, |h|, passed);
  }

  /** The first reply to a check settles it when the server says so. */
  lemma FirstReply(h: History, g: History, server: Behaviour)
    requires |h| < |g| && g[|h|] == GotResults(server.results(h))
    ensures SettlesAt(server, h) ==> SettledIn(g, |h|, server.results(h).passed)
  {
    if SettlesAt(server, h) {
      assert IsSettled(g[|h|], server.results(h).passed);
    }
  }

  /** A server that turns nothing down and has every vector set ready. */
  ghost predicate Cooperative(server: Behaviour) {
    && (forall h {:trigger server.login(h)} :: server.login(h))
    && (forall h {:trigger server.register(h)} :: server.register(h).Registered?)
    && (forall h, url {:trigger server.vectorSet(h, url)} :: server.vectorSet(h, url) == VectorSet(true, true))
    && (forall h, url {:trigger server.submit(h, url)} :: server.submit(h, url))
    && (forall h {:trigger server.closes(h)} :: server.closes(h))
    && (forall h {:trigger server.validation(h)} :: server.validation(h))
  }

  /** Nothing stands in the way of a session, which may be one that only downloads. */
  ghost predicate Smooth(server: Behaviour, all: bool, verbose: bool) {
    Cooperative(server) && (all || (SettlesAfterSubmission(server) && !verbose))
  }

  /** Once a response has come in, the session has passed. */
  ghost predicate Passes(server: Behaviour) {
    forall h {:trigger server.results(h)} :: JustSubmitted(h) ==> server.results(h).Results? && server.results(h).passed
  }

  ghost predicate SettlesAt(server: Behaviour, h: History) {
    server.results(h).Results? && Settled(Entries(server.results(h)))
  }

  predicate JustSubmitted(h: History) {
    h != [] && h[|h| - 1].Submitted?
  }

  /** Once a response has come in, the results are final and no vector set counts as failed. */
  ghost predicate SettlesAfterSubmission(server: Behaviour) {
    forall h {:trigger server.results(h)} :: JustSubmitted(h) ==> SettlesAt(server, h)
  }

  /** Between the two histories the first `done` URLs were answered, or only downloaded when `all` is set. */
  ghost predicate Answered(h0: History, h: History, urls: seq<Url>, done: nat, all: bool) {
    && h0 <= h && OnlySets(h[|h0|..]) && done <= |urls|
    && Submissions(h) == Submissions(h0) + (if all then [] else urls[..done])
    && (all ==> NoSubmit(h[|h0|..]))
  }

  lemma AnsweredNext(h0: History, h1: History, h2: History, urls: seq<Url>, k: nat, k': nat, all: bool)
    requires Answered(h0, h1, urls, k, all) && k <= k' <= k + 1 && k' <= |urls|
    requires h1 <= h2 && OnlySets(h2[|h1|..]) && (all ==> NoSubmit(h2[|h1|..]))
    requires Submissions(h2) == Submissions(h1) + (if all then [] else urls[k..k'])
    ensures Answered(h0, h2, urls, k', all)
  {
    SetsJoin(h0, h1, h2, all);
    if !all {
      FrontGrows(Submissions(h0), urls, k, k');
    }
  }

  lemma FrontGrows(before: seq<Url>, urls: seq<Url>, k: nat, k': nat)
    requires k <= k' <= |urls|
    ensures before + urls[..k] + urls[k..k'] == before + urls[..k']
  {
    assert urls[..k'] == urls[..k] + urls[k..k'];
  }

  lemma SetsJoin(h0: History, h1: History, h2: History, all: bool)
    requires h0 <= h1 <= h2 && OnlySets(h1[|h0|..]) && OnlySets(h2[|h1|..])
    requires all ==> NoSubmit(h1[|h0|..]) && NoSubmit(h2[|h1|..])
    ensures h0 <= h2 && OnlySets(h2[|h0|..]) && (all ==> NoSubmit(h2[|h0|..]))
  {
    HistorySplit(h0, h1, h2);
  }

  /** Only such events happen before the URL list is known. */
  predicate OnlyRequests(h: History) {
    forall k :: 0 <= k < |h| ==> h[k].LoggedIn? || h[k].Registration? || h[k].GotResults?
  }

  /** The history ends in the only validation since `before`. */
  ghost predicate Sent(before: History, after: History) {
    |before| < |after| && after[|after| - 1].PutValidation? && Quiet(before, after[..|after| - 1])
  }

  /**
   * No validation was sent; or one was, as it was asked for, and either it is justified or the
   * context had counted as passed before (`stale`).
   */
  ghost predicate Gate(before: History, after: History, urls: seq<Url>, fips: bool, stale: bool) {
    Quiet(before, after) || (fips && Sent(before, after) && (stale || Validated(before, after, urls)))
  }

  /**
   * What a session does between two histories: the first `done` URLs are answered, each once and
   * in order, and a validation is sent only behind the answers to all of them. With `all` set the
   * session only downloads, and neither answers nor validates.
   */
  ghost predicate Effect(before: History, after: History, urls: seq<Url>, done: nat,
                         fips: bool, all: bool, stale: bool) {
    && before <= after && done <= |urls|
    && Submissions(after) == Submissions(before) + (if all then [] else urls[..done])
    && Gate(before, after, urls, fips, stale)
    && (!Quiet(before, after) ==> !all && done == |urls|)
    && (all ==> NoSubmit(after[|before|..]))
  }

  lemma NothingDone(h0: History, h1: History, urls: seq<Url>, fips: bool, all: bool, stale: bool)
    requires h0 <= h1 && OnlyRequests(h1[|h0|..])
    ensures Effect(h0, h1, urls, 0, fips, all, stale)
  {
    SubmissionsKept(h0, h1);
  }

  lemma QueriesSubmitNothing(h0: History, at: History, h1: History)
    requires h0 <= at <= h1 && OnlyRequests(h1[|h0|..])
    ensures Submissions(at) == Submissions(h0)
  {
    assert forall k :: 0 <= k < |at| - |h0| ==> at[|h0|..][k] == h1[|h0|..][k];
    SubmissionsKept(h0, at);
  }

  /** Requests ahead of a session do not change its effect. */
  lemma EffectFromEarlier(h0: History, h1: History, h2: History, urls: seq<Url>, done: nat,
                          fips: bool, all: bool, stale: bool)
    requires h0 <= h1 && OnlyRequests(h1[|h0|..]) && Effect(h1, h2, urls, done, fips, all, stale)
    ensures Effect(h0, h2, urls, done, fips, all, stale)
    ensures Sent(h1, h2) ==> Sent(h0, h2)
  {
    SubmissionsKept(h0, h1);
    HistorySplit(h0, h1, h2);
    StartLater(h0, h1, h2, urls);
  }

  lemma StillIn(h0: History, h1: History, h2: History, e: Event)
    requires h0 <= h1 <= h2 && e in h1[|h0|..]
    ensures e in h2[|h0|..]
  {
    assert h2[|h0|..] == h1[|h0|..] + h2[|h1|..];
  }

  lemma HistorySplit(h0: History, h1: History, h2: History)
    requires h0 <= h1 <= h2
    ensures h2[|h0|..] == h1[|h0|..] + h2[|h1|..]
  {
  }

  /** A validation justified since `h1` is justified since `h0`. */
  lemma StartLater(h0: History, h1: History, h2: History, urls: seq<Url>)
    requires h0 <= h1 <= h2 && Quiet(h0, h1) && Submissions(h1) == Submissions(h0)
    ensures Quiet(h1, h2) <==> Quiet(h0, h2)
    ensures Sent(h1, h2) ==> Sent(h0, h2)
    ensures Validated(h1, h2, urls) ==> Validated(h0, h2, urls)
  {
    HistorySplit(h0, h1, h2);
    if Sent(h1, h2) {
      HistorySplit(h0, h1, h2[..|h2| - 1]);
    }
  }

  /** The statuses from which a session can be resumed. */
  predicate Resumable(entries: seq<Entry>, all: bool) {
    entries == [] ||
    (entries[0].status.Some? && entries[0].url.Some? && (all || entries[0].status.value != "expired")
     && Resumable(entries[1..], all))
  }

  /** A reply to the status query from which the session can be resumed. */
  predicate CanResume(reply: ResultsReply, all: bool) {
    reply.Results? && reply.list.Some? && Resumable(reply.list.value, all)
  }

  /** The URLs that a resumption takes from the reply, up to the first entry that ends it. */
  function ToSubmit(entries: seq<Entry>, all: bool): seq<Url> {
    if entries == [] then []
    else
      var e := entries[0];
      if e.status.None? || e.url.None? || (!all && e.status.value == "expired") then []
      else (if all || e.status.value == "unreceived" then [e.url.value] else []) + ToSubmit(entries[1..], all)
  }

  /** What a resumption takes is told entry by entry: all, or only what is reported as unreceived. */
  lemma {:induction false} ToSubmitSplit(a: seq<Entry>, b: seq<Entry>, all: bool)
    requires Resumable(a, all)
    ensures ToSubmit(a + b, all) == ToSubmit(a, all) + ToSubmit(b, all)
  {
    if a == [] {
      assert a + b == b;
    } else {
      var e, rest := a[0], a[1..];
      var head := if all || e.status.value == "unreceived" then [e.url.value] else [];
      ToSubmitSplit(rest, b, all);
      assert (a + b)[0] == e && (a + b)[1..] == rest + b;
      assert ToSubmit(a, all) == head + ToSubmit(rest, all) && ToSubmit(a + b, all) == head + ToSubmit(rest + b, all);
      Regrouped(head, ToSubmit(rest, all), ToSubmit(b, all));
    }
  }

  lemma ToSubmitOne(e: Entry, url: Url, status: string, all: bool)
    requires e == Entry(Some(status), Some(url))
    ensures Resumable([e], all) <==> all || status != "expired"
    ensures Resumable([e], all) ==> ToSubmit([e], all) == if all || status == "unreceived" then [url] else []
  {
    assert [e][1..] == [] && ToSubmit([], all) == [];
  }

  /** The URL list after the status loop over `entries`. */
  function ListAfter(urls: seq<Url>, entries: seq<Entry>, all: bool): seq<Url> {
    urls + StoredAll(ToSubmit(entries, all))
  }

  /** What the status loop does with the first entry. */
  lemma EntryFirst(entries: seq<Entry>, all: bool, urls: seq<Url>)
    requires entries != []
    ensures var (e, rest) := (entries[0], entries[1..]);
      && Resumable(entries, all) ==
           (e.status.Some? && e.url.Some? && (all || e.status.value != "expired") && Resumable(rest, all))
      && ListAfter(urls, entries, all) ==
           if e.status.None? || e.url.None? || (!all && e.status.value == "expired") then urls
           else if all || e.status.value == "unreceived" then ListAfter(urls + [Stored(e.url.value)], rest, all)
           else ListAfter(urls, rest, all)
  {
    var e, rest := entries[0], entries[1..];
    if e.status.None? || e.url.None? || (!all && e.status.value == "expired") {
      assert StoredAll([]) == [];
    } else if all || e.status.value == "unreceived" {
      StoredAllCons(e.url.value, ToSubmit(rest, all));
      Regrouped(urls, [Stored(e.url.value)], StoredAll(ToSubmit(rest, all)));
    } else {
      assert [] + ToSubmit(rest, all) == ToSubmit(rest, all);
    }
  }

  /**
   * A validation that is justified: ahead of it every URL was answered in order, and then a reply
   * reported that the whole session passed.
   */
  ghost predicate Validated(before: History, after: History, urls: seq<Url>) {
    && Sent(before, after)
    && exists k {:trigger after[k]} :: |before| <= k < |after| - 1
         && after[k].GotResults? && AllPassed(after[k].reply)
         && Submissions(after[..k]) == Submissions(before) + urls
  }

  /** A validation behind the reply of a check, which it leaves as it is. */
  lemma SentBehind(h0: History, h1: History, h2: History, h3: History, urls: seq<Url>)
    requires h0 <= h1 <= h2 && |h1| < |h2| && Quiet(h0, h2) && OnlyResults(h2[|h1|..])
    requires Submissions(h1) == Submissions(h0) + urls
    requires |h3| == |h2| + 1 && h3[..|h2|] == h2 && h3[|h2|].PutValidation?
    ensures Sent(h0, h3) && !Quiet(h0, h3)
    ensures PassedIn(h2, |h1|) ==> Validated(h0, h3, urls)
  {
    ValidationSent(h0, h2, h3);
    if PassedIn(h2, |h1|) {
      ValidationJustified(h0, h1, h2, h3, urls);
    }
  }

  lemma PutSettlesNothing(h1: History, h2: History, h3: History)
    requires |h1| < |h2| && |h3| == |h2| + 1 && h3[..|h2|] == h2 && h3[|h2|].PutValidation?
    ensures h2 <= h3 && h3[|h1|] == h2[|h1|]
    ensures forall passed :: SettledIn(h3, |h1|, passed) <==> SettledIn(h2, |h1|, passed)
  {
    assert h2 <= h3;
    forall passed
      ensures SettledIn(h3, |h1|, passed) <==> SettledIn(h2, |h1|, passed)
    {
      SettledBeforePut(h2, h3, |h1|, passed);
    }
  }

  lemma ValidationSent(h0: History, h2: History, h3: History)
    requires h0 <= h2 && Quiet(h0, h2) && |h3| == |h2| + 1 && h3[..|h2|] == h2 && h3[|h2|].PutValidation?
    ensures Sent(h0, h3) && !Quiet(h0, h3)
  {
    assert h3[|h0|..][|h2| - |h0|] == h3[|h2|];
  }

  lemma ValidationJustified(h0: History, h1: History, h2: History, h3: History, urls: seq<Url>)
    requires h0 <= h1 <= h2 && Quiet(h0, h2)
    requires Submissions(h1) == Submissions(h0) + urls
    requires OnlyResults(h2[|h1|..]) && PassedIn(h2, |h1|)
    requires |h3| == |h2| + 1 && h3[..|h2|] == h2 && h3[|h2|].PutValidation?
    ensures Validated(h0, h3, urls)
  {
    ValidationSent(h0, h2, h3);
    var k :| |h1| <= k < |h2| && h2[k].GotResults? && AllPassed(h2[k].reply);
    NoSubmissionsBetween(h1, h2, k);
    SamePrefix(h2, h3, k);
  }

  lemma SamePrefix(h2: History, h3: History, k: nat)
    requires k < |h2| <= |h3| && h3[..|h2|] == h2
    ensures h3[..k] == h2[..k] && h3[k] == h2[k]
  {
    assert h3[k] == h3[..|h2|][k];
  }

  lemma NoSubmissionsBetween(h1: History, h2: History, k: nat)
    requires h1 <= h2 && |h1| <= k <= |h2| && OnlyResults(h2[|h1|..])
    ensures Submissions(h2[..k]) == Submissions(h1)
  {
    forall m | 0 <= m < k - |h1|
      ensures !h2[..k][|h1|..][m].Submitted?
    {
      assert h2[..k][|h1|..][m] == h2[|h1|..][m];
    }
    SubmissionsKept(h1, h2[..k]);
  }

  lemma SubmissionsKept(before: History, after: History)
    requires before <= after && NoSubmit(after[|before|..])
    ensures Submissions(after) == Submissions(before)
  {
    assert after == before + after[|before|..];
    NoSubmitNoSubmissions(before, after[|before|..]);
  }
}
