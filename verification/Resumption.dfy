/**
 * Interrupting a session and resuming it from fresh contexts, any number of times, submits every
 * vector set exactly once. A context that still holds URLs, or that counts as passed, does worse:
 * this module says exactly when.
 */
module Resumption {
  import opened Options
  import opened Server
  import opened Retry
  import opened Results
  import opened Session

  /** An entry reports a URL as received, or as not received; none as expired. */
  predicate Reports(e: Entry, url: Url, received: bool) {
    && e.url == Some(url) && e.status.Some?
    && if received then e.status.value !in {"expired", "unreceived"} else e.status.value == "unreceived"
  }

  /** The server reports the first `k` vector sets as received and the others as not. */
  predicate Honest(entries: seq<Entry>, urls: seq<Url>, k: nat) {
    |entries| == |urls| && forall i :: 0 <= i < |urls| ==> Reports(entries[i], urls[i], i < k)
  }

  lemma HonestTail(entries: seq<Entry>, urls: seq<Url>, k: nat)
    requires Honest(entries, urls, k) && urls != []
    ensures Honest(entries[1..], urls[1..], if k == 0 then 0 else k - 1)
  {
    forall i | 0 <= i < |urls| - 1
      ensures Reports(entries[1..][i], urls[1..][i], i < if k == 0 then 0 else k - 1)
    {
      assert Reports(entries[i + 1], urls[i + 1], i + 1 < k);
    }
  }

  lemma FirstReported(entries: seq<Entry>, url: Url, received: bool)
    requires entries != [] && Reports(entries[0], url, received)
    ensures Resumable(entries, false) == Resumable(entries[1..], false)
    ensures ToSubmit(entries, false) == (if received then [] else [url]) + ToSubmit(entries[1..], false)
  {
    assert |"expired"| == 7 && |"unreceived"| == 10;
  }

  /** An honest report yields exactly the URLs that are still to be answered. */
  lemma {:induction false} HonestRemaining(entries: seq<Entry>, urls: seq<Url>, k: nat)
    requires Honest(entries, urls, k) && k <= |urls|
    ensures Resumable(entries, false) && ToSubmit(entries, false) == urls[k..]
  {
    if urls != [] {
      HonestTail(entries, urls, k);
      HonestRemaining(entries[1..], urls[1..], if k == 0 then 0 else k - 1);
      FirstReported(entries, urls[0], 0 < k);
      assert urls[k..] == (if k == 0 then [urls[0]] else []) + urls[1..][if k == 0 then 0 else k - 1..];
    }
  }

  /** A server that hands out `urls` and reports honestly on the submissions it got for them. */
  ghost predicate HonestServer(server: Behaviour, urls: seq<Url>) {
    && (forall h {:trigger server.register(h)} ::
          server.register(h).Registered? ==> Leading(server.register(h).urls) == urls)
    && (forall h {:trigger server.results(h)} ::
          var r := server.results(h);
          r.Results? && r.list.Some? && |Submissions(h)| <= |urls| ==> Honest(r.list.value, urls, |Submissions(h)|))
  }

  /** The responses sent so far are those to the first URLs of the registration, each once and in order. */
  ghost predicate OnceInOrder(h: History, urls: seq<Url>) {
    Submissions(h) <= StoredAll(urls)
  }

  /** A first run of a session over a new wire. */
  method FirstRun(wire: Wire, limits: Limits, fips: bool, metadataReady: bool, ghost urls: seq<Url>)
    returns (rv: Rv, client: Client)
    requires ValidLimits(limits) && wire.history == [] && HonestServer(wire.server, urls)
    modifies wire
    ensures fresh(client) && client.wire == wire && client.limits == limits && !client.vectorReq
    ensures OnceInOrder(wire.history, urls)
    ensures client.vsidUrls == [] || client.vsidUrls == StoredAll(urls)
    ensures rv == Success ==> Submissions(wire.history) == StoredAll(urls) == client.vsidUrls != []
  {
    client := new Client(wire, limits, false, false);
    ghost var replied, done;
    rv, replied, done := client.Run(fips, metadataReady);
    assert replied != [] || rv == Success ==> Leading(replied) == urls;
  }

  /** An honest reply asks for exactly the URLs behind those answered so far. */
  lemma HonestRest(server: Behaviour, urls: seq<Url>, at: History)
    requires HonestServer(server, urls) && |Submissions(at)| <= |urls|
    requires server.results(at).Results? && server.results(at).list.Some?
    ensures StoredAll(ToSubmit(server.results(at).list.value, false)) == StoredAll(urls)[|Submissions(at)|..]
  {
    var k := |Submissions(at)|;
    HonestRemaining(server.results(at).list.value, urls, k);
    StoredBehind(urls, k);
  }

  lemma StoredBehind(urls: seq<Url>, k: nat)
    requires k <= |urls|
    ensures StoredAll(urls[k..]) == StoredAll(urls)[k..]
  {
  }

  /** The responses so far and the first `done` of those that the honest reply asks for, together. */
  lemma HonestResumption(server: Behaviour, urls: seq<Url>, at: History, rest: seq<Url>, done: nat)
    requires HonestServer(server, urls) && OnceInOrder(at, urls) && done <= |rest|
    requires var reply := server.results(at);
      reply.Results? && reply.list.Some? && rest == StoredAll(ToSubmit(reply.list.value, false))
    ensures rest == StoredAll(urls)[|Submissions(at)|..]
    ensures Submissions(at) + rest[..done] <= StoredAll(urls)
    ensures done == |rest| ==> Submissions(at) + rest[..done] == StoredAll(urls)
  {
    HonestRest(server, urls, at);
    Rejoined(Submissions(at), StoredAll(urls), rest, done);
  }

  lemma Rejoined(front: seq<Url>, all: seq<Url>, rest: seq<Url>, done: nat)
    requires front <= all && rest == all[|front|..] && done <= |rest|
    ensures front + rest[..done] <= all
    ensures done == |rest| ==> front + rest[..done] == all
  {
    assert front == all[..|front|];
    assert front + rest[..done] == all[..|front| + done];
  }

  /**
   * A resumption on any context. When it succeeds, every vector set has been answered exactly once
   * if and only if the context held no URL before: what it held is answered again, ahead of the rest.
   */
  method ResumeOn(client: Client, fips: bool, metadataReady: bool, fileReady: bool, ghost urls: seq<Url>)
    returns (rv: Rv)
    requires ValidLimits(client.limits) && !client.vectorReq
    requires HonestServer(client.wire.server, urls) && OnceInOrder(client.wire.history, urls)
    modifies client, client.wire
    ensures rv == Success ==>
      var k := |Submissions(old(client.wire.history))|;
      Submissions(client.wire.history) == StoredAll(urls)[..k] + old(client.vsidUrls) + StoredAll(urls)[k..]
    ensures rv == Success ==> (Submissions(client.wire.history) == StoredAll(urls) <==> old(client.vsidUrls) == [])
    ensures old(client.vsidUrls) == [] ==> OnceInOrder(client.wire.history, urls)
    ensures Submissions(old(client.wire.history)) <= Submissions(client.wire.history)
  {
    ghost var h0, held := client.wire.history, client.vsidUrls;
    ghost var at, all, done;
    rv, at, all, done := client.Resume(fips, metadataReady, fileReady);
    if all != [] || rv == Success {
      ghost var rest := StoredAll(ToSubmit(client.wire.server.results(at).list.value, false));
      HonestResumption(client.wire.server, urls, at, rest, |rest|);
      if held == [] {
        assert all == rest;
        HonestResumption(client.wire.server, urls, at, rest, done);
      }
      AnsweredAgain(Submissions(h0), held, rest, StoredAll(urls));
      assert all[..|all|] == all;
    }
  }

  lemma AnsweredAgain(before: seq<Url>, held: seq<Url>, rest: seq<Url>, urls: seq<Url>)
    requires before <= urls && rest == urls[|before|..]
    ensures before + (held + rest) == urls[..|before|] + held + urls[|before|..]
    ensures before + (held + rest) == urls <==> held == []
  {
    assert |before + (held + rest)| == |urls| + |held|;
    if held == [] {
      assert held + rest == rest;
    }
  }

  /** A later process that resumes the session, which has a fresh context. */
  method ResumeOnce(wire: Wire, limits: Limits, fips: bool, metadataReady: bool, fileReady: bool, ghost urls: seq<Url>)
    returns (rv: Rv)
    requires ValidLimits(limits) && HonestServer(wire.server, urls) && OnceInOrder(wire.history, urls)
    modifies wire
    ensures OnceInOrder(wire.history, urls) && Submissions(old(wire.history)) <= Submissions(wire.history)
    ensures rv == Success ==> Submissions(wire.history) == StoredAll(urls)
  {
    var client := new Client(wire, limits, false, false);
    rv := ResumeOn(client, fips, metadataReady, fileReady, urls);
  }

  /** One run and any number of resumptions, each in a process of its own, and each of which may fail anywhere. */
  method RunAndResume(wire: Wire, limits: Limits, fips: bool, attempts: nat, ghost urls: seq<Url>) returns (rv: Rv)
    requires ValidLimits(limits) && wire.history == [] && HonestServer(wire.server, urls)
    modifies wire
    ensures OnceInOrder(wire.history, urls)
    ensures rv == Success ==> Submissions(wire.history) == StoredAll(urls)
  {
    var first;
    rv, first := FirstRun(wire, limits, fips, true, urls);
    for i := 0 to attempts
      invariant OnceInOrder(wire.history, urls)
      invariant rv == Success ==> Submissions(wire.history) == StoredAll(urls)
    {
      rv := ResumeOnce(wire, limits, fips, true, true, urls);
    }
  }

  // ---- contexts that are used again ----------------------------------------

  /**
   * A run that loaded its URLs and stopped after `k` responses, and a resumption on the same
   * context that succeeds: the list is answered from the start again, and then from `k` on.
   */
  method ResumeOnSameContext(wire: Wire, limits: Limits, fips: bool, ghost urls: seq<Url>)
    returns (rv: Rv, ghost loaded: bool, ghost k: nat)
    requires ValidLimits(limits) && wire.history == [] && HonestServer(wire.server, urls)
    modifies wire
    ensures k <= |urls|
    ensures rv == Success && loaded ==>
      Submissions(wire.history) == StoredAll(urls)[..k] + StoredAll(urls) + StoredAll(urls)[k..]
    ensures rv == Success && !loaded ==> Submissions(wire.history) == StoredAll(urls)
  {
    var client;
    rv, client := FirstRun(wire, limits, fips, true, urls);
    loaded, k := client.vsidUrls != [], |Submissions(wire.history)|;
    rv := ResumeOn(client, fips, true, true, urls);
  }

  /** A server that finds a fault with the one vector set of its session, and never reports a pass. */
  function Condemning(url: Url): Behaviour {
    Behaviour(
      login := h => true,
      register := h => Registered([Some(url)]),
      vectorSet := (h, u) => VectorSet(true, true),
      submit := (h, u) => true,
      closes := h => true,
      results := h =>
        Results(Some([Entry(Some(if JustSubmitted(h) then "error" else "unreceived"), Some(url))]), false),
      info := (h, u) => NoInfo,
      details := (h, u) => true,
      validation := h => true)
  }

  lemma CondemningFacts(url: Url)
    ensures Cooperative(Condemning(url)) && SettlesAfterSubmission(Condemning(url))
    ensures forall h {:trigger Condemning(url).results(h)} :: !AllPassed(Condemning(url).results(h))
  {
    forall h | JustSubmitted(h)
      ensures SettlesAt(Condemning(url), h)
    {
      assert Entries(Condemning(url).results(h)) == [Entry(Some("error"), Some(url))];
      assert |"error"| == 5 && |"fail"| == 4 && |"expired"| == 7 && |"unreceived"| == |"incomplete"| == 10;
    }
  }

  /**
   * The gate in front of a validation holds against every server on a context that does not count
   * as passed, which is what `Resume` ensures. On every other context this server breaks it.
   */
  method GateFails(client: Client, ghost url: Url) returns (rv: Rv)
    requires ValidLimits(client.limits) && !client.vectorReq && !client.verbose
    requires client.sessionPassed && client.wire.server == Condemning(url)
    modifies client, client.wire
    ensures rv == Success && Sent(old(client.wire.history), client.wire.history)
    ensures forall h {:trigger client.wire.server.results(h)} :: !AllPassed(client.wire.server.results(h))
  {
    CondemningFacts(url);
    ghost var h := client.wire.history + [LoggedIn(true)];
    ghost var entries := client.wire.server.results(h).list.value;
    assert h[|h| - 1] == LoggedIn(true) && entries == [Entry(Some("unreceived"), Some(url))];
    FirstReported(entries, url, false);
    assert entries[1..] == [] && ToSubmit(entries[1..], false) == [];
    ghost var at, urls, done;
    rv, at, urls, done := client.Resume(true, true, true);
  }
}
