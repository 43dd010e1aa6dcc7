/**
 * The surroundings of the client of src/amvp.c: an arbitrary server (and request file) whose
 * every reply may depend on the whole history, and the history of the exchange itself.
 */
module Server {
  import opened Options

  type Url = string

  /** AMVP_ATTR_URL_MAX and AMVP_STRING_LIST_MAX_LEN */
  const ATTR_URL_MAX := 2083
  const STRING_LIST_MAX_LEN := 256

  /** The JSON number `retry` as a C int; 0 means that the member is absent. */
  type RetryPeriod = x: int | -0x8000_0000 <= x < 0x8000_0000 && x != 0 witness 1

  /** Reply to a vector set download. */
  datatype SetReply = NoSet | NotJson | Retry(period: RetryPeriod) | VectorSet(processed: bool, written: bool)

  /** One element of the `results` array, with the fields that may be missing. */
  datatype Entry = Entry(status: Option<string>, url: Option<Url>)
  datatype ResultsReply = NoResults | ResultsNotJson | NoObject | Results(list: Option<seq<Entry>>, passed: bool)

  /** Reply to the download of a failed vector set. */
  datatype SetInfo = NoInfo | InfoNotJson | InfoNoObject | Info(alg: Option<string>, mode: Option<string>)

  /** Reply to a registration: a `vectorSetUrls` element is missing when it is not a string. */
  datatype RegisterReply = NoRegistration | Registered(urls: seq<Option<Url>>)

  datatype Event =
    | LoggedIn(ok: bool)
    | Registration(registered: RegisterReply)
    | Fetched(url: Url)
    | SavedHeader(urls: seq<Url>)
    | Saved(url: Url)
    | SavedEnd
    | Submitted(url: Url, ok: bool)
    | GotResults(reply: ResultsReply)
    | LookedUp(url: Url)
    | Detailed(url: Url)
    | PutValidation(ok: bool)

  type History = seq<Event>

  datatype Behaviour = Behaviour(
    login: History -> bool,
    register: History -> RegisterReply,
    vectorSet: (History, Url) -> SetReply,
    submit: (History, Url) -> bool,
    closes: History -> bool,
    results: History -> ResultsReply,
    info: (History, Url) -> SetInfo,
    details: (History, Url) -> bool,
    validation: History -> bool)

  /** The URLs whose responses were submitted successfully, in order. */
  function Submissions(h: History): seq<Url> {
    if h == [] then []
    else
      var e := h[|h| - 1];
      Submissions(h[..|h| - 1]) + if e.Submitted? && e.ok then [e.url] else []
  }

  /** The URLs downloaded to name their failed algorithm, in order. */
  function Lookups(h: History): seq<Url> {
    if h == [] then []
    else
      var e := h[|h| - 1];
      Lookups(h[..|h| - 1]) + if e.LookedUp? then [e.url] else []
  }

  /** What was written to the request file, in order. */
  function Saves(h: History): seq<Event> {
    if h == [] then []
    else
      var e := h[|h| - 1];
      Saves(h[..|h| - 1]) + if e.SavedHeader? || e.Saved? || e.SavedEnd? then [e] else []
  }

  lemma {:induction false} NothingSaved(h: History, g: History)
    requires forall k :: 0 <= k < |g| ==> !g[k].SavedHeader? && !g[k].Saved? && !g[k].SavedEnd?
    ensures Saves(h + g) == Saves(h)
  {
    if g == [] {
      assert h + g == h;
    } else {
      NothingSaved(h, g[..|g| - 1]);
      assert (h + g)[..|h + g| - 1] == h + g[..|g| - 1];
    }
  }

  /** How often the results were fetched. */
  function Fetches(h: History): nat {
    if h == [] then 0 else Fetches(h[..|h| - 1]) + if h[|h| - 1].GotResults? then 1 else 0
  }

  lemma {:induction false} NoFetches(h: History, g: History)
    requires forall k :: 0 <= k < |g| ==> !g[k].GotResults?
    ensures Fetches(h + g) == Fetches(h)
  {
    if g == [] {
      assert h + g == h;
    } else {
      NoFetches(h, g[..|g| - 1]);
      assert (h + g)[..|h + g| - 1] == h + g[..|g| - 1];
    }
  }

  /** No validation was asked for. */
  predicate NoPut(h: History) {
    forall k :: 0 <= k < |h| ==> !h[k].PutValidation?
  }

  /** No response left the client, successfully or not. */
  predicate NoSubmit(h: History) {
    forall k :: 0 <= k < |h| ==> !h[k].Submitted?
  }

  lemma {:induction false} NoSubmitNoSubmissions(h: History, g: History)
    requires NoSubmit(g)
    ensures Submissions(h + g) == Submissions(h)
  {
    if g == [] {
      assert h + g == h;
    } else {
      NoSubmitNoSubmissions(h, g[..|g| - 1]);
      assert (h + g)[..|h + g| - 1] == h + g[..|g| - 1];
    }
  }

  /** A missing `results` array counts as an empty one. */
  function Entries(r: ResultsReply): seq<Entry>
    requires r.Results?
  {
    if r.list.Some? then r.list.value else []
  }

  /** The entry has its final result. */
  predicate Finished(e: Entry) {
    e.status.Some? && e.status.value !in {"expired", "unreceived", "incomplete"}
  }

  /** A results reply on which the session counts as passed. */
  predicate AllPassed(r: ResultsReply) {
    r.Results? && r.passed && forall k :: 0 <= k < |Entries(r)| ==> Finished(Entries(r)[k])
  }

  // ---- URL lists -----------------------------------------------------------

  /** A URL copied into its list node: one that does not fit leaves the node empty. */
  function Stored(url: Url): Url {
    if |url| <= ATTR_URL_MAX then url else ""
  }

  function StoredAll(urls: seq<Url>): (r: seq<Url>)
    ensures |r| == |urls|
    ensures forall k :: 0 <= k < |urls| ==> r[k] == Stored(urls[k])
  {
    seq(|urls|, k requires 0 <= k < |urls| => Stored(urls[k]))
  }

  /** The list holds the URLs as they are if and only if each of them fits its node. */
  lemma StoredExactly(urls: seq<Url>)
    ensures StoredAll(urls) == urls <==> forall k :: 0 <= k < |urls| ==> |urls[k]| <= 2083
    ensures forall k :: 0 <= k < |urls| && |urls[k]| > 2083 ==> StoredAll(urls)[k] == ""
  {
    if k :| 0 <= k < |urls| && |urls[k]| > ATTR_URL_MAX {
      assert StoredAll(urls)[k] != urls[k];
    }
  }

  lemma StoredAllCons(url: Url, urls: seq<Url>)
    ensures StoredAll([url] + urls) == [Stored(url)] + StoredAll(urls)
  {
  }

  /** The URLs of a registration up to the first element that is not a string. */
  function Leading(urls: seq<Option<Url>>): seq<Url> {
    if urls == [] || urls[0].None? then [] else [urls[0].value] + Leading(urls[1..])
  }

  /** They are as many as there are strings in front, and exactly those. */
  lemma {:induction false} LeadingMeans(urls: seq<Option<Url>>)
    ensures var n := |Leading(urls)|;
      && n <= |urls| && (n < |urls| ==> urls[n].None?)
      && forall k :: 0 <= k < n ==> urls[k] == Some(Leading(urls)[k])
  {
    if urls != [] && urls[0].Some? {
      LeadingMeans(urls[1..]);
    }
  }

  /** The wire to one server, shared by every client process of a session. */
  class Wire {
    const server: Behaviour
    var history: History

    constructor (server: Behaviour)
      ensures this.server == server && history == []
    {
      this.server, history := server, [];
    }

    method Log(e: Event)
      modifies this
      ensures history == old(history) + [e]
      ensures Submissions(history) == Submissions(old(history)) + if e.Submitted? && e.ok then [e.url] else []
      ensures Lookups(history) == Lookups(old(history)) + if e.LookedUp? then [e.url] else []
      ensures Saves(history) == Saves(old(history)) + if e.SavedHeader? || e.Saved? || e.SavedEnd? then [e] else []
      ensures Fetches(history) == Fetches(old(history)) + if e.GotResults? then 1 else 0
    {
      history := history + [e];
      assert history[..|history| - 1] == old(history);
    }
  }
}
