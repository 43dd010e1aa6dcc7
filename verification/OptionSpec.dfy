/**
 * What one command-line token means to app/ketopt.h, and the batch reading of a whole command
 * line that the incremental, permuting parser is proved to compute.
 */
module OptionSpec {
  import opened Options

  datatype HasArg = NoArgument | RequiredArgument | OptionalArgument
  datatype LongOpt = LongOpt(name: string, hasArg: HasArg, val: int)

  const UNKNOWN := 63          // '?'
  const MISSING := 58          // ':'
  const OPTION_NAME_MAX := 128
  const OSTR := "vhas:u:r:p:"

  /** A C string read at `k`, with the terminator behind its last character. */
  function At(s: string, k: nat): char {
    if k < |s| then s[k] else '\0'
  }

  predicate NonOption(s: string) {
    |s| < 2 || s[0] != '-'
  }

  // ---- long option names ---------------------------------------------------

  datatype Resolution = Found(idx: nat) | Ambiguous | Unknown

  function NameEnd(s: string, j: nat): (e: nat)
    requires j <= |s|
    ensures j <= e <= |s|
    ensures '=' !in s[j..e] && (e < |s| ==> s[e] == '=')
    decreases |s| - j
  {
    if j == |s| || s[j] == '=' then j else NameEnd(s, j + 1)
  }

  predicate Exact(longs: seq<LongOpt>, typed: string, k: nat) {
    k < |longs| && longs[k].name == typed
  }

  predicate Partial(longs: seq<LongOpt>, typed: string, k: nat) {
    k < |longs| && typed < longs[k].name
  }

  predicate Comparable(typed: string) {
    0 < |typed| <= OPTION_NAME_MAX
  }

  ghost predicate Only(p: nat -> bool, k: nat) {
    p(k) && forall m: nat :: p(m) ==> m == k
  }

  ghost predicate Two(p: nat -> bool) {
    exists a: nat, b: nat :: p(a) && p(b) && a != b
  }

  ghost predicate NoneOf(p: nat -> bool) {
    forall m: nat :: !p(m)
  }

  /** The unique exact match, otherwise the unique prefix match. */
  ghost predicate Resolves(longs: seq<LongOpt>, typed: string, k: nat) {
    var exact, partial := (m: nat) => Exact(longs, typed, m), (m: nat) => Partial(longs, typed, m);
    Comparable(typed) && (Only(exact, k) || (NoneOf(exact) && Only(partial, k)))
  }

  /** Two exact matches, or no exact match and two prefix matches. */
  ghost predicate Clashes(longs: seq<LongOpt>, typed: string) {
    var exact, partial := (m: nat) => Exact(longs, typed, m), (m: nat) => Partial(longs, typed, m);
    Comparable(typed) && (Two(exact) || (NoneOf(exact) && Two(partial)))
  }

  function Count(longs: seq<LongOpt>, p: LongOpt -> bool): (n: nat)
    ensures n <= |longs|
  {
    if longs == [] then 0 else Count(longs[..|longs| - 1], p) + if p(longs[|longs| - 1]) then 1 else 0
  }

  function Last(longs: seq<LongOpt>, p: LongOpt -> bool): (k: nat)
    requires Count(longs, p) > 0
    ensures k < |longs| && p(longs[k])
  {
    if p(longs[|longs| - 1]) then |longs| - 1 else Last(longs[..|longs| - 1], p)
  }

  function IsExact(typed: string): LongOpt -> bool { (o: LongOpt) => o.name == typed }
  function IsPartial(typed: string): LongOpt -> bool { (o: LongOpt) => typed < o.name }

  /** Resolution as the scan computes it, by counting matches and keeping the last of each kind. */
  function Resolve(longs: seq<LongOpt>, typed: string): (r: Resolution)
    ensures r.Found? ==> r.idx < |longs|
  {
    if !Comparable(typed) then Unknown else
      var exact, partial := Count(longs, IsExact(typed)), Count(longs, IsPartial(typed));
      if exact > 1 || (exact == 0 && partial > 1) then Ambiguous
      else if exact == 1 then Found(Last(longs, IsExact(typed)))
      else if partial == 1 then Found(Last(longs, IsPartial(typed)))
      else Unknown
  }

  /** Counting tells none, one and several apart, and `Last` is the one. */
  lemma {:induction false} CountMeaning(longs: seq<LongOpt>, p: LongOpt -> bool, q: nat -> bool)
    requires forall k: nat :: q(k) == (k < |longs| && p(longs[k]))
    ensures Count(longs, p) == 0 <==> NoneOf(q)
    ensures Count(longs, p) == 1 ==> Only(q, Last(longs, p))
    ensures Count(longs, p) > 1 ==> Two(q)
  {
    if longs != [] {
      var n := |longs| - 1;
      var q' := (k: nat) => k < n && q(k);
      forall k: nat
        ensures q'(k) == (k < |longs[..n]| && p(longs[..n][k]))
      {
      }
      CountMeaning(longs[..n], p, q');
      assert q(n) == p(longs[n]);
      if Count(longs[..n], p) > 0 {
        var m := Last(longs[..n], p);
        assert q'(m) && q(m);
        if p(longs[n]) {
          assert Two(q);
        } else {
          assert forall k: nat :: q(k) == q'(k);
        }
      } else {
        assert forall k: nat :: q(k) ==> k == n || q'(k);
      }
    }
  }

  /** The scan picks the unique exact match, otherwise the unique prefix match, otherwise nothing. */
  lemma ResolveMeaning(longs: seq<LongOpt>, typed: string)
    ensures forall k: nat :: Resolve(longs, typed) == Found(k) <==> Resolves(longs, typed, k)
    ensures Resolve(longs, typed) == Ambiguous <==> Clashes(longs, typed)
  {
    var exact, partial := (m: nat) => Exact(longs, typed, m), (m: nat) => Partial(longs, typed, m);
    CountMeaning(longs, IsExact(typed), exact);
    CountMeaning(longs, IsPartial(typed), partial);
    OnlyOrTwo(exact);
    OnlyOrTwo(partial);
  }

  lemma OnlyOrTwo(p: nat -> bool)
    ensures !(NoneOf(p) && Two(p))
    ensures forall k: nat :: Only(p, k) ==> !NoneOf(p) && !Two(p)
    ensures forall k: nat, m: nat :: Only(p, k) && Only(p, m) ==> k == m
  {
  }

  /** In a table of distinct names every full name resolves to its own entry. */
  lemma FullNameResolves(longs: seq<LongOpt>, k: nat)
    requires k < |longs| && Comparable(longs[k].name)
    requires forall a, b :: 0 <= a < b < |longs| ==> longs[a].name != longs[b].name
    ensures Resolve(longs, longs[k].name) == Found(k)
  {
    var exact := (m: nat) => Exact(longs, longs[k].name, m);
    assert exact(k);
    assert Only(exact, k);
    ResolveMeaning(longs, longs[k].name);
    assert Resolves(longs, longs[k].name, k);
  }

  // ---- one option at the head of the remaining tokens ----------------------

  /** Result of one parser call: `skip` non-options are passed over, then `used` tokens are consumed. */
  datatype Call = Call(ret: int, arg: Option<string>, longidx: int, skip: nat, used: nat)

  /** Index of the first occurrence of `c` in the option string, or its length. */
  function Find(ostr: string, c: char): (k: nat)
    ensures k <= |ostr| && c !in ostr[..k] && (k < |ostr| ==> ostr[k] == c)
  {
    if ostr == "" || ostr[0] == c then 0 else Find(ostr[1..], c) + 1
  }

  function HeadLong(rest: seq<string>, longs: seq<LongOpt>): (c: Call)
    requires rest != [] && |rest[0]| > 2
    ensures c.skip == 0 && c.used <= 2 && c.used <= |rest|
    ensures c.used == 0 <==> Resolve(longs, rest[0][2..NameEnd(rest[0], 2)]) == Ambiguous
  {
    var s := rest[0];
    var e := NameEnd(s, 2);
    match Resolve(longs, s[2..e])
    case Ambiguous => Call(UNKNOWN, None, -1, 0, 0)
    case Unknown => Call(UNKNOWN, None, -1, 0, 1)
    case Found(k) =>
      if e < |s| then Call(longs[k].val, Some(s[e + 1..]), k, 0, 1)
      else if longs[k].hasArg.NoArgument? then Call(longs[k].val, None, k, 0, 1)
      else if |rest| > 1 then Call(longs[k].val, Some(rest[1]), k, 0, 2)
      else Call(if longs[k].hasArg.RequiredArgument? then MISSING else longs[k].val, None, k, 0, 1)
  }

  function HeadShort(rest: seq<string>): (c: Call)
    requires rest != [] && |rest[0]| == 2
    ensures c.skip == 0 && 1 <= c.used <= 2 && c.used <= |rest|
  {
    var k := Find(OSTR, rest[0][1]);
    if k == |OSTR| then Call(UNKNOWN, None, -1, 0, 1)
    else if At(OSTR, k + 1) != ':' then Call(rest[0][1] as int, None, -1, 0, 1)
    else if |rest| > 1 then Call(rest[0][1] as int, Some(rest[1]), -1, 0, 2)
    else Call(MISSING, None, -1, 0, 1)
  }

  /** A call whose first remaining token is not to be skipped. */
  function Head(rest: seq<string>, longs: seq<LongOpt>): (c: Call)
    requires rest != [] && !NonOption(rest[0])
    ensures c.skip == 0 && c.used <= 2 && c.used <= |rest|
  {
    if rest[0] == "--" then Call(-1, None, -1, 0, 1)
    else if rest[0][1] == '-' then HeadLong(rest, longs)
    else if |rest[0]| == 2 then HeadShort(rest)
    else Call(-1, None, -1, 0, 0)
  }

  function NextCall(rest: seq<string>, longs: seq<LongOpt>): (c: Call)
    ensures c.skip + c.used <= |rest|
    ensures forall k :: 0 <= k < c.skip ==> NonOption(rest[k])
  {
    if rest == [] then Call(-1, None, -1, 0, 0)
    else if NonOption(rest[0]) then
      var c := NextCall(rest[1..], longs);
      c.(skip := c.skip + 1)
    else Head(rest, longs)
  }

  /** Every non-negative return but the ambiguous one makes progress. */
  lemma HeadProgress(rest: seq<string>, longs: seq<LongOpt>)
    requires rest != [] && !NonOption(rest[0]) && Head(rest, longs).ret >= 0
    requires Head(rest, longs).used == 0
    ensures Head(rest, longs).ret == UNKNOWN
    ensures |rest[0]| > 2 && rest[0][..2] == "--" && Clashes(longs, rest[0][2..NameEnd(rest[0], 2)])
  {
    ResolveMeaning(longs, rest[0][2..NameEnd(rest[0], 2)]);
  }

  lemma {:induction false} NextCallSplit(rest: seq<string>, longs: seq<LongOpt>)
    ensures var c := NextCall(rest, longs);
      if c.skip == |rest| then c == Call(-1, None, -1, |rest|, 0)
      else !NonOption(rest[c.skip]) && c == Head(rest[c.skip..], longs).(skip := c.skip)
  {
    if rest != [] && NonOption(rest[0]) {
      NextCallSplit(rest[1..], longs);
      var c := NextCall(rest, longs);
      assert rest[c.skip..] == rest[1..][c.skip - 1..];
    } else {
      assert rest[0..] == rest;
    }
  }

  /** The call at token `from`, told at token `k` where its skipping ends. */
  lemma NextCallAt(orig: seq<string>, from: nat, k: nat, longs: seq<LongOpt>)
    requires from <= |orig| && k == from + NextCall(orig[from..], longs).skip
    ensures k == |orig| ==> NextCall(orig[from..], longs) == Call(-1, None, -1, k - from, 0)
    ensures k < |orig| ==> !NonOption(orig[k])
    ensures k < |orig| ==> NextCall(orig[from..], longs) == Head(orig[k..], longs).(skip := k - from)
  {
    var rest, skip := orig[from..], k - from;
    NextCallSplit(rest, longs);
    if k < |orig| {
      assert rest[skip] == orig[k] && rest[skip..] == orig[k..];
    }
  }

  /** A call skips as far as there are non-options. */
  lemma {:induction false} SkipEnds(orig: seq<string>, from: nat, k: nat, longs: seq<LongOpt>)
    requires from <= k <= |orig| && (forall j :: from <= j < k ==> NonOption(orig[j]))
    requires k < |orig| ==> !NonOption(orig[k])
    ensures NextCall(orig[from..], longs).skip == k - from
    decreases k - from
  {
    if from < k {
      assert orig[from..][0] == orig[from] && orig[from..][1..] == orig[from + 1..];
      SkipEnds(orig, from + 1, k, longs);
    } else if k < |orig| {
      assert orig[from..][0] == orig[k];
    }
  }

  // ---- the whole command line, read in one go ------------------------------

  datatype End = Done | Bad(code: int) | Stopped
  datatype Parsed = Parsed(events: seq<(int, Option<string>)>, options: seq<string>,
                           positionals: seq<string>, rest: seq<string>, end: End)

  /** Option handler results that end the driver loop are those `stops` names. */
  type Stops = (int, Option<string>) -> bool

  predicate Continues(c: Call, stops: Stops) {
    c.ret >= 0 && c.ret != UNKNOWN && c.ret != MISSING && !stops(c.ret, c.arg)
  }

  /** The option that a call hands to the driver, if any. */
  function EventOf(c: Call): seq<(int, Option<string>)> {
    if c.ret < 0 || c.ret == UNKNOWN || c.ret == MISSING then [] else [(c.ret, c.arg)]
  }

  function EndOf(c: Call): End {
    if c.ret < 0 then Done else if c.ret == UNKNOWN || c.ret == MISSING then Bad(c.ret) else Stopped
  }

  /** Token by token: what a driver sees that reads options until an error, a stop or the end. */
  function Parse(ts: seq<string>, longs: seq<LongOpt>, stops: Stops): (p: Parsed)
    ensures |p.options| + |p.positionals| + |p.rest| == |ts|
    decreases |ts|
  {
    if ts == [] then
      Parsed([], [], [], [], Done)
    else if NonOption(ts[0]) then
      var p := Parse(ts[1..], longs, stops);
      p.(positionals := [ts[0]] + p.positionals)
    else
      var c := Head(ts, longs);
      if !Continues(c, stops) then
        Parsed(EventOf(c), ts[..c.used], [], ts[c.used..], EndOf(c))
      else
        var p := Parse(ts[c.used..], longs, stops);
        p.(events := EventOf(c) + p.events, options := ts[..c.used] + p.options)
  }

  /** What is read behind a call. */
  function Tail(c: Call, behind: seq<string>, longs: seq<LongOpt>, stops: Stops): Parsed {
    if Continues(c, stops) then Parse(behind, longs, stops) else Parsed([], [], [], behind, EndOf(c))
  }

  /** What has been read so far, in front of what is still to be read. */
  function Behind(events: seq<(int, Option<string>)>, options: seq<string>, positionals: seq<string>, q: Parsed): Parsed
  {
    Parsed(events + q.events, options + q.options, positionals + q.positionals, q.rest, q.end)
  }

  function ReadByCall(rest: seq<string>, c: Call, longs: seq<LongOpt>, stops: Stops): Parsed
    requires c.skip + c.used <= |rest|
  {
    Behind(EventOf(c), rest[c.skip..c.skip + c.used], rest[..c.skip], Tail(c, rest[c.skip + c.used..], longs, stops))
  }

  lemma ReadByCallSkip(t: string, rest: seq<string>, c: Call, longs: seq<LongOpt>, stops: Stops)
    requires c.skip + c.used <= |rest|
    ensures var p := ReadByCall(rest, c, longs, stops);
      ReadByCall([t] + rest, c.(skip := c.skip + 1), longs, stops) == p.(positionals := [t] + p.positionals)
  {
    var n := c.skip + c.used;
    SlicesBehind(t, rest, c.skip, n);
    var q := Tail(c, rest[n..], longs, stops).positionals;
    assert [t] + (rest[..c.skip] + q) == [t] + rest[..c.skip] + q;
  }

  lemma SlicesBehind(t: string, rest: seq<string>, a: nat, b: nat)
    requires a <= b <= |rest|
    ensures ([t] + rest)[..a + 1] == [t] + rest[..a]
    ensures ([t] + rest)[a + 1..b + 1] == rest[a..b] && ([t] + rest)[b + 1..] == rest[b..]
  {
  }

  /** How one parser call advances the reading of the whole line. */
  lemma {:induction false} ParseByCalls(rest: seq<string>, longs: seq<LongOpt>, stops: Stops)
    ensures Parse(rest, longs, stops) == ReadByCall(rest, NextCall(rest, longs), longs, stops)
  {
    if rest != [] && NonOption(rest[0]) {
      ParseByCalls(rest[1..], longs, stops);
      ReadByCallSkip(rest[0], rest[1..], NextCall(rest[1..], longs), longs, stops);
      assert rest == [rest[0]] + rest[1..];
    } else if rest != [] {
      var c := Head(rest, longs);
      var q := Tail(c, rest[c.used..], longs, stops);
      assert rest[..0] + q.positionals == q.positionals;
      assert EventOf(c) + [] == EventOf(c) && rest[..c.used] + [] == rest[..c.used];
    }
  }

  lemma BehindTwice(e1: seq<(int, Option<string>)>, o1: seq<string>, p1: seq<string>,
                    e2: seq<(int, Option<string>)>, o2: seq<string>, p2: seq<string>, q: Parsed)
    ensures Behind(e1, o1, p1, Behind(e2, o2, p2, q)) == Behind(e1 + e2, o1 + o2, p1 + p2, q)
  {
    assert e1 + (e2 + q.events) == e1 + e2 + q.events;
    assert o1 + (o2 + q.options) == o1 + o2 + q.options;
    assert p1 + (p2 + q.positionals) == p1 + p2 + q.positionals;
  }

  /** `all` is `a` and `b` shuffled together, each in its own order. */
  ghost predicate Interleaved(all: seq<string>, a: seq<string>, b: seq<string>) {
    if all == [] then a == [] && b == []
    else
      || (a != [] && a[0] == all[0] && Interleaved(all[1..], a[1..], b))
      || (b != [] && b[0] == all[0] && Interleaved(all[1..], a, b[1..]))
  }

  lemma {:induction false} InterleavedPrefix(pre: seq<string>, all: seq<string>, a: seq<string>, b: seq<string>)
    requires Interleaved(all, a, b)
    ensures Interleaved(pre + all, pre + a, b)
  {
    if pre == [] {
      assert pre + all == all && pre + a == a;
    } else {
      InterleavedPrefix(pre[1..], all, a, b);
      assert (pre + all)[1..] == pre[1..] + all && (pre + a)[1..] == pre[1..] + a;
    }
  }

  lemma {:induction false} InterleavedMultiset(all: seq<string>, a: seq<string>, b: seq<string>)
    requires Interleaved(all, a, b)
    ensures multiset(all) == multiset(a) + multiset(b)
  {
    if all != [] {
      assert all == [all[0]] + all[1..];
      if a != [] && a[0] == all[0] && Interleaved(all[1..], a[1..], b) {
        InterleavedMultiset(all[1..], a[1..], b);
        assert a == [a[0]] + a[1..];
      } else {
        InterleavedMultiset(all[1..], a, b[1..]);
        assert b == [b[0]] + b[1..];
      }
    }
  }

  /** `p` is a stable partition of the front of `ts`, with the rest of `ts` left in place. */
  ghost predicate Partitions(ts: seq<string>, p: Parsed) {
    && |p.rest| <= |ts| && ts[|ts| - |p.rest|..] == p.rest
    && Interleaved(ts[..|ts| - |p.rest|], p.options, p.positionals)
    && forall k :: 0 <= k < |p.positionals| ==> NonOption(p.positionals[k])
  }

  lemma PartitionsSkip(t: string, ts: seq<string>, p: Parsed)
    requires Partitions(ts, p) && NonOption(t)
    ensures Partitions([t] + ts, p.(positionals := [t] + p.positionals))
  {
    var n := |ts| - |p.rest|;
    assert ([t] + ts)[n + 1..] == ts[n..] && ([t] + ts)[..n + 1][1..] == ts[..n];
    assert ([t] + p.positionals)[1..] == p.positionals;
  }

  lemma PartitionsUse(head: seq<string>, ts: seq<string>, p: Parsed, q: Parsed)
    requires Partitions(ts, p) && q.options == head + p.options && q.positionals == p.positionals && q.rest == p.rest
    ensures Partitions(head + ts, q)
  {
    var n := |ts| - |p.rest|;
    InterleavedPrefix(head, ts[..n], p.options, p.positionals);
    assert (head + ts)[|head| + n..] == ts[n..] && (head + ts)[..|head| + n] == head + ts[..n];
  }

  /** Reading a command line is a stable partition of what it read, and leaves the rest in place. */
  lemma {:induction false} ParsePartitions(ts: seq<string>, longs: seq<LongOpt>, stops: Stops)
    ensures Partitions(ts, Parse(ts, longs, stops))
    decreases |ts|
  {
    if ts != [] && NonOption(ts[0]) {
      ParsePartitions(ts[1..], longs, stops);
      assert ts == [ts[0]] + ts[1..];
      PartitionsSkip(ts[0], ts[1..], Parse(ts[1..], longs, stops));
    } else if ts != [] {
      var c := Head(ts, longs);
      var head, behind := ts[..c.used], ts[c.used..];
      assert ts == head + behind;
      var p := if Continues(c, stops) then Parse(behind, longs, stops) else Parsed([], [], [], behind, EndOf(c));
      if Continues(c, stops) {
        ParsePartitions(behind, longs, stops);
      }
      assert head + [] == head;
      PartitionsUse(head, behind, p, Parse(ts, longs, stops));
    }
  }

  /** Options alone: the driver accepts, and then every token was read as an option in its place. */
  ghost predicate Accepts(ts: seq<string>, longs: seq<LongOpt>, stops: Stops) {
    var p := Parse(ts, longs, stops);
    p.end == Done && p.positionals == [] && p.rest == []
  }

  lemma AcceptedInPlace(ts: seq<string>, longs: seq<LongOpt>, stops: Stops)
    requires Accepts(ts, longs, stops)
    ensures Parse(ts, longs, stops).options == ts
  {
    ParsePartitions(ts, longs, stops);
    var p := Parse(ts, longs, stops);
    assert ts[..|ts|] == ts;
    OnlyLeft(ts, p.options);
  }

  lemma {:induction false} OnlyLeft(all: seq<string>, a: seq<string>)
    requires Interleaved(all, a, [])
    ensures a == all
  {
    if all != [] {
      OnlyLeft(all[1..], a[1..]);
      assert a == [a[0]] + a[1..];
      assert all == [all[0]] + all[1..];
    }
  }
}
