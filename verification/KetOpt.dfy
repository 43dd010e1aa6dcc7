/** The permuting option parser of app/ketopt.h and its driver loop in app/app_cli.c. */
module KetOpt {
  import opened Options
  import opened OptionSpec

  /** The scan over the table of long options: count matches, remember the last of each kind. */
  method ResolveScan(longs: seq<LongOpt>, typed: string) returns (r: Resolution)
    ensures r == Resolve(longs, typed)
  {
    var nExact, nPartial, exact, partial := 0, 0, 0, 0;
    for k := 0 to |longs|
      invariant Comparable(typed) ==> nExact == Count(longs[..k], IsExact(typed))
      invariant Comparable(typed) ==> nPartial == Count(longs[..k], IsPartial(typed))
      invariant !Comparable(typed) ==> nExact == nPartial == 0
      invariant nExact > 0 ==> Comparable(typed) && exact == Last(longs[..k], IsExact(typed))
      invariant nPartial > 0 ==> Comparable(typed) && partial == Last(longs[..k], IsPartial(typed))
    {
      assert longs[..k + 1][..k] == longs[..k];
      if Comparable(typed) && typed <= longs[k].name {
        if |longs[k].name| == |typed| {
          nExact, exact := nExact + 1, k;
        } else {
          nPartial, partial := nPartial + 1, k;
        }
      }
    }
    assert longs[..|longs|] == longs;
    if nExact > 1 || (nExact == 0 && nPartial > 1) {
      return Ambiguous;
    }
    return if nExact == 1 then Found(exact) else if nPartial == 1 then Found(partial) else Unknown;
  }

  /** The loop that finds the end of the name of a long option. */
  method ScanName(s: string) returns (j: nat)
    requires |s| >= 2
    ensures 2 <= j == NameEnd(s, 2) <= |s|
  {
    j := 2;
    while j < |s| && s[j] != '='
      invariant 2 <= j <= |s| && NameEnd(s, j) == NameEnd(s, 2)
    {
      j := j + 1;
    }
  }

  /** ketopt_permute: move argv[j] over n elements to the left. */
  method Permute(argv: array<string>, j: nat, n: nat)
    requires n <= j < argv.Length
    modifies argv
    ensures argv[..] == old(argv[..j - n] + [argv[j]] + argv[j - n..j] + argv[j + 1..])
  {
    var p := argv[j];
    ghost var was := argv[..];
    for k := 0 to n
      invariant forall m :: 0 <= m < j - k || j < m < argv.Length ==> argv[m] == was[m]
      invariant forall m :: j - k < m <= j ==> argv[m] == was[m - 1]
    {
      argv[j - k] := argv[j - k - 1];
    }
    argv[j - n] := p;
    Rotated(was, argv[..], j, n);
  }

  lemma Rotated(was: seq<string>, now: seq<string>, j: nat, n: nat)
    requires n <= j < |was| == |now| && now[j - n] == was[j]
    requires forall m :: 0 <= m < j - n || j < m < |was| ==> now[m] == was[m]
    requires forall m :: j - n < m <= j ==> now[m] == was[m - 1]
    ensures now == was[..j - n] + [was[j]] + was[j - n..j] + was[j + 1..]
  {
  }

  /** The same, seen as moving `x` from behind `skip` to in front of it. */
  method MoveOne(argv: array<string>, j: nat, n: nat,
                 ghost pre: seq<string>, ghost skip: seq<string>, ghost x: string, ghost post: seq<string>)
    requires argv[..] == pre + skip + [x] + post && j == |pre| + |skip| && n == |skip|
    modifies argv
    ensures argv[..] == pre + [x] + skip + post
  {
    ghost var all := argv[..];
    assert all[..j - n] == pre && all[j - n..j] == skip && all[j] == x && all[j + 1..] == post;
    Permute(argv, j, n);
  }

  /** The permuting loop at the end of a call: `tokens`, at argv[i0..i], go in front of `skip`. */
  method MoveTokens(argv: array<string>, i0: nat, i: nat, n: nat,
                    ghost pre: seq<string>, ghost skip: seq<string>, ghost tokens: seq<string>, ghost post: seq<string>)
    requires argv[..] == pre + skip + tokens + post
    requires i0 == |pre| + |skip| && i == i0 + |tokens| && n == |skip|
    modifies argv
    ensures argv[..] == pre + tokens + skip + post
  {
    for j := i0 to i
      invariant argv[..] == pre + tokens[..j - i0] + skip + tokens[j - i0..] + post
    {
      ghost var m := j - i0;
      assert tokens[m..] + post == [tokens[m]] + (tokens[m + 1..] + post);
      assert argv[..] == (pre + tokens[..m]) + skip + [tokens[m]] + (tokens[m + 1..] + post);
      MoveOne(argv, j, n, pre + tokens[..m], skip, tokens[m], tokens[m + 1..] + post);
      assert tokens[..m + 1] == tokens[..m] + [tokens[m]];
    }
  }

  class KetOpt {
    var ind: int
    var arg: Option<string>
    var longidx: int
    var i: nat
    var pos: int
    var nArgs: nat

    ghost var consumed: seq<string>   // option tokens with their arguments, in original order
    ghost var skipped: seq<string>    // non-options passed over, in original order

    /** KETOPT_INIT */
    constructor ()
      ensures i == 1 && ind == 1 && pos == 0 && nArgs == 0 && consumed == skipped == []
    {
      ind, arg, longidx, i, pos, nArgs := 1, None, -1, 1, 0, 0;
      consumed, skipped := [], [];
    }

    /** argv[1..i) has been rearranged into what was consumed and what was skipped; the rest is untouched. */
    ghost predicate Valid(argv: array<string>, orig: seq<string>)
      reads this, argv
    {
      && 1 <= i <= |orig| == argv.Length
      && nArgs == |skipped|
      && i == 1 + |consumed| + |skipped|
      && argv[..] == [orig[0]] + consumed + skipped + orig[i..]
      && (pos == 0 || (pos == -1 && i < |orig| && |orig[i]| > 2 && orig[i][..2] == "--"))
    }

    method SkipNonOptions(argv: array<string>, ghost orig: seq<string>, ghost longs: seq<LongOpt>)
      requires Valid(argv, orig)
      modifies this`i, this`nArgs, this`skipped
      ensures Valid(argv, orig)
      ensures i == old(i) + NextCall(orig[old(i)..], longs).skip
      ensures skipped == old(skipped) + orig[old(i)..i]
      ensures i < |orig| ==> !NonOption(orig[i])
    {
      while i < argv.Length && NonOption(argv[i])
        invariant old(i) <= i && Valid(argv, orig)
        invariant skipped == old(skipped) + orig[old(i)..i]
        invariant forall k :: old(i) <= k < i ==> NonOption(orig[k])
      {
        SkipOne(argv, orig);
      }
      SkipEnds(orig, old(i), i, longs);
    }

    /** Pass over one argument. */
    method SkipOne(argv: array<string>, ghost orig: seq<string>)
      requires Valid(argv, orig) && i < argv.Length && pos == 0
      modifies this`i, this`nArgs, this`skipped
      ensures Valid(argv, orig) && i == old(i) + 1 && skipped == old(skipped) + [orig[old(i)]]
    {
      assert argv[i] == orig[i..][0];
      skipped := skipped + [argv[i]];
      i, nArgs := i + 1, nArgs + 1;
    }

    /** A long option at argv[i]; `false` when its name is ambiguous, and then nothing advances. */
    method ReadLong(argv: array<string>, longs: seq<LongOpt>) returns (clear: bool, opt: int)
      requires i < argv.Length && |argv[i]| > 2
      modifies this`arg, this`longidx, this`i, this`pos
      ensures pos == -1
      ensures var c := HeadLong(argv[old(i)..], longs);
        opt == c.ret && arg == c.arg && longidx == c.longidx && clear == (c.used > 0)
        && (clear || opt == UNKNOWN)
        && i == if clear then old(i) + c.used - 1 else old(i)
    {
      var s := argv[i];
      assert argv[i..][0] == s;
      arg, longidx, opt, pos := None, -1, UNKNOWN, -1;
      var e := ScanName(s);
      var r := ResolveScan(longs, s[2..e]);
      if r.Ambiguous? {
        return false, UNKNOWN;
      }
      if r.Found? {
        var o := longs[r.idx];
        opt, longidx := o.val, r.idx;
        if At(s, e) == '=' && e < |s| {
          arg := Some(s[e + 1..]);
        }
        if !o.hasArg.NoArgument? && e == |s| {
          if i + 1 < argv.Length {
            i := i + 1;
            arg := Some(argv[i]);
          } else if o.hasArg.RequiredArgument? {
            opt := MISSING;
          }
        }
      }
      return true, opt;
    }

    /** A short option at argv[i]. */
    method ReadShort(argv: array<string>) returns (opt: int)
      requires i < argv.Length && |argv[i]| == 2 && pos == 0
      modifies this`arg, this`longidx, this`i, this`pos
      ensures var c := HeadShort(argv[old(i)..]);
        opt == c.ret && arg == c.arg && longidx == c.longidx && i == old(i) + c.used - 1
      ensures pos < 0 || (pos == 2 && |argv[i]| == 2)
    {
      assert argv[i..][0] == argv[i];
      arg, longidx := None, -1;
      pos := 1;
      var c := argv[i][pos];
      opt, pos := c as int, pos + 1;
      var k := Find(OSTR, c);
      if k == |OSTR| {
        opt := UNKNOWN;
      } else if At(OSTR, k + 1) == ':' {
        if i + 1 < argv.Length {
          i := i + 1;
          arg := Some(argv[i]);
        } else {
          opt := MISSING;
        }
        pos := -1;
      }
    }

    /** Move the tokens argv[i0..i] ahead of the skipped non-options. */
    method Commit(argv: array<string>, i0: nat, ghost orig: seq<string>)
      requires 1 <= i0 <= i < |orig| == argv.Length && nArgs == |skipped| && i0 == 1 + |consumed| + |skipped|
      requires argv[..] == [orig[0]] + consumed + skipped + orig[i0..]
      modifies this`i, this`pos, this`consumed, argv
      ensures Valid(argv, orig) && pos == 0
      ensures i == old(i) + 1 && consumed == old(consumed) + orig[i0..i]
    {
      i, pos := i + 1, 0;
      ghost var pre, tokens := [orig[0]] + consumed, orig[i0..i];
      assert orig[i0..] == tokens + orig[i..];
      assert argv[..] == pre + skipped + tokens + orig[i..];
      if nArgs > 0 {
        MoveTokens(argv, i0, i, nArgs, pre, skipped, tokens, orig[i..]);
      }
      consumed := consumed + tokens;
      assert [orig[0]] + consumed == pre + tokens;
    }

    /** Read the option at argv[i]; afterwards `i` is its last token when it is to be consumed. */
    method ReadToken(argv: array<string>, longs: seq<LongOpt>) returns (clear: bool, ret: int)
      requires i < argv.Length && !NonOption(argv[i]) && argv[i] != "--"
      requires pos == 0 || argv[i][1] == '-'
      modifies this`arg, this`longidx, this`i, this`pos
      ensures var c := Head(argv[old(i)..], longs);
        && ret == c.ret && arg == c.arg && longidx == c.longidx
        && i == (if c.used == 0 then old(i) else old(i) + c.used - 1) < argv.Length
        && (c.used > 0 <==> clear && (pos < 0 || At(argv[i], pos) == '\0'))
        && (clear || (ret == UNKNOWN && c.used == 0))
        && (c.used == 0 && pos != 0 ==> pos == -1 && argv[i][1] == '-')
    {
      assert argv[i..][0] == argv[i];
      clear, arg, longidx := true, None, -1;
      if argv[i][1] == '-' {
        clear, ret := ReadLong(argv, longs);
      } else if |argv[i]| == 2 {
        ret := ReadShort(argv);
      } else {
        ret := -1;
      }
    }

    /** The part of ketopt behind the skipping of non-options, at an option. */
    method ReadOption(argv: array<string>, longs: seq<LongOpt>, ghost orig: seq<string>) returns (ret: int)
      requires Valid(argv, orig) && i < argv.Length && !NonOption(orig[i])
      modifies this`ind, this`arg, this`longidx, this`i, this`pos, this`consumed, argv
      ensures Valid(argv, orig)
      ensures var c := Head(orig[old(i)..], longs);
        && ret == c.ret && arg == c.arg && longidx == c.longidx && i == old(i) + c.used
        && consumed == old(consumed) + orig[old(i)..i]
        && ((ret == UNKNOWN && c.used == 0) || ind == i - nArgs)
    {
      var i0 := i;
      assert argv[i..] == orig[i..];
      assert argv[i] == orig[i] == orig[i..][0];
      if argv[i] == "--" {
        arg, longidx, ret := None, -1, -1;
        Commit(argv, i0, orig);
      } else {
        var clear;
        clear, ret := ReadToken(argv, longs);
        if !clear {
          return;
        }
        if pos < 0 || At(argv[i], pos) == '\0' {
          Commit(argv, i0, orig);
        }
      }
      ind := i - nArgs;
    }

    /** One call of ketopt with permutation on. */
    method Next(argv: array<string>, longs: seq<LongOpt>, ghost orig: seq<string>) returns (ret: int)
      requires Valid(argv, orig)
      modifies this, argv
      ensures Valid(argv, orig)
      ensures var c := NextCall(orig[old(i)..], longs);
        && ret == c.ret && arg == c.arg && longidx == c.longidx
        && i == old(i) + c.skip + c.used
        && skipped == old(skipped) + orig[old(i)..old(i) + c.skip]
        && consumed == old(consumed) + orig[old(i) + c.skip..i]
        && ((ret == UNKNOWN && c.used == 0) || ind == i - nArgs)
    {
      ghost var from := i;
      SkipNonOptions(argv, orig, longs);
      NextCallAt(orig, from, i, longs);
      if i >= argv.Length {
        arg, longidx, ind := None, -1, i - nArgs;
        return -1;
      }
      ret := ReadOption(argv, longs, orig);
    }
  }

  datatype Verdict = Ready | Exited | BadUsage(code: int) | Leftover

  function VerdictOf(p: Parsed): Verdict {
    match p.end
    case Bad(code) => BadUsage(code)
    case Stopped => Exited
    case Done => if |p.positionals| + |p.rest| > 0 then Leftover else Ready
  }

  /** The bookkeeping behind one call. */
  lemma ReadOn(orig: seq<string>, from: nat, longs: seq<LongOpt>, stops: Stops,
               events: seq<(int, Option<string>)>, consumed: seq<string>, skipped: seq<string>) returns (n: Call)
    requires from <= |orig|
    ensures n == NextCall(orig[from..], longs)
    ensures Behind(events, consumed, skipped, Parse(orig[from..], longs, stops)) ==
      Behind(events + EventOf(n),
             consumed + orig[from + n.skip..from + n.skip + n.used], skipped + orig[from..from + n.skip],
             Tail(n, orig[from + n.skip + n.used..], longs, stops))
    ensures Continues(n, stops) ==> n.used > 0
  {
    var rest := orig[from..];
    n := NextCall(rest, longs);
    SlicesFrom(orig, from, n.skip, n.skip + n.used);
    ReadFront(rest, longs, stops, events, consumed, skipped, n,
              orig[from + n.skip..from + n.skip + n.used], orig[from..from + n.skip], orig[from + n.skip + n.used..]);
  }

  /** The same over the tokens that are not read yet: `passed` over, `used` and left `behind`. */
  lemma ReadFront(rest: seq<string>, longs: seq<LongOpt>, stops: Stops,
                    events: seq<(int, Option<string>)>, consumed: seq<string>, skipped: seq<string>,
                    n: Call, used: seq<string>, passed: seq<string>, behind: seq<string>)
    requires n == NextCall(rest, longs)
    requires passed == rest[..n.skip] && used == rest[n.skip..n.skip + n.used] && behind == rest[n.skip + n.used..]
    ensures Behind(events, consumed, skipped, Parse(rest, longs, stops)) ==
      Behind(events + EventOf(n), consumed + used, skipped + passed, Tail(n, behind, longs, stops))
    ensures Continues(n, stops) ==> n.used > 0
  {
    NextCallSplit(rest, longs);
    ParseByCalls(rest, longs, stops);
    BehindTwice(events, consumed, skipped, EventOf(n), used, passed, Tail(n, behind, longs, stops));
  }

  lemma SlicesFrom(s: seq<string>, from: nat, a: nat, b: nat)
    requires from + a <= from + b <= |s|
    ensures s[from..][..a] == s[from..from + a]
    ensures s[from..][a..b] == s[from + a..from + b] && s[from..][b..] == s[from + b..]
  {
  }

  /** `s` and `events` have read the front of the whole line `p`, of which `q` remains. */
  ghost predicate OnTrack(s: KetOpt, argv: array<string>, orig: seq<string>,
                          p: Parsed, events: seq<(int, Option<string>)>, q: Parsed)
    reads s, argv
  {
    s.Valid(argv, orig) && p == Behind(events, s.consumed, s.skipped, q)
  }

  lemma ReadingEnds(s: KetOpt, argv: array<string>, orig: seq<string>,
                    p: Parsed, events: seq<(int, Option<string>)>, end: End)
    requires s.Valid(argv, orig) && OnTrack(s, argv, orig, p, events, Parsed([], [], [], orig[s.i..], end))
    ensures argv[..] == [orig[0]] + p.options + p.positionals + p.rest
    ensures events == p.events && p.end == end
    ensures s.i - s.nArgs == 1 + |p.options| && argv.Length == 1 + |p.options| + |p.positionals| + |p.rest|
  {
  }

  /** One call within the reading of a whole line `p`. */
  method Round(s: KetOpt, argv: array<string>, longs: seq<LongOpt>, stops: Stops,
               ghost orig: seq<string>, ghost p: Parsed, ghost events: seq<(int, Option<string>)>)
    returns (c: int, ghost n: Call)
    requires s.Valid(argv, orig) && OnTrack(s, argv, orig, p, events, Parse(orig[s.i..], longs, stops))
    modifies s, argv
    ensures s.Valid(argv, orig) && c == n.ret && s.arg == n.arg
    ensures OnTrack(s, argv, orig, p, events + EventOf(n), Tail(n, orig[s.i..], longs, stops))
    ensures c != UNKNOWN ==> s.ind == s.i - s.nArgs
    ensures s.i >= old(s.i) && (Continues(n, stops) ==> s.i > old(s.i))
  {
    ghost var from, consumed, skipped := s.i, s.consumed, s.skipped;
    n := ReadOn(orig, from, longs, stops, events, consumed, skipped);
    ghost var to := from + n.skip + n.used;
    ghost var after := Tail(n, orig[to..], longs, stops);
    ghost var used, passed := orig[from + n.skip..to], orig[from..from + n.skip];
    assert p == Behind(events + EventOf(n), consumed + used, skipped + passed, after);
    c := s.Next(argv, longs, orig);
    assert s.i == to && s.consumed == consumed + used && s.skipped == skipped + passed;
  }

  /** The body of the loop: one call, and what the driver does with its result. */
  method Turn(s: KetOpt, argv: array<string>, longs: seq<LongOpt>, stops: Stops,
              events: seq<(int, Option<string>)>, ghost orig: seq<string>, ghost p: Parsed)
    returns (over: bool, r: Verdict, events': seq<(int, Option<string>)>)
    requires s.Valid(argv, orig) && OnTrack(s, argv, orig, p, events, Parse(orig[s.i..], longs, stops))
    modifies s, argv
    ensures over ==>
      && r == VerdictOf(p) && events' == p.events
      && argv[..] == [orig[0]] + p.options + p.positionals + p.rest
    ensures !over ==>
      && s.Valid(argv, orig) && s.i > old(s.i)
      && OnTrack(s, argv, orig, p, events', Parse(orig[s.i..], longs, stops))
  {
    var c;
    ghost var n;
    c, n := Round(s, argv, longs, stops, orig, p, events);
    over, r, events' := true, Exited, events;
    if c < 0 || c == UNKNOWN || c == MISSING {
      ReadingEnds(s, argv, orig, p, events + [], EndOf(n));
      r := if c >= 0 then BadUsage(c) else if s.ind < argv.Length then Leftover else Ready;
      return;
    }
    events' := events + [(c, s.arg)];
    if stops(c, s.arg) {
      ReadingEnds(s, argv, orig, p, events', Stopped);
      return;
    }
    over := false;
  }

  /**
   * The option loop of ingest_cli. `stops` says which option handlers return from ingest_cli.
   * The loop ends within argc calls of the parser.
   */
  method Ingest(argv: array<string>, longs: seq<LongOpt>, stops: Stops)
    returns (r: Verdict, events: seq<(int, Option<string>)>, ghost calls: nat)
    requires argv.Length >= 1
    modifies argv
    ensures var p := Parse(old(argv[1..]), longs, stops);
      && r == VerdictOf(p) && events == p.events
      && argv[..] == [old(argv[0])] + p.options + p.positionals + p.rest
    ensures calls <= argv.Length
  {
    ghost var orig := argv[..];
    ghost var p := Parse(orig[1..], longs, stops);
    var s := new KetOpt();
    events, calls := [], 0;
    assert p == Behind([], [], [], p);
    while true
      invariant fresh(s) && s.Valid(argv, orig) && calls < s.i
      invariant OnTrack(s, argv, orig, p, events, Parse(orig[s.i..], longs, stops))
      decreases argv.Length - s.i
    {
      var over;
      over, r, events := Turn(s, argv, longs, stops, events, orig, p);
      calls := calls + 1;
      if over {
        return;
      }
    }
  }
}
