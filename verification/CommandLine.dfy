/**
 * Command lines written down option by option, and what the parser of app/ketopt.h makes of the
 * arguments they amount to: it reads back exactly what was written, whatever the order.
 */
module CommandLine {
  import opened Options
  import opened OptionSpec
  import opened KetOpt

  // ---- the shapes of an option ---------------------------------------------

  /** The name of a long option ends where it was meant to. */
  lemma NameEndsAt(name: string, tail: string)
    requires '=' !in name && (tail == "" || tail[0] == '=') && name + tail != ""
    ensures var s := "--" + name + tail;
      && NameEnd(s, 2) == 2 + |name| && s[2..2 + |name|] == name && s[2 + |name|..] == tail
      && |s| > 2 && s[..2] == "--" && !NonOption(s)
  {
    var s, n := "--" + name + tail, 2 + |name|;
    var e := NameEnd(s, 2);
    assert s[2..n] == name && s[n..] == tail;
    assert forall i :: 2 <= i < n ==> s[i] == name[i - 2];
    assert forall i :: 2 <= i < e ==> s[i] == s[2..e][i - 2];
    assert n < |s| ==> s[n] == tail[0];
  }

  lemma FirstToken(token: string, rest: seq<string>)
    ensures ([token] + rest)[0] == token && |[token] + rest| == |rest| + 1
    ensures rest != [] ==> ([token] + rest)[1] == rest[0]
  {
  }

  /** "--name=value": the option with exactly the value behind the equals sign. */
  lemma LongWithValue(name: string, value: string, rest: seq<string>, longs: seq<LongOpt>, k: nat)
    requires '=' !in name && Resolve(longs, name) == Found(k)
    ensures Head(["--" + name + "=" + value] + rest, longs) == Call(longs[k].val, Some(value), k, 0, 1)
  {
    var token := "--" + name + "=" + value;
    NameEndsAt(name, "=" + value);
    assert token == "--" + name + ("=" + value);
    FirstToken(token, rest);
    assert token[2 + |name| + 1..] == value;
  }

  /** "--name": alone, with the next argument as its value, or missing it. */
  lemma LongBare(name: string, rest: seq<string>, longs: seq<LongOpt>, k: nat)
    requires '=' !in name && name != "" && Resolve(longs, name) == Found(k)
    ensures var (c, o) := (Head(["--" + name] + rest, longs), longs[k]);
      && (o.hasArg == NoArgument ==> c == Call(o.val, None, k, 0, 1))
      && (o.hasArg != NoArgument && rest != [] ==> c == Call(o.val, Some(rest[0]), k, 0, 2))
      && (o.hasArg == RequiredArgument && rest == [] ==> c == Call(':' as int, None, k, 0, 1))
      && (o.hasArg == OptionalArgument && rest == [] ==> c == Call(o.val, None, k, 0, 1))
  {
    NameEndsAt(name, "");
    assert "--" + name + "" == "--" + name;
    FirstToken("--" + name, rest);
  }

  /** A name that is not in the table, and one that is ambiguous: only the first is consumed. */
  lemma LongRefused(name: string, tail: string, rest: seq<string>, longs: seq<LongOpt>)
    requires '=' !in name && (tail == "" || tail[0] == '=') && name + tail != ""
    ensures var c := Head(["--" + name + tail] + rest, longs);
      && (Resolve(longs, name) == Unknown ==> c == Call('?' as int, None, -1, 0, 1))
      && (Resolve(longs, name) == Ambiguous ==> c == Call('?' as int, None, -1, 0, 0))
  {
    NameEndsAt(name, tail);
    FirstToken("--" + name + tail, rest);
  }

  /** "--" alone ends the options and is consumed; a single dash with more than one letter is not. */
  lemma EndOfOptions(token: string, rest: seq<string>, longs: seq<LongOpt>)
    ensures Head(["--"] + rest, longs) == Call(-1, None, -1, 0, 1)
    ensures |token| > 2 && token[0] == '-' && token[1] != '-' ==>
      Head([token] + rest, longs) == Call(-1, None, -1, 0, 0)
  {
    FirstToken("--", rest);
    FirstToken(token, rest);
  }

  lemma FindIs(ostr: string, c: char, k: nat)
    requires k < |ostr| && ostr[k] == c && c !in ostr[..k]
    ensures Find(ostr, c) == k
  {
    var f := Find(ostr, c);
    assert forall i :: 0 <= i < k ==> ostr[i] == ostr[..k][i];
    assert forall i :: 0 <= i < f ==> ostr[i] == ostr[..f][i];
  }

  /** The letters of the option string that stand alone. */
  lemma FlagLetter(c: char)
    requires c in "vha"
    ensures Find(OSTR, c) < 11 && At(OSTR, Find(OSTR, c) + 1) != ':'
  {
    assert OSTR == "vhas:u:r:p:";
    FindIs(OSTR, c, if c == 'v' then 0 else if c == 'h' then 1 else 2);
  }

  /** Those with a colon behind them. */
  lemma ValueLetter(c: char)
    requires c in "surp"
    ensures Find(OSTR, c) < 11 && At(OSTR, Find(OSTR, c) + 1) == ':'
  {
    assert OSTR == "vhas:u:r:p:";
    FindIs(OSTR, c, if c == 's' then 3 else if c == 'u' then 5 else if c == 'r' then 7 else 9);
  }

  lemma OtherLetter(c: char)
    requires c !in "vhasurp:"
    ensures Find(OSTR, c) == 11
  {
    assert OSTR == "vhas:u:r:p:";
    assert forall i :: 0 <= i < 11 ==> OSTR[i] in "vhasurp:";
  }

  /** "-c": the letters of the option string, those with a value, and all others. */
  lemma Short(c: char, rest: seq<string>, longs: seq<LongOpt>)
    requires c != '-'
    ensures var r := Head([['-', c]] + rest, longs);
      && (c in "vha" ==> r == Call(c as int, None, -1, 0, 1))
      && (c in "surp" && rest != [] ==> r == Call(c as int, Some(rest[0]), -1, 0, 2))
      && (c in "surp" && rest == [] ==> r == Call(':' as int, None, -1, 0, 1))
      && (c !in "vhasurp:" ==> r == Call('?' as int, None, -1, 0, 1))
  {
    FirstToken(['-', c], rest);
    assert |OSTR| == 11;
    if c in "vha" {
      FlagLetter(c);
    } else if c in "surp" {
      ValueLetter(c);
    } else if c != ':' {
      OtherLetter(c);
    }
  }

  // ---- lines written word by word ------------------------------------------

  datatype Word =
    | LongEq(name: string, k: nat, value: string)    // --name=value
    | LongArg(name: string, k: nat, value: string)   // --name value
    | LongFlag(name: string, k: nat)                 // --name
    | ShortArg(c: char, value: string)               // -c value
    | ShortFlag(c: char)                             // -c
    | Plain(text: string)

  function Tokens(w: Word): seq<string> {
    match w
    case LongEq(name, _, value) => ["--" + name + "=" + value]
    case LongArg(name, _, value) => ["--" + name, value]
    case LongFlag(name, _) => ["--" + name]
    case ShortArg(c, value) => [['-', c], value]
    case ShortFlag(c) => [['-', c]]
    case Plain(text) => [text]
  }

  /** Code and value that the driver is to see. */
  function Meaning(w: Word, longs: seq<LongOpt>): seq<(int, Option<string>)> {
    match w
    case LongEq(_, k, value) => if k < |longs| then [(longs[k].val, Some(value))] else []
    case LongArg(_, k, value) => if k < |longs| then [(longs[k].val, Some(value))] else []
    case LongFlag(_, k) => if k < |longs| then [(longs[k].val, None)] else []
    case ShortArg(c, value) => [(c as int, Some(value))]
    case ShortFlag(c) => [(c as int, None)]
    case Plain(_) => []
  }

  /** A word that says what it means: names may be abbreviated, as long as they are clear. */
  predicate Clear(w: Word, longs: seq<LongOpt>) {
    match w
    case LongEq(name, k, _) => '=' !in name && Resolve(longs, name) == Found(k)
    case LongArg(name, k, _) =>
      '=' !in name && name != "" && Resolve(longs, name) == Found(k) && longs[k].hasArg != NoArgument
    case LongFlag(name, k) =>
      '=' !in name && name != "" && Resolve(longs, name) == Found(k) && longs[k].hasArg == NoArgument
    case ShortArg(c, _) => c in "surp"
    case ShortFlag(c) => c in "vha"
    case Plain(text) => text == "" || text == "-" || text[0] != '-'
  }

  /** The driver goes on reading behind an option. */
  predicate GoesOn(e: (int, Option<string>), stops: Stops) {
    e.0 >= 0 && e.0 != '?' as int && e.0 != ':' as int && !stops(e.0, e.1)
  }

  predicate Writable(w: Word, longs: seq<LongOpt>, stops: Stops) {
    Clear(w, longs) && forall k :: 0 <= k < |Meaning(w, longs)| ==> GoesOn(Meaning(w, longs)[k], stops)
  }

  predicate AllWritable(ws: seq<Word>, longs: seq<LongOpt>, stops: Stops) {
    forall k :: 0 <= k < |ws| ==> Writable(ws[k], longs, stops)
  }

  /** The arguments of a line. */
  function Render(ws: seq<Word>): seq<string> {
    if ws == [] then [] else Tokens(ws[0]) + Render(ws[1..])
  }

  function Meanings(ws: seq<Word>, longs: seq<LongOpt>): seq<(int, Option<string>)> {
    if ws == [] then [] else Meaning(ws[0], longs) + Meanings(ws[1..], longs)
  }

  function OptionTokens(ws: seq<Word>): seq<string> {
    if ws == [] then [] else (if ws[0].Plain? then [] else Tokens(ws[0])) + OptionTokens(ws[1..])
  }

  function Plains(ws: seq<Word>): seq<string> {
    if ws == [] then [] else (if ws[0].Plain? then [ws[0].text] else []) + Plains(ws[1..])
  }

  /** The call at a word that is an option. */
  lemma WordCall(w: Word, ts: seq<string>, longs: seq<LongOpt>)
    requires Clear(w, longs) && !w.Plain?
    ensures var (all, c) := (Tokens(w) + ts, Head(Tokens(w) + ts, longs));
      && all != [] && !NonOption(all[0]) && c.used == |Tokens(w)| && Meaning(w, longs) == [(c.ret, c.arg)]
  {
    var all := Tokens(w) + ts;
    match w
    case LongEq(name, k, value) =>
      LongWithValue(name, value, ts, longs, k);
    case LongArg(name, k, value) =>
      assert all == ["--" + name] + ([value] + ts);
      LongBare(name, [value] + ts, longs, k);
    case LongFlag(name, k) =>
      LongBare(name, ts, longs, k);
    case ShortArg(c, value) =>
      assert all == [['-', c]] + ([value] + ts);
      Short(c, [value] + ts, longs);
    case ShortFlag(c) =>
      Short(c, ts, longs);
  }

  /** Reading one word. */
  lemma ReadWord(w: Word, ts: seq<string>, longs: seq<LongOpt>, stops: Stops)
    requires Writable(w, longs, stops)
    ensures Parse(Tokens(w) + ts, longs, stops) ==
      Behind(Meaning(w, longs), if w.Plain? then [] else Tokens(w), if w.Plain? then Tokens(w) else [],
             Parse(ts, longs, stops))
  {
    var all, p := Tokens(w) + ts, Parse(ts, longs, stops);
    if w.Plain? {
      assert all[0] == w.text && all[1..] == ts && NonOption(w.text);
      assert [] + p.events == p.events && [] + p.options == p.options;
    } else {
      WordCall(w, ts, longs);
      var n := |Tokens(w)|;
      assert all[..n] == Tokens(w) && all[n..] == ts;
      assert GoesOn(Meaning(w, longs)[0], stops);
      assert [] + p.positionals == p.positionals;
    }
  }

  /** Whatever follows, the words in front of it are read back, each kind in its order. */
  lemma {:induction false} LineReadBack(ws: seq<Word>, ts: seq<string>, longs: seq<LongOpt>, stops: Stops)
    requires AllWritable(ws, longs, stops)
    ensures Parse(Render(ws) + ts, longs, stops) ==
      Behind(Meanings(ws, longs), OptionTokens(ws), Plains(ws), Parse(ts, longs, stops))
  {
    var p := Parse(ts, longs, stops);
    if ws == [] {
      assert Render(ws) + ts == ts;
      assert [] + p.events == p.events && [] + p.options == p.options && [] + p.positionals == p.positionals;
    } else {
      var w, more := ws[0], ws[1..];
      LineReadBack(more, ts, longs, stops);
      assert Render(ws) + ts == Tokens(w) + (Render(more) + ts);
      ReadWord(w, Render(more) + ts, longs, stops);
      BehindTwice(Meaning(w, longs), if w.Plain? then [] else Tokens(w), if w.Plain? then Tokens(w) else [],
                  Meanings(more, longs), OptionTokens(more), Plains(more), p);
    }
  }

  /** A whole line: the driver is ready when it holds options alone, and refuses plain words. */
  lemma WholeLine(ws: seq<Word>, longs: seq<LongOpt>, stops: Stops)
    requires AllWritable(ws, longs, stops)
    ensures var p := Parse(Render(ws), longs, stops);
      && p == Parsed(Meanings(ws, longs), OptionTokens(ws), Plains(ws), [], Done)
      && VerdictOf(p) == if Plains(ws) == [] then Ready else Leftover
  {
    LineReadBack(ws, [], longs, stops);
    assert Render(ws) + [] == Render(ws);
  }

  /** Behind "--" nothing is read, and anything there is refused as well. */
  lemma LineWithEnd(ws: seq<Word>, more: seq<string>, longs: seq<LongOpt>, stops: Stops)
    requires AllWritable(ws, longs, stops)
    ensures var p := Parse(Render(ws) + (["--"] + more), longs, stops);
      && p == Parsed(Meanings(ws, longs), OptionTokens(ws) + ["--"], Plains(ws), more, Done)
      && VerdictOf(p) == if Plains(ws) == [] && more == [] then Ready else Leftover
  {
    LineReadBack(ws, ["--"] + more, longs, stops);
    EndOfOptions("", more, longs);
    assert (["--"] + more)[..1] == ["--"] && (["--"] + more)[1..] == more;
  }

  /** An option that the table does not know, or whose name is ambiguous, ends the line with '?'. */
  lemma LineRefused(ws: seq<Word>, name: string, tail: string, more: seq<string>, longs: seq<LongOpt>, stops: Stops)
    requires AllWritable(ws, longs, stops)
    requires '=' !in name && (tail == "" || tail[0] == '=') && name + tail != "" && !Resolve(longs, name).Found?
    ensures var p := Parse(Render(ws) + (["--" + name + tail] + more), longs, stops);
      p.events == Meanings(ws, longs) && VerdictOf(p) == BadUsage('?' as int)
  {
    var ts := ["--" + name + tail] + more;
    LineReadBack(ws, ts, longs, stops);
    LongRefused(name, tail, more, longs);
    NameEndsAt(name, tail);
    assert ts[0] == "--" + name + tail && Parse(ts, longs, stops).events == [];
  }

  /** An option at the end of the line that lacks its value ends it with ':'. */
  lemma LineLacking(ws: seq<Word>, w: Word, longs: seq<LongOpt>, stops: Stops)
    requires AllWritable(ws, longs, stops) && Clear(w, longs)
    requires w.ShortArg? || (w.LongArg? && longs[w.k].hasArg == RequiredArgument)
    ensures var p := Parse(Render(ws) + [Tokens(w)[0]], longs, stops);
      p.events == Meanings(ws, longs) && VerdictOf(p) == BadUsage(':' as int)
  {
    var ts := [Tokens(w)[0]];
    LineReadBack(ws, ts, longs, stops);
    assert ts == ts + [];
    if w.ShortArg? {
      Short(w.c, [], longs);
    } else {
      LongBare(w.name, [], longs, w.k);
      NameEndsAt(w.name, "");
      assert "--" + w.name + "" == "--" + w.name;
    }
    assert Parse(ts, longs, stops).events == [];
  }

  /** An option whose handler returns is the last one that the driver sees. */
  lemma LineStopped(ws: seq<Word>, w: Word, ts: seq<string>, longs: seq<LongOpt>, stops: Stops)
    requires AllWritable(ws, longs, stops) && Clear(w, longs) && !w.Plain?
    requires var e := Meaning(w, longs)[0];
      e.0 >= 0 && e.0 != '?' as int && e.0 != ':' as int && stops(e.0, e.1)
    ensures var p := Parse(Render(ws) + (Tokens(w) + ts), longs, stops);
      p.events == Meanings(ws, longs) + Meaning(w, longs) && VerdictOf(p) == Exited
  {
    LineReadBack(ws, Tokens(w) + ts, longs, stops);
    WordCall(w, ts, longs);
  }

  /** The driver run on a written line, over the arguments themselves. */
  method ReadsBack(argv: array<string>, longs: seq<LongOpt>, stops: Stops, ghost ws: seq<Word>)
    returns (r: Verdict, events: seq<(int, Option<string>)>)
    requires argv.Length >= 1 && argv[1..] == Render(ws) && AllWritable(ws, longs, stops)
    modifies argv
    ensures events == Meanings(ws, longs) && r == if Plains(ws) == [] then Ready else Leftover
    ensures argv[..] == [old(argv[0])] + OptionTokens(ws) + Plains(ws)
  {
    WholeLine(ws, longs, stops);
    ghost var calls;
    r, events, calls := Ingest(argv, longs, stops);
  }
}
