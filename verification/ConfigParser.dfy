/**
  The configuration-file parser: the table-driven automaton of `yyparse`, its
  semantic actions, and the grammar it is meant to recognise.

  A configuration is a list of statements followed by a list of mime-type
  statements.  The parse tree type `Config`, its yield `TokensOf` and its
  callbacks `CallbacksOf` are the independent reference: nothing in them
  mentions a state, a stack or a table.
 */
module ConfigParser {

  import opened Common

  // ----- Tokens, callbacks and parse trees -----

  datatype Command = Command(name: string, hasAction: bool)

  datatype RawToken =
    | NoArgs(cmd: Command)
    | OneArg(cmd: Command)
    | TwoArgs(cmd: Command)
    | Mime(text: string)
    | Str(text: string)
    | Other(code: int)

  /** What the scanner can return before end of file: a non-positive code *is* end of file. */
  type Token = t: RawToken | t.Other? ==> t.code > 0 && !(258 <= t.code <= 262) witness Str("")

  datatype Callback =
    | Action(cmd: Command, v1: Option<string>, v2: Option<string>)
    | AddMimeType(extension: string, mimeType: string)

  datatype Stmt =
    | NoArgsStmt(cmd: Command)
    | OneArgStmt(cmd: Command, arg: string)
    | TwoArgsStmt(cmd: Command, first: string, second: string)

  datatype MimeStmt = MimeStmt(mimeType: string, extensions: seq<string>)

  datatype Config = Config(stmts: seq<Stmt>, mimes: seq<MimeStmt>)

  ghost function StmtTokens(s: Stmt): seq<Token> {
    match s
    case NoArgsStmt(c) => [NoArgs(c)]
    case OneArgStmt(c, a) => [OneArg(c), Str(a)]
    case TwoArgsStmt(c, a, b) => [TwoArgs(c), Str(a), Str(b)]
  }

  ghost function StmtsTokens(ss: seq<Stmt>): seq<Token> {
    if ss == [] then [] else StmtsTokens(ss[..|ss| - 1]) + StmtTokens(ss[|ss| - 1])
  }

  ghost function ExtensionTokens(es: seq<string>): seq<Token> {
    if es == [] then [] else ExtensionTokens(es[..|es| - 1]) + [Str(es[|es| - 1])]
  }

  ghost function MimeTokens(m: MimeStmt): seq<Token> {
    [Mime(m.mimeType)] + ExtensionTokens(m.extensions)
  }

  ghost function MimesTokens(ms: seq<MimeStmt>): seq<Token> {
    if ms == [] then [] else MimesTokens(ms[..|ms| - 1]) + MimeTokens(ms[|ms| - 1])
  }

  /** The yield of a parse tree. */
  ghost function TokensOf(c: Config): seq<Token> {
    StmtsTokens(c.stmts) + MimesTokens(c.mimes)
  }

  /** A command without an action makes no call.  The two-argument call receives its second string first. */
  ghost function StmtCallbacks(s: Stmt): seq<Callback> {
    if !s.cmd.hasAction then []
    else match s
      case NoArgsStmt(c) => [Action(c, None, None)]
      case OneArgStmt(c, a) => [Action(c, Some(a), None)]
      case TwoArgsStmt(c, a, b) => [Action(c, Some(b), Some(a))]
  }

  ghost function StmtsCallbacks(ss: seq<Stmt>): seq<Callback> {
    if ss == [] then [] else StmtsCallbacks(ss[..|ss| - 1]) + StmtCallbacks(ss[|ss| - 1])
  }

  ghost function MimeCallbacks(m: MimeStmt): seq<Callback> {
    seq(|m.extensions|, i requires 0 <= i < |m.extensions| => AddMimeType(m.extensions[i], m.mimeType))
  }

  ghost function MimesCallbacks(ms: seq<MimeStmt>): seq<Callback> {
    if ms == [] then [] else MimesCallbacks(ms[..|ms| - 1]) + MimeCallbacks(ms[|ms| - 1])
  }

  ghost function CallbacksOf(c: Config): seq<Callback> {
    StmtsCallbacks(c.stmts) + MimesCallbacks(c.mimes)
  }

  /** `c` is the tree of the longest prefix of `tokens` that is a configuration. */
  ghost predicate IsLongestConfig(tokens: seq<Token>, c: Config) {
    && TokensOf(c) <= tokens
    && forall d :: TokensOf(d) <= tokens ==> |TokensOf(d)| <= |TokensOf(c)|
  }

  // ----- A scanner with six places, used only in proofs -----

  /** Where a viable prefix stands: between statements, inside one, inside the mime section, or nowhere. */
  datatype Place = InStmts | AfterOneArg | AfterTwoArgs | AfterFirst | InMimes | Dead

  ghost function Advance(q: Place, t: Token): Place {
    match q
    case InStmts =>
      (match t
       case NoArgs(_) => InStmts
       case OneArg(_) => AfterOneArg
       case TwoArgs(_) => AfterTwoArgs
       case Mime(_) => InMimes
       case _ => Dead)
    case AfterOneArg => if t.Str? then InStmts else Dead
    case AfterTwoArgs => if t.Str? then AfterFirst else Dead
    case AfterFirst => if t.Str? then InStmts else Dead
    case InMimes => if t.Str? || t.Mime? then InMimes else Dead
    case Dead => Dead
  }

  ghost function PlaceOf(ts: seq<Token>): Place {
    if ts == [] then InStmts else Advance(PlaceOf(ts[..|ts| - 1]), ts[|ts| - 1])
  }

  lemma PlaceOfSnoc(ts: seq<Token>, t: Token)
    ensures PlaceOf(ts + [t]) == Advance(PlaceOf(ts), t)
  {
    assert (ts + [t])[..|ts + [t]| - 1] == ts;
  }

  lemma {:induction false} DeadStaysDead(ts: seq<Token>, k: nat)
    requires k <= |ts| && PlaceOf(ts[..k]).Dead?
    ensures PlaceOf(ts).Dead?
  {
    if k < |ts| {
      assert ts[..|ts| - 1][..k] == ts[..k];
      DeadStaysDead(ts[..|ts| - 1], k);
    } else {
      assert ts[..k] == ts;
    }
  }

  lemma PlaceOfStmt(ts: seq<Token>, s: Stmt)
    requires PlaceOf(ts) == InStmts
    ensures PlaceOf(ts + StmtTokens(s)) == InStmts
  {
    hide PlaceOf;
    match s {
      case NoArgsStmt(c) => PlaceOfSnoc(ts, NoArgs(c));
      case OneArgStmt(c, a) =>
        PlaceOfSnoc(ts, OneArg(c));
        PlaceOfSnoc(ts + [OneArg(c)], Str(a));
        assert ts + [OneArg(c)] + [Str(a)] == ts + StmtTokens(s);
      case TwoArgsStmt(c, a, b) =>
        PlaceOfSnoc(ts, TwoArgs(c));
        PlaceOfSnoc(ts + [TwoArgs(c)], Str(a));
        PlaceOfSnoc(ts + [TwoArgs(c)] + [Str(a)], Str(b));
        assert ts + [TwoArgs(c)] + [Str(a)] + [Str(b)] == ts + StmtTokens(s);
    }
  }

  lemma {:induction false} PlaceOfStmts(ss: seq<Stmt>)
    ensures PlaceOf(StmtsTokens(ss)) == InStmts
  {
    if ss == [] {
      assert PlaceOf([]) == InStmts;
    } else {
      hide PlaceOf, StmtTokens;
      PlaceOfStmts(ss[..|ss| - 1]);
      PlaceOfStmt(StmtsTokens(ss[..|ss| - 1]), ss[|ss| - 1]);
    }
  }

  lemma {:induction false} PlaceOfExtensions(ts: seq<Token>, es: seq<string>)
    requires PlaceOf(ts) == InMimes
    ensures PlaceOf(ts + ExtensionTokens(es)) == InMimes
  {
    if es == [] {
      assert ts + ExtensionTokens(es) == ts;
    } else {
      var before := es[..|es| - 1];
      PlaceOfExtensions(ts, before);
      PlaceOfSnoc(ts + ExtensionTokens(before), Str(es[|es| - 1]));
      assert ts + ExtensionTokens(before) + [Str(es[|es| - 1])] == ts + ExtensionTokens(es);
    }
  }

  lemma {:induction false} PlaceOfConfig(c: Config)
    ensures PlaceOf(TokensOf(c)) == if c.mimes == [] then InStmts else InMimes
    decreases |c.mimes|
  {
    hide PlaceOf, StmtsTokens, ExtensionTokens;
    if c.mimes == [] {
      PlaceOfStmts(c.stmts);
      assert TokensOf(c) == StmtsTokens(c.stmts);
    } else {
      var before, m := c.mimes[..|c.mimes| - 1], c.mimes[|c.mimes| - 1];
      var b := Config(c.stmts, before);
      PlaceOfConfig(b);
      assert MimesTokens(c.mimes) == MimesTokens(before) + ([Mime(m.mimeType)] + ExtensionTokens(m.extensions));
      PlaceOfSnoc(TokensOf(b), Mime(m.mimeType));
      PlaceOfExtensions(TokensOf(b) + [Mime(m.mimeType)], m.extensions);
      assert TokensOf(b) + [Mime(m.mimeType)] + ExtensionTokens(m.extensions) == TokensOf(c);
    }
  }

  ghost predicate AtConfigEnd(q: Place) {
    q.InStmts? || q.InMimes?
  }

  /**
    If the scanner reached `consumed` tokens, none of them past the tree `c`
    ends a configuration, and it cannot go on, `c` is longest.
   */
  lemma StuckIsLongest(tokens: seq<Token>, c: Config, consumed: nat)
    requires |TokensOf(c)| <= consumed <= |tokens|
    requires TokensOf(c) <= tokens
    requires consumed < |tokens| ==> PlaceOf(tokens[..consumed + 1]).Dead?
    requires forall k :: |TokensOf(c)| < k <= consumed ==> !AtConfigEnd(PlaceOf(tokens[..k]))
    ensures IsLongestConfig(tokens, c)
  {
    forall d | TokensOf(d) <= tokens
      ensures |TokensOf(d)| <= |TokensOf(c)|
    {
      StuckBounds(tokens, d, |TokensOf(c)|, consumed);
    }
  }

  lemma StuckBounds(tokens: seq<Token>, d: Config, size: nat, consumed: nat)
    requires size <= consumed <= |tokens| && TokensOf(d) <= tokens
    requires consumed < |tokens| ==> PlaceOf(tokens[..consumed + 1]).Dead?
    requires forall k :: size < k <= consumed ==> !AtConfigEnd(PlaceOf(tokens[..k]))
    ensures |TokensOf(d)| <= size
  {
    var k := |TokensOf(d)|;
    PlaceOfConfig(d);
    assert TokensOf(d) == tokens[..k];
    assert AtConfigEnd(PlaceOf(tokens[..k]));
    if consumed < k {
      assert tokens[..k][..consumed + 1] == tokens[..consumed + 1];
      DeadStaysDead(tokens[..k], consumed + 1);
    }
  }

  // ----- The grammar is unambiguous -----

  lemma NonEmptyStmts(ss: seq<Stmt>)
    ensures StmtsTokens(ss) == [] <==> ss == []
  {}

  lemma LastOfStmts(ss: seq<Stmt>)
    requires ss != []
    ensures StmtsTokens(ss) == StmtsTokens(ss[..|ss| - 1]) + StmtTokens(ss[|ss| - 1])
  {}

  lemma {:induction false} StmtsUnambiguous(ss: seq<Stmt>, rr: seq<Stmt>)
    requires StmtsTokens(ss) == StmtsTokens(rr)
    ensures ss == rr
  {
    hide StmtsTokens, StmtTokens;
    NonEmptyStmts(ss);
    NonEmptyStmts(rr);
    if ss != [] {
      var s, r := ss[|ss| - 1], rr[|rr| - 1];
      var s0, r0 := ss[..|ss| - 1], rr[..|rr| - 1];
      LastOfStmts(ss);
      LastOfStmts(rr);
      SameLastStmt(StmtsTokens(s0), s, StmtsTokens(r0), r);
      StmtsUnambiguous(s0, r0);
      assert ss == s0 + [s] && rr == r0 + [r];
    }
  }

  lemma SameLastStmt(xs: seq<Token>, s: Stmt, ys: seq<Token>, r: Stmt)
    requires xs + StmtTokens(s) == ys + StmtTokens(r)
    ensures s == r && xs == ys
  {
    var ts := xs + StmtTokens(s);
    LastStmt(xs, s, ts);
    LastStmt(ys, r, ts);
    assert xs == ts[..|ts| - |StmtTokens(s)|];
    assert ys == ts[..|ts| - |StmtTokens(r)|];
  }

  /** The last two tokens tell which kind of statement came last, and its arguments. */
  lemma LastStmt(before: seq<Token>, s: Stmt, ts: seq<Token>)
    requires ts == before + StmtTokens(s)
    ensures |ts| > 0
    ensures s.NoArgsStmt? <==> ts[|ts| - 1].NoArgs?
    ensures s.TwoArgsStmt? <==> |ts| >= 2 && ts[|ts| - 1].Str? && ts[|ts| - 2].Str?
    ensures ts[|ts| - |StmtTokens(s)|..] == StmtTokens(s)
  {
    var st := StmtTokens(s);
    assert ts[|ts| - |st|..] == st;
    assert ts[|ts| - 1] == st[|st| - 1];
    if |st| >= 2 { assert ts[|ts| - 2] == st[|st| - 2]; }
  }

  /** Two parse trees with the same tokens are the same tree. */
  lemma {:induction false} Unambiguous(c: Config, d: Config)
    requires TokensOf(c) == TokensOf(d)
    ensures c == d
    decreases |TokensOf(c)|
  {
    PlaceOfConfig(c);
    PlaceOfConfig(d);
    if c.mimes == [] {
      assert TokensOf(c) == StmtsTokens(c.stmts) && TokensOf(d) == StmtsTokens(d.stmts);
      StmtsUnambiguous(c.stmts, d.stmts);
    } else {
      hide TokensOf, DropLast, LastToken, Grown;
      DropLastTokens(c);
      DropLastTokens(d);
      SameEnds(TokensOf(DropLast(c)), LastToken(c), TokensOf(DropLast(d)), LastToken(d));
      Unambiguous(DropLast(c), DropLast(d));
      Regrown(c);
      Regrown(d);
    }
  }

  lemma SameEnds(xs: seq<Token>, x: Token, ys: seq<Token>, y: Token)
    requires xs + [x] == ys + [y]
    ensures xs == ys && x == y
  {
    var s := xs + [x];
    assert xs == s[..|s| - 1] == ys && x == s[|s| - 1] == y;
  }

  /** A tree with a mime section, less its last token. */
  ghost function DropLast(c: Config): Config
    requires c.mimes != []
  {
    var before, m := c.mimes[..|c.mimes| - 1], c.mimes[|c.mimes| - 1];
    if m.extensions == [] then c.(mimes := before)
    else c.(mimes := before + [m.(extensions := m.extensions[..|m.extensions| - 1])])
  }

  /** That token, and the tree with a token more. */
  ghost function LastToken(c: Config): Token
    requires c.mimes != []
  {
    var m := c.mimes[|c.mimes| - 1];
    if m.extensions == [] then Mime(m.mimeType) else Str(m.extensions[|m.extensions| - 1])
  }

  ghost function Grown(c: Config, t: Token): Config {
    if t.Mime? then c.(mimes := c.mimes + [MimeStmt(t.text, [])])
    else if t.Str? then c.(mimes := AddExtension(c.mimes, t.text))
    else c
  }

  lemma Regrown(c: Config)
    requires c.mimes != []
    ensures c == Grown(DropLast(c), LastToken(c))
  {
    var n := |c.mimes|;
    var before, m := c.mimes[..n - 1], c.mimes[n - 1];
    assert c.mimes == before + [m];
    if m.extensions != [] {
      var m0 := m.(extensions := m.extensions[..|m.extensions| - 1]);
      assert m == m0.(extensions := m0.extensions + [m.extensions[|m.extensions| - 1]]);
      assert (before + [m0])[|before|] == m0 && (before + [m0])[|before| := m] == before + [m];
    }
  }

  lemma DropLastTokens(c: Config)
    requires c.mimes != []
    ensures TokensOf(c) == TokensOf(DropLast(c)) + [LastToken(c)]
  {
    hide MimesTokens, MimeTokens;
    var n := |c.mimes|;
    var before, m := c.mimes[..n - 1], c.mimes[n - 1];
    assert c.mimes == before + [m];
    MimesSnoc(before, m);
    if m.extensions == [] {
      NoExtensions(m);
    } else {
      var e := m.extensions[|m.extensions| - 1];
      var m0 := m.(extensions := m.extensions[..|m.extensions| - 1]);
      MimesSnoc(before, m0);
      ExtensionsSnoc(m0, e);
      assert m == m0.(extensions := m0.extensions + [e]);
    }
  }

  lemma MimesSnoc(before: seq<MimeStmt>, m: MimeStmt)
    ensures MimesTokens(before + [m]) == MimesTokens(before) + MimeTokens(m)
  {
    assert (before + [m])[..|before|] == before;
  }

  lemma ExtensionsSnoc(m: MimeStmt, e: string)
    ensures MimeTokens(m.(extensions := m.extensions + [e])) == MimeTokens(m) + [Str(e)]
  {
    assert (m.extensions + [e])[..|m.extensions|] == m.extensions;
  }

  lemma NoExtensions(m: MimeStmt)
    requires m.extensions == []
    ensures MimeTokens(m) == [Mime(m.mimeType)]
  {}

  ghost function AddExtension(ms: seq<MimeStmt>, e: string): seq<MimeStmt> {
    if ms == [] then ms
    else ms[|ms| - 1 := ms[|ms| - 1].(extensions := ms[|ms| - 1].extensions + [e])]
  }

  /** Appending to a tree appends to its yield and to its callbacks. */
  lemma GrowStmts(c: Config, s: Stmt)
    requires c.mimes == []
    ensures var d := c.(stmts := c.stmts + [s]);
            TokensOf(d) == TokensOf(c) + StmtTokens(s) && CallbacksOf(d) == CallbacksOf(c) + StmtCallbacks(s)
  {
    assert (c.stmts + [s])[..|c.stmts|] == c.stmts;
  }

  lemma GrowMimes(c: Config, t: string)
    ensures var d := c.(mimes := c.mimes + [MimeStmt(t, [])]);
            TokensOf(d) == TokensOf(c) + [Mime(t)] && CallbacksOf(d) == CallbacksOf(c)
  {
    assert (c.mimes + [MimeStmt(t, [])])[..|c.mimes|] == c.mimes;
  }

  lemma GrowExtensions(c: Config, e: string)
    requires c.mimes != []
    ensures var d := c.(mimes := AddExtension(c.mimes, e));
            TokensOf(d) == TokensOf(c) + [Str(e)] &&
            CallbacksOf(d) == CallbacksOf(c) + [AddMimeType(e, c.mimes[|c.mimes| - 1].mimeType)]
  {
    var n := |c.mimes|;
    var m := c.mimes[n - 1];
    var m' := m.(extensions := m.extensions + [e]);
    assert AddExtension(c.mimes, e)[..n - 1] == c.mimes[..n - 1];
    assert m'.extensions[..|m.extensions|] == m.extensions;
    assert MimeCallbacks(m') == MimeCallbacks(m) + [AddMimeType(e, m.mimeType)];
  }

  // ----- The calls, token by token -----

  /** The media type whose extensions follow, if one has been given. */
  ghost function LastMime(ts: seq<Token>): Option<string> {
    if ts == [] then None
    else if ts[|ts| - 1].Mime? then Some(ts[|ts| - 1].text)
    else LastMime(ts[..|ts| - 1])
  }

  ghost function CallOf(c: Command, v1: Option<string>, v2: Option<string>): seq<Callback> {
    if c.hasAction then [Action(c, v1, v2)] else []
  }

  /** The call that the token at `i` completes: behind two arguments the second of them comes first. */
  ghost function CallAt(ts: seq<Token>, i: nat): seq<Callback>
    requires i < |ts|
  {
    match ts[i]
    case NoArgs(c) => CallOf(c, None, None)
    case Str(text) =>
      if LastMime(ts[..i]).Some? then [AddMimeType(text, LastMime(ts[..i]).value)]
      else if i >= 1 && ts[i - 1].OneArg? then CallOf(ts[i - 1].cmd, Some(text), None)
      else if i >= 2 && ts[i - 1].Str? && ts[i - 2].TwoArgs? then
        CallOf(ts[i - 2].cmd, Some(text), Some(ts[i - 1].text))
      else []
    case _ => []
  }

  ghost function CallsOf(ts: seq<Token>): seq<Callback> {
    if ts == [] then [] else CallsOf(ts[..|ts| - 1]) + CallAt(ts, |ts| - 1)
  }

  lemma OneToken(ts: seq<Token>, t: Token)
    ensures CallsOf(ts + [t]) == CallsOf(ts) + CallAt(ts + [t], |ts|)
    ensures LastMime(ts + [t]) == if t.Mime? then Some(t.text) else LastMime(ts)
    ensures t.Str? && LastMime(ts).Some? ==> CallAt(ts + [t], |ts|) == [AddMimeType(t.text, LastMime(ts).value)]
    ensures t.OneArg? || t.TwoArgs? || t.Mime? ==> CallAt(ts + [t], |ts|) == []
    ensures t.NoArgs? ==> CallAt(ts + [t], |ts|) == CallOf(t.cmd, None, None)
  {
    assert (ts + [t])[..|ts|] == ts;
  }

  lemma CallsOfStmt(ts: seq<Token>, s: Stmt)
    requires LastMime(ts) == None
    ensures CallsOf(ts + StmtTokens(s)) == CallsOf(ts) + StmtCallbacks(s)
    ensures LastMime(ts + StmtTokens(s)) == None
  {
    hide CallsOf, LastMime;
    match s {
      case NoArgsStmt(c) => OneToken(ts, NoArgs(c));
      case OneArgStmt(c, a) =>
        var ts1 := ts + [OneArg(c)];
        OneToken(ts, OneArg(c));
        OneToken(ts1, Str(a));
        assert (ts1 + [Str(a)])[..|ts1|] == ts1;
        assert ts1 + [Str(a)] == ts + StmtTokens(s) && CallsOf(ts) + [] == CallsOf(ts);
      case TwoArgsStmt(c, a, b) =>
        var ts1 := ts + [TwoArgs(c)];
        var ts2 := ts1 + [Str(a)];
        OneToken(ts, TwoArgs(c));
        OneToken(ts1, Str(a));
        assert ts2[..|ts1|] == ts1;
        OneToken(ts2, Str(b));
        assert (ts2 + [Str(b)])[..|ts2|] == ts2;
        assert ts2 + [Str(b)] == ts + StmtTokens(s) && CallsOf(ts) + [] == CallsOf(ts);
    }
  }

  lemma {:induction false} CallsOfStmts(ss: seq<Stmt>)
    ensures CallsOf(StmtsTokens(ss)) == StmtsCallbacks(ss) && LastMime(StmtsTokens(ss)) == None
  {
    if ss != [] {
      hide CallsOf, LastMime, StmtTokens, StmtCallbacks;
      CallsOfStmts(ss[..|ss| - 1]);
      CallsOfStmt(StmtsTokens(ss[..|ss| - 1]), ss[|ss| - 1]);
    }
  }

  /** What a configuration calls for can be read off its tokens one by one. */
  lemma {:induction false} CallsByToken(c: Config)
    ensures CallbacksOf(c) == CallsOf(TokensOf(c))
    ensures LastMime(TokensOf(c)) == if c.mimes == [] then None else Some(c.mimes[|c.mimes| - 1].mimeType)
    decreases |TokensOf(c)|
  {
    if c.mimes == [] {
      CallsOfStmts(c.stmts);
      assert TokensOf(c) == StmtsTokens(c.stmts) && CallbacksOf(c) == StmtsCallbacks(c.stmts);
    } else {
      hide CallsOf, LastMime, TokensOf, CallbacksOf, DropLast;
      ShorterByOne(c);
      CallsByToken(DropLast(c));
      if c.mimes[|c.mimes| - 1].extensions == [] {
        CallsOfMime(c);
      } else {
        CallsOfExtension(c);
      }
    }
  }

  lemma ShorterByOne(c: Config)
    requires c.mimes != []
    ensures |TokensOf(DropLast(c))| < |TokensOf(c)|
  {
    DropLastTokens(c);
  }

  lemma CallsOfMime(c: Config)
    requires c.mimes != [] && c.mimes[|c.mimes| - 1].extensions == []
    requires CallbacksOf(DropLast(c)) == CallsOf(TokensOf(DropLast(c)))
    ensures CallbacksOf(c) == CallsOf(TokensOf(c))
    ensures LastMime(TokensOf(c)) == Some(c.mimes[|c.mimes| - 1].mimeType)
  {
    hide CallsOf, LastMime, TokensOf, CallbacksOf, DropLast;
    var d, t := DropLast(c), c.mimes[|c.mimes| - 1].mimeType;
    DropLastTokens(c);
    Regrown(c);
    OneToken(TokensOf(d), Mime(t));
    GrowMimes(d, t);
    assert CallsOf(TokensOf(d)) + [] == CallsOf(TokensOf(d));
  }

  lemma CallsOfExtension(c: Config)
    requires c.mimes != [] && c.mimes[|c.mimes| - 1].extensions != []
    requires CallbacksOf(DropLast(c)) == CallsOf(TokensOf(DropLast(c)))
    requires LastMime(TokensOf(DropLast(c))) == if DropLast(c).mimes == [] then None
      else Some(DropLast(c).mimes[|DropLast(c).mimes| - 1].mimeType)
    ensures CallbacksOf(c) == CallsOf(TokensOf(c))
    ensures LastMime(TokensOf(c)) == Some(c.mimes[|c.mimes| - 1].mimeType)
  {
    hide CallsOf, LastMime, TokensOf, CallbacksOf, DropLast, AddExtension;
    var d, m := DropLast(c), c.mimes[|c.mimes| - 1];
    var e := m.extensions[|m.extensions| - 1];
    DropLastTokens(c);
    Regrown(c);
    OneToken(TokensOf(d), Str(e));
    DropLastMime(c);
    GrowExtensions(d, e);
  }

  lemma DropLastMime(c: Config)
    requires c.mimes != [] && c.mimes[|c.mimes| - 1].extensions != []
    ensures var d := DropLast(c); d.mimes != [] && d.mimes[|d.mimes| - 1].mimeType == c.mimes[|c.mimes| - 1].mimeType
  {}

  // ----- The tables -----

  const YYFINAL := 3
  const YYLAST := 11
  const YYNTOKENS := 9
  const YYNSTATES := 22
  const YYPACT_NINF := -4
  const YYTABLE_NINF := -1
  const YYEMPTY := -2
  const YYEOF := 0
  const YYTERROR := 1
  const YYUNDEFTOK := 2
  const YYMAXUTOK := 263
  const YYINITDEPTH := 200

  const yyr1: seq<int> := [0, 9, 10, 11, 11, 12, 12, 12, 13, 14, 16, 15, 17, 17, 19, 18, 20, 20, 21]
  const yyr2: seq<int> := [0, 2, 2, 2, 0, 1, 1, 1, 1, 2, 0, 4, 2, 0, 0, 3, 2, 0, 1]
  const yydefact: seq<int> := [4, 0, 13, 1, 8, 0, 0, 3, 5, 6, 7, 2, 9, 10, 14, 12, 0, 17, 11, 15, 18, 16]
  const yydefgoto: seq<int> := [-1, 1, 2, 7, 8, 9, 10, 16, 11, 15, 17, 19, 21]
  const yypact: seq<int> :=
    [-4, 3, -3, -4, -4, -2, -1, -4, -4, -4, -4, 1, -4, -4, -4, -4, 2, -4, -4, 4, -4, -4]
  const yypgoto: seq<int> := [-4, -4, -4, -4, -4, -4, -4, -4, -4, -4, -4, -4, -4]
  const yytable: seq<int> := [4, 5, 6, 3, 0, 12, 13, 14, 0, 18, 0, 20]
  const yycheck: seq<int> := [3, 4, 5, 0, -1, 7, 7, 6, -1, 7, -1, 7]

  /** The scanner's code for a token. */
  function Code(t: Token): (c: int)
    ensures c > 0
  {
    match t
    case NoArgs(_) => 258
    case OneArg(_) => 259
    case TwoArgs(_) => 260
    case Mime(_) => 261
    case Str(_) => 262
    case Other(code) => code
  }

  /** The 264-entry translation table, and the check in front of it. */
  function Translate(code: int): int
    requires code >= 0
  {
    if code > YYMAXUTOK then YYUNDEFTOK
    else if code == 0 then 0
    else if code == 256 then YYTERROR
    else if 258 <= code then code - 255
    else YYUNDEFTOK
  }

  datatype Decision = Shift(state: int) | Reduce(rule: int) | SyntaxError

  function DefaultDecision(state: int): Decision
    requires 0 <= state < YYNSTATES
  {
    if yydefact[state] == 0 then SyntaxError else Reduce(yydefact[state])
  }

  /**
    What the tables say in `state` with lookahead symbol `token` (which is not
    consulted when `yypact` is the default marker).
   */
  function Decide(state: int, token: int): Decision
    requires 0 <= state < YYNSTATES
  {
    var n := yypact[state];
    if n == YYPACT_NINF || n + token < 0 || YYLAST < n + token || yycheck[n + token] != token then
      DefaultDecision(state)
    else
      var a := yytable[n + token];
      if a == 0 || a == YYTABLE_NINF then SyntaxError else if a < 0 then Reduce(-a) else Shift(a)
  }

  /** The state entered after reducing to symbol `lhs` on top of `state`. */
  function Goto(lhs: int, state: int): int
    requires YYNTOKENS <= lhs < YYNTOKENS + 13 && 0 <= state < YYNSTATES
  {
    var n := yypgoto[lhs - YYNTOKENS] + state;
    if 0 <= n <= YYLAST && yycheck[n] == state then yytable[n] else yydefgoto[lhs - YYNTOKENS]
  }

  /** The tables written out: every state either reduces by one rule or shifts on few symbols. */
  ghost function Automaton(state: int, token: int): Decision {
    match state
    case 0 => Reduce(4)
    case 1 => if token == 0 then Shift(3) else SyntaxError
    case 2 => if token == 3 then Shift(4) else if token == 4 then Shift(5) else if token == 5 then Shift(6)
      else Reduce(13)
    case 3 => Reduce(1)
    case 4 => Reduce(8)
    case 5 => if token == 7 then Shift(12) else SyntaxError
    case 6 => if token == 7 then Shift(13) else SyntaxError
    case 7 => Reduce(3)
    case 8 => Reduce(5)
    case 9 => Reduce(6)
    case 10 => Reduce(7)
    case 11 => if token == 6 then Shift(14) else Reduce(2)
    case 12 => Reduce(9)
    case 13 => Reduce(10)
    case 14 => Reduce(14)
    case 15 => Reduce(12)
    case 16 => if token == 7 then Shift(18) else SyntaxError
    case 17 => Reduce(17)
    case 18 => Reduce(11)
    case 19 => if token == 7 then Shift(20) else Reduce(15)
    case 20 => Reduce(18)
    case _ => Reduce(16)
  }

  lemma TablesAreAutomaton(state: int, token: int)
    requires 0 <= state < YYNSTATES && 0 <= token < YYNTOKENS
    ensures Decide(state, token) == Automaton(state, token)
  {
    if state < 8 {
      if state < 4 {} else {}
    } else if state < 16 {
      if state < 12 {} else {}
    } else {}
  }

  /** Whether error recovery may stop in `state`. */
  predicate ShiftsError(state: int)
    requires 0 <= state < YYNSTATES
  {
    var n := yypact[state];
    n != YYPACT_NINF && 0 <= n + YYTERROR <= YYLAST && yycheck[n + YYTERROR] == YYTERROR && 0 < yytable[n + YYTERROR]
  }

  /** No state can shift the error symbol, so recovery always empties the stack. */
  lemma NoErrorTransition(state: int)
    requires 0 <= state < YYNSTATES
    ensures !ShiftsError(state)
  {}

  // ----- The parser -----

  /** A semantic value: a command, a pointer into the scanner's text buffer after it read token `at`, or garbage. */
  datatype Value = CommandPtr(cmd: Command) | TextPtr(at: nat) | Garbage

  function TokenValue(tokens: seq<Token>, i: nat): Value
    requires i < |tokens|
  {
    match tokens[i]
    case NoArgs(c) => CommandPtr(c)
    case OneArg(c) => CommandPtr(c)
    case TwoArgs(c) => CommandPtr(c)
    case Mime(_) => TextPtr(i)
    case Str(_) => TextPtr(i)
    case Other(_) => Garbage
  }

  predicate HasText(t: Token) { t.Mime? || t.Str? }

  /**
    Reads a string through a semantic value.  The scanner reuses its buffer, so
    the text is only still there while no later token has been read.
   */
  method Text(tokens: seq<Token>, read: nat, v: Value) returns (s: string)
    requires read <= |tokens|
    ensures v.TextPtr? && v.at + 1 == read && HasText(tokens[v.at]) ==> s == tokens[v.at].text
  {
    s := *;
    if v.TextPtr? && v.at + 1 == read && HasText(tokens[v.at]) {
      s := tokens[v.at].text;
    }
  }

  /** Calls the action of a command, if it has one; a garbage pointer calls anything. */
  method Call(v: Value, v1: Option<string>, v2: Option<string>, callbacks: seq<Callback>) returns (r: seq<Callback>)
    ensures v.CommandPtr? ==> r == callbacks + (if v.cmd.hasAction then [Action(v.cmd, v1, v2)] else [])
  {
    var c: Command := *;
    if v.CommandPtr? {
      c := v.cmd;
    }
    r := if c.hasAction then callbacks + [Action(c, v1, v2)] else callbacks;
  }

  /** In every run each state is on top of exactly one stack. */
  ghost function StackOf(state: int): seq<int> {
    match state
    case 0 => [0]
    case 1 => [0, 1]
    case 2 => [0, 2]
    case 3 => [0, 1, 3]
    case 4 => [0, 2, 4]
    case 5 => [0, 2, 5]
    case 6 => [0, 2, 6]
    case 7 => [0, 2, 7]
    case 8 => [0, 2, 8]
    case 9 => [0, 2, 9]
    case 10 => [0, 2, 10]
    case 11 => [0, 2, 11]
    case 12 => [0, 2, 5, 12]
    case 13 => [0, 2, 6, 13]
    case 14 => [0, 2, 11, 14]
    case 15 => [0, 2, 11, 15]
    case 16 => [0, 2, 6, 13, 16]
    case 17 => [0, 2, 11, 14, 17]
    case 18 => [0, 2, 6, 13, 16, 18]
    case 19 => [0, 2, 11, 14, 17, 19]
    case 20 => [0, 2, 11, 14, 17, 19, 20]
    case _ => [0, 2, 11, 14, 17, 19, 21]
  }

  /** How many reductions can follow before the next shift. */
  ghost function Rank(state: int): nat {
    match state
    case 0 => 3
    case 2 => 2
    case 4 => 5
    case 7 => 3
    case 8 => 4
    case 9 => 4
    case 10 => 4
    case 11 => 1
    case 12 => 5
    case 13 => 1
    case 14 => 5
    case 15 => 2
    case 17 => 4
    case 18 => 5
    case 19 => 3
    case 20 => 5
    case 21 => 4
    case _ => 0
  }

  /** The tokens shifted since the last completed part of the tree. */
  ghost function Pending(state: int): nat {
    match state
    case 4 => 1
    case 5 => 1
    case 6 => 1
    case 12 => 2
    case 13 => 2
    case 14 => 1
    case 16 => 2
    case 18 => 3
    case 20 => 1
    case _ => 0
  }

  ghost predicate PendingTokens(state: int, ts: seq<Token>, at: nat, values: seq<Value>, arg1hold: string)
    requires |ts| == Pending(state) && |values| == |StackOf(state)|
  {
    match state
    case 4 => ts[0].NoArgs? && values[2] == CommandPtr(ts[0].cmd)
    case 5 => ts[0].OneArg? && values[2] == CommandPtr(ts[0].cmd)
    case 6 => ts[0].TwoArgs? && values[2] == CommandPtr(ts[0].cmd)
    case 12 => ts[0].OneArg? && values[2] == CommandPtr(ts[0].cmd) && ts[1].Str? && values[3] == TextPtr(at + 1)
    case 13 => ts[0].TwoArgs? && values[2] == CommandPtr(ts[0].cmd) && ts[1].Str? && values[3] == TextPtr(at + 1)
    case 14 => ts[0].Mime? && values[3] == TextPtr(at)
    case 16 => ts[0].TwoArgs? && values[2] == CommandPtr(ts[0].cmd) && ts[1].Str? && arg1hold == ts[1].text
    case 18 => ts[0].TwoArgs? && values[2] == CommandPtr(ts[0].cmd) && ts[1].Str? && arg1hold == ts[1].text
               && ts[2].Str? && values[5] == TextPtr(at + 2)
    case 20 => ts[0].Str? && values[6] == TextPtr(at)
    case _ => true
  }

  /** What the lookahead rules out once the parser has left the statements or the extensions. */
  ghost predicate Committed(state: int, tree: Config, look: Option<Token>) {
    && (state == 3 ==> look.None?)
    && (state in {1, 11, 15} && look.Some? ==>
          if tree.mimes == [] then !look.value.NoArgs? && !look.value.OneArg? && !look.value.TwoArgs?
          else !look.value.Str?)
    && (state == 1 && look.Some? ==> !look.value.Mime?)
  }

  ghost predicate MimeState(state: int, tree: Config, mimeType: string) {
    && (state in {0, 2, 4, 5, 6, 7, 8, 9, 10, 12, 13, 16, 18} ==> tree.mimes == [])
    && (state in {15, 17, 19, 20, 21} ==> tree.mimes != [])
    && (state in {17, 19, 20, 21} ==> mimeType == tree.mimes[|tree.mimes| - 1].mimeType)
  }

  /** The variables of the parser's main loop. */
  datatype Parser = Parser(pos: nat, yychar: int, yylval: Value, yystate: int, yyss: seq<int>, yyvs: seq<Value>,
                           arg1hold: string, mimeType: string, callbacks: seq<Callback>)

  /** The lookahead, when it is a token. */
  ghost function Look(tokens: seq<Token>, p: Parser): Option<Token>
    requires p.yychar > 0 ==> 0 < p.pos <= |tokens|
  {
    if p.yychar > 0 then Some(tokens[p.pos - 1]) else None
  }

  /** How many tokens have been shifted. */
  ghost function Shifted(p: Parser): int {
    if p.yychar > 0 then p.pos - 1 else p.pos
  }

  /** The lookahead is nothing, the end of the input or the last token read. */
  ghost predicate HasRead(tokens: seq<Token>, p: Parser) {
    && p.pos <= |tokens|
    && (p.yychar == YYEMPTY || (p.yychar == YYEOF && p.pos == |tokens|) ||
        (p.pos > 0 && p.yychar == Code(tokens[p.pos - 1]) && p.yylval == TokenValue(tokens, p.pos - 1)))
  }

  /** Which states have a lookahead and which have none. */
  ghost predicate LooksAhead(state: int, yychar: int) {
    && (state in {4, 12, 13, 14, 18, 20, 3} ==> yychar == YYEMPTY)
    && (state in {1, 11, 15} ==> yychar != YYEMPTY)
  }

  /** The tokens shifted are those of the tree and the pending ones. */
  ghost predicate Covers(tokens: seq<Token>, n: int, state: int, yyvs: seq<Value>, arg1hold: string, tree: Config)
    requires n <= |tokens| && |yyvs| == |StackOf(state)|
  {
    var base := n - Pending(state);
    0 <= base && TokensOf(tree) == tokens[..base] && PendingTokens(state, tokens[base..n], base, yyvs, arg1hold)
  }

  /** The invariant of the parser's main loop. */
  ghost predicate Reached(tokens: seq<Token>, p: Parser, tree: Config) {
    && 0 <= p.yystate < YYNSTATES && p.yyss == StackOf(p.yystate) && |p.yyvs| == |p.yyss|
    && HasRead(tokens, p) && LooksAhead(p.yystate, p.yychar) && (p.yystate == YYFINAL ==> p.pos == |tokens|)
    && Covers(tokens, Shifted(p), p.yystate, p.yyvs, p.arg1hold, tree)
    && p.callbacks == CallbacksOf(tree)
    && Committed(p.yystate, tree, Look(tokens, p))
    && MimeState(p.yystate, tree, p.mimeType)
  }

  /** The rule each reducing state applies. */
  ghost function RuleOf(state: int): int {
    match state
    case 0 => 4
    case 2 => 13
    case 4 => 8
    case 7 => 3
    case 8 => 5
    case 9 => 6
    case 10 => 7
    case 11 => 2
    case 12 => 9
    case 13 => 10
    case 14 => 14
    case 15 => 12
    case 17 => 17
    case 18 => 11
    case 19 => 15
    case 20 => 18
    case 21 => 16
    case _ => 0
  }

  /** The state each reduction leads to. */
  ghost function NextState(state: int): int {
    match state
    case 0 => 2
    case 2 => 11
    case 4 => 8
    case 7 => 2
    case 8 => 7
    case 9 => 7
    case 10 => 7
    case 11 => 1
    case 12 => 9
    case 13 => 16
    case 14 => 17
    case 15 => 11
    case 17 => 19
    case 18 => 10
    case 19 => 15
    case 20 => 21
    case _ => 19
  }

  lemma ReductionRank(state: int)
    requires 0 <= state < YYNSTATES && RuleOf(state) != 0
    ensures Rank(NextState(state)) < Rank(state) && 0 <= NextState(state) < YYNSTATES && NextState(state) != YYFINAL
  {}

  lemma ReductionStack(state: int)
    requires 0 <= state < YYNSTATES && RuleOf(state) != 0
    ensures var rule := RuleOf(state);
            var rest := StackOf(state)[..|StackOf(state)| - yyr2[rule]];
            |rest| > 0 && 0 <= rest[|rest| - 1] < YYNSTATES && YYNTOKENS <= yyr1[rule] &&
            Goto(yyr1[rule], rest[|rest| - 1]) == NextState(state) &&
              rest + [NextState(state)] == StackOf(NextState(state))
    ensures 0 <= yyr2[RuleOf(state)] < |StackOf(state)| && (NextState(state) == 16 ==> yyr2[RuleOf(state)] == 0)
  {
    if state < 8 {
      if state < 4 {} else {}
    } else if state < 12 {
      if state < 10 {} else {}
    } else if state < 17 {
      if state < 14 {} else {}
    } else {}
  }

  /**
    What the action of a rule finds: `ts` are the tokens of the part it
    completes, the last one read being the last of them.
   */
  ghost predicate Ready(rule: int, ts: seq<Token>, at: nat, yyvs: seq<Value>, arg1hold: string, mimeType: string,
                        tree: Config)
  {
    var top := |yyvs| - 1;
    match rule
    case 8 => tree.mimes == [] && top >= 0 && |ts| == 1 && ts[0].NoArgs? && yyvs[top] == CommandPtr(ts[0].cmd)
    case 9 => tree.mimes == [] && top >= 1 && |ts| == 2 && ts[0].OneArg? && yyvs[top - 1] == CommandPtr(ts[0].cmd)
              && ts[1].Str? && yyvs[top] == TextPtr(at + 1)
    case 10 => top >= 0 && |ts| == 2 && ts[1].Str? && yyvs[top] == TextPtr(at + 1)
    case 11 => tree.mimes == [] && top >= 3 && |ts| == 3 && ts[0].TwoArgs? && yyvs[top - 3] == CommandPtr(ts[0].cmd)
               && ts[1].Str? && arg1hold == ts[1].text && ts[2].Str? && yyvs[top] == TextPtr(at + 2)
    case 14 => top >= 0 && |ts| == 1 && ts[0].Mime? && yyvs[top] == TextPtr(at)
    case 18 => top >= 0 && |ts| == 1 && ts[0].Str? && yyvs[top] == TextPtr(at)
               && tree.mimes != [] && tree.mimes[|tree.mimes| - 1].mimeType == mimeType
    case _ => ts == []
  }

  /** What the action of a rule makes of the tree and of the two strings it keeps. */
  ghost predicate Acted(rule: int, ts: seq<Token>, tree: Config, mimeType: string, tree': Config, arg1hold': string,
                        mimeType': string)
  {
    && (rule != 10 ==> TokensOf(tree') == TokensOf(tree) + ts)
    && (rule == 10 ==> tree' == tree && |ts| == 2 && ts[1].Str? && arg1hold' == ts[1].text)
    && (rule !in {14, 18} ==> tree'.mimes == tree.mimes && mimeType' == mimeType)
    && (rule in {14, 18} ==> tree'.mimes != [] && mimeType' == tree'.mimes[|tree'.mimes| - 1].mimeType)
  }

  /** The calls made since are those of the statement whose tokens are `ts`. */
  ghost predicate Calls(ts: seq<Token>, before: seq<Callback>, callbacks: seq<Callback>) {
    exists s :: StmtTokens(s) == ts && callbacks == before + StmtCallbacks(s)
  }

  /** The semantic actions of the statements. */
  method ActStmt(rule: int, tokens: seq<Token>, p: Parser, ghost ts: seq<Token>, ghost tree: Config)
    returns (callbacks': seq<Callback>, ghost tree': Config)
    requires rule in {8, 9, 11}
    requires |ts| <= p.pos <= |tokens| && (ts != [] ==> ts == tokens[p.pos - |ts|..p.pos])
    requires Ready(rule, ts, p.pos - |ts|, p.yyvs, p.arg1hold, p.mimeType, tree)
    requires p.callbacks == CallbacksOf(tree)
    ensures Calls(ts, p.callbacks, callbacks')
    ensures callbacks' == CallbacksOf(tree')
    ensures TokensOf(tree') == TokensOf(tree) + ts && tree'.mimes == tree.mimes
  {
    hide CallbacksOf, TokensOf;
    var top := |p.yyvs| - 1;
    ghost var stmt;
    match rule {
      case 8 =>
        callbacks' := Call(p.yyvs[top], None, None, p.callbacks);
        stmt := NoArgsStmt(ts[0].cmd);
        assert ts == StmtTokens(stmt) && callbacks' == p.callbacks + StmtCallbacks(stmt);
      case 9 =>
        var s := Text(tokens, p.pos, p.yyvs[top]);
        callbacks' := Call(p.yyvs[top - 1], Some(s), None, p.callbacks);
        stmt := OneArgStmt(ts[0].cmd, s);
        assert ts == StmtTokens(stmt) && callbacks' == p.callbacks + StmtCallbacks(stmt);
      case 11 =>
        var s := Text(tokens, p.pos, p.yyvs[top]);
        callbacks' := Call(p.yyvs[top - 3], Some(s), Some(p.arg1hold), p.callbacks);
        stmt := TwoArgsStmt(ts[0].cmd, p.arg1hold, s);
        assert ts == StmtTokens(stmt) && callbacks' == p.callbacks + StmtCallbacks(stmt);
    }
    tree' := tree.(stmts := tree.stmts + [stmt]);
    GrowStmts(tree, stmt);
  }

  /** The semantic actions. */
  method Act(rule: int, tokens: seq<Token>, p: Parser, ghost ts: seq<Token>, ghost tree: Config)
    returns (arg1hold': string, mimeType': string, callbacks': seq<Callback>, ghost tree': Config)
    requires |ts| <= p.pos <= |tokens| && (ts != [] ==> ts == tokens[p.pos - |ts|..p.pos])
    requires Ready(rule, ts, p.pos - |ts|, p.yyvs, p.arg1hold, p.mimeType, tree)
    requires p.callbacks == CallbacksOf(tree)
    ensures if rule in {8, 9, 11} then Calls(ts, p.callbacks, callbacks')
            else if rule == 18 then callbacks' == p.callbacks + [AddMimeType(ts[0].text, p.mimeType)]
            else callbacks' == p.callbacks
    ensures arg1hold' == if rule == 10 then ts[1].text else p.arg1hold
    ensures mimeType' == if rule == 14 then ts[0].text else p.mimeType
    ensures callbacks' == CallbacksOf(tree')
    ensures Acted(rule, ts, tree, p.mimeType, tree', arg1hold', mimeType')
  {
    hide CallbacksOf, TokensOf, Calls;
    arg1hold', mimeType', callbacks', tree' := p.arg1hold, p.mimeType, p.callbacks, tree;
    var top := |p.yyvs| - 1;
    if rule == 8 || rule == 9 || rule == 11 {
      callbacks', tree' := ActStmt(rule, tokens, p, ts, tree);
    } else if rule == 10 {
      arg1hold' := Text(tokens, p.pos, p.yyvs[top]);
    } else if rule == 14 {
      mimeType' := Text(tokens, p.pos, p.yyvs[top]);
      tree' := tree.(mimes := tree.mimes + [MimeStmt(mimeType', [])]);
      GrowMimes(tree, mimeType');
      assert ts == [Mime(mimeType')];
    } else if rule == 18 {
      var s := Text(tokens, p.pos, p.yyvs[top]);
      callbacks' := p.callbacks + [AddMimeType(s, p.mimeType)];
      tree' := tree.(mimes := AddExtension(tree.mimes, s));
      GrowExtensions(tree, s);
      assert ts == [Str(s)];
    } else {
      assert TokensOf(tree) + ts == TokensOf(tree);
    }
  }

  /** A stack whose top state reduces holds what the action needs. */
  lemma ReachedIsReady(tokens: seq<Token>, p: Parser, tree: Config)
    requires Reached(tokens, p, tree)
    requires RuleOf(p.yystate) != 0
    ensures var n := Shifted(p);
            var base := n - Pending(p.yystate);
            && 0 <= base <= n <= p.pos && (base < n ==> n == p.pos)
            && Ready(RuleOf(p.yystate), tokens[base..n], p.pos - (n - base), p.yyvs, p.arg1hold, p.mimeType, tree)
  {
    hide TokensOf, CallbacksOf, Committed;
  }

  /** Pops the right-hand side, pushes the left-hand side and enters the next state. */
  method PopAndGoto(rule: int, yystate: int, yyss: seq<int>, yyvs: seq<Value>)
    returns (yystate': int, yyss': seq<int>, yyvs': seq<Value>)
    requires 0 <= yystate < YYNSTATES && yyss == StackOf(yystate) && |yyvs| == |yyss|
    requires rule == RuleOf(yystate) != 0
    ensures yystate' == NextState(yystate)
    ensures yyss' == StackOf(yystate')
    ensures |yyvs'| == |yyss'|
    ensures yystate' == 16 ==> yyvs <= yyvs'
  {
    hide StackOf, Goto, NextState, Rank;
    ReductionStack(yystate);
    var yylen := yyr2[rule];
    // With an empty right-hand side the default value is whatever lies above the stack.
    var yyval := if yylen == 0 then Garbage else yyvs[|yyvs| - yylen];
    yyss', yyvs' := yyss[..|yyss| - yylen], yyvs[..|yyvs| - yylen];
    yystate' := Goto(yyr1[rule], yyss'[|yyss'| - 1]);
    yyss' := yyss' + [yystate'];
    yyvs' := yyvs' + [yyval];
  }

  /** One reduction: the semantic action of the rule, then the pop and the goto. */
  method ReduceBy(rule: int, tokens: seq<Token>, p: Parser, ghost tree: Config)
    returns (p': Parser, ghost tree': Config)
    requires Reached(tokens, p, tree)
    requires rule == RuleOf(p.yystate) != 0
    requires Committed(NextState(p.yystate), tree, Look(tokens, p))
    requires LooksAhead(NextState(p.yystate), p.yychar)
    ensures Reached(tokens, p', tree') == true
    ensures p'.yystate == NextState(p.yystate) && Shifted(p') == Shifted(p)
  {
    hide Committed, MimeState, Ready, Acted, Calls, NextState, RuleOf, StackOf, TokensOf, CallbacksOf, PendingTokens;
    ghost var n := Shifted(p);
    ghost var ts := tokens[n - Pending(p.yystate)..n];
    ReachedIsReady(tokens, p, tree);
    p' := p;
    var arg1hold, mimeType, callbacks;
    arg1hold, mimeType, callbacks, tree' := Act(rule, tokens, p, ts, tree);
    var yystate, yyss, yyvs := PopAndGoto(rule, p.yystate, p.yyss, p.yyvs);
    p' := Parser(p.pos, p.yychar, p.yylval, yystate, yyss, yyvs, arg1hold, mimeType, callbacks);
    ReducedIsReached(tokens, p, tree, p', tree');
  }

  lemma ReducedIsReached(tokens: seq<Token>, p: Parser, tree: Config, p': Parser, tree': Config)
    requires Reached(tokens, p, tree)
    requires RuleOf(p.yystate) != 0
    requires Committed(NextState(p.yystate), tree, Look(tokens, p)) && LooksAhead(NextState(p.yystate), p.yychar)
    requires p'.pos == p.pos && p'.yychar == p.yychar && p'.yylval == p.yylval
    requires p'.yystate == NextState(p.yystate) && p'.yyss == StackOf(p'.yystate) && |p'.yyvs| == |p'.yyss|
    requires NextState(p.yystate) == 16 ==> p.yyvs <= p'.yyvs
    requires p'.callbacks == CallbacksOf(tree')
    requires var n := Shifted(p);
             Acted(RuleOf(p.yystate), tokens[n - Pending(p.yystate)..n], tree, p.mimeType, tree', p'.arg1hold,
               p'.mimeType)
    ensures Reached(tokens, p', tree')
  {
    hide TokensOf, CallbacksOf, PendingTokens, StackOf, RuleOf, NextState, Rank, Goto, Code, TokenValue, Covers;
    ReductionRank(p.yystate);
    ReducedMimes(p.yystate, tree, p.mimeType, tree', p'.mimeType, Look(tokens, p));
    ReducedCovers(tokens, Shifted(p), p.yystate, p.yyvs, p.arg1hold, p.mimeType, tree, p'.yyvs, p'.arg1hold,
      p'.mimeType,
      tree');
  }

  /** A reduction completes a part of the tree, but for rule 10, which only keeps the first of two strings. */
  lemma ReducedCovers(tokens: seq<Token>, n: int, state: int, yyvs: seq<Value>, arg1hold: string, mimeType: string,
                      tree: Config, yyvs': seq<Value>, arg1hold': string, mimeType': string, tree': Config)
    requires 0 <= state < YYNSTATES && RuleOf(state) != 0
    requires n <= |tokens| && |yyvs| == |StackOf(state)| && |yyvs'| == |StackOf(NextState(state))|
    requires Covers(tokens, n, state, yyvs, arg1hold, tree)
    requires Acted(RuleOf(state), tokens[n - Pending(state)..n], tree, mimeType, tree', arg1hold', mimeType')
    requires NextState(state) == 16 ==> yyvs <= yyvs'
    ensures Covers(tokens, n, NextState(state), yyvs', arg1hold', tree')
  {
    hide TokensOf, PendingTokens, StackOf, RuleOf, NextState;
    var base := n - Pending(state);
    if state == 13 {
      NowBetweenStrings();
      HoldsFirst(tokens[base..n], base, yyvs, arg1hold, yyvs', arg1hold');
    } else {
      Completes(state, n, yyvs', arg1hold');
      assert tokens[..n] == tokens[..base] + tokens[base..n];
      assert tokens[n..n] == [];
    }
  }

  lemma NowBetweenStrings()
    ensures RuleOf(13) == 10 && NextState(13) == 16 && Pending(13) == Pending(16)
  {}

  lemma HoldsFirst(ts: seq<Token>, at: nat, values: seq<Value>, arg1hold: string, values': seq<Value>,
      arg1hold': string)
    requires |ts| == Pending(13) && |values| == |StackOf(13)| && PendingTokens(13, ts, at, values, arg1hold)
    requires values <= values' && |values'| == |StackOf(16)| && arg1hold' == ts[1].text
    ensures PendingTokens(16, ts, at, values', arg1hold')
  {
    assert values'[2] == values[2];
  }

  lemma Completes(state: int, at: nat, values: seq<Value>, arg1hold: string)
    requires 0 <= state < YYNSTATES && RuleOf(state) != 0 && state != 13
    requires |values| == |StackOf(NextState(state))|
    ensures RuleOf(state) != 10 && Pending(NextState(state)) == 0
    ensures PendingTokens(NextState(state), [], at, values, arg1hold)
  {}

  lemma ReducedMimes(yystate: int, tree: Config, mimeType: string, tree': Config, mimeType': string,
      look: Option<Token>)
    requires 0 <= yystate < YYNSTATES && RuleOf(yystate) != 0
    requires MimeState(yystate, tree, mimeType) && Committed(NextState(yystate), tree, look)
    requires RuleOf(yystate) !in {14, 18} ==> tree'.mimes == tree.mimes && mimeType' == mimeType
    requires RuleOf(yystate) in {14, 18} ==> tree'.mimes != [] && mimeType' == tree'.mimes[|tree'.mimes| - 1].mimeType
    ensures MimeState(NextState(yystate), tree', mimeType') && Committed(NextState(yystate), tree', look)
  {}

  /** Reading a lookahead in a state that looks at it. */
  lemma ReadIsReached(tokens: seq<Token>, p: Parser, tree: Config)
    requires Reached(tokens, p, tree) && p.yychar == YYEMPTY
    requires yypact[p.yystate] != YYPACT_NINF
    ensures p.pos < |tokens| ==>
      Reached(tokens, p.(pos := p.pos + 1, yychar := Code(tokens[p.pos]), yylval := TokenValue(tokens, p.pos)), tree)
    ensures p.pos == |tokens| ==> Reached(tokens, p.(yychar := YYEOF), tree)
  {
    hide TokensOf, CallbacksOf, PendingTokens, Code, TokenValue, StackOf;
    assert p.yystate in {1, 2, 5, 6, 11, 16, 19};
  }

  /** Reads a lookahead token if the state needs one and there is none. */
  method Lookahead(tokens: seq<Token>, p: Parser, ghost tree: Config) returns (p': Parser, yytoken: int)
    requires Reached(tokens, p, tree)
    ensures Reached(tokens, p', tree) == true
    ensures p'.yystate == p.yystate && Shifted(p') == Shifted(p)
    ensures 0 <= yytoken < YYNTOKENS
    ensures yypact[p.yystate] != YYPACT_NINF ==> p'.yychar != YYEMPTY && yytoken == Translate(p'.yychar)
  {
    hide TokensOf, CallbacksOf, Covers, Committed, MimeState, StackOf;
    p', yytoken := p, 0;
    if yypact[p.yystate] != YYPACT_NINF {
      if p.yychar == YYEMPTY {
        ReadIsReached(tokens, p, tree);
        if p.pos < |tokens| {
          p' := p.(pos := p.pos + 1, yychar := Code(tokens[p.pos]), yylval := TokenValue(tokens, p.pos));
        } else {
          p' := p.(yychar := YYEOF);
        }
      }
      yytoken := Translate(p'.yychar);
      if p'.yychar > 0 { CodeKinds(tokens[p'.pos - 1]); }
    }
  }

  lemma CodeKinds(t: Token)
    ensures var k := Translate(Code(t));
            && 0 < k < YYNTOKENS
            && (k == 3 <==> t.NoArgs?) && (k == 4 <==> t.OneArg?) && (k == 5 <==> t.TwoArgs?)
            && (k == 6 <==> t.Mime?) && (k == 7 <==> t.Str?)
  {}

  /** The parser after it has shifted its lookahead. */
  function AfterShift(p: Parser, s: int): Parser {
    p.(yychar := YYEMPTY, yystate := s, yyss := p.yyss + [s], yyvs := p.yyvs + [p.yylval])
  }

  /** Shifting the lookahead, a real token or the end of input. */
  lemma ShiftIsReached(tokens: seq<Token>, p: Parser, tree: Config, s: int)
    requires Reached(tokens, p, tree)
    requires p.yychar != YYEMPTY && Automaton(p.yystate, Translate(p.yychar)) == Shift(s)
    ensures Reached(tokens, AfterShift(p, s), tree)
    ensures p.yychar == YYEOF <==> s == YYFINAL
  {
    hide Covers, Committed, TokensOf, CallbacksOf, StackOf, MimeState, Automaton, HasRead;
    assert p.yychar > 0 || p.yychar == YYEOF by { ReadsCodes(tokens, p); }
    if p.yychar > 0 {
      TokenShiftIsReached(tokens, p, tree, s);
    } else {
      EndShiftIsReached(tokens, p, tree, s);
    }
  }

  lemma ReadsCodes(tokens: seq<Token>, p: Parser)
    requires HasRead(tokens, p) && p.yychar != YYEMPTY
    ensures p.yychar > 0 || (p.yychar == YYEOF && p.pos == |tokens|)
  {}

  /** Only the first state shifts the end of the input. */
  lemma ShiftsEnd(state: int, s: int)
    requires Automaton(state, YYEOF) == Shift(s)
    ensures state == 1 && s == YYFINAL
  {}

  lemma EndShiftIsReached(tokens: seq<Token>, p: Parser, tree: Config, s: int)
    requires Reached(tokens, p, tree)
    requires p.yychar == YYEOF && Automaton(p.yystate, YYEOF) == Shift(s)
    ensures Reached(tokens, AfterShift(p, s), tree) && s == YYFINAL
  {
    hide TokensOf, CallbacksOf, Automaton, Code, TokenValue;
    ShiftsEnd(p.yystate, s);
  }

  lemma TokenShiftIsReached(tokens: seq<Token>, p: Parser, tree: Config, s: int)
    requires Reached(tokens, p, tree)
    requires p.yychar > 0 && Automaton(p.yystate, Translate(p.yychar)) == Shift(s)
    ensures Reached(tokens, AfterShift(p, s), tree)
    ensures s != YYFINAL
  {
    hide TokensOf, CallbacksOf, PendingTokens, Automaton, StackOf, Code, TokenValue, Translate, Committed, MimeState,
      LooksAhead;
    CodeKinds(tokens[p.pos - 1]);
    ShiftedStack(p.yystate, Translate(p.yychar), s);
    ShiftedPending(tokens, p.pos, p.yystate, p.yyvs, p.arg1hold, s, p.yylval);
    ShiftedMimes(p.yystate, tree, p.mimeType, tokens[p.pos - 1], s);
  }

  lemma ShiftedMimes(state: int, tree: Config, mimeType: string, t: Token, s: int)
    requires 0 <= state < YYNSTATES && Automaton(state, Translate(Code(t))) == Shift(s)
    requires MimeState(state, tree, mimeType) && Committed(state, tree, Some(t))
    ensures s != YYFINAL && MimeState(s, tree, mimeType) && Committed(s, tree, None) && LooksAhead(s, YYEMPTY)
  {
    hide Code, Translate;
    CodeKinds(t);
  }

  lemma ShiftedStack(state: int, token: int, s: int)
    requires 0 <= state < YYNSTATES && Automaton(state, token) == Shift(s)
    ensures 0 <= s < YYNSTATES && StackOf(state) + [s] == StackOf(s)
    ensures s in {3, 4, 5, 6, 12, 13, 14, 18, 20}
  {}

  /** A shifted token joins the pending ones. */
  lemma ShiftedPending(tokens: seq<Token>, pos: nat, yystate: int, yyvs: seq<Value>, arg1hold: string, s: int,
                      yylval: Value)
    requires 0 < pos <= |tokens| && Automaton(yystate, Translate(Code(tokens[pos - 1]))) == Shift(s)
    requires 0 <= yystate < YYNSTATES && |yyvs| == |StackOf(yystate)| && Pending(yystate) < pos
    requires PendingTokens(yystate, tokens[pos - 1 - Pending(yystate)..pos - 1], pos - 1 - Pending(yystate), yyvs,
      arg1hold)
    requires yylval == TokenValue(tokens, pos - 1)
    ensures Pending(s) == Pending(yystate) + 1 && |yyvs| + 1 == |StackOf(s)|
    ensures PendingTokens(s, tokens[pos - Pending(s)..pos], pos - Pending(s), yyvs + [yylval], arg1hold) == true
  {
    hide Code, Translate, Automaton, PendingTokens, StackOf;
    var base := pos - 1 - Pending(yystate);
    assert tokens[base..pos] == tokens[base..pos - 1] + [tokens[pos - 1]];
    PendingSnoc(yystate, tokens[base..pos - 1], tokens[pos - 1], base, yyvs, arg1hold, s, yylval);
  }

  lemma PendingSnoc(state: int, ts: seq<Token>, t: Token, at: nat, values: seq<Value>, arg1hold: string, s: int,
      v: Value)
    requires 0 <= state < YYNSTATES && Automaton(state, Translate(Code(t))) == Shift(s)
    requires |ts| == Pending(state) && |values| == |StackOf(state)| && PendingTokens(state, ts, at, values, arg1hold)
    requires HasText(t) ==> v == TextPtr(at + |ts|)
    requires t.NoArgs? || t.OneArg? || t.TwoArgs? ==> v == CommandPtr(t.cmd)
    ensures Pending(s) == Pending(state) + 1 && |values| + 1 == |StackOf(s)|
    ensures PendingTokens(s, ts + [t], at, values + [v], arg1hold)
  {
    hide Code, Translate;
    CodeKinds(t);
  }

  /** The two places a run can end. */
  lemma AcceptIsLongest(tokens: seq<Token>, tree: Config)
    requires TokensOf(tree) == tokens
    ensures IsLongestConfig(tokens, tree)
  {}

  lemma ErrorIsLongest(tokens: seq<Token>, p: Parser, tree: Config)
    requires Reached(tokens, p, tree)
    requires p.yychar != YYEMPTY && Automaton(p.yystate, Translate(p.yychar)) == SyntaxError
    ensures IsLongestConfig(tokens, tree) && TokensOf(tree) != tokens
  {
    hide TokensOf, CallbacksOf, IsLongestConfig;
    var n := Shifted(p);
    var ts := tokens[n - Pending(p.yystate)..n];
    if p.yychar > 0 { CodeKinds(tokens[n]); }
    assert n < |tokens| || ts != [];
    PlaceOfConfig(tree);
    StuckPlaces(tokens, n - |ts|, n, ts);
    StuckIsLongest(tokens, tree, n);
  }

  /** Tokens `ts` past a complete prefix start a statement that the lookahead does not continue. */
  lemma StuckPlaces(tokens: seq<Token>, base: nat, n: nat, ts: seq<Token>)
    requires base <= n <= |tokens| && ts == tokens[base..n] && |ts| <= 2
    requires AtConfigEnd(PlaceOf(tokens[..base]))
    requires ts != [] ==> PlaceOf(tokens[..base]).InStmts? && (ts[0].OneArg? || ts[0].TwoArgs?)
    requires ts != [] && n < |tokens| ==> !tokens[n].Str?
    requires |ts| == 2 ==> ts[0].TwoArgs? && ts[1].Str?
    requires ts == [] && n < |tokens| ==> Advance(PlaceOf(tokens[..base]), tokens[n]).Dead?
    ensures n < |tokens| ==> PlaceOf(tokens[..n + 1]).Dead?
    ensures forall k :: base < k <= n ==> !AtConfigEnd(PlaceOf(tokens[..k]))
  {
    if n < |tokens| { PlaceAfter(tokens, n, tokens[n]); }
    if |ts| > 0 { PlaceAfter(tokens, base, ts[0]); }
    if |ts| > 1 { PlaceAfter(tokens, base + 1, ts[1]); }
    forall k | base < k <= n
      ensures !AtConfigEnd(PlaceOf(tokens[..k]))
    {
      assert k == base + 1 || k == base + 2;
    }
  }

  lemma PlaceAfter(tokens: seq<Token>, k: nat, t: Token)
    requires k < |tokens| && tokens[k] == t
    ensures PlaceOf(tokens[..k + 1]) == Advance(PlaceOf(tokens[..k]), t)
  {
    assert tokens[..k + 1] == tokens[..k] + [t];
    PlaceOfSnoc(tokens[..k], t);
  }

  /** Error recovery: pops states looking for one that shifts the error symbol; there is none. */
  method Recover(yystate: int, yyss: seq<int>) returns (shifted: bool)
    requires |yyss| > 0 && yystate == yyss[|yyss| - 1]
    requires forall i :: 0 <= i < |yyss| ==> 0 <= yyss[i] < YYNSTATES
    ensures !shifted
  {
    var ss := yyss;
    while true
      invariant 0 < |ss| <= |yyss| && ss == yyss[..|ss|]
      decreases |ss|
    {
      NoErrorTransition(ss[|ss| - 1]);
      if ShiftsError(ss[|ss| - 1]) {
        return true;
      }
      if |ss| == 1 {
        return false;
      }
      ss := ss[..|ss| - 1];
    }
  }

  /** The error path: recovery empties the stack and the parse fails. */
  method Reject(tokens: seq<Token>, p: Parser, ghost tree: Config) returns (failed: bool)
    requires Reached(tokens, p, tree)
    requires p.yychar != YYEMPTY && Automaton(p.yystate, Translate(p.yychar)) == SyntaxError
    ensures failed && p.callbacks == CallbacksOf(tree)
    ensures IsLongestConfig(tokens, tree) && TokensOf(tree) != tokens
  {
    ErrorIsLongest(tokens, p, tree);
    StackDepth(tokens, p, tree);
    var shifted := Recover(p.yystate, p.yyss);
    failed := !shifted;
  }

  /** What is left to do: tokens to shift, then reductions. */
  ghost function Remaining(tokens: seq<Token>, p: Parser): int {
    |tokens| - Shifted(p) + (if p.yystate == YYFINAL then 0 else 1)
  }

  /** One turn of the parser: read a lookahead if the state needs it, then shift, reduce or fail. */
  method Step(tokens: seq<Token>, p: Parser, ghost tree: Config)
    returns (failed: bool, p': Parser, ghost tree': Config)
    requires Reached(tokens, p, tree) && p.yystate != YYFINAL
    ensures failed ==>
      p'.callbacks == CallbacksOf(tree') && IsLongestConfig(tokens, tree') && TokensOf(tree') != tokens
    ensures !failed ==>
      && Reached(tokens, p', tree') == true
      && 0 <= Remaining(tokens, p') <= Remaining(tokens, p)
      && (Remaining(tokens, p') == Remaining(tokens, p) ==> Rank(p'.yystate) < Rank(p.yystate))
  {
    hide TokensOf, CallbacksOf, IsLongestConfig, Covers, Committed, MimeState, StackOf, Decide, Automaton, RuleOf,
      NextState, Rank;
    failed, tree' := false, tree;
    var yytoken;
    p', yytoken := Lookahead(tokens, p, tree);
    TablesAreAutomaton(p.yystate, yytoken);
    match Decide(p.yystate, yytoken) {
      case Shift(s) =>
        ShiftsLook(p.yystate, yytoken, s);
        ShiftIsReached(tokens, p', tree, s);
        p' := AfterShift(p', s);
      case Reduce(rule) =>
        ReducingState(tokens, p', tree, rule, yytoken);
        p', tree' := ReduceBy(rule, tokens, p', tree);
      case SyntaxError =>
        ErrorsLook(p.yystate, yytoken);
        failed := Reject(tokens, p', tree);
    }
  }

  /** A state that shifts or fails has looked at a token. */
  lemma ShiftsLook(state: int, token: int, s: int)
    requires 0 <= state < YYNSTATES && Automaton(state, token) == Shift(s)
    ensures yypact[state] != YYPACT_NINF
  {}

  lemma ErrorsLook(state: int, token: int)
    requires 0 <= state < YYNSTATES && Automaton(state, token) == SyntaxError
    ensures yypact[state] != YYPACT_NINF
  {}

  /** The parser's loop, with the tree it has read; its stack never holds more than seven states. */
  method ParseTree(tokens: seq<Token>)
    returns (result: int, callbacks: seq<Callback>, ghost tree: Config)
    ensures IsLongestConfig(tokens, tree)
    ensures callbacks == CallbacksOf(tree)
    ensures result == if TokensOf(tree) == tokens then 0 else 1
  {
    var p := Parser(0, YYEMPTY, Garbage, 0, [0], [Garbage], "", "", []);
    var failed := false;
    tree := Config([], []);
    while p.yystate != YYFINAL
      invariant Reached(tokens, p, tree) == true
      invariant 0 < |p.yyss| <= 7 < YYINITDEPTH  // so the stacks never have to be relocated
      decreases Remaining(tokens, p), Rank(p.yystate)
    {
      failed, p, tree := Step(tokens, p, tree);
      if failed {
        return 1, p.callbacks, tree;
      }
      StackDepth(tokens, p, tree);
    }
    AcceptIsLongest(tokens, tree);
    result, callbacks := 0, p.callbacks;
  }

  /** However long the input, the stack holds at most seven states, the current one on top. */
  lemma StackDepth(tokens: seq<Token>, p: Parser, tree: Config)
    requires Reached(tokens, p, tree)
    ensures 0 < |p.yyss| <= 7 && p.yyss[|p.yyss| - 1] == p.yystate
    ensures forall i :: 0 <= i < |p.yyss| ==> 0 <= p.yyss[i] < YYNSTATES
  {
    StackBound(p.yystate);
  }

  lemma StackBound(state: int)
    requires 0 <= state < YYNSTATES
    ensures 0 < |StackOf(state)| <= 7
    ensures StackOf(state)[|StackOf(state)| - 1] == state
    ensures forall i :: 0 <= i < |StackOf(state)| ==> 0 <= StackOf(state)[i] < YYNSTATES
  {}

  /** When the tables ask for a reduction, the rule is the state's own and the lookahead justifies it. */
  lemma ReducingState(tokens: seq<Token>, p: Parser, tree: Config, rule: int, yytoken: int)
    requires Reached(tokens, p, tree)
    requires p.yystate != YYFINAL && Automaton(p.yystate, yytoken) == Reduce(rule)
    requires yypact[p.yystate] != YYPACT_NINF ==> p.yychar != YYEMPTY && yytoken == Translate(p.yychar)
    ensures rule == RuleOf(p.yystate) != 0
    ensures Committed(NextState(p.yystate), tree, Look(tokens, p)) && LooksAhead(NextState(p.yystate), p.yychar)
    ensures Rank(NextState(p.yystate)) < Rank(p.yystate) && NextState(p.yystate) != YYFINAL
  {
    hide TokensOf, CallbacksOf, Covers;
    ReductionRank(p.yystate);
    if p.yychar > 0 { CodeKinds(tokens[p.pos - 1]); }
  }

  /** What the parse tree stands for: acceptance is membership in the grammar, and the tree is the only one. */
  lemma AcceptedIffConfig(tokens: seq<Token>, tree: Config)
    requires IsLongestConfig(tokens, tree)
    ensures TokensOf(tree) == tokens <==> exists c :: TokensOf(c) == tokens
    ensures forall c :: IsLongestConfig(tokens, c) ==> c == tree
  {
    forall c | IsLongestConfig(tokens, c)
      ensures c == tree
    {
      assert TokensOf(c) <= tokens;
      assert TokensOf(c) == tokens[..|TokensOf(c)|] == TokensOf(tree);
      Unambiguous(c, tree);
    }
    if c :| TokensOf(c) == tokens {
      assert TokensOf(c) <= tokens;
      assert |TokensOf(c)| <= |TokensOf(tree)|;
    }
  }

  /**
    The parser.  It accepts exactly the configurations; the calls it makes are
    those of the longest configuration at the start of the input, in order and
    with the right arguments, whether or not the whole input is accepted.
   */
  method Parse(tokens: seq<Token>) returns (result: int, callbacks: seq<Callback>)
    ensures result == 0 || result == 1
    ensures result == 0 <==> exists c :: TokensOf(c) == tokens
    ensures exists c :: IsLongestConfig(tokens, c)
    ensures forall c :: IsLongestConfig(tokens, c) ==> callbacks == CallbacksOf(c) == CallsOf(TokensOf(c))
  {
    ghost var tree;
    result, callbacks, tree := ParseTree(tokens);
    AcceptedIffConfig(tokens, tree);
    CallsByToken(tree);
  }
}
