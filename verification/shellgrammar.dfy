/**
 The shell's language without its parser: which tokens a text spells, and which commands a list of
 tokens stands for. The parser accepts exactly that, on every text.
 */
module ShellGrammar {
  import opened Shell

  // ---------------------------------------------------------------- parts of lists

  lemma Tail1<T>(a: seq<T>, b: seq<T>)
    requires |a| > 0
    ensures (a + b)[0] == a[0] && (a + b)[1..] == a[1..] + b
  {
  }

  lemma Tail2<T>(a: seq<T>, b: seq<T>)
    requires |a| > 1
    ensures (a + b)[0] == a[0] && (a + b)[1] == a[1] && (a + b)[2..] == a[2..] + b
  {
  }

  lemma SplitAt<T>(a: seq<T>, b: seq<T>, k: nat)
    requires k < |a|
    ensures a + b == a[..k] + (a[k..] + b) && (a[k..] + b)[0] == a[k] && (a[k..] + b)[1..] == a[k + 1..] + b
  {
  }

  lemma Slices<T>(t: seq<T>, n: nat, m: nat)
    requires n + m <= |t|
    ensures t[n..][..m] == t[n..n + m] && t[n..][m..] == t[n + m..]
  {
  }

  lemma SlicesTwice<T>(t: seq<T>, n: nat, m: nat, e: nat)
    requires n + m + e <= |t|
    ensures t[n..][m..m + e] == t[n + m..n + m + e] && t[n..][m + e..] == t[n + m + e..]
    ensures t[..n + m] == t[..n] + t[n..][..m]
  {
  }

  // ---------------------------------------------------------------- what a text spells

  predicate Blank(t: Text) {
    forall i :: 0 <= i < |t| ==> IsSpace(t[i])
  }

  predicate Proper(k: Token) {
    match k
    case End => false
    case Symbol(c) => IsSymbol(c)
    case Append => true
    case Word(w) => IsWord(w)
  }

  function Spelling(k: Token): Text
    requires Proper(k)
  {
    match k
    case Symbol(c) => [c]
    case Append => ">>"
    case Word(w) => w
  }

  /** The token would be a longer one with what follows. */
  predicate GoesOn(k: Token, u: Text) {
    u != [] && ((k.Word? && InWord(u[0])) || (k == Symbol('>') && u[0] == '>'))
  }

  /** `n` blanks and then the token, which ends where it can go on no further. */
  predicate First(t: Text, n: nat, k: Token) {
    && n <= |t| && Blank(t[..n]) && Proper(k) && n + |Spelling(k)| <= |t|
    && t[n..n + |Spelling(k)|] == Spelling(k) && !GoesOn(k, t[n + |Spelling(k)|..])
  }

  function Behind(t: Text, n: nat, k: Token): Text
    requires First(t, n, k)
  {
    t[n + |Spelling(k)|..]
  }

  /** Tokens with blanks between them, which may be missing. */
  ghost predicate Spells(t: Text, ks: seq<Token>)
    decreases |ks|
  {
    if ks == [] then Blank(t)
    else exists n: nat {:trigger First(t, n, ks[0])} :: First(t, n, ks[0]) && Spells(Behind(t, n, ks[0]), ks[1..])
  }

  /** The tokens of a text, one after the other. */
  function Tokens(t: Text): seq<Token>
    decreases |t|
  {
    if Skip(t) == [] then [] else [TokenOf(t)] + Tokens(After(t))
  }

  lemma {:induction false} SkipBlank(t: Text, n: nat)
    requires n <= |t| && Blank(t[..n]) && (n < |t| ==> !IsSpace(t[n]))
    ensures Skip(t) == t[n..]
  {
    if n > 0 {
      assert t[0] == t[..n][0];
      assert t[1..][..n - 1] == t[..n][1..] && t[1..][n - 1..] == t[n..];
      assert forall i :: 0 <= i < n - 1 ==> t[..n][1..][i] == t[..n][i + 1];
      SkipBlank(t[1..], n - 1);
    }
  }

  lemma {:induction false} SkipIsBlank(t: Text) returns (n: nat)
    ensures n <= |t| && Blank(t[..n]) && Skip(t) == t[n..]
  {
    n := 0;
    if t != [] && IsSpace(t[0]) {
      var m := SkipIsBlank(t[1..]);
      n := m + 1;
      assert t[..n] == [t[0]] + t[1..][..m];
    }
  }

  /** A token spelled at the front of a text is the one read from it. */
  lemma FrontIs(t: Text, k: Token)
    requires First(t, 0, k)
    ensures t != [] && !IsSpace(t[0]) && Front(t) == (k, |Spelling(k)|)
  {
    var s := Spelling(k);
    assert t[0] == s[0];
    if k.Word? {
      assert InWord(s[0]);
      assert |s| < |t| ==> t[|s|..][0] == t[|s|];
      assert t[..|s|] == s;
      WordLengthIs(s, t);
    } else if k == Append {
      assert t[1] == s[1];
    } else if |t| > 1 {
      assert t[1..][0] == t[1];
    }
  }

  /** And what is read is what is spelled there. */
  lemma FrontSpells(t: Text)
    requires t != [] && !IsSpace(t[0])
    ensures First(t, 0, Front(t).0) && Front(t).1 == |Spelling(Front(t).0)|
  {
    var k, n := Front(t).0, Front(t).1;
    assert n < |t| ==> t[n..][0] == t[n];
  }

  lemma SkipTokens(t: Text)
    ensures Tokens(Skip(t)) == Tokens(t)
  {
    SkipTwice(t);
  }

  lemma ReadsFirst(t: Text, n: nat, k: Token)
    requires First(t, n, k)
    ensures Skip(t) != [] && TokenOf(t) == k && After(t) == Skip(Behind(t, n, k))
  {
    Slices(t, n, |Spelling(k)|);
    FrontIs(t[n..], k);
    SkipBlank(t, n);
  }

  lemma FirstSpelled(t: Text, n: nat)
    requires n < |t| && Blank(t[..n]) && Skip(t) == t[n..]
    ensures First(t, n, TokenOf(t)) && After(t) == Skip(Behind(t, n, TokenOf(t)))
  {
    FrontSpells(t[n..]);
    Slices(t, n, Front(t[n..]).1);
  }

  lemma TokensCons(t: Text, n: nat, k: Token)
    requires First(t, n, k)
    ensures Tokens(t) == [k] + Tokens(Behind(t, n, k))
  {
    ReadsFirst(t, n, k);
    SkipTokens(Behind(t, n, k));
  }

  lemma {:induction false} SpellsTokens(t: Text, ks: seq<Token>)
    requires Spells(t, ks)
    ensures ks == Tokens(t)
    decreases |ks|
  {
    if ks == [] {
      SkipBlank(t, |t|);
    } else {
      var n: nat :| First(t, n, ks[0]) && Spells(Behind(t, n, ks[0]), ks[1..]);
      SpellsTokens(Behind(t, n, ks[0]), ks[1..]);
      TokensCons(t, n, ks[0]);
    }
  }

  lemma {:induction false} TokensSpell(t: Text)
    ensures Spells(t, Tokens(t))
    decreases |t|
  {
    var n := SkipIsBlank(t);
    if Skip(t) == [] {
      assert t[..n] == t;
    } else {
      FirstSpelled(t, n);
      TokensSpell(After(t));
      SpellsBlanks(Behind(t, n, TokenOf(t)), Tokens(After(t)));
      assert Tokens(t)[1..] == Tokens(After(t));
    }
  }

  lemma FirstAfterBlanks(t: Text, n: nat, m: nat, k: Token)
    requires n <= |t| && Blank(t[..n]) && First(t[n..], m, k)
    ensures First(t, n + m, k) && Behind(t, n + m, k) == Behind(t[n..], m, k)
  {
    SlicesTwice(t, n, m, |Spelling(k)|);
  }

  /** Blanks in front make no difference. */
  lemma SpellsBlanks(t: Text, ks: seq<Token>)
    requires Spells(Skip(t), ks)
    ensures Spells(t, ks)
  {
    var n := SkipIsBlank(t);
    var u := t[n..];
    if ks == [] {
      assert t == t[..n] + u;
    } else {
      var m: nat :| First(u, m, ks[0]) && Spells(Behind(u, m, ks[0]), ks[1..]);
      FirstAfterBlanks(t, n, m, ks[0]);
    }
  }

  /** A text spells one list of tokens, and it is the one read from it. */
  lemma Lexed(t: Text, ks: seq<Token>)
    ensures Spells(t, ks) <==> ks == Tokens(t)
  {
    TokensSpell(t);
    if Spells(t, ks) {
      SpellsTokens(t, ks);
    }
  }

  // ---------------------------------------------------------------- what a list of tokens stands for

  /** `op name` redirects as `to` says: `<` standard input, `>` and `>>` standard output. */
  predicate Directs(op: Token, name: Token, to: Target) {
    && name == Word(to.file)
    && ((op == Symbol('<') && !to.out) || (op == Symbol('>') && to.out) || (op == Append && to.out))
  }

  /** Words and redirections in any order: the words of the command, and where it is redirected, each in order. */
  predicate InWords(a: seq<Token>, args: seq<Text>, rs: seq<Target>) {
    || (a == [] && args == [] && rs == [])
    || (a != [] && args != [] && a[0] == Word(args[0]) && InWords(a[1..], args[1..], rs))
    || (|a| > 1 && rs != [] && Directs(a[0], a[1], rs[0]) && InWords(a[2..], args, rs[1..]))
  }

  /** The command inside all its redirections. */
  function Core(c: Cmd): Cmd {
    if c.Redir? then Core(c.cmd) else c
  }

  /** Its redirections, innermost first. */
  function Arrows(c: Cmd): seq<Target> {
    if c.Redir? then Arrows(c.cmd) + [c.to] else []
  }

  predicate InPlain(a: seq<Token>, c: Cmd) {
    Core(c).Exec? && |Core(c).args| < MAXARGS && InWords(a, Core(c).args, Arrows(c))
  }

  /** `( line )` and redirections after it. */
  predicate InBlock(a: seq<Token>, c: Cmd)
    decreases |a|, 0
  {
    var n := |a|;
    && n > 1
    && (|| (a[0] == Symbol('(') && a[n - 1] == Symbol(')') && InLine(a[1..n - 1], c))
        || (c.Redir? && Directs(a[n - 2], a[n - 1], c.to) && InBlock(a[..n - 2], c.cmd)))
  }

  predicate InExec(a: seq<Token>, c: Cmd)
    decreases |a|, 1
  {
    InPlain(a, c) || InBlock(a, c)
  }

  /** `exec`, or `exec | pipe`. */
  predicate InPipe(a: seq<Token>, c: Cmd)
    decreases |a|, 2
  {
    || InExec(a, c)
    || (c.Pipe? && exists k ::
          0 <= k < |a| && a[k] == Symbol('|') && InExec(a[..k], c.left) && InPipe(a[k + 1..], c.right))
  }

  /** `pipe`, or `backs &`. */
  predicate InBacks(a: seq<Token>, c: Cmd)
    decreases |a|, 3
  {
    || InPipe(a, c)
    || (c.Back? && a != [] && a[|a| - 1] == Symbol('&') && InBacks(a[..|a| - 1], c.cmd))
  }

  /** `backs`, or `backs ; line`. */
  predicate InLine(a: seq<Token>, c: Cmd)
    decreases |a|, 4
  {
    || InBacks(a, c)
    || (c.List? && exists k ::
          0 <= k < |a| && a[k] == Symbol(';') && InBacks(a[..k], c.left) && InLine(a[k + 1..], c.right))
  }

  // ---------------------------------------------------------------- tokens as the parser meets them

  predicate IsArrow(k: Token) {
    k == Symbol('<') || k == Symbol('>') || k == Append
  }

  /** Nothing follows, or what may follow a command. */
  predicate Follows(b: seq<Token>) {
    b == [] || b[0] in {Symbol('|'), Symbol(')'), Symbol('&'), Symbol(';')}
  }

  function Head(a: seq<Token>): Token {
    if a == [] then End else a[0]
  }

  lemma HeadIs(t: Text)
    ensures TokenOf(t) == Head(Tokens(t)) && (TokenOf(t) == End <==> Tokens(t) == [])
    ensures Tokens(t) != [] ==> Tokens(After(t)) == Tokens(t)[1..]
    ensures Tokens(Skip(t)) == Tokens(t)
  {
    SkipTokens(t);
  }

  /** Looking at a character is looking at a token. */
  lemma PeekIs(t: Text)
    ensures Next(t, "<>") <==> IsArrow(Head(Tokens(t)))
    ensures Next(t, "(") <==> Head(Tokens(t)) == Symbol('(')
    ensures Next(t, ")") <==> Head(Tokens(t)) == Symbol(')')
    ensures Next(t, "|") <==> Head(Tokens(t)) == Symbol('|')
    ensures Next(t, "&") <==> Head(Tokens(t)) == Symbol('&')
    ensures Next(t, ";") <==> Head(Tokens(t)) == Symbol(';')
    ensures Next(t, "|)&;") || TokenOf(t) == End <==> Follows(Tokens(t))
  {
    HeadIs(t);
  }

  lemma {:induction false} WrapParts(c: Cmd, rs: seq<Target>)
    requires !c.Redir?
    ensures Core(Wrap(c, rs)) == c && Arrows(Wrap(c, rs)) == rs
  {
    if rs != [] {
      WrapParts(c, rs[..|rs| - 1]);
    }
  }

  lemma {:induction false} PartsWrap(c: Cmd)
    ensures Wrap(Core(c), Arrows(c)) == c
  {
    if c.Redir? {
      PartsWrap(c.cmd);
      var rs := Arrows(c);
      assert rs[..|rs| - 1] == Arrows(c.cmd);
    }
  }

  /** What the parser reads of a plain command, its words and redirections so far being these. */
  function Rest(args: seq<Text>, rs: seq<Target>, t: Text): Result<Cmd> {
    var r := ParseRedirs(rs, t);
    if r.Panic? then Panic else ParseArgs(args, r.value, r.rest)
  }

  lemma RestRedir(args: seq<Text>, rs: seq<Target>, t: Text)
    requires IsArrow(Head(Tokens(t))) && |Tokens(t)| > 1 && Tokens(t)[1].Word?
    ensures var to := Target(Tokens(t)[1].text, Tokens(t)[0] != Symbol('<'));
            && ParseRedirs(rs, t) == ParseRedirs(rs + [to], After(After(t)))
            && Directs(Tokens(t)[0], Tokens(t)[1], to)
            && Rest(args, rs, t) == Rest(args, rs + [to], After(After(t)))
    ensures Tokens(After(After(t))) == Tokens(t)[2..] && |After(After(t))| < |t|
  {
    HeadIs(t);
    HeadIs(After(t));
    PeekIs(t);
  }

  lemma RestWord(args: seq<Text>, rs: seq<Target>, t: Text)
    requires Tokens(t) != [] && Tokens(t)[0].Word? && |args| + 1 < MAXARGS
    ensures Rest(args, rs, t) == Rest(args + [Tokens(t)[0].text], rs, After(t))
    ensures |After(t)| < |t|
  {
    HeadIs(t);
    PeekIs(t);
    SkipTwice(t);
    PeekIs(Skip(t));
  }

  lemma RestEnd(args: seq<Text>, rs: seq<Target>, t: Text)
    requires Follows(Tokens(t))
    ensures Rest(args, rs, t) == Ok(Wrap(Exec(args), rs), Skip(t)) && Tokens(Skip(t)) == Tokens(t)
  {
    HeadIs(t);
    PeekIs(t);
    SkipTwice(t);
    PeekIs(Skip(t));
  }

  /** Anything else there is not accepted. */
  lemma RestPanics(args: seq<Text>, rs: seq<Target>, t: Text)
    requires !Follows(Tokens(t))
    requires !(IsArrow(Tokens(t)[0]) && |Tokens(t)| > 1 && Tokens(t)[1].Word?)
    requires !(Tokens(t)[0].Word? && |args| + 1 < MAXARGS)
    ensures Rest(args, rs, t).Panic?
  {
    HeadIs(t);
    HeadIs(After(t));
    PeekIs(t);
    SkipTwice(t);
    PeekIs(Skip(t));
    HeadIs(Skip(t));
  }

  /** Mentioning `Look` opens the predicates below, which most proofs only pass along. */
  ghost predicate Look(n: nat) {
    true
  }

  /** These are the tokens of the text. */
  ghost predicate Has(t: Text, ks: seq<Token>) {
    forall n: nat :: Look(n) ==> Tokens(t) == ks
  }

  ghost predicate ReadsRedirs(rs0: seq<Target>, t: Text, rs: seq<Target>, u: Text) {
    forall n: nat :: Look(n) ==> ParseRedirs(rs0, t) == Ok(rs, u)
  }

  ghost predicate ReadsRest(args: seq<Text>, rs: seq<Target>, t: Text, c: Cmd, u: Text) {
    forall n: nat :: Look(n) ==> Rest(args, rs, t) == Ok(c, u)
  }

  ghost predicate ReadsExec(t: Text, c: Cmd, u: Text) {
    forall n: nat :: Look(n) ==> ParseExec(t) == Ok(c, u)
  }

  ghost predicate ReadsPipe(t: Text, c: Cmd, u: Text) {
    forall n: nat :: Look(n) ==> ParsePipe(t) == Ok(c, u)
  }

  ghost predicate ReadsBacks(c: Cmd, t: Text, d: Cmd, u: Text) {
    forall n: nat :: Look(n) ==> ParseBacks(c, t) == Ok(d, u)
  }

  ghost predicate ReadsLine(t: Text, c: Cmd, u: Text) {
    forall n: nat :: Look(n) ==> ParseLine(t) == Ok(c, u)
  }

  // ---------------------------------------------------------------- what stands for a command is read as it

  /** A redirection is read, and then what is read after it. */
  lemma TakeRedir(args: seq<Text>, rs: seq<Target>, t: Text, ks: seq<Token>, to: Target) returns (u: Text)
    requires Has(t, ks) && |ks| > 1 && Directs(ks[0], ks[1], to)
    ensures Has(u, ks[2..])
    ensures forall c, v :: ReadsRest(args, rs + [to], u, c, v) ==> ReadsRest(args, rs, t, c, v)
    ensures forall rs', v :: ReadsRedirs(rs + [to], u, rs', v) ==> ReadsRedirs(rs, t, rs', v)
  {
    assert Look(0);
    RestRedir(args, rs, t);
    u := After(After(t));
  }

  lemma TakeWord(args: seq<Text>, rs: seq<Target>, t: Text, ks: seq<Token>, w: Text) returns (u: Text)
    requires Has(t, ks) && ks != [] && ks[0] == Word(w) && |args| + 1 < MAXARGS
    ensures Has(u, ks[1..])
    ensures forall c, v :: ReadsRest(args + [w], rs, u, c, v) ==> ReadsRest(args, rs, t, c, v)
  {
    assert Look(0);
    HeadIs(t);
    RestWord(args, rs, t);
    u := After(t);
  }

  lemma TakeNone(args: seq<Text>, rs: seq<Target>, t: Text, ks: seq<Token>) returns (u: Text)
    requires Has(t, ks) && Follows(ks)
    ensures Has(u, ks) && ReadsRest(args, rs, t, Wrap(Exec(args), rs), u) && ReadsRedirs(rs, t, rs, u)
  {
    assert Look(0);
    RestEnd(args, rs, t);
    PeekIs(t);
    u := Skip(t);
  }

  lemma {:induction false} WordsRead(args0: seq<Text>, rs0: seq<Target>, t: Text, a: seq<Token>, args: seq<Text>,
                                     rs: seq<Target>, b: seq<Token>) returns (v: Text)
    requires Has(t, a + b) && Follows(b) && InWords(a, args, rs) && |args0| + |args| < MAXARGS
    ensures ReadsRest(args0, rs0, t, Wrap(Exec(args0 + args), rs0 + rs), v) && Has(v, b)
    decreases |a|
  {
    if a == [] {
      assert a + b == b;
      EmptyFront(args0);
      EmptyFront(rs0);
      v := TakeNone(args0, rs0, t, b);
    } else if a[0].Word? {
      Tail1(a, b);
      var u := TakeWord(args0, rs0, t, a + b, args[0]);
      v := WordsRead(args0 + [args[0]], rs0, u, a[1..], args[1..], rs, b);
      HeadThenTail(args0, args);
    } else {
      Tail2(a, b);
      var u := TakeRedir(args0, rs0, t, a + b, rs[0]);
      v := WordsRead(args0, rs0 + [rs[0]], u, a[2..], args, rs[1..], b);
      HeadThenTail(rs0, rs);
    }
  }

  predicate InRedirs(a: seq<Token>, rs: seq<Target>) {
    if rs == [] then a == [] else |a| > 1 && Directs(a[0], a[1], rs[0]) && InRedirs(a[2..], rs[1..])
  }

  lemma {:induction false} RedirsRead(rs0: seq<Target>, t: Text, a: seq<Token>, rs: seq<Target>, b: seq<Token>)
    returns (v: Text)
    requires Has(t, a + b) && Follows(b) && InRedirs(a, rs)
    ensures ReadsRedirs(rs0, t, rs0 + rs, v) && Has(v, b)
    decreases |a|
  {
    if rs == [] {
      assert a + b == b;
      EmptyFront(rs0);
      v := TakeNone([], rs0, t, b);
    } else {
      Tail2(a, b);
      var u := TakeRedir([], rs0, t, a + b, rs[0]);
      v := RedirsRead(rs0 + [rs[0]], u, a[2..], rs[1..], b);
      HeadThenTail(rs0, rs);
    }
  }

  /** The parts of a block: the line between its parentheses, and what follows them. */
  lemma {:induction false} BlockParts(a: seq<Token>, c: Cmd) returns (k: nat, d: Cmd, rs: seq<Target>)
    requires InBlock(a, c)
    ensures 0 < k < |a| && a[0] == Symbol('(') && a[k] == Symbol(')')
    ensures InLine(a[1..k], d) && InRedirs(a[k + 1..], rs) && c == Wrap(d, rs)
    decreases |a|
  {
    var n := |a|;
    if a[0] == Symbol('(') && a[n - 1] == Symbol(')') && InLine(a[1..n - 1], c) {
      k, d, rs := n - 1, c, [];
    } else {
      k, d, rs := BlockParts(a[..n - 2], c.cmd);
      assert a[..n - 2][1..k] == a[1..k];
      assert a[k + 1..] == a[..n - 2][k + 1..] + [a[n - 2], a[n - 1]];
      RedirsGrow(a[..n - 2][k + 1..], rs, a[n - 2], a[n - 1], c.to);
      var rs' := rs + [c.to];
      assert rs'[..|rs'| - 1] == rs;
      rs := rs';
    }
  }

  lemma {:induction false} RedirsGrow(a: seq<Token>, rs: seq<Target>, op: Token, name: Token, to: Target)
    requires InRedirs(a, rs) && Directs(op, name, to)
    ensures InRedirs(a + [op, name], rs + [to])
    decreases |rs|
  {
    if rs == [] {
      assert a + [op, name] == [op, name] && rs + [to] == [to] && [op, name][2..] == [] && [to][1..] == [];
    } else {
      RedirsGrow(a[2..], rs[1..], op, name, to);
      assert (a + [op, name])[2..] == a[2..] + [op, name] && (rs + [to])[1..] == rs[1..] + [to];
    }
  }

  /** A command that stands for tokens begins with a parenthesis exactly if it is a block. */
  lemma PlainHead(a: seq<Token>, c: Cmd, b: seq<Token>)
    requires InPlain(a, c) && Follows(b)
    ensures Head(a + b) != Symbol('(')
  {
    if a == [] {
      assert a + b == b;
    }
  }

  lemma PlainIsExec(t: Text, ks: seq<Token>, c: Cmd, u: Text)
    requires Has(t, ks) && Head(ks) != Symbol('(') && ReadsRest([], [], t, c, u)
    ensures ReadsExec(t, c, u)
  {
    assert Look(0);
    PeekIs(t);
  }

  lemma {:induction false} ExecRead(t: Text, a: seq<Token>, c: Cmd, b: seq<Token>) returns (u: Text)
    requires Has(t, a + b) && Follows(b) && InExec(a, c)
    ensures ReadsExec(t, c, u) && Has(u, b)
    decreases |a|, 1
  {
    if InPlain(a, c) {
      PlainHead(a, c, b);
      u := WordsRead([], [], t, a, Core(c).args, Arrows(c), b);
      PartsWrap(c);
      EmptyFront(Core(c).args);
      EmptyFront(Arrows(c));
      PlainIsExec(t, a + b, c, u);
    } else {
      u := BlockRead(t, a, c, b);
    }
  }

  lemma BlockSplit<T>(a: seq<T>, b: seq<T>, k: nat)
    requires 0 < k < |a|
    ensures (a + b)[0] == a[0] && (a + b)[1..] == a[1..k] + (a[k..] + b)
    ensures (a[k..] + b)[0] == a[k] && (a[k..] + b)[1..] == a[k + 1..] + b
  {
  }

  /** What comes after the first token. */
  lemma Step(t: Text, ks: seq<Token>) returns (u: Text)
    requires Has(t, ks) && ks != []
    ensures Has(u, ks[1..]) && u == After(t)
  {
    assert Look(0);
    HeadIs(t);
    u := After(t);
  }

  lemma BlockIsExec(t: Text, ks: seq<Token>, d: Cmd, v: Text, ls: seq<Token>, rs: seq<Target>, u: Text)
    requires Has(t, ks) && Head(ks) == Symbol('(') && ReadsLine(After(t), d, v)
    requires Has(v, ls) && Head(ls) == Symbol(')') && ReadsRedirs([], After(v), rs, u)
    ensures ReadsExec(t, Wrap(d, rs), u)
  {
    assert Look(0);
    PeekIs(t);
    PeekIs(v);
  }

  lemma {:induction false} BlockRead(t: Text, a: seq<Token>, c: Cmd, b: seq<Token>) returns (u: Text)
    requires Has(t, a + b) && Follows(b) && InBlock(a, c)
    ensures ReadsExec(t, c, u) && Has(u, b)
    decreases |a|, 0
  {
    var k, d, rs := BlockParts(a, c);
    BlockSplit(a, b, k);
    var inside := Step(t, a + b);
    var v := LineRead(inside, a[1..k], d, a[k..] + b);
    var after := Step(v, a[k..] + b);
    u := RedirsRead([], after, a[k + 1..], rs, b);
    EmptyFront(rs);
    BlockIsExec(t, a + b, d, v, a[k..] + b, rs, u);
  }

  lemma ExecIsPipe(t: Text, c: Cmd, u: Text, ks: seq<Token>)
    requires ReadsExec(t, c, u) && Has(u, ks) && Head(ks) != Symbol('|')
    ensures ReadsPipe(t, c, u)
  {
    assert Look(0);
    PeekIs(u);
  }

  lemma PipeIsPipe(t: Text, c: Cmd, v: Text, ks: seq<Token>, d: Cmd, u: Text)
    requires ReadsExec(t, c, v) && Has(v, ks) && Head(ks) == Symbol('|') && ReadsPipe(After(v), d, u)
    ensures ReadsPipe(t, Pipe(c, d), u)
  {
    assert Look(0);
    PeekIs(v);
  }

  lemma {:induction false} PipeRead(t: Text, a: seq<Token>, c: Cmd, b: seq<Token>) returns (u: Text)
    requires Has(t, a + b) && Follows(b) && Head(b) != Symbol('|') && InPipe(a, c)
    ensures ReadsPipe(t, c, u) && Has(u, b)
    decreases |a|, 2
  {
    if InExec(a, c) {
      u := ExecRead(t, a, c, b);
      ExecIsPipe(t, c, u, b);
    } else {
      var k :| 0 <= k < |a| && a[k] == Symbol('|') && InExec(a[..k], c.left) && InPipe(a[k + 1..], c.right);
      SplitAt(a, b, k);
      var v := ExecRead(t, a[..k], c.left, a[k..] + b);
      var after := Step(v, a[k..] + b);
      u := PipeRead(after, a[k + 1..], c.right, b);
      PipeIsPipe(t, c.left, v, a[k..] + b, c.right, u);
    }
  }

  predicate AllAmps(a: seq<Token>) {
    forall i :: 0 <= i < |a| ==> a[i] == Symbol('&')
  }

  function Backs(c: Cmd, n: nat): Cmd {
    if n == 0 then c else Back(Backs(c, n - 1))
  }

  /** A command in the background so many times over. */
  lemma {:induction false} BacksParts(a: seq<Token>, c: Cmd) returns (p: seq<Token>, q: seq<Token>, d: Cmd)
    requires InBacks(a, c)
    ensures a == p + q && AllAmps(q) && InPipe(p, d) && c == Backs(d, |q|)
    decreases |a|
  {
    var n := |a|;
    if InPipe(a, c) {
      p, q, d := a, [], c;
      EmptyFront(a);
    } else {
      p, q, d := BacksParts(a[..n - 1], c.cmd);
      assert a == a[..n - 1] + [a[n - 1]];
      Assoc(p, q, [a[n - 1]]);
      q := q + [a[n - 1]];
    }
  }

  lemma BackStep(c: Cmd, t: Text)
    requires Head(Tokens(t)) == Symbol('&')
    ensures ParseBacks(c, t) == ParseBacks(Back(c), After(t)) && Tokens(After(t)) == Tokens(t)[1..]
  {
    HeadIs(t);
    PeekIs(t);
  }

  lemma BackEnd(c: Cmd, t: Text)
    requires Head(Tokens(t)) != Symbol('&')
    ensures ParseBacks(c, t) == Ok(c, Skip(t)) && Tokens(Skip(t)) == Tokens(t)
  {
    HeadIs(t);
    PeekIs(t);
  }

  lemma {:induction false} BacksInside(c: Cmd, n: nat)
    ensures Backs(Back(c), n) == Back(Backs(c, n))
  {
    if n > 0 {
      BacksInside(c, n - 1);
    }
  }

  lemma TakeAmp(c: Cmd, t: Text, ks: seq<Token>) returns (u: Text)
    requires Has(t, ks) && Head(ks) == Symbol('&')
    ensures Has(u, ks[1..]) && forall d, v :: ReadsBacks(Back(c), u, d, v) ==> ReadsBacks(c, t, d, v)
  {
    assert Look(0);
    BackStep(c, t);
    u := After(t);
  }

  lemma TakeNoAmp(c: Cmd, t: Text, ks: seq<Token>) returns (u: Text)
    requires Has(t, ks) && Head(ks) != Symbol('&')
    ensures Has(u, ks) && ReadsBacks(c, t, c, u)
  {
    assert Look(0);
    BackEnd(c, t);
    u := Skip(t);
  }

  lemma {:induction false} AmpsRead(c: Cmd, t: Text, a: seq<Token>, b: seq<Token>) returns (u: Text)
    requires Has(t, a + b) && AllAmps(a) && Head(b) != Symbol('&')
    ensures ReadsBacks(c, t, Backs(c, |a|), u) && Has(u, b)
    decreases |a|
  {
    if a == [] {
      assert a + b == b;
      u := TakeNoAmp(c, t, b);
    } else {
      Tail1(a, b);
      var v := TakeAmp(c, t, a + b);
      u := AmpsRead(Back(c), v, a[1..], b);
      BacksInside(c, |a| - 1);
    }
  }

  lemma BacksRead(t: Text, a: seq<Token>, c: Cmd, b: seq<Token>) returns (d: Cmd, u: Text, v: Text)
    requires Has(t, a + b) && Follows(b) && Head(b) != Symbol('|') && Head(b) != Symbol('&') && InBacks(a, c)
    ensures ReadsPipe(t, d, u) && ReadsBacks(d, u, c, v) && Has(v, b)
    decreases |a|, 3
  {
    var p, q;
    p, q, d := BacksParts(a, c);
    AmpsFollow(p, q, b);
    u := PipeRead(t, p, d, q + b);
    v := AmpsRead(d, u, q, b);
  }

  lemma AmpsFollow(p: seq<Token>, q: seq<Token>, b: seq<Token>)
    requires AllAmps(q) && Follows(b) && Head(b) != Symbol('|')
    ensures p + q + b == p + (q + b) && Follows(q + b) && Head(q + b) != Symbol('|')
  {
    Assoc(p, q, b);
    if q == [] {
      EmptyFront(b);
    } else {
      Tail1(q, b);
    }
  }

  lemma BacksIsLine(t: Text, d: Cmd, u: Text, c: Cmd, v: Text, ks: seq<Token>)
    requires ReadsPipe(t, d, u) && ReadsBacks(d, u, c, v) && Has(v, ks) && Head(ks) != Symbol(';')
    ensures ReadsLine(t, c, v)
  {
    assert Look(0);
    PeekIs(v);
  }

  lemma ListIsLine(t: Text, d: Cmd, u: Text, c: Cmd, v: Text, ks: seq<Token>, e: Cmd, w: Text)
    requires ReadsPipe(t, d, u) && ReadsBacks(d, u, c, v) && Has(v, ks) && Head(ks) == Symbol(';')
    requires ReadsLine(After(v), e, w)
    ensures ReadsLine(t, List(c, e), w)
  {
    assert Look(0);
    PeekIs(v);
  }

  lemma {:induction false} LineRead(t: Text, a: seq<Token>, c: Cmd, b: seq<Token>) returns (v: Text)
    requires Has(t, a + b) && InLine(a, c) && (b == [] || b[0] == Symbol(')'))
    ensures ReadsLine(t, c, v) && Has(v, b)
    decreases |a|, 4
  {
    var d, u;
    if InBacks(a, c) {
      d, u, v := BacksRead(t, a, c, b);
      BacksIsLine(t, d, u, c, v, b);
    } else {
      var k :| 0 <= k < |a| && a[k] == Symbol(';') && InBacks(a[..k], c.left) && InLine(a[k + 1..], c.right);
      SplitAt(a, b, k);
      var w;
      d, u, w := BacksRead(t, a[..k], c.left, a[k..] + b);
      var after := Step(w, a[k..] + b);
      v := LineRead(after, a[k + 1..], c.right, b);
      ListIsLine(t, d, u, c.left, w, a[k..] + b, c.right, v);
    }
  }

  // ---------------------------------------------------------------- what is read stands for the command

  /** The parser has read some tokens: those of `t` that are not those of `u`. */
  predicate ReadTo(t: Text, u: Text, a: seq<Token>) {
    Tokens(t) == a + Tokens(u)
  }

  lemma {:induction false} WordsStand(args0: seq<Text>, rs0: seq<Target>, t: Text)
    returns (a: seq<Token>, args: seq<Text>, rs: seq<Target>)
    requires Rest(args0, rs0, t).Ok? && |args0| < MAXARGS
    ensures var r := Rest(args0, rs0, t);
            && ReadTo(t, r.rest, a) && InWords(a, args, rs) && r.value == Wrap(Exec(args0 + args), rs0 + rs)
            && |args0| + |args| < MAXARGS && Follows(Tokens(r.rest))
    decreases |t|
  {
    var ks := Tokens(t);
    if Follows(ks) {
      RestEnd(args0, rs0, t);
      a, args, rs := [], [], [];
      assert a + ks == ks && args0 + args == args0 && rs0 + rs == rs0;
    } else if IsArrow(ks[0]) && |ks| > 1 && ks[1].Word? {
      RestRedir(args0, rs0, t);
      var to := Target(ks[1].text, ks[0] != Symbol('<'));
      a, args, rs := WordsStand(args0, rs0 + [to], After(After(t)));
      AddRedir(ks, a, args, rs, to, Tokens(Rest(args0, rs0, t).rest));
      HeadThenTail(rs0, [to] + rs);
      a, rs := [ks[0], ks[1]] + a, [to] + rs;
    } else if ks[0].Word? && |args0| + 1 < MAXARGS {
      RestWord(args0, rs0, t);
      HeadIs(t);
      var w := ks[0].text;
      a, args, rs := WordsStand(args0 + [w], rs0, After(t));
      AddWord(ks, a, args, rs, w, Tokens(Rest(args0, rs0, t).rest));
      HeadThenTail(args0, [w] + args);
      a, args := [ks[0]] + a, [w] + args;
    } else {
      RestPanics(args0, rs0, t);
    }
  }

  lemma AddRedir(ks: seq<Token>, a: seq<Token>, args: seq<Text>, rs: seq<Target>, to: Target, b: seq<Token>)
    requires |ks| > 1 && ks[2..] == a + b && Directs(ks[0], ks[1], to) && InWords(a, args, rs)
    ensures ks == [ks[0], ks[1]] + a + b && InWords([ks[0], ks[1]] + a, args, [to] + rs) && ([to] + rs)[1..] == rs
  {
    var c := [ks[0], ks[1]] + a;
    assert c[2..] == a && ([to] + rs)[1..] == rs;
    assert ks == [ks[0], ks[1]] + ks[2..];
  }

  lemma AddWord(ks: seq<Token>, a: seq<Token>, args: seq<Text>, rs: seq<Target>, w: Text, b: seq<Token>)
    requires |ks| > 0 && ks[1..] == a + b && ks[0] == Word(w) && InWords(a, args, rs)
    ensures ks == [ks[0]] + a + b && InWords([ks[0]] + a, [w] + args, rs) && ([w] + args)[1..] == args
  {
    var c := [ks[0]] + a;
    assert c[1..] == a && ([w] + args)[1..] == args;
    assert ks == [ks[0]] + ks[1..];
  }

  lemma {:induction false} RedirsStand(rs0: seq<Target>, t: Text) returns (a: seq<Token>, rs: seq<Target>)
    requires ParseRedirs(rs0, t).Ok?
    ensures var r := ParseRedirs(rs0, t); ReadTo(t, r.rest, a) && InRedirs(a, rs) && r.value == rs0 + rs
    decreases |t|
  {
    var ks := Tokens(t);
    HeadIs(t);
    PeekIs(t);
    if !IsArrow(Head(ks)) {
      a, rs := [], [];
      assert a + ks == ks && rs0 + rs == rs0;
    } else {
      HeadIs(After(t));
      RestRedir([], rs0, t);
      var to := Target(ks[1].text, ks[0] != Symbol('<'));
      a, rs := RedirsStand(rs0 + [to], After(After(t)));
      PairFront(ks, a, Tokens(ParseRedirs(rs0, t).rest));
      HeadThenTail(rs0, [to] + rs);
      assert ([to] + rs)[1..] == rs;
      a, rs := [ks[0], ks[1]] + a, [to] + rs;
    }
  }

  lemma PairFront(ks: seq<Token>, a: seq<Token>, b: seq<Token>)
    requires |ks| > 1 && ks[2..] == a + b
    ensures ks == [ks[0], ks[1]] + a + b && ([ks[0], ks[1]] + a)[2..] == a
  {
    assert ks == [ks[0], ks[1]] + ks[2..];
  }

  /** A line in parentheses with redirections after it is a block. */
  lemma {:induction false} BlockMade(a: seq<Token>, k: nat, d: Cmd, rs: seq<Target>)
    requires 0 < k < |a| && a[0] == Symbol('(') && a[k] == Symbol(')') && InLine(a[1..k], d) && InRedirs(a[k + 1..], rs)
    ensures InBlock(a, Wrap(d, rs))
    decreases |rs|
  {
    var n := |a|;
    if rs == [] {
      assert k == n - 1;
    } else {
      var m := |rs| - 1;
      RedirsShrink(a[k + 1..], rs);
      assert a[k + 1..][..n - k - 3] == a[..n - 2][k + 1..];
      assert a[..n - 2][1..k] == a[1..k];
      BlockMade(a[..n - 2], k, d, rs[..m]);
    }
  }

  lemma {:induction false} RedirsShrink(a: seq<Token>, rs: seq<Target>)
    requires InRedirs(a, rs) && rs != []
    ensures var n := |a|; n > 1 && Directs(a[n - 2], a[n - 1], rs[|rs| - 1]) && InRedirs(a[..n - 2], rs[..|rs| - 1])
    decreases |rs|
  {
    var n := |a|;
    if |rs| > 1 {
      RedirsShrink(a[2..], rs[1..]);
      assert a[..n - 2][2..] == a[2..][..n - 4] && rs[..|rs| - 1][1..] == rs[1..][..|rs| - 2];
    } else {
      assert rs[1..] == [] && a[2..] == [];
    }
  }

  lemma {:induction false} ExecStands(t: Text) returns (a: seq<Token>)
    requires ParseExec(t).Ok?
    ensures var r := ParseExec(t); ReadTo(t, r.rest, a) && InExec(a, r.value)
    decreases |t|, 1
  {
    PeekIs(t);
    if Next(t, "(") {
      a := BlockStands(t);
    } else {
      a := PlainStands(t);
    }
  }

  lemma PlainStands(t: Text) returns (a: seq<Token>)
    requires Rest([], [], t).Ok?
    ensures var r := Rest([], [], t); ReadTo(t, r.rest, a) && InPlain(a, r.value)
  {
    var args, rs;
    a, args, rs := WordsStand([], [], t);
    EmptyFront(args);
    EmptyFront(rs);
    WrapParts(Exec(args), rs);
  }

  lemma {:induction false} BlockStands(t: Text) returns (a: seq<Token>)
    requires Next(t, "(") && ParseBlock(t).Ok?
    ensures var r := ParseBlock(t); ReadTo(t, r.rest, a) && InBlock(a, r.value)
    decreases |t|, 0
  {
    HeadIs(t);
    PeekIs(t);
    var line := ParseLine(After(t));
    var b := LineStands(After(t));
    HeadIs(line.rest);
    PeekIs(line.rest);
    var c, rs := RedirsStand([], After(line.rest));
    assert [] + rs == rs;
    a := [Symbol('(')] + b + [Symbol(')')] + c;
    JoinBlock(Tokens(t), Tokens(line.rest), Tokens(ParseBlock(t).rest), b, c, a);
    BlockMade(a, |b| + 1, line.value, rs);
  }

  lemma JoinBlock(ks: seq<Token>, ls: seq<Token>, ms: seq<Token>, b: seq<Token>, c: seq<Token>, a: seq<Token>)
    requires |ks| > 0 && ks[0] == Symbol('(') && ks[1..] == b + ls && |ls| > 0 && ls[0] == Symbol(')') &&
             ls[1..] == c + ms
    requires a == [Symbol('(')] + b + [Symbol(')')] + c
    ensures ks == a + ms && a[0] == Symbol('(') && a[|b| + 1] == Symbol(')') && a[1..|b| + 1] == b && a[|b| + 2..] == c
  {
    assert ks == [ks[0]] + (b + ([ls[0]] + (c + ms)));
  }

  /** What is read, then a symbol, then what is read after it. */
  lemma Join(ks: seq<Token>, ls: seq<Token>, ms: seq<Token>, b: seq<Token>, c: seq<Token>, k: Token, a: seq<Token>)
    requires ks == b + ls && |ls| > 0 && ls[0] == k && ls[1..] == c + ms && a == b + [k] + c
    ensures ks == a + ms && a[|b|] == k && a[..|b|] == b && a[|b| + 1..] == c
  {
    assert ks == b + ([k] + (c + ms));
  }

  lemma {:induction false} PipeStands(t: Text) returns (a: seq<Token>)
    requires ParsePipe(t).Ok?
    ensures var r := ParsePipe(t); ReadTo(t, r.rest, a) && InPipe(a, r.value)
    decreases |t|, 2
  {
    var left := ParseExec(t);
    a := ExecStands(t);
    HeadIs(left.rest);
    PeekIs(left.rest);
    if Next(left.rest, "|") {
      var c := PipeStands(After(left.rest));
      var b := a;
      a := b + [Symbol('|')] + c;
      Join(Tokens(t), Tokens(left.rest), Tokens(ParsePipe(t).rest), b, c, Symbol('|'), a);
    }
  }

  lemma OneMore(a: seq<Token>, c: Cmd)
    requires InBacks(a, c)
    ensures InBacks(a + [Symbol('&')], Back(c))
  {
    var d := a + [Symbol('&')];
    assert d[..|d| - 1] == a;
  }

  lemma Split1<T>(ks: seq<T>, e: seq<T>, b: seq<T>)
    requires |ks| > 0 && ks[1..] == e + b
    ensures ks == [ks[0]] + e + b
  {
    assert ks == [ks[0]] + ks[1..];
  }

  lemma {:induction false} BacksStand(c: Cmd, t: Text, a: seq<Token>) returns (b: seq<Token>)
    requires InBacks(a, c)
    ensures var r := ParseBacks(c, t); ReadTo(t, r.rest, b) && InBacks(a + b, r.value)
    decreases |t|
  {
    if Head(Tokens(t)) == Symbol('&') {
      HeadIs(t);
      BackStep(c, t);
      OneMore(a, c);
      var e := BacksStand(Back(c), After(t), a + [Symbol('&')]);
      b := [Symbol('&')] + e;
      Assoc(a, [Symbol('&')], e);
      Split1(Tokens(t), e, Tokens(ParseBacks(c, t).rest));
    } else {
      BackEnd(c, t);
      b := [];
      EmptyFront(a);
      EmptyFront(Tokens(t));
    }
  }

  lemma {:induction false} LineStands(t: Text) returns (a: seq<Token>)
    requires ParseLine(t).Ok?
    ensures var r := ParseLine(t); ReadTo(t, r.rest, a) && InLine(a, r.value)
    decreases |t|, 4
  {
    var left;
    a, left := FirstOfLine(t);
    HeadIs(left.rest);
    PeekIs(left.rest);
    if Next(left.rest, ";") {
      var c := LineStands(After(left.rest));
      var b := a;
      a := b + [Symbol(';')] + c;
      Join(Tokens(t), Tokens(left.rest), Tokens(ParseLine(t).rest), b, c, Symbol(';'), a);
    }
  }

  /** The part of a line before its first semicolon. */
  lemma {:induction false} FirstOfLine(t: Text) returns (a: seq<Token>, left: Result<Cmd>)
    requires ParsePipe(t).Ok?
    ensures left == ParseBacks(ParsePipe(t).value, ParsePipe(t).rest)
    ensures left.Ok? && ReadTo(t, left.rest, a) && InBacks(a, left.value) && |left.rest| <= |t|
    decreases |t|, 3
  {
    var pipe := ParsePipe(t);
    var p := PipeStands(t);
    left := ParseBacks(pipe.value, pipe.rest);
    var q := BacksStand(pipe.value, pipe.rest, p);
    a := p + q;
    Assoc(p, q, Tokens(left.rest));
  }

  // ---------------------------------------------------------------- the language accepted

  /** The tokens the text spells stand for the command. */
  ghost predicate Means(t: Text, c: Cmd) {
    exists ks :: Spells(t, ks) && InLine(ks, c)
  }

  lemma MeansTokens(t: Text, c: Cmd)
    ensures Means(t, c) <==> InLine(Tokens(t), c)
  {
    TokensSpell(t);
    if ks :| Spells(t, ks) && InLine(ks, c) {
      SpellsTokens(t, ks);
    }
  }

  lemma WholeRead(t: Text, c: Cmd)
    requires InLine(Tokens(t), c)
    ensures ParseCmd(t) == Ok(c, [])
  {
    EmptyFront(Tokens(t));
    var u := LineRead(t, Tokens(t), c, []);
    assert Look(0);
    HeadIs(u);
  }

  lemma WholeStands(t: Text)
    requires ParseCmd(t).Ok?
    ensures InLine(Tokens(t), ParseCmd(t).value)
  {
    var a := LineStands(t);
    EmptyFront(a);
  }

  /** The parser returns `c` for a text exactly if the tokens it spells stand for `c`. */
  lemma AcceptsExactly(t: Text, c: Cmd)
    ensures ParseCmd(t) == Ok(c, []) <==> Means(t, c)
  {
    MeansTokens(t, c);
    if Means(t, c) {
      WholeRead(t, c);
    }
    if ParseCmd(t) == Ok(c, []) {
      WholeStands(t);
    }
  }

  /** No text means two commands. */
  lemma Unambiguous(t: Text, c: Cmd, d: Cmd)
    requires Means(t, c) && Means(t, d)
    ensures c == d
  {
    AcceptsExactly(t, c);
    AcceptsExactly(t, d);
  }

  lemma LexAppend(u: Text)
    ensures var t := ">>" + u; Skip(t) == t && TokenOf(t) == Append && After(t) == Skip(u)
  {
    var t := ">>" + u;
    assert t[0] == '>' && t[1] == '>' && t[2..] == u;
  }

  /** `>> w` sends output to `w`, whatever comes before and after. */
  lemma AppendIsOutput(acc: seq<Target>, w: Text, u: Text)
    requires IsWord(w)
    ensures ParseRedirs(acc, ">>" + w + " " + u) == ParseRedirs(acc + [Target(w, true)], u)
  {
    var v := w + " " + u;
    var t := ">>" + v;
    assert ">>" + w + " " + u == t;
    LexAppend(v);
    LexWord(w, u);
    assert t[0] == '>' && Next(t, "<>");
    assert ParseRedirs(acc, t) == ParseRedirs(acc + [Target(w, true)], Skip(u));
    SkipRedirs(acc + [Target(w, true)], u);
  }
}
