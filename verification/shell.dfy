/** The shell's command language: tokens, the recursive-descent parser, and a printer it inverts. */
module Shell {

  /** A character of a C string: anything but the NUL that ends it. */
  type Letter = c: char | c != '\0' witness ' '

  type Text = seq<Letter>

  const MAXARGS: nat := 10

  datatype Cmd =
    | Exec(args: seq<Text>)
    | Redir(cmd: Cmd, to: Target)
    | Pipe(left: Cmd, right: Cmd)
    | List(left: Cmd, right: Cmd)
    | Back(cmd: Cmd)

  /** Where a redirection sends standard input, or standard output. */
  datatype Target = Target(file: Text, out: bool)

  // ---------------------------------------------------------------- tokens

  predicate IsSpace(c: char) {
    c in " \t\r\n\U{b}"
  }

  predicate IsSymbol(c: char) {
    c in "<|>&;()"
  }

  predicate InWord(c: char) {
    !IsSpace(c) && !IsSymbol(c)
  }

  datatype Token = End | Symbol(c: char) | Append | Word(text: Text)

  /** The text after its leading blanks. */
  function Skip(t: Text): (r: Text)
    ensures |r| <= |t| && (r != [] ==> !IsSpace(r[0]))
  {
    if t != [] && IsSpace(t[0]) then Skip(t[1..]) else t
  }

  /** The length of the word at the front of the text. */
  function WordLength(t: Text): (n: nat)
    ensures n <= |t| && (forall i :: 0 <= i < n ==> InWord(t[i])) && (n < |t| ==> !InWord(t[n]))
  {
    if t != [] && InWord(t[0]) then 1 + WordLength(t[1..]) else 0
  }

  /** The next token of a text without leading blanks, and how long it is. */
  function Front(t: Text): (r: (Token, nat))
    ensures r.1 <= |t| && (t != [] && !IsSpace(t[0]) ==> r.1 > 0) && (r.0 == End <==> t == [])
  {
    if t == [] then (End, 0)
    else if t[0] == '>' then (if |t| > 1 && t[1] == '>' then (Append, 2) else (Symbol('>'), 1))
    else if IsSymbol(t[0]) then (Symbol(t[0]), 1)
    else (Word(t[..WordLength(t)]), WordLength(t))
  }

  function TokenOf(t: Text): Token {
    Front(Skip(t)).0
  }

  /** What is left after the next token and the blanks around it. */
  function After(t: Text): (r: Text)
    ensures |r| <= |t| && (Skip(t) != [] ==> |r| < |t|)
  {
    Skip(Skip(t)[Front(Skip(t)).1..])
  }

  /** Whether the text goes on with one of the characters. */
  predicate Next(t: Text, toks: Text) {
    Skip(t) != [] && Skip(t)[0] in toks
  }

  // ---------------------------------------------------------------- parsing

  datatype Result<T> = Ok(value: T, rest: Text) | Panic

  function ParseRedirs(rs: seq<Target>, t: Text): (r: Result<seq<Target>>)
    ensures r.Ok? ==> |r.rest| <= |t|
    decreases |t|
  {
    if !Next(t, "<>") then Ok(rs, Skip(t))
    else if !TokenOf(After(t)).Word? then Panic
    else ParseRedirs(rs + [Target(TokenOf(After(t)).text, TokenOf(t) != Symbol('<'))], After(After(t)))
  }

  /** The command inside its redirections, the first one innermost. */
  function Wrap(c: Cmd, rs: seq<Target>): Cmd {
    if rs == [] then c else Redir(Wrap(c, rs[..|rs| - 1]), rs[|rs| - 1])
  }

  /** Words and redirections, in any order, up to something else. */
  function ParseArgs(args: seq<Text>, rs: seq<Target>, t: Text): (r: Result<Cmd>)
    ensures r.Ok? ==> |r.rest| <= |t|
    decreases |t|
  {
    if Next(t, "|)&;") || TokenOf(t) == End then Ok(Wrap(Exec(args), rs), Skip(t))
    else if !TokenOf(t).Word? || |args| + 1 >= MAXARGS then Panic
    else
      var r := ParseRedirs(rs, After(t));
      if r.Panic? then Panic else ParseArgs(args + [TokenOf(t).text], r.value, r.rest)
  }

  function ParseExec(t: Text): (r: Result<Cmd>)
    ensures r.Ok? ==> |r.rest| <= |t|
    decreases |t|, 1
  {
    if Next(t, "(") then ParseBlock(t)
    else
      var r := ParseRedirs([], t);
      if r.Panic? then Panic else ParseArgs([], r.value, r.rest)
  }

  function ParseBlock(t: Text): (r: Result<Cmd>)
    requires Next(t, "(")
    ensures r.Ok? ==> |r.rest| <= |t|
    decreases |t|, 0
  {
    var line := ParseLine(After(t));
    if line.Panic? || !Next(line.rest, ")") then Panic
    else
      var r := ParseRedirs([], After(line.rest));
      if r.Panic? then Panic else Ok(Wrap(line.value, r.value), r.rest)
  }

  function ParsePipe(t: Text): (r: Result<Cmd>)
    ensures r.Ok? ==> |r.rest| <= |t|
    decreases |t|, 2
  {
    var left := ParseExec(t);
    if left.Panic? || !Next(left.rest, "|") then left
    else
      var right := ParsePipe(After(left.rest));
      if right.Panic? then Panic else Ok(Pipe(left.value, right.value), right.rest)
  }

  function ParseBacks(c: Cmd, t: Text): (r: Result<Cmd>)
    ensures r.Ok? && |r.rest| <= |t|
    decreases |t|
  {
    if Next(t, "&") then ParseBacks(Back(c), After(t)) else Ok(c, Skip(t))
  }

  function ParseLine(t: Text): (r: Result<Cmd>)
    ensures r.Ok? ==> |r.rest| <= |t|
    decreases |t|, 3
  {
    var pipe := ParsePipe(t);
    if pipe.Panic? then Panic
    else
      var left := ParseBacks(pipe.value, pipe.rest);
      if !Next(left.rest, ";") then left
      else
        var right := ParseLine(After(left.rest));
        if right.Panic? then Panic else Ok(List(left.value, right.value), right.rest)
  }

  function ParseCmd(t: Text): Result<Cmd> {
    var r := ParseLine(t);
    if r.Panic? || Skip(r.rest) != [] then Panic else Ok(r.value, [])
  }

  // ---------------------------------------------------------------- printing

  predicate IsWord(w: Text) {
    w != [] && forall i :: 0 <= i < |w| ==> InWord(w[i])
  }

  /** Commands a user can write: plain words, and no more of them than an argument vector holds. */
  predicate Writable(c: Cmd) {
    match c
    case Exec(args) => |args| < MAXARGS && forall i :: 0 <= i < |args| ==> IsWord(args[i])
    case Redir(d, to) => IsWord(to.file) && Writable(d)
    case Pipe(l, r) => Writable(l) && Writable(r)
    case List(l, r) => Writable(l) && Writable(r)
    case Back(d) => Writable(d)
  }

  function PrintWords(args: seq<Text>): Text {
    if args == [] then "" else args[0] + " " + PrintWords(args[1..])
  }

  function Size(c: Cmd): nat {
    match c
    case Exec(_) => 1
    case Redir(d, _) => 1 + Size(d)
    case Pipe(l, r) => 1 + Size(l) + Size(r)
    case List(l, r) => 1 + Size(l) + Size(r)
    case Back(d) => 1 + Size(d)
  }

  /** As one operand of a pipe: a plain command, or anything in parentheses. */
  function PrintExec(c: Cmd): Text
    decreases Size(c), if c.Pipe? then 1 else 0
  {
    match c
    case Exec(args) => PrintWords(args)
    case Redir(d, to) => PrintExec(d) + (if to.out then ">" else "<") + to.file + " "
    case Pipe(_, _) => "(" + PrintPipe(c) + ")"
    case List(l, r) => "(" + PrintBack(l) + ";" + PrintLine(r) + ")"
    case Back(d) => "(" + PrintBack(d) + "&" + ")"
  }

  function PrintPipe(c: Cmd): Text
    decreases Size(c), if c.Pipe? then 0 else 1
  {
    if c.Pipe? then PrintExec(c.left) + "|" + PrintPipe(c.right) else PrintExec(c)
  }

  function PrintBack(c: Cmd): Text
    decreases Size(c), 2
  {
    if c.Back? then PrintBack(c.cmd) + "&" else PrintPipe(c)
  }

  function PrintLine(c: Cmd): Text
    decreases Size(c), 3
  {
    if c.List? then PrintBack(c.left) + ";" + PrintLine(c.right) else PrintBack(c)
  }

  // ---------------------------------------------------------------- printing, then parsing

  lemma Assoc<T>(a: seq<T>, b: seq<T>, c: seq<T>)
    ensures a + b + c == a + (b + c)
  {
  }

  lemma EmptyFront<T>(a: seq<T>)
    ensures [] + a == a && a + [] == a
  {
  }

  lemma HeadThenTail<T>(a: seq<T>, s: seq<T>)
    requires s != []
    ensures a + [s[0]] + s[1..] == a + s
  {
  }

  lemma {:induction false} SkipTwice(t: Text)
    ensures Skip(Skip(t)) == Skip(t)
  {
  }

  /** Leading blanks make no difference to any part of the parser. */
  lemma SkipRedirs(rs: seq<Target>, t: Text)
    ensures ParseRedirs(rs, Skip(t)) == ParseRedirs(rs, t)
  {
    SkipTwice(t);
  }

  lemma SkipArgs(args: seq<Text>, rs: seq<Target>, t: Text)
    ensures ParseArgs(args, rs, Skip(t)) == ParseArgs(args, rs, t)
  {
    SkipTwice(t);
  }

  lemma SkipBacks(c: Cmd, t: Text)
    ensures ParseBacks(c, Skip(t)) == ParseBacks(c, t)
  {
    SkipTwice(t);
  }

  lemma SkipExec(t: Text)
    ensures ParseExec(Skip(t)) == ParseExec(t)
  {
    SkipTwice(t);
    SkipRedirs([], t);
  }

  lemma SkipPipe(t: Text)
    ensures ParsePipe(Skip(t)) == ParsePipe(t)
  {
    SkipExec(t);
  }

  lemma SkipLine(t: Text)
    ensures ParseLine(Skip(t)) == ParseLine(t)
  {
    SkipPipe(t);
  }

  lemma {:induction false} WordLengthIs(w: Text, t: Text)
    requires (forall i :: 0 <= i < |w| ==> InWord(w[i])) && w <= t && (|w| < |t| ==> !InWord(t[|w|]))
    ensures WordLength(t) == |w|
  {
    if w != [] {
      WordLengthIs(w[1..], t[1..]);
    }
  }

  /** A word and a blank read back as that word. */
  lemma LexWord(w: Text, u: Text)
    requires IsWord(w)
    ensures var t := w + " " + u; Skip(t) == t && TokenOf(t) == Word(w) && After(t) == Skip(u) && t[0] == w[0]
  {
    var t := w + " " + u;
    assert t[0] == w[0] && InWord(t[0]);
    WordLengthIs(w, t);
    assert t[..|w|] == w && t[|w|..] == " " + u;
    assert Skip(" " + u) == Skip(u) by {
      assert (" " + u)[1..] == u;
    }
  }

  lemma LexSymbol(c: char, u: Text)
    requires c in "<|&;()"
    ensures var t := [c] + u; Skip(t) == t && TokenOf(t) == Symbol(c) && After(t) == Skip(u)
  {
    var t := [c] + u;
    assert t[1..] == u;
  }

  lemma LexGreater(u: Text)
    requires u != [] && u[0] != '>'
    ensures var t := ">" + u; Skip(t) == t && TokenOf(t) == Symbol('>') && After(t) == Skip(u)
  {
    var t := ">" + u;
    assert t[1] == u[0] && t[1..] == u;
  }

  function PrintTarget(to: Target): Text {
    (if to.out then ">" else "<") + to.file + " "
  }

  function PrintTargets(rs: seq<Target>): Text {
    if rs == [] then "" else PrintTarget(rs[0]) + PrintTargets(rs[1..])
  }

  predicate Targets(rs: seq<Target>) {
    forall i :: 0 <= i < |rs| ==> IsWord(rs[i].file)
  }

  /** Nothing but the end or one of the characters follows. */
  predicate Stops(u: Text, toks: Text) {
    Skip(u) == [] || Skip(u)[0] in toks
  }

  lemma TargetStep(acc: seq<Target>, to: Target, u: Text)
    requires IsWord(to.file)
    ensures Next(PrintTarget(to) + u, "<>")
    ensures ParseRedirs(acc, PrintTarget(to) + u) == ParseRedirs(acc + [to], u)
  {
    var v := to.file + " " + u;
    var t := PrintTarget(to) + u;
    LexWord(to.file, u);
    if to.out {
      assert t == ">" + v;
      LexGreater(v);
    } else {
      assert t == ['<'] + v;
      LexSymbol('<', v);
    }
    assert to == Target(TokenOf(After(t)).text, TokenOf(t) != Symbol('<'));
    SkipRedirs(acc + [to], u);
  }

  lemma {:induction false} RedirsOk(acc: seq<Target>, rs: seq<Target>, u: Text)
    requires Targets(rs) && Stops(u, "|)&;")
    ensures ParseRedirs(acc, PrintTargets(rs) + u) == Ok(acc + rs, Skip(u))
    decreases |rs|
  {
    if rs == [] {
      NoTargets(acc, u);
      assert PrintTargets(rs) + u == u && acc + rs == acc;
    } else {
      var v := PrintTargets(rs[1..]) + u;
      Assoc(PrintTarget(rs[0]), PrintTargets(rs[1..]), u);
      TargetStep(acc, rs[0], v);
      RedirsOk(acc + [rs[0]], rs[1..], u);
      HeadThenTail(acc, rs);
    }
  }

  lemma NoTargets(acc: seq<Target>, u: Text)
    requires Stops(u, "|)&;")
    ensures ParseRedirs(acc, u) == Ok(acc, Skip(u))
  {
  }

  /** Before a word there are no redirections to read. */
  lemma NoRedirs(rs: seq<Target>, w: Text, u: Text)
    requires IsWord(w)
    ensures ParseRedirs(rs, w + " " + u) == Ok(rs, w + " " + u)
  {
    LexWord(w, u);
  }

  lemma ArgStep(args: seq<Text>, w: Text, rs: seq<Target>, v: Text)
    requires IsWord(w) && |args| + 1 < MAXARGS
    ensures var r := ParseRedirs(rs, v);
            ParseArgs(args, rs, w + " " + v) == if r.Panic? then Panic else ParseArgs(args + [w], r.value, r.rest)
  {
    LexWord(w, v);
    SkipRedirs(rs, v);
  }

  lemma ArgsEnd(args: seq<Text>, rs: seq<Target>, u: Text)
    requires Stops(u, "|)&;")
    ensures ParseArgs(args, rs, Skip(u)) == Ok(Wrap(Exec(args), rs), Skip(u))
  {
    SkipTwice(u);
  }

  lemma LastArg(args: seq<Text>, w: Text, rs: seq<Target>, u: Text)
    requires IsWord(w) && |args| + 1 < MAXARGS && Targets(rs) && Stops(u, "|)&;")
    ensures ParseArgs(args, [], w + " " + (PrintTargets(rs) + u)) == Ok(Wrap(Exec(args + [w]), rs), Skip(u))
  {
    ArgStep(args, w, [], PrintTargets(rs) + u);
    RedirsOk([], rs, u);
    EmptyFront(rs);
    ArgsEnd(args + [w], rs, u);
  }

  /** With another word to come, the first is taken and the rest is left as it was. */
  lemma MoreArgs(args: seq<Text>, w: Text, x: Text, v: Text)
    requires IsWord(w) && IsWord(x) && |args| + 1 < MAXARGS
    ensures ParseArgs(args, [], w + " " + (x + " " + v)) == ParseArgs(args + [w], [], x + " " + v)
  {
    ArgStep(args, w, [], x + " " + v);
    NoRedirs([], x, v);
  }

  lemma PrintFirst(args: seq<Text>, x: Text)
    requires args != []
    ensures PrintWords(args) + x == args[0] + " " + (PrintWords(args[1..]) + x)
  {
    Assoc(args[0] + " ", PrintWords(args[1..]), x);
  }

  lemma {:induction false} ArgsOk(args0: seq<Text>, args: seq<Text>, rs: seq<Target>, u: Text)
    requires args != [] && |args0| + |args| < MAXARGS && (forall i :: 0 <= i < |args| ==> IsWord(args[i]))
    requires Targets(rs) && Stops(u, "|)&;")
    ensures ParseArgs(args0, [], PrintWords(args) + (PrintTargets(rs) + u)) == Ok(Wrap(Exec(args0 + args), rs), Skip(u))
    decreases |args|
  {
    var x, tail := PrintTargets(rs) + u, args[1..];
    PrintFirst(args, x);
    HeadThenTail(args0, args);
    if tail == [] {
      EmptyFront(x);
      EmptyFront(args0 + [args[0]]);
      LastArg(args0, args[0], rs, u);
    } else {
      PrintFirst(tail, x);
      MoreArgs(args0, args[0], tail[0], PrintWords(tail[1..]) + x);
      ArgsOk(args0 + [args[0]], tail, rs, u);
    }
  }

  // Redirections peeled off a command

  function Base(c: Cmd): (b: Cmd)
    ensures !b.Redir? && Size(b) <= Size(c) && (Writable(c) ==> Writable(b)) && (c.Redir? ==> Size(b) < Size(c))
  {
    if c.Redir? then Base(c.cmd) else c
  }

  function Outer(c: Cmd): (rs: seq<Target>)
    ensures Writable(c) ==> Targets(rs)
  {
    if c.Redir? then Outer(c.cmd) + [c.to] else []
  }

  lemma {:induction false} Rewrap(c: Cmd)
    ensures Wrap(Base(c), Outer(c)) == c
  {
    if c.Redir? {
      Rewrap(c.cmd);
      assert (Outer(c.cmd) + [c.to])[..|Outer(c.cmd)|] == Outer(c.cmd);
    }
  }

  lemma {:induction false} PrintTargetsSnoc(rs: seq<Target>, to: Target)
    ensures PrintTargets(rs + [to]) == PrintTargets(rs) + PrintTarget(to)
  {
    if rs == [] {
      EmptyFront(PrintTarget(to));
      assert [to][1..] == [];
    } else {
      PrintTargetsSnoc(rs[1..], to);
      assert (rs + [to])[1..] == rs[1..] + [to];
      Assoc(PrintTarget(rs[0]), PrintTargets(rs[1..]), PrintTarget(to));
    }
  }

  lemma {:induction false} PrintOuter(c: Cmd)
    ensures PrintExec(c) == PrintExec(Base(c)) + PrintTargets(Outer(c))
  {
    if c.Redir? {
      PrintOuter(c.cmd);
      PrintTargetsSnoc(Outer(c.cmd), c.to);
      var sign := if c.to.out then ">" else "<";
      Assoc(PrintExec(c.cmd) + sign, c.to.file, " ");
      Assoc(PrintExec(c.cmd), sign, c.to.file + " ");
      Assoc(sign, c.to.file, " ");
      Assoc(PrintExec(Base(c)), PrintTargets(Outer(c.cmd)), PrintTarget(c.to));
    } else {
      EmptyFront(PrintExec(c));
    }
  }

  lemma PrintParen(c: Cmd)
    requires c.Pipe? || c.List? || c.Back?
    ensures PrintExec(c) == "(" + PrintLine(c) + ")"
  {
    if c.List? {
      Assoc("(", PrintBack(c.left) + ";", PrintLine(c.right));
      Assoc("(", PrintBack(c.left), ";");
    } else if c.Back? {
      Assoc("(", PrintBack(c.cmd), "&");
    }
  }

  // Each level of the grammar

  lemma StopsAt(c: char, u: Text, toks: Text)
    requires c in "<|&;()" && c in toks
    ensures Stops([c] + u, toks) && Next([c] + u, [c]) && Skip([c] + u) == [c] + u && After([c] + u) == Skip(u)
  {
    LexSymbol(c, u);
  }

  lemma PlainOk(args: seq<Text>, rs: seq<Target>, u: Text)
    requires |args| < MAXARGS && (forall i :: 0 <= i < |args| ==> IsWord(args[i])) && Targets(rs) && Stops(u, "|)&;")
    ensures ParseExec(PrintWords(args) + (PrintTargets(rs) + u)) == Ok(Wrap(Exec(args), rs), Skip(u))
  {
    var x := PrintTargets(rs) + u;
    var t := PrintWords(args) + x;
    if args == [] {
      EmptyFront(x);
      RedirsOk([], rs, u);
      EmptyFront(rs);
      ArgsEnd([], rs, u);
      NoParen(rs, u);
    } else {
      PrintFirst(args, x);
      LexWord(args[0], PrintWords(args[1..]) + x);
      NoRedirs([], args[0], PrintWords(args[1..]) + x);
      EmptyFront(args);
      ArgsOk([], args, rs, u);
    }
  }

  lemma NoParen(rs: seq<Target>, u: Text)
    requires Targets(rs) && Stops(u, "|)&;")
    ensures !Next(PrintTargets(rs) + u, "(")
  {
    if rs == [] {
      EmptyFront(u);
    } else {
      Assoc(PrintTarget(rs[0]), PrintTargets(rs[1..]), u);
      TargetStep([], rs[0], PrintTargets(rs[1..]) + u);
    }
  }

  lemma BlockOk(c: Cmd, rs: seq<Target>, u: Text)
    requires Targets(rs) && Stops(u, "|)&;")
    requires ParseLine(PrintLine(c) + (")" + (PrintTargets(rs) + u))) == Ok(c, Skip(")" + (PrintTargets(rs) + u)))
    ensures ParseExec("(" + (PrintLine(c) + (")" + (PrintTargets(rs) + u)))) == Ok(Wrap(c, rs), Skip(u))
  {
    var x := PrintTargets(rs) + u;
    var y := PrintLine(c) + (")" + x);
    StopsAt('(', y, "(");
    StopsAt(')', x, ")");
    SkipLine(y);
    SkipRedirs([], x);
    RedirsOk([], rs, u);
    EmptyFront(rs);
  }

  lemma ParenShape(c: Cmd, rs: seq<Target>, u: Text)
    requires c.Pipe? || c.List? || c.Back?
    ensures PrintExec(c) + PrintTargets(rs) + u == "(" + (PrintLine(c) + (")" + (PrintTargets(rs) + u)))
  {
    PrintParen(c);
    var x := PrintTargets(rs) + u;
    Assoc(PrintExec(c), PrintTargets(rs), u);
    Assoc("(" + PrintLine(c), ")", x);
    Assoc("(", PrintLine(c), ")" + x);
  }

  /** A printed operand parses back, whatever may follow an operand. */
  lemma {:induction false} ExecOk(c: Cmd, u: Text)
    requires Writable(c) && Stops(u, "|)&;")
    ensures ParseExec(PrintExec(c) + u) == Ok(c, Skip(u))
    decreases Size(c), if c.Exec? || c.Redir? then 0 else 4
  {
    var b, rs := Base(c), Outer(c);
    Rewrap(c);
    PrintOuter(c);
    if b.Exec? {
      Assoc(PrintExec(b), PrintTargets(rs), u);
      PlainOk(b.args, rs, u);
    } else {
      ParenShape(b, rs, u);
      StopsAt(')', PrintTargets(rs) + u, ")");
      LineOk(b, ")" + (PrintTargets(rs) + u));
      BlockOk(b, rs, u);
    }
  }

  lemma {:induction false} PipeOk(c: Cmd, u: Text)
    requires Writable(c) && Stops(u, ")&;")
    ensures ParsePipe(PrintPipe(c) + u) == Ok(c, Skip(u))
    decreases Size(c), if c.Pipe? then 0 else 5
  {
    if c.Pipe? {
      var x := PrintPipe(c.right) + u;
      Assoc(PrintExec(c.left) + "|", PrintPipe(c.right), u);
      Assoc(PrintExec(c.left), "|", x);
      StopsAt('|', x, "|)&;");
      ExecOk(c.left, "|" + x);
      SkipPipe(x);
      PipeOk(c.right, u);
    } else {
      ExecOk(c, u);
      SkipTwice(u);
    }
  }

  /** A pipe and the ampersands after it, which is how a line starts. */
  function ParseFirst(t: Text): Result<Cmd> {
    var p := ParsePipe(t);
    if p.Panic? then Panic else ParseBacks(p.value, p.rest)
  }

  lemma {:induction false} BackOk(c: Cmd, u: Text)
    requires Writable(c) && Stops(u, ")&;")
    ensures ParseFirst(PrintBack(c) + u) == ParseBacks(c, u)
    decreases Size(c), if c.Pipe? || c.Back? then 1 else 6
  {
    if c.Back? {
      Assoc(PrintBack(c.cmd), "&", u);
      StopsAt('&', u, ")&;");
      BackOk(c.cmd, "&" + u);
      SkipBacks(c, u);
    } else {
      PipeOk(c, u);
      SkipBacks(c, u);
    }
  }

  lemma {:induction false} LineOk(c: Cmd, u: Text)
    requires Writable(c) && Stops(u, ")")
    ensures ParseLine(PrintLine(c) + u) == Ok(c, Skip(u))
    decreases Size(c), if c.Pipe? || c.Back? || c.List? then 2 else 7
  {
    if c.List? {
      var x := PrintLine(c.right) + u;
      Assoc(PrintBack(c.left) + ";", PrintLine(c.right), u);
      Assoc(PrintBack(c.left), ";", x);
      StopsAt(';', x, ")&;");
      BackOk(c.left, ";" + x);
      SkipLine(x);
      LineOk(c.right, u);
    } else {
      BackOk(c, u);
      SkipTwice(u);
    }
  }

  /** Every writable command, printed, parses back to itself. */
  lemma RoundTrip(c: Cmd)
    requires Writable(c)
    ensures ParseCmd(PrintLine(c)) == Ok(c, [])
  {
    EmptyFront(PrintLine(c));
    LineOk(c, []);
  }

  // ---------------------------------------------------------------- parsing, then printing

  lemma TokenIsWord(t: Text)
    requires TokenOf(t).Word?
    ensures IsWord(TokenOf(t).text)
  {
  }

  lemma {:induction false} RedirsAreTargets(rs: seq<Target>, t: Text)
    requires Targets(rs)
    ensures ParseRedirs(rs, t).Ok? ==> Targets(ParseRedirs(rs, t).value)
    decreases |t|
  {
    if Next(t, "<>") && TokenOf(After(t)).Word? {
      TokenIsWord(After(t));
      RedirsAreTargets(rs + [Target(TokenOf(After(t)).text, TokenOf(t) != Symbol('<'))], After(After(t)));
    }
  }

  lemma {:induction false} WrapWritable(c: Cmd, rs: seq<Target>)
    requires Writable(c) && Targets(rs)
    ensures Writable(Wrap(c, rs))
  {
    if rs != [] {
      WrapWritable(c, rs[..|rs| - 1]);
    }
  }

  lemma {:induction false} ArgsWritable(args: seq<Text>, rs: seq<Target>, t: Text)
    requires |args| < MAXARGS && (forall i :: 0 <= i < |args| ==> IsWord(args[i])) && Targets(rs)
    ensures ParseArgs(args, rs, t).Ok? ==> Writable(ParseArgs(args, rs, t).value)
    decreases |t|
  {
    if Next(t, "|)&;") || TokenOf(t) == End {
      WrapWritable(Exec(args), rs);
    } else if TokenOf(t).Word? && |args| + 1 < MAXARGS {
      TokenIsWord(t);
      RedirsAreTargets(rs, After(t));
      var r := ParseRedirs(rs, After(t));
      if r.Ok? {
        ArgsWritable(args + [TokenOf(t).text], r.value, r.rest);
      }
    }
  }

  lemma {:induction false} ExecWritable(t: Text)
    ensures ParseExec(t).Ok? ==> Writable(ParseExec(t).value)
    decreases |t|, 1
  {
    if Next(t, "(") {
      LineWritable(After(t));
      var line := ParseLine(After(t));
      if line.Ok? && Next(line.rest, ")") {
        var r := ParseRedirs([], After(line.rest));
        RedirsAreTargets([], After(line.rest));
        if r.Ok? {
          WrapWritable(line.value, r.value);
        }
      }
    } else {
      RedirsAreTargets([], t);
      var r := ParseRedirs([], t);
      if r.Ok? {
        ArgsWritable([], r.value, r.rest);
      }
    }
  }

  lemma {:induction false} PipeWritable(t: Text)
    ensures ParsePipe(t).Ok? ==> Writable(ParsePipe(t).value)
    decreases |t|, 2
  {
    ExecWritable(t);
    var left := ParseExec(t);
    if left.Ok? && Next(left.rest, "|") {
      PipeWritable(After(left.rest));
    }
  }

  lemma {:induction false} BacksWritable(c: Cmd, t: Text)
    requires Writable(c)
    ensures Writable(ParseBacks(c, t).value)
    decreases |t|
  {
    if Next(t, "&") {
      BacksWritable(Back(c), After(t));
    }
  }

  lemma {:induction false} LineWritable(t: Text)
    ensures ParseLine(t).Ok? ==> Writable(ParseLine(t).value)
    decreases |t|, 3
  {
    PipeWritable(t);
    var pipe := ParsePipe(t);
    if pipe.Ok? {
      BacksWritable(pipe.value, pipe.rest);
      var left := ParseBacks(pipe.value, pipe.rest);
      if Next(left.rest, ";") {
        LineWritable(After(left.rest));
      }
    }
  }

  /** What is accepted prints to a text with the same meaning. */
  lemma NormalForm(t: Text)
    requires ParseCmd(t).Ok?
    ensures Writable(ParseCmd(t).value)
    ensures ParseCmd(PrintLine(ParseCmd(t).value)) == ParseCmd(t)
  {
    LineWritable(t);
    RoundTrip(ParseCmd(t).value);
  }
}
