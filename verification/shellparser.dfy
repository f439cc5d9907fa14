/** The parser as the shell runs it, with a cursor that moves over the text. */
module ShellParser {
  import opened Shell
  import opened ShellGrammar

  method SkipBlanks(text: Text, at: nat) returns (to: nat)
    requires at <= |text|
    ensures at <= to <= |text| && text[to..] == Skip(text[at..])
  {
    to := at;
    while to < |text| && IsSpace(text[to])
      invariant at <= to <= |text| && Skip(text[to..]) == Skip(text[at..])
    {
      assert text[to..][1..] == text[to + 1..];
      to := to + 1;
    }
  }

  method Peek(text: Text, at: nat, toks: Text) returns (yes: bool, to: nat)
    requires at <= |text|
    ensures at <= to <= |text| && text[to..] == Skip(text[at..]) && yes == Next(text[at..], toks)
  {
    to := SkipBlanks(text, at);
    yes := to < |text| && text[to] in toks;
  }

  /** Where the word at `s` ends. */
  method EndOfWord(text: Text, s: nat) returns (e: nat)
    requires s < |text|
    ensures s <= e <= |text| && e - s == WordLength(text[s..])
  {
    e := s;
    while e < |text| && !IsSpace(text[e]) && !IsSymbol(text[e])
      invariant s <= e <= |text| && forall i :: s <= i < e ==> InWord(text[i])
    {
      e := e + 1;
    }
    WordLengthIs(text[s..e], text[s..]);
  }

  method GetToken(text: Text, at: nat) returns (tok: Token, to: nat)
    requires at <= |text|
    ensures at <= to <= |text| && tok == TokenOf(text[at..]) && text[to..] == After(text[at..])
  {
    var s := SkipBlanks(text, at);
    var e := s;
    if s == |text| {
      tok := End;
    } else if text[s] == '>' {
      e := s + 1;
      tok := Symbol('>');
      if e < |text| && text[e] == '>' {
        tok := Append;
        e := e + 1;
      }
    } else if IsSymbol(text[s]) {
      tok := Symbol(text[s]);
      e := s + 1;
    } else {
      e := EndOfWord(text, s);
      assert text[s..][..e - s] == text[s..e];
      tok := Word(text[s..e]);
    }
    assert text[s..][e - s..] == text[e..];
    to := SkipBlanks(text, e);
  }

  /** Read redirections into `rs`. */
  method ReadRedirs(text: Text, at: nat, before: seq<Target>) returns (ok: bool, rs: seq<Target>, to: nat)
    requires at <= |text|
    ensures at <= to <= |text|
    ensures ParseRedirs(before, text[at..]) == if ok then Ok(rs, text[to..]) else Panic
  {
    rs, to := before, at;
    while true
      invariant at <= to <= |text| && ParseRedirs(rs, text[to..]) == ParseRedirs(before, text[at..])
      decreases |text| - to
    {
      var more, p := Peek(text, to, "<>");
      ghost var t := text[to..];
      SkipRedirs(rs, t);
      SkipTwice(t);
      to := p;
      if !more {
        break;
      }
      var tok, name;
      tok, p := GetToken(text, to);
      name, p := GetToken(text, p);
      if !name.Word? {
        return false, rs, to;
      }
      rs := rs + [Target(name.text, tok != Symbol('<'))];
      to := p;
    }
    SkipTwice(text[to..]);
    ok := true;
  }

  method ReadExec(text: Text, at: nat) returns (r: Result<Cmd>, to: nat)
    requires at <= |text|
    ensures at <= to <= |text| && r == ParseExec(text[at..]) && (r.Ok? ==> r.rest == text[to..])
    decreases |text| - at, 1
  {
    var paren, p := Peek(text, at, "(");
    SkipExec(text[at..]);
    if paren {
      r, to := ReadBlock(text, p);
      return;
    }
    var ok, args, rs := true, [], [];
    ok, rs, to := ReadRedirs(text, p, []);
    if !ok {
      return Panic, to;
    }
    while true
      invariant p <= to <= |text| && ParseArgs(args, rs, text[to..]) == ParseExec(text[at..])
      decreases |text| - to
    {
      var stop, tok;
      ghost var t := text[to..];
      SkipArgs(args, rs, t);
      SkipTwice(t);
      stop, to := Peek(text, to, "|)&;");
      if stop {
        break;
      }
      var q;
      tok, q := GetToken(text, to);
      if tok == End {
        break;
      }
      if !tok.Word? {
        return Panic, to;
      }
      args := args + [tok.text];
      if |args| >= MAXARGS {
        return Panic, to;
      }
      ok, rs, to := ReadRedirs(text, q, rs);
      if !ok {
        return Panic, to;
      }
    }
    SkipTwice(text[to..]);
    r := Ok(Wrap(Exec(args), rs), text[to..]);
  }

  method ReadBlock(text: Text, at: nat) returns (r: Result<Cmd>, to: nat)
    requires at <= |text| && Next(text[at..], "(")
    ensures at <= to <= |text| && r == ParseBlock(text[at..]) && (r.Ok? ==> r.rest == text[to..])
    decreases |text| - at, 0
  {
    var tok, p := GetToken(text, at);
    r, to := ReadLine(text, p);
    if r.Panic? {
      return;
    }
    ghost var line := r.rest;
    var close;
    close, to := Peek(text, to, ")");
    SkipTwice(line);
    if !close {
      return Panic, to;
    }
    tok, to := GetToken(text, to);
    var ok, rs;
    ok, rs, to := ReadRedirs(text, to, []);
    r := if ok then Ok(Wrap(r.value, rs), text[to..]) else Panic;
  }

  method ReadPipe(text: Text, at: nat) returns (r: Result<Cmd>, to: nat)
    requires at <= |text|
    ensures at <= to <= |text| && r == ParsePipe(text[at..]) && (r.Ok? ==> r.rest == text[to..])
    decreases |text| - at, 2
  {
    r, to := ReadExec(text, at);
    if r.Panic? {
      return;
    }
    var left, more, tok := r, false, End;
    var p;
    more, p := Peek(text, to, "|");
    SkipTwice(left.rest);
    if more {
      tok, p := GetToken(text, p);
      r, to := ReadPipe(text, p);
      if r.Ok? {
        r := Ok(Pipe(left.value, r.value), r.rest);
      }
    }
  }

  method ReadLine(text: Text, at: nat) returns (r: Result<Cmd>, to: nat)
    requires at <= |text|
    ensures at <= to <= |text| && r == ParseLine(text[at..]) && (r.Ok? ==> r.rest == text[to..])
    decreases |text| - at, 3
  {
    r, to := ReadPipe(text, at);
    if r.Panic? {
      return;
    }
    var c, more, tok := r.value, true, End;
    ghost var pipe := r;
    while true
      invariant at <= to <= |text| && ParseBacks(c, text[to..]) == ParseBacks(pipe.value, pipe.rest)
      decreases |text| - to
    {
      ghost var t := text[to..];
      SkipBacks(c, t);
      SkipTwice(t);
      more, to := Peek(text, to, "&");
      if !more {
        break;
      }
      tok, to := GetToken(text, to);
      c := Back(c);
    }
    SkipTwice(text[to..]);
    r := Ok(c, text[to..]);
    var p;
    more, p := Peek(text, to, ";");
    if more {
      tok, p := GetToken(text, p);
      r, to := ReadLine(text, p);
      if r.Ok? {
        r := Ok(List(c, r.value), r.rest);
      }
    }
  }

  /** Parse a whole line of input: the command the text means, if it means any. */
  method ReadCmd(text: Text) returns (r: Result<Cmd>)
    ensures r == ParseCmd(text)
    ensures r.Ok? ==> Means(text, r.value)
    ensures r.Panic? <==> forall c :: !Means(text, c)
  {
    var to;
    assert text[0..] == text;
    r, to := ReadLine(text, 0);
    if r.Ok? {
      to := SkipBlanks(text, to);
      r := if to != |text| then Panic else Ok(r.value, []);
    }
    forall c
      ensures r == Ok(c, []) <==> Means(text, c)
    {
      AcceptsExactly(text, c);
    }
  }
}
