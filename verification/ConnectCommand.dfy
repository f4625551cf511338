/**
  The command line that a client of the framing proxy sends first.
 */
module ConnectCommand {
  import opened Basics

  function Ascii(s: string): seq<byte>
    requires forall i :: 0 <= i < |s| ==> s[i] < 128 as char
  {
    seq<byte>(|s|, i requires 0 <= i < |s| => s[i] as int)
  }

  /** The first position holding one of the given bytes, or the length. */
  function IndexOf(s: seq<byte>, stops: set<byte>): (i: nat)
    ensures i <= |s| && (i < |s| ==> s[i] in stops)
    ensures forall j :: 0 <= j < i ==> s[j] !in stops
  {
    if s == [] || s[0] in stops then 0 else 1 + IndexOf(s[1..], stops)
  }

  const NUL: byte := 0
  const NEWLINE: byte := 10
  const RETURN: byte := 13
  const SPACE: byte := 32
  const SEMICOLON: byte := 59
  const EQUALS: byte := 61

  const CONNECT := Ascii("connect")
  const TYPE := Ascii("type")
  const TGT := Ascii("tgt")
  const PORT := Ascii("port")
  const MODE := Ascii("mode")
  const UDPSOCK := Ascii("udpsock")
  const PACKET := Ascii("packet")

  /** Where the first semicolon is, or the end. */
  function PartEnd(s: seq<byte>): (i: nat)
    ensures i <= |s| && (i < |s| ==> s[i] == SEMICOLON) && SEMICOLON !in s[..i]
  {
    IndexOf(s, {SEMICOLON})
  }

  /** The parts of a nonempty parameter list, one more than it has semicolons. */
  function Split(s: seq<byte>): (r: seq<seq<byte>>)
    ensures r != []
    decreases |s|
  {
    var i := PartEnd(s);
    if i == |s| then [s] else [s[..i]] + Split(s[i + 1..])
  }

  function Key(param: seq<byte>): seq<byte> {
    param[..IndexOf(param, {EQUALS})]
  }

  function Val(param: seq<byte>): seq<byte> {
    var i := IndexOf(param, {EQUALS});
    if i == |param| then [] else param[i + 1..]
  }

  predicate Supported(param: seq<byte>) {
    EQUALS in param && Key(param) in {TYPE, TGT, PORT, MODE}
  }

  /** The value of the last parameter with the given key, or nothing. */
  function LastValue(params: seq<seq<byte>>, key: seq<byte>): seq<byte> {
    if params == [] then []
    else if Key(params[|params| - 1]) == key then Val(params[|params| - 1])
    else LastValue(params[..|params| - 1], key)
  }

  datatype Parsed = Incomplete | Refused | Wanted(port: seq<byte>)

  function Params(rest: seq<byte>): seq<seq<byte>> {
    if rest == [] then [] else Split(rest)
  }

  function ParseConnect(rest: seq<byte>): Parsed {
    var params := Params(rest);
    if (forall i :: 0 <= i < |params| ==> Supported(params[i]))
       && LastValue(params, TYPE) == UDPSOCK && LastValue(params, MODE) == PACKET
    then Wanted(LastValue(params, PORT))
    else Refused
  }

  function SkipSpaces(s: seq<byte>): seq<byte> {
    if s != [] && s[0] == SPACE then SkipSpaces(s[1..]) else s
  }

  function ParseCommand(buf: seq<byte>): Parsed {
    var last := IndexOf(buf, {NUL, NEWLINE, RETURN});
    if last == |buf| then Incomplete
    else
      var line := buf[..last];
      var i := IndexOf(line, {SPACE});
      if line[..i] != CONNECT then Refused
      else ParseConnect(SkipSpaces(if i < |line| then line[i + 1..] else []))
  }

  // ---------------------------------------------------------------------------
  // What a command line is

  function Join(params: seq<seq<byte>>): seq<byte>
    requires params != []
  {
    if |params| == 1 then params[0] else params[0] + [SEMICOLON] + Join(params[1..])
  }

  /** Splitting finds the one list of parts without semicolons that joins to the text. */
  lemma {:induction false} SplitIsJoined(s: seq<byte>)
    ensures Join(Split(s)) == s && forall i :: 0 <= i < |Split(s)| ==> SEMICOLON !in Split(s)[i]
    decreases |s|
  {
    var i := PartEnd(s);
    if i < |s| {
      SplitIsJoined(s[i + 1..]);
      assert s == s[..i] + [SEMICOLON] + s[i + 1..];
      assert Split(s)[1..] == Split(s[i + 1..]);
    }
  }

  lemma IndexOfFirst(a: seq<byte>, c: byte, b: seq<byte>, stops: set<byte>)
    requires c in stops && forall i :: 0 <= i < |a| ==> a[i] !in stops
    ensures IndexOf(a + [c] + b, stops) == |a|
  {
    var s := a + [c] + b;
    var i := IndexOf(s, stops);
    assert s[|a|] == c;
    forall j | 0 <= j < |a| ensures s[j] !in stops {
      assert s[j] == a[j];
    }
  }

  lemma SplitStep(s: seq<byte>)
    ensures var i := PartEnd(s); Split(s) == if i == |s| then [s] else [s[..i]] + Split(s[i + 1..])
  {
  }

  lemma SplitAtFirst(a: seq<byte>, b: seq<byte>)
    requires SEMICOLON !in a
    ensures Split(a + [SEMICOLON] + b) == [a] + Split(b)
  {
    var s := a + [SEMICOLON] + b;
    IndexOfFirst(a, SEMICOLON, b, {SEMICOLON});
    SplitStep(s);
    assert s[..|a|] == a && s[|a| + 1..] == b;
  }

  lemma {:induction false} SplitOfJoin(params: seq<seq<byte>>)
    requires params != [] && forall i :: 0 <= i < |params| ==> SEMICOLON !in params[i]
    ensures Split(Join(params)) == params
  {
    if |params| == 1 {
      SplitStep(params[0]);
    } else {
      SplitOfJoin(params[1..]);
      SplitAtFirst(params[0], Join(params[1..]));
    }
  }

  const ENDS: set<byte> := {NUL, NEWLINE, RETURN}

  predicate NoneOf(s: seq<byte>, stops: set<byte>) {
    forall i :: 0 <= i < |s| ==> s[i] !in stops
  }

  function Spaces(n: nat): (r: seq<byte>)
    ensures |r| == n && forall i :: 0 <= i < n ==> r[i] == SPACE
  {
    seq(n, _ => SPACE)
  }

  /** The bytes before the end of the line are a word and arguments with `n` spaces between them. */
  predicate IsLine(buf: seq<byte>, word: seq<byte>, n: nat, args: seq<byte>) {
    && NoneOf(word, {SPACE}) && (args != [] ==> n > 0 && args[0] != SPACE)
    && var line := word + Spaces(n) + args;
    NoneOf(line, ENDS) && |line| < |buf| && buf[..|line|] == line && buf[|line|] in ENDS
  }

  lemma {:induction false} SpacesSkipped(n: nat, args: seq<byte>)
    requires args != [] ==> args[0] != SPACE
    ensures SkipSpaces(Spaces(n) + args) == args
  {
    if n == 0 {
      assert Spaces(0) + args == args;
    } else {
      SpacesSkipped(n - 1, args);
      assert (Spaces(n) + args)[1..] == Spaces(n - 1) + args;
    }
  }

  lemma {:induction false} LeadingSpaces(s: seq<byte>) returns (n: nat)
    ensures s == Spaces(n) + SkipSpaces(s) && (SkipSpaces(s) != [] ==> SkipSpaces(s)[0] != SPACE)
  {
    if s != [] && s[0] == SPACE {
      var m := LeadingSpaces(s[1..]);
      n := m + 1;
      assert Spaces(n) == [SPACE] + Spaces(m);
    } else {
      n := 0;
      assert Spaces(0) + s == s;
    }
  }

  lemma CommandOfLine(buf: seq<byte>, word: seq<byte>, n: nat, args: seq<byte>)
    requires IsLine(buf, word, n, args)
    ensures ParseCommand(buf) == if word == CONNECT then ParseConnect(args) else Refused
  {
    var line := word + Spaces(n) + args;
    assert buf == line + [buf[|line|]] + buf[|line| + 1..];
    IndexOfFirst(line, buf[|line|], buf[|line| + 1..], ENDS);
    assert ENDS == {NUL, NEWLINE, RETURN};
    WordOfLine(word, n, args);
  }

  lemma WordOfLine(word: seq<byte>, n: nat, args: seq<byte>)
    requires NoneOf(word, {SPACE}) && (args != [] ==> n > 0 && args[0] != SPACE)
    ensures var line := word + Spaces(n) + args;
      var i := IndexOf(line, {SPACE});
      line[..i] == word && SkipSpaces(if i < |line| then line[i + 1..] else []) == args
  {
    var line := word + Spaces(n) + args;
    if n == 0 {
      assert line == word;
      assert IndexOf(word, {SPACE}) == |word|;
    } else {
      var rest := Spaces(n - 1) + args;
      assert line == word + [SPACE] + rest;
      IndexOfFirst(word, SPACE, rest, {SPACE});
      SpacesSkipped(n - 1, args);
    }
  }

  /** Every buffer with an end of line starts with such a line. */
  lemma LineOf(buf: seq<byte>) returns (word: seq<byte>, n: nat, args: seq<byte>)
    requires !NoneOf(buf, ENDS)
    ensures IsLine(buf, word, n, args)
  {
    var line := buf[..IndexOf(buf, ENDS)];
    var i := IndexOf(line, {SPACE});
    word := line[..i];
    if i == |line| {
      n, args := 0, [];
      assert word + Spaces(0) + args == line;
    } else {
      var m := LeadingSpaces(line[i + 1..]);
      n, args := m + 1, SkipSpaces(line[i + 1..]);
      assert Spaces(n) == [SPACE] + Spaces(m);
      assert word + Spaces(n) + args == line;
    }
  }

  /**
    A command is read exactly when the buffer holds an end of line.  It is then wanted
    exactly when its word is `connect` and its arguments, joined by semicolons, are supported
    parameters of which the last type and mode are the right ones.
   */
  lemma CommandMeaning(buf: seq<byte>, port: seq<byte>)
    ensures ParseCommand(buf) == Incomplete <==> NoneOf(buf, ENDS)
    ensures ParseCommand(buf) == Wanted(port) <==>
      exists n: nat, args: seq<byte> :: IsLine(buf, CONNECT, n, args) && ParseConnect(args) == Wanted(port)
  {
    assert ENDS == {NUL, NEWLINE, RETURN};
    if !NoneOf(buf, ENDS) {
      var word, n, args := LineOf(buf);
      CommandOfLine(buf, word, n, args);
      forall m: nat, more: seq<byte> | IsLine(buf, CONNECT, m, more) ensures ParseCommand(buf) == ParseConnect(more) {
        CommandOfLine(buf, CONNECT, m, more);
      }
    }
  }

  /** Words of the protocol are made of small letters. */
  predicate IsWord(s: seq<byte>) {
    s != [] && forall i :: 0 <= i < |s| ==> 97 <= s[i] <= 122
  }

  lemma WordsOfTheProtocol()
    ensures IsWord(CONNECT) && IsWord(TYPE) && IsWord(TGT) && IsWord(PORT) && IsWord(MODE) && IsWord(UDPSOCK) && IsWord(PACKET)
    ensures TYPE != TGT && TYPE != PORT && TYPE != MODE && TGT != PORT && TGT != MODE && PORT != MODE
    ensures |CONNECT| == 7
  {
    assert |TGT| == 3 && |TYPE| == 4 && |PORT| == 4 && |MODE| == 4;
    assert TYPE[0] == 116 && PORT[0] == 112 && MODE[0] == 109;
  }

  lemma SupportedStartsWithALetter(param: seq<byte>)
    requires Supported(param)
    ensures param != [] && 97 <= param[0] <= 122
  {
    WordsOfTheProtocol();
    assert IsWord(Key(param));
    assert param[0] == Key(param)[0];
  }

  lemma ConnectLine(args: seq<byte>, end: byte, rest: seq<byte>)
    requires end in ENDS && NoneOf(args, ENDS) && (args != [] ==> args[0] != SPACE)
    ensures ParseCommand(CONNECT + [SPACE] + args + [end] + rest) == ParseConnect(args)
  {
    WordsOfTheProtocol();
    var buf := CONNECT + [SPACE] + args + [end] + rest;
    assert Spaces(1) == [SPACE];
    var line := CONNECT + Spaces(1) + args;
    assert buf[..|line|] == line && buf[|line|] == end;
    CommandOfLine(buf, CONNECT, 1, args);
  }

  lemma JoinStarts(params: seq<seq<byte>>)
    requires params != [] && params[0] != []
    ensures Join(params) != [] && Join(params)[0] == params[0][0]
  {
  }

  /** A connect command written with these parameters is read as just that. */
  lemma ConnectIsRead(params: seq<seq<byte>>, end: byte, rest: seq<byte>)
    requires params != [] && end in ENDS && NoneOf(Join(params), ENDS)
    requires forall i :: 0 <= i < |params| ==> Supported(params[i]) && SEMICOLON !in params[i]
    ensures ParseCommand(CONNECT + [SPACE] + Join(params) + [end] + rest) ==
      if LastValue(params, TYPE) == UDPSOCK && LastValue(params, MODE) == PACKET
      then Wanted(LastValue(params, PORT)) else Refused
  {
    SupportedStartsWithALetter(params[0]);
    JoinStarts(params);
    ConnectLine(Join(params), end, rest);
    SplitOfJoin(params);
    assert Params(Join(params)) == params;
  }

  // ---------------------------------------------------------------------------
  // Reading it

  /** The variables `WrProxy::handle_connect` collects the parameters in. */
  datatype Fields = Fields(kind: seq<byte>, tgt: seq<byte>, port: seq<byte>, mode: seq<byte>)

  function FieldsOf(params: seq<seq<byte>>): Fields {
    Fields(LastValue(params, TYPE), LastValue(params, TGT),
           LastValue(params, PORT), LastValue(params, MODE))
  }

  lemma LastValueAppend(params: seq<seq<byte>>, p: seq<byte>, key: seq<byte>)
    ensures LastValue(params + [p], key) == if Key(p) == key then Val(p) else LastValue(params, key)
  {
    assert (params + [p])[..|params|] == params;
  }

  /** The chain of comparisons in the loop: nothing for an unsupported key. */
  method SetField(fields: Fields, key: seq<byte>, val: seq<byte>) returns (ok: bool, r: Fields)
    ensures ok <==> key in {TYPE, TGT, PORT, MODE}
    ensures ok ==> r == Fields(if key == TYPE then val else fields.kind, if key == TGT then val else fields.tgt,
                               if key == PORT then val else fields.port, if key == MODE then val else fields.mode)
  {
    assert |TGT| == 3 && TYPE[0] == 116 && PORT[0] == 112 && MODE[0] == 109;
    r := fields;
    ok := true;
    if key == TYPE {
      r := r.(kind := val);
    } else if key == TGT {
      r := r.(tgt := val);
    } else if key == PORT {
      r := r.(port := val);
    } else if key == MODE {
      r := r.(mode := val);
    } else {
      ok := false;
    }
  }

  lemma FieldsAppend(params: seq<seq<byte>>, p: seq<byte>)
    ensures FieldsOf(params + [p]) ==
            Fields(if Key(p) == TYPE then Val(p) else FieldsOf(params).kind,
                   if Key(p) == TGT then Val(p) else FieldsOf(params).tgt,
                   if Key(p) == PORT then Val(p) else FieldsOf(params).port,
                   if Key(p) == MODE then Val(p) else FieldsOf(params).mode)
  {
    LastValueAppend(params, p, TYPE);
    LastValueAppend(params, p, TGT);
    LastValueAppend(params, p, PORT);
    LastValueAppend(params, p, MODE);
  }

  /** One `getline` up to the next semicolon; `stream` is what is still unread. */
  method NextParam(stream: seq<byte>) returns (param: seq<byte>, unread: seq<byte>, eof: bool)
    ensures !eof ==> |unread| < |stream|
    ensures Split(stream) == if eof then [param] else [param] + Split(unread)
  {
    SplitStep(stream);
    var i := PartEnd(stream);
    eof := i == |stream|;
    if eof {
      param, unread := stream, [];
    } else {
      param, unread := stream[..i], stream[i + 1..];
    }
  }

  /** The body of the loop: read one parameter and keep its value. */
  method BindParam(stream: seq<byte>, fields: Fields, ghost done: seq<seq<byte>>)
    returns (ok: bool, bound: Fields, unread: seq<byte>, eof: bool, ghost param: seq<byte>)
    requires fields == FieldsOf(done)
    ensures !eof ==> |unread| < |stream|
    ensures Split(stream) == if eof then [param] else [param] + Split(unread)
    ensures ok <==> Supported(param)
    ensures ok ==> bound == FieldsOf(done + [param])
  {
    var p;
    p, unread, eof := NextParam(stream);
    param := p;
    var eq := IndexOf(p, {EQUALS});
    if eq == |p| {
      return false, fields, unread, eof, param;
    }
    FieldsAppend(done, p);
    ok, bound := SetField(fields, p[..eq], p[eq + 1..]);
  }

  lemma UnsupportedIsRefused(rest: seq<byte>, i: nat)
    requires i < |Params(rest)| && !Supported(Params(rest)[i])
    ensures ParseConnect(rest) == Refused
  {
  }

  lemma SupportedIsDecided(rest: seq<byte>, done: seq<seq<byte>>)
    requires Params(rest) == done && forall i :: 0 <= i < |done| ==> Supported(done[i])
    ensures var f := FieldsOf(done);
            ParseConnect(rest) == if f.kind == UDPSOCK && f.mode == PACKET then Wanted(f.port) else Refused
  {
  }

  /** `WrProxy::handle_connect` up to the check of type and mode: later parameters win. */
  method HandleConnect(rest: seq<byte>) returns (r: Parsed)
    ensures r == ParseConnect(rest)
  {
    var fields := Fields([], [], [], []);
    var cmd, eof := rest, rest == [];
    ghost var all, k := Params(rest), 0;
    while !eof
      invariant k <= |all| && (if eof then k == |all| else all[k..] == Split(cmd))
      invariant forall i :: 0 <= i < k ==> Supported(all[i])
      invariant fields == FieldsOf(all[..k])
      decreases !eof, |cmd|
    {
      var ok, bound, unread, last;
      ghost var param;
      ok, bound, unread, last, param := BindParam(cmd, fields, all[..k]);
      assert all[k] == all[k..][0] == param && all[k + 1..] == all[k..][1..];
      if !ok {
        UnsupportedIsRefused(rest, k);
        return Refused;
      }
      assert all[..k + 1] == all[..k] + [param];
      fields, cmd, eof, k := bound, unread, last, k + 1;
    }
    assert all[..k] == all;
    SupportedIsDecided(rest, all);
    return if fields.kind == UDPSOCK && fields.mode == PACKET then Wanted(fields.port) else Refused;
  }

  /** Look for the end of the command line, then for the command. */
  method ReadCommand(buf: seq<byte>) returns (r: Parsed)
    ensures r == ParseCommand(buf)
    ensures r.Incomplete? <==> NoneOf(buf, ENDS)
  {
    CommandMeaning(buf, []);
    var last := IndexOf(buf, {NUL, NEWLINE, RETURN});
    if last == |buf| {
      return Incomplete;
    }
    var line := buf[..last];
    var i := IndexOf(line, {SPACE});
    if line[..i] != CONNECT {
      return Refused;
    }
    r := HandleConnect(SkipSpaces(if i < |line| then line[i + 1..] else []));
  }
}
