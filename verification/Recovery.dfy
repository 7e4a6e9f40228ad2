/**
  * Where the parser goes on after an error: which tokens it skips.
  */
module Recovery {
  import opened Tokens
  import opened Grammar

  predicate IsOpener(t: Token) {
    t in {LParen, LSquare, LBrace, Question}
  }

  /**
    * Skipping in one pass over the tokens, with the sets of tokens waited for by the
    * brackets that are open.  A closing token ends every wait for it at once.
    */
  function Scan(ts: seq<Token>, waits: seq<set<Token>>): (rest: seq<Token>)
    requires waits != []
    decreases |ts|, |waits|
  {
    var t := Peek(ts);
    if t == Eof then ts
    else if IsOpener(t) then Scan(ts[1..], [{Closer(t)}] + waits)
    else if IsCloser(t) && t in waits[0] then (if |waits| == 1 then ts else Scan(ts, waits[1..]))
    else Scan(ts[1..], waits)
  }

  /** One skip for every wait, the innermost first. */
  function Unwind(ts: seq<Token>, waits: seq<set<Token>>): seq<Token>
    decreases |waits|
  {
    if waits == [] then ts else Unwind(SkipUntil(ts, waits[0]), waits[1..])
  }

  lemma {:induction false} UnwindEnds(ts: seq<Token>, waits: seq<set<Token>>)
    requires Peek(ts) == Eof
    ensures Unwind(ts, waits) == ts
    decreases |waits|
  {
    if waits != [] {
      UnwindEnds(ts, waits[1..]);
    }
  }

  lemma {:induction false} ScanUnwinds(ts: seq<Token>, waits: seq<set<Token>>)
    requires waits != []
    ensures Scan(ts, waits) == Unwind(ts, waits)
    decreases |ts|, |waits|
  {
    var t := Peek(ts);
    if t == Eof {
      UnwindEnds(ts, waits);
    } else if IsOpener(t) {
      var more := [{Closer(t)}] + waits;
      assert more[0] == {Closer(t)} && more[1..] == waits;
      ScanUnwinds(ts[1..], more);
      assert Unwind(ts[1..], more) == Unwind(SkipUntil(ts[1..], {Closer(t)}), waits);
    } else if IsCloser(t) && t in waits[0] {
      if |waits| > 1 {
        ScanUnwinds(ts, waits[1..]);
      }
    } else {
      ScanUnwinds(ts[1..], waits);
    }
  }

  /** The nested skips of the parser are this one pass. */
  lemma SkipScans(ts: seq<Token>, stops: set<Token>)
    ensures SkipUntil(ts, stops) == Scan(ts, [stops])
  {
    ScanUnwinds(ts, [stops]);
  }

  // -------------------------------------------------------------------------- brackets

  /** A token, or a group in brackets. */
  datatype Chunk = One(token: Token) | Nested(open: Token, inner: seq<Chunk>)

  function Spelled(c: Chunk): seq<Token> {
    match c
    case One(t) => [t]
    case Nested(o, inner) => [o] + SpelledAll(inner) + [Closer(o)]
  }

  function SpelledAll(cs: seq<Chunk>): seq<Token> {
    if cs == [] then [] else Spelled(cs[0]) + SpelledAll(cs[1..])
  }

  /** No token that is waited for outside the groups, and no group right inside one of its own kind. */
  predicate Passable(c: Chunk, stops: set<Token>) {
    match c
    case One(t) => t != Eof && !IsOpener(t) && !(IsCloser(t) && t in stops)
    case Nested(o, inner) => IsOpener(o) && Closer(o) !in stops && PassableAll(inner, {Closer(o)})
  }

  predicate PassableAll(cs: seq<Chunk>, stops: set<Token>) {
    cs == [] || (Passable(cs[0], stops) && PassableAll(cs[1..], stops))
  }

  lemma {:induction false} ChunkPassed(c: Chunk, rest: seq<Token>, stops: set<Token>)
    requires Passable(c, stops)
    ensures SkipUntil(Spelled(c) + rest, stops) == SkipUntil(rest, stops)
    decreases c, 0
  {
    match c
    case One(t) => assert ([t] + rest)[1..] == rest;
    case Nested(o, inner) =>
      var close := [Closer(o)] + rest;
      var ts := Spelled(c) + rest;
      assert ts[0] == o && ts[1..] == SpelledAll(inner) + close;
      ChunksPassed(inner, close, {Closer(o)});
      assert Peek(close) == Closer(o) && close[1..] == rest;
      assert SkipUntil(close, {Closer(o)}) == close;
      assert SkipUntil(ts, stops) == SkipUntil(close, stops);
  }

  /** Whole groups are skipped, and nothing of them is taken for the token that is waited for. */
  lemma {:induction false} ChunksPassed(cs: seq<Chunk>, rest: seq<Token>, stops: set<Token>)
    requires PassableAll(cs, stops)
    ensures SkipUntil(SpelledAll(cs) + rest, stops) == SkipUntil(rest, stops)
    decreases cs
  {
    if cs == [] {
      assert SpelledAll(cs) + rest == rest;
    } else {
      assert SpelledAll(cs) + rest == Spelled(cs[0]) + (SpelledAll(cs[1..]) + rest);
      ChunkPassed(cs[0], SpelledAll(cs[1..]) + rest, stops);
      ChunksPassed(cs[1..], rest, stops);
    }
  }

  /** After passable groups the parser goes on at the token it waits for; a missing bracket is taken if it is the one found. */
  lemma RecoversAt(cs: seq<Chunk>, bracket: Token, found: Token, rest: seq<Token>)
    requires PassableAll(cs, {bracket, Semicolon}) && IsCloser(bracket) && (found == bracket || found == Semicolon)
    ensures Recover(SpelledAll(cs) + [found] + rest, bracket) == if found == bracket then rest else [found] + rest
  {
    assert SpelledAll(cs) + [found] + rest == SpelledAll(cs) + ([found] + rest);
    ChunksPassed(cs, [found] + rest, {bracket, Semicolon});
    assert Peek([found] + rest) == found && ([found] + rest)[1..] == rest;
    assert SkipUntil([found] + rest, {bracket, Semicolon}) == [found] + rest;
  }

  /**
    * A bracket inside one of its own kind ends both: of `( ( ) ; )` the semicolon between
    * the brackets is taken for the end of the statement.
    */
  lemma NestedEndsBoth(rest: seq<Token>)
    ensures SkipUntil([LParen, LParen, RParen, Semicolon, RParen] + rest, {Semicolon}) == [Semicolon, RParen] + rest
  {
    var ts := [LParen, LParen, RParen, Semicolon, RParen] + rest;
    assert ts[1..][1..] == [RParen, Semicolon, RParen] + rest;
    assert ts[2..][1..] == [Semicolon, RParen] + rest;
    assert SkipUntil(ts[2..], {RParen}) == ts[2..];
    assert SkipUntil(ts[1..], {RParen}) == ts[2..];
    assert SkipUntil(ts[3..], {Semicolon}) == ts[3..];
    assert SkipUntil(ts[2..], {Semicolon}) == ts[3..];
  }
}
