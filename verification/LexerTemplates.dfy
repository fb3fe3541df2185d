/** The template literals of a lexed text nest: the tokens alone tell which substitution is open. */
module LexerTemplates {
  import opened SourceText
  import opened Lexer

  /** The open substitutions and the number of templates begun, as tokens are read; `Broken` once a
      chunk belongs to no open substitution, or a brace closes one that was not opened. */
  datatype Nest = Broken | Nest(subs: seq<Sub>, templates: nat)

  function Top(subs: seq<Sub>): Sub
    requires subs != []
  {
    subs[|subs| - 1]
  }

  function Feed(nest: Nest, token: Token): Nest {
    match nest
    case Broken => Broken
    case Nest(subs, templates) =>
      var n := |subs|;
      match token
      case Template(_, id, part) =>
        if part == Full || part == Head then
          if id != templates then Broken
          else Nest(if part == Head then subs + [Sub(id, 0)] else subs, templates + 1)
        else if n == 0 || Top(subs) != Sub(id, 0) then Broken
        else if part == Middle then nest
        else Nest(subs[..n - 1], templates)
      case Punct(text) =>
        if n == 0 then nest
        else if text == [OPEN_BRACE] then Nest(subs[n - 1 := Sub(Top(subs).id, Top(subs).braces + 1)], templates)
        else if text == [CLOSE_BRACE] then
          if Top(subs).braces == 0 then Broken
          else Nest(subs[n - 1 := Sub(Top(subs).id, Top(subs).braces - 1)], templates)
        else nest
      case _ => nest
  }

  function FeedAll(nest: Nest, tokens: seq<Token>): Nest
    decreases |tokens|
  {
    if tokens == [] then nest else FeedAll(Feed(nest, tokens[0]), tokens[1..])
  }

  lemma StepFeeds(ctx: Context, t: Text)
    requires t != []
    ensures var step := Next(ctx, t);
      && (step.piece.Tok? ==> Feed(Nest(ctx.subs, ctx.templates), step.piece.token) == Nest(step.ctx.subs, step.ctx.templates))
      && (!step.piece.Tok? ==> step.ctx == ctx)
  {
    if ClosesSubstitution(ctx, t[0]) {
      var n := |ctx.subs|;
      assert ctx.subs[..n - 1] + [Sub(Top(ctx.subs).id, 0)] == ctx.subs;
    }
  }

  /** The context the lexer is in once it has read a text. */
  function After(ctx: Context, t: Text): Context
    decreases |t|
  {
    if t == [] then ctx
    else
      NextTakesPrefix(ctx, t);
      var step := Next(ctx, t);
      After(step.ctx, t[|step.piece.text|..])
  }

  /** Of any text, the tokens nest, and the substitutions open at its end are the lexer's own. */
  lemma {:induction false} TokensNest(ctx: Context, t: Text)
    ensures FeedAll(Nest(ctx.subs, ctx.templates), TokensOf(Pieces(ctx, t)))
         == Nest(After(ctx, t).subs, After(ctx, t).templates)
    decreases |t|
  {
    if t != [] {
      NextTakesPrefix(ctx, t);
      var step := Next(ctx, t);
      var rest := t[|step.piece.text|..];
      StepFeeds(ctx, t);
      TokensNest(step.ctx, rest);
      var tokens := TokensOf(Pieces(ctx, t));
      assert Pieces(ctx, t)[1..] == Pieces(step.ctx, rest);
      if step.piece.Tok? {
        assert tokens == [step.piece.token] + TokensOf(Pieces(step.ctx, rest));
        assert tokens[1..] == TokensOf(Pieces(step.ctx, rest));
      } else {
        assert tokens == TokensOf(Pieces(step.ctx, rest));
      }
    }
  }

  /** Ids of open substitutions rise from the outermost in, below those not yet given. */
  ghost predicate Rising(nest: Nest) {
    nest.Nest? ==>
      && (forall i :: 0 <= i < |nest.subs| ==> nest.subs[i].id < nest.templates)
      && (forall i, j :: 0 <= i < j < |nest.subs| ==> nest.subs[i].id < nest.subs[j].id)
  }

  lemma FeedRises(nest: Nest, token: Token)
    requires Rising(nest)
    ensures Rising(Feed(nest, token))
  {
  }

  lemma {:induction false} FeedAllRises(nest: Nest, tokens: seq<Token>)
    requires Rising(nest)
    ensures Rising(FeedAll(nest, tokens))
    decreases |tokens|
  {
    if tokens != [] {
      FeedRises(nest, tokens[0]);
      FeedAllRises(Feed(nest, tokens[0]), tokens[1..]);
    }
  }

  lemma {:induction false} FeedAllAppend(nest: Nest, a: seq<Token>, b: seq<Token>)
    ensures FeedAll(nest, a + b) == FeedAll(FeedAll(nest, a), b)
    decreases |a|
  {
    if a == [] {
      assert a + b == b;
    } else {
      assert (a + b)[0] == a[0] && (a + b)[1..] == a[1..] + b;
      FeedAllAppend(Feed(nest, a[0]), a[1..], b);
    }
  }

  lemma {:induction false} BrokenStaysBroken(tokens: seq<Token>)
    ensures FeedAll(Broken, tokens) == Broken
    decreases |tokens|
  {
    if tokens != [] {
      BrokenStaysBroken(tokens[1..]);
    }
  }

  // ----- Between two chunks of one template

  predicate OfTemplate(token: Token, id: nat) {
    token.Template? && token.id == id
  }

  /** Braces opened less braces closed. */
  function Balance(tokens: seq<Token>): int {
    if tokens == [] then 0
    else
      var first := if tokens[0] == Punct([OPEN_BRACE]) then 1 else if tokens[0] == Punct([CLOSE_BRACE]) then -1 else 0;
      first + Balance(tokens[1..])
  }

  function Braces(subs: seq<Sub>): nat {
    if subs == [] then 0 else Braces(subs[..|subs| - 1]) + Top(subs).braces
  }

  /** Inside the substitution of `id`, the ones open before it unchanged. */
  ghost predicate Inside(nest: Nest, base: seq<Sub>, id: nat) {
    && nest.Nest? && Rising(nest)
    && |base| < |nest.subs| && nest.subs[..|base|] == base && nest.subs[|base|].id == id
  }

  lemma FeedStaysInside(nest: Nest, token: Token, base: seq<Sub>, id: nat)
    requires Inside(nest, base, id) && !OfTemplate(token, id) && Feed(nest, token).Nest?
    ensures Inside(Feed(nest, token), base, id)
    ensures Braces(Feed(nest, token).subs) == Braces(nest.subs) + Balance([token])
  {
    hide Rising;
    hide Braces;
    FeedRises(nest, token);
    assert [token][1..] == [];
    var subs, after := nest.subs, Feed(nest, token).subs;
    if after != subs {
      if |after| > |subs| {
        Pushed(subs, after, |base|);
      } else if |after| < |subs| {
        Popped(subs, after, |base|);
      } else {
        Retopped(subs, after, |base|);
      }
    }
  }

  lemma Pushed(subs: seq<Sub>, after: seq<Sub>, k: nat)
    requires k < |subs| && after != [] && after == subs + [Top(after)]
    ensures after[..k] == subs[..k] && after[k] == subs[k] && Braces(after) == Braces(subs) + Top(after).braces
  {
    assert after[..|after| - 1] == subs;
  }

  lemma Popped(subs: seq<Sub>, after: seq<Sub>, k: nat)
    requires k < |subs| - 1 && after == subs[..|subs| - 1]
    ensures after[..k] == subs[..k] && after[k] == subs[k] && Braces(after) == Braces(subs) - Top(subs).braces
  {
  }

  lemma Retopped(subs: seq<Sub>, after: seq<Sub>, k: nat)
    requires k < |subs| == |after| && after == subs[|subs| - 1 := Top(after)] && Top(after).id == Top(subs).id
    ensures after[..k] == subs[..k] && after[k].id == subs[k].id
    ensures Braces(after) == Braces(subs) - Top(subs).braces + Top(after).braces
  {
    assert after[..|after| - 1] == subs[..|subs| - 1];
  }

  lemma {:induction false} StaysInside(nest: Nest, tokens: seq<Token>, base: seq<Sub>, id: nat)
    requires Inside(nest, base, id)
    requires forall token :: token in tokens ==> !OfTemplate(token, id)
    requires FeedAll(nest, tokens).Nest?
    ensures Inside(FeedAll(nest, tokens), base, id)
    ensures Braces(FeedAll(nest, tokens).subs) == Braces(nest.subs) + Balance(tokens)
    decreases |tokens|
  {
    if tokens != [] {
      var after := Feed(nest, tokens[0]);
      BrokenStaysBroken(tokens[1..]);
      FeedStaysInside(nest, tokens[0], base, id);
      StaysInside(after, tokens[1..], base, id);
      assert [tokens[0]][1..] == [];
    }
  }

  /** What is open after the first `k` tokens. */
  function At(tokens: seq<Token>, k: nat): Nest
    requires k <= |tokens|
  {
    FeedAll(Nest([], 0), tokens[..k])
  }

  lemma AtFeeds(tokens: seq<Token>, j: nat, k: nat)
    requires j <= k <= |tokens|
    ensures At(tokens, k) == FeedAll(At(tokens, j), tokens[j..k])
    ensures k == j + 1 ==> At(tokens, k) == Feed(At(tokens, j), tokens[j])
    ensures At(tokens, k).Nest? ==> At(tokens, j).Nest?
    ensures Rising(At(tokens, k))
  {
    assert tokens[..k] == tokens[..j] + tokens[j..k];
    FeedAllAppend(Nest([], 0), tokens[..j], tokens[j..k]);
    BrokenStaysBroken(tokens[j..k]);
    FeedAllRises(Nest([], 0), tokens[..k]);
    if k == j + 1 {
      assert tokens[j..k] == [tokens[j]] && [tokens[j]][1..] == [];
    }
  }

  lemma ClosesInside(entered: Nest, between: seq<Token>, last: Token, id: nat)
    requires entered.Nest? && Rising(entered) && entered.subs != [] && Top(entered.subs) == Sub(id, 0)
    requires forall token :: token in between ==> !OfTemplate(token, id)
    requires OfTemplate(last, id)
    requires FeedAll(entered, between).Nest? && Feed(FeedAll(entered, between), last).Nest?
    ensures (last.part == Middle || last.part == Tail) && Balance(between) == 0
  {
    var n := |entered.subs|;
    var base := entered.subs[..n - 1];
    StaysInside(entered, between, base, id);
    var inside := FeedAll(entered, between);
    assert inside.subs[n - 1].id == id;
    var m := |inside.subs|;
    assert Top(inside.subs) == Sub(id, 0);
    assert m == n;
    assert inside.subs[..n - 1] == base;
  }

  /** The tokens of a text nest to the end. */
  ghost predicate Nested(tokens: seq<Token>) {
    At(tokens, |tokens|).Nest?
  }

  /** `open` opens a substitution, and `close` is the next chunk of its template. */
  ghost predicate NextChunk(tokens: seq<Token>, open: nat, close: nat) {
    && open < close < |tokens|
    && tokens[open].Template? && (tokens[open].part == Head || tokens[open].part == Middle)
    && OfTemplate(tokens[close], tokens[open].id)
    && forall k :: open < k < close ==> !OfTemplate(tokens[k], tokens[open].id)
  }

  lemma LexedTokensNest(t: Text)
    ensures Nested(TokensOf(Pieces(START, t)))
    ensures At(TokensOf(Pieces(START, t)), |TokensOf(Pieces(START, t))|).subs == After(START, t).subs
  {
    var tokens := TokensOf(Pieces(START, t));
    TokensNest(START, t);
    assert tokens[..|tokens|] == tokens;
  }

  lemma Enters(nest: Nest, token: Token)
    requires token.Template? && (token.part == Head || token.part == Middle) && Feed(nest, token).Nest?
    ensures var entered := Feed(nest, token); entered.subs != [] && Top(entered.subs) == Sub(token.id, 0)
  {
  }

  /** A chunk that opens a substitution, and the next chunk of the same template: the tokens between
      them are brace-balanced, and the next chunk is the one that closes that substitution. */
  lemma NextChunkCloses(tokens: seq<Token>, open: nat, close: nat)
    requires Nested(tokens) && NextChunk(tokens, open, close)
    ensures tokens[close].part == Middle || tokens[close].part == Tail
    ensures Balance(tokens[open + 1..close]) == 0
  {
    hide Feed;
    hide FeedAll;
    hide Balance;
    hide Rising;
    AtFeeds(tokens, close + 1, |tokens|);
    AtFeeds(tokens, close, close + 1);
    AtFeeds(tokens, open + 1, close);
    AtFeeds(tokens, open, open + 1);
    var entered := At(tokens, open + 1);
    Enters(At(tokens, open), tokens[open]);
    var between := tokens[open + 1..close];
    forall token | token in between ensures !OfTemplate(token, tokens[open].id) {
      var k :| 0 <= k < |between| && between[k] == token;
      assert tokens[open + 1 + k] == token;
    }
    ClosesInside(entered, between, tokens[close], tokens[open].id);
  }

  /** The scan of the key sweep for the next chunk of the template that a head begins: what it finds
      closes the head's substitution; when it finds none, the text ends inside that substitution. */
  method FindChunk(tokens: seq<Token>, head: nat) returns (close: nat)
    requires Nested(tokens) && head < |tokens| && tokens[head].Template? && tokens[head].part == Head
    ensures head < close <= |tokens|
    ensures close < |tokens| ==>
      && NextChunk(tokens, head, close)
      && (tokens[close].part == Middle || tokens[close].part == Tail)
      && Balance(tokens[head + 1..close]) == 0
    ensures close == |tokens| ==>
      exists i :: 0 <= i < |At(tokens, |tokens|).subs| && At(tokens, |tokens|).subs[i].id == tokens[head].id
  {
    var id := tokens[head].id;
    close := head + 1;
    while close < |tokens| && !OfTemplate(tokens[close], id)
      invariant head < close <= |tokens|
      invariant forall k :: head < k < close ==> !OfTemplate(tokens[k], id)
    {
      close := close + 1;
    }
    if close < |tokens| {
      NextChunkCloses(tokens, head, close);
    } else {
      StillInside(tokens, head);
    }
  }

  lemma StillInside(tokens: seq<Token>, head: nat)
    requires Nested(tokens) && head < |tokens| && tokens[head].Template? && tokens[head].part == Head
    requires forall k :: head < k < |tokens| ==> !OfTemplate(tokens[k], tokens[head].id)
    ensures exists i :: 0 <= i < |At(tokens, |tokens|).subs| && At(tokens, |tokens|).subs[i].id == tokens[head].id
  {
    AtFeeds(tokens, head + 1, |tokens|);
    AtFeeds(tokens, head, head + 1);
    var before, entered := At(tokens, head), At(tokens, head + 1);
    assert before.Nest? && entered.subs == before.subs + [Sub(tokens[head].id, 0)];
    assert entered.subs[..|before.subs|] == before.subs;
    StaysInside(entered, tokens[head + 1..|tokens|], before.subs, tokens[head].id);
    assert At(tokens, |tokens|).subs[|before.subs|].id == tokens[head].id;
  }
}
