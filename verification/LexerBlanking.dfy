/** Blanking the comments of a text changes none of its tokens, exactly as long as no literal the
    lexer gave up on is closed by it. */
module LexerBlanking {
  import opened Options
  import opened SourceText
  import opened Lexer

  // ----- A scan that stops inside a common prefix stops there in both texts

  lemma {:induction false} QuoteEndLocal(t: Text, b: Text, quote: Unit, j: nat)
    requires var e := QuoteEnd(t, quote, j);
      e < |t| && t[e] == quote && e < |b| && t[..e + 1] == b[..e + 1]
    ensures QuoteEnd(b, quote, j) == QuoteEnd(t, quote, j)
    decreases |t| - j
  {
    var e := QuoteEnd(t, quote, j);
    if j < e {
      assert t[j] == t[..e + 1][j] == b[..e + 1][j] == b[j];
      QuoteEndLocal(t, b, quote, j + if t[j] == BACKSLASH then 2 else 1);
    } else {
      assert b[e] == b[..e + 1][e] == t[..e + 1][e];
    }
  }

  lemma {:induction false} ChunkEndLocal(t: Text, b: Text, j: nat, k: nat)
    requires var e := ChunkEnd(t, j);
      e < |t| && e < k <= |t| && k <= |b| && t[..k] == b[..k] && (t[e] == BACKTICK || e + 1 < k)
    ensures ChunkEnd(b, j) == ChunkEnd(t, j)
    decreases |t| - j
  {
    var e := ChunkEnd(t, j);
    assert t[j] == t[..k][j] == b[..k][j] == b[j];
    if j + 1 < k {
      assert t[j + 1] == t[..k][j + 1] == b[..k][j + 1] == b[j + 1];
    }
    if t[j] == BACKSLASH {
      ChunkEndLocal(t, b, j + 2, k);
    } else if j < e {
      ChunkEndLocal(t, b, j + 1, k);
    }
  }

  lemma {:induction false} LettersEndLocal(t: Text, b: Text, j: nat)
    requires j <= |t|
    requires var e := LettersEnd(t, j);
      e <= |b| && t[..e] == b[..e] && (e == |b| || !IsLetter(b[e]))
    ensures LettersEnd(b, j) == LettersEnd(t, j)
    decreases |t| - j
  {
    var e := LettersEnd(t, j);
    if j < e {
      assert t[j] == t[..e][j] == b[..e][j] == b[j];
      LettersEndLocal(t, b, j + 1);
    }
  }

  lemma {:induction false} IdentEndLocal(t: Text, b: Text, j: nat)
    requires j <= |t|
    requires var e := IdentEnd(t, j);
      e <= |b| && t[..e] == b[..e] && (e == |b| || !IsIdentPart(b[e]))
    ensures IdentEnd(b, j) == IdentEnd(t, j)
    decreases |t| - j
  {
    var e := IdentEnd(t, j);
    if j < e {
      assert t[j] == t[..e][j] == b[..e][j] == b[j];
      IdentEndLocal(t, b, j + 1);
    }
  }

  lemma {:induction false} NumberEndLocal(t: Text, b: Text, j: nat)
    requires j <= |t|
    requires var e := NumberEnd(t, j);
      e <= |b| && t[..e] == b[..e] && (e == |b| || !IsNumberPart(b[e]))
    ensures NumberEnd(b, j) == NumberEnd(t, j)
    decreases |t| - j
  {
    var e := NumberEnd(t, j);
    if j < e {
      assert t[j] == t[..e][j] == b[..e][j] == b[j];
      NumberEndLocal(t, b, j + 1);
    }
  }

  lemma {:induction false} RegexEndLocal(t: Text, b: Text, j: nat, inClass: bool)
    requires var e := RegexEnd(t, j, inClass);
      e > 0 && e <= |b| && t[..e] == b[..e] && (e == |b| || !IsLetter(b[e]))
    ensures RegexEnd(b, j, inClass) == RegexEnd(t, j, inClass)
    decreases |t| - j
  {
    var e := RegexEnd(t, j, inClass);
    assert t[j] == t[..e][j] == b[..e][j] == b[j];
    if t[j] == BACKSLASH {
      RegexEndLocal(t, b, j + 2, inClass);
    } else if t[j] == OPEN_BRACKET {
      RegexEndLocal(t, b, j + 1, true);
    } else if t[j] == CLOSE_BRACKET {
      RegexEndLocal(t, b, j + 1, false);
    } else if t[j] == SLASH && !inClass {
      LettersEndLocal(t, b, j + 1);
    } else {
      RegexEndLocal(t, b, j + 1, inClass);
    }
  }

  // ----- Where a scan stops, its class ends

  lemma {:induction false} LettersStop(t: Text, j: nat)
    requires j <= |t|
    ensures var e := LettersEnd(t, j);
      e < |t| ==> !IsLetter(t[e])
    decreases |t| - j
  {
    if j < |t| && IsLetter(t[j]) {
      LettersStop(t, j + 1);
    }
  }

  lemma {:induction false} IdentStops(t: Text, j: nat)
    requires j <= |t|
    ensures var e := IdentEnd(t, j);
      e < |t| ==> !IsIdentPart(t[e])
    decreases |t| - j
  {
    if j < |t| && IsIdentPart(t[j]) {
      IdentStops(t, j + 1);
    }
  }

  lemma {:induction false} NumberStops(t: Text, j: nat)
    requires j <= |t|
    ensures var e := NumberEnd(t, j);
      e < |t| ==> !IsNumberPart(t[e])
    decreases |t| - j
  {
    if j < |t| && IsNumberPart(t[j]) {
      NumberStops(t, j + 1);
    }
  }

  lemma {:induction false} RegexStops(t: Text, j: nat, inClass: bool)
    ensures var e := RegexEnd(t, j, inClass);
      0 < e < |t| ==> !IsLetter(t[e])
    decreases |t| - j
  {
    if j < |t| && t[j] != NEWLINE {
      if t[j] == BACKSLASH {
        RegexStops(t, j + 2, inClass);
      } else if t[j] == OPEN_BRACKET {
        RegexStops(t, j + 1, true);
      } else if t[j] == CLOSE_BRACKET {
        RegexStops(t, j + 1, false);
      } else if t[j] == SLASH && !inClass {
        LettersStop(t, j + 1);
      } else {
        RegexStops(t, j + 1, inClass);
      }
    }
  }

  // ----- One step on the blanked text

  /** A quote or a `/` read as a literal's start whose literal does not close: taken alone. */
  predicate FallsBack(ctx: Context, t: Text)
    requires t != []
  {
    || (IsQuote(t[0]) && !QuoteCloses(t, t[0]))
    || (t[0] == SLASH && !StartsComment(t) && RegexAllowed(ctx.prev) && RegexEnd(t, 1, false) == 0)
  }

  /** What blanking may do to the text after a piece: nothing to its first unit, or turn the start
      of a comment into a space. */
  ghost predicate Beside(rest: Text, blank: Text) {
    && (rest == [] <==> blank == [])
    && (rest != [] ==> blank[0] == rest[0] || (StartsComment(rest) && blank[0] == SPACE))
  }

  lemma BlankedBeside(ctx: Context, t: Text)
    ensures Beside(t, Blanked(Pieces(ctx, t)))
  {
    if t != [] {
      NextTakesPrefix(ctx, t);
      var pieces := Pieces(ctx, t);
      assert pieces[0] == Next(ctx, t).piece;
    }
  }

  /** Away from the fallback arms, a step depends on no more than its own text and a unit beside it. */
  lemma NextLocal(ctx: Context, t: Text, blank: Text)
    requires t != [] && !StartsComment(t) && !FallsBack(ctx, t)
    requires var text := Next(ctx, t).piece.text;
      |text| <= |t| && Beside(t[|text|..], blank)
    ensures Next(ctx, Next(ctx, t).piece.text + blank) == Next(ctx, t)
  {
    NextTakesPrefix(ctx, t);
    var text := Next(ctx, t).piece.text;
    var k := |text|;
    var b := text + blank;
    assert b[..k] == text == t[..k] && b[0] == t[0];
    var u := t[0];
    if IsSpace(u) {
    } else if IsQuote(u) {
      QuoteEndLocal(t, b, u, 1);
      assert t[1..k - 1] == t[..k][1..k - 1] == b[..k][1..k - 1] == b[1..k - 1];
    } else if u == BACKTICK || ClosesSubstitution(ctx, u) {
      ChunkEndStops(t, 1);
      ChunkLocal(t, b, k);
    } else {
      OtherLocal(ctx, t, blank);
    }
  }

  lemma ChunkLocal(t: Text, b: Text, k: nat)
    requires t != [] && 0 < k <= |t| && k <= |b| && t[..k] == b[..k]
    requires var j := ChunkEnd(t, 1);
      k == if j >= |t| then |t| else if t[j] == BACKTICK then j + 1 else j + 2
    requires k == |t| ==> |b| == k
    ensures ChunkEnd(b, 1) == ChunkEnd(t, 1)
    ensures forall ctx, id, first :: ChunkStep(ctx, t, id, first) == ChunkStep(ctx, b, id, first)
  {
    ChunkEndStops(t, 1);
    var j := ChunkEnd(t, 1);
    if j >= |t| {
      assert b == b[..k] == t[..k] == t;
    } else {
      ChunkEndLocal(t, b, 1, k);
      assert t[1..j] == t[..k][1..j] == b[..k][1..j] == b[1..j];
      assert t[j] == t[..k][j] == b[..k][j] == b[j];
    }
  }

  lemma OtherLocal(ctx: Context, t: Text, blank: Text)
    requires t != [] && !StartsComment(t) && !FallsBack(ctx, t)
    requires !IsSpace(t[0]) && !IsQuote(t[0]) && t[0] != BACKTICK && !ClosesSubstitution(ctx, t[0])
    requires var text := Next(ctx, t).piece.text;
      |text| <= |t| && text == t[..|text|] && Beside(t[|text|..], blank)
    ensures Next(ctx, Next(ctx, t).piece.text + blank) == Next(ctx, t)
  {
    var text := Next(ctx, t).piece.text;
    var k := |text|;
    var b := text + blank;
    assert b[..k] == text && (k < |t| ==> t[k..][0] == t[k]) && (k < |b| ==> blank[0] == b[k]);
    assert k > 0;
    assert b[0] == t[0];
    if t[0] == SLASH && RegexAllowed(ctx.prev) {
      RegexStops(t, 1, false);
      RegexEndLocal(t, b, 1, false);
      assert k > 1 ==> b[1] == t[1];
    } else if IsIdentStart(t[0]) {
      IdentStops(t, 1);
      IdentEndLocal(t, b, 1);
    } else if IsDigit(t[0]) {
      NumberStops(t, 1);
      NumberEndLocal(t, b, 1);
    }
  }

  // ----- The whole text

  /** Every literal the lexer gives up on is still open once the comments after it are blanked. */
  ghost predicate StaysOpen(ctx: Context, t: Text)
    decreases |t|
  {
    t == [] ||
    (NextTakesPrefix(ctx, t);
     var step := Next(ctx, t);
     && (FallsBack(ctx, t) ==> FallsBack(ctx, Blanked(Pieces(ctx, t))))
     && StaysOpen(step.ctx, t[|step.piece.text|..]))
  }

  /** No literal is given up on at all. */
  ghost predicate NeverFallsBack(ctx: Context, t: Text)
    decreases |t|
  {
    t == [] ||
    (NextTakesPrefix(ctx, t);
     var step := Next(ctx, t);
     !FallsBack(ctx, t) && NeverFallsBack(step.ctx, t[|step.piece.text|..]))
  }

  /** A token differs from another at the head of two token lists: the lists differ. */
  lemma FallbackSplits(ctx: Context, t: Text, b: Text)
    requires t != [] && FallsBack(ctx, t) && b != [] && b[0] == t[0] && !StartsComment(b) && !FallsBack(ctx, b)
    ensures Next(ctx, b).piece.Tok? && Next(ctx, t).piece.Tok?
    ensures Next(ctx, b).piece.token != Next(ctx, t).piece.token
  {
  }

  lemma FallbackAlone(ctx: Context, t: Text)
    requires t != [] && FallsBack(ctx, t)
    ensures Next(ctx, t) == Emit(ctx, Punct([t[0]]), [t[0]]) && !StartsComment(t)
  {
  }

  lemma FirstToken(ctx: Context, t: Text)
    requires t != []
    ensures var step := Next(ctx, t);
      |step.piece.text| <= |t| &&
      TokensOf(Pieces(ctx, t)) ==
      (if step.piece.Tok? then [step.piece.token] else []) + TokensOf(Pieces(step.ctx, t[|step.piece.text|..]))
  {
    NextTakesPrefix(ctx, t);
    var step := Next(ctx, t);
    assert Pieces(ctx, t)[1..] == Pieces(step.ctx, t[|step.piece.text|..]);
  }

  lemma FirstBlanked(ctx: Context, t: Text)
    requires t != []
    ensures var step := Next(ctx, t);
      |step.piece.text| <= |t| &&
      Blanked(Pieces(ctx, t)) ==
      (if step.piece.Comment? then [SPACE] else step.piece.text) + Blanked(Pieces(step.ctx, t[|step.piece.text|..]))
  {
    NextTakesPrefix(ctx, t);
    var step := Next(ctx, t);
    assert Pieces(ctx, t)[1..] == Pieces(step.ctx, t[|step.piece.text|..]);
  }

  /** The step the lexer takes on the blanked text, where the two texts still agree. */
  lemma BlankedStep(ctx: Context, t: Text)
    requires t != []
    requires FallsBack(ctx, t) ==> Blanked(Pieces(ctx, t)) != [] && FallsBack(ctx, Blanked(Pieces(ctx, t)))
    ensures var step, b := Next(ctx, t), Blanked(Pieces(ctx, t));
      && |step.piece.text| <= |t| && b != []
      && var again := Next(ctx, b);
      && again.ctx == step.ctx
      && again.piece == (if step.piece.Comment? then Space([SPACE]) else step.piece)
      && |again.piece.text| <= |b|
      && b[|again.piece.text|..] == Blanked(Pieces(step.ctx, t[|step.piece.text|..]))
  {
    hide Next;
    hide Pieces;
    hide Blanked;
    hide FallsBack;
    NextTakesPrefix(ctx, t);
    FirstBlanked(ctx, t);
    CommentKept(ctx, t);
    var step, b := Next(ctx, t), Blanked(Pieces(ctx, t));
    var blank := Blanked(Pieces(step.ctx, t[|step.piece.text|..]));
    BlankedBeside(step.ctx, t[|step.piece.text|..]);
    if step.piece.Comment? {
      assert b == [SPACE] + blank;
      SpaceTaken(ctx, b);
      assert b[1..] == blank;
    } else {
      var text := step.piece.text;
      assert b == text + blank && b[|text|..] == blank;
      if FallsBack(ctx, t) {
        FallbackAlone(ctx, t);
        assert b[0] == t[0];
        FallbackAlone(ctx, b);
      } else {
        NextLocal(ctx, t, blank);
      }
    }
  }

  lemma CommentKept(ctx: Context, t: Text)
    requires t != []
    ensures Next(ctx, t).piece.Comment? <==> StartsComment(t)
    ensures StartsComment(t) ==> Next(ctx, t).ctx == ctx
  {
  }

  lemma SpaceTaken(ctx: Context, t: Text)
    requires t != [] && t[0] == SPACE
    ensures Next(ctx, t) == Step(Space([SPACE]), ctx)
  {
  }

  /** Lexing the blanked text gives the same tokens if and only if every literal the lexer gave up
      on stays open in it. */
  lemma {:induction false} SameTokensIffStaysOpen(ctx: Context, t: Text)
    ensures TokensOf(Pieces(ctx, Blanked(Pieces(ctx, t)))) == TokensOf(Pieces(ctx, t)) <==> StaysOpen(ctx, t)
    decreases |t|
  {
    var b := Blanked(Pieces(ctx, t));
    if t != [] {
      NextTakesPrefix(ctx, t);
      var step := Next(ctx, t);
      var rest := t[|step.piece.text|..];
      FirstToken(ctx, t);
      FirstBlanked(ctx, t);
      if FallsBack(ctx, t) && !FallsBack(ctx, b) {
        FallbackAlone(ctx, t);
        BlankedBeside(step.ctx, rest);
        assert b[0] == t[0] && (|b| > 1 ==> b[1] == Blanked(Pieces(step.ctx, rest))[0]);
        assert |t| > 1 ==> t[1] == rest[0];
        FallbackSplits(ctx, t, b);
        FirstToken(ctx, b);
        assert TokensOf(Pieces(ctx, b))[0] != TokensOf(Pieces(ctx, t))[0];
      } else {
        BlankedStep(ctx, t);
        FirstToken(ctx, b);
        SameTokensIffStaysOpen(step.ctx, rest);
        SameHead(if step.piece.Tok? then [step.piece.token] else [],
                 TokensOf(Pieces(step.ctx, Blanked(Pieces(step.ctx, rest)))), TokensOf(Pieces(step.ctx, rest)));
      }
    }
  }

  lemma SameHead(head: seq<Token>, a: seq<Token>, b: seq<Token>)
    ensures head + a == head + b <==> a == b
  {
    if head + a == head + b {
      assert a == (head + a)[|head|..] == (head + b)[|head|..] == b;
    }
  }

  lemma {:induction false} NeverFallsBackStaysOpen(ctx: Context, t: Text)
    requires NeverFallsBack(ctx, t)
    ensures StaysOpen(ctx, t)
    decreases |t|
  {
    if t != [] {
      NextTakesPrefix(ctx, t);
      var step := Next(ctx, t);
      NeverFallsBackStaysOpen(step.ctx, t[|step.piece.text|..]);
    }
  }

  /** Where every literal closes, blanking the comments changes no token. */
  lemma BlankingKeepsTokens(t: Text)
    requires NeverFallsBack(START, t)
    ensures TokensOf(Pieces(START, Blanked(Pieces(START, t)))) == TokensOf(Pieces(START, t))
  {
    NeverFallsBackStaysOpen(START, t);
    SameTokensIffStaysOpen(START, t);
  }

  /** An apostrophe, a comment over two lines, an apostrophe: two punctuators, and once the comment
      is blanked one string. */
  lemma BlankingMayCloseALiteral()
    ensures var t := [APOSTROPHE, SLASH, STAR, NEWLINE, STAR, SLASH, APOSTROPHE];
      && TokensOf(Pieces(START, t)) == [Punct([APOSTROPHE]), Punct([APOSTROPHE])]
      && TokensOf(Pieces(START, Blanked(Pieces(START, t)))) == [Str([SPACE])]
      && !StaysOpen(START, t)
  {
    hide Pieces;
    hide TokensOf;
    hide Blanked;
    var t := [APOSTROPHE, SLASH, STAR, NEWLINE, STAR, SLASH, APOSTROPHE];
    CommentBetween(t);
    OneString([APOSTROPHE, SPACE, APOSTROPHE]);
    SameTokensIffStaysOpen(START, t);
  }

  lemma CommentBetween(t: Text)
    requires t == [APOSTROPHE, SLASH, STAR, NEWLINE, STAR, SLASH, APOSTROPHE]
    ensures TokensOf(Pieces(START, t)) == [Punct([APOSTROPHE]), Punct([APOSTROPHE])]
    ensures Blanked(Pieces(START, t)) == [APOSTROPHE, SPACE, APOSTROPHE]
  {
    var ctx := START.(prev := Some(Punct([APOSTROPHE])));
    var u, v := [SLASH, STAR, NEWLINE, STAR, SLASH, APOSTROPHE], [APOSTROPHE];
    assert QuoteEnd(t, APOSTROPHE, 3) == 3 && QuoteEnd(t, APOSTROPHE, 2) == 3 && QuoteEnd(t, APOSTROPHE, 1) == 3;
    assert t[1..] == u && u[5..] == v && v[1..] == [];
    assert BlockEnd(u, 3) == 5 && BlockEnd(u, 2) == 5;
    assert Next(START, t).piece == Tok(Punct([APOSTROPHE]), [APOSTROPHE]);
    assert Next(ctx, u) == Step(Comment(u[..5]), ctx);
    assert Next(ctx, v).piece == Tok(Punct([APOSTROPHE]), [APOSTROPHE]);
    FirstToken(START, t);
    FirstToken(ctx, u);
    FirstToken(ctx, v);
    FirstBlanked(START, t);
    FirstBlanked(ctx, u);
    FirstBlanked(ctx, v);
    assert Blanked(Pieces(ctx, v)) == [APOSTROPHE];
    assert Blanked(Pieces(ctx, u)) == [SPACE, APOSTROPHE];
  }

  lemma OneString(b: Text)
    requires b == [APOSTROPHE, SPACE, APOSTROPHE]
    ensures TokensOf(Pieces(START, b)) == [Str([SPACE])]
  {
    assert QuoteEnd(b, APOSTROPHE, 2) == 2 && QuoteEnd(b, APOSTROPHE, 1) == 2;
    assert b[1..2] == [SPACE] && b[3..] == [];
    FirstToken(START, b);
  }
}
