/** The lexer as the script runs it: a cursor over the source, tokens and comment spans pushed as
    they are met, and a stack of open substitutions. */
module LexerRun {
  import opened Options
  import opened SourceText
  import opened Lexer
  import opened LexerGrammar
  import opened LexerTemplates

  // ----- The comment spans, and the code between them

  datatype Span = Span(start: nat, stop: nat)

  function SpansOf(pieces: seq<Piece>, at: nat): seq<Span> {
    if pieces == [] then []
    else
      (if pieces[0].Comment? then [Span(at, at + |pieces[0].text|)] else [])
      + SpansOf(pieces[1..], at + |pieces[0].text|)
  }

  /** Spans one after the other, from `at` on and within the text. */
  ghost predicate InOrder(spans: seq<Span>, at: nat, length: nat) {
    if spans == [] then at <= length
    else at <= spans[0].start <= spans[0].stop && InOrder(spans[1..], spans[0].stop, length)
  }

  lemma {:induction false} StopsWithin(spans: seq<Span>, at: nat, length: nat)
    requires InOrder(spans, at, length)
    ensures at <= length && (spans != [] ==> spans[0].stop <= length)
    decreases |spans|
  {
    if spans != [] {
      StopsWithin(spans[1..], spans[0].stop, length);
    }
  }

  /** The text from `at` on, each span blanked to a space. */
  function Cut(source: Text, at: nat, spans: seq<Span>): Text
    requires InOrder(spans, at, |source|)
    ensures at <= |source|
    decreases |spans|
  {
    if spans == [] then source[at..]
    else
      var code := Cut(source, spans[0].stop, spans[1..]);
      source[at..spans[0].start] + [SPACE] + code
  }

  lemma PieceStands(source: Text, at: nat, text: Text, rest: Text)
    requires at <= |source| && source[at..] == text + rest
    ensures at + |text| <= |source| && source[at..at + |text|] == text && source[at + |text|..] == rest
  {
    var next := at + |text|;
    assert source[at..next] == source[at..][..next - at];
    assert source[next..] == source[at..][next - at..];
  }

  lemma {:induction false} CutIsBlanked(source: Text, at: nat, pieces: seq<Piece>)
    requires at <= |source| && source[at..] == Joined(pieces)
    ensures InOrder(SpansOf(pieces, at), at, |source|)
    ensures Cut(source, at, SpansOf(pieces, at)) == Blanked(pieces)
    decreases |pieces|
  {
    if pieces != [] {
      var next := at + |pieces[0].text|;
      PieceStands(source, at, pieces[0].text, Joined(pieces[1..]));
      CutIsBlanked(source, next, pieces[1..]);
      var spans := SpansOf(pieces[1..], next);
      if pieces[0].Comment? {
        var cut := [Span(at, next)] + spans;
        assert SpansOf(pieces, at) == cut;
        assert cut[0] == Span(at, next) && cut[1..] == spans;
        assert source[at..at] + [SPACE] == [SPACE];
      } else {
        assert SpansOf(pieces, at) == spans;
        CutFrom(source, at, next, spans);
      }
    }
  }

  lemma CutFrom(source: Text, at: nat, next: nat, spans: seq<Span>)
    requires at <= next && InOrder(spans, next, |source|)
    ensures next <= |source| && InOrder(spans, at, |source|)
    ensures Cut(source, at, spans) == source[at..next] + Cut(source, next, spans)
  {
    StopsWithin(spans, next, |source|);
    if spans == [] {
      assert source[at..] == source[at..next] + source[next..];
    } else {
      StopsWithin(spans[1..], spans[0].stop, |source|);
      var code := Cut(source, spans[0].stop, spans[1..]);
      var skipped, kept := source[at..next], source[next..spans[0].start];
      assert source[at..spans[0].start] == skipped + kept;
      assert (skipped + kept) + [SPACE] + code == skipped + (kept + [SPACE] + code);
    }
  }

  // ----- The scans

  method ScanQuote(source: Text, i: nat) returns (j: nat)
    requires i < |source|
    ensures j == i + QuoteEnd(source[i..], source[i], 1)
  {
    ghost var t := source[i..];
    j := i + 1;
    while j < |source| && source[j] != source[i] && source[j] != NEWLINE
      invariant i < j
      invariant QuoteEnd(t, t[0], 1) == QuoteEnd(t, t[0], j - i)
      decreases |source| - j
    {
      assert t[j - i] == source[j];
      j := j + if source[j] == BACKSLASH then 2 else 1;
    }
    if j < |source| {
      assert t[j - i] == source[j];
    }
  }

  method ScanChunk(source: Text, i: nat) returns (j: nat)
    requires i < |source|
    ensures j == i + ChunkEnd(source[i..], 1)
  {
    ghost var t := source[i..];
    j := i + 1;
    while j < |source|
      invariant i < j
      invariant ChunkEnd(t, 1) == ChunkEnd(t, j - i)
      decreases |source| - j
    {
      assert t[j - i] == source[j] && (j + 1 < |source| ==> t[j - i + 1] == source[j + 1]);
      if source[j] == BACKSLASH {
        j := j + 2;
      } else if source[j] == BACKTICK || (source[j] == DOLLAR && j + 1 < |source| && source[j + 1] == OPEN_BRACE) {
        return;
      } else {
        j := j + 1;
      }
    }
  }

  method ScanLetters(source: Text, i: nat, from: nat) returns (j: nat)
    requires i < from <= |source|
    ensures j == i + LettersEnd(source[i..], from - i)
  {
    ghost var t := source[i..];
    j := from;
    while j < |source| && IsLetter(source[j])
      invariant from <= j <= |source|
      invariant LettersEnd(t, from - i) == LettersEnd(t, j - i)
    {
      assert t[j - i] == source[j];
      j := j + 1;
    }
    if j < |source| {
      assert t[j - i] == source[j];
    }
  }

  /** The scan for a regex literal's end, which stays where it began for one left open. */
  method ScanRegex(source: Text, start: nat) returns (end: nat)
    requires start < |source|
    ensures end == start + RegexEnd(source[start..], 1, false)
  {
    ghost var t := source[start..];
    var inClass := false;
    var j := start + 1;
    while j < |source| && source[j] != NEWLINE
      invariant start < j
      invariant RegexEnd(t, 1, false) == RegexEnd(t, j - start, inClass)
      decreases |source| - j
    {
      var c := source[j];
      assert t[j - start] == c;
      if c == BACKSLASH {
        j := j + 1;
      } else if c == OPEN_BRACKET {
        inClass := true;
      } else if c == CLOSE_BRACKET {
        inClass := false;
      } else if c == SLASH && !inClass {
        end := ScanLetters(source, start, j + 1);
        return;
      }
      j := j + 1;
    }
    if j < |source| {
      assert t[j - start] == source[j];
    }
    return start;
  }

  method ScanIdent(source: Text, i: nat) returns (j: nat)
    requires i < |source|
    ensures j == i + IdentEnd(source[i..], 1)
  {
    ghost var t := source[i..];
    j := i + 1;
    while j < |source| && IsIdentPart(source[j])
      invariant i < j <= |source|
      invariant IdentEnd(t, 1) == IdentEnd(t, j - i)
    {
      assert t[j - i] == source[j];
      j := j + 1;
    }
    if j < |source| {
      assert t[j - i] == source[j];
    }
  }

  method ScanNumber(source: Text, i: nat) returns (j: nat)
    requires i < |source|
    ensures j == i + NumberEnd(source[i..], 1)
  {
    ghost var t := source[i..];
    j := i + 1;
    while j < |source| && IsNumberPart(source[j])
      invariant i < j <= |source|
      invariant NumberEnd(t, 1) == NumberEnd(t, j - i)
    {
      assert t[j - i] == source[j];
      j := j + 1;
    }
    if j < |source| {
      assert t[j - i] == source[j];
    }
  }

  /** The end of the comment at `i`: of its line, or past its `*` and `/`; the end of the text when
      neither comes. */
  method ScanComment(source: Text, i: nat) returns (to: nat)
    requires i < |source| && StartsComment(source[i..])
    ensures to == i + if source[i + 1] == SLASH then LineEnd(source[i..], 0) else BlockEnd(source[i..], 2)
  {
    ghost var t := source[i..];
    assert t[1] == source[i + 1];
    if source[i + 1] == SLASH {
      to := i;
      while to < |source| && source[to] != NEWLINE
        invariant i <= to <= |source|
        invariant LineEnd(t, 0) == LineEnd(t, to - i)
      {
        assert t[to - i] == source[to];
        to := to + 1;
      }
      if to < |source| {
        assert t[to - i] == source[to];
      }
    } else {
      to := i + 2;
      while to + 1 < |source| && !(source[to] == STAR && source[to + 1] == SLASH)
        invariant i + 2 <= to <= |source|
        invariant BlockEnd(t, 2) == BlockEnd(t, to - i)
      {
        assert t[to - i] == source[to] && t[to - i + 1] == source[to + 1];
        to := to + 1;
      }
      if to + 1 < |source| {
        assert t[to - i] == source[to] && t[to - i + 1] == source[to + 1];
        to := to + 2;
      } else {
        to := |source|;
      }
    }
  }

  // ----- The lexer

  lemma {:induction false} TokensOfAppend(a: seq<Piece>, b: seq<Piece>)
    ensures TokensOf(a + b) == TokensOf(a) + TokensOf(b)
    decreases |a|
  {
    if a == [] {
      assert a + b == b;
    } else {
      assert (a + b)[1..] == a[1..] + b;
      TokensOfAppend(a[1..], b);
      var first := if a[0].Tok? then [a[0].token] else [];
      assert first + (TokensOf(a[1..]) + TokensOf(b)) == (first + TokensOf(a[1..])) + TokensOf(b);
    }
  }

  lemma {:induction false} JoinedAppend(a: seq<Piece>, b: seq<Piece>)
    ensures Joined(a + b) == Joined(a) + Joined(b)
    decreases |a|
  {
    if a == [] {
      assert a + b == b;
    } else {
      assert (a + b)[1..] == a[1..] + b;
      JoinedAppend(a[1..], b);
    }
  }

  lemma {:induction false} SpansOfAppend(a: seq<Piece>, b: seq<Piece>, at: nat)
    ensures SpansOf(a + b, at) == SpansOf(a, at) + SpansOf(b, at + |Joined(a)|)
    decreases |a|
  {
    if a == [] {
      assert a + b == b;
    } else {
      assert (a + b)[1..] == a[1..] + b;
      SpansOfAppend(a[1..], b, at + |a[0].text|);
    }
  }

  lemma OnePieceMore(source: Text, from: nat, to: nat, piece: Piece, done: seq<Piece>)
    requires from < to <= |source| && piece.text == source[from..to]
    requires Joined(done) == source[..from]
    ensures Joined(done + [piece]) == source[..to]
    ensures TokensOf(done + [piece]) == TokensOf(done) + (if piece.Tok? then [piece.token] else [])
    ensures SpansOf(done + [piece], 0) == SpansOf(done, 0) + (if piece.Comment? then [Span(from, to)] else [])
  {
    TokensOfAppend(done, [piece]);
    JoinedAppend(done, [piece]);
    SpansOfAppend(done, [piece], 0);
    assert [piece][1..] == [];
    assert source[..to] == source[..from] + source[from..to];
  }

  lemma PiecesStep(before: Context, t: Text)
    requires t != []
    ensures |Next(before, t).piece.text| <= |t|
    ensures Pieces(before, t) == [Next(before, t).piece] + Pieces(Next(before, t).ctx, t[|Next(before, t).piece.text|..])
  {
    NextTakesPrefix(before, t);
  }

  /** What the cursor passed over is the step's piece: the pieces taken so far go on with it. */
  lemma TookStep(source: Text, from: nat, to: nat, before: Context, step: Step, done: seq<Piece>)
    requires from < to <= |source| && step.piece.text == source[from..to]
    requires Next(before, source[from..]) == step
    requires Joined(done) == source[..from]
    ensures Joined(done + [step.piece]) == source[..to]
    ensures TokensOf(done + [step.piece]) == TokensOf(done) + (if step.piece.Tok? then [step.piece.token] else [])
    ensures SpansOf(done + [step.piece], 0) == SpansOf(done, 0) + (if step.piece.Comment? then [Span(from, to)] else [])
    ensures done + Pieces(before, source[from..]) == (done + [step.piece]) + Pieces(step.ctx, source[to..])
  {
    hide Next;
    OnePieceMore(source, from, to, step.piece, done);
    PiecesStep(before, source[from..]);
    assert source[from..][to - from..] == source[to..];
    var rest := Pieces(step.ctx, source[to..]);
    assert done + ([step.piece] + rest) == (done + [step.piece]) + rest;
  }

  lemma SpaceNext(ctx: Context, t: Text)
    requires t != [] && IsSpace(t[0])
    ensures Next(ctx, t) == Step(Space([t[0]]), ctx)
  {
  }

  lemma CommentNext(ctx: Context, t: Text)
    requires StartsComment(t)
    ensures Next(ctx, t) == CommentStep(ctx, t)
  {
  }

  class Run {
    const source: Text
    var tokens: seq<Token>
    var comments: seq<Span>
    var substitutions: seq<Sub>
    var templates: nat
    var i: nat
    /** The pieces taken off so far. */
    ghost var done: seq<Piece>

    ghost function Ctx(): Context
      reads this
    {
      Context(if tokens == [] then None else Some(tokens[|tokens| - 1]), substitutions, templates)
    }

    ghost predicate Valid()
      reads this
    {
      && i <= |source|
      && Joined(done) == source[..i]
      && tokens == TokensOf(done)
      && comments == SpansOf(done, 0)
      && Pieces(START, source) == done + Pieces(Ctx(), source[i..])
    }

    constructor (source: Text)
      ensures Valid() && this.source == source
    {
      this.source := source;
      tokens, comments, substitutions, templates, i, done := [], [], [], 0, 0, [];
      new;
      assert source[0..] == source;
    }

    /** One template chunk from the backtick or brace at the cursor. */
    method Chunk(id: nat, first: bool)
      requires i < |source|
      modifies this`tokens, this`substitutions, this`i
      ensures i <= |source| && old(i) < i
      ensures var step := ChunkStep(old(Ctx()), source[old(i)..], id, first);
        && step.ctx == Ctx() && step.piece.text == source[old(i)..i]
        && step.piece.Tok? && tokens == old(tokens) + [step.piece.token]
    {
      ghost var t := source[i..];
      ChunkEndStops(t, 1);
      var from := i;
      var j := ScanChunk(source, from);
      var part := if first then Full else Tail;
      if j >= |source| {
        assert t[1..] == source[from + 1..];
        assert t == source[from..|source|];
        tokens := tokens + [Template(source[from + 1..], id, part)];
        i := |source|;
      } else {
        assert t[1..j - from] == source[from + 1..j] && t[j - from] == source[j];
        if source[j] == BACKTICK {
          assert t[..j + 1 - from] == source[from..j + 1];
          tokens := tokens + [Template(source[from + 1..j], id, part)];
          i := j + 1;
        } else {
          assert t[..j + 2 - from] == source[from..j + 2];
          tokens := tokens + [Template(source[from + 1..j], id, if first then Head else Middle)];
          substitutions := substitutions + [Sub(id, 0)];
          i := j + 2;
        }
      }
    }

    method Push(token: Token, to: nat)
      requires i < to <= |source|
      modifies this`tokens, this`i
      ensures i == to && tokens == old(tokens) + [token]
    {
      tokens := tokens + [token];
      i := to;
    }

    /** A punctuator of one unit; a brace counts in the substitution it stands in. */
    method Punctuator()
      requires i < |source|
      requires substitutions != [] && source[i] == CLOSE_BRACE ==> Top(substitutions).braces > 0
      modifies this`tokens, this`substitutions, this`i
      ensures i == old(i) + 1 && tokens == old(tokens) + [Punct([source[old(i)]])]
      ensures PunctStep(old(Ctx()), source[old(i)]) == Step(Tok(Punct([source[old(i)]]), [source[old(i)]]), Ctx())
    {
      var n := |substitutions|;
      if n > 0 && source[i] == OPEN_BRACE {
        substitutions := substitutions[n - 1 := substitutions[n - 1].(braces := substitutions[n - 1].braces + 1)];
      } else if n > 0 && source[i] == CLOSE_BRACE {
        substitutions := substitutions[n - 1 := substitutions[n - 1].(braces := substitutions[n - 1].braces - 1)];
      }
      Push(Punct([source[i]]), i + 1);
    }

    /** A token that starts as an identifier, a number, an arrow or a punctuator does. */
    method Plain()
      requires i < |source|
      requires var t := source[i..];
        && !IsSpace(t[0]) && !StartsComment(t) && !IsQuote(t[0]) && t[0] != BACKTICK
        && !ClosesSubstitution(Ctx(), t[0])
        && (t[0] == SLASH && RegexAllowed(Ctx().prev) ==> RegexEnd(t, 1, false) == 0)
      modifies this`tokens, this`substitutions, this`i
      ensures old(i) < i <= |source|
      ensures var step := Next(old(Ctx()), source[old(i)..]);
        && step.ctx == Ctx() && step.piece.text == source[old(i)..i]
        && step.piece.Tok? && tokens == old(tokens) + [step.piece.token]
    {
      hide ChunkStep;
      hide QuoteStep;
      hide CommentStep;
      hide PunctStep;
      ghost var t := source[i..];
      assert t[0] == source[i] && (i + 1 < |source| ==> t[1] == source[i + 1]);
      if IsIdentStart(source[i]) {
        var j := ScanIdent(source, i);
        assert t[..j - i] == source[i..j];
        Push(Ident(source[i..j]), j);
      } else if IsDigit(source[i]) {
        var j := ScanNumber(source, i);
        assert t[..j - i] == source[i..j];
        Push(Number(source[i..j]), j);
      } else if i + 1 < |source| && source[i] == EQUALS && source[i + 1] == GREATER {
        assert t[..2] == source[i..i + 2];
        Push(Punct([EQUALS, GREATER]), i + 2);
      } else {
        Punctuator();
      }
    }

    /** A quoted literal, or the quote alone when it does not close on its line. */
    method Quoted()
      requires i < |source|
      modifies this`tokens, this`i
      ensures old(i) < i <= |source|
      ensures var step := QuoteStep(old(Ctx()), source[old(i)..]);
        && step.ctx == Ctx() && step.piece.text == source[old(i)..i]
        && step.piece.Tok? && tokens == old(tokens) + [step.piece.token]
    {
      var u := source[i];
      ghost var t := source[i..];
      assert t[0] == u;
      var j := ScanQuote(source, i);
      if j < |source| && source[j] == u {
        assert t[j - i] == u && t[1..j - i] == source[i + 1..j] && t[..j - i + 1] == source[i..j + 1];
        Push(Str(source[i + 1..j]), j + 1);
      } else {
        assert j < |source| ==> t[j - i] == source[j];
        Push(Punct([u]), i + 1);
      }
    }

    /** A regex literal, where one is read and closes on its line. */
    method RegexAt() returns (closed: bool)
      requires i < |source|
      modifies this`tokens, this`i
      ensures closed <==> RegexEnd(source[old(i)..], 1, false) > 0
      ensures !closed ==> i == old(i) && tokens == old(tokens)
      ensures closed ==>
        && i == old(i) + RegexEnd(source[old(i)..], 1, false) && i <= |source|
        && tokens == old(tokens) + [Regex(source[old(i)..i])]
    {
      var j := ScanRegex(source, i);
      closed := j > i;
      if closed {
        Push(Regex(source[i..j]), j);
      }
    }

    /** A literal or a plain token at the cursor. */
    method TokenAt()
      requires i < |source| && !IsSpace(source[i]) && !StartsComment(source[i..])
      modifies this`tokens, this`substitutions, this`templates, this`i
      ensures old(i) < i <= |source|
      ensures var step := Next(old(Ctx()), source[old(i)..]);
        && step.ctx == Ctx() && step.piece.text == source[old(i)..i]
        && step.piece.Tok? && tokens == old(tokens) + [step.piece.token]
    {
      hide ChunkStep;
      hide QuoteStep;
      hide CommentStep;
      hide PunctStep;
      var u := source[i];
      ghost var t := source[i..];
      assert t[0] == u;
      if IsQuote(u) {
        Quoted();
      } else if u == BACKTICK {
        templates := templates + 1;
        Chunk(templates - 1, true);
      } else if u == CLOSE_BRACE && substitutions != [] && substitutions[|substitutions| - 1].braces == 0 {
        var id := substitutions[|substitutions| - 1].id;
        substitutions := substitutions[..|substitutions| - 1];
        Chunk(id, false);
      } else if u == SLASH && RegexAllowed(if tokens == [] then None else Some(tokens[|tokens| - 1])) {
        var closed := RegexAt();
        if closed {
          assert t[..i - old(i)] == source[old(i)..i];
        } else {
          Plain();
        }
      } else {
        Plain();
      }
    }

    /** One turn of the lexer's loop. */
    method Turn()
      requires Valid() && i < |source|
      modifies this
      ensures Valid() && old(i) < i
    {
      hide Next;
      hide Pieces;
      hide Joined;
      hide TokensOf;
      hide SpansOf;
      ghost var before, from, was := Ctx(), i, done;
      ghost var t := source[i..];
      var u := source[i];
      assert t[0] == u && (i + 1 < |source| ==> t[1] == source[i + 1]);
      if IsSpace(u) {
        SpaceNext(before, t);
        i := i + 1;
        TookStep(source, from, i, before, Step(Space([u]), before), was);
        done := done + [Space([u])];
      } else if u == SLASH && i + 1 < |source| && (source[i + 1] == SLASH || source[i + 1] == STAR) {
        var to := ScanComment(source, i);
        NextTakesPrefix(before, t);
        CommentNext(before, t);
        assert t[..to - from] == source[from..to];
        comments := comments + [Span(i, to)];
        i := to;
        ghost var piece := Comment(source[from..to]);
        TookStep(source, from, i, before, Step(piece, before), was);
        done := done + [piece];
      } else {
        TokenAt();
        ghost var piece := Next(before, t).piece;
        TookStep(source, from, i, before, Step(piece, Ctx()), was);
        done := done + [piece];
      }
    }
  }

  /** The tokens of a source, and its text with every comment blanked. */
  method Lex(source: Text) returns (tokens: seq<Token>, code: Text)
    ensures tokens == TokensOf(Pieces(START, source))
    ensures code == Blanked(Pieces(START, source))
    ensures Reads(None, Nest([], 0), source, Pieces(START, source))
  {
    var run := new Run(source);
    while run.i < |source|
      invariant fresh(run) && run.Valid() && run.source == source
      decreases |source| - run.i
    {
      run.Turn();
    }
    ghost var pieces := Pieces(START, source);
    assert source[run.i..] == [];
    assert run.done == pieces && source[..run.i] == source;
    assert source[0..] == source;
    CutIsBlanked(source, 0, pieces);
    tokens := run.tokens;
    code := CutComments(source, run.comments);
    ReadsIffPieces(START, source, pieces);
  }

  /** The spans of the comments blanked, one after the other. */
  method CutComments(source: Text, comments: seq<Span>) returns (code: Text)
    requires InOrder(comments, 0, |source|)
    ensures code == Cut(source, 0, comments)
  {
    code := [];
    var from: nat := 0;
    var k := 0;
    assert comments[0..] == comments;
    while k < |comments|
      invariant 0 <= k <= |comments|
      invariant InOrder(comments[k..], from, |source|)
      invariant code + Cut(source, from, comments[k..]) == Cut(source, 0, comments)
    {
      var span := comments[k];
      ghost var rest := comments[k..];
      assert rest[0] == span && rest[1..] == comments[k + 1..];
      StopsWithin(rest, from, |source|);
      code := code + (source[from..span.start] + [SPACE]);
      from := span.stop;
      k := k + 1;
    }
    assert comments[k..] == [];
    code := code + source[from..];
  }
}
