/** The lexer of the i18n gate: what each step takes off the text, and what the steps together
    keep of it. */
module Lexer {
  import opened Options
  import opened SourceText

  datatype Part = Full | Head | Middle | Tail

  datatype Token =
    | Ident(text: Text)
    | Number(text: Text)
    | Punct(text: Text)
    | Str(text: Text)
    | Regex(text: Text)
    | Template(text: Text, id: nat, part: Part)

  /** What one step takes off the text. */
  datatype Piece = Space(text: Text) | Comment(text: Text) | Tok(token: Token, text: Text)

  /** An open substitution: the template it belongs to, and the braces opened inside it. */
  datatype Sub = Sub(id: nat, braces: nat)

  datatype Context = Context(prev: Option<Token>, subs: seq<Sub>, templates: nat)

  datatype Step = Step(piece: Piece, ctx: Context)

  const START := Context(None, [], 0)

  // ----- Scans, each from an index of the text its literal starts

  /** Where a quoted literal stops: its closing quote, the end of its line, or past the text. */
  function QuoteEnd(t: Text, quote: Unit, j: nat): (end: nat)
    ensures j <= end
    decreases |t| - j
  {
    if j >= |t| || t[j] == quote || t[j] == NEWLINE then j
    else QuoteEnd(t, quote, j + if t[j] == BACKSLASH then 2 else 1)
  }

  predicate QuoteCloses(t: Text, quote: Unit) {
    var j := QuoteEnd(t, quote, 1);
    j < |t| && t[j] == quote
  }

  /** Where a template chunk stops: at its closing backtick, at the next `${`, or past the text. */
  function ChunkEnd(t: Text, j: nat): (end: nat)
    ensures j <= end
    decreases |t| - j
  {
    if j >= |t| then j
    else if t[j] == BACKSLASH then ChunkEnd(t, j + 2)
    else if t[j] == BACKTICK then j
    else if t[j] == DOLLAR && j + 1 < |t| && t[j + 1] == OPEN_BRACE then j
    else ChunkEnd(t, j + 1)
  }

  lemma {:induction false} ChunkEndStops(t: Text, j: nat)
    ensures var end := ChunkEnd(t, j);
      end < |t| ==> t[end] == BACKTICK || (t[end] == DOLLAR && end + 1 < |t| && t[end + 1] == OPEN_BRACE)
    decreases |t| - j
  {
    if j < |t| && t[j] == BACKSLASH {
      ChunkEndStops(t, j + 2);
    } else if j < |t| && j != ChunkEnd(t, j) {
      ChunkEndStops(t, j + 1);
    }
  }

  function LettersEnd(t: Text, j: nat): (end: nat)
    ensures j <= end && (j <= |t| ==> end <= |t|)
    decreases |t| - j
  {
    if j < |t| && IsLetter(t[j]) then LettersEnd(t, j + 1) else j
  }

  function IdentEnd(t: Text, j: nat): (end: nat)
    ensures j <= end && (j <= |t| ==> end <= |t|)
    decreases |t| - j
  {
    if j < |t| && IsIdentPart(t[j]) then IdentEnd(t, j + 1) else j
  }

  function NumberEnd(t: Text, j: nat): (end: nat)
    ensures j <= end && (j <= |t| ==> end <= |t|)
    decreases |t| - j
  {
    if j < |t| && IsNumberPart(t[j]) then NumberEnd(t, j + 1) else j
  }

  /** Where a regex literal ends, past its flags; 0 for one still open at its line's end. */
  function RegexEnd(t: Text, j: nat, inClass: bool): (end: nat)
    ensures end == 0 || j < end <= |t|
    decreases |t| - j
  {
    if j >= |t| || t[j] == NEWLINE then 0
    else if t[j] == BACKSLASH then RegexEnd(t, j + 2, inClass)
    else if t[j] == OPEN_BRACKET then RegexEnd(t, j + 1, true)
    else if t[j] == CLOSE_BRACKET then RegexEnd(t, j + 1, false)
    else if t[j] == SLASH && !inClass then LettersEnd(t, j + 1)
    else RegexEnd(t, j + 1, inClass)
  }

  function LineEnd(t: Text, j: nat): (end: nat)
    requires j <= |t|
    ensures j <= end <= |t|
    decreases |t| - j
  {
    if j == |t| || t[j] == NEWLINE then j else LineEnd(t, j + 1)
  }

  function BlockEnd(t: Text, j: nat): (end: nat)
    requires j <= |t|
    ensures j <= end <= |t|
    decreases |t| - j
  {
    if j + 1 >= |t| then |t|
    else if t[j] == STAR && t[j + 1] == SLASH then j + 2
    else BlockEnd(t, j + 1)
  }

  // ----- One step

  predicate IsKeyword(text: Text) {
    || text == [0x72, 0x65, 0x74, 0x75, 0x72, 0x6E]                                     // return
    || text == [0x74, 0x79, 0x70, 0x65, 0x6F, 0x66]                                     // typeof
    || text == [0x69, 0x6E, 0x73, 0x74, 0x61, 0x6E, 0x63, 0x65, 0x6F, 0x66]             // instanceof
    || text == [0x69, 0x6E]                                                             // in
    || text == [0x6F, 0x66]                                                             // of
    || text == [0x6E, 0x65, 0x77]                                                       // new
    || text == [0x64, 0x65, 0x6C, 0x65, 0x74, 0x65]                                     // delete
    || text == [0x76, 0x6F, 0x69, 0x64]                                                 // void
    || text == [0x74, 0x68, 0x72, 0x6F, 0x77]                                           // throw
    || text == [0x63, 0x61, 0x73, 0x65]                                                 // case
    || text == [0x64, 0x6F]                                                             // do
    || text == [0x65, 0x6C, 0x73, 0x65]                                                 // else
    || text == [0x79, 0x69, 0x65, 0x6C, 0x64]                                           // yield
    || text == [0x61, 0x77, 0x61, 0x69, 0x74]                                           // await
  }

  /** Whether a `/` opens a regex literal after this token. */
  predicate RegexAllowed(prev: Option<Token>) {
    match prev
    case None => true
    case Some(Ident(text)) => IsKeyword(text)
    case Some(Punct(text)) => text !in {[CLOSE_PAREN], [CLOSE_BRACKET], [CLOSE_BRACE], [LESS]}
    case Some(Template(_, _, part)) => part == Head || part == Middle
    case Some(_) => false
  }

  function Emit(ctx: Context, token: Token, text: Text): Step {
    Step(Tok(token, text), ctx.(prev := Some(token)))
  }

  /** One chunk of template `id`, the text starting at the backtick or brace before it. */
  function ChunkStep(ctx: Context, t: Text, id: nat, first: bool): Step
    requires t != []
  {
    ChunkEndStops(t, 1);
    var j := ChunkEnd(t, 1);
    if j >= |t| then Emit(ctx, Template(t[1..], id, if first then Full else Tail), t)
    else if t[j] == BACKTICK then Emit(ctx, Template(t[1..j], id, if first then Full else Tail), t[..j + 1])
    else
      Emit(ctx.(subs := ctx.subs + [Sub(id, 0)]), Template(t[1..j], id, if first then Head else Middle), t[..j + 2])
  }

  /** A punctuator of one unit; a brace counts in the substitution it stands in. */
  function PunctStep(ctx: Context, u: Unit): Step
    requires ctx.subs != [] && u == CLOSE_BRACE ==> ctx.subs[|ctx.subs| - 1].braces > 0
  {
    var n := |ctx.subs|;
    var subs :=
      if n == 0 then ctx.subs
      else if u == OPEN_BRACE then ctx.subs[n - 1 := ctx.subs[n - 1].(braces := ctx.subs[n - 1].braces + 1)]
      else if u == CLOSE_BRACE then ctx.subs[n - 1 := ctx.subs[n - 1].(braces := ctx.subs[n - 1].braces - 1)]
      else ctx.subs;
    Emit(ctx.(subs := subs), Punct([u]), [u])
  }

  predicate StartsComment(t: Text) {
    |t| > 1 && t[0] == SLASH && (t[1] == SLASH || t[1] == STAR)
  }

  predicate ClosesSubstitution(ctx: Context, u: Unit) {
    u == CLOSE_BRACE && ctx.subs != [] && ctx.subs[|ctx.subs| - 1].braces == 0
  }

  function CommentStep(ctx: Context, t: Text): Step
    requires StartsComment(t)
  {
    Step(Comment(t[..if t[1] == SLASH then LineEnd(t, 0) else BlockEnd(t, 2)]), ctx)
  }

  function QuoteStep(ctx: Context, t: Text): Step
    requires t != []
  {
    if QuoteCloses(t, t[0]) then
      var j := QuoteEnd(t, t[0], 1);
      Emit(ctx, Str(t[1..j]), t[..j + 1])
    else Emit(ctx, Punct([t[0]]), [t[0]])
  }

  predicate IsQuote(u: Unit) {
    u == APOSTROPHE || u == QUOTE
  }

  /** What the lexer takes off a text that is not empty, and the context it leaves. */
  function Next(ctx: Context, t: Text): Step
    requires t != []
  {
    var u := t[0];
    if IsSpace(u) then Step(Space([u]), ctx)
    else if StartsComment(t) then CommentStep(ctx, t)
    else if IsQuote(u) then QuoteStep(ctx, t)
    else if u == BACKTICK then ChunkStep(ctx.(templates := ctx.templates + 1), t, ctx.templates, true)
    else if ClosesSubstitution(ctx, u) then
      var n := |ctx.subs|;
      ChunkStep(ctx.(subs := ctx.subs[..n - 1]), t, ctx.subs[n - 1].id, false)
    else if u == SLASH && RegexAllowed(ctx.prev) && RegexEnd(t, 1, false) > 0 then
      var j := RegexEnd(t, 1, false);
      Emit(ctx, Regex(t[..j]), t[..j])
    else if IsIdentStart(u) then Emit(ctx, Ident(t[..IdentEnd(t, 1)]), t[..IdentEnd(t, 1)])
    else if IsDigit(u) then Emit(ctx, Number(t[..NumberEnd(t, 1)]), t[..NumberEnd(t, 1)])
    else if |t| > 1 && u == EQUALS && t[1] == GREATER then Emit(ctx, Punct([EQUALS, GREATER]), t[..2])
    else PunctStep(ctx, u)
  }

  /** A step takes a prefix of the text, and never nothing. */
  lemma NextTakesPrefix(ctx: Context, t: Text)
    requires t != []
    ensures var taken := Next(ctx, t).piece.text;
      0 < |taken| <= |t| && taken == t[..|taken|]
  {
    ChunkEndStops(t, 1);
    if StartsComment(t) && t[1] == SLASH {
      assert LineEnd(t, 0) == LineEnd(t, 1);
    }
  }

  /** The pieces the lexer cuts a text into. */
  function Pieces(ctx: Context, t: Text): seq<Piece>
    decreases |t|
  {
    if t == [] then []
    else
      NextTakesPrefix(ctx, t);
      var step := Next(ctx, t);
      [step.piece] + Pieces(step.ctx, t[|step.piece.text|..])
  }

  function TokensOf(pieces: seq<Piece>): seq<Token> {
    if pieces == [] then []
    else (if pieces[0].Tok? then [pieces[0].token] else []) + TokensOf(pieces[1..])
  }

  /** The pieces' own text again, a single space in place of each comment. */
  function Blanked(pieces: seq<Piece>): Text {
    if pieces == [] then []
    else (if pieces[0].Comment? then [SPACE] else pieces[0].text) + Blanked(pieces[1..])
  }

  function Joined(pieces: seq<Piece>): Text {
    if pieces == [] then [] else pieces[0].text + Joined(pieces[1..])
  }

  // ----- Every character is in one piece

  /** How a token stands in the text: a quoted literal between its quotes, a template chunk between
      what opens and what closes it. */
  ghost predicate Renders(token: Token, text: Text) {
    match token
    case Str(body) => exists q :: IsQuote(q) && text == [q] + body + [q]
    case Template(body, _, Full) => text == [BACKTICK] + body + [BACKTICK] || text == [BACKTICK] + body
    case Template(body, _, Head) => text == [BACKTICK] + body + [DOLLAR, OPEN_BRACE]
    case Template(body, _, Middle) => text == [CLOSE_BRACE] + body + [DOLLAR, OPEN_BRACE]
    case Template(body, _, Tail) => text == [CLOSE_BRACE] + body + [BACKTICK] || text == [CLOSE_BRACE] + body
    case _ => text == token.text
  }

  ghost predicate WellCut(piece: Piece) {
    match piece
    case Space(text) => |text| == 1 && IsSpace(text[0])
    case Comment(text) => StartsComment(text)
    case Tok(token, text) => text != [] && !IsSpace(text[0]) && Renders(token, text)
  }

  lemma ChunkStepCuts(ctx: Context, t: Text, id: nat, first: bool)
    requires t != [] && t[0] == (if first then BACKTICK else CLOSE_BRACE)
    ensures WellCut(ChunkStep(ctx, t, id, first).piece)
  {
    var j := ChunkEnd(t, 1);
    ChunkEndStops(t, 1);
    if j >= |t| {
      assert t == [t[0]] + t[1..];
    } else if t[j] == BACKTICK {
      assert t[..j + 1] == [t[0]] + t[1..j] + [BACKTICK];
    } else {
      assert t[..j + 2] == [t[0]] + t[1..j] + [DOLLAR, OPEN_BRACE];
    }
  }

  lemma NextCuts(ctx: Context, t: Text)
    requires t != []
    ensures WellCut(Next(ctx, t).piece)
  {
    var u := t[0];
    if StartsComment(t) {
      if t[1] == SLASH {
        assert LineEnd(t, 0) == LineEnd(t, 1) == LineEnd(t, 2);
      }
    } else if IsQuote(u) && QuoteCloses(t, u) {
      var j := QuoteEnd(t, u, 1);
      assert t[..j + 1] == [u] + t[1..j] + [u];
    } else if u == BACKTICK {
      ChunkStepCuts(ctx.(templates := ctx.templates + 1), t, ctx.templates, true);
    } else if ClosesSubstitution(ctx, u) {
      var n := |ctx.subs|;
      ChunkStepCuts(ctx.(subs := ctx.subs[..n - 1]), t, ctx.subs[n - 1].id, false);
    }
  }

  /** The pieces, in order, are the text: a space, a comment, or a token as it renders, and every
      character in exactly one of them. */
  lemma {:induction false} PiecesCoverText(ctx: Context, t: Text)
    ensures Joined(Pieces(ctx, t)) == t
    ensures forall piece :: piece in Pieces(ctx, t) ==> WellCut(piece)
    decreases |t|
  {
    if t != [] {
      NextTakesPrefix(ctx, t);
      NextCuts(ctx, t);
      var step := Next(ctx, t);
      var rest := t[|step.piece.text|..];
      PiecesCoverText(step.ctx, rest);
      var pieces := Pieces(ctx, t);
      assert pieces[1..] == Pieces(step.ctx, rest);
      assert step.piece.text + rest == t;
    }
  }
}
