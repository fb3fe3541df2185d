/** What a token is, told by its spelling alone: which prefix of a text is the next piece, and of which kind. */
module LexerGrammar {
  import opened Options
  import opened SourceText
  import opened Lexer
  import opened LexerTemplates

  // ----- Spellings

  /** A unit by itself, or any unit behind a backslash. */
  datatype Char = Bare(unit: Unit) | Escaped(unit: Unit)

  function SpellOne(c: Char): Text {
    match c
    case Bare(u) => [u]
    case Escaped(u) => [BACKSLASH, u]
  }

  function Spell(chars: seq<Char>): Text {
    if chars == [] then [] else SpellOne(chars[0]) + Spell(chars[1..])
  }

  /** No unit by itself is a backslash or one of these. */
  predicate Without(chars: seq<Char>, stops: set<Unit>) {
    forall c :: c in chars && c.Bare? ==> c.unit != BACKSLASH && c.unit !in stops
  }

  /** A quoted literal: its quote, what is spelled on its line, the same quote. */
  ghost predicate QuotedAt(t: Text, chars: seq<Char>)
    requires t != []
  {
    Without(chars, {t[0], NEWLINE}) && [t[0]] + Spell(chars) + [t[0]] <= t
  }

  /** No dollar by itself stands before an opening brace. */
  predicate NoHole(chars: seq<Char>) {
    forall k :: 0 < k < |chars| ==> !(chars[k - 1] == Bare(DOLLAR) && chars[k] == Bare(OPEN_BRACE))
  }

  predicate ChunkCloser(closer: Text) {
    closer == Units("`") || closer == Units("${")
  }

  /** A template chunk: what opens it, what is spelled, and a backtick or the next hole. */
  ghost predicate ChunkAt(t: Text, chars: seq<Char>, closer: Text)
    requires t != []
  {
    Without(chars, {BACKTICK}) && NoHole(chars) && ChunkCloser(closer) && [t[0]] + Spell(chars) + closer <= t
  }

  /** Part of a regex: a unit, or a class between brackets. */
  datatype Atom = Single(c: Char) | Class(chars: seq<Char>)

  function SpellAtom(a: Atom): Text {
    match a
    case Single(c) => SpellOne(c)
    case Class(chars) => [OPEN_BRACKET] + Spell(chars) + [CLOSE_BRACKET]
  }

  function SpellAtoms(atoms: seq<Atom>): Text {
    if atoms == [] then [] else SpellAtom(atoms[0]) + SpellAtoms(atoms[1..])
  }

  /** Outside a class no bracket opens and no slash stands by itself; inside one no bracket closes; and
      neither goes past its line. */
  predicate LegalAtom(a: Atom) {
    match a
    case Single(c) => Without([c], {OPEN_BRACKET, SLASH, NEWLINE})
    case Class(chars) => Without(chars, {CLOSE_BRACKET, NEWLINE})
  }

  /** A regex literal: its body between slashes, and all the letters after it. */
  ghost predicate RegexAt(t: Text, atoms: seq<Atom>, flags: Text) {
    var s := [SLASH] + SpellAtoms(atoms) + [SLASH] + flags;
    && (forall a :: a in atoms ==> LegalAtom(a)) && (forall u :: u in flags ==> IsLetter(u))
    && s <= t && (|s| < |t| ==> !IsLetter(t[|s|]))
  }

  const KEYWORDS: seq<string> :=
    ["return", "typeof", "instanceof", "in", "of", "new", "delete", "void", "throw", "case", "do", "else", "yield", "await"]

  /** A slash opens a regex at the start, after a keyword of these, after a punctuator that ends no value and
      opens no JSX close, and inside a template's hole. */
  ghost predicate RegexAfter(prev: Option<Token>) {
    prev.Some? ==>
      || (prev.value.Ident? && exists k :: 0 <= k < |KEYWORDS| && prev.value.text == Units(KEYWORDS[k]))
      || (prev.value.Punct? && prev.value.text !in {Units(")"), Units("]"), Units("}"), Units("<")})
      || (prev.value.Template? && (prev.value.part == Head || prev.value.part == Middle))
  }

  /** A comment to the end of its line, which it leaves. */
  ghost predicate LineAt(t: Text, p: Text) {
    Units("//") <= p <= t && NEWLINE !in p && (|p| < |t| ==> t[|p|] == NEWLINE)
  }

  predicate NoClose(s: Text) {
    forall k :: 2 <= k < |s| - 1 ==> !(s[k] == STAR && s[k + 1] == SLASH)
  }

  /** A comment to the first star and slash past its opening, or to the end of the text. */
  ghost predicate BlockAt(t: Text, p: Text) {
    && Units("/*") <= p <= t
    && if p == t && NoClose(t) then true
       else |p| >= 4 && p[|p| - 2..] == Units("*/") && NoClose(p[..|p| - 1])
  }

  /** The longest run of a class from the start, whatever the first unit is. */
  ghost predicate RunAt(t: Text, p: Text, part: Unit -> bool) {
    && p != [] && p <= t
    && (forall k :: 0 < k < |p| ==> part(p[k]))
    && (|p| < |t| ==> !part(t[|p|]))
  }

  // ----- The next piece

  ghost predicate CutsQuote(t: Text, piece: Piece)
    requires t != []
  {
    if exists chars :: QuotedAt(t, chars) then
      exists chars :: QuotedAt(t, chars) && piece == Tok(Str(Spell(chars)), [t[0]] + Spell(chars) + [t[0]])
    else piece == Tok(Punct([t[0]]), [t[0]])
  }

  function PartOf(closer: Text, first: bool): Part {
    if closer == Units("`") then (if first then Full else Tail) else (if first then Head else Middle)
  }

  ghost predicate CutsChunk(t: Text, id: nat, first: bool, piece: Piece)
    requires t != []
  {
    if exists chars, closer :: ChunkAt(t, chars, closer) then
      exists chars, closer :: ChunkAt(t, chars, closer) &&
        piece == Tok(Template(Spell(chars), id, PartOf(closer, first)), [t[0]] + Spell(chars) + closer)
    else piece == Tok(Template(t[1..], id, if first then Full else Tail), t)
  }

  /** The next piece of `t`, after this token and inside these substitutions. */
  ghost predicate Cuts(prev: Option<Token>, subs: seq<Sub>, templates: nat, t: Text, piece: Piece)
    requires t != []
  {
    if IsSpace(t[0]) then piece == Space([t[0]])
    else if Units("//") <= t then piece.Comment? && LineAt(t, piece.text)
    else if Units("/*") <= t then piece.Comment? && BlockAt(t, piece.text)
    else if t[0] == APOSTROPHE || t[0] == QUOTE then CutsQuote(t, piece)
    else if t[0] == BACKTICK then CutsChunk(t, templates, true, piece)
    else if t[0] == CLOSE_BRACE && subs != [] && Top(subs).braces == 0 then CutsChunk(t, Top(subs).id, false, piece)
    else if t[0] == SLASH && RegexAfter(prev) && (exists atoms, flags :: RegexAt(t, atoms, flags)) then
      exists atoms, flags :: RegexAt(t, atoms, flags) &&
        var s := [SLASH] + SpellAtoms(atoms) + [SLASH] + flags; piece == Tok(Regex(s), s)
    else if IsIdentStart(t[0]) then piece == Tok(Ident(piece.text), piece.text) && RunAt(t, piece.text, IsIdentPart)
    else if IsDigit(t[0]) then piece == Tok(Number(piece.text), piece.text) && RunAt(t, piece.text, IsNumberPart)
    else if Units("=>") <= t then piece == Tok(Punct(Units("=>")), Units("=>"))
    else piece == Tok(Punct([t[0]]), [t[0]])
  }

  // ----- Quoted literals

  /** What is spelled up to the quote is where the scan stops. */
  lemma {:induction false} QuoteReads(t: Text, q: Unit, j: nat, chars: seq<Char>, tail: Text)
    requires j <= |t| && q != BACKSLASH && Without(chars, {q, NEWLINE}) && t[j..] == Spell(chars) + ([q] + tail)
    ensures QuoteEnd(t, q, j) == j + |Spell(chars)|
    decreases |chars|
  {
    hide Spell;
    SpellNone();
    if chars == [] {
      assert t[j] == t[j..][0] == q;
    } else {
      var first, rest := SpellOne(chars[0]), Spell(chars[1..]);
      SpellFirst(chars);
      Regroup(first, rest, [q] + tail);
      SpelledAhead(t, j, first, rest + ([q] + tail));
      assert forall c :: c in chars[1..] ==> c in chars;
      QuoteReads(t, q, j + |first|, chars[1..], tail);
      assert chars[0] in chars;
    }
  }

  lemma SpellNone()
    ensures Spell([]) == []
  {
  }

  lemma SpellFirst(chars: seq<Char>)
    requires chars != []
    ensures Spell(chars) == SpellOne(chars[0]) + Spell(chars[1..])
  {
  }

  lemma SpelledAhead(t: Text, j: nat, first: Text, rest: Text)
    requires j <= |t| && t[j..] == first + rest && first != []
    ensures j + |first| <= |t| && t[j] == first[0] && t[j + |first|..] == rest
  {
    assert t[j] == t[j..][0];
    assert t[j + |first|..] == t[j..][|first|..];
  }

  /** And where the scan stops at the quote, it passed over characters of the literal. */
  lemma {:induction false} QuoteSpells(t: Text, q: Unit, j: nat) returns (chars: seq<Char>)
    requires var e := QuoteEnd(t, q, j); e < |t| && t[e] == q
    ensures Without(chars, {q, NEWLINE}) && t[j..QuoteEnd(t, q, j)] == Spell(chars)
    decreases |t| - j
  {
    var e := QuoteEnd(t, q, j);
    if j == e {
      chars := [];
    } else if t[j] == BACKSLASH {
      var rest := QuoteSpells(t, q, j + 2);
      chars := [Escaped(t[j + 1])] + rest;
      assert t[j..e] == [t[j], t[j + 1]] + t[j + 2..e] && chars[1..] == rest;
    } else {
      var rest := QuoteSpells(t, q, j + 1);
      chars := [Bare(t[j])] + rest;
      assert t[j..e] == [t[j]] + t[j + 1..e] && chars[1..] == rest;
    }
  }

  lemma QuotedIs(t: Text, chars: seq<Char>)
    requires t != [] && t[0] != BACKSLASH && QuotedAt(t, chars)
    ensures QuoteCloses(t, t[0]) && Spell(chars) == t[1..QuoteEnd(t, t[0], 1)]
    ensures [t[0]] + Spell(chars) + [t[0]] == t[..QuoteEnd(t, t[0], 1) + 1]
  {
    hide Spell;
    InThree(t, t[0], Spell(chars), [t[0]]);
    var e := 1 + |Spell(chars)|;
    QuoteReads(t, t[0], 1, chars, t[e + 1..]);
    assert t[e] == t[e..e + 1][0];
  }

  /** What begins a text with a body and an end of its own. */
  lemma InThree(t: Text, u: Unit, body: Text, end: Text)
    requires [u] + body + end <= t
    ensures var e := 1 + |body|;
      && e + |end| <= |t| && t[1..] == body + (end + t[e + |end|..])
      && t[1..e] == body && t[e..e + |end|] == end && [u] + body + end == t[..e + |end|]
  {
    var s, e := [u] + body + end, 1 + |body|;
    assert t[..|s|] == s;
    assert t[1..e] == s[1..e] == body;
    assert t[e..|s|] == s[e..] == end;
    assert t[1..] == t[1..e] + t[e..|s|] + t[|s|..];
  }

  lemma QuoteIs(ctx: Context, t: Text, piece: Piece)
    requires t != [] && IsQuote(t[0])
    ensures CutsQuote(t, piece) <==> QuoteStep(ctx, t).piece == piece
  {
    hide QuoteEnd;
    hide QuotedAt;
    hide Spell;
    forall chars | QuotedAt(t, chars)
      ensures QuoteStep(ctx, t).piece == Tok(Str(Spell(chars)), [t[0]] + Spell(chars) + [t[0]])
    {
      QuotedIs(t, chars);
    }
    if QuoteCloses(t, t[0]) {
      var chars := QuoteFound(t);
    }
  }

  lemma QuoteFound(t: Text) returns (chars: seq<Char>)
    requires t != [] && QuoteCloses(t, t[0])
    ensures QuotedAt(t, chars)
  {
    var e := QuoteEnd(t, t[0], 1);
    chars := QuoteSpells(t, t[0], 1);
    hide QuoteEnd;
    hide Spell;
    assert [t[0]] + t[1..e] + [t[e]] == t[..e + 1];
  }

  // ----- Template chunks

  lemma {:induction false} ChunkReads(t: Text, j: nat, chars: seq<Char>, closer: Text, tail: Text)
    requires j <= |t| && Without(chars, {BACKTICK}) && NoHole(chars) && ChunkCloser(closer)
    requires t[j..] == Spell(chars) + (closer + tail)
    ensures ChunkEnd(t, j) == j + |Spell(chars)|
    decreases |chars|
  {
    if chars == [] {
      assert t[j] == t[j..][0] && (|closer| == 2 ==> t[j + 1] == t[j..][1]);
    } else {
      var first, rest := SpellOne(chars[0]), Spell(chars[1..]);
      SpellFirst(chars);
      Regroup(first, rest, closer + tail);
      SpelledAhead(t, j, first, rest + (closer + tail));
      assert forall c :: c in chars[1..] ==> c in chars;
      ChunkReads(t, j + |first|, chars[1..], closer, tail);
      assert chars[0] in chars;
      if chars[0] == Bare(DOLLAR) && j + 1 < |t| {
        assert t[j + 1] == t[j + 1..][0];
        if |chars| > 1 {
          assert chars[1..][0] == chars[1] && chars[1] in chars;
          assert t[j + 1] == SpellOne(chars[1])[0];
        }
      }
    }
  }

  lemma NoHoleBefore(c: Char, rest: seq<Char>)
    requires NoHole(rest) && (rest != [] ==> !(c == Bare(DOLLAR) && rest[0] == Bare(OPEN_BRACE)))
    ensures NoHole([c] + rest)
  {
    var chars := [c] + rest;
    forall k | 0 < k < |chars| ensures !(chars[k - 1] == Bare(DOLLAR) && chars[k] == Bare(OPEN_BRACE)) {
      assert chars[k] == rest[k - 1];
      if k > 1 {
        assert chars[k - 1] == rest[k - 2];
      }
    }
  }

  lemma {:induction false} ChunkSpells(t: Text, j: nat) returns (chars: seq<Char>)
    requires ChunkEnd(t, j) < |t|
    ensures Without(chars, {BACKTICK}) && NoHole(chars) && t[j..ChunkEnd(t, j)] == Spell(chars)
    ensures chars != [] ==> chars[0] == if t[j] == BACKSLASH then Escaped(t[j + 1]) else Bare(t[j])
    decreases |t| - j
  {
    var e := ChunkEnd(t, j);
    if t[j] == BACKSLASH {
      var rest := ChunkSpells(t, j + 2);
      chars := [Escaped(t[j + 1])] + rest;
      assert t[j..e] == [t[j], t[j + 1]] + t[j + 2..e] && chars[1..] == rest;
      NoHoleBefore(Escaped(t[j + 1]), rest);
    } else if t[j] == BACKTICK || (t[j] == DOLLAR && j + 1 < |t| && t[j + 1] == OPEN_BRACE) {
      chars := [];
    } else {
      var rest := ChunkSpells(t, j + 1);
      chars := [Bare(t[j])] + rest;
      assert t[j..e] == [t[j]] + t[j + 1..e] && chars[1..] == rest;
      NoHoleBefore(Bare(t[j]), rest);
    }
  }

  lemma ChunkAtIs(t: Text, chars: seq<Char>, closer: Text)
    requires t != [] && ChunkAt(t, chars, closer)
    ensures var e := ChunkEnd(t, 1);
      && e < |t| && Spell(chars) == t[1..e] && e + |closer| <= |t| && closer == t[e..e + |closer|]
      && [t[0]] + Spell(chars) + closer == t[..e + |closer|]
  {
    hide Spell;
    hide Without;
    hide NoHole;
    hide ChunkEnd;
    ClosersAsWritten();
    InThree(t, t[0], Spell(chars), closer);
    ChunkReads(t, 1, chars, closer, t[1 + |Spell(chars)| + |closer|..]);
  }

  lemma ClosersAsWritten()
    ensures Units("`") == [BACKTICK] && Units("${") == [DOLLAR, OPEN_BRACE]
  {
  }

  lemma ChunkFound(t: Text) returns (chars: seq<Char>, closer: Text)
    requires t != [] && ChunkEnd(t, 1) < |t|
    ensures ChunkAt(t, chars, closer)
  {
    var e := ChunkEnd(t, 1);
    ChunkEndStops(t, 1);
    ClosersAsWritten();
    chars := ChunkSpells(t, 1);
    hide ChunkEnd;
    hide Spell;
    hide NoHole;
    closer := if t[e] == BACKTICK then [BACKTICK] else [DOLLAR, OPEN_BRACE];
    assert closer == t[e..e + |closer|];
    assert [t[0]] + t[1..e] + t[e..e + |closer|] == t[..e + |closer|];
  }

  lemma ChunkIs(ctx: Context, t: Text, id: nat, first: bool, piece: Piece)
    requires t != []
    ensures CutsChunk(t, id, first, piece) <==> ChunkStep(ctx, t, id, first).piece == piece
  {
    hide ChunkEnd;
    hide ChunkAt;
    hide Spell;
    ClosersAsWritten();
    forall chars, closer | ChunkAt(t, chars, closer)
      ensures ChunkStep(ctx, t, id, first).piece ==
              Tok(Template(Spell(chars), id, PartOf(closer, first)), [t[0]] + Spell(chars) + closer)
    {
      ChunkAtStep(ctx, t, id, first, chars, closer);
    }
    if ChunkEnd(t, 1) < |t| {
      var chars, closer := ChunkFound(t);
    }
  }

  lemma ChunkAtStep(ctx: Context, t: Text, id: nat, first: bool, chars: seq<Char>, closer: Text)
    requires t != [] && ChunkAt(t, chars, closer)
    ensures ChunkStep(ctx, t, id, first).piece ==
            Tok(Template(Spell(chars), id, PartOf(closer, first)), [t[0]] + Spell(chars) + closer)
  {
    hide ChunkEnd;
    hide Spell;
    hide NoHole;
    hide Without;
    ChunkAtIs(t, chars, closer);
    ClosersAsWritten();
    var e := ChunkEnd(t, 1);
    assert t[e] == t[e..e + |closer|][0] == closer[0];
  }

  // ----- Runs

  lemma {:induction false} LettersRun(t: Text, j: nat)
    requires j <= |t|
    ensures var e := LettersEnd(t, j);
      (forall k :: j <= k < e ==> IsLetter(t[k])) && (e < |t| ==> !IsLetter(t[e]))
    decreases |t| - j
  {
    if j < |t| && IsLetter(t[j]) {
      LettersRun(t, j + 1);
    }
  }

  lemma {:induction false} IdentRuns(t: Text, j: nat)
    requires j <= |t|
    ensures var e := IdentEnd(t, j);
      (forall k :: j <= k < e ==> IsIdentPart(t[k])) && (e < |t| ==> !IsIdentPart(t[e]))
    decreases |t| - j
  {
    if j < |t| && IsIdentPart(t[j]) {
      IdentRuns(t, j + 1);
    }
  }

  lemma {:induction false} NumberRuns(t: Text, j: nat)
    requires j <= |t|
    ensures var e := NumberEnd(t, j);
      (forall k :: j <= k < e ==> IsNumberPart(t[k])) && (e < |t| ==> !IsNumberPart(t[e]))
    decreases |t| - j
  {
    if j < |t| && IsNumberPart(t[j]) {
      NumberRuns(t, j + 1);
    }
  }

  lemma OneRun(t: Text, e: nat, p: Text, part: Unit -> bool)
    requires 0 < e <= |t| && (forall k :: 1 <= k < e ==> part(t[k])) && (e < |t| ==> !part(t[e]))
    ensures RunAt(t, p, part) <==> p == t[..e]
  {
    if RunAt(t, p, part) {
      assert forall k :: 1 <= k < |p| ==> part(t[k]);
    }
  }

  // ----- Regex literals

  lemma {:induction false} ClassReads(t: Text, j: nat, chars: seq<Char>, tail: Text)
    requires j <= |t| && Without(chars, {CLOSE_BRACKET, NEWLINE}) && t[j..] == Spell(chars) + ([CLOSE_BRACKET] + tail)
    ensures RegexEnd(t, j, true) == RegexEnd(t, j + |Spell(chars)| + 1, false)
    decreases |chars|
  {
    hide Spell;
    SpellNone();
    if chars == [] {
      assert t[j] == t[j..][0] == CLOSE_BRACKET;
    } else {
      var first, rest := SpellOne(chars[0]), Spell(chars[1..]);
      SpellFirst(chars);
      Regroup(first, rest, [CLOSE_BRACKET] + tail);
      SpelledAhead(t, j, first, rest + ([CLOSE_BRACKET] + tail));
      assert forall c :: c in chars[1..] ==> c in chars;
      ClassReads(t, j + |first|, chars[1..], tail);
      assert chars[0] in chars;
    }
  }

  lemma {:induction false} RegexReads(t: Text, j: nat, atoms: seq<Atom>, flags: Text, tail: Text)
    requires j <= |t| && (forall a :: a in atoms ==> LegalAtom(a)) && (forall u :: u in flags ==> IsLetter(u))
    requires t[j..] == SpellAtoms(atoms) + ([SLASH] + flags + tail) && (tail != [] ==> !IsLetter(tail[0]))
    ensures RegexEnd(t, j, false) == j + |SpellAtoms(atoms)| + 1 + |flags|
    decreases |atoms|
  {
    hide RegexEnd;
    hide LegalAtom;
    hide IsLetter;
    hide SpellAtom;
    if atoms == [] {
      assert [] + ([SLASH] + flags + tail) == [SLASH] + flags + tail;
      FlagsRead(t, j, flags, tail);
    } else {
      hide SpellAtoms;
      var others := atoms[1..];
      var first, rest := SpellAtom(atoms[0]), SpellAtoms(others) + ([SLASH] + flags + tail);
      assert atoms == [atoms[0]] + others;
      AtomsBegin(atoms[0], others);
      Regroup(first, SpellAtoms(others), [SLASH] + flags + tail);
      assert forall a :: a in others ==> a in atoms;
      AtomRead(t, j, atoms[0], rest);
      RegexReads(t, j + |first|, others, flags, tail);
    }
  }

  lemma Regroup(a: Text, b: Text, c: Text)
    ensures (a + b) + c == a + (b + c)
  {
  }

  lemma Glue(t: Text, j: nat, m: nat, k: nat)
    requires j <= m <= k <= |t|
    ensures t[j..k] == t[j..m] + t[m..k]
  {
  }

  lemma FlagsRead(t: Text, j: nat, flags: Text, tail: Text)
    requires j <= |t| && t[j..] == [SLASH] + flags + tail && (forall u :: u in flags ==> IsLetter(u))
    requires tail != [] ==> !IsLetter(tail[0])
    ensures RegexEnd(t, j, false) == j + 1 + |flags|
  {
    assert t[j] == t[j..][0];
    LettersRun(t, j + 1);
    var e, f := LettersEnd(t, j + 1), j + 1 + |flags|;
    assert forall k :: j + 1 <= k < f ==> t[k] == t[j..][k - j] == flags[k - j - 1];
    assert f < |t| ==> t[f] == t[j..][f - j] == tail[0];
  }

  lemma AtomRead(t: Text, j: nat, a: Atom, rest: Text)
    requires j <= |t| && LegalAtom(a) && t[j..] == SpellAtom(a) + rest
    ensures RegexEnd(t, j, false) == RegexEnd(t, j + |SpellAtom(a)|, false)
    ensures j + |SpellAtom(a)| <= |t| && t[j + |SpellAtom(a)|..] == rest
  {
    SpelledAhead(t, j, SpellAtom(a), rest);
    match a
    case Single(c) =>
      assert c in [c];
    case Class(chars) =>
      assert t[j + 1..] == t[j..][1..];
      assert t[j + 1..] == Spell(chars) + ([CLOSE_BRACKET] + rest);
      ClassReads(t, j + 1, chars, rest);
  }

  /** What the scan of a regex passed over, the rest of a class first when it began in one. */
  ghost predicate Scanned(t: Text, j: nat, inClass: bool, chars: seq<Char>, atoms: seq<Atom>, k: nat) {
    && j <= k < |t| && t[k] == SLASH && RegexEnd(t, j, inClass) == LettersEnd(t, k + 1)
    && (forall a :: a in atoms ==> LegalAtom(a)) && Without(chars, {CLOSE_BRACKET, NEWLINE})
    && t[j..k] == (if inClass then Spell(chars) + [CLOSE_BRACKET] else []) + SpellAtoms(atoms)
  }

  lemma {:induction false} RegexSpells(t: Text, j: nat, inClass: bool) returns (chars: seq<Char>, atoms: seq<Atom>, k: nat)
    requires RegexEnd(t, j, inClass) > 0
    ensures Scanned(t, j, inClass, chars, atoms, k)
    decreases |t| - j
  {
    hide Scanned;
    if t[j] == SLASH && !inClass {
      chars, atoms, k := [], [], j;
      ScannedNone(t, j);
    } else if t[j] == BACKSLASH {
      chars, atoms, k := RegexSpells(t, j + 2, inClass);
      chars, atoms := OneMore(t, j, inClass, Escaped(t[j + 1]), chars, atoms, k);
    } else if t[j] == OPEN_BRACKET && !inClass {
      chars, atoms, k := RegexSpells(t, j + 1, true);
      ClassBegins(t, j, chars, atoms, k);
      chars, atoms := [], [Class(chars)] + atoms;
    } else if t[j] == CLOSE_BRACKET && inClass {
      chars, atoms, k := RegexSpells(t, j + 1, false);
      ClassEnds(t, j, chars, atoms, k);
      chars := [];
    } else {
      chars, atoms, k := RegexSpells(t, j + 1, inClass);
      chars, atoms := OneMore(t, j, inClass, Bare(t[j]), chars, atoms, k);
    }
  }

  lemma ScannedNone(t: Text, j: nat)
    requires j < |t| && t[j] == SLASH
    ensures Scanned(t, j, false, [], [], j)
  {
    assert t[j..j] == [];
  }

  lemma ClassTurns(t: Text, j: nat)
    requires j < |t|
    ensures t[j] == OPEN_BRACKET ==> RegexEnd(t, j, false) == RegexEnd(t, j + 1, true)
    ensures t[j] == CLOSE_BRACKET ==> RegexEnd(t, j, true) == RegexEnd(t, j + 1, false)
  {
  }

  lemma ClassBegins(t: Text, j: nat, chars: seq<Char>, atoms: seq<Atom>, k: nat)
    requires j < |t| && t[j] == OPEN_BRACKET && Scanned(t, j + 1, true, chars, atoms, k)
    ensures Scanned(t, j, false, [], [Class(chars)] + atoms, k)
  {
    hide RegexEnd;
    hide LettersEnd;
    hide Spell;
    hide SpellAtoms;
    ClassTurns(t, j);
    var all, body, rest := [Class(chars)] + atoms, Spell(chars), SpellAtoms(atoms);
    AtomsBegin(Class(chars), atoms);
    Glue(t, j, j + 1, k);
    assert t[j..j + 1] == [OPEN_BRACKET];
    Regroup([OPEN_BRACKET], body, [CLOSE_BRACKET]);
    Regroup([OPEN_BRACKET], body + [CLOSE_BRACKET], rest);
    assert [] + SpellAtoms(all) == SpellAtoms(all);
  }

  lemma AtomsBegin(a: Atom, atoms: seq<Atom>)
    ensures SpellAtoms([a] + atoms) == SpellAtom(a) + SpellAtoms(atoms)
  {
    assert ([a] + atoms)[1..] == atoms;
  }

  lemma SpellBegins(c: Char, chars: seq<Char>)
    ensures Spell([c] + chars) == SpellOne(c) + Spell(chars)
    ensures Spell([]) == []
  {
    assert ([c] + chars)[1..] == chars;
  }

  lemma ClassEnds(t: Text, j: nat, chars: seq<Char>, atoms: seq<Atom>, k: nat)
    requires j < |t| && t[j] == CLOSE_BRACKET && Scanned(t, j + 1, false, chars, atoms, k)
    ensures Scanned(t, j, true, [], atoms, k)
  {
    hide RegexEnd;
    hide LettersEnd;
    hide Spell;
    hide SpellAtoms;
    hide LegalAtom;
    ClassTurns(t, j);
    SpellBegins(Bare(0), []);
    Glue(t, j, j + 1, k);
    assert t[j..j + 1] == [] + [CLOSE_BRACKET];
    assert [] + SpellAtoms(atoms) == SpellAtoms(atoms);
  }

  /** One more character before what was scanned, of the class it is in or by itself. */
  lemma OneMore(t: Text, j: nat, inClass: bool, c: Char, chars: seq<Char>, atoms: seq<Atom>, k: nat)
      returns (more: seq<Char>, all: seq<Atom>)
    requires var n := |SpellOne(c)|;
      Scanned(t, j + n, inClass, chars, atoms, k) && RegexEnd(t, j, inClass) == RegexEnd(t, j + n, inClass) && t[j..j + n] == SpellOne(c)
    requires if inClass then Without([c], {CLOSE_BRACKET, NEWLINE}) else LegalAtom(Single(c))
    ensures Scanned(t, j, inClass, more, all, k)
  {
    hide RegexEnd;
    hide LettersEnd;
    hide Spell;
    hide SpellAtoms;
    hide LegalAtom;
    hide SpellOne;
    Glue(t, j, j + |SpellOne(c)|, k);
    if inClass {
      more, all := [c] + chars, atoms;
      WithoutBefore(c, chars, {CLOSE_BRACKET, NEWLINE});
      SpellBegins(c, chars);
      Regroup(SpellOne(c), Spell(chars), [CLOSE_BRACKET]);
      Regroup(SpellOne(c), Spell(chars) + [CLOSE_BRACKET], SpellAtoms(atoms));
    } else {
      more, all := chars, [Single(c)] + atoms;
      AtomsBegin(Single(c), atoms);
      assert [] + SpellAtoms(atoms) == SpellAtoms(atoms) && [] + SpellAtoms(all) == SpellAtoms(all);
    }
  }

  lemma WithoutBefore(c: Char, chars: seq<Char>, stops: set<Unit>)
    requires Without([c], stops) && Without(chars, stops)
    ensures Without([c] + chars, stops)
  {
    assert c in [c];
  }

  lemma RegexAtIs(t: Text, atoms: seq<Atom>, flags: Text)
    requires RegexAt(t, atoms, flags)
    ensures var s := [SLASH] + SpellAtoms(atoms) + [SLASH] + flags;
      |s| == RegexEnd(t, 1, false) && s == t[..|s|]
  {
    hide SpellAtoms;
    hide RegexEnd;
    hide LegalAtom;
    var body, end := SpellAtoms(atoms), [SLASH] + flags;
    assert [SLASH] + body + [SLASH] + flags == [SLASH] + body + end;
    InThree(t, SLASH, body, end);
    var tail := t[1 + |body| + |end|..];
    RegexReads(t, 1, atoms, flags, tail);
  }

  lemma RegexIs(t: Text)
    requires t != [] && t[0] == SLASH
    ensures (exists atoms, flags :: RegexAt(t, atoms, flags)) <==> RegexEnd(t, 1, false) > 0
    ensures forall atoms, flags :: RegexAt(t, atoms, flags) ==>
      [SLASH] + SpellAtoms(atoms) + [SLASH] + flags == t[..RegexEnd(t, 1, false)]
  {
    forall atoms, flags | RegexAt(t, atoms, flags)
      ensures RegexEnd(t, 1, false) > 0
      ensures [SLASH] + SpellAtoms(atoms) + [SLASH] + flags == t[..RegexEnd(t, 1, false)]
    {
      RegexAtIs(t, atoms, flags);
    }
    if RegexEnd(t, 1, false) > 0 {
      RegexFound(t);
    }
  }

  lemma RegexFound(t: Text)
    requires t != [] && t[0] == SLASH && RegexEnd(t, 1, false) > 0
    ensures exists atoms, flags :: RegexAt(t, atoms, flags)
  {
    hide RegexEnd;
    hide LettersEnd;
    hide SpellAtoms;
    hide LegalAtom;
    hide Spell;
    var _, atoms, k := RegexSpells(t, 1, false);
    LettersRun(t, k + 1);
    var e := LettersEnd(t, k + 1);
    assert t[1..k] == SpellAtoms(atoms);
    BetweenSlashes(t, k, e);
    assert RegexAt(t, atoms, t[k + 1..e]);
  }

  lemma BetweenSlashes(t: Text, k: nat, e: nat)
    requires 1 <= k < e <= |t| && t[0] == SLASH && t[k] == SLASH
    ensures [SLASH] + t[1..k] + [SLASH] + t[k + 1..e] == t[..e]
  {
  }

  lemma FirstKeywords()
    ensures Units(KEYWORDS[0]) == [0x72, 0x65, 0x74, 0x75, 0x72, 0x6E]
    ensures Units(KEYWORDS[1]) == [0x74, 0x79, 0x70, 0x65, 0x6F, 0x66]
    ensures Units(KEYWORDS[2]) == [0x69, 0x6E, 0x73, 0x74, 0x61, 0x6E, 0x63, 0x65, 0x6F, 0x66]
    ensures Units(KEYWORDS[3]) == [0x69, 0x6E]
    ensures Units(KEYWORDS[4]) == [0x6F, 0x66]
    ensures Units(KEYWORDS[5]) == [0x6E, 0x65, 0x77]
    ensures Units(KEYWORDS[6]) == [0x64, 0x65, 0x6C, 0x65, 0x74, 0x65]
  {
  }

  lemma LastKeywords()
    ensures Units(KEYWORDS[7]) == [0x76, 0x6F, 0x69, 0x64]
    ensures Units(KEYWORDS[8]) == [0x74, 0x68, 0x72, 0x6F, 0x77]
    ensures Units(KEYWORDS[9]) == [0x63, 0x61, 0x73, 0x65]
    ensures Units(KEYWORDS[10]) == [0x64, 0x6F]
    ensures Units(KEYWORDS[11]) == [0x65, 0x6C, 0x73, 0x65]
    ensures Units(KEYWORDS[12]) == [0x79, 0x69, 0x65, 0x6C, 0x64]
    ensures Units(KEYWORDS[13]) == [0x61, 0x77, 0x61, 0x69, 0x74]
  {
  }

  lemma KeywordsAsWritten(text: Text)
    ensures IsKeyword(text) <==> exists k :: 0 <= k < |KEYWORDS| && text == Units(KEYWORDS[k])
  {
    FirstKeywords();
    LastKeywords();
  }

  lemma RegexAfterIs(prev: Option<Token>)
    ensures RegexAfter(prev) <==> RegexAllowed(prev)
  {
    hide IsKeyword;
    if prev.Some? && prev.value.Ident? {
      KeywordsAsWritten(prev.value.text);
    }
    assert Units(")") == [CLOSE_PAREN] && Units("]") == [CLOSE_BRACKET] && Units("}") == [CLOSE_BRACE] && Units("<") == [LESS];
  }

  // ----- Comments

  lemma {:induction false} LineRuns(t: Text, j: nat)
    requires j <= |t|
    ensures var e := LineEnd(t, j);
      (forall k :: j <= k < e ==> t[k] != NEWLINE) && (e < |t| ==> t[e] == NEWLINE)
    decreases |t| - j
  {
    if j < |t| && t[j] != NEWLINE {
      LineRuns(t, j + 1);
    }
  }

  lemma {:induction false} BlockRuns(t: Text, j: nat)
    requires j <= |t|
    ensures var e := BlockEnd(t, j);
      && (forall k :: j <= k < e - 2 && k + 1 < |t| ==> !(t[k] == STAR && t[k + 1] == SLASH))
      && ((e >= j + 2 && t[e - 2] == STAR && t[e - 1] == SLASH) ||
          (e == |t| && forall k :: j <= k < |t| - 1 ==> !(t[k] == STAR && t[k + 1] == SLASH)))
    decreases |t| - j
  {
    if j + 1 < |t| && !(t[j] == STAR && t[j + 1] == SLASH) {
      BlockRuns(t, j + 1);
    }
  }

  lemma LineIs(t: Text, p: Text)
    requires Units("//") <= t
    ensures LineAt(t, p) <==> p == t[..LineEnd(t, 0)]
  {
    LineRuns(t, 0);
    var e := LineEnd(t, 0);
    assert t[0] == Units("//")[0] && t[1] == Units("//")[1];
    assert e >= 2;
    assert Units("//") == t[..2];
    if LineAt(t, p) {
      assert forall k :: 0 <= k < |p| ==> t[k] == p[k] != NEWLINE;
    }
    if p == t[..e] {
      assert t[..2] <= p;
    }
  }

  lemma BlockIs(t: Text, p: Text)
    requires Units("/*") <= t
    ensures BlockAt(t, p) <==> p == t[..BlockEnd(t, 2)]
  {
    BlockRuns(t, 2);
    var e := BlockEnd(t, 2);
    assert Units("/*") == t[..2];
    if p == t[..e] {
      assert t[..2] <= p;
      if !(p == t && NoClose(t)) {
        BlockCloses(t, e);
      }
    }
    if BlockAt(t, p) && !(p == t && NoClose(t)) {
      ClosesOnce(t, p, e);
    }
  }

  lemma BlockCloses(t: Text, e: nat)
    requires |t| >= 2 && e == BlockEnd(t, 2) && !(t[..e] == t && NoClose(t))
    ensures e >= 4 && t[..e][e - 2..] == Units("*/") && NoClose(t[..e][..e - 1])
  {
    BlockRuns(t, 2);
    assert t[..|t|] == t;
    assert e >= 4 && t[e - 2] == STAR && t[e - 1] == SLASH;
    assert t[..e][e - 2..] == [STAR, SLASH];
  }

  lemma ClosesOnce(t: Text, p: Text, e: nat)
    requires |t| >= 2 && e == BlockEnd(t, 2) && p <= t
    requires |p| >= 4 && p[|p| - 2..] == Units("*/") && NoClose(p[..|p| - 1])
    ensures p == t[..e]
  {
    BlockRuns(t, 2);
    var k := |p| - 2;
    assert p[k] == p[k..][0] == STAR && p[k + 1] == p[k..][1] == SLASH;
    assert t[k] == STAR && t[k + 1] == SLASH;
    var s := p[..|p| - 1];
    assert forall k :: 2 <= k < |s| ==> s[k] == t[k];
  }

  // ----- The lexer takes the next piece, and no other

  lemma NextIsTheCut(ctx: Context, t: Text, piece: Piece)
    requires t != []
    ensures Cuts(ctx.prev, ctx.subs, ctx.templates, t, piece) <==> Next(ctx, t).piece == piece
  {
    hide CutsQuote;
    hide CutsChunk;
    hide QuoteStep;
    hide ChunkStep;
    hide LineAt;
    hide BlockAt;
    hide RunAt;
    hide RegexAt;
    hide RegexAfter;
    hide RegexAllowed;
    hide RegexEnd;
    hide IdentEnd;
    hide NumberEnd;
    hide LineEnd;
    hide BlockEnd;
    hide IsSpace;
    hide IsIdentStart;
    hide IsIdentPart;
    hide IsNumberPart;
    hide SpellAtoms;
    var u := t[0];
    OpensComment(t);
    if IsSpace(u) {
    } else if Units("//") <= t {
      LineIs(t, piece.text);
    } else if Units("/*") <= t {
      BlockIs(t, piece.text);
    } else if IsQuote(u) {
      QuoteIs(ctx, t, piece);
    } else if u == BACKTICK {
      ChunkIs(ctx.(templates := ctx.templates + 1), t, ctx.templates, true, piece);
    } else if ClosesSubstitution(ctx, u) {
      var n := |ctx.subs|;
      ChunkIs(ctx.(subs := ctx.subs[..n - 1]), t, ctx.subs[n - 1].id, false, piece);
    } else if u == SLASH {
      RegexIs(t);
      RegexAfterIs(ctx.prev);
      SlashIsNone();
    } else if IsIdentStart(u) {
      IdentRuns(t, 1);
      OneRun(t, IdentEnd(t, 1), piece.text, IsIdentPart);
    } else if IsDigit(u) {
      NumberRuns(t, 1);
      OneRun(t, NumberEnd(t, 1), piece.text, IsNumberPart);
    } else {
      assert Units("=>") == [EQUALS, GREATER];
      assert |t| > 1 ==> t[..2] == [t[0], t[1]];
      assert Units("=>") <= t <==> |t| > 1 && t[0] == EQUALS && t[1] == GREATER;
    }
  }

  lemma SlashIsNone()
    ensures !IsIdentStart(SLASH) && !IsDigit(SLASH) && !IsSpace(SLASH)
    ensures Units("=>")[0] != SLASH
  {
  }

  lemma OpensComment(t: Text)
    requires t != []
    ensures Units("//") <= t <==> StartsComment(t) && t[1] == SLASH
    ensures Units("/*") <= t <==> StartsComment(t) && t[1] == STAR
  {
    assert Units("//") == [SLASH, SLASH] && Units("/*") == [SLASH, STAR];
    assert |t| > 1 ==> t[..2] == [t[0], t[1]];
  }

  // ----- The whole text

  /** The pieces of `t`, each the next one after those before it. */
  ghost predicate Reads(prev: Option<Token>, nest: Nest, t: Text, pieces: seq<Piece>)
    decreases |pieces|
  {
    if pieces == [] then t == []
    else
      && t != [] && nest.Nest? && pieces[0].text <= t
      && Cuts(prev, nest.subs, nest.templates, t, pieces[0])
      && if pieces[0].Tok?
         then Reads(Some(pieces[0].token), Feed(nest, pieces[0].token), t[|pieces[0].text|..], pieces[1..])
         else Reads(prev, nest, t[|pieces[0].text|..], pieces[1..])
  }

  /** A text is read in one way, the lexer's own: its pieces are those the grammar cuts, one after the other. */
  lemma {:induction false} ReadsIffPieces(ctx: Context, t: Text, pieces: seq<Piece>)
    ensures Reads(ctx.prev, Nest(ctx.subs, ctx.templates), t, pieces) <==> pieces == Pieces(ctx, t)
    decreases |t|
  {
    hide Cuts;
    hide Next;
    hide Feed;
    if t == [] {
    } else {
      NextTakesPrefix(ctx, t);
      StepFeeds(ctx, t);
      var step := Next(ctx, t);
      var rest := t[|step.piece.text|..];
      assert Pieces(ctx, t) == [step.piece] + Pieces(step.ctx, rest);
      if pieces != [] {
        NextIsTheCut(ctx, t, pieces[0]);
        StepKeepsPrev(ctx, t);
        ReadsIffPieces(step.ctx, rest, pieces[1..]);
        assert pieces == [pieces[0]] + pieces[1..];
      }
    }
  }

  lemma StepKeepsPrev(ctx: Context, t: Text)
    requires t != []
    ensures var step := Next(ctx, t);
      step.ctx.prev == if step.piece.Tok? then Some(step.piece.token) else ctx.prev
  {
  }

  /** So whatever stands after it, a quoted literal is one string: an escaped quote does not close it. */
  lemma StringIsRead(ctx: Context, q: Unit, chars: seq<Char>, tail: Text)
    requires (q == APOSTROPHE || q == QUOTE) && Without(chars, {q, NEWLINE})
    ensures var s := [q] + Spell(chars) + [q]; Next(ctx, s + tail).piece == Tok(Str(Spell(chars)), s)
  {
    hide Spell;
    var s := [q] + Spell(chars) + [q];
    var t := s + tail;
    assert s <= t && t[0] == q;
    QuotedIs(t, chars);
    QuoteIs(ctx, t, Tok(Str(Spell(chars)), s));
  }

  /** And a quote stands by itself if and only if no literal it opens closes on its line. */
  lemma QuoteAloneIff(ctx: Context, t: Text)
    requires t != [] && IsQuote(t[0])
    ensures Next(ctx, t).piece == Tok(Punct([t[0]]), [t[0]]) <==> !exists chars :: QuotedAt(t, chars)
  {
    QuoteIs(ctx, t, Tok(Punct([t[0]]), [t[0]]));
  }
}
