/** A secret typed with no echo: what is left of the keys, however they come in pieces. */
module HiddenKey {
  import opened Options
  import opened SourceText

  const CTRL_C: Unit := 0x03
  const CTRL_D: Unit := 0x04

  predicate IsEnter(u: Unit) {
    u == 0x0D || u == 0x0A
  }

  predicate IsBackspace(u: Unit) {
    u == 0x7F || u == 0x08
  }

  predicate IsTyped(u: Unit) {
    u >= SPACE && !IsBackspace(u)
  }

  /** The keys by their units: Enter and its line feed, delete and backspace, and what types a letter. */
  lemma KeysAsWritten(u: Unit)
    ensures IsEnter(u) <==> u == '\r' as int || u == '\n' as int
    ensures IsBackspace(u) <==> u in {8, 127}
    ensures IsTyped(u) <==> u >= ' ' as int && u != 127
    ensures CTRL_C == 'C' as int - '@' as int && CTRL_D == 'D' as int - '@' as int
  {
  }

  datatype Line = Typing(secret: Text) | Entered(secret: Text) | GivenUp

  function Key(line: Line, u: Unit): Line {
    if !line.Typing? then line
    else if IsEnter(u) then Entered(line.secret)
    else if u == CTRL_C || (u == CTRL_D && line.secret == []) then GivenUp
    else if IsBackspace(u) then Typing(if line.secret == [] then [] else line.secret[..|line.secret| - 1])
    else if u >= SPACE then Typing(line.secret + [u])
    else line
  }

  function Keys(line: Line, units: Text): Line
    decreases |units|
  {
    if units == [] then line else Keys(Key(line, units[0]), units[1..])
  }

  lemma {:induction false} KeysAppend(line: Line, first: Text, second: Text)
    ensures Keys(Keys(line, first), second) == Keys(line, first + second)
    decreases |first|
  {
    if first == [] {
      assert first + second == second;
    } else {
      assert (first + second)[1..] == first[1..] + second;
      KeysAppend(Key(line, first[0]), first[1..], second);
    }
  }

  lemma {:induction false} SettledStays(line: Line, units: Text)
    requires !line.Typing?
    ensures Keys(line, units) == line
    decreases |units|
  {
    if units != [] {
      SettledStays(line, units[1..]);
    }
  }

  // ----- The reader

  /** How many units the letter at the front takes: two for a surrogate pair, as `for ... of` steps. */
  function LetterLength(units: Text): (n: nat)
    requires units != []
    ensures 1 <= n <= |units| && n <= 2
  {
    if |units| > 1 && 0xD800 <= units[0] < 0xDC00 && 0xDC00 <= units[1] < 0xE000 then 2 else 1
  }

  /** Two units are one letter exactly when they are the surrogate pair of a code point past the basic
      plane (section 2.1 of RFC 2781). */
  lemma PairIsOneLetter(units: Text)
    requires units != []
    ensures LetterLength(units) == 2 <==>
      exists past: nat :: past < 0x10_0000 && units[..if |units| > 1 then 2 else 1] == Surrogates(past)
  {
    if LetterLength(units) == 2 {
      var past: nat := (units[0] as int - 0xD800) * 0x400 + (units[1] as int - 0xDC00);
      assert units[..2] == Surrogates(past);
    }
    forall past: nat | past < 0x10_0000 && units[..if |units| > 1 then 2 else 1] == Surrogates(past)
      ensures LetterLength(units) == 2
    {
      assert |Surrogates(past)| == 2;
      assert units[0] == Surrogates(past)[0] && units[1] == Surrogates(past)[1];
    }
  }

  /** The surrogate pair of the code point so far past the basic plane. */
  ghost function Surrogates(past: nat): Text
    requires past < 0x10_0000
  {
    [0xD800 + past / 0x400, 0xDC00 + past % 0x400]
  }

  lemma LetterGoesOn(secret: Text, letter: Text)
    requires letter != [] && LetterLength(letter) == |letter| && IsTyped(letter[0])
    ensures Keys(Typing(secret), letter) == Typing(secret + letter)
  {
    var one := secret + [letter[0]];
    assert Key(Typing(secret), letter[0]) == Typing(one);
    if |letter| == 1 {
      assert letter == [letter[0]] && letter[1..] == [];
    } else {
      assert letter[1..] == [letter[1]] && letter[1..][1..] == [];
      assert Key(Typing(one), letter[1]) == Typing(one + [letter[1]]);
      assert one + [letter[1]] == secret + letter;
      assert Keys(Typing(one), [letter[1]]) == Typing(one + [letter[1]]);
    }
  }

  /** What a whole letter, surrogate pairs included, does to the line. */
  lemma LetterTyped(secret: Text, letter: Text)
    requires letter != [] && LetterLength(letter) == |letter|
    ensures Keys(Typing(secret), letter) ==
      if letter == [0x0D] || letter == [0x0A] then Entered(secret)
      else if letter == [CTRL_C] || (letter == [CTRL_D] && secret == []) then GivenUp
      else if letter == [0x7F] || letter == [0x08] then Typing(if secret == [] then [] else secret[..|secret| - 1])
      else if letter[0] >= SPACE then Typing(secret + letter)
      else Typing(secret)
  {
    if IsTyped(letter[0]) {
      LetterGoesOn(secret, letter);
    } else {
      assert letter[1..] == [];
      assert letter == [letter[0]];
    }
  }

  class KeyReader {
    var secret: Text
    var listening: bool
    var raw: bool
    var newlines: nat
    /** What the promise was resolved with, once for each time it was. */
    var answers: seq<Option<Text>>

    /** Raw mode is on, and the keys are listened to, until the one answer is given. */
    ghost predicate Valid()
      reads this
    {
      && raw == listening == (answers == [])
      && newlines == |answers| <= 1
    }

    ghost function State(): Line
      reads this
    {
      if answers == [] then Typing(secret)
      else if answers[0].None? then GivenUp
      else Entered(answers[0].value)
    }

    constructor ()
      ensures Valid() && State() == Typing([])
    {
      secret, listening, raw, newlines, answers := [], true, true, 0, [];
    }

    method Settle(answer: Option<Text>)
      requires Valid() && listening
      modifies this
      ensures Valid() && answers == [answer] && secret == old(secret)
    {
      listening := false;
      raw := false;
      newlines := newlines + 1;
      answers := answers + [answer];
    }

    method OnData(chunk: Text)
      requires Valid()
      modifies this
      ensures Valid() && State() == Keys(old(State()), chunk)
      ensures old(answers) != [] ==> answers == old(answers)
    {
      hide Keys;
      hide Key;
      if !listening {
        SettledStays(State(), chunk);
        return;
      }
      var at := 0;
      assert chunk[0..] == chunk;
      while at < |chunk|
        invariant 0 <= at <= |chunk|
        invariant Valid() && answers == []
        invariant Keys(old(State()), chunk) == Keys(Typing(secret), chunk[at..])
      {
        var n := LetterLength(chunk[at..]);
        var letter := chunk[at..at + n];
        assert chunk[at..] == letter + chunk[at + n..];
        KeysAppend(Typing(secret), letter, chunk[at + n..]);
        LetterTyped(secret, letter);
        if letter == [0x0D] || letter == [0x0A] {
          SettledStays(Entered(secret), chunk[at + n..]);
          Settle(Some(secret));
          return;
        }
        if letter == [CTRL_C] || (letter == [CTRL_D] && secret == []) {
          SettledStays(GivenUp, chunk[at + n..]);
          Settle(None);
          return;
        }
        if letter == [0x7F] || letter == [0x08] {
          secret := if secret == [] then [] else secret[..|secret| - 1];
        } else if letter[0] >= SPACE {
          secret := secret + letter;
        }
        at := at + n;
      }
      NoKeys(Typing(secret), chunk[at..]);
    }

    method OnEnd()
      requires Valid()
      modifies this
      ensures Valid() && State() == (if old(State()).Typing? then GivenUp else old(State()))
      ensures old(answers) != [] ==> answers == old(answers)
    {
      if listening {
        Settle(None);
      }
    }
  }

  // ----- Chunks

  datatype Event = Data(chunk: Text) | End

  function Happen(line: Line, events: seq<Event>): Line
    decreases |events|
  {
    if events == [] then line
    else
      match events[0]
      case Data(chunk) => Happen(Keys(line, chunk), events[1..])
      case End => Happen(if line.Typing? then GivenUp else line, events[1..])
  }

  /** The keys that came before the terminal closed. */
  function KeysBefore(events: seq<Event>): Text
    decreases |events|
  {
    if events == [] || events[0].End? then [] else events[0].chunk + KeysBefore(events[1..])
  }

  /** How the keys are split into chunks changes nothing: the answer is that of all of them together,
      and a terminal that closes before an answer gives it up. */
  lemma {:induction false} ChunksDoNotMatter(line: Line, events: seq<Event>)
    ensures var whole := Keys(line, KeysBefore(events));
      Happen(line, events) == if whole.Typing? && End in events then GivenUp else whole
    decreases |events|
  {
    if events != [] {
      var rest := events[1..];
      assert End in events <==> events[0] == End || End in rest;
      match events[0]
      case Data(chunk) =>
        KeysAppend(line, chunk, KeysBefore(rest));
        ChunksDoNotMatter(Keys(line, chunk), rest);
      case End =>
        var now := if line.Typing? then GivenUp else line;
        SettledStays(now, KeysBefore(rest));
        ChunksDoNotMatter(now, rest);
    }
  }

  // ----- What is left of the keys

  function Weight(u: Unit): int {
    if IsBackspace(u) then -1 else if IsTyped(u) then 1 else 0
  }

  /** How many more letters than backspaces there are after `i` and before `j`. */
  function Net(units: Text, i: nat, j: nat): int
    requires j <= |units|
    decreases j
  {
    if j <= i + 1 then 0 else Net(units, i, j - 1) + Weight(units[j - 1])
  }

  /** Whether the letter at `i` is still there after `n` keys: it was typed, and the backspaces
      since then never outnumbered the letters. */
  ghost predicate Stays(units: Text, i: nat, n: nat)
    requires n <= |units|
  {
    i < n && IsTyped(units[i]) && forall j | i < j <= n :: Net(units, i, j) >= 0
  }

  /** The places, in order, of the letters the line holds after `n` keys. */
  function Kept(units: Text, n: nat): (places: seq<nat>)
    requires n <= |units|
    ensures forall k | 0 <= k < |places| :: places[k] < n && (k > 0 ==> places[k - 1] < places[k])
  {
    if n == 0 then []
    else
      var before := Kept(units, n - 1);
      if IsTyped(units[n - 1]) then before + [n - 1]
      else if IsBackspace(units[n - 1]) && before != [] then before[..|before| - 1]
      else before
  }

  /** The line holds exactly the letters that stay, and the letters and backspaces after one of them
      come to the letters held after it. */
  lemma {:induction false} KeptAreThoseThatStay(units: Text, n: nat)
    requires n <= |units|
    ensures forall i: nat :: i in Kept(units, n) <==> Stays(units, i, n)
    ensures forall k | 0 <= k < |Kept(units, n)| :: Net(units, Kept(units, n)[k], n) == |Kept(units, n)| - 1 - k
    decreases n
  {
    if n > 0 {
      KeptAreThoseThatStay(units, n - 1);
      var before, now, u := Kept(units, n - 1), Kept(units, n), units[n - 1];
      forall i: nat
        ensures i in now <==> Stays(units, i, n)
      {
        StaysStep(units, i, n);
        if i in before {
          var k :| 0 <= k < |before| && before[k] == i;
          assert Net(units, i, n - 1) == |before| - 1 - k;
        }
      }
      forall k | 0 <= k < |now|
        ensures Net(units, now[k], n) == |now| - 1 - k
      {
        if k < |before| {
          assert now[k] == before[k];
        }
      }
    }
  }

  lemma StaysStep(units: Text, i: nat, n: nat)
    requires 0 < n <= |units|
    ensures Stays(units, i, n) <==>
      if i == n - 1 then IsTyped(units[i]) else Stays(units, i, n - 1) && Net(units, i, n) >= 0
  {
    if i == n - 1 {
      assert Net(units, i, n) == 0;
    }
  }

  function At(units: Text, places: seq<nat>): Text
    requires forall k | 0 <= k < |places| :: places[k] < |units|
  {
    seq(|places|, k requires 0 <= k < |places| => units[places[k]])
  }

  /** Whether the key at `k` ends the line. */
  ghost predicate Ends(units: Text, k: nat)
    requires k < |units|
  {
    IsEnter(units[k]) || units[k] == CTRL_C || (units[k] == CTRL_D && forall i: nat :: !Stays(units, i, k))
  }

  /** What a key that does not end the line does to the letters held. */
  lemma HoldsOneMore(units: Text, n: nat)
    requires n < |units| && !Ends(units, n)
    ensures Key(Typing(At(units, Kept(units, n))), units[n]) == Typing(At(units, Kept(units, n + 1)))
  {
    hide Net;
    hide Stays;
    var before, u := Kept(units, n), units[n];
    NoneStays(units, n);
    if IsTyped(u) {
      assert At(units, before + [n]) == At(units, before) + [u];
    } else if IsBackspace(u) && before != [] {
      assert At(units, before[..|before| - 1]) == At(units, before)[..|before| - 1];
    }
  }

  /** The letters held are none exactly when none stays. */
  lemma NoneStays(units: Text, n: nat)
    requires n <= |units|
    ensures Kept(units, n) == [] <==> forall i: nat :: !Stays(units, i, n)
  {
    hide Net;
    hide Stays;
    KeptAreThoseThatStay(units, n);
    if Kept(units, n) != [] {
      assert Stays(units, Kept(units, n)[0], n);
    }
  }

  lemma KeysFirst(line: Line, units: Text)
    requires units != []
    ensures Keys(line, units) == Keys(Key(line, units[0]), units[1..])
    ensures |units| == 1 ==> Keys(line, units) == Key(line, units[0])
  {
  }

  lemma {:induction false} LineHoldsKept(units: Text, n: nat)
    requires n <= |units| && forall k | 0 <= k < n :: !Ends(units, k)
    ensures Keys(Typing([]), units[..n]) == Typing(At(units, Kept(units, n)))
    decreases n
  {
    hide Key;
    hide Ends;
    hide Keys;
    if n == 0 {
      NoKeys(Typing([]), units[..n]);
      assert At(units, []) == [];
    } else {
      hide Kept;
      hide At;
      LineHoldsKept(units, n - 1);
      HoldsOneMore(units, n - 1);
      assert units[..n] == units[..n - 1] + [units[n - 1]];
      KeysAppend(Typing([]), units[..n - 1], [units[n - 1]]);
      KeysFirst(Typing(At(units, Kept(units, n - 1))), [units[n - 1]]);
    }
  }

  lemma NoKeys(line: Line, units: Text)
    requires units == []
    ensures Keys(line, units) == line
  {
  }

  /** What a key that ends the line answers. */
  lemma EndAnswers(units: Text, k: nat)
    requires k < |units| && Ends(units, k)
    ensures var left := At(units, Kept(units, k));
      Key(Typing(left), units[k]) == if IsEnter(units[k]) then Entered(left) else GivenUp
  {
    hide Stays;
    NoneStays(units, k);
    hide Kept;
  }

  /** The answer to any keys: `k` is the first that ends the line, or their number when none does.
      What is entered are the letters that stay up to then, in the order they were typed. */
  lemma AnswerIsWhatStays(units: Text, k: nat)
    requires k <= |units| && forall j | 0 <= j < k :: !Ends(units, j)
    requires k < |units| ==> Ends(units, k)
    ensures var left := At(units, Kept(units, k));
      Keys(Typing([]), units) ==
      if k == |units| then Typing(left) else if IsEnter(units[k]) then Entered(left) else GivenUp
    ensures forall i: nat :: i in Kept(units, k) <==> Stays(units, i, k)
  {
    hide Keys;
    hide Key;
    hide Kept;
    hide At;
    hide Stays;
    hide Ends;
    hide Net;
    LineHoldsKept(units, k);
    KeptAreThoseThatStay(units, k);
    if k == |units| {
      assert units[..k] == units;
    } else {
      assert units == units[..k] + units[k..];
      KeysAppend(Typing([]), units[..k], units[k..]);
      var line := Typing(At(units, Kept(units, k)));
      EndAnswers(units, k);
      KeysFirst(line, units[k..]);
      SettledStays(Key(line, units[k]), units[k..][1..]);
    }
  }

  /** Backspace takes back the last letter typed if and only if the letter is one UTF-16 unit: of a
      letter outside the basic plane it leaves the first half. */
  lemma BackspaceTakesLetterIff(secret: Text, letter: Text, backspace: Unit)
    requires IsBackspace(backspace) && letter != [] && LetterLength(letter) == |letter| && IsTyped(letter[0])
    ensures Keys(Typing(secret), letter + [backspace]) == Typing(secret) <==> |letter| == 1
  {
    KeysAppend(Typing(secret), letter, [backspace]);
    LetterGoesOn(secret, letter);
    var line := secret + letter;
    BackspaceTakesUnit(line, backspace);
    assert line[..|line| - 1] == secret + letter[..|letter| - 1];
    if |letter| == 1 {
      assert secret + [] == secret;
    } else {
      assert |line[..|line| - 1]| == |secret| + 1;
    }
  }

  lemma BackspaceTakesUnit(line: Text, backspace: Unit)
    requires IsBackspace(backspace) && line != []
    ensures Keys(Typing(line), [backspace]) == Typing(line[..|line| - 1])
  {
    assert [backspace][1..] == [];
    assert Keys(Typing(line), [backspace]) == Keys(Key(Typing(line), backspace), []);
  }
}
