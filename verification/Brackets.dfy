/** Bracket matching over tokens, backward from a closer and forward from an opener. Brackets are
    matched by depth alone, whatever their kinds. */
module Brackets {
  import opened SourceText
  import opened Lexer

  predicate Opens(token: Token) {
    token.Punct? && token.text in {[OPEN_PAREN], [OPEN_BRACKET], [OPEN_BRACE]}
  }

  predicate Closes(token: Token) {
    token.Punct? && token.text in {[CLOSE_PAREN], [CLOSE_BRACKET], [CLOSE_BRACE]}
  }

  lemma BracketsAsWritten(token: Token)
    ensures Opens(token) <==> token in {Punct(Units("(")), Punct(Units("[")), Punct(Units("{"))}
    ensures Closes(token) <==> token in {Punct(Units(")")), Punct(Units("]")), Punct(Units("}"))}
    ensures COMMA_TOKEN == Punct(Units(","))
  {
    assert Units("(") == [OPEN_PAREN] && Units("[") == [OPEN_BRACKET] && Units("{") == [OPEN_BRACE];
    assert Units(")") == [CLOSE_PAREN] && Units("]") == [CLOSE_BRACKET] && Units("}") == [CLOSE_BRACE];
    assert Units(",") == [COMMA];
  }

  const COMMA_TOKEN := Punct([COMMA])

  function Delta(token: Token): int {
    if Opens(token) then 1 else if Closes(token) then -1 else 0
  }

  /** Openers less closers. */
  function Net(s: seq<Token>): int {
    if s == [] then 0 else Net(s[..|s| - 1]) + Delta(s[|s| - 1])
  }

  /** No closer without its opener, and no opener without its closer. */
  ghost predicate Balanced(s: seq<Token>) {
    Net(s) == 0 && forall k :: 0 <= k <= |s| ==> Net(s[..k]) >= 0
  }

  ghost predicate Matched(tokens: seq<Token>, open: nat, close: nat) {
    && open < close < |tokens| && Opens(tokens[open]) && Closes(tokens[close])
    && Balanced(tokens[open + 1..close])
  }

  lemma {:induction false} NetAppend(a: seq<Token>, b: seq<Token>)
    ensures Net(a + b) == Net(a) + Net(b)
    decreases |b|
  {
    if b == [] {
      assert a + b == a;
    } else {
      assert (a + b)[..|a + b| - 1] == a + b[..|b| - 1];
      NetAppend(a, b[..|b| - 1]);
    }
  }

  lemma NetSplit(tokens: seq<Token>, i: nat, j: nat, k: nat)
    requires i <= j <= k <= |tokens|
    ensures Net(tokens[i..k]) == Net(tokens[i..j]) + Net(tokens[j..k])
  {
    assert tokens[i..k] == tokens[i..j] + tokens[j..k];
    NetAppend(tokens[i..j], tokens[j..k]);
  }

  lemma NetOne(token: Token)
    ensures Net([token]) == Delta(token)
  {
    assert [token][..0] == [];
  }

  // ----- Backward

  /** Reading back from `close`, the depth an opener at `j` brings down to nothing. */
  ghost predicate Evens(tokens: seq<Token>, j: nat, close: nat) {
    j <= close < |tokens| && Opens(tokens[j]) && Net(tokens[j..close + 1]) == 0
  }

  lemma StepBack(tokens: seq<Token>, j: nat, close: nat)
    requires j <= close < |tokens|
    ensures Net(tokens[j..close + 1]) == Net(tokens[j + 1..close + 1]) + Delta(tokens[j])
  {
    NetSplit(tokens, j, j + 1, close + 1);
    assert tokens[j..j + 1] == [tokens[j]];
    NetOne(tokens[j]);
  }

  /** `open` matches the closer at `close` and nothing else does; nothing at all when it is -1. */
  ghost predicate OnlyMatch(tokens: seq<Token>, open: int, close: nat) {
    forall k: nat :: k <= close ==> (Matched(tokens, k, close) <==> k == open)
  }

  ghost predicate NoneEvens(tokens: seq<Token>, open: int, close: int) {
    forall k: nat :: open < k <= close ==> !Evens(tokens, k, close)
  }

  /** Closers less openers, from `j` to `close`. */
  ghost function DepthBack(tokens: seq<Token>, j: nat, close: int): int
    requires j <= close + 1 <= |tokens|
  {
    -Net(tokens[j..close + 1])
  }

  lemma NoneReadBack(tokens: seq<Token>, close: int)
    requires -1 <= close < |tokens|
    ensures DepthBack(tokens, close + 1, close) == 0 && NoneEvens(tokens, close, close)
  {
  }

  /** One token further back: either its opener evens the depth, or none up to there does. */
  lemma TurnBack(tokens: seq<Token>, j: nat, close: nat, depth: int)
    requires j <= close < |tokens| && depth == DepthBack(tokens, j + 1, close) && NoneEvens(tokens, j, close)
    ensures var deeper := if Closes(tokens[j]) then depth + 1 else if Opens(tokens[j]) then depth - 1 else depth;
      && deeper == DepthBack(tokens, j, close)
      && if !Closes(tokens[j]) && Opens(tokens[j]) && deeper == 0 then Evens(tokens, j, close)
         else NoneEvens(tokens, j - 1, close)
  {
    hide Net;
    StepBack(tokens, j, close);
  }

  lemma NoMatch(tokens: seq<Token>, close: nat)
    requires NoneEvens(tokens, -1, close)
    ensures OnlyMatch(tokens, -1, close)
  {
    forall k: nat | k <= close && Matched(tokens, k, close) ensures false {
      MatchedEvens(tokens, k, close);
    }
  }

  /** From a closer back to its opener: the only match there is, -1 when there is none. */
  method OpenerOf(tokens: seq<Token>, close: int) returns (open: int)
    requires -1 <= close < |tokens|
    ensures -1 <= open <= close
    ensures open >= 0 ==> Evens(tokens, open, close)
    ensures NoneEvens(tokens, open, close)
    ensures close >= 0 && Closes(tokens[close]) ==> OnlyMatch(tokens, open, close)
  {
    hide DepthBack;
    hide Evens;
    hide NoneEvens;
    hide Matched;
    hide OnlyMatch;
    hide Opens;
    hide Closes;
    var depth := 0;
    open := close;
    NoneReadBack(tokens, close);
    while open >= 0
      invariant -1 <= open <= close
      invariant depth == DepthBack(tokens, open + 1, close)
      invariant NoneEvens(tokens, open, close)
    {
      TurnBack(tokens, open, close, depth);
      if Closes(tokens[open]) {
        depth := depth + 1;
      } else if Opens(tokens[open]) {
        depth := depth - 1;
        if depth == 0 {
          if Closes(tokens[close]) {
            FirstEvenMatches(tokens, open, close);
          }
          return;
        }
      }
      open := open - 1;
    }
    if close >= 0 {
      NoMatch(tokens, close);
    }
  }

  lemma MatchedEvens(tokens: seq<Token>, open: nat, close: nat)
    requires Matched(tokens, open, close)
    ensures Evens(tokens, open, close) && NoneEvens(tokens, open, close)
  {
    hide Net;
    EndsAtCloser(tokens, open + 1, close);
    StepBack(tokens, open, close);
    forall k: nat | open < k <= close ensures !Evens(tokens, k, close) {
      DeepInside(tokens, open, k, close);
    }
  }

  lemma DeepInside(tokens: seq<Token>, open: nat, k: nat, close: nat)
    requires Matched(tokens, open, close) && open < k <= close
    ensures Net(tokens[k..close + 1]) < 0
  {
    hide Net;
    var between := tokens[open + 1..close];
    PrefixOfSlice(tokens, open + 1, k, close);
    assert Net(between[..k - open - 1]) >= 0;
    NetSplit(tokens, open + 1, k, close);
    EndsAtCloser(tokens, k, close);
  }

  lemma PrefixOfSlice(tokens: seq<Token>, i: nat, j: nat, k: nat)
    requires i <= j <= k <= |tokens|
    ensures tokens[i..k][..j - i] == tokens[i..j]
  {
  }

  lemma EndsAtCloser(tokens: seq<Token>, j: nat, close: nat)
    requires j <= close < |tokens| && Closes(tokens[close])
    ensures Net(tokens[j..close + 1]) == Net(tokens[j..close]) - 1
  {
    NetSplit(tokens, j, close, close + 1);
    assert tokens[close..close + 1] == [tokens[close]];
    NetOne(tokens[close]);
  }

  /** The nearest opener that evens the depth is the one whose closer is at `close`. */
  lemma FirstEvenMatches(tokens: seq<Token>, open: nat, close: nat)
    requires Evens(tokens, open, close) && Closes(tokens[close]) && NoneEvens(tokens, open, close)
    ensures OnlyMatch(tokens, open, close)
  {
    BetweenBalances(tokens, open, close);
    MatchedEvens(tokens, open, close);
    forall k: nat | k <= close && Matched(tokens, k, close) ensures k == open {
      MatchedEvens(tokens, k, close);
    }
  }

  lemma BetweenBalances(tokens: seq<Token>, open: nat, close: nat)
    requires Evens(tokens, open, close) && Closes(tokens[close]) && NoneEvens(tokens, open, close)
    ensures Matched(tokens, open, close)
  {
    StepBack(tokens, open, close);
    assert open < close && Net(tokens[open + 1..close + 1]) == -1;
    EndsAtCloser(tokens, open + 1, close);
    var between := tokens[open + 1..close];
    forall k | 0 <= k <= |between| ensures Net(between[..k]) >= 0 {
      assert between[..k] == tokens[open + 1..open + 1 + k];
      PrefixNotBelow(tokens, open, open + 1 + k, close);
    }
  }

  lemma PrefixNotBelow(tokens: seq<Token>, open: nat, j: nat, close: nat)
    requires open < j <= close < |tokens| && Closes(tokens[close]) && NoneEvens(tokens, open, close)
    requires Net(tokens[open + 1..close + 1]) == -1
    ensures Net(tokens[open + 1..j]) >= 0
  {
    NetSplit(tokens, open + 1, j, close + 1);
    DeepUntilOpener(tokens, open, j, close);
  }

  /** Past the nearest evening opener, every suffix still has a closer to match. */
  lemma {:induction false} DeepUntilOpener(tokens: seq<Token>, open: nat, j: nat, close: nat)
    requires open < j <= close < |tokens| && Closes(tokens[close]) && NoneEvens(tokens, open, close)
    ensures Net(tokens[j..close + 1]) < 0
    decreases close - j
  {
    StepBack(tokens, j, close);
    if j == close {
      assert tokens[j + 1..close + 1] == [];
    } else {
      DeepUntilOpener(tokens, open, j + 1, close);
      assert !Evens(tokens, j, close);
    }
  }

  // ----- Forward

  function Flush(item: seq<Token>): seq<seq<Token>> {
    if item == [] then [] else [item]
  }

  predicate Angle(token: Token, u: Unit) {
    token == Punct([u])
  }

  /** How deep the scan is past `token`. */
  function Deeper(token: Token, depth: nat, angles: bool): nat
    requires Closes(token) ==> depth > 0
  {
    if Opens(token) || (angles && Angle(token, LESS)) then depth + 1
    else if Closes(token) || (angles && Angle(token, GREATER) && depth > 0) then depth - 1
    else depth
  }

  /** The items of the text that starts at `t`, `item` being the one under way. */
  function Items(t: seq<Token>, depth: nat, item: seq<Token>, angles: bool): seq<seq<Token>>
    decreases |t|
  {
    if t == [] || (depth == 0 && Closes(t[0])) then Flush(item)
    else if depth == 0 && t[0] == COMMA_TOKEN then [item] + Items(t[1..], 0, [], angles)
    else Items(t[1..], Deeper(t[0], depth, angles), item + [t[0]], angles)
  }

  lemma ItemsNext(tokens: seq<Token>, j: nat, depth: nat, item: seq<Token>, angles: bool, items: seq<seq<Token>>)
    requires j < |tokens|
    ensures items + Items(tokens[j..], depth, item, angles) ==
      if depth == 0 && Closes(tokens[j]) then items + Flush(item)
      else if depth == 0 && tokens[j] == COMMA_TOKEN then (items + [item]) + Items(tokens[j + 1..], 0, [], angles)
      else items + Items(tokens[j + 1..], Deeper(tokens[j], depth, angles), item + [tokens[j]], angles)
  {
    assert tokens[j..][0] == tokens[j] && tokens[j..][1..] == tokens[j + 1..];
    if depth == 0 && tokens[j] == COMMA_TOKEN && !Closes(tokens[j]) {
      var more := Items(tokens[j + 1..], 0, [], angles);
      assert items + ([item] + more) == (items + [item]) + more;
    }
  }

  /** From an opener forward: the split of what follows, up to the first unmatched closer. */
  method ListItems(tokens: seq<Token>, open: nat, angles: bool) returns (items: seq<seq<Token>>)
    requires open < |tokens|
    ensures items == Items(tokens[open + 1..], 0, [], angles)
    ensures var t := tokens[open + 1..];
      exists stop: nat :: EndsAt(t, stop, angles) && Splits(items, t[..stop], angles)
  {
    items := [];
    var item: seq<Token> := [];
    var depth := 0;
    var j := open + 1;
    while j < |tokens|
      invariant open < j <= |tokens| && depth >= 0
      invariant items + Items(tokens[j..], depth, item, angles) == Items(tokens[open + 1..], 0, [], angles)
    {
      var token := tokens[j];
      ItemsNext(tokens, j, depth, item, angles, items);
      if depth == 0 && Closes(token) {
        break;
      }
      if depth == 0 && token == COMMA_TOKEN {
        items := items + [item];
        item := [];
        j := j + 1;
        continue;
      }
      depth := Deeper(token, depth, angles);
      item := item + [token];
      j := j + 1;
    }
    assert j == |tokens| ==> tokens[j..] == [];
    if item != [] {
      items := items + [item];
    }
    SplitOfAny(tokens[open + 1..], angles);
  }

  function Rejoined(items: seq<seq<Token>>): seq<Token> {
    if items == [] then []
    else if |items| == 1 then items[0]
    else items[0] + [COMMA_TOKEN] + Rejoined(items[1..])
  }

  /** No comma of the item stands outside its brackets. */
  ghost predicate NoTopComma(item: seq<Token>) {
    forall k :: 0 <= k < |item| && item[k] == COMMA_TOKEN ==> Net(item[..k]) > 0
  }

  ghost predicate NeverBelow(s: seq<Token>) {
    forall k :: 0 <= k <= |s| ==> Net(s[..k]) >= 0
  }

  /** What a list of items says of the tokens it was made from. */
  ghost predicate Lists(items: seq<seq<Token>>, between: seq<Token>) {
    && (between == Rejoined(items) || between == Rejoined(items) + [COMMA_TOKEN])
    && (items == [] <==> between == [])
    && forall item :: item in items ==> Balanced(item) && NoTopComma(item)
  }

  lemma ItemGrows(item: seq<Token>, token: Token)
    requires NeverBelow(item) && NoTopComma(item)
    requires token == COMMA_TOKEN ==> Net(item) > 0
    requires Closes(token) ==> Net(item) > 0
    ensures NeverBelow(item + [token]) && NoTopComma(item + [token])
    ensures Net(item + [token]) == Net(item) + Delta(token)
  {
    var more := item + [token];
    assert item[..|item|] == item;
    NetAppend(item, [token]);
    NetOne(token);
    forall k | 0 <= k <= |more| ensures Net(more[..k]) >= 0 {
      if k <= |item| {
        assert more[..k] == item[..k];
      } else {
        assert more[..k] == more;
      }
    }
    forall k | 0 <= k < |more| && more[k] == COMMA_TOKEN ensures Net(more[..k]) > 0 {
      assert more[..k] == item[..k];
      if k == |item| {
        assert item[..k] == item;
      }
    }
  }

  lemma BalancedGoesOn(item: seq<Token>, rest: seq<Token>)
    requires rest != [] && Balanced(item + rest)
    ensures item + rest == (item + [rest[0]]) + rest[1..]
    ensures Net(item) + Delta(rest[0]) >= 0
  {
    hide Net;
    hide Delta;
    var all := item + rest;
    assert all[..|item| + 1] == item + [rest[0]];
    NetAppend(item, [rest[0]]);
    NetOne(rest[0]);
    assert Net(all[..|item| + 1]) >= 0;
  }

  lemma FlushLists(item: seq<Token>)
    requires Balanced(item) && NoTopComma(item)
    ensures Lists(Flush(item), item)
  {
  }

  lemma ItemsPastComma(item: seq<Token>, rest: seq<Token>, tail: seq<Token>)
    requires rest != [] && rest[0] == COMMA_TOKEN
    ensures Items(rest + tail, 0, item, false) == [item] + Items(rest[1..] + tail, 0, [], false)
  {
    var t := rest + tail;
    assert t[0] == rest[0] && t[1..] == rest[1..] + tail;
  }

  lemma AtComma(item: seq<Token>, rest: seq<Token>, tail: seq<Token>)
    requires rest != [] && rest[0] == COMMA_TOKEN && Net(item) == 0
    requires Balanced(item) && NoTopComma(item)
    requires Lists(Items(rest[1..] + tail, 0, [], false), [] + rest[1..])
    ensures Lists(Items(rest + tail, Net(item), item, false), item + rest)
  {
    hide Items;
    hide Lists;
    hide Net;
    hide NoTopComma;
    ItemsPastComma(item, rest, tail);
    ListsOneMore(item, Items(rest[1..] + tail, 0, [], false), rest[1..]);
    assert item + rest == item + ([COMMA_TOKEN] + rest[1..]);
  }

  lemma PastToken(item: seq<Token>, rest: seq<Token>, tail: seq<Token>)
    requires rest != [] && Net(item) >= 0 && Net(item) + Delta(rest[0]) >= 0
    requires !(Net(item) == 0 && rest[0] == COMMA_TOKEN)
    ensures Net(item + [rest[0]]) >= 0
    ensures Items(rest + tail, Net(item), item, false)
         == Items(rest[1..] + tail, Net(item + [rest[0]]), item + [rest[0]], false)
  {
    var t := rest + tail;
    assert t[0] == rest[0] && t[1..] == rest[1..] + tail;
    NetAppend(item, [rest[0]]);
    NetOne(rest[0]);
  }

  /** The forward scan stops at the closer that ends `rest`, and its items rejoined with commas are
      what it read, but for one comma at the end. */
  lemma {:induction false} ItemsRejoin(item: seq<Token>, rest: seq<Token>, tail: seq<Token>)
    requires NeverBelow(item) && NoTopComma(item) && Net(item) >= 0
    requires Balanced(item + rest)
    requires tail == [] || Closes(tail[0])
    ensures Lists(Items(rest + tail, Net(item), item, false), item + rest)
    decreases |rest|
  {
    if rest == [] {
      assert item + rest == item && rest + tail == tail;
      FlushLists(item);
    } else {
      BalancedGoesOn(item, rest);
      if Net(item) == 0 && rest[0] == COMMA_TOKEN {
        CommaSplits(item, rest);
        EmptyItem(rest[1..]);
        ItemsRejoin([], rest[1..], tail);
        AtComma(item, rest, tail);
      } else {
        PastToken(item, rest, tail);
        ItemGrows(item, rest[0]);
        ItemsRejoin(item + [rest[0]], rest[1..], tail);
      }
    }
  }

  lemma EmptyItem(rest: seq<Token>)
    ensures NeverBelow([]) && NoTopComma([]) && [] + rest == rest
  {
  }

  lemma ListsOneMore(item: seq<Token>, items: seq<seq<Token>>, rest: seq<Token>)
    requires Lists(items, [] + rest) && Balanced(item) && NoTopComma(item)
    ensures Lists([item] + items, item + ([COMMA_TOKEN] + rest))
  {
    var all := [item] + items;
    assert [] + rest == rest && all[1..] == items;
    if items != [] {
      assert Rejoined(all) == item + [COMMA_TOKEN] + Rejoined(items);
      if rest == Rejoined(items) {
        assert item + ([COMMA_TOKEN] + rest) == Rejoined(all);
      } else {
        assert item + ([COMMA_TOKEN] + rest) == Rejoined(all) + [COMMA_TOKEN];
      }
    } else {
      assert item + ([COMMA_TOKEN] + rest) == Rejoined(all) + [COMMA_TOKEN];
    }
  }

  lemma CommaIsFlat()
    ensures Delta(COMMA_TOKEN) == 0
  {
  }

  lemma CommaSplits(item: seq<Token>, rest: seq<Token>)
    requires rest != [] && rest[0] == COMMA_TOKEN && Net(item) == 0 && Balanced(item + rest)
    requires NeverBelow(item)
    ensures Balanced([] + rest[1..]) && Balanced(item)
  {
    hide Delta;
    CommaIsFlat();
    var before, tail := item + [COMMA_TOKEN], rest[1..];
    assert [] + tail == tail;
    assert item + rest == before + tail;
    NetAppend(item, [COMMA_TOKEN]);
    NetOne(COMMA_TOKEN);
    NetAppend(before, tail);
    TailNeverBelow(before, tail);
  }

  lemma TailNeverBelow(before: seq<Token>, tail: seq<Token>)
    requires Net(before) == 0 && NeverBelow(before + tail)
    ensures NeverBelow(tail)
  {
    forall k | 0 <= k <= |tail| ensures Net(tail[..k]) >= 0 {
      assert (before + tail)[..|before| + k] == before + tail[..k];
      NetAppend(before, tail[..k]);
    }
  }

  /** For a matched pair the items are those of the tokens strictly between, all of them. */
  lemma ItemsOfMatch(tokens: seq<Token>, open: nat, close: nat)
    requires Matched(tokens, open, close)
    ensures Lists(Items(tokens[open + 1..], 0, [], false), tokens[open + 1..close])
  {
    var between := tokens[open + 1..close];
    assert tokens[open + 1..] == between + tokens[close..];
    assert [] + between == between;
    ItemsRejoin([], between, tokens[close..]);
  }

  /** Backward and forward agree: the opener found from a closer lists exactly the tokens between
      the two. */
  method ItemsBefore(tokens: seq<Token>, close: nat) returns (open: int, items: seq<seq<Token>>)
    requires close < |tokens| && Closes(tokens[close])
    ensures open >= 0 <==> exists k :: Matched(tokens, k, close)
    ensures open >= 0 ==> Matched(tokens, open, close) && Lists(items, tokens[open + 1..close])
  {
    items := [];
    open := OpenerOf(tokens, close);
    if open >= 0 {
      items := ListItems(tokens, open, false);
      ItemsOfMatch(tokens, open, close);
    }
  }

  // ----- The split of any tokens, angle brackets counted or not

  /** How many brackets are open after the tokens: a `<` opens one where angles count, and a `>` then
      closes one if any is open. */
  function Depth(s: seq<Token>, angles: bool): int {
    if s == [] then 0
    else
      var d, token := Depth(s[..|s| - 1], angles), s[|s| - 1];
      if token in {Punct(Units("(")), Punct(Units("[")), Punct(Units("{"))} then d + 1
      else if token in {Punct(Units(")")), Punct(Units("]")), Punct(Units("}"))} then d - 1
      else if angles && token == Punct(Units("<")) then d + 1
      else if angles && token == Punct(Units(">")) && d > 0 then d - 1
      else d
  }

  ghost predicate TopComma(s: seq<Token>, k: nat, angles: bool)
    requires k < |s|
  {
    s[k] == Punct(Units(",")) && Depth(s[..k], angles) == 0
  }

  ghost predicate TopCloser(s: seq<Token>, k: nat, angles: bool)
    requires k < |s|
  {
    s[k] in {Punct(Units(")")), Punct(Units("]")), Punct(Units("}"))} && Depth(s[..k], angles) == 0
  }

  /** Where a list ends: at the first closer of nothing in it, or with the text. */
  ghost predicate EndsAt(t: seq<Token>, stop: nat, angles: bool) {
    && stop <= |t| && (stop < |t| ==> TopCloser(t, stop, angles))
    && forall k: nat | k < stop :: !TopCloser(t, k, angles)
  }

  /** Rejoined with commas, the items are the tokens, but for a comma at their end. No item has a comma
      outside its brackets, and only the last may leave one open. */
  ghost predicate Splits(items: seq<seq<Token>>, between: seq<Token>, angles: bool) {
    && (between == Rejoined(items) || between == Rejoined(items) + [Punct(Units(","))])
    && (items == [] <==> between == [])
    && forall i :: 0 <= i < |items| ==>
         && (forall k: nat | k < |items[i]| :: !TopComma(items[i], k, angles))
         && (i < |items| - 1 ==> Depth(items[i], angles) == 0)
  }

  lemma DepthNext(s: seq<Token>, token: Token, angles: bool)
    requires Depth(s, angles) >= 0 && !(Depth(s, angles) == 0 && Closes(token))
    ensures Depth(s + [token], angles) == Deeper(token, Depth(s, angles), angles)
  {
    BracketsAsWritten(token);
    assert (s + [token])[..|s|] == s;
    assert Units("<") == [LESS] && Units(">") == [GREATER];
  }

  /** Past tokens that leave nothing open, depth is counted afresh. */
  lemma {:induction false} DepthAfresh(a: seq<Token>, b: seq<Token>, angles: bool)
    requires Depth(a, angles) == 0
    ensures Depth(a + b, angles) == Depth(b, angles)
    decreases |b|
  {
    if b == [] {
      assert a + b == a;
    } else {
      assert (a + b)[..|a + b| - 1] == a + b[..|b| - 1];
      DepthAfresh(a, b[..|b| - 1], angles);
    }
  }

  lemma CommaIsFlatToo(item: seq<Token>, angles: bool)
    requires Depth(item, angles) == 0
    ensures Depth(item + [COMMA_TOKEN], angles) == 0
  {
    BracketsAsWritten(COMMA_TOKEN);
    DepthNext(item, COMMA_TOKEN, angles);
  }

  /** An item grows by a token: what is nowhere in it at the top is nowhere in the longer one. */
  lemma GrowsOn(item: seq<Token>, token: Token, angles: bool)
    requires forall k: nat | k < |item| :: !TopComma(item, k, angles) && !TopCloser(item, k, angles)
    requires !(Depth(item, angles) == 0 && (Closes(token) || token == COMMA_TOKEN))
    ensures forall k: nat | k < |item| + 1 :: !TopComma(item + [token], k, angles) && !TopCloser(item + [token], k, angles)
  {
    hide Depth;
    BracketsAsWritten(token);
    var more := item + [token];
    forall k: nat | k < |more|
      ensures !TopComma(more, k, angles) && !TopCloser(more, k, angles)
    {
      assert more[..k] == item[..k];
      if k < |item| {
        assert !TopComma(item, k, angles) && !TopCloser(item, k, angles);
      } else {
        assert item[..k] == item;
      }
    }
  }

  lemma CloserBefore(a: seq<Token>, b: seq<Token>, k: nat, angles: bool)
    requires k < |a|
    ensures TopCloser(a + b, k, angles) <==> TopCloser(a, k, angles)
  {
    hide Depth;
    assert (a + b)[..k] == a[..k];
  }

  lemma CloserAfter(a: seq<Token>, b: seq<Token>, k: nat, angles: bool)
    requires Depth(a, angles) == 0 && k < |b|
    ensures TopCloser(a + b, |a| + k, angles) <==> TopCloser(b, k, angles)
  {
    hide Depth;
    assert (a + b)[..|a| + k] == a + b[..k];
    DepthAfresh(a, b[..k], angles);
  }

  lemma CommaClosesNothing(item: seq<Token>, angles: bool)
    ensures !TopCloser(item + [COMMA_TOKEN], |item|, angles)
    ensures COMMA_TOKEN == Punct(Units(","))
  {
    hide Depth;
    BracketsAsWritten(COMMA_TOKEN);
  }

  lemma EndsPastComma(item: seq<Token>, rest: seq<Token>, stop: nat, angles: bool)
    requires Depth(item, angles) == 0 && forall k: nat | k < |item| :: !TopCloser(item, k, angles)
    requires EndsAt(rest, stop, angles)
    ensures EndsAt((item + [COMMA_TOKEN]) + rest, |item| + 1 + stop, angles)
  {
    hide Depth;
    hide TopCloser;
    var head := item + [COMMA_TOKEN];
    CommaIsFlatToo(item, angles);
    CommaClosesNothing(item, angles);
    forall k: nat | k < |head|
      ensures !TopCloser(head + rest, k, angles)
    {
      CloserBefore(head, rest, k, angles);
      if k < |item| {
        CloserBefore(item, [COMMA_TOKEN], k, angles);
      }
    }
    forall k: nat | k < |rest|
      ensures TopCloser(head + rest, |head| + k, angles) <==> TopCloser(rest, k, angles)
    {
      CloserAfter(head, rest, k, angles);
    }
    forall k: nat | k < |head| + stop
      ensures !TopCloser(head + rest, k, angles)
    {
      if k >= |head| {
        assert !TopCloser(rest, k - |head|, angles);
        assert TopCloser(head + rest, |head| + (k - |head|), angles) <==> TopCloser(rest, k - |head|, angles);
      }
    }
  }

  ghost predicate SplitsUpTo(items: seq<seq<Token>>, t: seq<Token>, stop: nat, angles: bool) {
    EndsAt(t, stop, angles) && Splits(items, t[..stop], angles)
  }

  /** One more item in front, and the comma after it. */
  lemma SplitsOneMore(item: seq<Token>, items: seq<seq<Token>>, between: seq<Token>, angles: bool)
    requires Depth(item, angles) == 0 && forall k: nat | k < |item| :: !TopComma(item, k, angles)
    requires Splits(items, between, angles)
    ensures Splits([item] + items, (item + [Punct(Units(","))]) + between, angles)
  {
    hide Depth;
    hide TopComma;
    var comma := [Punct(Units(","))];
    var all := [item] + items;
    RejoinedOneMore(item, items);
    assert forall i :: 0 < i < |all| ==> all[i] == items[i - 1];
    if items != [] && between != Rejoined(items) {
      assert (item + comma) + (Rejoined(items) + comma) == ((item + comma) + Rejoined(items)) + comma;
    }
  }

  lemma RejoinedOneMore(item: seq<Token>, items: seq<seq<Token>>)
    ensures Rejoined([item] + items) == if items == [] then item else (item + [Punct(Units(","))]) + Rejoined(items)
  {
    CommaClosesNothing(item, false);
    assert ([item] + items)[1..] == items;
  }

  lemma SplitsPastComma(item: seq<Token>, items: seq<seq<Token>>, rest: seq<Token>, stop: nat, angles: bool)
    requires Depth(item, angles) == 0
    requires forall k: nat | k < |item| :: !TopComma(item, k, angles) && !TopCloser(item, k, angles)
    requires SplitsUpTo(items, rest, stop, angles)
    ensures SplitsUpTo([item] + items, (item + [COMMA_TOKEN]) + rest, |item| + 1 + stop, angles)
  {
    hide Depth;
    hide TopComma;
    hide TopCloser;
    hide Splits;
    EndsPastComma(item, rest, stop, angles);
    CommaClosesNothing(item, angles);
    SplitsOneMore(item, items, rest[..stop], angles);
    assert ((item + [COMMA_TOKEN]) + rest)[..|item| + 1 + stop] == (item + [COMMA_TOKEN]) + rest[..stop];
  }

  lemma ItemsOfRest(rest: seq<Token>, depth: nat, item: seq<Token>, angles: bool)
    ensures Items(rest, depth, item, angles) ==
      if rest == [] || (depth == 0 && Closes(rest[0])) then Flush(item)
      else if depth == 0 && rest[0] == COMMA_TOKEN then [item] + Items(rest[1..], 0, [], angles)
      else Items(rest[1..], Deeper(rest[0], depth, angles), item + [rest[0]], angles)
  {
  }

  lemma {:induction false} ItemsSplitFrom(item: seq<Token>, rest: seq<Token>, angles: bool) returns (stop: nat)
    requires Depth(item, angles) >= 0
    requires forall k: nat | k < |item| :: !TopComma(item, k, angles) && !TopCloser(item, k, angles)
    ensures SplitsUpTo(Items(rest, Depth(item, angles), item, angles), item + rest, stop, angles)
    decreases |rest|
  {
    hide Depth;
    hide TopComma;
    hide TopCloser;
    hide SplitsUpTo;
    hide Items;
    hide Deeper;
    hide Closes;
    hide Flush;
    var d := Depth(item, angles);
    ItemsOfRest(rest, d, item, angles);
    if rest == [] || (d == 0 && Closes(rest[0])) {
      stop := |item|;
      StopsHere(item, rest, angles);
    } else if d == 0 && rest[0] == COMMA_TOKEN {
      EmptyDepth(angles);
      stop := ItemsSplitFrom([], rest[1..], angles);
      assert [] + rest[1..] == rest[1..];
      assert item + rest == (item + [COMMA_TOKEN]) + rest[1..];
      SplitsPastComma(item, Items(rest[1..], 0, [], angles), rest[1..], stop, angles);
      stop := |item| + 1 + stop;
    } else {
      DepthNext(item, rest[0], angles);
      GrowsOn(item, rest[0], angles);
      stop := ItemsSplitFrom(item + [rest[0]], rest[1..], angles);
      assert item + rest == (item + [rest[0]]) + rest[1..];
    }
  }

  lemma EmptyDepth(angles: bool)
    ensures Depth([], angles) == 0
  {
  }

  lemma StopsHere(item: seq<Token>, rest: seq<Token>, angles: bool)
    requires rest == [] || (Depth(item, angles) == 0 && Closes(rest[0]))
    requires forall k: nat | k < |item| :: !TopComma(item, k, angles) && !TopCloser(item, k, angles)
    ensures SplitsUpTo(Flush(item), item + rest, |item|, angles)
  {
    hide Depth;
    var t := item + rest;
    assert t[..|item|] == item;
    if rest != [] {
      BracketsAsWritten(rest[0]);
      assert t[|item|] == rest[0];
    }
    forall k: nat | k < |item|
      ensures !TopCloser(t, k, angles)
    {
      assert t[..k] == item[..k] && t[k] == item[k] && !TopCloser(item, k, angles);
    }
  }

  /** Of any tokens, and whether angle brackets count or not, the split is of those up to the first
      closer of nothing among them. */
  lemma SplitOfAny(t: seq<Token>, angles: bool)
    ensures exists stop: nat :: EndsAt(t, stop, angles) && Splits(Items(t, 0, [], angles), t[..stop], angles)
  {
    EmptyDepth(angles);
    var stop := ItemsSplitFrom([], t, angles);
    assert [] + t == t;
  }
}
