/** The refusal of every word a command does not read, against the readers that take its flags. */
module CommandLine {
  import opened Options

  type Word = string

  datatype CommandFlags = CommandFlags(switches: set<Word>, values: set<Word>, words: nat)

  const HELP_FLAGS: set<Word> := {"--help", "-h"}

  datatype Refusal =
    | WantsValue(flag: Word)
    | SwitchTakesNoValue(word: Word, flag: Word)
    | ValueAfterSpace(word: Word, flag: Word)
    | NotAFlag(word: Word)
    | NotRead(word: Word)

  predicate StartsWith(word: Word, prefix: Word) {
    |word| >= |prefix| && word[..|prefix|] == prefix
  }

  /** The place of the first `=`, or -1. */
  function EqualsAt(word: Word): (at: int)
    ensures -1 <= at < |word|
    ensures at >= 0 ==> word[at] == '=' && '=' !in word[..at]
    ensures at < 0 ==> '=' !in word
  {
    if word == "" then -1
    else if word[0] == '=' then 0
    else
      var at := EqualsAt(word[1..]);
      assert word == [word[0]] + word[1..];
      if at < 0 then -1
      else
        assert word[..at + 1] == [word[0]] + word[1..][..at];
        at + 1
  }

  function Switches(flags: CommandFlags): set<Word> {
    flags.switches + HELP_FLAGS
  }

  /** Why one word that is neither a value's flag nor a switch is refused. */
  function WordRefusal(word: Word, flags: CommandFlags): Refusal {
    var at := EqualsAt(word);
    var flag := if at > 0 then word[..at] else word;
    if StartsWith(word, "-") && at > 0 && flag in Switches(flags) then SwitchTakesNoValue(word, flag)
    else if StartsWith(word, "-") && at > 0 && flag in flags.values then ValueAfterSpace(word, flag)
    else if StartsWith(word, "-") then NotAFlag(word)
    else NotRead(word)
  }

  // ----- The grammar

  /** One argument: a switch alone, or a flag and its value. */
  datatype Argument = Switch(word: Word) | Pair(flag: Word, value: Word)

  ghost predicate Begins(word: Word, prefix: Word) {
    exists rest: Word :: word == prefix + rest
  }

  lemma BeginsIff(word: Word, prefix: Word)
    ensures StartsWith(word, prefix) <==> Begins(word, prefix)
  {
    if StartsWith(word, prefix) {
      assert word == prefix + word[|prefix|..];
    }
    forall rest: Word | word == prefix + rest
      ensures StartsWith(word, prefix)
    {
      assert word[..|prefix|] == prefix;
    }
  }

  ghost predicate IsSwitch(flags: CommandFlags, word: Word) {
    word in flags.switches || word == "--help" || word == "-h"
  }

  ghost predicate Admits(flags: CommandFlags, a: Argument) {
    match a
    case Switch(word) => IsSwitch(flags, word) && word !in flags.values
    case Pair(flag, value) => flag in flags.values && !Begins(value, "--")
  }

  ghost predicate AdmitsAll(flags: CommandFlags, parsed: seq<Argument>) {
    forall k :: 0 <= k < |parsed| ==> Admits(flags, parsed[k])
  }

  function Spelled(parsed: seq<Argument>): seq<Word> {
    if parsed == [] then []
    else
      (match parsed[0]
       case Switch(word) => [word]
       case Pair(flag, value) => [flag, value])
      + Spelled(parsed[1..])
  }

  /** The line read from left to right, or the first word that stops it. */
  datatype Read = Accepted(parsed: seq<Argument>) | Stopped(refusal: Refusal)

  function Parse(args: seq<Word>, flags: CommandFlags): Read
    decreases |args|
  {
    if args == [] then Accepted([])
    else if args[0] in flags.values then
      if |args| == 1 || StartsWith(args[1], "--") then Stopped(WantsValue(args[0]))
      else Along(Pair(args[0], args[1]), Parse(args[2..], flags))
    else if args[0] in Switches(flags) then Along(Switch(args[0]), Parse(args[1..], flags))
    else Stopped(WordRefusal(args[0], flags))
  }

  function Along(a: Argument, rest: Read): Read {
    match rest
    case Accepted(parsed) => Accepted([a] + parsed)
    case Stopped(_) => rest
  }

  /** The script's check of a line: the first refusal the left-to-right reading meets, if it meets one. */
  method UnreadArgument(args: seq<Word>, flags: CommandFlags) returns (refusal: Option<Refusal>)
    ensures var read := Parse(if flags.words <= |args| then args[flags.words..] else [], flags);
      refusal == if read.Stopped? then Some(read.refusal) else None
  {
    ghost var line := if flags.words <= |args| then args[flags.words..] else [];
    ghost var passed: seq<Argument> := [];
    var i: nat := flags.words;
    while i < |args|
      invariant flags.words <= |args| ==> flags.words <= i <= |args|
      invariant Parse(line, flags).Stopped? <==> i < |args| && Parse(args[i..], flags).Stopped?
      invariant i < |args| && Parse(args[i..], flags).Stopped? ==> Parse(line, flags) == Parse(args[i..], flags)
      decreases |args| - i
    {
      var arg := args[i];
      ghost var rest := args[i..];
      assert rest[0] == arg && rest[1..] == args[i + 1..];
      assert i + 1 < |args| ==> rest[1] == args[i + 1] && rest[2..] == args[i + 2..];
      if arg in flags.values {
        if i + 1 >= |args| || StartsWith(args[i + 1], "--") {
          return Some(WantsValue(arg));
        }
        i := i + 2;
        continue;
      }
      if arg in Switches(flags) {
        i := i + 1;
        continue;
      }
      return Some(WordRefusal(arg, flags));
    }
    return None;
  }

  /** A line is accepted exactly when it is switches and flags with their values, none of which
      starts with `--`; and it is so in one way, the one the left-to-right reading finds. */
  lemma {:induction false} AcceptedIffSpelled(args: seq<Word>, flags: CommandFlags, parsed: seq<Argument>)
    ensures Parse(args, flags) == Accepted(parsed) <==> AdmitsAll(flags, parsed) && args == Spelled(parsed)
    decreases |args| + |parsed|
  {
    if parsed == [] {
      assert Spelled(parsed) == [];
    } else {
      var a, rest := parsed[0], parsed[1..];
      assert parsed == [a] + rest;
      assert AdmitsAll(flags, parsed) <==> Admits(flags, a) && AdmitsAll(flags, rest) by {
        if AdmitsAll(flags, parsed) {
          assert forall k :: 0 <= k < |rest| ==> rest[k] == parsed[k + 1];
        }
        if Admits(flags, a) && AdmitsAll(flags, rest) {
          assert forall k :: 0 < k < |parsed| ==> parsed[k] == rest[k - 1];
        }
      }
      if args != [] {
        match a
        case Switch(word) =>
          assert IsSwitch(flags, word) <==> word in Switches(flags);
          AcceptedIffSpelled(args[1..], flags, rest);
          HeadTail(args, 1, [word], Spelled(rest));
        case Pair(flag, value) =>
          BeginsIff(value, "--");
          if |args| > 1 {
            AcceptedIffSpelled(args[2..], flags, rest);
            HeadTail(args, 2, [flag, value], Spelled(rest));
          }
        AlongSplits(args, flags, a, rest);
      }
    }
  }

  lemma HeadTail(args: seq<Word>, n: nat, head: seq<Word>, tail: seq<Word>)
    requires n == |head| <= |args|
    ensures args == head + tail <==> args[..n] == head && args[n..] == tail
  {
    assert args == args[..n] + args[n..];
    if args == head + tail {
      assert args[..n] == head && args[n..] == tail;
    }
  }

  lemma AlongSplits(args: seq<Word>, flags: CommandFlags, a: Argument, rest: seq<Argument>)
    requires args != []
    ensures Parse(args, flags) == Accepted([a] + rest) <==>
      if a.Switch? then
        args[0] == a.word && a.word !in flags.values && a.word in Switches(flags) && Parse(args[1..], flags) == Accepted(rest)
      else
        |args| > 1 && args[0] == a.flag && args[1] == a.value && a.flag in flags.values && !StartsWith(a.value, "--")
        && Parse(args[2..], flags) == Accepted(rest)
  {
    var read := Parse(args, flags);
    if read.Accepted? && read.parsed != [] {
      assert read.parsed == [a] + rest <==> read.parsed[0] == a && read.parsed[1..] == rest;
    }
  }

  // ----- What is refused, and why

  /** The word is a flag, an equals sign and the rest. */
  ghost predicate Assigns(word: Word, flag: Word) {
    '=' !in flag && Begins(word, flag + "=")
  }

  /** Why a word, at the place it stands, stops the line. */
  ghost predicate Refuses(flags: CommandFlags, word: Word, rest: seq<Word>, refusal: Refusal) {
    if word in flags.values then
      refusal == WantsValue(word) && (rest == [] || Begins(rest[0], "--"))
    else
      && !IsSwitch(flags, word)
      && match refusal
         case WantsValue(_) => false
         case SwitchTakesNoValue(w, flag) => w == word && Begins(word, "-") && Assigns(word, flag) && IsSwitch(flags, flag)
         case ValueAfterSpace(w, flag) =>
           w == word && Begins(word, "-") && Assigns(word, flag) && flag in flags.values && !IsSwitch(flags, flag)
         case NotAFlag(w) =>
           w == word && Begins(word, "-") &&
           forall flag :: Assigns(word, flag) ==> flag !in flags.values && !IsSwitch(flags, flag)
         case NotRead(w) => w == word && !Begins(word, "-")
  }

  lemma AssignsIff(word: Word, flag: Word)
    ensures Assigns(word, flag) <==> EqualsAt(word) >= 0 && flag == word[..EqualsAt(word)]
  {
    var at := EqualsAt(word);
    BeginsIff(word, flag + "=");
    if Assigns(word, flag) {
      assert word[..|flag| + 1] == flag + "=";
      assert word[|flag|] == '=' && word[..|flag|] == flag;
    }
    if at >= 0 && flag == word[..at] {
      assert word[..at + 1] == flag + "=";
    }
  }

  lemma WordIsRefused(word: Word, flags: CommandFlags, rest: seq<Word>, refusal: Refusal)
    requires word !in flags.values && word !in Switches(flags)
    ensures Refuses(flags, word, rest, refusal) <==> refusal == WordRefusal(word, flags)
  {
    hide Begins;
    hide Assigns;
    hide StartsWith;
    BeginsIff(word, "-");
    FirstIsDash(word);
    forall flag: Word
      ensures Assigns(word, flag) <==> EqualsAt(word) >= 0 && flag == word[..EqualsAt(word)]
      ensures IsSwitch(flags, flag) <==> flag in Switches(flags)
    {
      AssignsIff(word, flag);
    }
    assert IsSwitch(flags, word) <==> word in Switches(flags);
  }

  lemma FirstIsDash(word: Word)
    ensures StartsWith(word, "-") ==> EqualsAt(word) != 0
  {
    assert StartsWith(word, "-") ==> word[..1][0] == '-';
  }

  ghost predicate RefusedAt(args: seq<Word>, flags: CommandFlags, parsed: seq<Argument>, k: nat, refusal: Refusal) {
    && k < |args| && AdmitsAll(flags, parsed) && args[..k] == Spelled(parsed)
    && Refuses(flags, args[k], args[k + 1..], refusal)
  }

  lemma RefusedFirst(args: seq<Word>, flags: CommandFlags, refusal: Refusal)
    requires args != []
    ensures RefusedAt(args, flags, [], 0, refusal) <==>
      if args[0] in flags.values then
        refusal == WantsValue(args[0]) && (|args| == 1 || StartsWith(args[1], "--"))
      else args[0] !in Switches(flags) && refusal == WordRefusal(args[0], flags)
  {
    hide Begins;
    hide StartsWith;
    if |args| > 1 {
      assert args[1..][0] == args[1];
      BeginsIff(args[1], "--");
    }
    if args[0] !in flags.values {
      assert IsSwitch(flags, args[0]) <==> args[0] in Switches(flags);
      if args[0] !in Switches(flags) {
        WordIsRefused(args[0], flags, args[1..], refusal);
      }
    }
  }

  /** The same place, an argument earlier. */
  lemma RefusedLater(args: seq<Word>, flags: CommandFlags, a: Argument, parsed: seq<Argument>, k: nat, refusal: Refusal)
    requires var n := |Spelled([a])|;
      |args| >= n && Spelled([a]) == args[..n] && Admits(flags, a)
    ensures var n := |Spelled([a])|;
      RefusedAt(args, flags, [a] + parsed, n + k, refusal) <==> RefusedAt(args[n..], flags, parsed, k, refusal)
  {
    hide Admits;
    hide Refuses;
    var n := |Spelled([a])|;
    var all, rest := [a] + parsed, args[n..];
    assert [a][1..] == [] && all[1..] == parsed;
    assert Spelled(all) == args[..n] + Spelled(parsed);
    assert forall i :: 0 <= i < |parsed| ==> all[i + 1] == parsed[i];
    assert AdmitsAll(flags, all) <==> AdmitsAll(flags, parsed) by {
      assert forall i :: 0 < i < |all| ==> all[i] == parsed[i - 1];
    }
    if k < |rest| {
      assert args[..n + k] == args[..n] + rest[..k];
      HeadTail(args[..n + k], n, args[..n], Spelled(parsed));
      assert args[..n + k][n..] == rest[..k];
      assert rest[k + 1..] == args[n + k + 1..];
    }
  }

  lemma {:induction false} RefusalFound(args: seq<Word>, flags: CommandFlags, refusal: Refusal)
    returns (parsed: seq<Argument>, k: nat)
    requires Parse(args, flags) == Stopped(refusal)
    ensures RefusedAt(args, flags, parsed, k, refusal)
    decreases |args|
  {
    hide RefusedAt;
    hide StartsWith;
    hide WordRefusal;
    RefusedFirst(args, flags, refusal);
    parsed, k := [], 0;
    if args[0] in flags.values {
      if |args| > 1 && !StartsWith(args[1], "--") {
        parsed, k := RefusalFound(args[2..], flags, refusal);
        PairSpelled(args, flags);
        RefusedLater(args, flags, Pair(args[0], args[1]), parsed, k, refusal);
        parsed, k := [Pair(args[0], args[1])] + parsed, 2 + k;
      }
    } else if args[0] in Switches(flags) {
      parsed, k := RefusalFound(args[1..], flags, refusal);
      SwitchSpelled(args, flags);
      RefusedLater(args, flags, Switch(args[0]), parsed, k, refusal);
      parsed, k := [Switch(args[0])] + parsed, 1 + k;
    }
  }

  lemma PairSpelled(args: seq<Word>, flags: CommandFlags)
    requires |args| > 1
    ensures Spelled([Pair(args[0], args[1])]) == args[..2]
    ensures Admits(flags, Pair(args[0], args[1])) <==> args[0] in flags.values && !StartsWith(args[1], "--")
  {
    BeginsIff(args[1], "--");
    assert [Pair(args[0], args[1])][1..] == [];
  }

  lemma SwitchSpelled(args: seq<Word>, flags: CommandFlags)
    requires args != []
    ensures Spelled([Switch(args[0])]) == args[..1]
    ensures Admits(flags, Switch(args[0])) <==> args[0] !in flags.values && args[0] in Switches(flags)
  {
    assert [Switch(args[0])][1..] == [];
    assert IsSwitch(flags, args[0]) <==> args[0] in Switches(flags);
  }

  lemma {:induction false} RefusalStops(args: seq<Word>, flags: CommandFlags, parsed: seq<Argument>, k: nat, refusal: Refusal)
    requires RefusedAt(args, flags, parsed, k, refusal)
    ensures Parse(args, flags) == Stopped(refusal)
    decreases |args|
  {
    hide Refuses;
    hide WordRefusal;
    hide Begins;
    hide StartsWith;
    if parsed == [] {
      RefusedFirst(args, flags, refusal);
    } else {
      var a, rest := parsed[0], parsed[1..];
      assert parsed == [a] + rest && [a][1..] == [];
      assert Admits(flags, a);
      var n := |Spelled([a])|;
      assert Spelled(parsed) == Spelled([a]) + Spelled(rest);
      HeadTail(args[..k], n, Spelled([a]), Spelled(rest));
      assert args[..k][..n] == args[..n];
      RefusedLater(args, flags, a, rest, k - n, refusal);
      RefusalStops(args[n..], flags, rest, k - n, refusal);
      if a.Switch? {
        SwitchSpelled(args, flags);
      } else {
        PairSpelled(args, flags);
      }
    }
  }

  /** A line is refused, and for this, exactly when after switches and flags with their values a word
      stands that refuses it: a flag with no value after it, or a word that is no flag. */
  lemma RefusedIff(args: seq<Word>, flags: CommandFlags, refusal: Refusal)
    ensures Parse(args, flags) == Stopped(refusal) <==>
      exists parsed: seq<Argument>, k: nat :: RefusedAt(args, flags, parsed, k, refusal)
  {
    hide RefusedAt;
    if Parse(args, flags) == Stopped(refusal) {
      var parsed, k := RefusalFound(args, flags, refusal);
    }
    forall parsed: seq<Argument>, k: nat | RefusedAt(args, flags, parsed, k, refusal)
      ensures Parse(args, flags) == Stopped(refusal)
    {
      RefusalStops(args, flags, parsed, k, refusal);
    }
  }

  // ----- The readers the scripts take their flags with

  /** The values a parsed line gives a flag, in order. */
  function ValuesOf(parsed: seq<Argument>, flag: Word): seq<Word> {
    if parsed == [] then []
    else (if parsed[0].Pair? && parsed[0].flag == flag then [parsed[0].value] else []) + ValuesOf(parsed[1..], flag)
  }

  /** The word after each place the flag stands. */
  function Collected(args: seq<Word>, flag: Word): seq<Word>
    decreases |args|
  {
    if |args| < 2 then []
    else (if args[0] == flag then [args[1]] else []) + Collected(args[1..], flag)
  }

  lemma CollectedNone(args: seq<Word>, flag: Word)
    requires args == []
    ensures Collected(args, flag) == []
  {
  }

  lemma CollectedNext(args: seq<Word>, i: nat, flag: Word)
    requires i < |args|
    ensures Collected(args[i..], flag) ==
      if args[i] == flag && i + 1 < |args| then [args[i + 1]] + Collected(args[i + 1..], flag)
      else Collected(args[i + 1..], flag)
  {
    assert args[i..][1..] == args[i + 1..];
  }

  lemma Regroup(out: seq<Word>, one: seq<Word>, rest: seq<Word>)
    ensures out + (one + rest) == (out + one) + rest
  {
  }

  method Collect(args: seq<Word>, flag: Word) returns (out: seq<Word>)
    ensures out == Collected(args, flag)
  {
    hide Collected;
    out := [];
    var i := 0;
    assert args[0..] == args;
    while i < |args|
      invariant 0 <= i <= |args|
      invariant out + Collected(args[i..], flag) == Collected(args, flag)
    {
      CollectedNext(args, i, flag);
      if args[i] == flag && i + 1 < |args| {
        Regroup(out, [args[i + 1]], Collected(args[i + 1..], flag));
        out := out + [args[i + 1]];
      }
      i := i + 1;
    }
    CollectedNone(args[i..], flag);
  }

  /** The word after the flag's first place, or the fallback. */
  method Get(args: seq<Word>, flag: Word, fallback: Option<Word>) returns (value: Option<Word>)
    ensures Collected(args, flag) == [] ==> value == fallback
    ensures Collected(args, flag) != [] ==> value == Some(Collected(args, flag)[0])
  {
    var at := 0;
    assert args[0..] == args;
    while at < |args| && args[at] != flag
      invariant 0 <= at <= |args|
      invariant Collected(args[at..], flag) == Collected(args, flag)
    {
      assert args[at..][1..] == args[at + 1..];
      at := at + 1;
    }
    if at < |args| {
      if at + 1 < |args| {
        return Some(args[at + 1]);
      }
      assert |args[at..]| == 1;
    }
    return fallback;
  }

  /** The checkpoint script's own reader, which steps over each value it takes; nothing when a flag
      wants one. */
  method Values(line: seq<Word>, flag: Word) returns (out: Option<seq<Word>>)
    ensures out == Stepped(line, flag)
  {
    var taken: seq<Word> := [];
    var at := 0;
    assert line[0..] == line;
    assert Stepped(line, flag).Some? ==> taken + Stepped(line, flag).value == Stepped(line, flag).value;
    while at < |line|
      invariant 0 <= at <= |line|
      invariant Stepped(line, flag) == After(taken, Stepped(line[at..], flag))
      decreases |line| - at
    {
      assert line[at..][1..] == line[at + 1..];
      if line[at] == flag {
        if at + 1 >= |line| || StartsWith(line[at + 1], "--") {
          return None;
        }
        assert line[at..][1] == line[at + 1] && line[at..][2..] == line[at + 2..];
        AfterAfter(taken, [line[at + 1]], Stepped(line[at + 2..], flag));
        taken := taken + [line[at + 1]];
        at := at + 2;
      } else {
        at := at + 1;
      }
    }
    assert taken + [] == taken;
    return Some(taken);
  }

  function Stepped(line: seq<Word>, flag: Word): Option<seq<Word>>
    decreases |line|
  {
    if line == [] then Some([])
    else if line[0] != flag then Stepped(line[1..], flag)
    else if |line| == 1 || StartsWith(line[1], "--") then None
    else After([line[1]], Stepped(line[2..], flag))
  }

  function After(taken: seq<Word>, rest: Option<seq<Word>>): Option<seq<Word>> {
    match rest
    case None => None
    case Some(words) => Some(taken + words)
  }

  lemma AfterAfter(taken: seq<Word>, more: seq<Word>, rest: Option<seq<Word>>)
    ensures After(taken, After(more, rest)) == After(taken + more, rest)
  {
    if rest.Some? {
      assert taken + (more + rest.value) == (taken + more) + rest.value;
    }
  }

  /** The flag stands at `k` with no value after it. */
  ghost predicate WantsValueAt(line: seq<Word>, flag: Word, k: nat) {
    k < |line| && line[k] == flag && (k + 1 == |line| || Begins(line[k + 1], "--"))
  }

  /** The stepping reader refuses a line exactly when its flag stands somewhere with no value; else it
      takes the word after every place the flag stands. */
  lemma {:induction false} SteppedRefusesIff(line: seq<Word>, flag: Word)
    requires Begins(flag, "--")
    ensures Stepped(line, flag).None? <==> exists k: nat :: WantsValueAt(line, flag, k)
    ensures Stepped(line, flag).Some? ==> Stepped(line, flag).value == Collected(line, flag)
    decreases |line|
  {
    hide StartsWith;
    hide Begins;
    if line == [] {
    } else if line[0] != flag {
      SteppedRefusesIff(line[1..], flag);
      PlacesPast(line, flag, 1);
    } else if |line| == 1 {
      assert WantsValueAt(line, flag, 0);
    } else {
      BeginsIff(line[1], "--");
      if Begins(line[1], "--") {
        assert WantsValueAt(line, flag, 0);
      } else {
        SteppedRefusesIff(line[2..], flag);
        PlacesPast(line, flag, 2);
        assert line[1..][1..] == line[2..] && line[1..][0] == line[1];
      }
    }
  }

  /** Where the first words want no value, those that do stand further on. */
  lemma PlacesPast(line: seq<Word>, flag: Word, n: nat)
    requires n <= |line| && forall k: nat | k < n :: !WantsValueAt(line, flag, k)
    ensures (exists k: nat :: WantsValueAt(line, flag, k)) <==> (exists k: nat :: WantsValueAt(line[n..], flag, k))
  {
    hide Begins;
    forall k: nat
      ensures WantsValueAt(line, flag, n + k) <==> WantsValueAt(line[n..], flag, k)
    {
      assert k + 1 < |line[n..]| ==> line[n..][k + 1] == line[n + k + 1];
    }
    if k: nat :| WantsValueAt(line, flag, k) {
      assert WantsValueAt(line[n..], flag, k - n);
    }
    if k: nat :| WantsValueAt(line[n..], flag, k) {
      assert WantsValueAt(line, flag, n + k);
    }
  }

  lemma {:induction false} CollectedAgrees(flags: CommandFlags, parsed: seq<Argument>, flag: Word)
    requires AdmitsAll(flags, parsed) && flag in flags.values && StartsWith(flag, "--")
    ensures Collected(Spelled(parsed), flag) == ValuesOf(parsed, flag)
    decreases |parsed|
  {
    hide StartsWith;
    hide Switches;
    BeginsIff(flag, "--");
    if parsed != [] {
      var rest := parsed[1..];
      CollectedAgrees(flags, rest, flag);
      assert Admits(flags, parsed[0]);
      match parsed[0]
      case Switch(word) => CollectedPast(word, Spelled(rest), flag);
      case Pair(f, value) => CollectedPair(f, value, Spelled(rest), flag);
    }
  }

  /** A word that is not the flag is passed by. */
  lemma CollectedPast(word: Word, tail: seq<Word>, flag: Word)
    requires word != flag
    ensures Collected([word] + tail, flag) == Collected(tail, flag)
  {
    assert ([word] + tail)[1..] == tail;
  }

  lemma CollectedPair(f: Word, value: Word, tail: seq<Word>, flag: Word)
    requires value != flag
    ensures Collected([f, value] + tail, flag) == (if f == flag then [value] else []) + Collected(tail, flag)
  {
    assert ([f, value] + tail)[1..] == [value] + tail;
    CollectedPast(value, tail, flag);
  }

  lemma {:induction false} SteppedAgrees(flags: CommandFlags, parsed: seq<Argument>, flag: Word)
    requires AdmitsAll(flags, parsed) && flag in flags.values && StartsWith(flag, "--")
    ensures Stepped(Spelled(parsed), flag) == Some(ValuesOf(parsed, flag))
    decreases |parsed|
  {
    BeginsIff(flag, "--");
    if parsed != [] {
      var rest := parsed[1..];
      SteppedAgrees(flags, rest, flag);
      var line, tail := Spelled(parsed), Spelled(rest);
      match parsed[0]
      case Switch(word) =>
        assert Admits(flags, parsed[0]);
        assert line[0] == word && word != flag;
        assert line[1..] == tail;
        assert ValuesOf(parsed, flag) == ValuesOf(rest, flag);
      case Pair(f, value) =>
        BeginsIff(value, "--");
        assert Admits(flags, parsed[0]);
        assert line[1..] == [value] + tail && line[2..] == tail;
        assert ([value] + tail)[1..] == tail;
        if f != flag {
          assert Stepped([value] + tail, flag) == Stepped(tail, flag);
          assert ValuesOf(parsed, flag) == ValuesOf(rest, flag);
        }
    }
  }

  /** A reader that looks for a flag anywhere on the line takes the values the line gives it, on
      every accepted line, if and only if the flag starts with `--`: then no value is taken for it. */
  lemma ReadersAgreeIff(flags: CommandFlags, flag: Word)
    requires flag in flags.values
    ensures (forall args, parsed | Parse(args, flags) == Accepted(parsed) :: Collected(args, flag) == ValuesOf(parsed, flag))
       <==> StartsWith(flag, "--")
  {
    if StartsWith(flag, "--") {
      forall args, parsed | Parse(args, flags) == Accepted(parsed)
        ensures Collected(args, flag) == ValuesOf(parsed, flag)
      {
        AcceptedIffSpelled(args, flags, parsed);
        CollectedAgrees(flags, parsed, flag);
      }
    } else {
      var twice := [Pair(flag, flag), Pair(flag, flag)];
      var args := [flag, flag, flag, flag];
      assert twice[1..] == [Pair(flag, flag)] && [Pair(flag, flag)][1..] == [];
      assert Spelled([Pair(flag, flag)]) == [flag, flag];
      assert Spelled(twice) == args;
      AcceptedIffSpelled(args, flags, twice);
      assert ValuesOf([Pair(flag, flag)], flag) == [flag];
      assert ValuesOf(twice, flag) == [flag, flag];
      assert args[1..] == [flag, flag, flag] && args[1..][1..] == [flag, flag] && args[1..][1..][1..] == [flag];
      assert Collected([flag], flag) == [];
      assert Collected([flag, flag], flag) == [flag];
      assert Collected([flag, flag, flag], flag) == [flag, flag];
      assert Collected(args, flag) == [flag, flag, flag];
    }
  }

  lemma {:induction false} WordsOf(parsed: seq<Argument>, word: Word)
    ensures word in Spelled(parsed) <==>
      exists k :: 0 <= k < |parsed| &&
        (parsed[k] == Switch(word) || (parsed[k].Pair? && (parsed[k].flag == word || parsed[k].value == word)))
    decreases |parsed|
  {
    if parsed != [] {
      var rest := parsed[1..];
      WordsOf(rest, word);
      assert forall k :: 0 < k < |parsed| ==> parsed[k] == rest[k - 1];
      assert forall k :: 0 <= k < |rest| ==> rest[k] == parsed[k + 1];
    }
  }

  /** Looking for a switch anywhere on the line says whether it was given, on every accepted line,
      if and only if the switch starts with `--` or the command takes no values: `-h` given as a
      value reads as the switch. */
  lemma SwitchReaderAgreesIff(flags: CommandFlags, word: Word)
    requires word in Switches(flags) && word !in flags.values
    ensures (forall args, parsed | Parse(args, flags) == Accepted(parsed) :: word in args <==> Switch(word) in parsed)
       <==> StartsWith(word, "--") || flags.values == {}
  {
    BeginsIff(word, "--");
    if StartsWith(word, "--") || flags.values == {} {
      forall args, parsed | Parse(args, flags) == Accepted(parsed)
        ensures word in args <==> Switch(word) in parsed
      {
        AcceptedIffSpelled(args, flags, parsed);
        WordsOf(parsed, word);
      }
    } else {
      var flag :| flag in flags.values;
      var args, parsed := [flag, word], [Pair(flag, word)];
      assert parsed[1..] == [];
      AcceptedIffSpelled(args, flags, parsed);
    }
  }
}
