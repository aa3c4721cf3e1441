/**
  cores/ardulinux/main.cpp: the copy of argv kept for reboot(), with the erase option taken
  out, and the option parser that will read that copy.
 */
module RebootArgv {
  import opened Wrappers

  predicate IsErase(arg: string) {
    arg == "-e" || arg == "--erase"
  }

  /** The arguments that stay. */
  function Kept(argv: seq<string>): seq<string> {
    if argv == [] then [] else (if IsErase(argv[0]) then [] else [argv[0]]) + Kept(argv[1..])
  }

  lemma {:induction false} KeptSnoc(argv: seq<string>, arg: string)
    ensures Kept(argv + [arg]) == Kept(argv) + if IsErase(arg) then [] else [arg]
  {
    if argv == [] {
      assert ([] + [arg])[1..] == [];
    } else {
      assert (argv + [arg])[1..] == argv[1..] + [arg];
      KeptSnoc(argv[1..], arg);
    }
  }

  lemma {:induction false} KeptFits(argv: seq<string>)
    ensures |Kept(argv)| <= |argv|
  {
    if argv != [] {
      KeptFits(argv[1..]);
    }
  }

  /** Fills an array of argc + 1 slots, stays inside it, and ends the copy with NULL. */
  method BuildProgArgv(argv: seq<string>) returns (progArgv: array<Option<string>>)
    ensures fresh(progArgv) && progArgv.Length == |argv| + 1
    ensures |Kept(argv)| < progArgv.Length && progArgv[|Kept(argv)|] == None
    ensures forall k :: 0 <= k < |Kept(argv)| ==> progArgv[k] == Some(Kept(argv)[k])
    ensures forall k :: 0 <= k < |Kept(argv)| ==> progArgv[k] != Some("-e") && progArgv[k] != Some("--erase")
  {
    progArgv := new Option<string>[|argv| + 1](_ => None);
    var j := 0;
    for i := 0 to |argv|
      invariant j == |Kept(argv[..i])| <= i
      invariant forall k :: 0 <= k < j ==> progArgv[k] == Some(Kept(argv[..i])[k])
    {
      KeptSnoc(argv[..i], argv[i]);
      assert argv[..i + 1] == argv[..i] + [argv[i]];
      if !IsErase(argv[i]) {
        progArgv[j] := Some(argv[i]);
        j := j + 1;
      }
    }
    assert argv[..|argv|] == argv;
    progArgv[j] := None;
    KeptCounts(argv);
    assert forall k :: 0 <= k < |Kept(argv)| ==> Kept(argv)[k] in Kept(argv);
  }

  // ---- what the copy keeps ----

  /** Where the kept arguments came from. */
  function Origins(argv: seq<string>, from: nat): seq<nat>
    requires from <= |argv|
    decreases |argv| - from
  {
    if from == |argv| then []
    else (if IsErase(argv[from]) then [] else [from]) + Origins(argv, from + 1)
  }

  lemma {:induction false} KeptComesFrom(argv: seq<string>, from: nat)
    requires from <= |argv|
    ensures var o := Origins(argv, from);
            && |o| == |Kept(argv[from..])|
            && forall k :: 0 <= k < |o| ==> from <= o[k] < |argv| && argv[o[k]] == Kept(argv[from..])[k]
    decreases |argv| - from
  {
    if from < |argv| {
      KeptComesFrom(argv, from + 1);
      assert argv[from..][1..] == argv[from + 1..];
    }
  }

  /** Strictly increasing, from `lo` on and below `hi`. */
  ghost predicate Increasing(o: seq<nat>, lo: nat, hi: nat) {
    && (forall k :: 0 <= k < |o| ==> lo <= o[k] < hi)
    && (forall k, l :: 0 <= k < l < |o| ==> o[k] < o[l])
  }

  lemma IncreasingCons(rest: seq<nat>, lo: nat, hi: nat)
    requires lo < hi && Increasing(rest, lo + 1, hi)
    ensures Increasing(rest, lo, hi) && Increasing([lo] + rest, lo, hi)
  {
    var o := [lo] + rest;
    assert forall k :: 0 < k < |o| ==> o[k] == rest[k - 1];
  }

  lemma {:induction false} OriginsIncrease(argv: seq<string>, from: nat)
    requires from <= |argv|
    ensures Increasing(Origins(argv, from), from, |argv|)
    decreases |argv| - from
  {
    if from < |argv| {
      OriginsIncrease(argv, from + 1);
      var rest := Origins(argv, from + 1);
      IncreasingCons(rest, from, |argv|);
      assert [] + rest == rest;
    }
  }

  lemma {:induction false} OriginsComplete(argv: seq<string>, from: nat)
    requires from <= |argv|
    ensures forall i :: from <= i < |argv| ==> (i in Origins(argv, from) <==> !IsErase(argv[i]))
    decreases |argv| - from
  {
    if from < |argv| {
      OriginsComplete(argv, from + 1);
      OriginsIncrease(argv, from + 1);
      var rest := Origins(argv, from + 1);
      assert Origins(argv, from) == (if IsErase(argv[from]) then [] else [from]) + rest;
      assert from !in rest;
    }
  }

  /** The copy is argv in its own order, less exactly the erase options. */
  lemma KeptInOrder(argv: seq<string>)
    ensures var o := Origins(argv, 0);
            && |o| == |Kept(argv)|
            && (forall k :: 0 <= k < |o| ==> o[k] < |argv| && argv[o[k]] == Kept(argv)[k])
            && Increasing(o, 0, |argv|)
            && (forall i :: 0 <= i < |argv| ==> (i in o <==> !IsErase(argv[i])))
  {
    KeptComesFrom(argv, 0);
    OriginsIncrease(argv, 0);
    OriginsComplete(argv, 0);
    assert argv[0..] == argv;
  }

  lemma {:induction false} KeptHasNoErase(argv: seq<string>)
    ensures forall arg :: arg in Kept(argv) ==> !IsErase(arg)
  {
    if argv != [] {
      KeptHasNoErase(argv[1..]);
    }
  }

  lemma {:induction false} KeptOfClean(argv: seq<string>)
    requires forall arg :: arg in argv ==> !IsErase(arg)
    ensures Kept(argv) == argv
  {
    if argv != [] {
      KeptOfClean(argv[1..]);
    }
  }

  /** Neither spelling is left, and every other argument survives as often as it occurred. */
  lemma {:induction false} KeptCounts(argv: seq<string>)
    ensures "-e" !in Kept(argv) && "--erase" !in Kept(argv)
    ensures forall arg :: arg != "-e" && arg != "--erase" ==> multiset(Kept(argv))[arg] == multiset(argv)[arg]
  {
    if argv != [] {
      KeptCounts(argv[1..]);
      assert argv == [argv[0]] + argv[1..];
    }
  }

  /** A second reboot changes nothing more. */
  lemma KeptTwice(argv: seq<string>)
    ensures Kept(Kept(argv)) == Kept(argv)
  {
    KeptHasNoErase(argv);
    KeptOfClean(Kept(argv));
  }

  // ---- the option parser ----

  datatype TopArguments = TopArguments(erase: bool, fsDir: Option<string>)

  /** Parsed, or ended by --help, --usage or --version, or refused. */
  datatype Parsed = Runs(args: TopArguments) | Exits | Refused

  /** What parse_opt is called with, positional arguments aside: it ignores those. */
  datatype Call =
    | EraseCall
    | DirCall(dir: string)
    | InformCall          // prints and exits: no call follows
    | ErrorCall           // argp complains and exits

  /** How argp goes on after a token. */
  datatype Next = GoOn | TakeValue | Stop

  datatype Token = Token(calls: seq<Call>, next: Next)

  /** A cluster of one-letter options: -d takes the rest of the cluster, or else the next token, as its value. */
  function ReadFlags(flags: string): Token {
    if flags == "" then Token([], GoOn)
    else if flags[0] == 'e' then
      var rest := ReadFlags(flags[1..]);
      Token([EraseCall] + rest.calls, rest.next)
    else if flags[0] == 'd' then
      if |flags| == 1 then Token([], TakeValue) else Token([DirCall(flags[1..])], GoOn)
    else if flags[0] == '?' || flags[0] == 'V' then Token([InformCall], Stop)
    else Token([ErrorCall], Stop)
  }

  /** A long option up to its '=', and the value after it. */
  function SplitValue(option: string): (string, Option<string>) {
    if option == "" then ("", None)
    else if option[0] == '=' then ("", Some(option[1..]))
    else
      var (name, value) := SplitValue(option[1..]);
      ([option[0]] + name, value)
  }

  /** A long option may be cut short: all five names differ in their first letter, so any prefix will do. */
  function ReadLong(option: string): Token {
    var (name, value) := SplitValue(option);
    if name == "" then Token([ErrorCall], Stop)
    else if name <= "erase" then
      if value.None? then Token([EraseCall], GoOn) else Token([ErrorCall], Stop)
    else if name <= "fsdir" then
      if value.None? then Token([], TakeValue) else Token([DirCall(value.value)], GoOn)
    else if name <= "help" || name <= "usage" || name <= "version" then
      Token([if value.None? then InformCall else ErrorCall], Stop)
    else Token([ErrorCall], Stop)
  }

  /** What one token in option position is to argp. A lone "-" is an ordinary argument. */
  function Read(arg: string): Token {
    if arg == "--" then Token([], Stop)
    else if "--" <= arg then ReadLong(arg[2..])
    else if "-" < arg then ReadFlags(arg[1..])
    else Token([], GoOn)
  }

  function Calls(tokens: seq<string>): seq<Call>
    decreases |tokens|
  {
    if tokens == [] then []
    else
      var first := Read(tokens[0]);
      match first.next
      case Stop => first.calls
      case GoOn => first.calls + Calls(tokens[1..])
      case TakeValue => first.calls + ValueCalls(tokens)
  }

  /** The calls from a value on that the option in `tokens[0]` takes from the next token. */
  function ValueCalls(tokens: seq<string>): seq<Call>
    requires tokens != []
    decreases |tokens|, 0
  {
    if |tokens| == 1 then [ErrorCall] else [DirCall(tokens[1])] + Calls(tokens[2..])
  }

  /** parse_opt over those calls: 'e' and 'd' write into the arguments. */
  function ParseOpts(calls: seq<Call>, args: TopArguments): Parsed
    decreases |calls|
  {
    if calls == [] then Runs(args)
    else
      match calls[0]
      case EraseCall => ParseOpts(calls[1..], args.(erase := true))
      case DirCall(dir) => ParseOpts(calls[1..], args.(fsDir := Some(dir)))
      case InformCall => Exits
      case ErrorCall => Refused
  }

  const NONE := TopArguments(false, None)

  function Parse(tokens: seq<string>): Parsed {
    ParseOpts(Calls(tokens), NONE)
  }

  // ---- which tokens ask for the erase ----

  /** -e alone or at the head of a cluster, and --e up to --erase. */
  predicate AsksErase(arg: string) {
    "-e" <= arg || ("--e" <= arg && arg <= "--erase")
  }

  /** An 'e' can only be the first letter of its cluster or follow other 'e's: every other letter ends the flags. */
  lemma {:induction false} FlagsAskErase(flags: string)
    ensures EraseCall in ReadFlags(flags).calls <==> flags != "" && flags[0] == 'e'
  {
  }

  lemma {:induction false} SplitJoins(option: string)
    ensures var (name, value) := SplitValue(option);
            && (value.None? ==> name == option)
            && (value.Some? ==> option == name + "=" + value.value)
  {
    if option != "" && option[0] != '=' {
      SplitJoins(option[1..]);
      assert option == [option[0]] + option[1..];
    }
  }

  lemma LongAsksErase(option: string)
    ensures EraseCall in ReadLong(option).calls <==> option != "" && option <= "erase"
  {
    SplitJoins(option);
    var (name, value) := SplitValue(option);
    assert forall i :: 0 <= i < |"erase"| ==> "erase"[i] != '=';
    assert value.Some? ==> option[|name|] == '=';
  }

  /** The tokens that make parse_opt see 'e', by their spelling. */
  lemma ReadAsksErase(arg: string)
    ensures EraseCall in Read(arg).calls <==> AsksErase(arg)
    ensures IsErase(arg) ==> Read(arg) == Token([EraseCall], GoOn)
  {
    if "--" <= arg {
      assert arg[1] == '-' && "-e"[1] == 'e';
      LongAsksErase(arg[2..]);
      assert arg == "--" + arg[2..];
      assert "--erase" == "--" + "erase" && "--e" == "--" + "e";
      SplitJoins(arg[2..]);
      LongSpelling(arg[2..]);
    } else if "-" < arg {
      FlagsAskErase(arg[1..]);
      assert arg == "-" + arg[1..];
      assert arg == "-e" ==> ReadFlags(arg[1..]) == Token([EraseCall], GoOn);
    }
  }

  lemma LongSpelling(option: string)
    ensures option != "" && option <= "erase" <==> "--e" <= "--" + option && "--" + option <= "--erase"
    ensures option == "erase" ==> SplitValue(option) == ("erase", None)
  {
    SplitJoins(option);
    if option != "" && option <= "erase" {
      assert option[0] == "erase"[0];
    }
    if "--" + option <= "--erase" {
      assert ("--" + option)[2..] == option && "--erase"[2..] == "erase";
    }
  }

  // ---- what the filter keeps of the calls ----

  function WithoutErase(p: Parsed): Parsed {
    if p.Runs? then Runs(p.args.(erase := false)) else p
  }

  function WithoutEraseCalls(calls: seq<Call>): seq<Call> {
    if calls == [] then []
    else (if calls[0].EraseCall? then [] else [calls[0]]) + WithoutEraseCalls(calls[1..])
  }

  /**
    As far as argp gets, no token asks for the erase in a spelling that the filter does not
    know, and no value of -d is one of the two spellings it knows.
   */
  predicate Unspoilt(tokens: seq<string>)
    decreases |tokens|
  {
    tokens != [] ==>
      && (AsksErase(tokens[0]) ==> IsErase(tokens[0]))
      && match Read(tokens[0]).next
         case Stop => true
         case GoOn => Unspoilt(tokens[1..])
         case TakeValue => |tokens| == 1 || (!IsErase(tokens[1]) && Unspoilt(tokens[2..]))
  }

  lemma {:induction false} WithoutPrefix(front: seq<Call>, rest: seq<Call>)
    requires EraseCall !in front
    ensures WithoutEraseCalls(front + rest) == front + WithoutEraseCalls(rest)
  {
    if front == [] {
      assert front + rest == rest;
    } else {
      assert front[0] in front;
      assert (front + rest)[1..] == front[1..] + rest;
      WithoutPrefix(front[1..], rest);
    }
  }

  lemma {:induction false} WithoutHasNone(calls: seq<Call>)
    ensures EraseCall !in WithoutEraseCalls(calls)
  {
    if calls != [] {
      WithoutHasNone(calls[1..]);
    }
  }

  lemma KeptFirst(tokens: seq<string>)
    requires tokens != []
    ensures IsErase(tokens[0]) ==> Kept(tokens) == Kept(tokens[1..])
    ensures !IsErase(tokens[0]) ==>
              Kept(tokens) != [] && Kept(tokens)[0] == tokens[0] && Kept(tokens)[1..] == Kept(tokens[1..])
  {
  }

  lemma SamePrefix(front: seq<Call>, a: seq<Call>, b: seq<Call>)
    ensures front + a == front + b <==> a == b
  {
    assert (front + a)[|front|..] == a && (front + b)[|front|..] == b;
  }

  /** With the value kept, the copy makes the same call and goes on with the copy of the rest. */
  lemma KeptValue(tokens: seq<string>)
    requires |tokens| > 1 && !IsErase(tokens[0]) && !IsErase(tokens[1])
    ensures Kept(tokens) != [] && ValueCalls(Kept(tokens)) == [DirCall(tokens[1])] + Calls(Kept(tokens[2..]))
  {
    KeptFirst(tokens);
    KeptFirst(tokens[1..]);
    assert tokens[1..][1..] == tokens[2..];
    assert Kept(tokens)[2..] == Kept(tokens)[1..][1..];
    assert Kept(tokens)[1] == Kept(tokens)[1..][0];
  }

  /** With the value stripped, the copy takes another value or has none to take. */
  lemma LostValue(tokens: seq<string>)
    requires |tokens| > 1 && !IsErase(tokens[0]) && IsErase(tokens[1])
    ensures Kept(tokens) != [] && ValueCalls(Kept(tokens))[0] != DirCall(tokens[1])
  {
    KeptFirst(tokens);
    KeptHasNoErase(tokens);
    if |Kept(tokens)| > 1 {
      assert Kept(tokens)[1] in Kept(tokens);
    }
  }

  /** One other spelling that argp gets to is enough: the copy makes a call that should be gone. */
  lemma OtherSpellingDiffers(tokens: seq<string>)
    requires tokens != [] && AsksErase(tokens[0]) && !IsErase(tokens[0])
    ensures Calls(Kept(tokens)) != WithoutEraseCalls(Calls(tokens))
  {
    KeptFirst(tokens);
    ReadAsksErase(tokens[0]);
    assert EraseCall in Calls(Kept(tokens));
    WithoutHasNone(Calls(tokens));
  }

  lemma SameCallsAtValue(tokens: seq<string>)
    requires |tokens| > 1 && !IsErase(tokens[0])
    requires Calls(Kept(tokens[2..])) == WithoutEraseCalls(Calls(tokens[2..])) <==> Unspoilt(tokens[2..])
    ensures Kept(tokens) != []
    ensures ValueCalls(Kept(tokens)) == WithoutEraseCalls(ValueCalls(tokens))
            <==> !IsErase(tokens[1]) && Unspoilt(tokens[2..])
  {
    KeptFirst(tokens);
    WithoutPrefix([DirCall(tokens[1])], Calls(tokens[2..]));
    if IsErase(tokens[1]) {
      LostValue(tokens);
    } else {
      KeptValue(tokens);
      SamePrefix([DirCall(tokens[1])], Calls(Kept(tokens[2..])), WithoutEraseCalls(Calls(tokens[2..])));
    }
  }

  /**
    The copy makes parse_opt see exactly the calls the original made, less those for the erase
    option, if and only if argp meets no other spelling of that option and no value that is one.
   */
  lemma {:induction false} SameCallsIffUnspoilt(tokens: seq<string>)
    ensures Calls(Kept(tokens)) == WithoutEraseCalls(Calls(tokens)) <==> Unspoilt(tokens)
    decreases |tokens|
  {
    if tokens != [] {
      var first := Read(tokens[0]);
      KeptFirst(tokens);
      ReadAsksErase(tokens[0]);
      if IsErase(tokens[0]) {
        assert ([EraseCall] + Calls(tokens[1..]))[1..] == Calls(tokens[1..]);
        SameCallsIffUnspoilt(tokens[1..]);
      } else if AsksErase(tokens[0]) {
        OtherSpellingDiffers(tokens);
      } else {
        match first.next
        case Stop =>
          WithoutPrefix(first.calls, []);
          assert first.calls + [] == first.calls;
        case GoOn =>
          WithoutPrefix(first.calls, Calls(tokens[1..]));
          SameCallsIffUnspoilt(tokens[1..]);
          SamePrefix(first.calls, Calls(Kept(tokens[1..])), WithoutEraseCalls(Calls(tokens[1..])));
        case TakeValue =>
          WithoutPrefix(first.calls, ValueCalls(tokens));
          SamePrefix(first.calls, ValueCalls(Kept(tokens)), WithoutEraseCalls(ValueCalls(tokens)));
          if |tokens| > 1 {
            SameCallsIffUnspoilt(tokens[2..]);
            SameCallsAtValue(tokens);
          }
      }
    }
  }

  lemma {:induction false} ParseWithoutErase(calls: seq<Call>, args: TopArguments)
    ensures ParseOpts(WithoutEraseCalls(calls), args.(erase := false)) == WithoutErase(ParseOpts(calls, args))
    decreases |calls|
  {
    if calls != [] {
      var rest := WithoutEraseCalls(calls[1..]);
      assert calls[0].EraseCall? ==> WithoutEraseCalls(calls) == rest;
      assert !calls[0].EraseCall? ==> WithoutEraseCalls(calls)[1..] == rest;
      match calls[0]
      case EraseCall => ParseWithoutErase(calls[1..], args.(erase := true));
      case DirCall(dir) => ParseWithoutErase(calls[1..], args.(fsDir := Some(dir)));
      case _ =>
    }
  }

  /**
    A program started from the copy finds the same directory and does not erase, or exits just
    as the original did.
   */
  lemma RebootKeepsMeaning(argv: seq<string>)
    requires argv != [] && !IsErase(argv[0]) && Unspoilt(argv[1..])
    ensures var kept := Kept(argv);
            && kept != [] && kept[0] == argv[0]
            && Parse(kept[1..]) == WithoutErase(Parse(argv[1..]))
  {
    KeptFirst(argv);
    SameCallsIffUnspoilt(argv[1..]);
    ParseWithoutErase(Calls(argv[1..]), NONE);
  }

  // ---- when the copy still erases ----

  /** The tokens argp reads in option position, as far as it gets. */
  function OptionTokens(tokens: seq<string>): seq<string>
    decreases |tokens|
  {
    if tokens == [] then []
    else
      match Read(tokens[0]).next
      case Stop => [tokens[0]]
      case GoOn => [tokens[0]] + OptionTokens(tokens[1..])
      case TakeValue => [tokens[0]] + if |tokens| == 1 then [] else OptionTokens(tokens[2..])
  }

  lemma {:induction false} EraseCallsAreAsked(tokens: seq<string>)
    ensures EraseCall in Calls(tokens) <==> exists arg :: arg in OptionTokens(tokens) && AsksErase(arg)
    decreases |tokens|
  {
    if tokens != [] {
      ReadAsksErase(tokens[0]);
      assert tokens[0] in OptionTokens(tokens);
      match Read(tokens[0]).next
      case Stop =>
      case GoOn => EraseCallsAreAsked(tokens[1..]);
      case TakeValue =>
        if |tokens| > 1 {
          EraseCallsAreAsked(tokens[2..]);
        }
    }
  }

  lemma {:induction false} ErasesIffCalled(calls: seq<Call>, args: TopArguments)
    ensures ParseOpts(calls, args).Runs? ==>
              (ParseOpts(calls, args).args.erase <==> args.erase || EraseCall in calls)
    decreases |calls|
  {
    if calls != [] {
      match calls[0]
      case EraseCall => ErasesIffCalled(calls[1..], args.(erase := true));
      case DirCall(dir) => ErasesIffCalled(calls[1..], args.(fsDir := Some(dir)));
      case _ =>
    }
  }

  lemma {:induction false} OptionTokensAreTokens(tokens: seq<string>)
    ensures forall arg :: arg in OptionTokens(tokens) ==> arg in tokens
    decreases |tokens|
  {
    if tokens != [] {
      OptionTokensAreTokens(tokens[1..]);
      if |tokens| > 1 {
        OptionTokensAreTokens(tokens[2..]);
      }
    }
  }

  /**
    A program that runs from the copy erases if and only if argp meets, in option position, an
    argument that asks for it; and that can only be a spelling the filter does not know.
   */
  lemma RebootErasesIffAsked(tokens: seq<string>)
    ensures var kept := Kept(tokens);
            Parse(kept).Runs? ==>
              (Parse(kept).args.erase <==> exists arg :: arg in OptionTokens(kept) && AsksErase(arg))
    ensures "-e" !in OptionTokens(Kept(tokens)) && "--erase" !in OptionTokens(Kept(tokens))
  {
    EraseCallsAreAsked(Kept(tokens));
    ErasesIffCalled(Calls(Kept(tokens)), NONE);
    OptionTokensAreTokens(Kept(tokens));
    KeptHasNoErase(tokens);
  }

  lemma {:induction false} KeptIsPart(argv: seq<string>)
    ensures forall arg :: arg in Kept(argv) ==> arg in argv
  {
    if argv != [] {
      KeptIsPart(argv[1..]);
    }
  }

  /** So a command line that spells the option only as -e or --erase, wherever, never erases again. */
  lemma PlainSpellingNeverErasesAgain(tokens: seq<string>)
    requires forall arg :: arg in tokens && AsksErase(arg) ==> arg == "-e" || arg == "--erase"
    ensures Parse(Kept(tokens)).Runs? ==> !Parse(Kept(tokens)).args.erase
  {
    RebootErasesIffAsked(tokens);
    OptionTokensAreTokens(Kept(tokens));
    KeptIsPart(tokens);
  }

  lemma KeptTwoMore(a: string, b: string, rest: seq<string>)
    requires !IsErase(a) && !IsErase(b)
    ensures Kept([a, b] + rest) == [a, b] + Kept(rest)
  {
    assert ([a, b] + rest)[1..] == [b] + rest;
    assert ([b] + rest)[1..] == rest;
  }

  /** A cluster goes through the filter: every reboot erases again. */
  lemma ClusterErasesAgain(dir: string)
    requires !IsErase(dir)
    ensures Kept(["-ed", dir]) == ["-ed", dir]
    ensures Parse(["-ed", dir]) == Runs(TopArguments(true, Some(dir)))
  {
    var argv, calls := ["-ed", dir], [EraseCall, DirCall(dir)];
    assert |"-ed"| == 3 && |"--erase"| == 7 && |"-e"| == 2;
    KeptTwoMore("-ed", dir, []);
    assert argv == ["-ed", dir] + [];
    assert "-ed"[1..] == "ed" && "ed"[1..] == "d";
    assert ReadFlags("d") == Token([], TakeValue);
    assert ReadFlags("ed") == Token([EraseCall], TakeValue);
    assert "-ed"[1] == 'e' && "--"[1] == '-';
    assert Read("-ed") == Token([EraseCall], TakeValue);
    assert ValueCalls(argv) == [DirCall(dir)];
    assert Calls(argv) == [EraseCall] + [DirCall(dir)];
    assert Calls(argv) == calls;
    assert calls[1..] == [DirCall(dir)] && calls[1..][1..] == [];
    assert ParseOpts(calls[1..], TopArguments(true, None)) == Runs(TopArguments(true, Some(dir)));
  }

  /** So does a shortened name. */
  lemma ShortenedNameErasesAgain()
    ensures Kept(["--eras"]) == ["--eras"]
    ensures Parse(["--eras"]) == Runs(TopArguments(true, None))
  {
    assert |"--erase"| == 7 && |"-e"| == 2 && |"--eras"| == 6;
    assert "--eras"[2..] == "eras" && "erase"[..4] == "eras";
    NoEquals("eras");
    assert Read("--eras") == Token([EraseCall], GoOn);
    assert Calls(["--eras"]) == [EraseCall] && [EraseCall][1..] == [];
  }

  lemma {:induction false} NoEquals(option: string)
    requires '=' !in option
    ensures SplitValue(option) == (option, None)
  {
    if option != "" {
      assert option[0] in option && option == [option[0]] + option[1..];
      NoEquals(option[1..]);
    }
  }

  /** A directory named like the option loses its name: the original runs on it, the copy is refused. */
  lemma ErasedValueIsLost()
    ensures Parse(["-d", "-e"]) == Runs(TopArguments(false, Some("-e")))
    ensures Parse(Kept(["-d", "-e"])) == Refused
  {
    var argv := ["-d", "-e"];
    assert "-d"[1..] == "d";
    assert Read("-d") == Token([], TakeValue) && IsErase("-e") && !IsErase("-d");
    assert argv[2..] == [];
    assert argv[1..] == ["-e"] && ["-e"][1..] == [];
    assert Calls(argv) == [DirCall("-e")] && Kept(argv) == ["-d"];
    assert Calls(["-d"]) == [ErrorCall];
    assert [DirCall("-e")][1..] == [];
  }

  // ---- the other tokens ----

  /** A cluster by its first letter. */
  lemma ShortTokens(c: char, rest: string)
    requires c != '-'
    ensures Read("-" + [c] + rest)
            == if c == 'e' then Token([EraseCall] + ReadFlags(rest).calls, ReadFlags(rest).next)
               else if c == 'd' && rest == "" then Token([], TakeValue)
               else if c == 'd' then Token([DirCall(rest)], GoOn)
               else if c == '?' || c == 'V' then Token([InformCall], Stop)
               else Token([ErrorCall], Stop)
  {
    var arg, flags := "-" + [c] + rest, [c] + rest;
    assert arg[0] == '-' && arg[1] == c && arg[1..] == flags;
    assert "--"[1] == '-' && flags[0] == c && flags[1..] == rest;
    assert |flags| == 1 + |rest|;
  }

  /** What is no option: nothing, a lone dash, anything without a dash; and the end of the options. */
  lemma OrdinaryTokens(arg: string)
    ensures arg == "" || arg == "-" || arg[0] != '-' ==> Read(arg) == Token([], GoOn)
    ensures Read("--") == Token([], Stop)
  {
    assert "-"[0] == '-' && "--"[0] == '-';
  }

  lemma {:induction false} SplitAt(name: string, value: string)
    requires '=' !in name
    ensures SplitValue(name + "=" + value) == (name, Some(value))
  {
    if name == "" {
      assert name + "=" + value == "=" + value;
      assert ("=" + value)[1..] == value;
    } else {
      assert name[0] in name && name == [name[0]] + name[1..];
      SplitAt(name[1..], value);
      var option := name + "=" + value;
      assert option[0] == name[0] && option[1..] == name[1..] + "=" + value;
    }
  }

  lemma LongToken(name: string)
    requires name != ""
    ensures Read("--" + name) == ReadLong(name)
  {
    assert ("--" + name)[2..] == name && |"--" + name| > 2;
  }

  /** The long options, whole or cut short, with and without a value. */
  lemma LongTokens(name: string, value: string)
    requires name != "" && '=' !in name
    ensures name <= "erase" ==>
              && Read("--" + name) == Token([EraseCall], GoOn)
              && Read("--" + (name + "=" + value)) == Token([ErrorCall], Stop)
    ensures name <= "fsdir" ==>
              && Read("--" + name) == Token([], TakeValue)
              && Read("--" + (name + "=" + value)) == Token([DirCall(value)], GoOn)
    ensures name <= "help" || name <= "usage" || name <= "version" ==>
              && Read("--" + name) == Token([InformCall], Stop)
              && Read("--" + (name + "=" + value)) == Token([ErrorCall], Stop)
    ensures name[0] !in "efhuv" ==> Read("--" + name) == Token([ErrorCall], Stop)
  {
    LongToken(name);
    LongToken(name + "=" + value);
    NoEquals(name);
    SplitAt(name, value);
    assert "efhuv"[0] == 'e' && "efhuv"[1] == 'f' && "efhuv"[2] == 'h' && "efhuv"[3] == 'u' && "efhuv"[4] == 'v';
    assert "erase"[0] == 'e' && "fsdir"[0] == 'f' && "help"[0] == 'h' && "usage"[0] == 'u' && "version"[0] == 'v';
  }

  /** `end` comes before any other call that ends the program. */
  ghost predicate EndsWith(calls: seq<Call>, end: Call) {
    exists i :: 0 <= i < |calls| && calls[i] == end
                && forall j :: 0 <= j < i ==> calls[j] != InformCall && calls[j] != ErrorCall
  }

  /** The first call that ends the program decides how it ends. */
  lemma {:induction false} FirstEndDecides(calls: seq<Call>, args: TopArguments)
    ensures ParseOpts(calls, args) == Exits <==> EndsWith(calls, InformCall)
    ensures ParseOpts(calls, args) == Refused <==> EndsWith(calls, ErrorCall)
    decreases |calls|
  {
    if calls != [] {
      var rest := calls[1..];
      match calls[0]
      case EraseCall =>
        FirstEndDecides(rest, args.(erase := true));
        EndsLater(calls, InformCall);
        EndsLater(calls, ErrorCall);
      case DirCall(dir) =>
        FirstEndDecides(rest, args.(fsDir := Some(dir)));
        EndsLater(calls, InformCall);
        EndsLater(calls, ErrorCall);
      case _ =>
    }
  }

  lemma EndsLater(calls: seq<Call>, end: Call)
    requires calls != [] && calls[0] != InformCall && calls[0] != ErrorCall && (end == InformCall || end == ErrorCall)
    ensures EndsWith(calls, end) <==> EndsWith(calls[1..], end)
  {
    var rest := calls[1..];
    if EndsWith(rest, end) {
      var i :| 0 <= i < |rest| && rest[i] == end
               && forall j :: 0 <= j < i ==> rest[j] != InformCall && rest[j] != ErrorCall;
      assert calls[i + 1] == end;
      assert forall j :: 0 < j < i + 1 ==> calls[j] == rest[j - 1];
    }
    if EndsWith(calls, end) {
      var i :| 0 <= i < |calls| && calls[i] == end
               && forall j :: 0 <= j < i ==> calls[j] != InformCall && calls[j] != ErrorCall;
      assert i > 0 && rest[i - 1] == end;
      assert forall j :: 0 <= j < i - 1 ==> rest[j] == calls[j + 1];
    }
  }

  /** The directory named last. */
  function LastDir(calls: seq<Call>, before: Option<string>): Option<string> {
    if calls == [] then before
    else LastDir(calls[1..], if calls[0].DirCall? then Some(calls[0].dir) else before)
  }

  /** A program that runs uses the directory named last, or the default. */
  lemma {:induction false} LastDirWins(calls: seq<Call>, args: TopArguments)
    ensures ParseOpts(calls, args).Runs? ==> ParseOpts(calls, args).args.fsDir == LastDir(calls, args.fsDir)
    ensures ParseOpts(calls, args).Runs? <==> InformCall !in calls && ErrorCall !in calls
    decreases |calls|
  {
    if calls != [] {
      match calls[0]
      case EraseCall => LastDirWins(calls[1..], args.(erase := true));
      case DirCall(dir) => LastDirWins(calls[1..], args.(fsDir := Some(dir)));
      case _ =>
    }
  }
}
