/**
 * The command-line loop of the deployment driver: a single pass over the
 * tokens that follow the program name, updating seven variables.
 */
module Cli {
  import opened Wrappers

  const AllFlag := "--all"
  const CopyBroadcastFlag := "--cp-bf"
  const DeterministicFlag := "--deterministic"
  const BroadcastFlag := "--broadcast"
  const GasPriceFlag := "--gas-price"

  const DefaultScript := "DeployProtocol.s.sol"
  const DeterministicScript := "DeployDeterministicProtocol.s.sol"

  /** The text spliced into the deployer's arguments when broadcasting. */
  const BroadcastArgs := " --broadcast --verify"

  /** The text spliced into the deployer's arguments for a gas price override. */
  function GasPriceArg(value: string): string {
    " --gas-price " + value
  }

  /** The variables the argument loop updates, with the names the driver gives them. */
  datatype Options = Options(
    broadcastDeployment: string,
    cpBroadcastedFile: bool,
    gasPrice: string,
    isDeterministic: bool,
    scriptName: string,
    onAllChains: bool,
    providedChains: seq<string>)

  /** The values the variables hold before the first token is read. */
  const Defaults := Options("", false, "", false, DefaultScript, false, [])

  /** The one fatal argument error: `--gas-price` is the last token. */
  datatype ParseError = MissingGasPriceValue

  /** Tokens that start with `--` are never taken as chain names. */
  predicate IsFlagLike(arg: string) {
    |arg| >= 2 && arg[..2] == "--"
  }

  /**
   * The effect of one token other than `--gas-price`: each recognised flag
   * sets its own variable only; a bare token is a requested chain unless
   * `--all` came first; anything else is reported and changes nothing.
   */
  function Apply(o: Options, arg: string): (r: Options)
    requires arg != GasPriceFlag
    ensures r.onAllChains == (o.onAllChains || arg == AllFlag)
    ensures r.cpBroadcastedFile == (o.cpBroadcastedFile || arg == CopyBroadcastFlag)
    ensures r.isDeterministic == (o.isDeterministic || arg == DeterministicFlag)
    ensures r.scriptName == (if arg == DeterministicFlag then DeterministicScript else o.scriptName)
    ensures r.broadcastDeployment == (if arg == BroadcastFlag then BroadcastArgs else o.broadcastDeployment)
    ensures r.gasPrice == o.gasPrice
    ensures r.providedChains
            == (if !IsFlagLike(arg) && !o.onAllChains then o.providedChains + [arg] else o.providedChains)
    ensures (IsFlagLike(arg) && arg != AllFlag && arg != CopyBroadcastFlag && arg != DeterministicFlag
             && arg != BroadcastFlag) ==> r == o
  {
    if arg == AllFlag then o.(onAllChains := true)
    else if arg == CopyBroadcastFlag then o.(cpBroadcastedFile := true)
    else if arg == DeterministicFlag then o.(scriptName := DeterministicScript, isDeterministic := true)
    else if arg == BroadcastFlag then o.(broadcastDeployment := BroadcastArgs)
    else if !IsFlagLike(arg) && !o.onAllChains then o.(providedChains := o.providedChains + [arg])
    else o
  }

  /**
   * The loop, token by token, from the variables `o`: `--gas-price` takes
   * the next token verbatim, whatever it is, and fails when there is none.
   */
  function ParseFrom(o: Options, args: seq<string>): Result<Options, ParseError>
    decreases |args|
  {
    if args == [] then Ok(o)
    else if args[0] == GasPriceFlag then
      if |args| == 1 then Err(MissingGasPriceValue)
      else ParseFrom(o.(gasPrice := GasPriceArg(args[1])), args[2..])
    else ParseFrom(Apply(o, args[0]), args[1..])
  }

  /** The whole argument loop, from the initial values. */
  function Parse(args: seq<string>): Result<Options, ParseError> {
    ParseFrom(Defaults, args)
  }

  /** The argument loop of the driver, over the tokens after the program name. */
  method ParseArgs(args: seq<string>) returns (r: Result<Options, ParseError>)
    ensures r == Parse(args)
  {
    var broadcastDeployment := "";
    var cpBroadcastedFile := false;
    var gasPrice := "";
    var isDeterministic := false;
    var scriptName := DefaultScript;
    var onAllChains := false;
    var providedChains: seq<string> := [];
    var i := 0;
    while i < |args|
      invariant 0 <= i <= |args|
      invariant ParseFrom(Options(broadcastDeployment, cpBroadcastedFile, gasPrice, isDeterministic,
                                  scriptName, onAllChains, providedChains), args[i..])
                == Parse(args)
      decreases |args| - i
    {
      var arg := args[i];
      assert args[i..][0] == arg;
      if arg == GasPriceFlag {
        if i + 1 == |args| {
          return Err(MissingGasPriceValue);
        }
        assert args[i..][1] == args[i + 1];
        assert args[i..][2..] == args[i + 2..];
        gasPrice := GasPriceArg(args[i + 1]);
        i := i + 2;
      } else {
        assert args[i..][1..] == args[i + 1..];
        if arg == AllFlag {
          onAllChains := true;
        } else if arg == CopyBroadcastFlag {
          cpBroadcastedFile := true;
        } else if arg == DeterministicFlag {
          scriptName := DeterministicScript;
          isDeterministic := true;
        } else if arg == BroadcastFlag {
          broadcastDeployment := BroadcastArgs;
        } else if !IsFlagLike(arg) && !onAllChains {
          providedChains := providedChains + [arg];
        }
        i := i + 1;
      }
    }
    assert args[i..] == [];
    r := Ok(Options(broadcastDeployment, cpBroadcastedFile, gasPrice, isDeterministic,
                    scriptName, onAllChains, providedChains));
  }

  // ---------------------------------------------------------------------
  // An independent reading of the command line: the tokens grouped into the
  // words the loop acts on, and what each variable ends up as in terms of them.
  // ---------------------------------------------------------------------

  /** A word of the command line: a single token, a gas price with its value, or a gas price flag with none. */
  datatype Word = Token(text: string) | GasPrice(value: string) | DanglingGasPrice

  function Words(args: seq<string>): seq<Word>
    decreases |args|
  {
    if args == [] then []
    else if args[0] == GasPriceFlag then
      if |args| == 1 then [DanglingGasPrice] else [GasPrice(args[1])] + Words(args[2..])
    else [Token(args[0])] + Words(args[1..])
  }

  /** The bare tokens that come before the first `--all`, in command-line order, repeats kept. */
  function ChainTokens(ws: seq<Word>): seq<string>
    decreases |ws|
  {
    if ws == [] || ws[0] == Token(AllFlag) then []
    else (if ws[0].Token? && !IsFlagLike(ws[0].text) then [ws[0].text] else []) + ChainTokens(ws[1..])
  }

  /** The loop fails exactly when some `--gas-price` has no value after it. */
  lemma {:induction false} ParseFailsIffDangling(o: Options, args: seq<string>)
    ensures ParseFrom(o, args).Err? <==> DanglingGasPrice in Words(args)
    decreases |args|
  {
    if args == [] {
    } else if args[0] == GasPriceFlag {
      if |args| > 1 {
        ParseFailsIffDangling(o.(gasPrice := GasPriceArg(args[1])), args[2..]);
      }
    } else {
      ParseFailsIffDangling(Apply(o, args[0]), args[1..]);
    }
  }

  /** The four switches are on exactly when their flag occurs as a word (a gas price value does not count). */
  lemma {:induction false} ParseSwitches(o: Options, args: seq<string>)
    requires ParseFrom(o, args).Ok?
    ensures var r := ParseFrom(o, args).value;
      && r.onAllChains == (o.onAllChains || Token(AllFlag) in Words(args))
      && r.cpBroadcastedFile == (o.cpBroadcastedFile || Token(CopyBroadcastFlag) in Words(args))
      && r.isDeterministic == (o.isDeterministic || Token(DeterministicFlag) in Words(args))
      && r.scriptName == (if Token(DeterministicFlag) in Words(args) then DeterministicScript else o.scriptName)
      && r.broadcastDeployment
         == (if Token(BroadcastFlag) in Words(args) then BroadcastArgs else o.broadcastDeployment)
    decreases |args|
  {
    if args == [] {
    } else if args[0] == GasPriceFlag {
      ParseSwitches(o.(gasPrice := GasPriceArg(args[1])), args[2..]);
    } else {
      ParseSwitches(Apply(o, args[0]), args[1..]);
    }
  }

  /** The gas price is set by the last `--gas-price` word, and left alone when there is none. */
  lemma {:induction false} ParseGasPriceLastWins(o: Options, args: seq<string>)
    requires ParseFrom(o, args).Ok?
    ensures var r := ParseFrom(o, args).value; var ws := Words(args);
      && ((forall j :: 0 <= j < |ws| ==> !ws[j].GasPrice?) ==> r.gasPrice == o.gasPrice)
      && (forall j :: 0 <= j < |ws| && ws[j].GasPrice? && (forall k :: j < k < |ws| ==> !ws[k].GasPrice?)
            ==> r.gasPrice == GasPriceArg(ws[j].value))
    decreases |args|
  {
    if args != [] {
      var gas := args[0] == GasPriceFlag;
      var o' := if gas then o.(gasPrice := GasPriceArg(args[1])) else Apply(o, args[0]);
      var rest := if gas then args[2..] else args[1..];
      var w := if gas then GasPrice(args[1]) else Token(args[0]);
      assert ParseFrom(o', rest) == ParseFrom(o, args);
      assert Words(args) == [w] + Words(rest);
      ParseGasPriceLastWins(o', rest);
      LastGasPriceStep(o, o', w, Words(rest), ParseFrom(o, args).value.gasPrice);
    }
  }

  /** One step of ParseGasPriceLastWins: a word in front of the rest of the words. */
  lemma LastGasPriceStep(o: Options, o': Options, w: Word, tail: seq<Word>, result: string)
    requires w.GasPrice? ==> o'.gasPrice == GasPriceArg(w.value)
    requires !w.GasPrice? ==> o'.gasPrice == o.gasPrice
    requires (forall j :: 0 <= j < |tail| ==> !tail[j].GasPrice?) ==> result == o'.gasPrice
    requires forall j :: 0 <= j < |tail| && tail[j].GasPrice? && (forall k :: j < k < |tail| ==> !tail[k].GasPrice?)
               ==> result == GasPriceArg(tail[j].value)
    ensures var ws := [w] + tail;
      && ((forall j :: 0 <= j < |ws| ==> !ws[j].GasPrice?) ==> result == o.gasPrice)
      && (forall j :: 0 <= j < |ws| && ws[j].GasPrice? && (forall k :: j < k < |ws| ==> !ws[k].GasPrice?)
            ==> result == GasPriceArg(ws[j].value))
  {
    var ws := [w] + tail;
    forall j | 0 <= j < |ws| && ws[j].GasPrice? && (forall k :: j < k < |ws| ==> !ws[k].GasPrice?)
      ensures result == GasPriceArg(ws[j].value)
    {
      if j == 0 {
        assert forall k :: 0 <= k < |tail| ==> !tail[k].GasPrice? by {
          forall k | 0 <= k < |tail| ensures !tail[k].GasPrice? {
            assert tail[k] == ws[k + 1];
          }
        }
      } else {
        assert tail[j - 1] == ws[j];
        forall k | j - 1 < k < |tail| ensures !tail[k].GasPrice? {
          assert tail[k] == ws[k + 1];
        }
      }
    }
    if forall j :: 0 <= j < |ws| ==> !ws[j].GasPrice? {
      assert !ws[0].GasPrice?;
      forall k | 0 <= k < |tail| ensures !tail[k].GasPrice? {
        assert tail[k] == ws[k + 1];
      }
    }
  }

  /** The requested chains are the bare tokens before the first `--all`, appended in order. */
  lemma {:induction false} ParseRequestedChains(o: Options, args: seq<string>)
    requires ParseFrom(o, args).Ok?
    ensures ParseFrom(o, args).value.providedChains
            == o.providedChains + (if o.onAllChains then [] else ChainTokens(Words(args)))
    decreases |args|
  {
    if args == [] {
    } else if args[0] == GasPriceFlag {
      ParseRequestedChains(o.(gasPrice := GasPriceArg(args[1])), args[2..]);
      GasPriceWordIsNoChain(args);
    } else {
      ParseRequestedChains(Apply(o, args[0]), args[1..]);
      assert Words(args) == [Token(args[0])] + Words(args[1..]);
      TokenWordStep(o, args[0], Words(args[1..]));
    }
  }

  /** A `--gas-price` word contributes no chain. */
  lemma GasPriceWordIsNoChain(args: seq<string>)
    requires |args| >= 2 && args[0] == GasPriceFlag
    ensures ChainTokens(Words(args)) == ChainTokens(Words(args[2..]))
  {
    var ws := Words(args);
    assert ws == [GasPrice(args[1])] + Words(args[2..]);
    assert ws[1..] == Words(args[2..]);
  }

  /** One token word: what Apply adds to the chains is what ChainTokens reads off it. */
  lemma TokenWordStep(o: Options, a: string, tail: seq<Word>)
    requires a != GasPriceFlag
    ensures var o' := Apply(o, a);
      o'.providedChains + (if o'.onAllChains then [] else ChainTokens(tail))
      == o.providedChains + (if o.onAllChains then [] else ChainTokens([Token(a)] + tail))
  {
    if a == AllFlag {
      AllWordStep(o, tail);
    } else if o.onAllChains {
      assert Apply(o, a).providedChains == o.providedChains;
    } else {
      OtherWordStep(o, a, tail);
    }
  }

  /** `--all` adds no chain, and no later token adds one either. */
  lemma AllWordStep(o: Options, tail: seq<Word>)
    ensures var o' := Apply(o, AllFlag);
      o'.providedChains + (if o'.onAllChains then [] else ChainTokens(tail))
      == o.providedChains + (if o.onAllChains then [] else ChainTokens([Token(AllFlag)] + tail))
  {
    ChainTokensCons(AllFlag, tail);
    assert AllFlag[..2] == "--";
  }

  /** Before `--all`, any other token adds itself when it is bare, and nothing otherwise. */
  lemma OtherWordStep(o: Options, a: string, tail: seq<Word>)
    requires a != GasPriceFlag && a != AllFlag && !o.onAllChains
    ensures var o' := Apply(o, a);
      o'.providedChains + (if o'.onAllChains then [] else ChainTokens(tail))
      == o.providedChains + (if o.onAllChains then [] else ChainTokens([Token(a)] + tail))
  {
    ChainTokensCons(a, tail);
    var here := if !IsFlagLike(a) then [a] else [];
    assert Apply(o, a).providedChains == o.providedChains + here;
    assert (o.providedChains + here) + ChainTokens(tail) == o.providedChains + (here + ChainTokens(tail));
  }

  /** ChainTokens of a token followed by further words. */
  lemma ChainTokensCons(a: string, tail: seq<Word>)
    ensures ChainTokens([Token(a)] + tail)
            == if a == AllFlag then [] else (if !IsFlagLike(a) then [a] else []) + ChainTokens(tail)
  {
    var ws := [Token(a)] + tail;
    assert ws[0] == Token(a);
    assert ws[1..] == tail;
  }

  /** A gas price value is taken verbatim even when it looks like a flag. */
  lemma GasPriceValueMayLookLikeAFlag()
    ensures Parse([GasPriceFlag, AllFlag]) == Ok(Defaults.(gasPrice := " --gas-price --all"))
  {
    var args := [GasPriceFlag, AllFlag];
    assert args[2..] == [];
    assert GasPriceArg(AllFlag) == " --gas-price --all";
    assert Parse(args) == ParseFrom(Defaults.(gasPrice := GasPriceArg(AllFlag)), []);
  }
}
