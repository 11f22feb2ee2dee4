/** The command line front end: the `Command` enum, the tokenizer
    `parse_input`, the "no arguments" guard, the walk over the command
    registry and the completion filter of the prompt. */
module Commands {
  import opened Base
  import opened PyText

  /** `Command` as `commands_enum.py` declares it. */
  datatype Command = Help | Exit

  function CommandValue(c: Command): string
  {
    match c
    case Help => "help"
    case Exit => "exit"
  }

  /** `Command(s)`: the member whose value is exactly `s` (case-sensitive). */
  function ParseCommand(s: string): (r: Option<Command>)
    ensures r.Some? <==> exists c :: CommandValue(c) == s
    ensures r.Some? ==> CommandValue(r.value) == s
  {
    if s == "help" then assert CommandValue(Help) == s; Some(Help)
    else if s == "exit" then assert CommandValue(Exit) == s; Some(Exit)
    else
      CommandValues();
      None
  }

  lemma CommandValues()
    ensures forall c :: CommandValue(c) == "help" || CommandValue(c) == "exit"
  {
    forall c ensures CommandValue(c) == "help" || CommandValue(c) == "exit" {
      match c
      case Help =>
      case Exit =>
    }
  }

  /** `Command.get_default()` */
  function DefaultCommand(): Command
  {
    Help
  }

  /** `COMMANDS_ORDER` */
  function CommandsOrder(): seq<Command>
  {
    [Help, Exit]
  }

  datatype UserInput = UserInput(command: Command, args: seq<string>)

  /** `parse_input`: strip, split on whitespace runs, read the first word as
      the command; an unknown command is an `InvalidCommandError` whose
      message is the raw input. */
  function ParseInput(userInput: string): (r: Result<UserInput>)
    ensures var parts := SplitWs(Strip(userInput));
            && (parts == [] ==> r == Ok(UserInput(DefaultCommand(), [])))
            && (parts != [] && ParseCommand(parts[0]).None? ==> r == Fail(InvalidCommandError, userInput))
            && (parts != [] && ParseCommand(parts[0]).Some? ==> r == Ok(UserInput(ParseCommand(parts[0]).value, parts[1..])))
    ensures r.Ok? ==> forall i :: 0 <= i < |r.value.args| ==> IsWord(r.value.args[i])
  {
    var parts := SplitWs(Strip(userInput));
    if parts == [] then Ok(UserInput(DefaultCommand(), []))
    else
      match ParseCommand(parts[0])
      case None => Fail(InvalidCommandError, userInput)
      case Some(c) => Ok(UserInput(c, parts[1..]))
  }

  /** Blank input is the default command with no arguments. */
  lemma BlankInputIsHelp(userInput: string)
    requires forall i :: 0 <= i < |userInput| ==> IsSpace(userInput[i])
    ensures ParseInput(userInput) == Ok(UserInput(Help, []))
  {
    StripEmptyIffBlank(userInput);
  }

  /** The command and its arguments are the input's words: joined together
      they give back every non-whitespace character, in order, and the
      argument count is the word count minus one. */
  lemma ParseInputKeepsWords(userInput: string)
    requires ParseInput(userInput).Ok? && SplitWs(Strip(userInput)) != []
    ensures var u := ParseInput(userInput).value;
            Concat([CommandValue(u.command)] + u.args) == NonSpace(Strip(userInput))
            && |u.args| == |SplitWs(Strip(userInput))| - 1
  {
    var parts := SplitWs(Strip(userInput));
    SplitWsCovers(Strip(userInput));
    assert parts == [parts[0]] + parts[1..];
  }

  lemma ParseInputOfWords(line: seq<string>)
    requires forall i :: 0 <= i < |line| ==> IsWord(line[i])
    requires line != [] && ParseCommand(line[0]).Some?
    ensures ParseInput(Join(" ", line)) == Ok(UserInput(ParseCommand(line[0]).value, line[1..]))
  {
    SplitWsStripJoin(line);
  }

  /** Round trip: a command value followed by words, joined with single
      spaces, parses back to that command and those words. */
  lemma ParseInputOfJoined(c: Command, words: seq<string>)
    requires forall i :: 0 <= i < |words| ==> IsWord(words[i])
    ensures ParseInput(Join(" ", [CommandValue(c)] + words)) == Ok(UserInput(c, words))
  {
    var line := [CommandValue(c)] + words;
    CommandValueIsWord(c);
    forall i | 0 <= i < |line| ensures IsWord(line[i]) {
      if i > 0 {
        assert line[i] == words[i - 1];
      }
    }
    assert ParseCommand(line[0]) == Some(c);
    ParseInputOfWords(line);
    assert line[1..] == words;
  }

  lemma CommandValueIsWord(c: Command)
    ensures IsWord(CommandValue(c))
  {
    match c
    case Help => assert IsWord("help");
    case Exit => assert IsWord("exit");
  }

  /** `no_direct_args_check`: any argument at all, even a `None` one, is
      an error. */
  function NoDirectArgsCheck(args: seq<Option<string>>): (r: Option<Error>)
    ensures r.None? <==> args == []
    ensures r.Some? ==> r.value == Error(InvalidCommandError, "Command does not take any arguments.")
  {
    if args != [] then Some(Error(InvalidCommandError, "Command does not take any arguments.")) else None
  }

  /** A command's registry entry. `hidden` is `None` for an entry that has
      no `hidden` attribute, as `CommandMeta` in `command_meta.py` declares
      none. */
  datatype CommandMeta = CommandMeta(command: Command, hidden: Option<bool>)

  /** The registry entries of the commands in `order`, in order. */
  function Entries(order: seq<Command>, registry: map<Command, CommandMeta>): (r: seq<CommandMeta>)
    requires forall i :: 0 <= i < |order| ==> order[i] in registry
    ensures |r| == |order| && forall i :: 0 <= i < |order| ==> r[i] == registry[order[i]]
  {
    if order == [] then []
    else
      assert forall i :: 1 <= i < |order| ==> order[1..][i - 1] == order[i];
      [registry[order[0]]] + Entries(order[1..], registry)
  }

  /** Whether the walk yields an entry: always with `showHidden`, otherwise
      unless its `hidden` is true. */
  predicate Shown(meta: CommandMeta, showHidden: bool)
  {
    showHidden || meta.hidden != Some(true)
  }

  /** The entries of `metas` the walk yields, in their order in `metas`. */
  function SelectShown(metas: seq<CommandMeta>, showHidden: bool): (r: seq<CommandMeta>)
    ensures |r| <= |metas|
    ensures forall m :: m in r <==> m in metas && Shown(m, showHidden)
  {
    if metas == [] then []
    else
      assert forall m :: m in metas <==> m == metas[0] || m in metas[1..] by {
        assert metas == [metas[0]] + metas[1..];
      }
      (if Shown(metas[0], showHidden) then [metas[0]] else []) + SelectShown(metas[1..], showHidden)
  }

  /** Selecting from two listings in a row selects from each, keeping the
      first one's picks first. */
  lemma {:induction false} SelectShownAppend(a: seq<CommandMeta>, b: seq<CommandMeta>, showHidden: bool)
    ensures SelectShown(a + b, showHidden) == SelectShown(a, showHidden) + SelectShown(b, showHidden)
  {
    if a == [] {
      assert a + b == b;
    } else {
      assert (a + b)[0] == a[0] && (a + b)[1..] == a[1..] + b;
      SelectShownAppend(a[1..], b, showHidden);
    }
  }

  /** A listing whose every entry is shown is kept whole. */
  lemma {:induction false} SelectShownAll(metas: seq<CommandMeta>, showHidden: bool)
    requires forall i :: 0 <= i < |metas| ==> Shown(metas[i], showHidden)
    ensures SelectShown(metas, showHidden) == metas
  {
    if metas != [] {
      assert forall i :: 1 <= i < |metas| ==> metas[1..][i - 1] == metas[i];
      SelectShownAll(metas[1..], showHidden);
    }
  }

  /** Whether the walk gets past a command: it must be registered, and
      without `showHidden` its entry must have a `hidden` attribute. */
  predicate Passes(c: Command, registry: map<Command, CommandMeta>, showHidden: bool)
  {
    c in registry && (showHidden || registry[c].hidden.Some?)
  }

  /** The exception the walk raises at a command it cannot get past. */
  function WalkError(c: Command, registry: map<Command, CommandMeta>): Error
  {
    if c !in registry then Error(KeyError, CommandValue(c))
    else Error(AttributeError, "'CommandMeta' object has no attribute 'hidden'")
  }

  /** `iterate_over_commands_meta`: the registry entries in `order`, leaving
      out hidden ones unless `showHidden`. It fails at the first command
      that is not registered (`KeyError`) or, without `showHidden`, whose
      entry has no `hidden` attribute (`AttributeError`). */
  function IterateOverCommandsMeta(order: seq<Command>, registry: map<Command, CommandMeta>, showHidden: bool)
    : (r: Result<seq<CommandMeta>>)
    ensures r.Ok? <==> forall i :: 0 <= i < |order| ==> Passes(order[i], registry, showHidden)
    ensures r.Ok? ==> r.value == SelectShown(Entries(order, registry), showHidden)
    ensures r.Err? ==> exists k :: 0 <= k < |order| && !Passes(order[k], registry, showHidden)
                                   && (forall j :: 0 <= j < k ==> Passes(order[j], registry, showHidden))
                                   && r.error == WalkError(order[k], registry)
  {
    if order == [] then Ok([])
    else if order[0] !in registry then Fail(KeyError, CommandValue(order[0]))
    else
      var meta := registry[order[0]];
      if !showHidden && meta.hidden.None? then Fail(AttributeError, "'CommandMeta' object has no attribute 'hidden'")
      else
        assert forall i :: 1 <= i < |order| ==> order[1..][i - 1] == order[i];
        match IterateOverCommandsMeta(order[1..], registry, showHidden)
        case Err(e) =>
          ghost var k :| 0 <= k < |order[1..]| && !Passes(order[1..][k], registry, showHidden)
                         && (forall j :: 0 <= j < k ==> Passes(order[1..][j], registry, showHidden))
                         && e == WalkError(order[1..][k], registry);
          assert !Passes(order[k + 1], registry, showHidden);
          Err(e)
        case Ok(rest) =>
          if !showHidden && meta.hidden.value then Ok(rest) else Ok([meta] + rest)
  }

  /** With `showHidden` there is exactly one entry per command in the order,
      and a command missing from the registry is a `KeyError`. */
  lemma {:induction false} ShowHiddenYieldsAll(order: seq<Command>, registry: map<Command, CommandMeta>)
    ensures IterateOverCommandsMeta(order, registry, true).Ok? <==> forall i :: 0 <= i < |order| ==> order[i] in registry
    ensures IterateOverCommandsMeta(order, registry, true).Ok? ==>
              var r := IterateOverCommandsMeta(order, registry, true).value;
              |r| == |order| && forall i :: 0 <= i < |order| ==> r[i] == registry[order[i]]
  {
    if order != [] {
      ShowHiddenYieldsAll(order[1..], registry);
      assert forall i :: 1 <= i < |order| ==> order[i] == order[1..][i - 1];
    }
  }

  datatype Completion = Completion(text: string, startPosition: int)

  /** The characters of a word for prompt_toolkit's word search. */
  predicate IsWordChar(c: char)
  {
    ('a' <= c <= 'z') || ('A' <= c <= 'Z') || ('0' <= c <= '9') || c == '_'
  }

  /** `document.get_word_before_cursor()`: the run at the end of the text of
      characters of the same kind as the last one (word characters, or other
      non-whitespace), or "" when the text is empty or ends with whitespace. */
  function WordBeforeCursor(text: string): (w: string)
    ensures |w| <= |text| && w == text[|text| - |w|..]
    ensures forall i :: 0 <= i < |w| ==> !IsSpace(w[i])
  {
    if text == [] || IsSpace(text[|text| - 1]) then ""
    else SameKindSuffix(text, IsWordChar(text[|text| - 1]))
  }

  function SameKindSuffix(text: string, word: bool): (w: string)
    ensures |w| <= |text| && w == text[|text| - |w|..]
    ensures forall i :: 0 <= i < |w| ==> !IsSpace(w[i]) && IsWordChar(w[i]) == word
  {
    if text == [] then ""
    else
      var c := text[|text| - 1];
      if IsSpace(c) || IsWordChar(c) != word then ""
      else
        var w := SameKindSuffix(text[..|text| - 1], word);
        assert text[..|text| - 1][|text| - 1 - |w|..] == text[|text| - 1 - |w|..|text| - 1];
        w + [c]
  }

  predicate Offers(r: seq<Completion>, h: string)
  {
    exists i :: 0 <= i < |r| && r[i].text == h
  }

  lemma OffersAppend(a: seq<Completion>, b: seq<Completion>, h: string)
    ensures Offers(a + b, h) <==> Offers(a, h) || Offers(b, h)
  {
    if Offers(a + b, h) {
      var i :| 0 <= i < |a + b| && (a + b)[i].text == h;
      if i >= |a| { assert b[i - |a|] == (a + b)[i]; }
    }
    if Offers(b, h) {
      var i :| 0 <= i < |b| && b[i].text == h;
      assert (a + b)[i + |a|] == b[i];
    }
    if Offers(a, h) {
      var i :| 0 <= i < |a| && a[i].text == h;
      assert (a + b)[i] == a[i];
    }
  }

  /** The hints that start with `word`, in hint order. */
  function MatchingHints(hints: seq<string>, word: string): (r: seq<Completion>)
    ensures forall h :: Offers(r, h) <==> h in hints && StartsWith(h, word)
    ensures forall i :: 0 <= i < |r| ==> r[i].startPosition == -|word|
    ensures |r| <= |hints|
  {
    if hints == [] then []
    else
      var rest := MatchingHints(hints[1..], word);
      var head := if StartsWith(hints[0], word) then [Completion(hints[0], -|word|)] else [];
      var r := head + rest;
      assert forall h :: h in hints <==> h == hints[0] || h in hints[1..] by {
        assert hints == [hints[0]] + hints[1..];
      }
      forall h ensures Offers(r, h) <==> (StartsWith(hints[0], word) && h == hints[0]) || Offers(rest, h) {
        OffersAppend(head, rest, h);
        if StartsWith(hints[0], word) && h == hints[0] {
          assert head[0].text == h;
        }
      }
      r
  }

  /** `HintsCompleter.get_completions` */
  function GetCompletions(hints: seq<string>, textBeforeCursor: string): (r: seq<Completion>)
    ensures ' ' in LStrip(textBeforeCursor) ==> r == []
    ensures ' ' !in LStrip(textBeforeCursor) ==> r == MatchingHints(hints, Lower(WordBeforeCursor(textBeforeCursor)))
  {
    if ' ' in LStrip(textBeforeCursor) then []
    else MatchingHints(hints, Lower(WordBeforeCursor(textBeforeCursor)))
  }

  /** With nothing typed yet every hint is offered, in order. */
  lemma {:induction false} EmptyWordOffersAll(hints: seq<string>)
    ensures MatchingHints(hints, "") == seq(|hints|, i requires 0 <= i < |hints| => Completion(hints[i], 0))
  {
    if hints != [] {
      EmptyWordOffersAll(hints[1..]);
      assert StartsWith(hints[0], "");
    }
  }

  /** The command values of a listing of entries, in order. */
  function Values(metas: seq<CommandMeta>): (r: seq<string>)
    ensures |r| == |metas| && forall i :: 0 <= i < |metas| ==> r[i] == CommandValue(metas[i].command)
  {
    seq(|metas|, i requires 0 <= i < |metas| => CommandValue(metas[i].command))
  }

  /** `get_completer`: the hints are the values of the commands the default
      walk lists, in display order; the completer cannot be built when that
      walk fails. */
  function GetCompleterHints(registry: map<Command, CommandMeta>): (r: Result<seq<string>>)
    ensures r.Ok? <==> Passes(Help, registry, false) && Passes(Exit, registry, false)
    ensures r.Ok? ==> r.value == Values(SelectShown([registry[Help], registry[Exit]], false))
    ensures r.Ok? ==> forall h :: h in r.value ==> ParseCommand(h).Some?
    ensures r.Err? ==> r.error == if Passes(Help, registry, false) then WalkError(Exit, registry) else WalkError(Help, registry)
  {
    var metas :- IterateOverCommandsMeta(CommandsOrder(), registry, false);
    forall h | h in Values(metas) ensures ParseCommand(h).Some? {
      var i :| 0 <= i < |metas| && Values(metas)[i] == h;
      assert CommandValue(metas[i].command) == h;
    }
    Ok(Values(metas))
  }

  /** When no registry entry has a `hidden` attribute, as `CommandMeta`
      declares none, the default walk fails on its first command, and so the
      completer cannot be built: with the first command registered the
      failure is an `AttributeError`. */
  lemma NoHiddenAttributeFails(order: seq<Command>, registry: map<Command, CommandMeta>)
    requires order != []
    requires forall c :: c in registry ==> registry[c].hidden.None?
    ensures IterateOverCommandsMeta(order, registry, false) == Err(WalkError(order[0], registry))
    ensures order[0] in registry ==> IterateOverCommandsMeta(order, registry, false).error.kind == AttributeError
    ensures GetCompleterHints(registry) == Err(WalkError(Help, registry))
  {
  }
}
