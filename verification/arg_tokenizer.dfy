/** An APPROXIMATION of the `parseArgs` tokenizer from `node:util`, restricted to the
    argument forms the parser's callers and tests use:
    `--name`, `--name value`, `--name=value`, `-x`, `-x value`, the `--` terminator,
    and plain positionals (a lone `-` included).

    - A string-typed option takes the next argument as its value. In strict mode that
      value may not look like an option: a `-` followed by at least one character.
      A lone `-` is an ordinary value.
    - In strict mode, an option with no value left and an unknown option each throw.
      So does a value given to a boolean.
    - In lenient mode, unknown options are recorded under their own name, and nothing
      is thrown.
    - Short-option groups and the `-xVALUE` form are not interpreted. Strict mode
      rejects them and lenient mode skips them.

    The message texts are this model's own; the parser only passes them on. */
module ArgTokenizer {
  import opened Results
  import opened Strings
  import opened CliParser

  /** The option declared under long name `name`. */
  function FindLong(specs: seq<TokSpec>, name: string): (r: Option<TokSpec>)
    ensures r.Some? ==> r.value in specs && r.value.name == name
    ensures r.None? ==> forall s :: s in specs ==> s.name != name
    decreases |specs|
  {
    if |specs| == 0 then None
    else if specs[0].name == name then Some(specs[0])
    else FindLong(specs[1..], name)
  }

  /** The option whose short alias is `letter`. */
  function FindShort(specs: seq<TokSpec>, letter: char): (r: Option<TokSpec>)
    ensures r.Some? ==> r.value in specs && r.value.short == Some([letter])
    ensures r.None? ==> forall s :: s in specs ==> s.short != Some([letter])
    decreases |specs|
  {
    if |specs| == 0 then None
    else if specs[0].short == Some([letter]) then Some(specs[0])
    else FindShort(specs[1..], letter)
  }

  /** `name=value` split at the first `=`; no `=` means no inline value. */
  function SplitInline(body: string): (string, Option<string>)
    decreases |body|
  {
    if |body| == 0 then ("", None)
    else if body[0] == '=' then ("", Some(body[1..]))
    else
      var (name, inline) := SplitInline(body[1..]);
      ([body[0]] + name, inline)
  }

  lemma {:induction false} SplitInlineWithout(name: string)
    requires '=' !in name
    ensures SplitInline(name) == (name, None)
    decreases |name|
  {
    if |name| > 0 {
      assert '=' !in name[1..];
      SplitInlineWithout(name[1..]);
      assert name == [name[0]] + name[1..];
    }
  }

  lemma {:induction false} SplitInlineWith(name: string, value: string)
    requires '=' !in name
    ensures SplitInline(name + "=" + value) == (name, Some(value))
    decreases |name|
  {
    var body := name + "=" + value;
    if |name| == 0 {
      assert body == "=" + value;
      assert body[1..] == value;
    } else {
      assert body[1..] == name[1..] + "=" + value;
      assert '=' !in name[1..];
      SplitInlineWith(name[1..], value);
      assert name == [name[0]] + name[1..];
    }
  }

  /** One scanning step: move on to argument `next` with updated raw values and
      positionals, or stop with an outcome. */
  datatype Step = Advance(next: nat, raw: map<string, RawValue>, positionals: seq<string>) | Stop(outcome: TokenizeOutcome)

  /** A value strict mode refuses to take from the next argument: a dash and at
      least one more character. */
  predicate OptionLike(v: string) {
    |v| > 1 && v[0] == '-'
  }

  /** Record a recognised option written as `display` at argument `i`. */
  function StoreOption(args: seq<string>, i: nat, strict: bool, spec: TokSpec, display: string,
                       inline: Option<string>, raw: map<string, RawValue>, pos: seq<string>): (r: Step)
    requires i < |args|
    ensures r.Advance? ==> i < r.next <= |args| && r.positionals == pos
  {
    if !spec.takesValue then
      if inline.None? then Advance(i + 1, raw[spec.name := Flag], pos)
      else if strict then Stop(Threw(Some("Option '" + display + "' does not take an argument")))
      else Advance(i + 1, raw[spec.name := Text(inline.value)], pos)
    else if inline.Some? then
      Advance(i + 1, raw[spec.name := Text(inline.value)], pos)
    else if i + 1 < |args| then
      if strict && OptionLike(args[i + 1]) then
        Stop(Threw(Some("Option '" + display + "' argument is ambiguous")))
      else Advance(i + 2, raw[spec.name := Text(args[i + 1])], pos)
    else if strict then Stop(Threw(Some("Option '" + display + " <value>' argument missing")))
    else Advance(i + 1, raw[spec.name := Flag], pos)
  }

  /** Interpret argument `i`. */
  function StepAt(specs: seq<TokSpec>, strict: bool, args: seq<string>, i: nat,
                  raw: map<string, RawValue>, pos: seq<string>): (r: Step)
    requires i < |args|
    ensures r.Advance? ==> i < r.next <= |args|
  {
    var arg := args[i];
    if arg == "--" then
      Advance(|args|, raw, pos + args[i + 1..])
    else if |arg| > 2 && arg[..2] == "--" then
      var (name, inline) := SplitInline(arg[2..]);
      match FindLong(specs, name)
      case Some(spec) => StoreOption(args, i, strict, spec, "--" + name, inline, raw, pos)
      case None =>
        if strict then Stop(Threw(Some("Unknown option '--" + name + "'")))
        else Advance(i + 1, raw[name := if inline.Some? then Text(inline.value) else Flag], pos)
    else if |arg| == 2 && arg[0] == '-' then
      match FindShort(specs, arg[1])
      case Some(spec) => StoreOption(args, i, strict, spec, arg, None, raw, pos)
      case None =>
        if strict then Stop(Threw(Some("Unknown option '" + arg + "'")))
        else Advance(i + 1, raw[[arg[1]] := Flag], pos)
    else if |arg| > 2 && arg[0] == '-' then
      if strict then Stop(Threw(Some("Unknown option '" + arg + "'")))
      else Advance(i + 1, raw, pos)
    else
      Advance(i + 1, raw, pos + [arg])
  }

  /** Scan the arguments from index `i` on. */
  function Scan(specs: seq<TokSpec>, strict: bool, args: seq<string>, i: nat,
                raw: map<string, RawValue>, pos: seq<string>): TokenizeOutcome
    requires i <= |args|
    decreases |args| - i
  {
    if i == |args| then Tokenized(Tokens(raw, pos))
    else
      match StepAt(specs, strict, args, i, raw, pos)
      case Stop(outcome) => outcome
      case Advance(next, raw', pos') => Scan(specs, strict, args, next, raw', pos')
  }

  /** The approximate tokenizer, with the signature the parser expects. */
  function Tokenize(args: seq<string>, specs: seq<TokSpec>, strict: bool): TokenizeOutcome {
    Scan(specs, strict, args, 0, map[], [])
  }

  /** `createParser(config).parse(args)` with this tokenizer. */
  function ParseArgs(config: ParserConfig, args: seq<string>): ParseResult
    requires DistinctNames(config.options)
  {
    Parse(config, Tokenize, args)
  }

  // ---------------------------------------------------------------------------
  // Properties of the approximation
  // ---------------------------------------------------------------------------

  /** Lenient mode never throws. */
  lemma {:induction false} LenientScanNeverThrows(specs: seq<TokSpec>, args: seq<string>, i: nat,
                                                  raw: map<string, RawValue>, pos: seq<string>)
    requires i <= |args|
    ensures Scan(specs, false, args, i, raw, pos).Tokenized?
    decreases |args| - i
  {
    if i < |args| {
      var step := StepAt(specs, false, args, i, raw, pos);
      assert step.Advance?;
      LenientScanNeverThrows(specs, args, step.next, step.raw, step.positionals);
    }
  }

  /** In strict mode, a raw value is recorded only under a declared option's name.
      Flag options record a bare flag, and string-typed options record text. */
  ghost predicate RawAgreesWithSpecs(specs: seq<TokSpec>, raw: map<string, RawValue>) {
    forall k :: k in raw ==> exists s :: s in specs && s.name == k && (s.takesValue <==> raw[k].Text?)
  }

  lemma StrictStepAgrees(specs: seq<TokSpec>, args: seq<string>, i: nat,
                         raw: map<string, RawValue>, pos: seq<string>)
    requires i < |args|
    requires RawAgreesWithSpecs(specs, raw)
    ensures var step := StepAt(specs, true, args, i, raw, pos);
            step.Advance? ==> RawAgreesWithSpecs(specs, step.raw)
  {
  }

  lemma {:induction false} StrictScanAgrees(specs: seq<TokSpec>, args: seq<string>, i: nat,
                                            raw: map<string, RawValue>, pos: seq<string>)
    requires i <= |args|
    requires RawAgreesWithSpecs(specs, raw)
    ensures var o := Scan(specs, true, args, i, raw, pos);
            o.Tokenized? ==> RawAgreesWithSpecs(specs, o.tokens.raw)
    decreases |args| - i
  {
    if i < |args| {
      var step := StepAt(specs, true, args, i, raw, pos);
      StrictStepAgrees(specs, args, i, raw, pos);
      if step.Advance? {
        StrictScanAgrees(specs, args, step.next, step.raw, step.positionals);
      }
    }
  }

  /** Agreement with the option table means the tokenizer kept its side of the contract. */
  lemma AgreementGivesText(schema: Schema, raw: map<string, RawValue>)
    requires DistinctNames(schema)
    requires RawAgreesWithSpecs(TokenizerSpecs(schema), raw)
    ensures ValueOptionsHaveText(schema, raw)
  {
    var specs := TokenizerSpecs(schema);
    forall d | d in schema && !d.kind.BooleanKind? && d.name in raw
      ensures raw[d.name].Text?
    {
      var j :| 0 <= j < |schema| && schema[j] == d;
      var s :| s in specs && s.name == d.name && (s.takesValue <==> raw[d.name].Text?);
      var m :| 0 <= m < |specs| && specs[m] == s;
      assert schema[m].name == d.name;
      assert m == j;
    }
  }

  /** With a strict parser every successful parse has the shape the inferred result
      type promises, option by option. */
  lemma StrictParseHasDeclaredTypes(config: ParserConfig, args: seq<string>)
    requires DistinctNames(config.options)
    requires Strict(config)
    requires ParseArgs(config, args).ParseSuccess?
    ensures forall i :: 0 <= i < |config.options| ==>
              HasDeclaredType(config.options[i], ParseArgs(config, args).values[config.options[i].name])
  {
    var specs := TokenizerSpecs(config.options);
    StrictScanAgrees(specs, args, 0, map[], []);
    var tokens := Tokenize(args, specs, true).tokens;
    AgreementGivesText(config.options, tokens.raw);
    SuccessHasDeclaredTypes(config, tokens);
  }

  // ---------------------------------------------------------------------------
  // One step at a time
  // ---------------------------------------------------------------------------

  /** A scan moves on by one step. */
  lemma ScanStep(specs: seq<TokSpec>, strict: bool, args: seq<string>, i: nat,
                 raw: map<string, RawValue>, pos: seq<string>)
    requires i < |args|
    requires StepAt(specs, strict, args, i, raw, pos).Advance?
    ensures var step := StepAt(specs, strict, args, i, raw, pos);
            Scan(specs, strict, args, i, raw, pos) == Scan(specs, strict, args, step.next, step.raw, step.positionals)
  {
  }

  lemma LongOptionShape(name: string)
    requires |name| > 0 && '=' !in name
    ensures var arg := "--" + name;
            arg != "--" && |arg| > 2 && arg[..2] == "--" && SplitInline(arg[2..]) == (name, None)
  {
    var arg := "--" + name;
    assert arg[2..] == name;
    assert |arg| == |name| + 2;
    SplitInlineWithout(name);
  }

  /** `--name` for a declared flag records the flag. */
  lemma LongFlagStep(specs: seq<TokSpec>, strict: bool, args: seq<string>, i: nat,
                     raw: map<string, RawValue>, pos: seq<string>, name: string)
    requires i < |args| && args[i] == "--" + name
    requires |name| > 0 && '=' !in name
    requires FindLong(specs, name).Some? && !FindLong(specs, name).value.takesValue
    ensures StepAt(specs, strict, args, i, raw, pos) == Advance(i + 1, raw[name := Flag], pos)
  {
    LongOptionShape(name);
  }

  /** `--name value` for a declared string-typed option consumes both arguments. */
  lemma LongValueStep(specs: seq<TokSpec>, strict: bool, args: seq<string>, i: nat,
                      raw: map<string, RawValue>, pos: seq<string>, name: string)
    requires i + 1 < |args| && args[i] == "--" + name
    requires |name| > 0 && '=' !in name
    requires FindLong(specs, name).Some? && FindLong(specs, name).value.takesValue
    requires !OptionLike(args[i + 1])
    ensures StepAt(specs, strict, args, i, raw, pos) == Advance(i + 2, raw[name := Text(args[i + 1])], pos)
  {
    LongOptionShape(name);
  }

  /** `--name=value` for a declared string-typed option takes the text after the first `=`. */
  lemma InlineValueStep(specs: seq<TokSpec>, strict: bool, args: seq<string>, i: nat,
                        raw: map<string, RawValue>, pos: seq<string>, name: string, value: string)
    requires i < |args| && args[i] == "--" + name + "=" + value
    requires '=' !in name
    requires FindLong(specs, name).Some? && FindLong(specs, name).value.takesValue
    ensures StepAt(specs, strict, args, i, raw, pos) == Advance(i + 1, raw[name := Text(value)], pos)
  {
    var arg := args[i];
    assert |arg| > 2 && arg[..2] == "--";
    assert arg[2..] == name + "=" + value;
    SplitInlineWith(name, value);
  }

  /** `-x` for a declared flag records the flag under the option's long name. */
  lemma ShortFlagStep(specs: seq<TokSpec>, strict: bool, args: seq<string>, i: nat,
                      raw: map<string, RawValue>, pos: seq<string>, letter: char)
    requires i < |args| && args[i] == ['-', letter] && letter != '-'
    requires FindShort(specs, letter).Some? && !FindShort(specs, letter).value.takesValue
    ensures StepAt(specs, strict, args, i, raw, pos)
         == Advance(i + 1, raw[FindShort(specs, letter).value.name := Flag], pos)
  {
    assert args[i] != "--" by { assert args[i][1] != "--"[1]; }
  }

  /** `-x value` for a declared string-typed option consumes both arguments. */
  lemma ShortValueStep(specs: seq<TokSpec>, strict: bool, args: seq<string>, i: nat,
                       raw: map<string, RawValue>, pos: seq<string>, letter: char)
    requires i + 1 < |args| && args[i] == ['-', letter] && letter != '-'
    requires FindShort(specs, letter).Some? && FindShort(specs, letter).value.takesValue
    requires !OptionLike(args[i + 1])
    ensures StepAt(specs, strict, args, i, raw, pos)
         == Advance(i + 2, raw[FindShort(specs, letter).value.name := Text(args[i + 1])], pos)
  {
    assert args[i] != "--" by { assert args[i][1] != "--"[1]; }
  }

  /** An undeclared `--name` is recorded as a flag when the parser is lenient. */
  lemma LenientUnknownStep(specs: seq<TokSpec>, args: seq<string>, i: nat,
                           raw: map<string, RawValue>, pos: seq<string>, name: string)
    requires i < |args| && args[i] == "--" + name
    requires |name| > 0 && '=' !in name
    requires FindLong(specs, name).None?
    ensures StepAt(specs, false, args, i, raw, pos) == Advance(i + 1, raw[name := Flag], pos)
  {
    LongOptionShape(name);
  }

  /** An undeclared `--name` stops a strict scan. */
  lemma StrictUnknownStep(specs: seq<TokSpec>, args: seq<string>, i: nat,
                          raw: map<string, RawValue>, pos: seq<string>, name: string)
    requires i < |args| && args[i] == "--" + name
    requires |name| > 0 && '=' !in name
    requires FindLong(specs, name).None?
    ensures StepAt(specs, true, args, i, raw, pos) == Stop(Threw(Some("Unknown option '--" + name + "'")))
  {
    LongOptionShape(name);
  }

  /** An argument that does not start with `-` is a positional. */
  lemma PositionalStep(specs: seq<TokSpec>, strict: bool, args: seq<string>, i: nat,
                       raw: map<string, RawValue>, pos: seq<string>)
    requires i < |args| && |args[i]| > 0 && args[i][0] != '-'
    ensures StepAt(specs, strict, args, i, raw, pos) == Advance(i + 1, raw, pos + [args[i]])
  {
    assert args[i] != "--";
    assert |args[i]| < 2 || args[i][..2][0] != '-';
  }

  /** `--name value` for a string-typed option records the value under the option's name. */
  lemma SeparateValueTokens(specs: seq<TokSpec>, strict: bool, name: string, value: string)
    requires |name| > 0 && '=' !in name
    requires FindLong(specs, name).Some? && FindLong(specs, name).value.takesValue
    requires !OptionLike(value)
    ensures Tokenize(["--" + name, value], specs, strict)
         == Tokenized(Tokens(map[name := Text(value)], []))
  {
    var args := ["--" + name, value];
    var raw' := map[name := Text(value)];
    LongValueStep(specs, strict, args, 0, map[], [], name);
    assert Scan(specs, strict, args, 2, raw', []) == Tokenized(Tokens(raw', []));
  }

  /** `--name=value` for a string-typed option records the value under the option's name,
      whatever the value looks like. */
  lemma InlineValueTokens(specs: seq<TokSpec>, strict: bool, name: string, value: string)
    requires '=' !in name
    requires FindLong(specs, name).Some? && FindLong(specs, name).value.takesValue
    ensures Tokenize(["--" + name + "=" + value], specs, strict)
         == Tokenized(Tokens(map[name := Text(value)], []))
  {
    var args := ["--" + name + "=" + value];
    var raw' := map[name := Text(value)];
    InlineValueStep(specs, strict, args, 0, map[], [], name, value);
    assert Scan(specs, strict, args, 1, raw', []) == Tokenized(Tokens(raw', []));
  }

  /** `--name value` and `--name=value` tokenize alike for a string-typed option, as long
      as the value does not look like an option. */
  lemma InlineValueMatchesSeparateValue(specs: seq<TokSpec>, strict: bool, name: string, value: string)
    requires |name| > 0 && '=' !in name
    requires FindLong(specs, name).Some? && FindLong(specs, name).value.takesValue
    requires !OptionLike(value)
    ensures Tokenize(["--" + name, value], specs, strict) == Tokenize(["--" + name + "=" + value], specs, strict)
  {
    SeparateValueTokens(specs, strict, name, value);
    InlineValueTokens(specs, strict, name, value);
  }

  /** A lone `-` after a string-typed option is its value even in strict mode. */
  lemma LoneDashIsValue(specs: seq<TokSpec>, name: string)
    requires |name| > 0 && '=' !in name
    requires FindLong(specs, name).Some? && FindLong(specs, name).value.takesValue
    ensures Tokenize(["--" + name, "-"], specs, true) == Tokenized(Tokens(map[name := Text("-")], []))
  {
    SeparateValueTokens(specs, true, name, "-");
  }
}
