/** The parser's unit tests, each restated as a lemma about `ParseArgs`: the
    parser run with the approximate tokenizer. Every lemma takes the test's
    configuration and argument vector as parameters fixed by its `requires`,
    and its `ensures` is the outcome the test expects. Each test is split into
    the argument vector it tokenizes to (`...Tokens`), the values its options
    resolve to (`...Values`), and the parse that combines the two. */
module CliExamples {
  import opened Results
  import opened Strings
  import opened JsParseInt
  import opened CliParser
  import opened ArgTokenizer

  function Opt(name: string, kind: OptionKind): OptionDecl {
    OptionDecl(name, kind, None, false)
  }

  function Config(options: Schema): ParserConfig {
    ParserConfig(options, None, None)
  }

  const Agents: seq<string> := ["claude-code", "amp", "codex", "cursor", "opencode"]

  // ---------------------------------------------------------------------------
  // Evaluation steps shared by the examples
  // ---------------------------------------------------------------------------

  lemma NoLeadingDash(s: string)
    requires |s| > 0 && s[0] != '-'
    ensures !StartsWith(s, "-") && !OptionLike(s)
  {
    assert s[..1][0] == s[0];
  }

  /** `--name value` against a single string-typed option. */
  lemma LongValueTokens(specs: seq<TokSpec>, args: seq<string>, name: string, value: string)
    requires |specs| == 1 && specs[0].name == name && specs[0].takesValue
    requires args == ["--" + name, value] && |name| > 0 && '=' !in name
    requires |value| > 0 && value[0] != '-'
    ensures Tokenize(args, specs, true) == Tokenized(Tokens(map[name := Text(value)], []))
  {
    assert FindLong(specs, name) == Some(specs[0]);
    NoLeadingDash(value);
    SeparateValueTokens(specs, true, name, value);
  }

  /** `-x value` against a single string-typed option with short alias `x`. */
  lemma ShortValueTokens(specs: seq<TokSpec>, args: seq<string>, letter: char, value: string)
    requires |specs| == 1 && specs[0].short == Some([letter]) && specs[0].takesValue
    requires args == [['-', letter], value] && letter != '-'
    requires |value| > 0 && value[0] != '-'
    ensures Tokenize(args, specs, true) == Tokenized(Tokens(map[specs[0].name := Text(value)], []))
  {
    assert FindShort(specs, letter) == Some(specs[0]);
    NoLeadingDash(value);
    ShortValueStep(specs, true, args, 0, map[], [], letter);
    ScanStep(specs, true, args, 0, map[], []);
  }

  /** A parse whose tokens and resolution are known. */
  lemma ParseSucceedsWith(config: ParserConfig, args: seq<string>, tokens: Tokens, values: map<string, TypedValue>)
    requires DistinctNames(config.options)
    requires Tokenize(args, TokenizerSpecs(config.options), Strict(config)) == Tokenized(tokens)
    requires ResolveAll(config.options, tokens.raw) == Success(values)
    ensures ParseArgs(config, args)
         == ParseSuccess(SplitCommand(tokens.positionals, config.defaultCommand).command, values,
                         SplitCommand(tokens.positionals, config.defaultCommand).rest)
  {
  }

  lemma ParseFailsWith(config: ParserConfig, args: seq<string>, tokens: Tokens, e: string)
    requires DistinctNames(config.options)
    requires Tokenize(args, TokenizerSpecs(config.options), Strict(config)) == Tokenized(tokens)
    requires ResolveAll(config.options, tokens.raw) == Failure(e)
    ensures ParseArgs(config, args) == ParseError(e)
  {
  }

  /** A one-option schema resolves to that option's resolution. */
  lemma SingleOption(d: OptionDecl, raw: map<string, RawValue>)
    ensures Resolve(d, raw).Success? ==> ResolveAll([d], raw) == Success(map[d.name := Resolve(d, raw).value])
    ensures Resolve(d, raw).Failure? ==> ResolveAll([d], raw) == Failure(Resolve(d, raw).error)
  {
    if Resolve(d, raw).Success? {
      var m := ResolveAll([d], raw).value;
      assert m.Keys == {d.name};
    }
  }

  /** A schema whose first option and remaining options resolve. */
  lemma OptionThenRest(schema: Schema, raw: map<string, RawValue>, v: TypedValue, m: map<string, TypedValue>)
    requires DistinctNames(schema) && |schema| > 0
    requires Resolve(schema[0], raw) == Success(v)
    requires ResolveAll(schema[1..], raw) == Success(m)
    ensures ResolveAll(schema, raw) == Success(m[schema[0].name := v])
  {
  }

  /** A four-option schema whose options all resolve. */
  lemma FourOptions(schema: Schema, raw: map<string, RawValue>, v0: TypedValue, v1: TypedValue, v2: TypedValue, v3: TypedValue)
    requires |schema| == 4 && DistinctNames(schema)
    requires Resolve(schema[0], raw) == Success(v0) && Resolve(schema[1], raw) == Success(v1)
    requires Resolve(schema[2], raw) == Success(v2) && Resolve(schema[3], raw) == Success(v3)
    ensures ResolveAll(schema, raw)
         == Success(map[schema[3].name := v3, schema[2].name := v2, schema[1].name := v1, schema[0].name := v0])
  {
    var s1, s2, s3 := schema[1..], schema[2..], schema[3..];
    assert s1[1..] == s2 && s2[1..] == s3 && s3 == [schema[3]];
    SingleOption(schema[3], raw);
    OptionThenRest(s2, raw, v2, map[schema[3].name := v3]);
    OptionThenRest(s1, raw, v1, map[schema[3].name := v3, schema[2].name := v2]);
    OptionThenRest(schema, raw, v0, map[schema[3].name := v3, schema[2].name := v2, schema[1].name := v1]);
  }

  /** The option tables of one-, two- and four-option schemas. */
  lemma SpecsOfOne(d: OptionDecl)
    ensures TokenizerSpecs([d]) == [TokSpecOf(d)]
  {
  }

  lemma SpecsOfTwo(d: OptionDecl, e: OptionDecl)
    ensures TokenizerSpecs([d, e]) == [TokSpecOf(d), TokSpecOf(e)]
  {
  }

  lemma SpecsOfFour(schema: Schema)
    requires |schema| == 4
    ensures TokenizerSpecs(schema) == [TokSpecOf(schema[0]), TokSpecOf(schema[1]), TokSpecOf(schema[2]), TokSpecOf(schema[3])]
  {
  }

  /** An empty argument vector has no raw values and no positionals. */
  lemma NoArguments(specs: seq<TokSpec>, strict: bool, args: seq<string>)
    requires args == []
    ensures Tokenize(args, specs, strict) == Tokenized(Tokens(map[], []))
  {
  }

  lemma ValueOf8080()
    ensures DigitsValue("8080") == 8080
  {
    assert "8080"[..3] == "808" && "808"[..2] == "80" && "80"[..1] == "8" && "8"[..0] == "";
  }

  lemma ParseInt8080()
    ensures ParseInt("8080") == Some(8080)
  {
    ParseIntAccepts("", Unsigned, "8080", "");
    assert "" + "" + "8080" + "" == "8080";
    ValueOf8080();
  }

  lemma ParseInt10()
    ensures ParseInt("10") == Some(10)
  {
    ParseIntAccepts("", Unsigned, "10", "");
    assert "" + "" + "10" + "" == "10";
    assert "10"[..1] == "1" && "1"[..0] == "";
  }

  lemma ParseIntMinus10()
    ensures ParseInt("-10") == Some(-10)
  {
    ParseIntAccepts("", Minus, "10", "");
    assert "" + "-" + "10" + "" == "-10";
    assert "10"[..1] == "1" && "1"[..0] == "";
  }

  lemma ParseIntNotANumber()
    ensures ParseInt("not-a-number") == None
  {
    ParseIntRejects("", Unsigned, "not-a-number");
    assert "" + "" + "not-a-number" == "not-a-number";
  }

  lemma InvalidPortMessage()
    ensures "Invalid number for --" + "port" + ": \"" + "not-a-number" + "\""
         == "Invalid number for --port: \"not-a-number\""
  {
  }

  lemma JoinAgents()
    ensures Join(Agents, ", ")
         == "claude-code" + ", " + "amp" + ", " + "codex" + ", " + "cursor" + ", " + "opencode"
  {
    assert Agents[1..][1..][1..][1..] == ["opencode"];
    assert Agents[1..][1..][1..] == ["cursor", "opencode"];
    assert Agents[1..][1..] == ["codex", "cursor", "opencode"];
    assert Agents[1..] == ["amp", "codex", "cursor", "opencode"];
  }

  // ---------------------------------------------------------------------------
  // Boolean options
  // ---------------------------------------------------------------------------

  lemma BooleanFlagPresentTokens(specs: seq<TokSpec>, args: seq<string>)
    requires specs == [TokSpec("force", false, None)]
    requires args == ["--force"]
    ensures Tokenize(args, specs, true) == Tokenized(Tokens(map["force" := Flag], []))
  {
    assert FindLong(specs, "force") == Some(specs[0]);
    LongFlagStep(specs, true, args, 0, map[], [], "force");
    ScanStep(specs, true, args, 0, map[], []);
  }

  lemma BooleanFlagPresentValues(schema: Schema, raw: map<string, RawValue>)
    requires schema == [Opt("force", BooleanKind)]
    requires raw == map["force" := Flag]
    ensures ResolveAll(schema, raw) == Success(map["force" := BoolValue(true)])
  {
    SingleOption(schema[0], raw);
  }

  lemma BooleanFlagPresent(config: ParserConfig, args: seq<string>)
    requires config == Config([Opt("force", BooleanKind)])
    requires args == ["--force"]
    ensures ParseArgs(config, args) == ParseSuccess(None, map["force" := BoolValue(true)], [])
  {
    SpecsOfOne(config.options[0]);
    BooleanFlagPresentTokens(TokenizerSpecs(config.options), args);
    BooleanFlagPresentValues(config.options, map["force" := Flag]);
    ParseSucceedsWith(config, args, Tokens(map["force" := Flag], []), map["force" := BoolValue(true)]);
  }

  lemma BooleanFlagAbsentValues(schema: Schema, raw: map<string, RawValue>)
    requires schema == [Opt("force", BooleanKind)]
    requires raw == map[]
    ensures ResolveAll(schema, raw) == Success(map["force" := BoolValue(false)])
  {
    SingleOption(schema[0], raw);
  }

  lemma BooleanFlagAbsent(config: ParserConfig, args: seq<string>)
    requires config == Config([Opt("force", BooleanKind)])
    requires args == []
    ensures ParseArgs(config, args) == ParseSuccess(None, map["force" := BoolValue(false)], [])
  {
    NoArguments(TokenizerSpecs(config.options), true, args);
    BooleanFlagAbsentValues(config.options, map[]);
    ParseSucceedsWith(config, args, Tokens(map[], []), map["force" := BoolValue(false)]);
  }

  lemma BooleanShortAliasTokens(specs: seq<TokSpec>, args: seq<string>)
    requires specs == [TokSpec("recursive", false, Some("r"))]
    requires args == ["-r"]
    ensures Tokenize(args, specs, true) == Tokenized(Tokens(map["recursive" := Flag], []))
  {
    assert FindShort(specs, 'r') == Some(specs[0]);
    ShortFlagStep(specs, true, args, 0, map[], [], 'r');
    ScanStep(specs, true, args, 0, map[], []);
  }

  lemma BooleanShortAliasValues(schema: Schema, raw: map<string, RawValue>)
    requires schema == [OptionDecl("recursive", BooleanKind, Some("r"), false)]
    requires raw == map["recursive" := Flag]
    ensures ResolveAll(schema, raw) == Success(map["recursive" := BoolValue(true)])
  {
    SingleOption(schema[0], raw);
  }

  lemma BooleanShortAlias(config: ParserConfig, args: seq<string>)
    requires config == Config([OptionDecl("recursive", BooleanKind, Some("r"), false)])
    requires args == ["-r"]
    ensures ParseArgs(config, args) == ParseSuccess(None, map["recursive" := BoolValue(true)], [])
  {
    SpecsOfOne(config.options[0]);
    BooleanShortAliasTokens(TokenizerSpecs(config.options), args);
    BooleanShortAliasValues(config.options, map["recursive" := Flag]);
    ParseSucceedsWith(config, args, Tokens(map["recursive" := Flag], []), map["recursive" := BoolValue(true)]);
  }

  // ---------------------------------------------------------------------------
  // String options
  // ---------------------------------------------------------------------------

  lemma StringOptionValues(schema: Schema, raw: map<string, RawValue>)
    requires schema == [Opt("domain", StringKind)]
    requires raw == map["domain" := Text("example.com")]
    ensures ResolveAll(schema, raw) == Success(map["domain" := StringValue("example.com")])
  {
    SingleOption(schema[0], raw);
  }

  lemma StringOption(config: ParserConfig, args: seq<string>)
    requires config == Config([Opt("domain", StringKind)])
    requires args == ["--domain", "example.com"]
    ensures ParseArgs(config, args) == ParseSuccess(None, map["domain" := StringValue("example.com")], [])
  {
    SpecsOfOne(config.options[0]);
    assert "--" + "domain" == "--domain";
    LongValueTokens(TokenizerSpecs(config.options), args, "domain", "example.com");
    StringOptionValues(config.options, map["domain" := Text("example.com")]);
    ParseSucceedsWith(config, args, Tokens(map["domain" := Text("example.com")], []), map["domain" := StringValue("example.com")]);
  }

  lemma StringShortAliasValues(schema: Schema, raw: map<string, RawValue>)
    requires schema == [OptionDecl("domain", StringKind, Some("d"), false)]
    requires raw == map["domain" := Text("example.com")]
    ensures ResolveAll(schema, raw) == Success(map["domain" := StringValue("example.com")])
  {
    SingleOption(schema[0], raw);
  }

  lemma StringShortAlias(config: ParserConfig, args: seq<string>)
    requires config == Config([OptionDecl("domain", StringKind, Some("d"), false)])
    requires args == ["-d", "example.com"]
    ensures ParseArgs(config, args) == ParseSuccess(None, map["domain" := StringValue("example.com")], [])
  {
    SpecsOfOne(config.options[0]);
    ShortValueTokens(TokenizerSpecs(config.options), args, 'd', "example.com");
    StringShortAliasValues(config.options, map["domain" := Text("example.com")]);
    ParseSucceedsWith(config, args, Tokens(map["domain" := Text("example.com")], []), map["domain" := StringValue("example.com")]);
  }

  lemma AbsentOptionalStringValues(schema: Schema, raw: map<string, RawValue>)
    requires schema == [Opt("domain", StringKind)]
    requires raw == map[]
    ensures ResolveAll(schema, raw) == Success(map["domain" := Undefined])
  {
    SingleOption(schema[0], raw);
  }

  lemma AbsentOptionalString(config: ParserConfig, args: seq<string>)
    requires config == Config([Opt("domain", StringKind)])
    requires args == []
    ensures ParseArgs(config, args) == ParseSuccess(None, map["domain" := Undefined], [])
  {
    NoArguments(TokenizerSpecs(config.options), true, args);
    AbsentOptionalStringValues(config.options, map[]);
    ParseSucceedsWith(config, args, Tokens(map[], []), map["domain" := Undefined]);
  }

  lemma MissingRequiredStringValues(schema: Schema, raw: map<string, RawValue>)
    requires schema == [OptionDecl("domain", StringKind, None, true)]
    requires raw == map[]
    ensures ResolveAll(schema, raw) == Failure("Missing required option: --domain")
  {
    SingleOption(schema[0], raw);
  }

  lemma MissingRequiredString(config: ParserConfig, args: seq<string>)
    requires config == Config([OptionDecl("domain", StringKind, None, true)])
    requires args == []
    ensures ParseArgs(config, args) == ParseError("Missing required option: --domain")
  {
    NoArguments(TokenizerSpecs(config.options), true, args);
    MissingRequiredStringValues(config.options, map[]);
    ParseFailsWith(config, args, Tokens(map[], []), "Missing required option: --domain");
  }

  lemma StringInlineValueTokens(specs: seq<TokSpec>, args: seq<string>)
    requires specs == [TokSpec("domain", true, None)]
    requires args == ["--domain=example.com"]
    ensures Tokenize(args, specs, true) == Tokenized(Tokens(map["domain" := Text("example.com")], []))
  {
    assert FindLong(specs, "domain") == Some(specs[0]);
    assert args[0] == "--" + "domain" + "=" + "example.com";
    InlineValueStep(specs, true, args, 0, map[], [], "domain", "example.com");
    ScanStep(specs, true, args, 0, map[], []);
  }

  lemma StringInlineValueValues(schema: Schema, raw: map<string, RawValue>)
    requires schema == [Opt("domain", StringKind)]
    requires raw == map["domain" := Text("example.com")]
    ensures ResolveAll(schema, raw) == Success(map["domain" := StringValue("example.com")])
  {
    SingleOption(schema[0], raw);
  }

  lemma StringInlineValue(config: ParserConfig, args: seq<string>)
    requires config == Config([Opt("domain", StringKind)])
    requires args == ["--domain=example.com"]
    ensures ParseArgs(config, args) == ParseSuccess(None, map["domain" := StringValue("example.com")], [])
  {
    SpecsOfOne(config.options[0]);
    StringInlineValueTokens(TokenizerSpecs(config.options), args);
    StringInlineValueValues(config.options, map["domain" := Text("example.com")]);
    ParseSucceedsWith(config, args, Tokens(map["domain" := Text("example.com")], []), map["domain" := StringValue("example.com")]);
  }

  // ---------------------------------------------------------------------------
  // Number options
  // ---------------------------------------------------------------------------

  lemma NumberOptionValues(schema: Schema, raw: map<string, RawValue>)
    requires schema == [Opt("port", NumberKind)]
    requires raw == map["port" := Text("8080")]
    ensures ResolveAll(schema, raw) == Success(map["port" := NumberValue(8080)])
  {
    ParseInt8080();
    SingleOption(schema[0], raw);
  }

  lemma NumberOption(config: ParserConfig, args: seq<string>)
    requires config == Config([Opt("port", NumberKind)])
    requires args == ["--port", "8080"]
    ensures ParseArgs(config, args) == ParseSuccess(None, map["port" := NumberValue(8080)], [])
  {
    SpecsOfOne(config.options[0]);
    assert "--" + "port" == "--port";
    LongValueTokens(TokenizerSpecs(config.options), args, "port", "8080");
    NumberOptionValues(config.options, map["port" := Text("8080")]);
    ParseSucceedsWith(config, args, Tokens(map["port" := Text("8080")], []), map["port" := NumberValue(8080)]);
  }

  lemma NumberShortAliasValues(schema: Schema, raw: map<string, RawValue>)
    requires schema == [OptionDecl("limit", NumberKind, Some("l"), false)]
    requires raw == map["limit" := Text("10")]
    ensures ResolveAll(schema, raw) == Success(map["limit" := NumberValue(10)])
  {
    ParseInt10();
    SingleOption(schema[0], raw);
  }

  lemma NumberShortAlias(config: ParserConfig, args: seq<string>)
    requires config == Config([OptionDecl("limit", NumberKind, Some("l"), false)])
    requires args == ["-l", "10"]
    ensures ParseArgs(config, args) == ParseSuccess(None, map["limit" := NumberValue(10)], [])
  {
    SpecsOfOne(config.options[0]);
    ShortValueTokens(TokenizerSpecs(config.options), args, 'l', "10");
    NumberShortAliasValues(config.options, map["limit" := Text("10")]);
    ParseSucceedsWith(config, args, Tokens(map["limit" := Text("10")], []), map["limit" := NumberValue(10)]);
  }

  lemma AbsentOptionalNumberValues(schema: Schema, raw: map<string, RawValue>)
    requires schema == [Opt("port", NumberKind)]
    requires raw == map[]
    ensures ResolveAll(schema, raw) == Success(map["port" := Undefined])
  {
    SingleOption(schema[0], raw);
  }

  lemma AbsentOptionalNumber(config: ParserConfig, args: seq<string>)
    requires config == Config([Opt("port", NumberKind)])
    requires args == []
    ensures ParseArgs(config, args) == ParseSuccess(None, map["port" := Undefined], [])
  {
    NoArguments(TokenizerSpecs(config.options), true, args);
    AbsentOptionalNumberValues(config.options, map[]);
    ParseSucceedsWith(config, args, Tokens(map[], []), map["port" := Undefined]);
  }

  lemma InvalidNumberValues(schema: Schema, raw: map<string, RawValue>)
    requires schema == [Opt("port", NumberKind)]
    requires raw == map["port" := Text("not-a-number")]
    ensures ResolveAll(schema, raw) == Failure("Invalid number for --port: \"not-a-number\"")
  {
    ParseIntNotANumber();
    InvalidPortMessage();
    SingleOption(schema[0], raw);
  }

  lemma InvalidNumber(config: ParserConfig, args: seq<string>)
    requires config == Config([Opt("port", NumberKind)])
    requires args == ["--port", "not-a-number"]
    ensures ParseArgs(config, args) == ParseError("Invalid number for --port: \"not-a-number\"")
  {
    SpecsOfOne(config.options[0]);
    assert "--" + "port" == "--port";
    LongValueTokens(TokenizerSpecs(config.options), args, "port", "not-a-number");
    InvalidNumberValues(config.options, map["port" := Text("not-a-number")]);
    ParseFailsWith(config, args, Tokens(map["port" := Text("not-a-number")], []), "Invalid number for --port: \"not-a-number\"");
  }

  lemma MissingRequiredNumberValues(schema: Schema, raw: map<string, RawValue>)
    requires schema == [OptionDecl("port", NumberKind, None, true)]
    requires raw == map[]
    ensures ResolveAll(schema, raw) == Failure("Missing required option: --port")
  {
    SingleOption(schema[0], raw);
  }

  lemma MissingRequiredNumber(config: ParserConfig, args: seq<string>)
    requires config == Config([OptionDecl("port", NumberKind, None, true)])
    requires args == []
    ensures ParseArgs(config, args) == ParseError("Missing required option: --port")
  {
    NoArguments(TokenizerSpecs(config.options), true, args);
    MissingRequiredNumberValues(config.options, map[]);
    ParseFailsWith(config, args, Tokens(map[], []), "Missing required option: --port");
  }

  // ---------------------------------------------------------------------------
  // Enum options
  // ---------------------------------------------------------------------------

  lemma ValidEnumValues(schema: Schema, raw: map<string, RawValue>)
    requires schema == [Opt("agent", EnumKind(Agents))]
    requires raw == map["agent" := Text("claude-code")]
    ensures ResolveAll(schema, raw) == Success(map["agent" := StringValue("claude-code")])
  {
    assert "claude-code" == Agents[0];
    SingleOption(schema[0], raw);
  }

  lemma ValidEnum(config: ParserConfig, args: seq<string>)
    requires config == Config([Opt("agent", EnumKind(Agents))])
    requires args == ["--agent", "claude-code"]
    ensures ParseArgs(config, args) == ParseSuccess(None, map["agent" := StringValue("claude-code")], [])
  {
    SpecsOfOne(config.options[0]);
    assert "--" + "agent" == "--agent";
    LongValueTokens(TokenizerSpecs(config.options), args, "agent", "claude-code");
    ValidEnumValues(config.options, map["agent" := Text("claude-code")]);
    ParseSucceedsWith(config, args, Tokens(map["agent" := Text("claude-code")], []), map["agent" := StringValue("claude-code")]);
  }

  lemma InvalidEnumValues(schema: Schema, raw: map<string, RawValue>)
    requires schema == [Opt("agent", EnumKind(Agents))]
    requires raw == map["agent" := Text("invalid-agent")]
    ensures ResolveAll(schema, raw) == Failure("Invalid value for --" + "agent" + ": \"" + "invalid-agent" + "\". Valid values: "
             + ("claude-code" + ", " + "amp" + ", " + "codex" + ", " + "cursor" + ", " + "opencode"))
  {
    JoinAgents();
    assert "invalid-agent" !in Agents;
    SingleOption(schema[0], raw);
  }

  /** The expected message `Invalid value for --agent: "invalid-agent". Valid values: claude-code, amp, codex, cursor, opencode`, written as the pieces it is assembled from. */
  lemma InvalidEnum(config: ParserConfig, args: seq<string>)
    requires config == Config([Opt("agent", EnumKind(Agents))])
    requires args == ["--agent", "invalid-agent"]
    ensures ParseArgs(config, args) == ParseError("Invalid value for --" + "agent" + ": \"" + "invalid-agent" + "\". Valid values: "
             + ("claude-code" + ", " + "amp" + ", " + "codex" + ", " + "cursor" + ", " + "opencode"))
  {
    SpecsOfOne(config.options[0]);
    assert "--" + "agent" == "--agent";
    LongValueTokens(TokenizerSpecs(config.options), args, "agent", "invalid-agent");
    InvalidEnumValues(config.options, map["agent" := Text("invalid-agent")]);
    ParseFailsWith(config, args, Tokens(map["agent" := Text("invalid-agent")], []), "Invalid value for --" + "agent" + ": \"" + "invalid-agent" + "\". Valid values: "
             + ("claude-code" + ", " + "amp" + ", " + "codex" + ", " + "cursor" + ", " + "opencode"));
  }

  lemma AbsentOptionalEnumValues(schema: Schema, raw: map<string, RawValue>)
    requires schema == [Opt("agent", EnumKind(Agents))]
    requires raw == map[]
    ensures ResolveAll(schema, raw) == Success(map["agent" := Undefined])
  {
    SingleOption(schema[0], raw);
  }

  lemma AbsentOptionalEnum(config: ParserConfig, args: seq<string>)
    requires config == Config([Opt("agent", EnumKind(Agents))])
    requires args == []
    ensures ParseArgs(config, args) == ParseSuccess(None, map["agent" := Undefined], [])
  {
    NoArguments(TokenizerSpecs(config.options), true, args);
    AbsentOptionalEnumValues(config.options, map[]);
    ParseSucceedsWith(config, args, Tokens(map[], []), map["agent" := Undefined]);
  }

  lemma MissingRequiredEnumValues(schema: Schema, raw: map<string, RawValue>)
    requires schema == [OptionDecl("agent", EnumKind(Agents), None, true)]
    requires raw == map[]
    ensures ResolveAll(schema, raw) == Failure("Missing required option: --agent")
  {
    SingleOption(schema[0], raw);
  }

  lemma MissingRequiredEnum(config: ParserConfig, args: seq<string>)
    requires config == Config([OptionDecl("agent", EnumKind(Agents), None, true)])
    requires args == []
    ensures ParseArgs(config, args) == ParseError("Missing required option: --agent")
  {
    NoArguments(TokenizerSpecs(config.options), true, args);
    MissingRequiredEnumValues(config.options, map[]);
    ParseFailsWith(config, args, Tokens(map[], []), "Missing required option: --agent");
  }

  lemma EnumShortAliasTokens(specs: seq<TokSpec>, args: seq<string>)
    requires specs == [TokSpec("agent", true, Some("a"))]
    requires args == ["-a", "amp"]
    ensures Tokenize(args, specs, true) == Tokenized(Tokens(map["agent" := Text("amp")], []))
  {
    assert FindShort(specs, 'a') == Some(specs[0]);
    NoLeadingDash("amp");
    ShortValueStep(specs, true, args, 0, map[], [], 'a');
    ScanStep(specs, true, args, 0, map[], []);
  }

  lemma EnumShortAliasValues(schema: Schema, raw: map<string, RawValue>)
    requires schema == [OptionDecl("agent", EnumKind(Agents), Some("a"), false)]
    requires raw == map["agent" := Text("amp")]
    ensures ResolveAll(schema, raw) == Success(map["agent" := StringValue("amp")])
  {
    assert "amp" == Agents[1];
    SingleOption(schema[0], raw);
  }

  lemma EnumShortAlias(config: ParserConfig, args: seq<string>)
    requires config == Config([OptionDecl("agent", EnumKind(Agents), Some("a"), false)])
    requires args == ["-a", "amp"]
    ensures ParseArgs(config, args) == ParseSuccess(None, map["agent" := StringValue("amp")], [])
  {
    SpecsOfOne(config.options[0]);
    EnumShortAliasTokens(TokenizerSpecs(config.options), args);
    EnumShortAliasValues(config.options, map["agent" := Text("amp")]);
    ParseSucceedsWith(config, args, Tokens(map["agent" := Text("amp")], []), map["agent" := StringValue("amp")]);
  }

  // ---------------------------------------------------------------------------
  // Commands
  // ---------------------------------------------------------------------------

  lemma CommandFromFirstPositionalStep0(specs: seq<TokSpec>, args: seq<string>)
    requires specs == [TokSpec("force", false, None)]
    requires args == ["sync", "--force"]
    ensures StepAt(specs, true, args, 0, map[], []) == Advance(1, map[], ["sync"])
  {
    assert args[0][0] == 's';
    PositionalStep(specs, true, args, 0, map[], []);
  }

  lemma CommandFromFirstPositionalStep1(specs: seq<TokSpec>, args: seq<string>)
    requires specs == [TokSpec("force", false, None)]
    requires args == ["sync", "--force"]
    ensures StepAt(specs, true, args, 1, map[], ["sync"]) == Advance(2, map["force" := Flag], ["sync"])
  {
    assert FindLong(specs, "force") == Some(specs[0]);
    LongFlagStep(specs, true, args, 1, map[], ["sync"], "force");
  }

  lemma CommandFromFirstPositionalTokens(specs: seq<TokSpec>, args: seq<string>)
    requires specs == [TokSpec("force", false, None)]
    requires args == ["sync", "--force"]
    ensures Tokenize(args, specs, true) == Tokenized(Tokens(map["force" := Flag], ["sync"]))
  {
    CommandFromFirstPositionalStep0(specs, args);
    ScanStep(specs, true, args, 0, map[], []);
    CommandFromFirstPositionalStep1(specs, args);
    ScanStep(specs, true, args, 1, map[], ["sync"]);
  }

  lemma CommandFromFirstPositionalValues(schema: Schema, raw: map<string, RawValue>)
    requires schema == [Opt("force", BooleanKind)]
    requires raw == map["force" := Flag]
    ensures ResolveAll(schema, raw) == Success(map["force" := BoolValue(true)])
  {
    SingleOption(schema[0], raw);
  }

  lemma CommandFromFirstPositional(config: ParserConfig, args: seq<string>)
    requires config == Config([Opt("force", BooleanKind)])
    requires args == ["sync", "--force"]
    ensures ParseArgs(config, args) == ParseSuccess(Some("sync"), map["force" := BoolValue(true)], [])
  {
    SpecsOfOne(config.options[0]);
    CommandFromFirstPositionalTokens(TokenizerSpecs(config.options), args);
    CommandFromFirstPositionalValues(config.options, map["force" := Flag]);
    NoLeadingDash("sync");
    ParseSucceedsWith(config, args, Tokens(map["force" := Flag], ["sync"]), map["force" := BoolValue(true)]);
  }

  lemma DefaultCommandWhenNoneGiven(config: ParserConfig, args: seq<string>)
    requires config == ParserConfig([Opt("force", BooleanKind)], Some("log"), None)
    requires args == ["--force"]
    ensures ParseArgs(config, args) == ParseSuccess(Some("log"), map["force" := BoolValue(true)], [])
  {
    SpecsOfOne(config.options[0]);
    BooleanFlagPresentTokens(TokenizerSpecs(config.options), args);
    BooleanFlagPresentValues(config.options, map["force" := Flag]);
    ParseSucceedsWith(config, args, Tokens(map["force" := Flag], []), map["force" := BoolValue(true)]);
  }

  lemma NoCommandWithoutDefault(config: ParserConfig, args: seq<string>)
    requires config == Config([Opt("force", BooleanKind)])
    requires args == ["--force"]
    ensures ParseArgs(config, args).ParseSuccess? && ParseArgs(config, args).command == None
  {
    BooleanFlagPresent(config, args);
  }

  lemma CommandExcludedFromPositionalsStep0(specs: seq<TokSpec>, args: seq<string>)
    requires specs == []
    requires args == ["sync", "extra", "args"]
    ensures StepAt(specs, true, args, 0, map[], []) == Advance(1, map[], ["sync"])
  {
    assert args[0][0] == 's';
    PositionalStep(specs, true, args, 0, map[], []);
  }

  lemma CommandExcludedFromPositionalsStep1(specs: seq<TokSpec>, args: seq<string>)
    requires specs == []
    requires args == ["sync", "extra", "args"]
    ensures StepAt(specs, true, args, 1, map[], ["sync"]) == Advance(2, map[], ["sync", "extra"])
  {
    assert args[1][0] == 'e';
    PositionalStep(specs, true, args, 1, map[], ["sync"]);
  }

  lemma CommandExcludedFromPositionalsStep2(specs: seq<TokSpec>, args: seq<string>)
    requires specs == []
    requires args == ["sync", "extra", "args"]
    ensures StepAt(specs, true, args, 2, map[], ["sync", "extra"]) == Advance(3, map[], ["sync", "extra", "args"])
  {
    assert args[2][0] == 'a';
    PositionalStep(specs, true, args, 2, map[], ["sync", "extra"]);
  }

  lemma CommandExcludedFromPositionalsTokens(specs: seq<TokSpec>, args: seq<string>)
    requires specs == []
    requires args == ["sync", "extra", "args"]
    ensures Tokenize(args, specs, true) == Tokenized(Tokens(map[], ["sync", "extra", "args"]))
  {
    CommandExcludedFromPositionalsStep0(specs, args);
    ScanStep(specs, true, args, 0, map[], []);
    CommandExcludedFromPositionalsStep1(specs, args);
    ScanStep(specs, true, args, 1, map[], ["sync"]);
    CommandExcludedFromPositionalsStep2(specs, args);
    ScanStep(specs, true, args, 2, map[], ["sync", "extra"]);
  }

  lemma CommandExcludedFromPositionals(config: ParserConfig, args: seq<string>)
    requires config == Config([])
    requires args == ["sync", "extra", "args"]
    ensures ParseArgs(config, args) == ParseSuccess(Some("sync"), map[], ["extra", "args"])
  {
    CommandExcludedFromPositionalsTokens(TokenizerSpecs(config.options), args);
    NoLeadingDash("sync");
    assert args[1..] == ["extra", "args"];
    assert ResolveAll(config.options, map[]) == Success(map[]);
    ParseSucceedsWith(config, args, Tokens(map[], ["sync", "extra", "args"]), map[]);
  }

  lemma OnlyCommandTokens(specs: seq<TokSpec>, args: seq<string>)
    requires specs == []
    requires args == ["sync"]
    ensures Tokenize(args, specs, true) == Tokenized(Tokens(map[], args))
  {
    assert args[0][0] == 's';
    PositionalStep(specs, true, args, 0, map[], []);
    ScanStep(specs, true, args, 0, map[], []);
  }

  lemma OnlyCommand(config: ParserConfig, args: seq<string>)
    requires config == Config([])
    requires args == ["sync"]
    ensures ParseArgs(config, args) == ParseSuccess(Some("sync"), map[], [])
  {
    OnlyCommandTokens(TokenizerSpecs(config.options), args);
    NoLeadingDash("sync");
    assert ResolveAll(config.options, map[]) == Success(map[]);
    ParseSucceedsWith(config, args, Tokens(map[], args), map[]);
  }

  lemma EmptyArguments(config: ParserConfig, args: seq<string>)
    requires config == Config([Opt("force", BooleanKind)])
    requires args == []
    ensures ParseArgs(config, args) == ParseSuccess(None, map["force" := BoolValue(false)], [])
  {
    BooleanFlagAbsent(config, args);
  }

  // ---------------------------------------------------------------------------
  // Strictness
  // ---------------------------------------------------------------------------

  /** The test only asks that the message mention the option; this tokenizer's own
      message names it in full. */
  lemma UnknownOptionFailsWhenStrictTokens(specs: seq<TokSpec>, args: seq<string>)
    requires specs == [TokSpec("force", false, None)]
    requires args == ["--unknown"]
    ensures Tokenize(args, specs, true) == Threw(Some("Unknown option '--" + "unknown" + "'"))
  {
    assert FindLong(specs, "unknown") == None;
    StrictUnknownStep(specs, args, 0, map[], [], "unknown");
  }

  lemma UnknownOptionFailsWhenStrict(config: ParserConfig, args: seq<string>)
    requires config == Config([Opt("force", BooleanKind)])
    requires args == ["--unknown"]
    ensures ParseArgs(config, args) == ParseError("Unknown option '--" + "unknown" + "'")
  {
    SpecsOfOne(config.options[0]);
    UnknownOptionFailsWhenStrictTokens(TokenizerSpecs(config.options), args);
  }

  lemma UnknownOptionIgnoredWhenLenientStep0(specs: seq<TokSpec>, args: seq<string>)
    requires specs == [TokSpec("force", false, None)]
    requires args == ["--force", "--unknown"]
    ensures StepAt(specs, false, args, 0, map[], []) == Advance(1, map["force" := Flag], [])
  {
    assert FindLong(specs, "force") == Some(specs[0]);
    LongFlagStep(specs, false, args, 0, map[], [], "force");
  }

  lemma UnknownOptionIgnoredWhenLenientStep1(specs: seq<TokSpec>, args: seq<string>)
    requires specs == [TokSpec("force", false, None)]
    requires args == ["--force", "--unknown"]
    ensures StepAt(specs, false, args, 1, map["force" := Flag], []) == Advance(2, map["force" := Flag, "unknown" := Flag], [])
  {
    assert FindLong(specs, "unknown") == None;
    LenientUnknownStep(specs, args, 1, map["force" := Flag], [], "unknown");
  }

  lemma UnknownOptionIgnoredWhenLenientTokens(specs: seq<TokSpec>, args: seq<string>)
    requires specs == [TokSpec("force", false, None)]
    requires args == ["--force", "--unknown"]
    ensures Tokenize(args, specs, false) == Tokenized(Tokens(map["force" := Flag, "unknown" := Flag], []))
  {
    UnknownOptionIgnoredWhenLenientStep0(specs, args);
    ScanStep(specs, false, args, 0, map[], []);
    UnknownOptionIgnoredWhenLenientStep1(specs, args);
    ScanStep(specs, false, args, 1, map["force" := Flag], []);
  }

  lemma UnknownOptionIgnoredWhenLenient(config: ParserConfig, args: seq<string>)
    requires config == ParserConfig([Opt("force", BooleanKind)], None, Some(false))
    requires args == ["--force", "--unknown"]
    ensures ParseArgs(config, args) == ParseSuccess(None, map["force" := BoolValue(true)], [])
  {
    var raw := map["force" := Flag, "unknown" := Flag];
    SpecsOfOne(config.options[0]);
    UnknownOptionIgnoredWhenLenientTokens(TokenizerSpecs(config.options), args);
    SingleOption(config.options[0], raw);
    ParseSucceedsWith(config, args, Tokens(raw, []), map["force" := BoolValue(true)]);
  }

  // ---------------------------------------------------------------------------
  // Combined options
  // ---------------------------------------------------------------------------

  lemma OptionsAroundCommandStep0(specs: seq<TokSpec>, args: seq<string>)
    requires specs == [TokSpec("force", false, None), TokSpec("limit", true, None)]
    requires args == ["--force", "list", "--limit", "10"]
    ensures StepAt(specs, true, args, 0, map[], []) == Advance(1, map["force" := Flag], [])
  {
    assert FindLong(specs, "force") == Some(specs[0]);
    LongFlagStep(specs, true, args, 0, map[], [], "force");
  }

  lemma OptionsAroundCommandStep1(specs: seq<TokSpec>, args: seq<string>)
    requires specs == [TokSpec("force", false, None), TokSpec("limit", true, None)]
    requires args == ["--force", "list", "--limit", "10"]
    ensures StepAt(specs, true, args, 1, map["force" := Flag], []) == Advance(2, map["force" := Flag], ["list"])
  {
    assert args[1][0] == 'l';
    PositionalStep(specs, true, args, 1, map["force" := Flag], []);
  }

  lemma OptionsAroundCommandStep2(specs: seq<TokSpec>, args: seq<string>)
    requires specs == [TokSpec("force", false, None), TokSpec("limit", true, None)]
    requires args == ["--force", "list", "--limit", "10"]
    ensures StepAt(specs, true, args, 2, map["force" := Flag], ["list"]) == Advance(4, map["force" := Flag, "limit" := Text("10")], ["list"])
  {
    assert FindLong(specs, "limit") == Some(specs[1]);
    NoLeadingDash("10");
    LongValueStep(specs, true, args, 2, map["force" := Flag], ["list"], "limit");
  }

  lemma OptionsAroundCommandTokens(specs: seq<TokSpec>, args: seq<string>)
    requires specs == [TokSpec("force", false, None), TokSpec("limit", true, None)]
    requires args == ["--force", "list", "--limit", "10"]
    ensures Tokenize(args, specs, true) == Tokenized(Tokens(map["force" := Flag, "limit" := Text("10")], ["list"]))
  {
    OptionsAroundCommandStep0(specs, args);
    ScanStep(specs, true, args, 0, map[], []);
    OptionsAroundCommandStep1(specs, args);
    ScanStep(specs, true, args, 1, map["force" := Flag], []);
    OptionsAroundCommandStep2(specs, args);
    ScanStep(specs, true, args, 2, map["force" := Flag], ["list"]);
  }

  lemma OptionsAroundCommandValues(schema: Schema, raw: map<string, RawValue>)
    requires schema == [Opt("force", BooleanKind), Opt("limit", NumberKind)]
    requires raw == map["force" := Flag, "limit" := Text("10")]
    ensures ResolveAll(schema, raw) == Success(map["limit" := NumberValue(10), "force" := BoolValue(true)])
  {
    ParseInt10();
    SingleOption(schema[1], raw);
    assert schema[1..] == [schema[1]];
    OptionThenRest(schema, raw, BoolValue(true), map["limit" := NumberValue(10)]);
  }

  lemma OptionsAroundCommand(config: ParserConfig, args: seq<string>)
    requires config == Config([Opt("force", BooleanKind), Opt("limit", NumberKind)])
    requires args == ["--force", "list", "--limit", "10"]
    ensures ParseArgs(config, args) == ParseSuccess(Some("list"), map["limit" := NumberValue(10), "force" := BoolValue(true)], [])
  {
    SpecsOfTwo(config.options[0], config.options[1]);
    OptionsAroundCommandTokens(TokenizerSpecs(config.options), args);
    OptionsAroundCommandValues(config.options, map["force" := Flag, "limit" := Text("10")]);
    NoLeadingDash("list");
    ParseSucceedsWith(config, args, Tokens(map["force" := Flag, "limit" := Text("10")], ["list"]), map["limit" := NumberValue(10), "force" := BoolValue(true)]);
  }

  lemma MultipleOptionTypesStep0(specs: seq<TokSpec>, args: seq<string>)
    requires specs == [TokSpec("domain", true, Some("d")), TokSpec("port", true, None),
                     TokSpec("force", false, Some("f")), TokSpec("agent", true, None)]
    requires args == ["capture", "-d", "example.com", "--port", "8080", "-f", "--agent", "b"]
    ensures StepAt(specs, true, args, 0, map[], []) == Advance(1, map[], ["capture"])
  {
    assert args[0][0] == 'c';
    PositionalStep(specs, true, args, 0, map[], []);
  }

  lemma MultipleOptionTypesStep1(specs: seq<TokSpec>, args: seq<string>)
    requires specs == [TokSpec("domain", true, Some("d")), TokSpec("port", true, None),
                     TokSpec("force", false, Some("f")), TokSpec("agent", true, None)]
    requires args == ["capture", "-d", "example.com", "--port", "8080", "-f", "--agent", "b"]
    ensures StepAt(specs, true, args, 1, map[], ["capture"]) == Advance(3, map["domain" := Text("example.com")], ["capture"])
  {
    assert FindShort(specs, 'd') == Some(specs[0]);
    NoLeadingDash("example.com");
    ShortValueStep(specs, true, args, 1, map[], ["capture"], 'd');
  }

  lemma MultipleOptionTypesStep3(specs: seq<TokSpec>, args: seq<string>)
    requires specs == [TokSpec("domain", true, Some("d")), TokSpec("port", true, None),
                     TokSpec("force", false, Some("f")), TokSpec("agent", true, None)]
    requires args == ["capture", "-d", "example.com", "--port", "8080", "-f", "--agent", "b"]
    ensures StepAt(specs, true, args, 3, map["domain" := Text("example.com")], ["capture"]) == Advance(5, map["domain" := Text("example.com"), "port" := Text("8080")], ["capture"])
  {
    assert FindLong(specs, "port") == Some(specs[1]);
    NoLeadingDash("8080");
    LongValueStep(specs, true, args, 3, map["domain" := Text("example.com")], ["capture"], "port");
  }

  lemma MultipleOptionTypesStep5(specs: seq<TokSpec>, args: seq<string>)
    requires specs == [TokSpec("domain", true, Some("d")), TokSpec("port", true, None),
                     TokSpec("force", false, Some("f")), TokSpec("agent", true, None)]
    requires args == ["capture", "-d", "example.com", "--port", "8080", "-f", "--agent", "b"]
    ensures StepAt(specs, true, args, 5, map["domain" := Text("example.com"), "port" := Text("8080")], ["capture"]) == Advance(6, map["domain" := Text("example.com"), "port" := Text("8080"), "force" := Flag], ["capture"])
  {
    assert FindShort(specs, 'f') == Some(specs[2]);
    ShortFlagStep(specs, true, args, 5, map["domain" := Text("example.com"), "port" := Text("8080")], ["capture"], 'f');
  }

  lemma MultipleOptionTypesStep6(specs: seq<TokSpec>, args: seq<string>)
    requires specs == [TokSpec("domain", true, Some("d")), TokSpec("port", true, None),
                     TokSpec("force", false, Some("f")), TokSpec("agent", true, None)]
    requires args == ["capture", "-d", "example.com", "--port", "8080", "-f", "--agent", "b"]
    ensures StepAt(specs, true, args, 6, map["domain" := Text("example.com"), "port" := Text("8080"), "force" := Flag], ["capture"]) == Advance(8, map["domain" := Text("example.com"), "port" := Text("8080"), "force" := Flag, "agent" := Text("b")], ["capture"])
  {
    assert FindLong(specs, "agent") == Some(specs[3]);
    NoLeadingDash("b");
    LongValueStep(specs, true, args, 6, map["domain" := Text("example.com"), "port" := Text("8080"), "force" := Flag], ["capture"], "agent");
  }

  lemma MultipleOptionTypesTokens(specs: seq<TokSpec>, args: seq<string>)
    requires specs == [TokSpec("domain", true, Some("d")), TokSpec("port", true, None),
                     TokSpec("force", false, Some("f")), TokSpec("agent", true, None)]
    requires args == ["capture", "-d", "example.com", "--port", "8080", "-f", "--agent", "b"]
    ensures Tokenize(args, specs, true) == Tokenized(Tokens(map["domain" := Text("example.com"), "port" := Text("8080"), "force" := Flag, "agent" := Text("b")], ["capture"]))
  {
    MultipleOptionTypesStep0(specs, args);
    ScanStep(specs, true, args, 0, map[], []);
    MultipleOptionTypesStep1(specs, args);
    ScanStep(specs, true, args, 1, map[], ["capture"]);
    MultipleOptionTypesStep3(specs, args);
    ScanStep(specs, true, args, 3, map["domain" := Text("example.com")], ["capture"]);
    MultipleOptionTypesStep5(specs, args);
    ScanStep(specs, true, args, 5, map["domain" := Text("example.com"), "port" := Text("8080")], ["capture"]);
    MultipleOptionTypesStep6(specs, args);
    ScanStep(specs, true, args, 6, map["domain" := Text("example.com"), "port" := Text("8080"), "force" := Flag], ["capture"]);
  }

  lemma MultipleOptionTypesSchema(schema: Schema)
    requires schema == [OptionDecl("domain", StringKind, Some("d"), true), Opt("port", NumberKind),
                      OptionDecl("force", BooleanKind, Some("f"), false), Opt("agent", EnumKind(["a", "b", "c"]))]
    ensures DistinctNames(schema)
    ensures TokenizerSpecs(schema) == [TokSpec("domain", true, Some("d")), TokSpec("port", true, None),
                     TokSpec("force", false, Some("f")), TokSpec("agent", true, None)]
  {
    SpecsOfFour(schema);
  }

  lemma MultipleOptionTypesResolve(schema: Schema, raw: map<string, RawValue>)
    requires schema == [OptionDecl("domain", StringKind, Some("d"), true), Opt("port", NumberKind),
                      OptionDecl("force", BooleanKind, Some("f"), false), Opt("agent", EnumKind(["a", "b", "c"]))]
    requires raw == map["domain" := Text("example.com"), "port" := Text("8080"), "force" := Flag, "agent" := Text("b")]
    ensures Resolve(schema[0], raw) == Success(StringValue("example.com"))
    ensures Resolve(schema[1], raw) == Success(NumberValue(8080))
    ensures Resolve(schema[2], raw) == Success(BoolValue(true))
    ensures Resolve(schema[3], raw) == Success(StringValue("b"))
  {
    ParseInt8080();
    assert "b" == ["a", "b", "c"][1];
  }

  lemma MultipleOptionTypesValues(schema: Schema, raw: map<string, RawValue>)
    requires schema == [OptionDecl("domain", StringKind, Some("d"), true), Opt("port", NumberKind),
                      OptionDecl("force", BooleanKind, Some("f"), false), Opt("agent", EnumKind(["a", "b", "c"]))]
    requires raw == map["domain" := Text("example.com"), "port" := Text("8080"), "force" := Flag, "agent" := Text("b")]
    ensures ResolveAll(schema, raw) == Success(map["agent" := StringValue("b"), "force" := BoolValue(true), "port" := NumberValue(8080), "domain" := StringValue("example.com")])
  {
    MultipleOptionTypesSchema(schema);
    MultipleOptionTypesResolve(schema, raw);
    FourOptions(schema, raw, StringValue("example.com"), NumberValue(8080), BoolValue(true), StringValue("b"));
  }

  lemma MultipleOptionTypes(config: ParserConfig, args: seq<string>)
    requires config == Config([OptionDecl("domain", StringKind, Some("d"), true), Opt("port", NumberKind),
                      OptionDecl("force", BooleanKind, Some("f"), false), Opt("agent", EnumKind(["a", "b", "c"]))])
    requires args == ["capture", "-d", "example.com", "--port", "8080", "-f", "--agent", "b"]
    ensures ParseArgs(config, args) == ParseSuccess(Some("capture"), map["agent" := StringValue("b"), "force" := BoolValue(true), "port" := NumberValue(8080), "domain" := StringValue("example.com")], [])
  {
    MultipleOptionTypesSchema(config.options);
    MultipleOptionTypesTokens(TokenizerSpecs(config.options), args);
    MultipleOptionTypesValues(config.options, map["domain" := Text("example.com"), "port" := Text("8080"), "force" := Flag, "agent" := Text("b")]);
    NoLeadingDash("capture");
    ParseSucceedsWith(config, args, Tokens(map["domain" := Text("example.com"), "port" := Text("8080"), "force" := Flag, "agent" := Text("b")], ["capture"]), map["agent" := StringValue("b"), "force" := BoolValue(true), "port" := NumberValue(8080), "domain" := StringValue("example.com")]);
  }

  // ---------------------------------------------------------------------------
  // Edge cases
  // ---------------------------------------------------------------------------

  lemma NegativeNumberInlineTokens(specs: seq<TokSpec>, args: seq<string>)
    requires specs == [TokSpec("offset", true, None)]
    requires args == ["--offset=-10"]
    ensures Tokenize(args, specs, true) == Tokenized(Tokens(map["offset" := Text("-10")], []))
  {
    assert FindLong(specs, "offset") == Some(specs[0]);
    assert args[0] == "--" + "offset" + "=" + "-10";
    InlineValueStep(specs, true, args, 0, map[], [], "offset", "-10");
    ScanStep(specs, true, args, 0, map[], []);
  }

  lemma NegativeNumberInlineValues(schema: Schema, raw: map<string, RawValue>)
    requires schema == [Opt("offset", NumberKind)]
    requires raw == map["offset" := Text("-10")]
    ensures ResolveAll(schema, raw) == Success(map["offset" := NumberValue(-10)])
  {
    ParseIntMinus10();
    SingleOption(schema[0], raw);
  }

  /** A negative number needs the `=` form, since `-10` on its own would look like an option. */
  lemma NegativeNumberInline(config: ParserConfig, args: seq<string>)
    requires config == Config([Opt("offset", NumberKind)])
    requires args == ["--offset=-10"]
    ensures ParseArgs(config, args) == ParseSuccess(None, map["offset" := NumberValue(-10)], [])
  {
    SpecsOfOne(config.options[0]);
    NegativeNumberInlineTokens(TokenizerSpecs(config.options), args);
    NegativeNumberInlineValues(config.options, map["offset" := Text("-10")]);
    ParseSucceedsWith(config, args, Tokens(map["offset" := Text("-10")], []), map["offset" := NumberValue(-10)]);
  }

}
