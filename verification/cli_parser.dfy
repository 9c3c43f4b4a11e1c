/** The typed option-parsing engine of the shared CLI library:
    `createParser(config).parse(args)`.

    Parsing happens in two stages. The first splits the argument vector into
    raw option values and positionals. The source hands that to a library
    tokenizer (`parseArgs`), so here it is a function parameter of type
    `Tokenizer`. The second stage is the part the library adds: it extracts
    the command, then resolves every declared option in declaration order.
    Booleans default to false. Required options must be present and
    non-empty. Number options are read with `parseInt`, and enum options
    are checked against their declared values. The outcome is a tagged
    success/error result. */
module CliParser {
  import opened Results
  import opened Strings
  import opened JsParseInt

  /** The four option types a schema can declare. */
  datatype OptionKind = BooleanKind | StringKind | NumberKind | EnumKind(values: seq<string>)

  /** One schema entry: the long name is the key of the options object. */
  datatype OptionDecl = OptionDecl(name: string, kind: OptionKind, short: Option<string>, required: bool)

  /** The options object, in the order `Object.entries` visits it. */
  type Schema = seq<OptionDecl>

  /** Keys of a JavaScript object are unique. */
  predicate DistinctNames(schema: Schema) {
    forall i, j :: 0 <= i < j < |schema| ==> schema[i].name != schema[j].name
  }

  function Names(schema: Schema): set<string> {
    set d | d in schema :: d.name
  }

  /** `{ options, defaultCommand?, strict? }` */
  datatype ParserConfig = ParserConfig(options: Schema, defaultCommand: Option<string>, strict: Option<bool>)

  /** Strictness, which defaults to `true` when the configuration leaves it out. */
  function Strict(config: ParserConfig): bool {
    config.strict.GetOr(true)
  }

  // ---------------------------------------------------------------------------
  // The tokenizer interface
  // ---------------------------------------------------------------------------

  /** What the tokenizer is told about one option: its name, whether it is
      string-typed (takes a value), and its short alias. */
  datatype TokSpec = TokSpec(name: string, takesValue: bool, short: Option<string>)

  /** A raw value as the tokenizer records it: `true` for a bare flag, or the text given. */
  datatype RawValue = Flag | Text(text: string)

  datatype Tokens = Tokens(raw: map<string, RawValue>, positionals: seq<string>)

  /** A successful scan, or the value the tokenizer threw: `Some(message)`
      for an `Error`, `None` for anything else. */
  datatype TokenizeOutcome = Tokenized(tokens: Tokens) | Threw(message: Option<string>)

  /** The tokenizer: arguments, option table and strictness in; raw values and positionals out. */
  type Tokenizer = (seq<string>, seq<TokSpec>, bool) -> TokenizeOutcome

  function TokSpecOf(decl: OptionDecl): TokSpec {
    TokSpec(decl.name, !decl.kind.BooleanKind?,
            if decl.short.Some? && decl.short.value != "" then decl.short else None)
  }

  /** The option table given to the tokenizer. Every declared option is listed under its
      own name. Only booleans are flags; the other kinds are read as strings and
      converted later. An empty short alias counts as no alias. */
  function TokenizerSpecs(schema: Schema): (specs: seq<TokSpec>)
    ensures |specs| == |schema|
    ensures forall i :: 0 <= i < |schema| ==> specs[i].name == schema[i].name
    ensures forall i :: 0 <= i < |schema| ==> (specs[i].takesValue <==> !schema[i].kind.BooleanKind?)
    ensures forall i :: 0 <= i < |schema| ==>
              (specs[i].short.Some? <==> schema[i].short.Some? && schema[i].short.value != "")
    ensures forall i :: 0 <= i < |schema| && specs[i].short.Some? ==> specs[i].short == schema[i].short
  {
    seq(|schema|, i requires 0 <= i < |schema| => TokSpecOf(schema[i]))
  }

  // ---------------------------------------------------------------------------
  // Results
  // ---------------------------------------------------------------------------

  /** A resolved option value. Enum values are strings. `Undefined` is JavaScript's `undefined`. */
  datatype TypedValue = BoolValue(b: bool) | StringValue(s: string) | NumberValue(n: int) | Undefined

  /** `ParseResult`: success with command, values and positionals, or an error message. */
  datatype ParseResult =
    | ParseSuccess(command: Option<string>, values: map<string, TypedValue>, positionals: seq<string>)
    | ParseError(error: string)

  // ---------------------------------------------------------------------------
  // Command extraction
  // ---------------------------------------------------------------------------

  /** JavaScript truthiness of an optional string. */
  predicate Truthy(s: Option<string>) {
    s.Some? && s.value != ""
  }

  /** The leading positional is used as the command when it does not look like an option. */
  predicate LeadsWithCommand(positionals: seq<string>) {
    |positionals| > 0 && !StartsWith(positionals[0], "-")
  }

  datatype CommandSplit = CommandSplit(command: Option<string>, rest: seq<string>)

  /** The command and the positionals left after it. */
  function SplitCommand(positionals: seq<string>, defaultCommand: Option<string>): (r: CommandSplit)
    ensures LeadsWithCommand(positionals) ==> r.command == Some(positionals[0])
    ensures !LeadsWithCommand(positionals) ==> r.command == defaultCommand
    ensures r.rest == positionals || (|positionals| > 0 && r.rest == positionals[1..])
    ensures (|positionals| > 0 && r.rest == positionals[1..])
        <==> (|positionals| > 0 && Truthy(r.command) && r.command.value == positionals[0])
    ensures LeadsWithCommand(positionals) && Truthy(r.command) ==> [r.command.value] + r.rest == positionals
  {
    var command := if LeadsWithCommand(positionals) then Some(positionals[0]) else defaultCommand;
    var rest := if Truthy(command) && |positionals| > 0 && positionals[0] == command.value
                then positionals[1..] else positionals;
    assert |positionals| > 0 ==> |positionals[1..]| != |positionals|;
    CommandSplit(command, rest)
  }

  /** The file list a caller rebuilds from a split: the command goes back in front of the
      rest unless it is absent, empty or the default itself. */
  function Rejoin(split: CommandSplit, defaultCommand: Option<string>): seq<string> {
    if Truthy(split.command) && Some(split.command.value) != defaultCommand
    then [split.command.value] + split.rest
    else split.rest
  }

  /** Splitting off the command and rejoining it gives back exactly the positionals,
      except when the first positional is a non-empty copy of the default command. In
      that case it is dropped. */
  lemma RejoinRestoresPositionals(positionals: seq<string>, defaultCommand: Option<string>)
    ensures Rejoin(SplitCommand(positionals, defaultCommand), defaultCommand) == positionals
        <==> !(|positionals| > 0 && positionals[0] != "" && defaultCommand == Some(positionals[0]))
  {
    var split := SplitCommand(positionals, defaultCommand);
    if |positionals| > 0 && positionals[0] != "" && defaultCommand == Some(positionals[0]) {
      assert split.rest == positionals[1..];
      assert |Rejoin(split, defaultCommand)| < |positionals|;
    } else if LeadsWithCommand(positionals) && positionals[0] != "" {
      assert split.rest == positionals[1..];
      assert Rejoin(split, defaultCommand) == [positionals[0]] + positionals[1..];
    }
  }

  // ---------------------------------------------------------------------------
  // Per-option resolution
  // ---------------------------------------------------------------------------

  /** `rawValues[name]`, with `None` standing for `undefined`. */
  function Lookup(raw: map<string, RawValue>, name: string): Option<RawValue> {
    if name in raw then Some(raw[name]) else None
  }

  /** `rawValue === undefined || rawValue === ""` */
  predicate IsMissing(raw: Option<RawValue>) {
    raw == None || raw == Some(Text(""))
  }

  /** The raw value as a template literal prints it: a bare flag is `true`. */
  function RawText(raw: RawValue): string {
    match raw
    case Flag => "true"
    case Text(s) => s
  }

  /** Whether `enumValues.includes(rawValue)` holds: only a string can match. */
  predicate IsAllowed(values: seq<string>, raw: RawValue) {
    raw.Text? && raw.text in values
  }

  /** One iteration of the validation loop. */
  function ResolveOption(decl: OptionDecl, raw: Option<RawValue>): Result<TypedValue> {
    if decl.kind.BooleanKind? then
      Success(BoolValue(raw == Some(Flag)))
    else if decl.required && IsMissing(raw) then
      Failure("Missing required option: --" + decl.name)
    else if IsMissing(raw) then
      Success(Undefined)
    else
      match decl.kind
      case NumberKind =>
        (match ParseInt(RawText(raw.value))
         case None => Failure("Invalid number for --" + decl.name + ": \"" + RawText(raw.value) + "\"")
         case Some(n) => Success(NumberValue(n)))
      case EnumKind(values) =>
        if IsAllowed(values, raw.value) then Success(StringValue(raw.value.text))
        else Failure("Invalid value for --" + decl.name + ": \"" + RawText(raw.value)
                     + "\". Valid values: " + Join(values, ", "))
      case StringKind =>
        (match raw.value
         case Text(s) => Success(StringValue(s))
         case Flag => Success(BoolValue(true)))
  }

  function Resolve(decl: OptionDecl, raw: map<string, RawValue>): Result<TypedValue> {
    ResolveOption(decl, Lookup(raw, decl.name))
  }

  /** Option `i` is the first one, in declaration order, that fails. */
  predicate FailsFirstAt(schema: Schema, raw: map<string, RawValue>, i: int) {
    && 0 <= i < |schema|
    && Resolve(schema[i], raw).Failure?
    && forall j :: 0 <= j < i ==> Resolve(schema[j], raw).Success?
  }

  /** The validation loop. It succeeds exactly when every option resolves. The values
      then have one key per declared name, holding that option's resolution. On failure
      the message is the one from the first failing option. */
  function ResolveAll(schema: Schema, raw: map<string, RawValue>): (r: Result<map<string, TypedValue>>)
    requires DistinctNames(schema)
    ensures r.Success? <==> forall i :: 0 <= i < |schema| ==> Resolve(schema[i], raw).Success?
    ensures r.Success? ==> r.value.Keys == Names(schema)
    ensures r.Success? ==> forall i :: 0 <= i < |schema| ==> r.value[schema[i].name] == Resolve(schema[i], raw).value
    ensures r.Failure? ==> exists i :: FailsFirstAt(schema, raw, i) && r.error == Resolve(schema[i], raw).error
    decreases |schema|
  {
    if |schema| == 0 then Success(map[])
    else
      var tail := schema[1..];
      TailDistinct(schema);
      match Resolve(schema[0], raw)
      case Failure(e) =>
        assert FailsFirstAt(schema, raw, 0);
        Failure(e)
      case Success(v) =>
        match ResolveAll(tail, raw)
        case Failure(e) =>
          var k :| FailsFirstAt(tail, raw, k) && e == Resolve(tail[k], raw).error;
          FailureShifts(schema, raw, k);
          Failure(e)
        case Success(m) =>
          SuccessExtends(schema, raw, v, m);
          Success(m[schema[0].name := v])
  }

  lemma TailDistinct(schema: Schema)
    requires DistinctNames(schema) && |schema| > 0
    ensures DistinctNames(schema[1..])
  {
    var tail := schema[1..];
    forall i, j | 0 <= i < j < |tail| ensures tail[i].name != tail[j].name {
      assert tail[i] == schema[i + 1] && tail[j] == schema[j + 1];
    }
  }

  /** A first failure in the tail is a first failure of the whole schema once the head resolved. */
  lemma FailureShifts(schema: Schema, raw: map<string, RawValue>, k: int)
    requires |schema| > 0 && Resolve(schema[0], raw).Success?
    requires FailsFirstAt(schema[1..], raw, k)
    ensures FailsFirstAt(schema, raw, k + 1)
    ensures Resolve(schema[k + 1], raw) == Resolve(schema[1..][k], raw)
  {
    var tail := schema[1..];
    forall j | 0 <= j < k + 1 ensures Resolve(schema[j], raw).Success? {
      if j > 0 {
        assert schema[j] == tail[j - 1];
      }
    }
  }

  /** Adding the head's value to the tail's values gives the values of the whole schema. */
  lemma SuccessExtends(schema: Schema, raw: map<string, RawValue>, v: TypedValue, m: map<string, TypedValue>)
    requires DistinctNames(schema) && |schema| > 0
    requires Resolve(schema[0], raw) == Success(v)
    requires forall i :: 0 <= i < |schema[1..]| ==> Resolve(schema[1..][i], raw).Success?
    requires m.Keys == Names(schema[1..])
    requires forall i :: 0 <= i < |schema[1..]| ==> m[schema[1..][i].name] == Resolve(schema[1..][i], raw).value
    ensures forall i :: 0 <= i < |schema| ==> Resolve(schema[i], raw).Success?
    ensures m[schema[0].name := v].Keys == Names(schema)
    ensures forall i :: 0 <= i < |schema| ==> m[schema[0].name := v][schema[i].name] == Resolve(schema[i], raw).value
  {
    var tail := schema[1..];
    assert Names(schema) == {schema[0].name} + Names(tail) by {
      assert forall d :: d in schema <==> d == schema[0] || d in tail;
    }
    forall i | 1 <= i < |schema|
      ensures schema[i] == tail[i - 1] && schema[i].name != schema[0].name
    {
    }
  }

  // ---------------------------------------------------------------------------
  // parse
  // ---------------------------------------------------------------------------

  /** Everything `parse` does once the tokenizer has run. */
  function ParseTokens(config: ParserConfig, outcome: TokenizeOutcome): ParseResult
    requires DistinctNames(config.options)
  {
    match outcome
    case Threw(message) =>
      ParseError(if message.Some? then message.value else "Unknown parsing error")
    case Tokenized(tokens) =>
      var split := SplitCommand(tokens.positionals, config.defaultCommand);
      match ResolveAll(config.options, tokens.raw)
      case Failure(e) => ParseError(e)
      case Success(values) => ParseSuccess(split.command, values, split.rest)
  }

  /** `createParser(config).parse(args)`, for a given tokenizer. */
  function Parse(config: ParserConfig, tokenize: Tokenizer, args: seq<string>): ParseResult
    requires DistinctNames(config.options)
  {
    ParseTokens(config, tokenize(args, TokenizerSpecs(config.options), Strict(config)))
  }

  // ---------------------------------------------------------------------------
  // Properties of parse
  // ---------------------------------------------------------------------------

  /** When the tokenizer throws, parse returns a failure carrying the thrown message,
      or a fixed text if what was thrown is not an `Error`. Nothing escapes. */
  lemma TokenizerFailureIsReturned(config: ParserConfig, tokenize: Tokenizer, args: seq<string>)
    requires DistinctNames(config.options)
    requires tokenize(args, TokenizerSpecs(config.options), Strict(config)).Threw?
    ensures var thrown := tokenize(args, TokenizerSpecs(config.options), Strict(config)).message;
            Parse(config, tokenize, args)
              == ParseError(if thrown.Some? then thrown.value else "Unknown parsing error")
  {
  }

  /** Parsing succeeds exactly when every declared option resolves. */
  lemma SuccessIffEveryOptionResolves(config: ParserConfig, tokens: Tokens)
    requires DistinctNames(config.options)
    ensures ParseTokens(config, Tokenized(tokens)).ParseSuccess?
        <==> forall i :: 0 <= i < |config.options| ==> Resolve(config.options[i], tokens.raw).Success?
  {
  }

  /** On success the values have exactly the declared names as keys. The command and
      positionals are those of the split. */
  lemma SuccessShape(config: ParserConfig, tokens: Tokens)
    requires DistinctNames(config.options)
    requires ParseTokens(config, Tokenized(tokens)).ParseSuccess?
    ensures var r := ParseTokens(config, Tokenized(tokens));
            && r.values.Keys == Names(config.options)
            && r.command == SplitCommand(tokens.positionals, config.defaultCommand).command
            && r.positionals == SplitCommand(tokens.positionals, config.defaultCommand).rest
  {
  }

  /** Every boolean option gets a value, and it is `true` exactly when the tokenizer
      recorded a bare flag. */
  lemma BooleanOptionsResolve(config: ParserConfig, tokens: Tokens, i: int)
    requires DistinctNames(config.options)
    requires 0 <= i < |config.options| && config.options[i].kind.BooleanKind?
    requires ParseTokens(config, Tokenized(tokens)).ParseSuccess?
    ensures var r := ParseTokens(config, Tokenized(tokens));
            var name := config.options[i].name;
            r.values[name] == BoolValue(name in tokens.raw && tokens.raw[name] == Flag)
  {
  }

  /** A failed parse names the first failing option in declaration order. Every option
      before it resolved, and it is never a boolean. */
  lemma FailureIsFirstFailingOption(config: ParserConfig, tokens: Tokens)
    requires DistinctNames(config.options)
    requires ParseTokens(config, Tokenized(tokens)).ParseError?
    ensures exists i :: && FailsFirstAt(config.options, tokens.raw, i)
                        && !config.options[i].kind.BooleanKind?
                        && ParseTokens(config, Tokenized(tokens)).error
                             == Resolve(config.options[i], tokens.raw).error
  {
  }

  /** A required non-boolean option that is missing or empty fails with
      `Missing required option: --<name>`, provided every earlier option resolved. */
  lemma MissingRequiredOptionFails(config: ParserConfig, tokens: Tokens, i: int)
    requires DistinctNames(config.options)
    requires 0 <= i < |config.options|
    requires forall j :: 0 <= j < i ==> Resolve(config.options[j], tokens.raw).Success?
    requires !config.options[i].kind.BooleanKind? && config.options[i].required
    requires IsMissing(Lookup(tokens.raw, config.options[i].name))
    ensures ParseTokens(config, Tokenized(tokens))
         == ParseError("Missing required option: --" + config.options[i].name)
  {
    assert FailsFirstAt(config.options, tokens.raw, i);
    FirstFailureIsUnique(config.options, tokens.raw, i);
  }

  /** An optional non-boolean option that is missing or empty resolves to `undefined`
      and never stops the parse. */
  lemma MissingOptionalOptionIsUndefined(config: ParserConfig, tokens: Tokens, i: int)
    requires DistinctNames(config.options)
    requires 0 <= i < |config.options|
    requires !config.options[i].kind.BooleanKind? && !config.options[i].required
    requires IsMissing(Lookup(tokens.raw, config.options[i].name))
    ensures Resolve(config.options[i], tokens.raw) == Success(Undefined)
    ensures ParseTokens(config, Tokenized(tokens)).ParseSuccess? ==>
              ParseTokens(config, Tokenized(tokens)).values[config.options[i].name] == Undefined
  {
  }

  /** A present number option resolves to the `parseInt` value of its raw text. */
  lemma NumberOptionResolves(config: ParserConfig, tokens: Tokens, i: int)
    requires DistinctNames(config.options)
    requires 0 <= i < |config.options| && config.options[i].kind.NumberKind?
    requires !IsMissing(Lookup(tokens.raw, config.options[i].name))
    requires ParseTokens(config, Tokenized(tokens)).ParseSuccess?
    ensures var name := config.options[i].name;
            var v := ParseTokens(config, Tokenized(tokens)).values[name];
            v.NumberValue? && ParseInt(RawText(tokens.raw[name])) == Some(v.n)
  {
  }

  /** A present number option whose text `parseInt` rejects fails with
      `Invalid number for --<name>: "<raw>"`, provided every earlier option resolved. */
  lemma InvalidNumberFails(config: ParserConfig, tokens: Tokens, i: int)
    requires DistinctNames(config.options)
    requires 0 <= i < |config.options|
    requires forall j :: 0 <= j < i ==> Resolve(config.options[j], tokens.raw).Success?
    requires config.options[i].kind.NumberKind?
    requires !IsMissing(Lookup(tokens.raw, config.options[i].name))
    requires ParseInt(RawText(tokens.raw[config.options[i].name])) == None
    ensures var name := config.options[i].name;
            ParseTokens(config, Tokenized(tokens))
              == ParseError("Invalid number for --" + name + ": \"" + RawText(tokens.raw[name]) + "\"")
  {
    assert FailsFirstAt(config.options, tokens.raw, i);
    FirstFailureIsUnique(config.options, tokens.raw, i);
  }

  /** A present enum option resolves only to one of its declared values, compared
      case-sensitively, and the raw text is kept unchanged. */
  lemma EnumOptionResolves(config: ParserConfig, tokens: Tokens, i: int)
    requires DistinctNames(config.options)
    requires 0 <= i < |config.options| && config.options[i].kind.EnumKind?
    requires !IsMissing(Lookup(tokens.raw, config.options[i].name))
    requires ParseTokens(config, Tokenized(tokens)).ParseSuccess?
    ensures var name := config.options[i].name;
            && tokens.raw[name].Text?
            && tokens.raw[name].text in config.options[i].kind.values
            && ParseTokens(config, Tokenized(tokens)).values[name] == StringValue(tokens.raw[name].text)
  {
  }

  /** A present enum option whose value is not declared fails. The message lists every
      allowed value, joined by `", "` in declaration order. Every earlier option must
      have resolved. */
  lemma InvalidEnumValueFails(config: ParserConfig, tokens: Tokens, i: int)
    requires DistinctNames(config.options)
    requires 0 <= i < |config.options|
    requires forall j :: 0 <= j < i ==> Resolve(config.options[j], tokens.raw).Success?
    requires config.options[i].kind.EnumKind?
    requires !IsMissing(Lookup(tokens.raw, config.options[i].name))
    requires !IsAllowed(config.options[i].kind.values, tokens.raw[config.options[i].name])
    ensures var name := config.options[i].name;
            ParseTokens(config, Tokenized(tokens))
              == ParseError("Invalid value for --" + name + ": \"" + RawText(tokens.raw[name])
                            + "\". Valid values: " + Join(config.options[i].kind.values, ", "))
  {
    assert FailsFirstAt(config.options, tokens.raw, i);
    FirstFailureIsUnique(config.options, tokens.raw, i);
  }

  /** A string option given non-empty text passes it through unchanged. */
  lemma StringOptionPassesThrough(config: ParserConfig, tokens: Tokens, i: int)
    requires DistinctNames(config.options)
    requires 0 <= i < |config.options| && config.options[i].kind.StringKind?
    requires Lookup(tokens.raw, config.options[i].name).Some?
    requires tokens.raw[config.options[i].name].Text? && tokens.raw[config.options[i].name].text != ""
    requires ParseTokens(config, Tokenized(tokens)).ParseSuccess?
    ensures ParseTokens(config, Tokenized(tokens)).values[config.options[i].name]
         == StringValue(tokens.raw[config.options[i].name].text)
  {
  }

  /** Raw values stored under names the schema does not declare have no effect on the
      outcome. This is how unknown options are ignored in lenient mode. */
  lemma UndeclaredRawValuesAreIgnored(config: ParserConfig, tokens: Tokens, extra: map<string, RawValue>)
    requires DistinctNames(config.options)
    requires forall k :: k in extra ==> k !in Names(config.options)
    ensures ParseTokens(config, Tokenized(Tokens(tokens.raw + extra, tokens.positionals)))
         == ParseTokens(config, Tokenized(tokens))
  {
    var raw' := tokens.raw + extra;
    forall d | d in config.options
      ensures Resolve(d, raw') == Resolve(d, tokens.raw)
    {
      assert d.name in Names(config.options);
      assert Lookup(raw', d.name) == Lookup(tokens.raw, d.name);
    }
    ResolveAllDependsOnlyOnDeclared(config.options, tokens.raw, raw');
  }

  lemma {:induction false} ResolveAllDependsOnlyOnDeclared(schema: Schema, a: map<string, RawValue>, b: map<string, RawValue>)
    requires DistinctNames(schema)
    requires forall d :: d in schema ==> Resolve(d, a) == Resolve(d, b)
    ensures ResolveAll(schema, a) == ResolveAll(schema, b)
    decreases |schema|
  {
    if |schema| > 0 {
      assert schema[0] in schema;
      var tail := schema[1..];
      assert forall d :: d in tail ==> d in schema;
      assert DistinctNames(tail) by {
        forall i, j | 0 <= i < j < |tail| ensures tail[i].name != tail[j].name {
          assert tail[i] == schema[i + 1] && tail[j] == schema[j + 1];
        }
      }
      ResolveAllDependsOnlyOnDeclared(tail, a, b);
    }
  }

  /** The failing option in a failed parse is the first failing one, so an option known
      to fail first determines the message. */
  lemma FirstFailureIsUnique(schema: Schema, raw: map<string, RawValue>, i: int)
    requires DistinctNames(schema)
    requires FailsFirstAt(schema, raw, i)
    ensures ResolveAll(schema, raw) == Failure(Resolve(schema[i], raw).error)
  {
    var r := ResolveAll(schema, raw);
    var k :| FailsFirstAt(schema, raw, k) && r.error == Resolve(schema[k], raw).error;
    FirstFailureAtMostOne(schema, raw, i, k);
  }

  lemma FirstFailureAtMostOne(schema: Schema, raw: map<string, RawValue>, i: int, k: int)
    requires FailsFirstAt(schema, raw, i) && FailsFirstAt(schema, raw, k)
    ensures i == k
  {
  }

  // ---------------------------------------------------------------------------
  // Result types per option kind
  // ---------------------------------------------------------------------------

  /** The shape each kind's value has in `InferOptionType`. A boolean is always a boolean.
      The other kinds give their own value type, and `undefined` only when the option is
      not required. An enum value is one of the declared values. */
  predicate HasDeclaredType(decl: OptionDecl, v: TypedValue) {
    match decl.kind
    case BooleanKind => v.BoolValue?
    case StringKind => v.StringValue? || (!decl.required && v.Undefined?)
    case NumberKind => v.NumberValue? || (!decl.required && v.Undefined?)
    case EnumKind(values) => (v.StringValue? && v.s in values) || (!decl.required && v.Undefined?)
  }

  /** The tokenizer kept its side of the contract: string-typed options carry text, never a bare flag. */
  predicate ValueOptionsHaveText(schema: Schema, raw: map<string, RawValue>) {
    forall d :: d in schema && !d.kind.BooleanKind? && d.name in raw ==> raw[d.name].Text?
  }

  /** If the tokenizer gives every string-typed option text, a successful parse agrees
      with the inferred result type, option by option. */
  lemma SuccessHasDeclaredTypes(config: ParserConfig, tokens: Tokens)
    requires DistinctNames(config.options)
    requires ValueOptionsHaveText(config.options, tokens.raw)
    requires ParseTokens(config, Tokenized(tokens)).ParseSuccess?
    ensures forall i :: 0 <= i < |config.options| ==>
              HasDeclaredType(config.options[i], ParseTokens(config, Tokenized(tokens)).values[config.options[i].name])
  {
    var values := ParseTokens(config, Tokenized(tokens)).values;
    forall i | 0 <= i < |config.options|
      ensures HasDeclaredType(config.options[i], values[config.options[i].name])
    {
      assert config.options[i] in config.options;
      assert Resolve(config.options[i], tokens.raw).Success?;
    }
  }
}
