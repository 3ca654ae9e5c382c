/** The validator protocol: the five built-in validator classes, how each checks
    its keyword configuration (`validate_kwargs`), how it is constructed, the
    construction path `initialize_from_kwargs` that turns exceptions into an
    explicit outcome, and `validate` / `to_value` on a constructed instance. */
module Protocol {
  import opened Values
  import opened Text
  import opened Rules
  import opened MultipleChoiceRule

  /** Which built-in class a validator class is (or inherits its behaviour from). */
  datatype Kind = Regex | Range | Choice | Boolean | MultipleChoice

  /** A validator class as the registry sees it: `__name__`, `slug`, `title`
      and the built-in behaviour it has. */
  datatype ValidatorClass = ValidatorClass(name: string, slug: string, title: string, kind: Kind)

  /** The class declared in the module for each built-in kind. */
  function Builtin(k: Kind): ValidatorClass {
    match k
    case Regex => ValidatorClass("RegexValidator", "regex", "Regex", Regex)
    case Range => ValidatorClass("RangeValidator", "range", "Range", Range)
    case Choice => ValidatorClass("ChoiceValidator", "choice", "Choice", Choice)
    case Boolean => ValidatorClass("BooleanValidator", "boolean", "Boolean", Boolean)
    case MultipleChoice => ValidatorClass("MultipleChoiceValidator", "multiple_choice", "Multiple Choice", MultipleChoice)
  }

  /** `get_instance_kwargs(cls.__init__)`: the parameter names of the
      constructor; BooleanValidator inherits the base constructor. */
  function InitParams(k: Kind): (r: set<string>)
    ensures "self" in r && |r| == 2
    ensures "choices" in r <==> k == Choice
    ensures "validator_kwargs" in r <==> k == Boolean
    ensures "kwargs" in r <==> k in {Regex, Range, MultipleChoice}
  {
    match k
    case Choice => {"self", "choices"}
    case Boolean => {"self", "validator_kwargs"}
    case _ => {"self", "kwargs"}
  }

  /** `get_kwargs_slug()`: the class's own slug, except that ChoiceValidator
      overrides it with its `_kwargs_slug`. */
  function KwargsSlug(c: ValidatorClass): (r: string)
    ensures c == Builtin(c.kind) ==> (r == "choices" <==> c.kind == Choice)
    ensures c == Builtin(c.kind) ==> (r == c.slug <==> c.kind != Choice)
  {
    if c.kind == Choice then "choices" else c.slug
  }

  /** The keys `get_kwargs_slug` gives for the built-in classes. For Regex it
      is not the key `validate_kwargs` reads ("pattern"), so a configuration
      keyed by it is always rejected. */
  lemma KwargsSlugOfBuiltins(v: KwVal)
    ensures KwargsSlug(Builtin(Regex)) == "regex"
    ensures KwargsSlug(Builtin(Range)) == "range"
    ensures KwargsSlug(Builtin(Choice)) == "choices"
    ensures KwargsSlug(Builtin(Boolean)) == "boolean"
    ensures KwargsSlug(Builtin(MultipleChoice)) == "multiple_choice"
    ensures ValidateKwargs(Regex, map[KwargsSlug(Builtin(Regex)) := v]) == Rejected(PatternRequired)
  {
  }

  /** The outcome of `validate_kwargs`. */
  datatype KwargsCheck = Accepted | Rejected(msg: Message) | Raised(error: PyError)

  /** RegexValidator.validate_kwargs: `pattern` must be a non-empty string. */
  function RegexValidateKwargs(config: Config): (r: KwargsCheck)
    ensures r == Accepted <==> "pattern" in config && config["pattern"].KStr? && config["pattern"].s != ""
    ensures r != Accepted ==> r == Rejected(PatternRequired)
  {
    var pattern := Get(config, "pattern");
    if pattern.Some? && Truthy(pattern.value) && pattern.value.KStr? then Accepted
    else Rejected(PatternRequired)
  }

  /** A bound read with `range.get(name)` is `None`. */
  predicate BoundMissing(range: map<string, KwVal>, name: string) {
    GetOr(range, name, KNone) == KNone
  }

  /** RangeValidator.validate_kwargs. `range` defaults to an empty dict; a value
      without `.get` raises `AttributeError`. Both bounds must be present and
      not None. The digit check references `str(x).isdigit` without calling
      it, and a bound method is always true, so it never rejects. */
  function RangeValidateKwargs(config: Config): (r: KwargsCheck)
    ensures r.Raised? <==> "range" in config && !config["range"].KDict?
    ensures r.Raised? ==> r.error == AttributeError
    ensures r == Rejected(RangeRequired) <==>
      !r.Raised? && ("range" !in config ||
                     BoundMissing(config["range"].entries, "min_value") ||
                     BoundMissing(config["range"].entries, "max_value"))
    ensures r != Rejected(RangeMustBeNumber)
    ensures r.Rejected? ==> r.msg == RangeRequired
    ensures r == Accepted <==>
      "range" in config && config["range"].KDict? &&
      !BoundMissing(config["range"].entries, "min_value") &&
      !BoundMissing(config["range"].entries, "max_value")
  {
    match GetOr(config, "range", KDict(map[]))
    case KDict(range) =>
      var minValue := GetOr(range, "min_value", KNone);
      var maxValue := GetOr(range, "max_value", KNone);
      if minValue == KNone || maxValue == KNone then Rejected(RangeRequired)
      else Accepted
    case _ => Raised(AttributeError)
  }

  /** ChoiceValidator and MultipleChoiceValidator .validate_kwargs: `choices`
      must be truthy, then a list. */
  function ChoicesValidateKwargs(config: Config): (r: KwargsCheck)
    ensures r == Rejected(ChoicesRequired) <==> "choices" !in config || !Truthy(config["choices"])
    ensures r == Rejected(ChoicesMustBeList) <==>
      "choices" in config && Truthy(config["choices"]) && !config["choices"].KList?
    ensures r == Accepted <==> "choices" in config && config["choices"].KList? && config["choices"].items != []
  {
    var choices := Get(config, "choices");
    if choices.None? || !Truthy(choices.value) then Rejected(ChoicesRequired)
    else if !choices.value.KList? then Rejected(ChoicesMustBeList)
    else Accepted
  }

  /** `cls.validate_kwargs(cls, **config)`. Binding a "self" keyword next to the
      positional `cls` raises `TypeError` before the body runs; the base class
      body, inherited by BooleanValidator, accepts anything. */
  function ValidateKwargs(k: Kind, config: Config): (r: KwargsCheck)
    ensures "self" in config ==> r == Raised(TypeError)
    ensures k == Boolean ==> (r == Accepted <==> "self" !in config)
    ensures r.Raised? && "self" !in config ==> k == Range && r.error == AttributeError
    ensures "self" !in config && k == Regex ==> r == RegexValidateKwargs(config)
    ensures "self" !in config && k == Range ==> r == RangeValidateKwargs(config)
    ensures "self" !in config && (k == Choice || k == MultipleChoice) ==> r == ChoicesValidateKwargs(config)
  {
    if "self" in config then Raised(TypeError)
    else
      match k
      case Regex => RegexValidateKwargs(config)
      case Range => RangeValidateKwargs(config)
      case Choice => ChoicesValidateKwargs(config)
      case Boolean => Accepted
      case MultipleChoice => ChoicesValidateKwargs(config)
  }

  /** A constructed validator and the configuration its constructor stored. */
  datatype Instance =
    | RegexInstance(pattern: string)
    | RangeInstance(minValue: KwVal, maxValue: KwVal)
    | ChoiceInstance(choices: seq<KwVal>)
    | BooleanInstance
    | MultipleChoiceInstance(choices: seq<KwVal>)

  function KindOf(inst: Instance): Kind {
    match inst
    case RegexInstance(_) => Regex
    case RangeInstance(_, _) => Range
    case ChoiceInstance(_) => Choice
    case BooleanInstance => Boolean
    case MultipleChoiceInstance(_) => MultipleChoice
  }

  /** `cls(**config)`, reached only after `validate_kwargs` accepted. The
      constructors taking `**kwargs` accept any keys; ChoiceValidator's takes
      exactly `choices`, so any other key raises `TypeError`. */
  function Construct(k: Kind, config: Config): (r: Result<Instance>)
    requires ValidateKwargs(k, config) == Accepted
    ensures r.Err? <==> k == Choice && config.Keys - {"choices"} != {}
    ensures r.Err? ==> r.error == TypeError
    ensures r.Ok? ==> KindOf(r.value) == k
    ensures r.Ok? && k == Regex ==> r.value.pattern == config["pattern"].s && r.value.pattern != ""
    ensures r.Ok? && k == Range ==>
      r.value.minValue == config["range"].entries["min_value"] != KNone &&
      r.value.maxValue == config["range"].entries["max_value"] != KNone
    ensures r.Ok? && (k == Choice || k == MultipleChoice) ==>
      r.value.choices == config["choices"].items != []
  {
    match k
    case Regex => Ok(RegexInstance(config["pattern"].s))
    case Range =>
      var range := config["range"].entries;
      Ok(RangeInstance(GetOr(range, "min_value", KNone), GetOr(range, "max_value", KNone)))
    case Choice =>
      if config.Keys - {"choices"} != {} then Err(TypeError)
      else Ok(ChoiceInstance(config["choices"].items))
    case Boolean => Ok(BooleanInstance)
    case MultipleChoice => Ok(MultipleChoiceInstance(GetOr(config, "choices", KList([])).items))
  }

  /** The outcome of `initialize_from_kwargs`. */
  datatype InitResult =
    | Initialized(instance: Instance)
    | ConfigValidationErr(msg: Message)
    | InvalidKwargs(className: string, params: set<string>)
    | TypeErr

  /** The exceptions `initialize_from_kwargs` suppresses. */
  predicate Suppressed(e: PyError) {
    e == KeyError || e == AttributeError || e == ValueError
  }

  /** `cls.initialize_from_kwargs(**config)`: `validate_kwargs`, then the
      constructor. A "cls" keyword collides with the class the classmethod is
      bound to, so the call itself raises `TypeError`. Otherwise a `KeyError`,
      `AttributeError` or `ValueError` from either step becomes "Invalid kwargs
      for <name>" with the constructor's parameter set; the `ValidationError`
      of `validate_kwargs` and any `TypeError` escape unchanged. */
  function InitializeFromKwargs(c: ValidatorClass, config: Config): (r: InitResult)
    ensures "cls" in config || "self" in config ==> r == TypeErr
    ensures r.InvalidKwargs? <==>
      c.kind == Range && "cls" !in config && "self" !in config && "range" in config && !config["range"].KDict?
    ensures r.InvalidKwargs? ==> r.className == c.name && r.params == InitParams(c.kind)
    ensures r.ConfigValidationErr? <==> "cls" !in config && ValidateKwargs(c.kind, config).Rejected?
    ensures r.ConfigValidationErr? ==> r.msg == ValidateKwargs(c.kind, config).msg
    ensures r.TypeErr? <==>
      "cls" in config || "self" in config ||
      (c.kind == Choice && ValidateKwargs(c.kind, config) == Accepted && config.Keys - {"choices"} != {})
    ensures r.Initialized? <==>
      "cls" !in config && ValidateKwargs(c.kind, config) == Accepted && Construct(c.kind, config).Ok?
    ensures r.Initialized? ==>
      ValidateKwargs(c.kind, config) == Accepted && r.instance == Construct(c.kind, config).value
    ensures r.Initialized? ==> KindOf(r.instance) == c.kind
  {
    if "cls" in config then TypeErr
    else
      match ValidateKwargs(c.kind, config)
      case Raised(e) => if Suppressed(e) then InvalidKwargs(c.name, InitParams(c.kind)) else TypeErr
      case Rejected(msg) => ConfigValidationErr(msg)
      case Accepted =>
        match Construct(c.kind, config)
        case Ok(inst) => Initialized(inst)
        case Err(e) => if Suppressed(e) then InvalidKwargs(c.name, InitParams(c.kind)) else TypeErr
  }

  /** A configuration missing what a built-in class requires is reported by the
      `ValidationError` of `validate_kwargs`, not as "Invalid kwargs"; only
      BooleanValidator needs nothing and is constructed from an empty one. */
  lemma EmptyConfiguration()
    ensures InitializeFromKwargs(Builtin(Regex), map[]) == ConfigValidationErr(PatternRequired)
    ensures InitializeFromKwargs(Builtin(Range), map[]) == ConfigValidationErr(RangeRequired)
    ensures InitializeFromKwargs(Builtin(Choice), map[]) == ConfigValidationErr(ChoicesRequired)
    ensures InitializeFromKwargs(Builtin(MultipleChoice), map[]) == ConfigValidationErr(ChoicesRequired)
    ensures InitializeFromKwargs(Builtin(Boolean), map[]) == Initialized(BooleanInstance)
  {
  }

  /** A Range class configured with both numeric bounds is initialized, and
      the instance holds those bounds. */
  lemma RangeInitializeStoresBounds(c: ValidatorClass, lo: real, hi: real)
    requires c.kind == Range
    ensures InitializeFromKwargs(c, map["range" := KDict(map["min_value" := KNum(lo), "max_value" := KNum(hi)])])
      == Initialized(RangeInstance(KNum(lo), KNum(hi)))
  {
  }

  /** A Regex class configured with a string pattern is initialized exactly
      when the pattern is non-empty and no keyword collides with the call's
      own parameters, and the instance then holds that pattern. */
  lemma RegexInitializeStoresPattern(c: ValidatorClass, pattern: string, config: Config)
    requires c.kind == Regex
    requires Get(config, "pattern") == Some(KStr(pattern))
    ensures pattern != "" && "cls" !in config && "self" !in config <==>
      InitializeFromKwargs(c, config) == Initialized(RegexInstance(pattern))
  {
  }

  /** `instance.validate(value)`, dispatched on the instance's class. The
      regular-expression engine and the float parser are parameters. */
  method Validate(inst: Instance, value: string, prefixMatch: (string, string) -> bool, parse: string -> Option<real>)
    returns (r: Check)
    ensures inst.RegexInstance? ==> r == RegexValidate(inst.pattern, value, prefixMatch)
    ensures inst.RangeInstance? ==> r == RangeValidate(inst.minValue, inst.maxValue, value, parse)
    ensures inst.ChoiceInstance? ==> r == ChoiceValidate(inst.choices, value)
    ensures inst.BooleanInstance? ==> r == BooleanValidate(value)
    ensures inst.MultipleChoiceInstance? ==> r == Fail(DuplicateChoices)
  {
    match inst
    case RegexInstance(pattern) => r := RegexValidate(pattern, value, prefixMatch);
    case RangeInstance(minValue, maxValue) => r := RangeValidate(minValue, maxValue, value, parse);
    case ChoiceInstance(choices) => r := ChoiceValidate(choices, value);
    case BooleanInstance => r := BooleanValidate(value);
    case MultipleChoiceInstance(choices) => r := ValidateAsWritten(choices, value);
  }

  /** `instance.to_value(value)`: Range and Boolean override it; every other
      class inherits the base identity, so a multiple choice stays the raw
      comma-separated string. */
  function ToValue(inst: Instance, value: string, parse: string -> Option<real>): (r: Result<Coerced>)
    ensures KindOf(inst) in {Regex, Choice, MultipleChoice} ==> r == Ok(CStr(value))
    ensures inst.BooleanInstance? ==> r == Ok(CBool(Lower(value) == "true"))
    ensures inst.RangeInstance? ==> r == RangeToValue(value, parse)
  {
    match inst
    case RangeInstance(_, _) => RangeToValue(value, parse)
    case BooleanInstance => Ok(BooleanToValue(value))
    case _ => Ok(CStr(value))
  }
}
