/** The untyped configuration values, the error messages and the outcomes that
    the validators exchange with their callers. */
module Values {

  datatype Option<+T> = None | Some(value: T)

  /** A configuration value as it arrives from decoded JSON: `None`, a string,
      a number, a list or a dict with string keys. */
  datatype KwVal =
    | KNone
    | KStr(s: string)
    | KNum(n: real)
    | KList(items: seq<KwVal>)
    | KDict(entries: map<string, KwVal>)

  /** The keyword arguments handed to a validator class. */
  type Config = map<string, KwVal>

  /** Python truthiness: `None`, "", 0, [] and {} are false. */
  predicate Truthy(v: KwVal) {
    match v
    case KNone => false
    case KStr(s) => s != ""
    case KNum(n) => n != 0.0
    case KList(items) => items != []
    case KDict(entries) => entries != map[]
  }

  /** `d.get(key)`: `None` when the key is absent. */
  function Get(d: map<string, KwVal>, key: string): Option<KwVal> {
    if key in d then Some(d[key]) else None
  }

  /** `d.get(key, default)`. */
  function GetOr(d: map<string, KwVal>, key: string, default: KwVal): KwVal {
    if key in d then d[key] else default
  }

  /** The Python exceptions that decide the control flow of the core. */
  datatype PyError = TypeError | AttributeError | KeyError | ValueError

  /** The `ValidationError` messages, each a template plus its substitution
      arguments (the text is translated by the caller). */
  datatype Message =
    | PatternRequired
    | NoRegexMatch
    | RangeRequired
    | RangeMustBeNumber
    | NotInRange(minValue: KwVal, maxValue: KwVal)
    | NotANumber
    | ChoicesRequired
    | ChoicesMustBeList
    | NotInChoices(validChoices: string)
    | NotBoolean
    | DuplicateChoices
    | InvalidChoices(validChoices: string)
  {
    /** The untranslated template of the message. */
    function Template(): string {
      match this
      case PatternRequired => "Pattern is required"
      case NoRegexMatch => "Value does not match regex"
      case RangeRequired => "min_value and max_value are required"
      case RangeMustBeNumber => "min_value and max_value must be number"
      case NotInRange(_, _) => "Value is not in range: %s - %s"
      case NotANumber => "Value must be an number"
      case ChoicesRequired => "Choices are required"
      case ChoicesMustBeList => "Choices must be a list"
      case NotInChoices(_) => "Value is not in choices. Valid choices are: %s"
      case NotBoolean => "Value must be 'true' or 'false'."
      case DuplicateChoices => "Duplicate choices are not allowed"
      case InvalidChoices(_) => "Invalid choices. Valid choices are: %s"
    }
  }

  /** The outcome of `validate`: it returns, raises `ValidationError`, or lets
      another exception escape. */
  datatype Check = Pass | Fail(msg: Message) | Raise(error: PyError)

  /** The typed values `to_value` produces. */
  datatype Coerced = CStr(s: string) | CBool(b: bool) | CInt(i: int) | CFloat(x: real)

  /** A value or the exception raised instead of it. */
  datatype Result<+T> = Ok(value: T) | Err(error: PyError)
}
