# flex_eav validators — a Dafny model

This project models the validator layer of django-flex-eav (`src/flex_eav/eav_validator.py`).
The layer has three parts:

- **The validator registry.** An insertion-ordered, process-wide dict maps a slug to a validator class. `register` fills it, `get_validator` looks a slug up and `get_choices` lists `(slug, title)` pairs. Five classes register themselves when the module is loaded: Regex, Range, Choice, Boolean and MultipleChoice.
- **The construction protocol.** `initialize_from_kwargs` first checks the keyword configuration with `validate_kwargs` and then calls the constructor. It turns `KeyError`, `AttributeError` and `ValueError` into "Invalid kwargs for <class>". Django's `ValidationError` and a `TypeError` pass through unchanged.
- **The value rules.** Each class has `validate` (pass, or a `ValidationError` with a message) and `to_value` (the typed value).

Modules:

- `Values` (values.dfy): configuration values, messages and outcomes.
- `Text` (text.dfy): `lower`, `strip`, `split` and `join`.
- `Rules` (rules.dfy): the value rules of Regex, Range, Choice and Boolean.
- `MultipleChoiceRule` (multiple_choice.dfy): MultipleChoice `validate`, which consumes a one-shot iterator.
- `Protocol` (protocol.dfy): `validate_kwargs`, the constructors, `initialize_from_kwargs`, and the `validate` and `to_value` dispatch.
- `Registry` (registry.dfy): the registry. `Registry.Registration` holds its contents as a value. `Registry.ValidatorRegistry` is the object whose fields `register` updates in place.

Python exceptions are explicit outcomes:

- `Check` is `Pass`, `Fail(message)` or `Raise(error)`.
- `Result` is `Ok` or `Err`.
- `InitResult` is `Initialized`, `ConfigValidationErr`, `InvalidKwargs` or `TypeErr`.

`re.match` is a parameter `prefixMatch`. `float(str)` is a parameter `parse: string -> Option<real>`.

Four behaviours of the code that a reader of its names and docstrings might not expect; the model follows the code:

- `register` returns `None`, not the class. The `@register` decorators therefore rebind the class names to `None`, and only the registry keeps the classes.
- A configuration missing its required keys gets the `ValidationError` of `validate_kwargs` ("Pattern is required", ...). It is not the "Invalid kwargs" error.
- Range's "must be number" check references `str(x).isdigit` without calling it. It never rejects anything.
- MultipleChoice `validate` rejects every value (see Findings). `Protocol.Validate` models the code as written.

## Model

| member | source | states |
|---|---|---|
| Text.Split | src/flex_eav/eav_validator.py:184 | `value.split(",")` yields at least one piece. No piece contains the separator. Joining the pieces with it gives the value back. |
| Text.SplitJoin | src/flex_eav/eav_validator.py:184 | Splitting a join of separator-free pieces gives those pieces back. So split and join are inverse both ways. |
| Text.Strip | src/flex_eav/eav_validator.py:184 | `str.strip()` returns a slice of the input. The slice neither starts nor ends with whitespace, and everything cut off is whitespace. |
| Text.LowerSpec | src/flex_eav/eav_validator.py:150 | `str.lower` keeps the length and leaves no upper-case letter. It keeps every other character and maps each upper-case letter to its lower-case one. The same lowering is applied at lines 160 and 184. |
| Text.JoinShape | src/flex_eav/eav_validator.py:151 | `", ".join(parts)` starts with the first part and ends with the last. Its length is the parts' total plus one separator between each two neighbours. The same join builds the message at line 189. |
| Rules.RegexValidate | src/flex_eav/eav_validator.py:88-90 | A value passes iff the pattern matches at its start. Otherwise the result is "Value does not match regex". |
| Rules.RangeValidate | src/flex_eav/eav_validator.py:115-120 | An unparseable value gives "Value must be an number", and nothing else does. With numeric bounds, a value passes iff `min <= float(value) <= max`; otherwise the result is "not in range" with both bounds. The chained comparison raises an escaping `TypeError` exactly when it reaches a bound that is not a number. Only numeric bounds let a value pass; a parsed value that neither passes nor raises gets "not in range", including a value below a numeric minimum when the maximum is not a number. |
| Rules.RangeToValue | src/flex_eav/eav_validator.py:122-126 | The result is a bare `ValueError` iff the value does not parse. Otherwise it is the parsed number, as an int exactly when the number is integral. |
| Rules.RangeAcceptedValueCoerces | src/flex_eav/eav_validator.py:115-126 | A value that passes a numeric range coerces without error to a number within that range. |
| Rules.LoweredMembershipSpec | src/flex_eav/eav_validator.py:150 | `x in map(str.lower, choices)` holds iff some choice lowers to `x` and every choice before it is a string. It is false iff all choices are strings and none matches. It raises only when some choice is not a string. |
| Rules.ChoiceValidate | src/flex_eav/eav_validator.py:149-151 | A value passes iff it matches a choice case-insensitively (for string choices). Otherwise the message lists the choices joined by ", ". A `TypeError` escapes only for a non-string choice, and when some choice is not a string every value that does not pass raises it. |
| Rules.BooleanValidateDecides | src/flex_eav/eav_validator.py:159-164 | A value passes iff it lowers to `str(b)` lowered for some bool `b`. A value spelling `b` coerces to `b`. A rejected value still coerces, to false. |
| Rules.BooleanValidate | src/flex_eav/eav_validator.py:159-161 | A value passes iff it lowers to "true" or "false". Otherwise the result is "Value must be 'true' or 'false'." |
| Rules.BooleanToValue | src/flex_eav/eav_validator.py:163-164 | `to_value` always gives a bool, and it is true only for a value that `validate` accepts. |
| Rules.BooleanRoundTrip | src/flex_eav/eav_validator.py:159-164 | `str(b)` passes `validate` and `to_value(str(b)) == b`. |
| MultipleChoiceRule.SelectedValues.Drain | src/flex_eav/eav_validator.py:184-185 | `list()` on the lazy map yields the stripped, lowered pieces not yet consumed, and leaves the iterator exhausted. |
| MultipleChoiceRule.ValidateAsWritten | src/flex_eav/eav_validator.py:183-189 | As written, every value is rejected with "Duplicate choices are not allowed". |
| MultipleChoiceRule.Selection | src/flex_eav/eav_validator.py:184 | The normalized selection always has at least one element. |
| MultipleChoiceRule.SetOfSize | src/flex_eav/eav_validator.py:185 | `len(set(xs)) <= len(xs)`, with equality iff the elements are distinct. This is the duplicate test the code intends. |
| MultipleChoiceRule.AllChosen | src/flex_eav/eav_validator.py:188-189 | For string choices, `all(...)` holds iff every selected value is some lowered choice. Otherwise the error is "Invalid choices" with the joined choices. |
| MultipleChoiceRule.ValidateIntended | src/flex_eav/eav_validator.py:183-189 | Corrected rule: "Duplicate choices" iff the selection has a repeated value. Otherwise, for string choices, pass iff every selected value is offered, else "Invalid choices". |
| MultipleChoiceRule.RejectsValidSelection | src/flex_eav/eav_validator.py:183-189 | For "a, B" against choices a, b, c, the code as written rejects the value and the corrected rule accepts it. |
| Protocol.InitParams | src/flex_eav/eav_validator.py:16-17 | Each constructor's parameter set is "self" plus one name. It names "choices" only for Choice, whose constructor takes exactly that key (line 135), "validator_kwargs" only for Boolean, which inherits the base constructor (line 50), and "kwargs" exactly for Regex, Range and MultipleChoice (lines 81, 99, 173). This is the set the "Invalid kwargs" message prints. |
| Protocol.KwargsSlug | src/flex_eav/eav_validator.py:138-140 | For the built-in classes, `get_kwargs_slug` is "choices" exactly for Choice, the only override (lines 45-47 give the default). Every other built-in class gets its own slug. |
| Protocol.KwargsSlugOfBuiltins | src/flex_eav/eav_validator.py:45-47 | `get_kwargs_slug` is the class slug, except "choices" for Choice. A Regex configuration keyed by its kwargs slug is rejected with "Pattern is required". |
| Protocol.RegexValidateKwargs | src/flex_eav/eav_validator.py:84-86 | Accepted iff `pattern` is a non-empty string. Otherwise the result is "Pattern is required". |
| Protocol.RangeValidateKwargs | src/flex_eav/eav_validator.py:104-113 | `AttributeError` iff `range` is present and not a dict. "min_value and max_value are required" iff a bound is missing or None. "must be number" never happens. Accepted iff `range` is a dict holding both bounds, neither None; every rejection is "min_value and max_value are required". |
| Protocol.ChoicesValidateKwargs | src/flex_eav/eav_validator.py:142-147 | "Choices are required" iff `choices` is missing or falsy. "Choices must be a list" iff it is truthy but not a list. Accepted iff it is a non-empty list. The same rule is used for MultipleChoice (lines 176-181). |
| Protocol.ValidateKwargs | src/flex_eav/eav_validator.py:20-22 | A "self" key raises `TypeError` for every class. Otherwise each class's own rule decides: Regex, Range, and Choice and MultipleChoice by their `validate_kwargs`, while Boolean's inherited check accepts everything. The only other exception is Range's `AttributeError`. |
| Protocol.Construct | src/flex_eav/eav_validator.py:50-174 | Covers all five constructors: the base one Boolean inherits (lines 50-51), Regex (81-82), Range (99-102), Choice (135-136) and MultipleChoice (173-174). Construction fails iff the class is Choice and the configuration has a key other than `choices`, and then it raises `TypeError`. Otherwise the instance holds the validated pattern, bounds or choices. |
| Protocol.InitializeFromKwargs | src/flex_eav/eav_validator.py:19-25 | A "cls" key collides with the classmethod's own parameter, and a "self" key with the one `validate_kwargs` is called with; either raises `TypeError` for every class. `TypeError` iff one of them is present or Choice gets extra keys. "Invalid kwargs" (with the class name and the constructor parameters) iff neither is present and a Range's `range` is not a dict. A `ValidationError` passes through iff there is no "cls" key and `validate_kwargs` rejects, with its message. Initialized iff there is no "cls" key, `validate_kwargs` accepts and the constructor succeeds, and the instance is then the one the constructor builds. |
| Protocol.EmptyConfiguration | src/flex_eav/eav_validator.py:20-25 | An empty configuration gives the `ValidationError` of each class that needs one. It constructs a Boolean validator. |
| Protocol.RegexInitializeStoresPattern | src/flex_eav/eav_validator.py:81-86 | A Regex class configured with a string pattern is initialized iff the pattern is non-empty and neither "cls" nor "self" is a key. The instance then holds that pattern. |
| Protocol.RangeInitializeStoresBounds | src/flex_eav/eav_validator.py:99-113 | A Range class configured with `{"range": {"min_value": lo, "max_value": hi}}` is initialized, and the instance holds `lo` and `hi` as its bounds. |
| Protocol.Validate | src/flex_eav/eav_validator.py:28-31 | `validate` dispatches on the instance's class to its rule. A MultipleChoice instance always fails with "Duplicate choices are not allowed". |
| Protocol.ToValue | src/flex_eav/eav_validator.py:34-37 | Regex, Choice and MultipleChoice return the raw string unchanged. Boolean and Range convert it with their own rules. |
| Registry.Registration.Register | src/flex_eav/eav_validator.py:60-61 | Assigning `validators[slug]` keeps the keys distinct, matching the table, with each class under its own slug. |
| Registry.Registration.Choices | src/flex_eav/eav_validator.py:68-69 | One `(slug, title)` pair per key, in key order. |
| Registry.RegisterThenLookup | src/flex_eav/eav_validator.py:60-65 | After `register(v)`, `v.slug` finds `v` and every other slug finds what it found before. A lookup gives `None` iff the slug is neither `v.slug` nor registered before. |
| Registry.LookupFindsOwnSlug | src/flex_eav/eav_validator.py:64-65 | A lookup succeeds iff the slug is registered, and it returns a class with that slug. |
| Registry.ChoicesAfterNewSlug | src/flex_eav/eav_validator.py:61 | Registering a new slug appends exactly its pair at the end of the choices. |
| Registry.ChoicesAfterReRegister | src/flex_eav/eav_validator.py:61 | Re-registering a slug keeps the length and every position, and replaces only the title at that slug's position. |
| Registry.ChoicesOnePerSlug | src/flex_eav/eav_validator.py:68-69 | The choices list each registered slug, and only registered slugs, exactly once. |
| Registry.RegisterAllFresh | src/flex_eav/eav_validator.py:60-61 | Registering classes with distinct, unregistered slugs one after another keeps the registry consistent. Their slugs are appended in that order. |
| Registry.RegisterAllFinds | src/flex_eav/eav_validator.py:60-65 | After registering classes with distinct slugs, each is found under its own slug. |
| Registry.RegisterAllKeepsOthers | src/flex_eav/eav_validator.py:60-65 | Registering classes leaves the lookup of every other slug unchanged. |
| Registry.BuiltinSlugs | src/flex_eav/eav_validator.py:75-170 | The five built-in slugs are regex, range, choice, boolean and multiple_choice, and they are distinct. |
| Registry.LoadTimeUnfolded | src/flex_eav/eav_validator.py:75-170 | Loading the module is the five `register` calls in declaration order. |
| Registry.LoadedKeys | src/flex_eav/eav_validator.py:75-170 | After loading, the registry is consistent and holds the five built-in slugs in declaration order. |
| Registry.LoadedLookups | src/flex_eav/eav_validator.py:64-65 | After loading, every built-in slug finds its own class. |
| Registry.LoadedChoices | src/flex_eav/eav_validator.py:68-69 | After loading, `get_choices` lists the five built-in slugs with their titles, in declaration order. |
| Registry.NonexistentNotLoaded | src/flex_eav/eav_validator.py:64-65 | After loading, an unknown slug finds nothing. |
| Registry.ValidatorRegistry.constructor | src/flex_eav/eav_validator.py:57 | The registry starts empty and consistent. |
| Registry.ValidatorRegistry.Loaded | src/flex_eav/eav_validator.py:72-170 | Loading the module runs the five registrations, giving the load-time registry. |
| Registry.ValidatorRegistry.Register | src/flex_eav/eav_validator.py:59-61 | `register` updates the dict in place as the value-level `Register` does, and keeps the registry consistent. |
| Registry.ValidatorRegistry.GetValidator | src/flex_eav/eav_validator.py:63-65 | `get_validator(slug)` returns the class filed under `slug` iff it is registered, else `None`, never an error. |
| Registry.ValidatorRegistry.GetChoices | src/flex_eav/eav_validator.py:67-69 | The loop builds exactly one `(slug, title)` pair per key, in registration order. |
| Registry.LoadedRegistry | src/flex_eav/eav_validator.py:63-69 | After loading, the choices are the five built-in pairs, "choice" finds ChoiceValidator and "nonexistent" finds `None`. |

## Left out

- Regular expressions: `re.match` is the parameter `prefixMatch`. Its semantics and the `re.error` a bad pattern raises at validate time are not modelled.
- Float parsing: `float()` is the parameter `parse`. Its accepted syntax ("1e3", padding, "nan", "inf"), IEEE rounding and the NaN comparisons are not modelled. Numbers are reals.
- Configuration values have no bool and no int/float distinction. A JSON `true` as a bound or as `choices` is not representable. A bound is rendered in messages as the number it holds.
- `str.lower` and `str.strip` are the ASCII ones. Unicode case mapping and Unicode whitespace are not modelled.
- `gettext_lazy` translation and the Django `ValidationError` class: messages are untranslated templates (`Message.Template`) with their arguments.
- `get_instance_kwargs` inspects the constructor signature at run time. The model uses the fixed parameter set of each class (`Protocol.InitParams`).
- `@abstractmethod` has no effect without `ABCMeta`. Classes other than the five built-ins are modelled only as far as `ValidatorClass` records them (name, slug, title and the built-in behaviour they inherit).
- The class-level dict is shared by the whole process. Concurrent access is not modelled.
- The module names rebound to `None` by `@register` are not modelled, beyond `register` having no result.
- Protocol.Validate: for a MultipleChoice instance it follows the code as written, so the corrected `MultipleChoiceRule.ValidateIntended` is proved beside it rather than used by the dispatch.

## Findings

| source | as written | input that shows it | evidently intended | confidence | as-written member | corrected member |
|---|---|---|---|---|---|---|
| src/flex_eav/eav_validator.py:184-189 | `selected_values` is a one-shot `map` iterator. `list(...)` drains it, so `set(selected_values)` is empty and the lengths always differ. Every value is rejected as holding duplicates, and the membership check is never reached. | choices `["a", "b", "c"]`, value `"a, B"` | Materialize the selection once. Reject only repeated values, then values not among the lowered choices. | not executed | MultipleChoiceRule.ValidateAsWritten | MultipleChoiceRule.ValidateIntended |
