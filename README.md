# class-flex in Dafny

A model of `clf`, the variant-based class-name composer of class-flex. `clf(base, config)`
returns a resolver. For each option set (`prop`) the resolver does four things:

1. It takes the configuration. This is either a literal object or a function called with the
   same option set. Absent fields get their defaults: `{}` for `variants`, `defaultVariants` and
   `responsive`, and `""` for `className` and `class`.
2. It picks one fragment per declared variant. The lookup key is
   `falsyToString(prop[v]) || falsyToString(defaultVariants[v])`, turned into a property name.
   An explicit null on both sides opts out with `""`.
3. It expands each responsive breakpoint value. The value is split on single spaces, and each
   piece becomes `breakpoint:piece`, or `""` when the piece or the breakpoint name is empty.
4. It hands base, the variant fragments, the responsive fragments, `className` and `class` to
   `clsx`, in that order, and passes the joined string to `twMerge`.

Files:

- `js.dfy` (module `Js`): the option values (`Str | Num | NaN | Bool | Null | Undefined`),
  JavaScript truthiness, `||`, the conversion of a value to the property name it indexes, and
  `falsyToString`.
- `strings.dfy` (module `Strings`): `split` on a one-character separator and `join`. Joining
  the pieces of a split gives back any string. Splitting joined strings gives back the split
  pieces of each, in order; that is the strings themselves only for a non-empty list of strings
  without the separator (`["a b"]` joins to "a b", which splits into `["a", "b"]`).
- `clsx.dfy` (module `Clsx`): the joiner, limited to the arguments the resolver passes. It
  flattens arrays, drops empty strings and joins the rest with one space.
- `class_flex.dfy` (module `ClassFlex`): configuration resolution, variant selection, responsive
  expansion, assembly, and the resolver itself (`Resolve`, and `ResolveAsWritten` for the code
  as written).
- `scenarios.dfy` (module `ClassFlexScenarios`): concrete configurations and what they resolve to.

Modelling choices:

- `twMerge` is the function parameter `merge: string -> string`, applied last. Nothing is
  assumed about it.
- An object that `Object.keys` enumerates (`variants`, `responsive`) is a sequence of
  (name, value) entries in enumeration order. Objects that are only indexed (the option set,
  `defaultVariants`, one variant's option map) are maps. A name missing from the option set or
  the defaults reads as `undefined`.
- The lookup key is coerced exactly as JavaScript does it. When the caller value and the default
  are both falsy after `falsyToString`, the default itself is the key. So `null`, `undefined`,
  `NaN` and `""` look up the options named `"null"`, `"undefined"`, `"NaN"` and `""`.
- The model follows the code as written:
  - Responsive values are split on a literal single space, not on any whitespace. Empty pieces
    become `""` fragments; they are not dropped.
  - A variant with no caller value and no default is not automatically `""`. It looks up the
    option named `"undefined"`, which is usually missing and then gives `""`.
  - An omitted configuration does not behave as an empty one; calling the resolver throws.
    See Findings.

## Model

| member | source | states |
|---|---|---|
| Js.Truthy | src/index.ts:57 | a value is falsy exactly when it is "", 0, NaN, false, null or undefined |
| Js.PropertyKey | src/index.ts:57-61 | the property name a value indexes is "" only for the empty string, and a number's name reads back as that number |
| Js.FalsyToString | src/index.ts:24-25 | the result is never a boolean; it indexes the same property name as its input; it is truthy exactly when the input is truthy, a boolean, or 0; every value other than a boolean or 0 comes back unchanged |
| Js.FalsyToStringConverts | src/index.ts:24-25 | true becomes "true", false becomes "false", and 0 becomes "0" |
| Js.FalsyToStringIdempotent | src/index.ts:24-25 | applying falsyToString twice gives the same value as applying it once |
| Js.FalsyAfterConversion | src/index.ts:24-25 | after falsyToString, a value is falsy if and only if it was "", null, undefined or NaN |
| Js.Or | src/index.ts:57-58 | JavaScript `or` of two values gives the left operand when it is truthy and the right operand otherwise, even when both are falsy; the result is truthy if and only if either operand is |
| Js.DecimalRoundTrip | src/index.ts:57-61 | the property name a number selects reads back as that number |
| Js.PropertyKeyDistinguishes | src/index.ts:57-61 | distinct numbers select distinct option names, and never the name "" |
| Strings.Split | src/index.ts:69 | split(" ") gives one more piece than the value has spaces, and no piece contains a space |
| Strings.JoinSplit | src/index.ts:69 | joining the pieces of split(" ") with single spaces gives back the original string |
| Strings.SplitJoin | src/index.ts:69 | splitting space-free pieces joined with spaces gives back the pieces |
| Strings.SplitAppend | src/index.ts:69 | splitting two strings joined by a space gives the pieces of the first followed by the pieces of the second |
| Strings.SplitAllAppend | src/index.ts:75 | splitting every string of two concatenated lists gives the pieces of the first list followed by those of the second |
| Strings.SplitJoinAll | src/index.ts:75 | splitting a non-empty list of strings joined with spaces gives the split pieces of each string, in order, spaces inside them included |
| Clsx.NonEmpty | src/index.ts:75 | the joiner keeps only non-empty strings, each drawn from its input, and keeps every non-empty one |
| Clsx.Leaves | src/index.ts:75 | every string the joiner keeps from nested arguments is non-empty |
| Clsx.LeavesAppend | src/index.ts:75 | flattening the joiner's arguments preserves their order across concatenation |
| Clsx.LeavesOfTexts | src/index.ts:75 | an array of strings contributes exactly its non-empty strings, in order |
| Clsx.LeavesOfLists | src/index.ts:75 | an array of string arrays contributes the non-empty strings of all of them, in order |
| Clsx.Compose | src/index.ts:75 | the joined string is "" when nothing is kept; splitting it on spaces gives the split pieces of every kept string, in order, and so the kept strings themselves when none of them contains a space |
| Clsx.LeavesOfFrame | src/index.ts:75 | a string, an array of strings, an array of string arrays and two strings contribute their non-empty strings in argument order |
| Clsx.NonEmptyFrame | src/index.ts:75 | among the candidates `[first] + xs + [a, b]`, a non-empty first is kept first, and non-empty a and b are kept last, in that order |
| ClassFlex.Lookup | src/index.ts:50-51 | a name present in the option set or the defaults reads as its value, and a missing one reads as undefined |
| ClassFlex.Select | src/index.ts:61 | the guarded option lookup is the option's fragment when the key is an option, and "" otherwise |
| ClassFlex.ConfigFor | src/index.ts:32-43 | a literal configuration is used as it is, and a configuration function is applied to the option set of the call |
| ClassFlex.DestructureAsWritten | src/index.ts:32-43 | destructuring the configuration throws a TypeError exactly when there is no configuration object |
| ClassFlex.Destructure | src/index.ts:37-43 | an absent configuration reads as all defaults; in a present one, each of `variants`, `defaultVariants`, `responsive`, `className` and `class` keeps its given value and takes its default (`{}` or "") when absent |
| ClassFlex.VariantKey | src/index.ts:57-58 | the caller's value, after falsyToString, is the key unless it is "", null, undefined or NaN; then the default, after falsyToString, is the key even when it is falsy too; the property name is the chosen operand's own |
| ClassFlex.VariantFragment | src/index.ts:54-61 | a variant's fragment is "" or one of its own options, never an error; it is "" when caller value and default are both null, whatever the options |
| ClassFlex.VariantFragments | src/index.ts:48-62 | exactly one fragment per declared variant, in key order, and each fragment is "" or an option of that same variant |
| ClassFlex.ExplicitValueWins | src/index.ts:57-61 | a caller value other than "", null, undefined or NaN selects the option named after it, whatever the default is |
| ClassFlex.FalseAndZeroSelect | src/index.ts:24-25 | the caller values false and 0 select the options "false" and "0" instead of falling back to the default |
| ClassFlex.DefaultWhenFalsy | src/index.ts:54-61 | a caller value that is "", null, undefined or NaN gives way to the default's property name, unless both are null |
| ClassFlex.CallerOverridesDefault | src/index.ts:48-62 | in the variant stage, a value in the option set that is truthy after falsyToString decides its variant's fragment |
| ClassFlex.VariantFragmentsIgnoreUndeclared | src/index.ts:48-62 | two option sets that agree on the declared variant names give the same variant fragments |
| ClassFlex.VariantFragmentsAppend | src/index.ts:48-62 | declaring more variants appends their fragments after the existing ones; fragments do not interact |
| ClassFlex.ResponsiveFragments | src/index.ts:65-70 | a breakpoint gives one fragment per split piece; each fragment is "" or starts with `breakpoint:` followed by a non-empty piece; an empty breakpoint name gives only "" |
| ClassFlex.ResponsiveClasses | src/index.ts:65-72 | one fragment array per breakpoint, each as long as its split, each fragment "" or carrying that breakpoint's own prefix |
| ClassFlex.ResponsiveRoundTrip | src/index.ts:68-70 | for a non-empty breakpoint name, removing the prefixes and joining with spaces gives back the configured value, so expansion loses no piece |
| ClassFlex.ClsxArgs | src/index.ts:75 | the strings the joiner keeps are the non-empty candidates, in the order base, variant fragments, responsive fragments, `className`, `class` |
| ClassFlex.BaseAlone | src/index.ts:75 | with no variants, no breakpoints and empty `className` and `class`, the joined string is the base |
| ClassFlex.Resolve | src/index.ts:35-75 | the corrected resolver; without a configuration object it returns `merge(base)` |
| ClassFlex.ResolveAsWritten | src/index.ts:35-75 | the resolver as written throws a TypeError exactly when there is no configuration object, and otherwise returns what the corrected resolver returns |
| ClassFlex.CallSiteClassesLast | src/index.ts:75 | among the strings the joiner keeps, a non-empty `class` is last, and a non-empty `className` comes right before it or is last; a non-empty base comes first |
| ClassFlex.CallSiteClassesEndString | src/index.ts:75 | in the class string handed to the merger, the space-separated classes of a non-empty `class` come last, right after those of a non-empty `className`, and those of a non-empty base come first |
| ClassFlex.EmptyConfigYieldsBase | src/index.ts:37-75 | with no configuration, or one whose `variants`, `responsive`, `className` and `class` are absent or empty, only the base reaches the joiner and the resolver returns `merge(base)`, whatever `defaultVariants` holds |
| ClassFlex.ComputedConfigSeesProps | src/index.ts:32-43 | a configuration function is evaluated with the same option set that variant lookup uses |
| ClassFlex.OmittedConfigThrows | src/index.ts:32-43 | as written, calling a resolver made without a configuration throws a TypeError |
| ClassFlexScenarios.DefaultThenOverride | src/index.ts:48-62 | size options sm/lg with default sm: no caller value gives "text-sm", and "lg" gives "text-lg" only |
| ClassFlexScenarios.ZeroIsAnOption | src/index.ts:57-61 | caller value 0 selects "opacity-0" even though the default is "1" |
| ClassFlexScenarios.UnknownValueDropped | src/index.ts:61 | an unknown option value "9" contributes "" |
| ClassFlexScenarios.NullOptOut | src/index.ts:54 | null as both caller value and default contributes "" for any option map |
| ClassFlexScenarios.FalseIsAnOption | src/index.ts:57-61 | caller value false selects option "false" over a default of true |
| ClassFlexScenarios.BreakpointTokens | src/index.ts:65-70 | breakpoint md with value "flex-row gap-2" (any two space-free tokens) expands to "md:flex-row" and "md:gap-2" |
| ClassFlexScenarios.DoubleSpaceLeavesEmptyFragment | src/index.ts:69-70 | a double space between two tokens leaves an empty middle fragment |
| ClassFlexScenarios.ClassNameAfterBase | src/index.ts:75 | base "p-2" with `className` "p-4" reaches the merger as "p-2 p-4", so "p-4" comes last |

## Findings

| source | as written | input that shows it | evidently intended | confidence | as-written member | corrected member |
|---|---|---|---|---|---|---|
| src/index.ts:29-43 | `config` is optional, but when it is omitted the resolver runs `const {…} = undefined` | `clf("p-2")({})` throws a TypeError: a value cannot be destructured from undefined | an omitted configuration behaves as an empty one, and the resolver returns `twMerge("p-2")` | high; not executed | ClassFlex.OmittedConfigThrows | ClassFlex.EmptyConfigYieldsBase |

`ClassFlex.Resolve` reads an absent configuration as the empty one. `ClassFlex.ResolveAsWritten`
keeps the throw, and its contract shows that the two differ only when the configuration object
is missing.

## Left out

- The conflict resolution of `twMerge`. It is a library with utility-group tables that are not
  part of this model. It is the parameter `merge`, so no claim such as "p-4 overrides p-2" is
  proved; only the order in which fragments reach it is proved.
- `clsx` on inputs the resolver never passes (objects, numbers, booleans, deeper nesting).
- The TypeScript generic and mapped types (src/index.ts:4-22). They have no runtime behaviour.
- Option values that are non-integer numbers, and integers of magnitude 2^53 or more. Numbers are
  integers and print as plain decimals, which matches JavaScript below that bound. Above it, most
  integers are not JavaScript numbers, and Number::toString prints the shortest digits that read
  back as the same double (`2**64` prints as "18446744073709552000").
- The ordering rule of `Object.keys` (integer-like names first, in ascending order). The entry
  sequences take the enumeration order as given.
- ClassFlex.Lookup: inherited `Object.prototype` names are not modelled. In the option set and in
  `defaultVariants`, a name such as `constructor` or `toString` reads an inherited function, which
  is truthy, so it becomes the lookup key and the variant gives "". The model reads `undefined`
  there and falls back to the default. In an option map, `variants[v][key]` would be a function,
  which `clsx` ignores, so the output there is the same as for `""`.
- A primitive configuration (a number, string or boolean). Destructuring it reads every field as
  undefined, so it would act as the empty configuration; the model has configuration objects,
  null and undefined only (the last two throw, as `Literal(None)` or a function returning `None`).
- A responsive entry whose value is undefined or null. The `?.` chain then yields undefined, which
  `clsx` drops, so the entry contributes nothing; responsive values are always strings here.
- A declared variant whose option map is undefined, which throws at `variants[v][variantKey]`.
  Option maps are always present in this model.
- A resolver called with no option set (`prop` undefined). For lookup this acts as the empty map.
  A configuration function, which here always receives a map, could tell the two apart.
