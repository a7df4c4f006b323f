/**
 * `clf(base, config)` and the resolver it returns: from a base class string
 * and a variant configuration (a literal or a function of the option set),
 * compute for one option set the class string handed to the merger.
 *
 * The resolver resolves the configuration and fills in defaults, picks one
 * fragment per declared variant, expands each responsive breakpoint into
 * `label:token` fragments, joins base, variant fragments, responsive
 * fragments, `className` and `class` with `clsx`, and passes the result to
 * `twMerge` (here the parameter `merge`, whose conflict tables are not modelled).
 */
module ClassFlex {
  import opened Js
  import opened Strings
  import opened Clsx

  datatype Option<T> = None | Some(value: T)

  /** The option set `prop`: option name to chosen value; a name it lacks reads as undefined. */
  type Props = map<string, Value>

  /** An object as `Object.keys` enumerates it: its (name, value) entries in key order. */
  type Entries<T> = seq<(string, T)>

  /** The configuration object; `None` is a field that is absent (undefined). A configuration that is absent altogether, undefined or null, is `None` at the next level. */
  datatype VariantConfig = VariantConfig(
    variants: Option<Entries<map<string, string>>>,
    defaultVariants: Option<map<string, Value>>,
    responsive: Option<Entries<string>>,
    className: Option<string>,
    /** The `class` field. */
    classAttr: Option<string>)

  /** The configuration with every field absent. */
  const EmptyConfig := VariantConfig(None, None, None, None, None)

  /**
   * The second argument of `clf`: a configuration object, absent (`Literal(None)`),
   * or a function from the option set to a configuration, which may return
   * nothing (`None`, undefined or null).
   */
  datatype Config = Literal(value: Option<VariantConfig>) | Computed(fn: Props -> Option<VariantConfig>)

  /** The configuration after destructuring, every absent field replaced by its default. */
  datatype Settings = Settings(
    defaultVariants: map<string, Value>,
    variants: Entries<map<string, string>>,
    classAttr: string,
    className: string,
    responsive: Entries<string>)

  /** How a call ends: with a value, or by throwing a TypeError. */
  datatype Outcome<T> = Returns(value: T) | ThrowsTypeError

  function GetOr<T>(o: Option<T>, default: T): T
  {
    match o
    case Some(v) => v
    case None => default
  }

  /** `obj?.[name]` on a lookup-only object: the value, or undefined when the name is absent. */
  function Lookup(m: map<string, Value>, name: string): (v: Value)
    ensures name in m ==> v == m[name]
    ensures name !in m ==> v == Undefined
  {
    if name in m then m[name] else Undefined
  }

  /** `options[key] || ""`: the option's fragment, or "" when the key is not an option. */
  function Select(options: map<string, string>, key: string): (r: string)
    ensures key in options ==> r == options[key]
    ensures key !in options ==> r == ""
  {
    // an option mapped to "" gives "" through `|| ""` as well
    if key in options then options[key] else ""
  }

  // ---------------------------------------------------------------------
  // Step 1: configuration resolution
  // ---------------------------------------------------------------------

  /** The configuration object for one call: the literal, or the function applied to the same option set. */
  function ConfigFor(config: Config, props: Props): (c: Option<VariantConfig>)
    ensures config.Literal? ==> c == config.value
    ensures config.Computed? ==> c == config.fn(props)
  {
    match config
    case Literal(c) => c
    case Computed(f) => f(props)
  }

  /**
   * The destructuring with defaults as written: destructuring undefined or
   * null (an omitted config, or a config function returning nothing) throws.
   */
  function DestructureAsWritten(raw: Option<VariantConfig>): (r: Outcome<Settings>)
    ensures r.ThrowsTypeError? <==> raw.None?
  {
    match raw
    case None => ThrowsTypeError
    case Some(c) => Returns(Destructure(raw))
  }

  /**
   * The destructuring with defaults, an absent configuration read as the empty
   * one: `variants`, `defaultVariants` and `responsive` default to `{}`,
   * `className` and `class` to "".
   */
  function Destructure(raw: Option<VariantConfig>): (s: Settings)
    ensures raw == None ==> s == Settings(map[], [], "", "", [])
    ensures raw.Some? && raw.value.variants.Some? ==> s.variants == raw.value.variants.value
    ensures raw.Some? && raw.value.variants.None? ==> s.variants == []
    ensures raw.Some? && raw.value.defaultVariants.Some? ==> s.defaultVariants == raw.value.defaultVariants.value
    ensures raw.Some? && raw.value.defaultVariants.None? ==> s.defaultVariants == map[]
    ensures raw.Some? && raw.value.responsive.Some? ==> s.responsive == raw.value.responsive.value
    ensures raw.Some? && raw.value.responsive.None? ==> s.responsive == []
    ensures raw.Some? && raw.value.className.Some? ==> s.className == raw.value.className.value
    ensures raw.Some? && raw.value.className.None? ==> s.className == ""
    ensures raw.Some? && raw.value.classAttr.Some? ==> s.classAttr == raw.value.classAttr.value
    ensures raw.Some? && raw.value.classAttr.None? ==> s.classAttr == ""
  {
    var c := GetOr(raw, EmptyConfig);
    Settings(
      GetOr(c.defaultVariants, map[]),
      GetOr(c.variants, []),
      GetOr(c.classAttr, ""),
      GetOr(c.className, ""),
      GetOr(c.responsive, []))
  }

  // ---------------------------------------------------------------------
  // Step 2: one fragment per declared variant
  // ---------------------------------------------------------------------

  /**
   * `falsyToString(chosen) || falsyToString(fallback)`: the value whose property
   * name is looked up. The caller's value decides unless it is "", null,
   * undefined or NaN; then the default decides, even when it is falsy too.
   */
  function VariantKey(chosen: Value, fallback: Value): (key: Value)
    ensures chosen !in {Str(""), Null, Undefined, NaN} ==> key == FalsyToString(chosen)
    ensures chosen in {Str(""), Null, Undefined, NaN} ==> key == FalsyToString(fallback)
    ensures PropertyKey(key) == PropertyKey(if chosen in {Str(""), Null, Undefined, NaN} then fallback else chosen)
  {
    FalsyAfterConversion(chosen);
    Or(FalsyToString(chosen), FalsyToString(fallback))
  }

  /**
   * The fragment of one variant whose option map is `options`, given the
   * caller's value and the default: "" when both are null, otherwise the
   * option named by the lookup key, or "" when there is no such option.
   */
  function VariantFragment(options: map<string, string>, chosen: Value, fallback: Value): (r: string)
    ensures r == "" || r in options.Values
    ensures chosen == Null && fallback == Null ==> r == ""
  {
    if chosen == Null && fallback == Null then ""
    else Select(options, PropertyKey(VariantKey(chosen, fallback)))
  }

  /**
   * The variant stage: one fragment per entry of `variants`, in key order, each
   * drawn from that variant's own option map.
   */
  function VariantFragments(variants: Entries<map<string, string>>, defaults: map<string, Value>, props: Props): (r: seq<string>)
    ensures |r| == |variants|
    ensures forall i :: 0 <= i < |r| ==> r[i] == "" || r[i] in variants[i].1.Values
  {
    seq(|variants|, i requires 0 <= i < |variants| =>
      VariantFragment(variants[i].1, Lookup(props, variants[i].0), Lookup(defaults, variants[i].0)))
  }

  // ---------------------------------------------------------------------
  // Step 3: responsive expansion
  // ---------------------------------------------------------------------

  /** `breakpoint + ":"`, the prefix of every fragment of a breakpoint. */
  function Prefix(breakpoint: string): string
  {
    breakpoint + ":"
  }

  /**
   * `value.split(" ").map(c => breakpoint && c ? breakpoint + ":" + c : "")`: one fragment
   * per piece of the split, "" for an empty piece or an empty breakpoint.
   */
  function ResponsiveFragments(breakpoint: string, value: string): (r: seq<string>)
    ensures |r| == |Split(value, ' ')| == Count(value, ' ') + 1
    ensures forall i :: 0 <= i < |r| ==>
      r[i] == "" || (breakpoint != "" && |r[i]| > |Prefix(breakpoint)| && r[i][..|Prefix(breakpoint)|] == Prefix(breakpoint))
    ensures breakpoint == "" ==> forall i :: 0 <= i < |r| ==> r[i] == ""
  {
    var pieces := Split(value, ' ');
    seq(|pieces|, i requires 0 <= i < |pieces| =>
      if breakpoint != "" && pieces[i] != "" then Prefix(breakpoint) + pieces[i] else "")
  }

  /** The responsive stage: the fragments of each breakpoint, in key order. */
  function ResponsiveClasses(responsive: Entries<string>): (r: seq<seq<string>>)
    ensures |r| == |responsive|
    ensures forall i :: 0 <= i < |r| ==> |r[i]| == Count(responsive[i].1, ' ') + 1
    ensures forall i, j :: 0 <= i < |r| && 0 <= j < |r[i]| ==>
      r[i][j] == "" || (|r[i][j]| > |Prefix(responsive[i].0)| && r[i][j][..|Prefix(responsive[i].0)|] == Prefix(responsive[i].0))
  {
    seq(|responsive|, i requires 0 <= i < |responsive| => ResponsiveFragments(responsive[i].0, responsive[i].1))
  }

  /** A fragment with its breakpoint prefix taken off; "" stays "". */
  function Unprefix(breakpoint: string, fragment: string): string
  {
    if |fragment| >= |Prefix(breakpoint)| then fragment[|Prefix(breakpoint)|..] else fragment
  }

  /** Every fragment of a breakpoint with its prefix taken off. */
  function Unprefixed(breakpoint: string, fragments: seq<string>): (r: seq<string>)
    ensures |r| == |fragments|
  {
    seq(|fragments|, i requires 0 <= i < |fragments| => Unprefix(breakpoint, fragments[i]))
  }

  // ---------------------------------------------------------------------
  // Steps 4 and 5: assembly, joining and merging
  // ---------------------------------------------------------------------

  /**
   * The arguments of `clsx`: base, variant fragments, responsive arrays,
   * `className`, `class`. Flattened and emptied of "", they are the candidates
   * in exactly that order.
   */
  function ClsxArgs(base: string, s: Settings, props: Props): (args: seq<ClassValue>)
    ensures Leaves(args) == NonEmpty(PreMerge(base, s, props))
  {
    var v := VariantFragments(s.variants, s.defaultVariants, props);
    var rs := ResponsiveClasses(s.responsive);
    LeavesOfFrame(base, v, rs, s.className, s.classAttr);
    [Text(base), Items(Texts(v)), Items(Lists(rs)), Text(s.className), Text(s.classAttr)]
  }

  /** The candidate fragments in assembly order, before empty ones are dropped. */
  function PreMerge(base: string, s: Settings, props: Props): seq<string>
  {
    [base] + Generated(s, props) + [s.className, s.classAttr]
  }

  /** The fragments the configuration generates: variant fragments, then responsive fragments. */
  function Generated(s: Settings, props: Props): seq<string>
  {
    VariantFragments(s.variants, s.defaultVariants, props) + Concat(ResponsiveClasses(s.responsive))
  }

  /**
   * `clf(base, config)(props)` with a missing configuration object read as the
   * empty one: then the base alone reaches the merger.
   */
  function Resolve(merge: string -> string, base: string, config: Config, props: Props): (r: string)
    ensures ConfigFor(config, props).None? ==> r == merge(base)
  {
    var s := Destructure(ConfigFor(config, props));
    if ConfigFor(config, props).None? then
      BaseAlone(base, s, props);
      merge(Compose(ClsxArgs(base, s, props)))
    else
      merge(Compose(ClsxArgs(base, s, props)))
  }

  /**
   * `clf(base, config)(props)` as written: it throws exactly when there is no
   * configuration object, and otherwise returns what `Resolve` returns.
   */
  function ResolveAsWritten(merge: string -> string, base: string, config: Config, props: Props): (r: Outcome<string>)
    ensures r.ThrowsTypeError? <==> ConfigFor(config, props).None?
    ensures r.Returns? ==> r.value == Resolve(merge, base, config, props)
  {
    match DestructureAsWritten(ConfigFor(config, props))
    case ThrowsTypeError => ThrowsTypeError
    case Returns(s) => Returns(merge(Compose(ClsxArgs(base, s, props))))
  }

  // ---------------------------------------------------------------------
  // Properties
  // ---------------------------------------------------------------------

  /**
   * A caller value that is truthy after `falsyToString` (so also `false` and
   * `0`) selects the option named after it, whatever the default is.
   */
  lemma ExplicitValueWins(options: map<string, string>, chosen: Value, fallback: Value)
    requires chosen !in {Str(""), Null, Undefined, NaN}
    ensures VariantFragment(options, chosen, fallback) == Select(options, PropertyKey(chosen))
  {
    FalsyAfterConversion(chosen);
  }

  /** `false` and `0` are option names, not requests for the default. */
  lemma FalseAndZeroSelect(options: map<string, string>, fallback: Value)
    ensures VariantFragment(options, Bool(false), fallback) == Select(options, "false")
    ensures VariantFragment(options, Num(0), fallback) == Select(options, "0")
  {
    ExplicitValueWins(options, Bool(false), fallback);
    ExplicitValueWins(options, Num(0), fallback);
  }

  /**
   * A caller value that is absent, "", null or NaN gives way to the default,
   * after `falsyToString`, unless both are null.
   */
  lemma DefaultWhenFalsy(options: map<string, string>, chosen: Value, fallback: Value)
    requires chosen in {Str(""), Null, Undefined, NaN}
    requires !(chosen == Null && fallback == Null)
    ensures VariantFragment(options, chosen, fallback) == Select(options, PropertyKey(fallback))
  {
    FalsyAfterConversion(chosen);
  }

  /**
   * In the variant stage, a value in the option set that is truthy after
   * `falsyToString` decides its variant's fragment over the default.
   */
  lemma {:induction false} CallerOverridesDefault(variants: Entries<map<string, string>>, defaults: map<string, Value>, props: Props, i: nat)
    requires i < |variants|
    requires variants[i].0 in props && Truthy(FalsyToString(props[variants[i].0]))
    ensures VariantFragments(variants, defaults, props)[i] == Select(variants[i].1, PropertyKey(props[variants[i].0]))
  {
    FalsyAfterConversion(props[variants[i].0]);
    ExplicitValueWins(variants[i].1, props[variants[i].0], Lookup(defaults, variants[i].0));
  }

  /** Option names that are not declared variants do not affect the variant stage. */
  lemma {:induction false} VariantFragmentsIgnoreUndeclared(variants: Entries<map<string, string>>, defaults: map<string, Value>, p: Props, q: Props)
    requires forall i :: 0 <= i < |variants| ==> Lookup(p, variants[i].0) == Lookup(q, variants[i].0)
    ensures VariantFragments(variants, defaults, p) == VariantFragments(variants, defaults, q)
  {
    var r, s := VariantFragments(variants, defaults, p), VariantFragments(variants, defaults, q);
    forall i | 0 <= i < |variants| ensures r[i] == s[i] {
    }
  }

  /** Declaring more variants appends their fragments after the existing ones. */
  lemma {:induction false} VariantFragmentsAppend(a: Entries<map<string, string>>, b: Entries<map<string, string>>, defaults: map<string, Value>, props: Props)
    ensures VariantFragments(a + b, defaults, props)
      == VariantFragments(a, defaults, props) + VariantFragments(b, defaults, props)
  {
    var r := VariantFragments(a + b, defaults, props);
    var s := VariantFragments(a, defaults, props) + VariantFragments(b, defaults, props);
    forall i | 0 <= i < |r| ensures r[i] == s[i] {
      if i >= |a| {
        assert (a + b)[i] == b[i - |a|];
      }
    }
  }

  /**
   * Responsive expansion loses nothing: with a non-empty breakpoint, taking the
   * prefix off every fragment and joining with spaces gives back the value.
   */
  lemma {:induction false} ResponsiveRoundTrip(breakpoint: string, value: string)
    requires breakpoint != ""
    ensures Join(Unprefixed(breakpoint, ResponsiveFragments(breakpoint, value)), ' ') == value
  {
    var r := ResponsiveFragments(breakpoint, value);
    var pieces := Split(value, ' ');
    var u := Unprefixed(breakpoint, r);
    forall i | 0 <= i < |r| ensures u[i] == pieces[i] {
      if pieces[i] != "" {
        assert r[i] == Prefix(breakpoint) + pieces[i];
        assert (Prefix(breakpoint) + pieces[i])[|Prefix(breakpoint)|..] == pieces[i];
      } else {
        assert r[i] == "";
      }
    }
    assert u == pieces;
    JoinSplit(value, ' ');
  }

  /** When nothing but the base is configured, the joined string is the base. */
  lemma BaseAlone(base: string, s: Settings, props: Props)
    requires s.variants == [] && s.responsive == [] && s.className == "" && s.classAttr == ""
    ensures Leaves(ClsxArgs(base, s, props)) == NonEmpty([base])
    ensures Compose(ClsxArgs(base, s, props)) == base
  {
    assert Generated(s, props) == [];
    KeptBase(ClsxArgs(base, s, props), base, Generated(s, props), s.className, s.classAttr);
  }

  /** Arguments whose only candidate that may be non-empty is `first` join to `first`. */
  lemma KeptBase(args: seq<ClassValue>, first: string, xs: seq<string>, a: string, b: string)
    requires Leaves(args) == NonEmpty([first] + xs + [a, b])
    requires xs == [] && a == "" && b == ""
    ensures Leaves(args) == NonEmpty([first])
    ensures Compose(args) == first
  {
    assert [first] + xs + [a, b] == [first] + [a, b];
    NonEmptyAppend([first], [a, b]);
    NonEmptyAppend([a], [b]);
    assert [a] + [b] == [a, b];
    NonEmptySingle(first);
    NonEmptySingle(a);
    NonEmptySingle(b);
  }

  /**
   * The call-site classes come last, `class` after `className`, so they win
   * every conflict the merger resolves by last occurrence; a non-empty base
   * comes first.
   */
  lemma CallSiteClassesLast(base: string, s: Settings, props: Props)
    ensures var t := Leaves(ClsxArgs(base, s, props));
      && (s.classAttr != "" ==> |t| >= 1 && t[|t| - 1] == s.classAttr)
      && (s.classAttr != "" && s.className != "" ==> |t| >= 2 && t[|t| - 2] == s.className)
      && (s.classAttr == "" && s.className != "" ==> |t| >= 1 && t[|t| - 1] == s.className)
      && (base != "" ==> |t| >= 1 && t[0] == base)
  {
    KeptFrame(ClsxArgs(base, s, props), base, Generated(s, props), s.className, s.classAttr);
  }

  /** `NonEmptyFrame` for arguments whose kept strings are the non-empty candidates. */
  lemma KeptFrame(args: seq<ClassValue>, first: string, xs: seq<string>, a: string, b: string)
    requires Leaves(args) == NonEmpty([first] + xs + [a, b])
    ensures var t := Leaves(args);
      && (b != "" ==> |t| >= 1 && t[|t| - 1] == b)
      && (a != "" && b != "" ==> |t| >= 2 && t[|t| - 2] == a)
      && (a != "" && b == "" ==> |t| >= 1 && t[|t| - 1] == a)
      && (first != "" ==> |t| >= 1 && t[0] == first)
  {
    NonEmptyFrame(first, xs, a, b);
  }

  /**
   * In the class string handed to the merger, the space-separated classes of
   * `class` come last, right after those of `className`, and those of a
   * non-empty base come first.
   */
  lemma CallSiteClassesEndString(base: string, s: Settings, props: Props)
    ensures var w := Split(Compose(ClsxArgs(base, s, props)), ' ');
      && (s.classAttr != "" ==> EndsWith(w, Split(s.classAttr, ' ')))
      && (s.classAttr != "" && s.className != "" ==>
            EndsWith(w, Split(s.className, ' ') + Split(s.classAttr, ' ')))
      && (s.classAttr == "" && s.className != "" ==> EndsWith(w, Split(s.className, ' ')))
      && (base != "" ==> StartsWith(w, Split(base, ' ')))
  {
    var args := ClsxArgs(base, s, props);
    KeptFrame(args, base, Generated(s, props), s.className, s.classAttr);
    SplitsOfFrame(args, base, s.className, s.classAttr);
  }

  /**
   * When the kept strings of `args` start with `first` and end with `a`, `b`
   * (as `CallSiteClassesLast` places them), the split pieces of the joined
   * string start and end with their pieces.
   */
  lemma SplitsOfFrame(args: seq<ClassValue>, first: string, a: string, b: string)
    requires var t := Leaves(args);
      && (b != "" ==> |t| >= 1 && t[|t| - 1] == b)
      && (a != "" && b != "" ==> |t| >= 2 && t[|t| - 2] == a)
      && (a != "" && b == "" ==> |t| >= 1 && t[|t| - 1] == a)
      && (first != "" ==> |t| >= 1 && t[0] == first)
    ensures var w := Split(Compose(args), ' ');
      && (b != "" ==> EndsWith(w, Split(b, ' ')))
      && (a != "" && b != "" ==> EndsWith(w, Split(a, ' ') + Split(b, ' ')))
      && (a != "" && b == "" ==> EndsWith(w, Split(a, ' ')))
      && (first != "" ==> StartsWith(w, Split(first, ' ')))
  {
    var t := Leaves(args);
    if |t| > 0 {
      SplitsOfEnds(t, first, a, b);
    }
  }

  /** `SplitsOfFrame` for the kept strings themselves. */
  lemma SplitsOfEnds(t: seq<string>, first: string, a: string, b: string)
    requires |t| > 0
    requires b != "" ==> t[|t| - 1] == b
    requires a != "" && b != "" ==> |t| >= 2 && t[|t| - 2] == a
    requires a != "" && b == "" ==> t[|t| - 1] == a
    requires first != "" ==> t[0] == first
    ensures b != "" ==> EndsWith(SplitAll(t, ' '), Split(b, ' '))
    ensures a != "" && b != "" ==> EndsWith(SplitAll(t, ' '), Split(a, ' ') + Split(b, ' '))
    ensures a != "" && b == "" ==> EndsWith(SplitAll(t, ' '), Split(a, ' '))
    ensures first != "" ==> StartsWith(SplitAll(t, ' '), Split(first, ' '))
  {
    if b != "" && a != "" {
      SplitsOfLastTwo(t, ' ');
    }
    if b != "" || a != "" {
      SplitsOfLast(t, ' ');
    }
    SplitsOfFirst(t, ' ');
  }

  /** `w` ends with `c`. */
  predicate EndsWith(w: seq<string>, c: seq<string>)
  {
    |c| <= |w| && w[|w| - |c|..] == c
  }

  /** `w` starts with `c`. */
  predicate StartsWith(w: seq<string>, c: seq<string>)
  {
    |c| <= |w| && w[..|c|] == c
  }

  /** The split pieces of a list start with the pieces of its first string. */
  lemma SplitsOfFirst(t: seq<string>, sep: char)
    requires |t| >= 1
    ensures StartsWith(SplitAll(t, sep), Split(t[0], sep))
  {
  }

  /** The split pieces of a list end with the pieces of its last string. */
  lemma SplitsOfLast(t: seq<string>, sep: char)
    requires |t| >= 1
    ensures EndsWith(SplitAll(t, sep), Split(t[|t| - 1], sep))
  {
    var n := |t|;
    assert t == t[..n - 1] + [t[n - 1]];
    SplitAllAppend(t[..n - 1], [t[n - 1]], sep);
    assert SplitAll([t[n - 1]], sep) == Split(t[n - 1], sep) by { assert [t[n - 1]][1..] == []; }
  }

  /** The split pieces of a list end with the pieces of its last two strings. */
  lemma SplitsOfLastTwo(t: seq<string>, sep: char)
    requires |t| >= 2
    ensures EndsWith(SplitAll(t, sep), Split(t[|t| - 2], sep) + Split(t[|t| - 1], sep))
  {
    var n := |t|;
    assert t == t[..n - 2] + [t[n - 2], t[n - 1]];
    SplitAllAppend(t[..n - 2], [t[n - 2], t[n - 1]], sep);
    assert SplitAll([t[n - 2], t[n - 1]], sep) == Split(t[n - 2], sep) + Split(t[n - 1], sep) by {
      assert [t[n - 2], t[n - 1]][1..] == [t[n - 1]];
      assert [t[n - 1]][1..] == [];
      assert SplitAll([t[n - 1]], sep) == Split(t[n - 1], sep) + SplitAll([], sep);
    }
  }

  /**
   * With no configuration, or one whose `variants`, `responsive`, `className`
   * and `class` are absent or empty, only the base reaches the joiner and the
   * resolver returns `merge(base)`, whatever `defaultVariants` holds.
   */
  lemma EmptyConfigYieldsBase(merge: string -> string, base: string, raw: Option<VariantConfig>, props: Props)
    requires raw == None
      || (raw.Some? && GetOr(raw.value.variants, []) == [] && GetOr(raw.value.responsive, []) == []
          && GetOr(raw.value.className, "") == "" && GetOr(raw.value.classAttr, "") == "")
    ensures Leaves(ClsxArgs(base, Destructure(raw), props)) == NonEmpty([base])
    ensures Resolve(merge, base, Literal(raw), props) == merge(base)
  {
    BaseAlone(base, Destructure(raw), props);
  }

  /** A configuration function is called with the very option set the variants are looked up in. */
  lemma ComputedConfigSeesProps(merge: string -> string, base: string, f: Props -> Option<VariantConfig>, props: Props)
    ensures Resolve(merge, base, Computed(f), props) == Resolve(merge, base, Literal(f(props)), props)
  {
  }

  /** As written, calling a resolver made without a configuration throws a TypeError. */
  lemma OmittedConfigThrows(merge: string -> string, base: string, props: Props)
    ensures ResolveAsWritten(merge, base, Literal(None), props) == ThrowsTypeError
  {
  }
}
