/**
 * Concrete configurations and option sets, and the fragments the resolver
 * computes for them.
 */
module ClassFlexScenarios {
  import opened Js
  import opened Strings
  import opened Clsx
  import opened ClassFlex

  const Size: Entries<map<string, string>> := [("size", map["sm" := "text-sm", "lg" := "text-lg"])]
  const Level: Entries<map<string, string>> := [("level", map["0" := "opacity-0", "1" := "opacity-100"])]

  /** Without a caller value the default option is used; a caller value replaces it. */
  lemma DefaultThenOverride()
    ensures VariantFragments(Size, map["size" := Str("sm")], map[]) == ["text-sm"]
    ensures VariantFragments(Size, map["size" := Str("sm")], map["size" := Str("lg")]) == ["text-lg"]
  {
    DefaultWhenFalsy(Size[0].1, Undefined, Str("sm"));
    ExplicitValueWins(Size[0].1, Str("lg"), Str("sm"));
  }

  /** The number 0 selects option "0" even though a default exists. */
  lemma ZeroIsAnOption()
    ensures VariantFragments(Level, map["level" := Str("1")], map["level" := Num(0)]) == ["opacity-0"]
  {
    FalseAndZeroSelect(Level[0].1, Str("1"));
  }

  /** An unknown option value contributes nothing. */
  lemma UnknownValueDropped()
    ensures VariantFragments(Level, map[], map["level" := Str("9")]) == [""]
  {
    ExplicitValueWins(Level[0].1, Str("9"), Undefined);
  }

  /** Null as both caller value and default opts out, whatever the options are. */
  lemma NullOptOut(options: map<string, string>)
    ensures VariantFragments([("tone", options)], map["tone" := Null], map["tone" := Null]) == [""]
  {
  }

  /** A false caller value selects option "false" rather than the default. */
  lemma FalseIsAnOption()
    ensures VariantFragments([("open", map["false" := "hidden", "true" := "block"])],
                             map["open" := Bool(true)], map["open" := Bool(false)]) == ["hidden"]
  {
    FalseAndZeroSelect(map["false" := "hidden", "true" := "block"], Bool(true));
  }

  /** Each space-separated token of a breakpoint gets the breakpoint prefix ("md", "flex-row gap-2"). */
  lemma BreakpointTokens(bp: string, a: string, b: string)
    requires bp != "" && a != "" && b != "" && ' ' !in a && ' ' !in b
    ensures ResponsiveFragments(bp, a + " " + b) == [bp + ":" + a, bp + ":" + b]
  {
    var pieces := [a, b];
    assert Join(pieces, ' ') == a + " " + b by {
      assert pieces[1..] == [b];
    }
    SplitJoin(pieces, ' ');
  }

  /** A double space leaves an empty piece, which becomes an empty fragment. */
  lemma DoubleSpaceLeavesEmptyFragment(bp: string, a: string, b: string)
    requires bp != "" && a != "" && b != "" && ' ' !in a && ' ' !in b
    ensures ResponsiveFragments(bp, a + "  " + b) == [bp + ":" + a, "", bp + ":" + b]
  {
    var pieces := [a, "", b];
    assert Join(pieces, ' ') == a + "  " + b by {
      assert pieces[1..] == ["", b];
      assert pieces[1..][1..] == [b];
      assert Join(["", b], ' ') == [' '] + b;
      assert a + "  " + b == a + [' '] + ([' '] + b);
    }
    SplitJoin(pieces, ' ');
  }

  /** `className` reaches the merger after the base, so a conflicting utility there wins. */
  lemma ClassNameAfterBase(merge: string -> string)
    ensures Resolve(merge, "p-2", Literal(Some(VariantConfig(None, None, None, Some("p-4"), None))), map[])
         == merge("p-2 p-4")
  {
    var s := Destructure(Some(VariantConfig(None, None, None, Some("p-4"), None)));
    var candidates := ["p-2", "p-4", ""];
    assert PreMerge("p-2", s, map[]) == candidates;
    assert NonEmpty(candidates) == ["p-2", "p-4"] by {
      assert candidates[1..] == ["p-4", ""];
      assert candidates[1..][1..] == [""];
      assert candidates[1..][1..][1..] == [];
    }
    assert Join(["p-2", "p-4"], ' ') == "p-2 p-4" by {
      assert ["p-2", "p-4"][1..] == ["p-4"];
    }
  }
}
