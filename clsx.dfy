/**
 * The class-name joiner `clsx`, restricted to the arguments the resolver
 * passes it: strings and (nested) arrays of strings. Arrays are flattened,
 * empty strings dropped and the rest joined with one space, in order.
 */
module Clsx {
  import opened Strings

  /** A `clsx` argument: a string or an array of arguments. */
  datatype ClassValue = Text(s: string) | Items(items: seq<ClassValue>)

  /** The strings of `xs` that are not empty, in order. */
  function NonEmpty(xs: seq<string>): (r: seq<string>)
    ensures |r| <= |xs|
    ensures forall i :: 0 <= i < |r| ==> r[i] != "" && r[i] in xs
    ensures forall x :: x in xs && x != "" ==> x in r
    decreases |xs|
  {
    if |xs| == 0 then []
    else (if xs[0] == "" then [] else [xs[0]]) + NonEmpty(xs[1..])
  }

  /** The non-empty strings of a list of arguments, depth first, left to right. */
  function Leaves(args: seq<ClassValue>): (r: seq<string>)
    ensures forall i :: 0 <= i < |r| ==> r[i] != ""
    decreases args
  {
    if |args| == 0 then []
    else
      assert args[0] in args;
      var first := match args[0]
        case Text(s) => if s == "" then [] else [s]
        case Items(items) => Leaves(items);
      first + Leaves(args[1..])
  }

  /**
   * `clsx(...args)`: the non-empty strings joined with single spaces. Splitting
   * the result on spaces gives the split pieces of each kept string, in order;
   * when none of them contains a space, that is the kept strings themselves.
   */
  function Compose(args: seq<ClassValue>): (r: string)
    ensures Leaves(args) == [] ==> r == ""
    ensures |Leaves(args)| > 0 ==> Split(r, ' ') == SplitAll(Leaves(args), ' ')
    ensures |Leaves(args)| > 0 && (forall i :: 0 <= i < |Leaves(args)| ==> ' ' !in Leaves(args)[i])
      ==> Split(r, ' ') == Leaves(args)
  {
    var kept := Leaves(args);
    if |kept| > 0 then
      SplitJoinAll(kept, ' ');
      SplitAllWhole(kept, ' ');
      Join(kept, ' ')
    else
      Join(kept, ' ')
  }

  /** Each string as a `Text` argument. */
  function Texts(xs: seq<string>): (r: seq<ClassValue>)
    ensures |r| == |xs|
    ensures forall i :: 0 <= i < |xs| ==> r[i] == Text(xs[i])
  {
    seq(|xs|, i requires 0 <= i < |xs| => Text(xs[i]))
  }

  /** Each list of strings as an array argument. */
  function Lists(xss: seq<seq<string>>): (r: seq<ClassValue>)
    ensures |r| == |xss|
    ensures forall i :: 0 <= i < |xss| ==> r[i] == Items(Texts(xss[i]))
  {
    seq(|xss|, i requires 0 <= i < |xss| => Items(Texts(xss[i])))
  }

  /** All the lists, concatenated in order. */
  function Concat(xss: seq<seq<string>>): (r: seq<string>)
    decreases |xss|
  {
    if |xss| == 0 then [] else xss[0] + Concat(xss[1..])
  }

  lemma {:induction false} NonEmptyAppend(xs: seq<string>, ys: seq<string>)
    ensures NonEmpty(xs + ys) == NonEmpty(xs) + NonEmpty(ys)
    decreases |xs|
  {
    if |xs| > 0 {
      assert (xs + ys)[0] == xs[0];
      assert (xs + ys)[1..] == xs[1..] + ys;
      NonEmptyAppend(xs[1..], ys);
      calc {
        NonEmpty(xs + ys);
        (if xs[0] == "" then [] else [xs[0]]) + NonEmpty(xs[1..] + ys);
        (if xs[0] == "" then [] else [xs[0]]) + (NonEmpty(xs[1..]) + NonEmpty(ys));
      }
    } else {
      assert xs + ys == ys;
    }
  }

  /** Flattening distributes over concatenation of the argument lists. */
  lemma {:induction false} LeavesAppend(a: seq<ClassValue>, b: seq<ClassValue>)
    ensures Leaves(a + b) == Leaves(a) + Leaves(b)
    decreases |a|
  {
    if |a| == 0 {
      assert a + b == b;
    } else {
      assert (a + b)[0] == a[0];
      assert (a + b)[1..] == a[1..] + b;
      LeavesAppend(a[1..], b);
    }
  }

  /** Strings passed one by one contribute exactly their non-empty members, in order. */
  lemma {:induction false} LeavesOfTexts(xs: seq<string>)
    ensures Leaves(Texts(xs)) == NonEmpty(xs)
    decreases |xs|
  {
    if |xs| > 0 {
      assert Texts(xs)[1..] == Texts(xs[1..]);
      LeavesOfTexts(xs[1..]);
    }
  }

  /** Arrays of strings contribute the non-empty strings of all arrays, in order. */
  lemma {:induction false} LeavesOfLists(xss: seq<seq<string>>)
    ensures Leaves(Lists(xss)) == NonEmpty(Concat(xss))
    decreases |xss|
  {
    if |xss| > 0 {
      assert Lists(xss)[1..] == Lists(xss[1..]);
      LeavesOfLists(xss[1..]);
      LeavesOfTexts(xss[0]);
      NonEmptyAppend(xss[0], Concat(xss[1..]));
    }
  }

  /** A single string argument contributes itself unless it is empty. */
  lemma LeavesOfSingleText(s: string)
    ensures Leaves([Text(s)]) == NonEmpty([s])
  {
    assert [Text(s)][1..] == [];
  }

  /** A single array argument contributes what its elements contribute. */
  lemma LeavesOfSingleItems(items: seq<ClassValue>)
    ensures Leaves([Items(items)]) == Leaves(items)
  {
    assert [Items(items)][1..] == [];
  }

  /**
   * The resolver's five arguments, a string, an array of strings, an array of
   * string arrays and two strings, contribute their non-empty strings in
   * argument order.
   */
  lemma LeavesOfFrame(first: string, xs: seq<string>, xss: seq<seq<string>>, a: string, b: string)
    ensures Leaves([Text(first), Items(Texts(xs)), Items(Lists(xss)), Text(a), Text(b)])
         == NonEmpty([first] + (xs + Concat(xss)) + [a, b])
  {
    var tail := [a, b];
    calc {
      Leaves([Text(first), Items(Texts(xs)), Items(Lists(xss)), Text(a), Text(b)]);
      { assert [Text(first), Items(Texts(xs)), Items(Lists(xss)), Text(a), Text(b)]
            == [Text(first)] + ([Items(Texts(xs))] + ([Items(Lists(xss))] + Texts(tail))); }
      Leaves([Text(first)] + ([Items(Texts(xs))] + ([Items(Lists(xss))] + Texts(tail))));
      { LeavesAppend([Text(first)], [Items(Texts(xs))] + ([Items(Lists(xss))] + Texts(tail)));
        LeavesAppend([Items(Texts(xs))], [Items(Lists(xss))] + Texts(tail));
        LeavesAppend([Items(Lists(xss))], Texts(tail)); }
      Leaves([Text(first)]) + (Leaves([Items(Texts(xs))]) + (Leaves([Items(Lists(xss))]) + Leaves(Texts(tail))));
      { LeavesOfSingleText(first); LeavesOfSingleItems(Texts(xs)); LeavesOfSingleItems(Lists(xss));
        LeavesOfTexts(xs); LeavesOfLists(xss); LeavesOfTexts(tail); }
      NonEmpty([first]) + (NonEmpty(xs) + (NonEmpty(Concat(xss)) + NonEmpty(tail)));
      { NonEmptyAppend(Concat(xss), tail); NonEmptyAppend(xs, Concat(xss) + tail);
        NonEmptyAppend([first], xs + (Concat(xss) + tail)); }
      NonEmpty([first] + (xs + (Concat(xss) + tail)));
      { assert [first] + (xs + (Concat(xss) + tail)) == [first] + (xs + Concat(xss)) + [a, b]; }
      NonEmpty([first] + (xs + Concat(xss)) + [a, b]);
    }
  }

  /**
   * Of the candidates `[first] + xs + [a, b]`, a non-empty `first` is kept
   * first and non-empty `a`, `b` are kept last, in that order.
   */
  lemma NonEmptyFrame(first: string, xs: seq<string>, a: string, b: string)
    ensures var t := NonEmpty([first] + xs + [a, b]);
      && (b != "" ==> |t| >= 1 && t[|t| - 1] == b)
      && (a != "" && b != "" ==> |t| >= 2 && t[|t| - 2] == a)
      && (a != "" && b == "" ==> |t| >= 1 && t[|t| - 1] == a)
      && (first != "" ==> |t| >= 1 && t[0] == first)
  {
    NonEmptyAppend([first] + xs, [a, b]);
    NonEmptyAppend([first], xs);
    NonEmptyAppend([a], [b]);
    assert [a] + [b] == [a, b];
    NonEmptySingle(first);
    NonEmptySingle(a);
    NonEmptySingle(b);
  }

  /** A single string is kept exactly when it is not empty. */
  lemma NonEmptySingle(x: string)
    ensures NonEmpty([x]) == if x == "" then [] else [x]
  {
    assert [x][1..] == [];
  }
}
