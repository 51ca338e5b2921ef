/**
 * What the comma-separated lists of the grammar read: the elements of an
 * array literal and the arguments of an attribute.  A list is described by
 * the token positions its items start at: every item is the value (or
 * argument) read at its position, a comma follows every item but the last,
 * the next item starts just after that comma, and no comma follows the last.
 * The lemmas show that a successful parse reads exactly such a list, and
 * that such a list is always what the parse returns.
 */
module GrammarLists {
  import opened Tokens
  import opened Ast
  import opened Grammar

  // ---------------------------------------------------------------------
  // Array elements

  /**
   * `vs` are the values read from positions `ps`: the first value is the one
   * at `ps[0]`; a comma follows it and the rest are read from just after
   * that comma, or it is the last value, ending at `n` with no comma after it.
   */
  ghost predicate ValueTrace(ts: seq<Token>, ps: seq<nat>, vs: seq<ValueNode>, n: nat)
    requires WellFormed(ts)
    decreases |ps|
  {
    && |ps| == |vs| >= 1 && ps[0] < |ts|
    && var r := ParseValueAt(ts, ps[0]);
    && r.Success? && r.value == vs[0]
    && if |ps| == 1 then r.next == n && !Check(ts, n, Comma)
       else Check(ts, r.next, Comma) && ps[1] == r.next + 1 && ValueTrace(ts, ps[1..], vs[1..], n)
  }

  /** `vs` is a comma-joined list of values read from `i`, the last one ending at `n`. */
  ghost predicate ValuesFrom(ts: seq<Token>, i: nat, vs: seq<ValueNode>, n: nat)
    requires WellFormed(ts)
  {
    exists ps :: |ps| >= 1 && ps[0] == i && ValueTrace(ts, ps, vs, n)
  }

  /** The value at `i`, followed by a comma, in front of a trace read from just after that comma. */
  lemma ValueTraceCons(ts: seq<Token>, i: nat, ps: seq<nat>, rest: seq<ValueNode>, n: nat)
    requires WellFormed(ts) && i < |ts| && ParseValueAt(ts, i).Success?
    requires Check(ts, ParseValueAt(ts, i).next, Comma)
    requires |ps| >= 1 && ps[0] == ParseValueAt(ts, i).next + 1 && ValueTrace(ts, ps, rest, n)
    ensures ValueTrace(ts, [i] + ps, [ParseValueAt(ts, i).value] + rest, n)
  {
    assert ([i] + ps)[1..] == ps && ([ParseValueAt(ts, i).value] + rest)[1..] == rest;
  }

  /** A list read from just after the comma that follows the item at `i` extends to a list read from `i`. */
  lemma ValuesFromCons(ts: seq<Token>, i: nat, rest: seq<ValueNode>, n: nat)
    requires WellFormed(ts) && i < |ts| && ParseValueAt(ts, i).Success?
    requires Check(ts, ParseValueAt(ts, i).next, Comma)
    requires ValuesFrom(ts, ParseValueAt(ts, i).next + 1, rest, n)
    ensures ValuesFrom(ts, i, [ParseValueAt(ts, i).value] + rest, n)
  {
    var ps :| |ps| >= 1 && ps[0] == ParseValueAt(ts, i).next + 1 && ValueTrace(ts, ps, rest, n);
    ValueTraceCons(ts, i, ps, rest, n);
    var ps' := [i] + ps;
    assert |ps'| >= 1 && ps'[0] == i && ValueTrace(ts, ps', [ParseValueAt(ts, i).value] + rest, n);
  }

  /** The value at `i` with no comma after it is a list of one value. */
  lemma ValueLast(ts: seq<Token>, i: nat)
    requires WellFormed(ts) && i < |ts| && ParseValueAt(ts, i).Success?
    requires !Check(ts, ParseValueAt(ts, i).next, Comma)
    ensures ValuesFrom(ts, i, [ParseValueAt(ts, i).value], ParseValueAt(ts, i).next)
  {
    assert ValueTrace(ts, [i], [ParseValueAt(ts, i).value], ParseValueAt(ts, i).next) && [i][0] == i;
  }

  /** One turn of ElementsAt: the value at `i`, then either the values after a comma or the end of the list. */
  lemma ElementsStep(ts: seq<Token>, i: nat, acc: seq<ValueNode>)
    requires WellFormed(ts) && i < |ts|
    ensures ParseValueAt(ts, i).Failure? ==> ElementsAt(ts, i, acc).Failure?
    ensures ParseValueAt(ts, i).Success? ==>
      var (v, j) := (ParseValueAt(ts, i).value, ParseValueAt(ts, i).next);
      ElementsAt(ts, i, acc) == if Check(ts, j, Comma) then ElementsAt(ts, j + 1, acc + [v]) else Success(acc + [v], j)
  {
  }

  /** What a sequence holds after a prefix extended by one element. */
  lemma AfterPrefix<T>(prefix: seq<T>, x: T, s: seq<T>)
    requires prefix + [x] <= s
    ensures s[|prefix|..] == [x] + s[|prefix| + 1..]
  {
    assert s[|prefix|] == (prefix + [x])[|prefix|];
  }

  /** When ElementsAt from `i` succeeds, what it adds to `acc` is a comma-joined list of values starting at `i`. */
  ghost predicate ElementsItems(ts: seq<Token>, i: nat, acc: seq<ValueNode>)
    requires WellFormed(ts) && i < |ts|
  {
    var r := ElementsAt(ts, i, acc);
    r.Success? ==> ValuesFrom(ts, i, r.value[|acc|..], r.next)
  }

  /** The value at `i` without a comma after it ends the list. */
  lemma ElementsLastItems(ts: seq<Token>, i: nat, acc: seq<ValueNode>)
    requires WellFormed(ts) && i < |ts| && ParseValueAt(ts, i).Success?
    requires !Check(ts, ParseValueAt(ts, i).next, Comma)
    ensures ElementsItems(ts, i, acc)
  {
    var v := ParseValueAt(ts, i).value;
    ElementsStep(ts, i, acc);
    assert (acc + [v])[|acc|..] == [v];
    ValueLast(ts, i);
  }

  /** The value at `i` with a comma after it comes first in front of the values read after the comma. */
  lemma ElementsMoreItems(ts: seq<Token>, i: nat, acc: seq<ValueNode>)
    requires WellFormed(ts) && i < |ts| && ParseValueAt(ts, i).Success?
    requires Check(ts, ParseValueAt(ts, i).next, Comma)
    requires ElementsItems(ts, ParseValueAt(ts, i).next + 1, acc + [ParseValueAt(ts, i).value])
    ensures ElementsItems(ts, i, acc)
  {
    var v := ParseValueAt(ts, i).value;
    ElementsStep(ts, i, acc);
    var r := ElementsAt(ts, i, acc);
    if r.Success? {
      assert |acc + [v]| == |acc| + 1;
      AfterPrefix(acc, v, r.value);
      ValuesFromCons(ts, i, r.value[|acc| + 1..], r.next);
    }
  }

  /** A failing item makes the whole list fail. */
  lemma ElementsFailItems(ts: seq<Token>, i: nat, acc: seq<ValueNode>)
    requires WellFormed(ts) && i < |ts| && ParseValueAt(ts, i).Failure?
    ensures ElementsItems(ts, i, acc)
  {
    ElementsStep(ts, i, acc);
  }

  /** Every list read from `i` on satisfies ElementsItems, by induction along the list. */
  lemma {:induction false} ElementsItemsHold(ts: seq<Token>, i: nat, acc: seq<ValueNode>)
    requires WellFormed(ts) && i < |ts|
    ensures ElementsItems(ts, i, acc)
    decreases |ts| - i
  {
    var p := ParseValueAt(ts, i);
    if p.Failure? {
      ElementsFailItems(ts, i, acc);
    } else if Check(ts, p.next, Comma) {
      ElementsItemsHold(ts, p.next + 1, acc + [p.value]);
      ElementsMoreItems(ts, i, acc);
    } else {
      ElementsLastItems(ts, i, acc);
    }
  }

  /** The elements a successful ElementsAt adds to `acc` are a comma-joined list of values starting at `i`. */
  lemma ElementsRead(ts: seq<Token>, i: nat, acc: seq<ValueNode>)
    requires WellFormed(ts) && i < |ts|
    ensures var r := ElementsAt(ts, i, acc);
      r.Success? ==> ValuesFrom(ts, i, r.value[|acc|..], r.next)
  {
    ElementsItemsHold(ts, i, acc);
  }

  /** Conversely, a comma-joined list of values starting at `i` is what ElementsAt adds to `acc`. */
  lemma {:induction false} ElementsOfTrace(ts: seq<Token>, ps: seq<nat>, vs: seq<ValueNode>, n: nat, acc: seq<ValueNode>)
    requires WellFormed(ts) && ValueTrace(ts, ps, vs, n)
    ensures ElementsAt(ts, ps[0], acc) == Success(acc + vs, n)
    decreases |ps|
  {
    if |ps| > 1 {
      ValueTraceHead(ts, ps, vs, n);
      ElementsOfTraceStep(ts, ps, vs, n, acc);
      ElementsOfTrace(ts, ps[1..], vs[1..], n, acc + [vs[0]]);
      HeadTail(acc, vs);
    } else {
      ElementsOfTraceLast(ts, ps, vs, n, acc);
    }
  }

  /** A list of one value is what ElementsAt adds to `acc`. */
  lemma ElementsOfTraceLast(ts: seq<Token>, ps: seq<nat>, vs: seq<ValueNode>, n: nat, acc: seq<ValueNode>)
    requires WellFormed(ts) && ValueTrace(ts, ps, vs, n) && |ps| == 1
    ensures ElementsAt(ts, ps[0], acc) == Success(acc + vs, n)
  {
    ElementsStep(ts, ps[0], acc);
    assert vs == [vs[0]];
  }

  /** The slice from the start is the whole sequence. */
  lemma WholeSlice<T>(s: seq<T>)
    ensures s[0..] == s
  {
  }

  /** Appending a non-empty sequence is appending its head, then its tail. */
  lemma HeadTail<T>(acc: seq<T>, vs: seq<T>)
    requires |vs| >= 1
    ensures acc + [vs[0]] + vs[1..] == acc + vs
  {
  }

  /** The first turn of ElementsAt along a list of more than one value. */
  lemma ElementsOfTraceStep(ts: seq<Token>, ps: seq<nat>, vs: seq<ValueNode>, n: nat, acc: seq<ValueNode>)
    requires WellFormed(ts) && ValueTrace(ts, ps, vs, n) && |ps| > 1
    ensures ElementsAt(ts, ps[0], acc) == ElementsAt(ts, ps[1..][0], acc + [vs[0]])
  {
    ValueTraceHead(ts, ps, vs, n);
    ElementsMore(ts, ps[0], acc, ps[1..][0], acc + [vs[0]]);
  }

  /** The value at `i` with a comma after it: ElementsAt goes on after the comma. */
  lemma ElementsMore(ts: seq<Token>, i: nat, acc: seq<ValueNode>, k: nat, acc': seq<ValueNode>)
    requires WellFormed(ts) && i < |ts| && ParseValueAt(ts, i).Success?
    requires Check(ts, ParseValueAt(ts, i).next, Comma)
    requires k == ParseValueAt(ts, i).next + 1 && acc' == acc + [ParseValueAt(ts, i).value]
    ensures k < |ts| && ElementsAt(ts, i, acc) == ElementsAt(ts, k, acc')
  {
    ElementsStep(ts, i, acc);
  }

  /** What a trace of more than one value says about its first one. */
  lemma ValueTraceHead(ts: seq<Token>, ps: seq<nat>, vs: seq<ValueNode>, n: nat)
    requires WellFormed(ts) && ValueTrace(ts, ps, vs, n) && |ps| > 1
    ensures var r := ParseValueAt(ts, ps[0]);
      r.Success? && r.value == vs[0] && Check(ts, r.next, Comma) && ps[1..][0] == r.next + 1
    ensures ValueTrace(ts, ps[1..], vs[1..], n)
  {
  }

  /**
   * A successful value at a `[` is an array located at the `[` and ending
   * after a `]`: empty when the `]` comes right away, otherwise holding the
   * comma-joined values read after the `[`.
   */
  lemma ArrayContents(ts: seq<Token>, i: nat)
    requires WellFormed(ts) && i < |ts| && ts[i].kind == BracketLeft
    ensures var r := ParseValueAt(ts, i);
      r.Success? ==> r.value.ArrayValue? && r.value.location == ts[i].position && ts[r.next - 1].kind == BracketRight
    ensures var r := ParseValueAt(ts, i);
      r.Success? && Check(ts, i + 1, BracketRight) ==> r.value.elements == [] && r.next == i + 2
    ensures var r := ParseValueAt(ts, i);
      r.Success? && !Check(ts, i + 1, BracketRight) ==>
        ValuesFrom(ts, i + 1, r.value.elements, r.next - 1)
  {
    ValueAtBracket(ts, i);
    ArrayAtContents(ts, i + 1, ts[i].position);
  }

  /** The rest of an array: empty when `]` comes right away, otherwise the comma-joined values read from `i`. */
  lemma ArrayAtContents(ts: seq<Token>, i: nat, location: SourcePosition)
    requires WellFormed(ts) && i < |ts|
    ensures var r := ArrayAt(ts, i, location);
      r.Success? && Check(ts, i, BracketRight) ==> r.value.elements == [] && r.next == i + 1
    ensures var r := ArrayAt(ts, i, location);
      r.Success? && !Check(ts, i, BracketRight) ==> ValuesFrom(ts, i, r.value.elements, r.next - 1)
  {
    if Check(ts, i, BracketRight) {
      EmptyArray(ts, i, location);
    } else if ArrayAt(ts, i, location).Success? {
      ArrayOfElements(ts, i, location);
      ElementsFromStart(ts, i);
    }
  }

  /** The value at a `[` is the rest of the array after it. */
  lemma ValueAtBracket(ts: seq<Token>, i: nat)
    requires WellFormed(ts) && i < |ts| && ts[i].kind == BracketLeft
    ensures i + 1 < |ts| && ParseValueAt(ts, i) == ArrayAt(ts, i + 1, ts[i].position)
  {
  }

  /** An array closed right away is empty and ends after its `]`. */
  lemma EmptyArray(ts: seq<Token>, i: nat, location: SourcePosition)
    requires WellFormed(ts) && i < |ts| && Check(ts, i, BracketRight)
    ensures ArrayAt(ts, i, location).Success?
    ensures ArrayAt(ts, i, location).value.elements == [] && ArrayAt(ts, i, location).next == i + 1
  {
  }

  /** A non-empty array holds the elements read after its `[`, and its `]` follows them. */
  lemma ArrayOfElements(ts: seq<Token>, i: nat, location: SourcePosition)
    requires WellFormed(ts) && i < |ts| && ArrayAt(ts, i, location).Success? && !Check(ts, i, BracketRight)
    ensures ElementsAt(ts, i, []).Success?
    ensures ElementsAt(ts, i, []).value == ArrayAt(ts, i, location).value.elements
    ensures ElementsAt(ts, i, []).next == ArrayAt(ts, i, location).next - 1
  {
  }

  /** The elements a successful ElementsAt collects from nothing are a comma-joined list of values starting at `i`. */
  lemma ElementsFromStart(ts: seq<Token>, i: nat)
    requires WellFormed(ts) && i < |ts| && ElementsAt(ts, i, []).Success?
    ensures ValuesFrom(ts, i, ElementsAt(ts, i, []).value, ElementsAt(ts, i, []).next)
  {
    ElementsRead(ts, i, []);
    WholeSlice(ElementsAt(ts, i, []).value);
  }

  // ---------------------------------------------------------------------
  // Attribute arguments

  /**
   * `args` are the arguments read from positions `ps`: the first argument is
   * the one at `ps[0]`; a comma follows it and the rest are read from just
   * after that comma, or it is the last argument, ending at `n` with no comma
   * after it.
   */
  ghost predicate ArgumentTrace(ts: seq<Token>, ps: seq<nat>, args: seq<ArgumentNode>, n: nat)
    requires WellFormed(ts)
    decreases |ps|
  {
    && |ps| == |args| >= 1 && ps[0] < |ts|
    && var r := ParseArgumentAt(ts, ps[0]);
    && r.Success? && r.value == args[0]
    && if |ps| == 1 then r.next == n && !Check(ts, n, Comma)
       else Check(ts, r.next, Comma) && ps[1] == r.next + 1 && ArgumentTrace(ts, ps[1..], args[1..], n)
  }

  /** `args` is a comma-joined list of arguments read from `i`, the last one ending at `n`. */
  ghost predicate ArgumentsFrom(ts: seq<Token>, i: nat, args: seq<ArgumentNode>, n: nat)
    requires WellFormed(ts)
  {
    exists ps :: |ps| >= 1 && ps[0] == i && ArgumentTrace(ts, ps, args, n)
  }

  /** A list read from just after the comma that follows the item at `i` extends to a list read from `i`. */
  lemma ArgumentsFromCons(ts: seq<Token>, i: nat, rest: seq<ArgumentNode>, n: nat)
    requires WellFormed(ts) && i < |ts| && ParseArgumentAt(ts, i).Success?
    requires Check(ts, ParseArgumentAt(ts, i).next, Comma)
    requires ArgumentsFrom(ts, ParseArgumentAt(ts, i).next + 1, rest, n)
    ensures ArgumentsFrom(ts, i, [ParseArgumentAt(ts, i).value] + rest, n)
  {
    var ps :| |ps| >= 1 && ps[0] == ParseArgumentAt(ts, i).next + 1 && ArgumentTrace(ts, ps, rest, n);
    ArgumentTraceCons(ts, i, ps, rest, n);
    var ps' := [i] + ps;
    assert |ps'| >= 1 && ps'[0] == i && ArgumentTrace(ts, ps', [ParseArgumentAt(ts, i).value] + rest, n);
  }

  /** The argument at `i`, followed by a comma, in front of a trace read from just after that comma. */
  lemma ArgumentTraceCons(ts: seq<Token>, i: nat, ps: seq<nat>, rest: seq<ArgumentNode>, n: nat)
    requires WellFormed(ts) && i < |ts| && ParseArgumentAt(ts, i).Success?
    requires Check(ts, ParseArgumentAt(ts, i).next, Comma)
    requires |ps| >= 1 && ps[0] == ParseArgumentAt(ts, i).next + 1 && ArgumentTrace(ts, ps, rest, n)
    ensures ArgumentTrace(ts, [i] + ps, [ParseArgumentAt(ts, i).value] + rest, n)
  {
    assert ([i] + ps)[1..] == ps && ([ParseArgumentAt(ts, i).value] + rest)[1..] == rest;
  }

  /** The argument at `i` with no comma after it is a list of one argument. */
  lemma ArgumentLast(ts: seq<Token>, i: nat)
    requires WellFormed(ts) && i < |ts| && ParseArgumentAt(ts, i).Success?
    requires !Check(ts, ParseArgumentAt(ts, i).next, Comma)
    ensures ArgumentsFrom(ts, i, [ParseArgumentAt(ts, i).value], ParseArgumentAt(ts, i).next)
  {
    assert ArgumentTrace(ts, [i], [ParseArgumentAt(ts, i).value], ParseArgumentAt(ts, i).next) && [i][0] == i;
  }

  /** When ArgumentsAt from `i` succeeds, what it adds to `acc` is a comma-joined list of arguments starting at `i`. */
  ghost predicate ArgumentsItems(ts: seq<Token>, i: nat, acc: seq<ArgumentNode>)
    requires WellFormed(ts) && i < |ts|
  {
    var r := ArgumentsAt(ts, i, acc);
    r.Success? ==> ArgumentsFrom(ts, i, r.value[|acc|..], r.next)
  }

  /** The argument at `i` without a comma after it ends the list. */
  lemma ArgumentsLastItems(ts: seq<Token>, i: nat, acc: seq<ArgumentNode>)
    requires WellFormed(ts) && i < |ts| && ParseArgumentAt(ts, i).Success?
    requires !Check(ts, ParseArgumentAt(ts, i).next, Comma)
    ensures ArgumentsItems(ts, i, acc)
  {
    var a := ParseArgumentAt(ts, i).value;
    ArgumentsStep(ts, i, acc);
    assert (acc + [a])[|acc|..] == [a];
    ArgumentLast(ts, i);
  }

  /** The argument at `i` with a comma after it comes first in front of the arguments read after the comma. */
  lemma ArgumentsMoreItems(ts: seq<Token>, i: nat, acc: seq<ArgumentNode>)
    requires WellFormed(ts) && i < |ts| && ParseArgumentAt(ts, i).Success?
    requires Check(ts, ParseArgumentAt(ts, i).next, Comma)
    requires ArgumentsItems(ts, ParseArgumentAt(ts, i).next + 1, acc + [ParseArgumentAt(ts, i).value])
    ensures ArgumentsItems(ts, i, acc)
  {
    var a := ParseArgumentAt(ts, i).value;
    ArgumentsStep(ts, i, acc);
    var r := ArgumentsAt(ts, i, acc);
    if r.Success? {
      assert |acc + [a]| == |acc| + 1;
      AfterPrefix(acc, a, r.value);
      ArgumentsFromCons(ts, i, r.value[|acc| + 1..], r.next);
    }
  }

  /** A failing item makes the whole list fail. */
  lemma ArgumentsFailItems(ts: seq<Token>, i: nat, acc: seq<ArgumentNode>)
    requires WellFormed(ts) && i < |ts| && ParseArgumentAt(ts, i).Failure?
    ensures ArgumentsItems(ts, i, acc)
  {
    ArgumentsStep(ts, i, acc);
  }

  /** Every list read from `i` on satisfies ArgumentsItems, by induction along the list. */
  lemma {:induction false} ArgumentsItemsHold(ts: seq<Token>, i: nat, acc: seq<ArgumentNode>)
    requires WellFormed(ts) && i < |ts|
    ensures ArgumentsItems(ts, i, acc)
    decreases |ts| - i
  {
    var p := ParseArgumentAt(ts, i);
    if p.Failure? {
      ArgumentsFailItems(ts, i, acc);
    } else if Check(ts, p.next, Comma) {
      ArgumentsItemsHold(ts, p.next + 1, acc + [p.value]);
      ArgumentsMoreItems(ts, i, acc);
    } else {
      ArgumentsLastItems(ts, i, acc);
    }
  }

  /** The arguments a successful ArgumentsAt adds to `acc` are a comma-joined list of arguments starting at `i`. */
  lemma ArgumentsRead(ts: seq<Token>, i: nat, acc: seq<ArgumentNode>)
    requires WellFormed(ts) && i < |ts|
    ensures var r := ArgumentsAt(ts, i, acc);
      r.Success? ==> ArgumentsFrom(ts, i, r.value[|acc|..], r.next)
  {
    ArgumentsItemsHold(ts, i, acc);
  }

  /** Conversely, a comma-joined list of arguments starting at `i` is what ArgumentsAt adds to `acc`. */
  lemma {:induction false} ArgumentsOfTrace(ts: seq<Token>, ps: seq<nat>, args: seq<ArgumentNode>, n: nat, acc: seq<ArgumentNode>)
    requires WellFormed(ts) && ArgumentTrace(ts, ps, args, n)
    ensures ArgumentsAt(ts, ps[0], acc) == Success(acc + args, n)
    decreases |ps|
  {
    if |ps| > 1 {
      ArgumentsOfTraceStep(ts, ps, args, n, acc);
      ArgumentsOfTrace(ts, ps[1..], args[1..], n, acc + [args[0]]);
      HeadTail(acc, args);
    } else {
      ArgumentsOfTraceLast(ts, ps, args, n, acc);
    }
  }

  /** A list of one argument is what ArgumentsAt adds to `acc`. */
  lemma ArgumentsOfTraceLast(ts: seq<Token>, ps: seq<nat>, args: seq<ArgumentNode>, n: nat, acc: seq<ArgumentNode>)
    requires WellFormed(ts) && ArgumentTrace(ts, ps, args, n) && |ps| == 1
    ensures ArgumentsAt(ts, ps[0], acc) == Success(acc + args, n)
  {
    ArgumentsStep(ts, ps[0], acc);
    assert args == [args[0]];
  }

  /** The first turn of ArgumentsAt along a list of more than one argument. */
  lemma ArgumentsOfTraceStep(ts: seq<Token>, ps: seq<nat>, args: seq<ArgumentNode>, n: nat, acc: seq<ArgumentNode>)
    requires WellFormed(ts) && ArgumentTrace(ts, ps, args, n) && |ps| > 1
    ensures ArgumentsAt(ts, ps[0], acc) == ArgumentsAt(ts, ps[1..][0], acc + [args[0]])
    ensures ArgumentTrace(ts, ps[1..], args[1..], n)
  {
    ArgumentTraceHead(ts, ps, args, n);
    ArgumentsMore(ts, ps[0], acc, ps[1..][0], acc + [args[0]]);
  }

  /** The argument at `i` with a comma after it: ArgumentsAt goes on after the comma. */
  lemma ArgumentsMore(ts: seq<Token>, i: nat, acc: seq<ArgumentNode>, k: nat, acc': seq<ArgumentNode>)
    requires WellFormed(ts) && i < |ts| && ParseArgumentAt(ts, i).Success?
    requires Check(ts, ParseArgumentAt(ts, i).next, Comma)
    requires k == ParseArgumentAt(ts, i).next + 1 && acc' == acc + [ParseArgumentAt(ts, i).value]
    ensures k < |ts| && ArgumentsAt(ts, i, acc) == ArgumentsAt(ts, k, acc')
  {
    ArgumentsStep(ts, i, acc);
  }

  /** What a trace of more than one argument says about its first one. */
  lemma ArgumentTraceHead(ts: seq<Token>, ps: seq<nat>, args: seq<ArgumentNode>, n: nat)
    requires WellFormed(ts) && ArgumentTrace(ts, ps, args, n) && |ps| > 1
    ensures var r := ParseArgumentAt(ts, ps[0]);
      r.Success? && r.value == args[0] && Check(ts, r.next, Comma) && ps[1..][0] == r.next + 1
    ensures ArgumentTrace(ts, ps[1..], args[1..], n)
  {
  }

  /**
   * A successful argument list whose `(` is the token before `i` ends after
   * a `)`: empty when the `)` comes right away, otherwise holding the
   * comma-joined arguments read from `i`.
   */
  lemma ArgumentListContents(ts: seq<Token>, i: nat)
    requires WellFormed(ts) && i < |ts|
    ensures var r := ArgumentListAt(ts, i);
      r.Success? ==> ts[r.next - 1].kind == ParenRight
    ensures var r := ArgumentListAt(ts, i);
      r.Success? && Check(ts, i, ParenRight) ==> r.value == [] && r.next == i + 1
    ensures var r := ArgumentListAt(ts, i);
      r.Success? && !Check(ts, i, ParenRight) ==>
        ArgumentsFrom(ts, i, r.value, r.next - 1)
  {
    if Check(ts, i, ParenRight) {
      EmptyArgumentList(ts, i);
    } else if ArgumentListAt(ts, i).Success? {
      ArgumentListOfArguments(ts, i);
      ArgumentsFromStart(ts, i);
    }
  }

  /** An argument list closed right away is empty and ends after its `)`. */
  lemma EmptyArgumentList(ts: seq<Token>, i: nat)
    requires WellFormed(ts) && i < |ts| && Check(ts, i, ParenRight)
    ensures ArgumentListAt(ts, i) == Success([], i + 1)
  {
  }

  /** The arguments a successful ArgumentsAt collects from nothing are a comma-joined list of arguments starting at `i`. */
  lemma ArgumentsFromStart(ts: seq<Token>, i: nat)
    requires WellFormed(ts) && i < |ts| && ArgumentsAt(ts, i, []).Success?
    ensures ArgumentsFrom(ts, i, ArgumentsAt(ts, i, []).value, ArgumentsAt(ts, i, []).next)
  {
    ArgumentsRead(ts, i, []);
    WholeSlice(ArgumentsAt(ts, i, []).value);
  }

  /** A non-empty argument list holds the arguments read from `i`, and its `)` follows them. */
  lemma ArgumentListOfArguments(ts: seq<Token>, i: nat)
    requires WellFormed(ts) && i < |ts| && ArgumentListAt(ts, i).Success? && !Check(ts, i, ParenRight)
    ensures ArgumentsAt(ts, i, []).Success?
    ensures ArgumentsAt(ts, i, []).value == ArgumentListAt(ts, i).value
    ensures ArgumentsAt(ts, i, []).next == ArgumentListAt(ts, i).next - 1
  {
  }
}
