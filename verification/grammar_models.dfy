/**
 * What the model rule and the top-level loop collect.  A model body is
 * read item by item: every field of the result was read by the field rule,
 * and every model attribute by the attribute rule after a `@@`, at token
 * positions that strictly increase inside the body.  The top-level loop
 * keeps the models found so far in front of the ones it finds later, and
 * every `model` keyword it reaches whose model parses contributes that
 * model to the schema, followed by the models found after it.
 */
module GrammarModels {
  import opened Tokens
  import opened Ast
  import opened Grammar

  // ---------------------------------------------------------------------
  // The items of a model body

  /**
   * `fs` are the fields read at the positions `qs`, which strictly increase
   * from `lo` on and stay below `hi`.
   */
  ghost predicate FieldsRead(ts: seq<Token>, qs: seq<nat>, fs: seq<FieldNode>, lo: nat, hi: nat)
    requires WellFormed(ts)
    decreases |qs|
  {
    && |qs| == |fs|
    && (|qs| > 0 ==>
          && lo <= qs[0] < hi && qs[0] < |ts|
          && ParseFieldAt(ts, qs[0]).Success? && ParseFieldAt(ts, qs[0]).value == fs[0]
          && FieldsRead(ts, qs[1..], fs[1..], qs[0] + 1, hi))
  }

  /**
   * `attrs` are the model attributes read at the positions `qs`, each just
   * after a `@@`, which strictly increase from `lo` on and stay below `hi`.
   */
  ghost predicate AttributesRead(ts: seq<Token>, qs: seq<nat>, attrs: seq<AttributeNode>, lo: nat, hi: nat)
    requires WellFormed(ts)
    decreases |qs|
  {
    && |qs| == |attrs|
    && (|qs| > 0 ==>
          && lo <= qs[0] < hi && 1 <= qs[0] < |ts| && Check(ts, qs[0] - 1, AtAt)
          && ParseAttributeAt(ts, qs[0], false).Success? && ParseAttributeAt(ts, qs[0], false).value == attrs[0]
          && AttributesRead(ts, qs[1..], attrs[1..], qs[0] + 1, hi))
  }

  /** `fs` were read by the field rule at increasing positions in `lo..hi`. */
  ghost predicate FieldsBetween(ts: seq<Token>, lo: nat, hi: nat, fs: seq<FieldNode>)
    requires WellFormed(ts)
  {
    exists qs :: FieldsRead(ts, qs, fs, lo, hi)
  }

  /** `attrs` were read by the attribute rule after `@@` at increasing positions in `lo..hi`. */
  ghost predicate AttributesBetween(ts: seq<Token>, lo: nat, hi: nat, attrs: seq<AttributeNode>)
    requires WellFormed(ts)
  {
    exists qs :: AttributesRead(ts, qs, attrs, lo, hi)
  }

  /** Nothing is read from an empty stretch of positions. */
  lemma NoneBetween(ts: seq<Token>, lo: nat, hi: nat)
    requires WellFormed(ts)
    ensures FieldsBetween(ts, lo, hi, []) && AttributesBetween(ts, lo, hi, [])
  {
    assert FieldsRead(ts, [], [], lo, hi);
    assert AttributesRead(ts, [], [], lo, hi);
  }

  /** Fields read from `lo'` on were read from any earlier `lo` on. */
  lemma WidenFields(ts: seq<Token>, lo: nat, lo': nat, hi: nat, fs: seq<FieldNode>)
    requires WellFormed(ts) && lo <= lo' && FieldsBetween(ts, lo', hi, fs)
    ensures FieldsBetween(ts, lo, hi, fs)
  {
    var qs :| FieldsRead(ts, qs, fs, lo', hi);
    assert FieldsRead(ts, qs, fs, lo, hi);
  }

  /** Attributes read from `lo'` on were read from any earlier `lo` on. */
  lemma WidenAttributes(ts: seq<Token>, lo: nat, lo': nat, hi: nat, attrs: seq<AttributeNode>)
    requires WellFormed(ts) && lo <= lo' && AttributesBetween(ts, lo', hi, attrs)
    ensures AttributesBetween(ts, lo, hi, attrs)
  {
    var qs :| AttributesRead(ts, qs, attrs, lo', hi);
    assert AttributesRead(ts, qs, attrs, lo, hi);
  }

  /** One more field, read at `q`, in front of a trace of fields read after it. */
  lemma FieldsReadCons(ts: seq<Token>, q: nat, qs: seq<nat>, fs: seq<FieldNode>, hi: nat)
    requires WellFormed(ts) && q < hi && q < |ts| && ParseFieldAt(ts, q).Success?
    requires FieldsRead(ts, qs, fs, q + 1, hi)
    ensures FieldsRead(ts, [q] + qs, [ParseFieldAt(ts, q).value] + fs, q, hi)
  {
    assert ([q] + qs)[1..] == qs && ([ParseFieldAt(ts, q).value] + fs)[1..] == fs;
  }

  /** A field read at `q`, in front of fields read after it. */
  lemma FieldFirst(ts: seq<Token>, q: nat, hi: nat, fs: seq<FieldNode>)
    requires WellFormed(ts) && q < hi && q < |ts| && ParseFieldAt(ts, q).Success?
    requires FieldsBetween(ts, q + 1, hi, fs)
    ensures FieldsBetween(ts, q, hi, [ParseFieldAt(ts, q).value] + fs)
  {
    var qs :| FieldsRead(ts, qs, fs, q + 1, hi);
    FieldsReadCons(ts, q, qs, fs, hi);
  }

  /** One more attribute, read at `q` after `@@`, in front of a trace of attributes read after it. */
  lemma AttributesReadCons(ts: seq<Token>, q: nat, qs: seq<nat>, attrs: seq<AttributeNode>, hi: nat)
    requires WellFormed(ts) && 1 <= q < hi && q < |ts| && Check(ts, q - 1, AtAt)
    requires ParseAttributeAt(ts, q, false).Success?
    requires AttributesRead(ts, qs, attrs, q + 1, hi)
    ensures AttributesRead(ts, [q] + qs, [ParseAttributeAt(ts, q, false).value] + attrs, q, hi)
  {
    assert ([q] + qs)[1..] == qs && ([ParseAttributeAt(ts, q, false).value] + attrs)[1..] == attrs;
  }

  /** An attribute read at `q` after `@@`, in front of attributes read after it. */
  lemma AttributeFirst(ts: seq<Token>, q: nat, hi: nat, attrs: seq<AttributeNode>)
    requires WellFormed(ts) && 1 <= q < hi && q < |ts| && Check(ts, q - 1, AtAt)
    requires ParseAttributeAt(ts, q, false).Success?
    requires AttributesBetween(ts, q + 1, hi, attrs)
    ensures AttributesBetween(ts, q, hi, [ParseAttributeAt(ts, q, false).value] + attrs)
  {
    var qs :| AttributesRead(ts, qs, attrs, q + 1, hi);
    AttributesReadCons(ts, q, qs, attrs, hi);
  }

  /** What a sequence holds after a prefix extended by one element. */
  lemma AfterPrefix<T>(prefix: seq<T>, x: T, s: seq<T>)
    requires prefix + [x] <= s
    ensures s[|prefix|..] == [x] + s[|prefix| + 1..]
  {
    assert s[|prefix|] == (prefix + [x])[|prefix|];
  }

  /** A `@@` attribute inside a model body: the body goes on after it, with the attribute added. */
  lemma BodyAttributeStep(ts: seq<Token>, i: nat, fields: seq<FieldNode>, attributes: seq<AttributeNode>)
    requires WellFormed(ts) && i < |ts| && !AtEnd(ts, i) && ts[i].kind == AtAt
    requires ParseAttributeAt(ts, i + 1, false).Success?
    ensures var a := ParseAttributeAt(ts, i + 1, false);
      ModelBodyAt(ts, i, fields, attributes) == ModelBodyAt(ts, a.next, fields, attributes + [a.value])
  {
  }

  /** A field inside a model body: the body goes on after it, with the field added. */
  lemma BodyFieldStep(ts: seq<Token>, i: nat, fields: seq<FieldNode>, attributes: seq<AttributeNode>)
    requires WellFormed(ts) && i < |ts| && !AtEnd(ts, i)
    requires ts[i].kind != BraceRight && ts[i].kind != Comment && ts[i].kind != AtAt
    requires ParseFieldAt(ts, i).Success?
    ensures var f := ParseFieldAt(ts, i);
      ModelBodyAt(ts, i, fields, attributes) == ModelBodyAt(ts, f.next, fields + [f.value], attributes)
  {
  }

  /** The items after a `@@` attribute at `i + 1`, with that attribute in front of the others. */
  lemma AttributeItems(ts: seq<Token>, i: nat, hi: nat, fs: seq<FieldNode>, rest: seq<AttributeNode>)
    requires WellFormed(ts) && i + 1 < |ts| && ts[i].kind == AtAt
    requires ParseAttributeAt(ts, i + 1, false).Success? && ParseAttributeAt(ts, i + 1, false).next <= hi
    requires var j := ParseAttributeAt(ts, i + 1, false).next;
      FieldsBetween(ts, j, hi, fs) && AttributesBetween(ts, j, hi, rest)
    ensures FieldsBetween(ts, i, hi, fs)
    ensures AttributesBetween(ts, i, hi, [ParseAttributeAt(ts, i + 1, false).value] + rest)
  {
    var j := ParseAttributeAt(ts, i + 1, false).next;
    WidenFields(ts, i, j, hi, fs);
    WidenAttributes(ts, i + 2, j, hi, rest);
    AttributeFirst(ts, i + 1, hi, rest);
    WidenAttributes(ts, i, i + 1, hi, [ParseAttributeAt(ts, i + 1, false).value] + rest);
  }

  /** The items after a field at `i`, with that field in front of the others. */
  lemma FieldItems(ts: seq<Token>, i: nat, hi: nat, rest: seq<FieldNode>)
    requires WellFormed(ts) && i < |ts|
    requires ParseFieldAt(ts, i).Success? && ParseFieldAt(ts, i).next <= hi
    requires FieldsBetween(ts, ParseFieldAt(ts, i).next, hi, rest)
    ensures FieldsBetween(ts, i, hi, [ParseFieldAt(ts, i).value] + rest)
  {
    WidenFields(ts, i + 1, ParseFieldAt(ts, i).next, hi, rest);
    FieldFirst(ts, i, hi, rest);
  }

  /**
   * When the body read from `i` succeeds, what it adds to `fields` and to
   * `attributes` was read between `i` and where it stops.
   */
  ghost predicate BodyItems(ts: seq<Token>, i: nat, fields: seq<FieldNode>, attributes: seq<AttributeNode>)
    requires WellFormed(ts) && i < |ts|
  {
    var r := ModelBodyAt(ts, i, fields, attributes);
    r.Success? ==>
      && FieldsBetween(ts, i, r.next, r.value.0[|fields|..])
      && AttributesBetween(ts, i, r.next, r.value.1[|attributes|..])
  }

  /** The body stops at `i` and adds nothing. */
  lemma BodyEndItems(ts: seq<Token>, i: nat, fields: seq<FieldNode>, attributes: seq<AttributeNode>)
    requires WellFormed(ts) && i < |ts| && (Check(ts, i, BraceRight) || AtEnd(ts, i))
    ensures BodyItems(ts, i, fields, attributes)
  {
    var r := ModelBodyAt(ts, i, fields, attributes);
    assert r == Success((fields, attributes), i);
    assert r.value.0[|fields|..] == [] && r.value.1[|attributes|..] == [];
    NoneBetween(ts, i, i);
  }

  /** A comment in the body is skipped. */
  lemma BodyCommentItems(ts: seq<Token>, i: nat, fields: seq<FieldNode>, attributes: seq<AttributeNode>)
    requires WellFormed(ts) && i < |ts| && Check(ts, i, Comment) && ts[i].kind != BraceRight
    requires i + 1 < |ts| && BodyItems(ts, i + 1, fields, attributes)
    ensures BodyItems(ts, i, fields, attributes)
  {
    var r := ModelBodyAt(ts, i, fields, attributes);
    assert r == ModelBodyAt(ts, i + 1, fields, attributes);
    if r.Success? {
      WidenFields(ts, i, i + 1, r.next, r.value.0[|fields|..]);
      WidenAttributes(ts, i, i + 1, r.next, r.value.1[|attributes|..]);
    }
  }

  /** A `@@` attribute in the body comes first among the attributes the body adds from there. */
  lemma BodyAttributeItems(ts: seq<Token>, i: nat, fields: seq<FieldNode>, attributes: seq<AttributeNode>)
    requires WellFormed(ts) && i + 1 < |ts| && !AtEnd(ts, i) && ts[i].kind == AtAt
    requires ParseAttributeAt(ts, i + 1, false).Success?
    requires var p := ParseAttributeAt(ts, i + 1, false); BodyItems(ts, p.next, fields, attributes + [p.value])
    ensures BodyItems(ts, i, fields, attributes)
  {
    var p := ParseAttributeAt(ts, i + 1, false);
    BodyAttributeStep(ts, i, fields, attributes);
    var r := ModelBodyAt(ts, i, fields, attributes);
    if r.Success? {
      assert |attributes + [p.value]| == |attributes| + 1;
      AfterPrefix(attributes, p.value, r.value.1);
      AttributeItems(ts, i, r.next, r.value.0[|fields|..], r.value.1[|attributes| + 1..]);
    }
  }

  /** A field in the body comes first among the fields the body adds from there. */
  lemma BodyFieldItems(ts: seq<Token>, i: nat, fields: seq<FieldNode>, attributes: seq<AttributeNode>)
    requires WellFormed(ts) && i < |ts| && !AtEnd(ts, i)
    requires ts[i].kind != BraceRight && ts[i].kind != Comment && ts[i].kind != AtAt
    requires ParseFieldAt(ts, i).Success?
    requires var p := ParseFieldAt(ts, i); BodyItems(ts, p.next, fields + [p.value], attributes)
    ensures BodyItems(ts, i, fields, attributes)
  {
    var p := ParseFieldAt(ts, i);
    BodyFieldStep(ts, i, fields, attributes);
    var r := ModelBodyAt(ts, i, fields, attributes);
    if r.Success? {
      assert |fields + [p.value]| == |fields| + 1;
      AfterPrefix(fields, p.value, r.value.0);
      FieldItems(ts, i, r.next, r.value.0[|fields| + 1..]);
      WidenAttributes(ts, i, p.next, r.next, r.value.1[|attributes|..]);
    }
  }

  /** A failing item makes the whole body fail. */
  lemma BodyFailure(ts: seq<Token>, i: nat, fields: seq<FieldNode>, attributes: seq<AttributeNode>)
    requires WellFormed(ts) && i < |ts| && !AtEnd(ts, i) && ts[i].kind != BraceRight && ts[i].kind != Comment
    requires if ts[i].kind == AtAt then ParseAttributeAt(ts, i + 1, false).Failure? else ParseFieldAt(ts, i).Failure?
    ensures BodyItems(ts, i, fields, attributes)
  {
  }

  /**
   * A successful model body adds to `fields` the fields read by the field
   * rule, and to `attributes` the attributes read after `@@`, at increasing
   * positions between `i` and where the body stops.
   */
  lemma {:induction false} ModelBodyItems(ts: seq<Token>, i: nat, fields: seq<FieldNode>, attributes: seq<AttributeNode>)
    requires WellFormed(ts) && i < |ts|
    ensures var r := ModelBodyAt(ts, i, fields, attributes);
      r.Success? ==> FieldsBetween(ts, i, r.next, r.value.0[|fields|..])
    ensures var r := ModelBodyAt(ts, i, fields, attributes);
      r.Success? ==> AttributesBetween(ts, i, r.next, r.value.1[|attributes|..])
    decreases |ts| - i
  {
    if Check(ts, i, BraceRight) || AtEnd(ts, i) {
      BodyEndItems(ts, i, fields, attributes);
    } else if Check(ts, i, Comment) {
      ModelBodyItems(ts, i + 1, fields, attributes);
      BodyCommentItems(ts, i, fields, attributes);
    } else if Check(ts, i, AtAt) && ParseAttributeAt(ts, i + 1, false).Success? {
      var p := ParseAttributeAt(ts, i + 1, false);
      ModelBodyItems(ts, p.next, fields, attributes + [p.value]);
      BodyAttributeItems(ts, i, fields, attributes);
    } else if !Check(ts, i, AtAt) && ParseFieldAt(ts, i).Success? {
      var p := ParseFieldAt(ts, i);
      ModelBodyItems(ts, p.next, fields + [p.value], attributes);
      BodyFieldItems(ts, i, fields, attributes);
    } else {
      BodyFailure(ts, i, fields, attributes);
    }
  }

  /** A parsed model holds what its body, read from after its `{`, collected from nothing. */
  lemma ModelOfBody(ts: seq<Token>, i: nat)
    requires WellFormed(ts) && 1 <= i < |ts| && ParseModelAt(ts, i).Success?
    ensures i + 2 < |ts|
    ensures var r, body := ParseModelAt(ts, i), ModelBodyAt(ts, i + 2, [], []);
      body.Success? && body.next == r.next - 1 && r.value.fields == body.value.0 && r.value.attributes == body.value.1
  {
  }

  /**
   * The fields of a parsed model were read by the field rule, and its
   * attributes by the attribute rule after `@@`, at increasing positions
   * between its `{` and its `}`.
   */
  lemma ModelItems(ts: seq<Token>, i: nat)
    requires WellFormed(ts) && 1 <= i < |ts|
    ensures var r := ParseModelAt(ts, i);
      r.Success? ==> FieldsBetween(ts, i + 2, r.next - 1, r.value.fields)
    ensures var r := ParseModelAt(ts, i);
      r.Success? ==> AttributesBetween(ts, i + 2, r.next - 1, r.value.attributes)
  {
    if ParseModelAt(ts, i).Success? {
      ModelOfBody(ts, i);
      var body := ModelBodyAt(ts, i + 2, [], []);
      ModelBodyItems(ts, i + 2, [], []);
      assert body.value.0[0..] == body.value.0 && body.value.1[0..] == body.value.1;
    }
  }

  // ---------------------------------------------------------------------
  // The models of the top-level loop

  /** Token `q` is a `model` keyword. */
  predicate ModelKeyword(ts: seq<Token>, q: nat)
    requires q < |ts|
  {
    ts[q].kind == Keyword && ts[q].value == "model"
  }

  /** Where the loop's cursor goes from `i`, whatever it finds there. */
  function LoopNext(ts: seq<Token>, i: nat): (r: nat)
    requires WellFormed(ts) && i < |ts| && !AtEnd(ts, i)
    ensures i < r < |ts|
  {
    if Check(ts, i, Comment) then i + 1
    else if Check(ts, i, Keyword) then
      if ts[i].value == "model" then
        match ParseModelAt(ts, i + 1)
        case Success(_, j) => j
        case Failure(_, at) => Synchronize(ts, at)
      else Synchronize(ts, i + 1)
    else Synchronize(ts, i)
  }

  /** The models one turn of the loop finds at `i`: the model after a `model` keyword, when it parses. */
  function LoopFound(ts: seq<Token>, i: nat): (r: seq<ModelNode>)
    requires WellFormed(ts) && i < |ts| && !AtEnd(ts, i)
    ensures |r| <= 1
    ensures r != [] <==> ModelKeyword(ts, i) && ParseModelAt(ts, i + 1).Success?
  {
    if ModelKeyword(ts, i) && ParseModelAt(ts, i + 1).Success? then [ParseModelAt(ts, i + 1).value] else []
  }

  /** One turn of the loop: what it finds at `i` is added, and it goes on from the next cursor. */
  lemma LoopUnfold(ts: seq<Token>, i: nat, models: seq<ModelNode>)
    requires WellFormed(ts) && i < |ts| && !AtEnd(ts, i)
    ensures SchemaLoop(ts, i, models) == SchemaLoop(ts, LoopNext(ts, i), models + LoopFound(ts, i))
  {
    if LoopFound(ts, i) == [] {
      assert models + LoopFound(ts, i) == models;
    }
  }

  /** Regrouping a sequence split in three. */
  lemma Regroup<T>(s: seq<T>, x: seq<T>, b: seq<T>, y: seq<T>, c: seq<T>)
    requires s == x + b && b == y + c
    ensures s == (x + y) + c
  {
  }

  /** The loop keeps the models found so far in front of the ones it goes on to find. */
  lemma {:induction false} SchemaLoopFrom(ts: seq<Token>, i: nat, models: seq<ModelNode>)
    requires WellFormed(ts) && i < |ts|
    ensures SchemaLoop(ts, i, models) == models + SchemaLoop(ts, i, [])
    decreases |ts| - i
  {
    if AtEnd(ts, i) {
    } else {
      var n, found := LoopNext(ts, i), LoopFound(ts, i);
      LoopUnfold(ts, i, models);
      LoopUnfold(ts, i, []);
      SchemaLoopFrom(ts, n, models + found);
      SchemaLoopFrom(ts, n, [] + found);
      assert [] + found == found;
      Regroup(models + (found + SchemaLoop(ts, n, [])), models, found + SchemaLoop(ts, n, []), found, SchemaLoop(ts, n, []));
    }
  }

  /** The loop started at cursor `i` comes to cursor `q`. */
  ghost predicate Reaches(ts: seq<Token>, i: nat, q: nat)
    requires WellFormed(ts) && i < |ts|
    decreases |ts| - i
  {
    i == q || (!AtEnd(ts, i) && Reaches(ts, LoopNext(ts, i), q))
  }

  /** One turn of the loop from nothing: what it finds at `i`, then what it finds from the next cursor on. */
  lemma LoopStep(ts: seq<Token>, i: nat)
    requires WellFormed(ts) && i < |ts| && !AtEnd(ts, i)
    ensures SchemaLoop(ts, i, []) == LoopFound(ts, i) + SchemaLoop(ts, LoopNext(ts, i), [])
  {
    LoopUnfold(ts, i, []);
    SchemaLoopFrom(ts, LoopNext(ts, i), [] + LoopFound(ts, i));
    assert [] + LoopFound(ts, i) == LoopFound(ts, i);
  }

  /** What the loop finds from a cursor it reaches is the tail of what it finds from the start. */
  lemma {:induction false} ReachedSuffix(ts: seq<Token>, i: nat, q: nat)
    requires WellFormed(ts) && i < |ts| && Reaches(ts, i, q)
    ensures q < |ts|
    ensures exists x: seq<ModelNode> :: SchemaLoop(ts, i, []) == x + SchemaLoop(ts, q, [])
    decreases |ts| - i
  {
    if i == q {
      assert SchemaLoop(ts, i, []) == [] + SchemaLoop(ts, q, []);
    } else {
      var n := LoopNext(ts, i);
      ReachedSuffix(ts, n, q);
      LoopStep(ts, i);
      var y :| SchemaLoop(ts, n, []) == y + SchemaLoop(ts, q, []);
      Regroup(SchemaLoop(ts, i, []), LoopFound(ts, i), SchemaLoop(ts, n, []), y, SchemaLoop(ts, q, []));
    }
  }

  /** A sequence made of `x`, then `m`, then `y`, holds `m` at `|x|`, followed by `y`. */
  lemma Middle<T>(s: seq<T>, x: seq<T>, m: T, y: seq<T>)
    requires s == x + [m] + y
    ensures |x| < |s| && s[|x|] == m && s[|x| + 1..] == y
  {
  }

  /** What the loop finds from the start: some models, then what it finds at a cursor `q` it reaches, then the rest. */
  lemma ReachedTurn(ts: seq<Token>, q: nat)
    requires WellFormed(ts) && Reaches(ts, 0, q) && q < |ts| && !AtEnd(ts, q)
    ensures exists x: seq<ModelNode> :: (SchemaLoop(ts, 0, []) == x + LoopFound(ts, q) + SchemaLoop(ts, LoopNext(ts, q), []))
  {
    ReachedSuffix(ts, 0, q);
    var x :| SchemaLoop(ts, 0, []) == x + SchemaLoop(ts, q, []);
    LoopStep(ts, q);
    Regroup(SchemaLoop(ts, 0, []), x, SchemaLoop(ts, q, []), LoopFound(ts, q), SchemaLoop(ts, LoopNext(ts, q), []));
  }

  /** At a `model` keyword whose model parses, the loop finds that model and goes on after it. */
  lemma FoundModel(ts: seq<Token>, q: nat)
    requires WellFormed(ts) && q < |ts| && ModelKeyword(ts, q) && ParseModelAt(ts, q + 1).Success?
    ensures LoopFound(ts, q) == [ParseModelAt(ts, q + 1).value] && LoopNext(ts, q) == ParseModelAt(ts, q + 1).next
  {
  }

  /**
   * A `model` keyword the loop reaches from the start, whose model parses,
   * puts that model in the schema, right before the models found after it.
   */
  lemma ReachedModelKept(ts: seq<Token>, q: nat)
    requires WellFormed(ts) && Reaches(ts, 0, q)
    requires q < |ts| && ModelKeyword(ts, q) && ParseModelAt(ts, q + 1).Success?
    ensures exists k :: (0 <= k < |ParseSchema(ts).models| && ParseSchema(ts).models[k] == ParseModelAt(ts, q + 1).value
      && ParseSchema(ts).models[k + 1..] == SchemaLoop(ts, ParseModelAt(ts, q + 1).next, []))
  {
    ReachedTurn(ts, q);
    var x :| SchemaLoop(ts, 0, []) == x + LoopFound(ts, q) + SchemaLoop(ts, LoopNext(ts, q), []);
    FoundModel(ts, q);
    Middle(ParseSchema(ts).models, x, ParseModelAt(ts, q + 1).value, SchemaLoop(ts, ParseModelAt(ts, q + 1).next, []));
  }
}
