/**
 * Worked parses of two small token shapes, for any names and positions: a
 * model with one annotated field, and a broken model followed by a good one,
 * which shows error recovery dropping the first and keeping the second.
 */
module GrammarExamples {
  import opened Wrappers
  import opened Tokens
  import opened Ast
  import opened Grammar

  /** The kinds of `model User { id Int @id }`, whatever the names and positions. */
  predicate SingleFieldShape(ts: seq<Token>) {
    |ts| == 9 && ts[0].kind == Keyword && ts[0].value == "model"
    && ts[1].kind == Identifier && ts[2].kind == BraceLeft
    && ts[3].kind == Identifier && ts[4].kind == Identifier && ts[5].kind == At
    && ts[6].kind == Identifier && ts[7].kind == BraceRight && ts[8].kind == Eof
  }

  function SingleField(ts: seq<Token>): FieldNode
    requires |ts| == 9
  {
    FieldNode(ts[3].value, TypeReferenceNode(ts[4].value, false, true, ts[4].position), true, false,
      [AttributeNode(ts[6].value, true, [], ts[5].position)], ts[3].position)
  }

  lemma SingleFieldParses(ts: seq<Token>)
    requires SingleFieldShape(ts)
    ensures WellFormed(ts) && ParseFieldAt(ts, 3) == Success(SingleField(ts), 7)
  {
    var a := AttributeNode(ts[6].value, true, [], ts[5].position);
    assert ParseAttributeAt(ts, 6, true) == Success(a, 7);
    assert [] + [a] == [a];
    assert FieldAttributesAt(ts, 5, []) == FieldAttributesAt(ts, 7, [a]);
    assert TypeModifiersAt(ts, 5) == Success((false, true), 5);
  }

  lemma SingleFieldBody(ts: seq<Token>)
    requires SingleFieldShape(ts)
    ensures WellFormed(ts) && ModelBodyAt(ts, 3, [], []) == Success(([SingleField(ts)], []), 7)
  {
    var f := SingleField(ts);
    SingleFieldParses(ts);
    assert [] + [f] == [f];
    assert ModelBodyAt(ts, 7, [f], []) == Success(([f], []), 7);
    assert !Check(ts, 3, BraceRight) && !Check(ts, 3, Comment) && !Check(ts, 3, AtAt);
  }

  lemma SingleFieldModel(ts: seq<Token>)
    requires SingleFieldShape(ts)
    ensures WellFormed(ts)
    ensures ParseModelAt(ts, 1) == Success(ModelNode(ts[1].value, [SingleField(ts)], [], ts[0].position), 8)
  {
    SingleFieldBody(ts);
  }

  lemma SingleFieldSchema(ts: seq<Token>)
    requires SingleFieldShape(ts)
    ensures WellFormed(ts)
    ensures ParseSchema(ts).models == [ModelNode(ts[1].value, [SingleField(ts)], [], ts[0].position)]
  {
    var m := ModelNode(ts[1].value, [SingleField(ts)], [], ts[0].position);
    SingleFieldModel(ts);
    assert [] + [m] == [m];
    assert SchemaLoop(ts, 8, [m]) == [m];
    assert SchemaLoop(ts, 0, []) == SchemaLoop(ts, 8, [m]);
  }

  /** The kinds of `model A { x } model B { }`: the first model lacks its field type. */
  predicate RecoveryShape(ts: seq<Token>) {
    |ts| == 10 && ts[0].kind == Keyword && ts[0].value == "model"
    && ts[1].kind == Identifier && ts[2].kind == BraceLeft && ts[3].kind == Identifier
    && ts[4].kind == BraceRight && ts[5].kind == Keyword && ts[5].value == "model"
    && ts[6].kind == Identifier && ts[7].kind == BraceLeft && ts[8].kind == BraceRight && ts[9].kind == Eof
  }

  /** The first model throws on the `}` where its field type should be. */
  lemma RecoveryFirstFails(ts: seq<Token>)
    requires RecoveryShape(ts)
    ensures WellFormed(ts) && ParseModelAt(ts, 1) == Failure("Expected field type", 4)
    ensures Thrown(ts, ParseModelAt(ts, 1)) == ErrorAt(ts, 4, "Expected field type")
  {
    assert ParseFieldAt(ts, 3) == Failure("Expected field type", 4);
    assert ModelBodyAt(ts, 3, [], []) == Failure("Expected field type", 4);
  }

  /** Recovery resumes after the `}`, so only the second model is kept. */
  lemma RecoverySchema(ts: seq<Token>)
    requires RecoveryShape(ts)
    ensures WellFormed(ts)
    ensures ParseSchema(ts).models == [ModelNode(ts[6].value, [], [], ts[5].position)]
  {
    var m := ModelNode(ts[6].value, [], [], ts[5].position);
    RecoveryFirstFails(ts);
    assert Synchronize(ts, 4) == 5;
    assert ModelBodyAt(ts, 8, [], []) == Success(([], []), 8);
    assert ParseModelAt(ts, 6) == Success(m, 9);
    assert [] + [m] == [m];
    assert SchemaLoop(ts, 9, [m]) == [m];
    assert SchemaLoop(ts, 5, []) == [m];
  }
}
