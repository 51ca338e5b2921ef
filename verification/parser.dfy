/**
 * The parser object: a token list and a cursor into it, with the helper
 * methods that move the cursor and one method per grammar rule.  Each rule
 * method returns Err where the parser throws, and is proved to agree with
 * the matching function of Grammar, which states the rule on values.
 */
module SchemaParser {
  import opened Wrappers
  import opened Tokens
  import opened Ast
  import opened Lexical
  import opened Tokenizer
  import opened Grammar

  /**
   * A method's result and final cursor are the grammar's outcome: the value
   * and the cursor after it, or the error thrown at the cursor it stopped on.
   */
  ghost predicate Agrees<T>(ts: seq<Token>, r: Result<T, SchemaParsingError>, cursor: nat, p: Parsed<T>) {
    match p
    case Success(v, next) => r == Ok(v) && cursor == next
    case Failure(reason, at) => at < |ts| && r == Err(SchemaParsingError(reason, ts[at].position)) && cursor == at
  }

  class Parser {
    var tokens: seq<Token>
    var current: nat

    constructor()
      ensures tokens == [] && current == 0
    {
      tokens := [];
      current := 0;
    }

    ghost predicate Valid()
      reads this
    {
      WellFormed(tokens) && current < |tokens|
    }

    function Peek(): (t: Token)
      reads this
      requires Valid()
      ensures t == tokens[current]
    {
      tokens[current]
    }

    function IsAtEnd(): (b: bool)
      reads this
      requires Valid()
      ensures b == AtEnd(tokens, current)
    {
      Peek().kind == Eof
    }

    function Check(kind: TokenType): (b: bool)
      reads this
      requires Valid()
      ensures b == Grammar.Check(tokens, current, kind)
    {
      if IsAtEnd() then false else Peek().kind == kind
    }

    function PeekNext(): (t: Token)
      reads this
      requires Valid()
      ensures t == Grammar.PeekNext(tokens, current)
    {
      if current + 1 >= |tokens| then tokens[|tokens| - 1] else tokens[current + 1]
    }

    function Previous(): (t: Token)
      reads this
      requires Valid() && 1 <= current
      ensures t == tokens[current - 1]
    {
      tokens[current - 1]
    }

    /** The error for `message`, located at the current token. */
    function Error(message: string): (e: SchemaParsingError)
      reads this
      requires Valid()
      ensures e == ErrorAt(tokens, current, message)
    {
      SchemaParsingError(message, Peek().position)
    }

    method Advance() returns (t: Token)
      requires Valid() && (1 <= current || !IsAtEnd())
      modifies this`current
      ensures Valid() && tokens == old(tokens)
      ensures current == Advanced(tokens, old(current)) && 1 <= current
      ensures t == tokens[current - 1]
    {
      if !IsAtEnd() {
        current := current + 1;
      }
      t := Previous();
    }

    method Match(kind: TokenType) returns (matched: bool)
      requires Valid()
      modifies this`current
      ensures Valid() && tokens == old(tokens)
      ensures matched == Grammar.Check(tokens, old(current), kind)
      ensures current == if matched then old(current) + 1 else old(current)
    {
      if Check(kind) {
        var _ := Advance();
        return true;
      }
      return false;
    }

    method Consume(kind: TokenType, message: string) returns (r: Result<Token, SchemaParsingError>)
      requires Valid()
      modifies this`current
      ensures Valid() && tokens == old(tokens)
      ensures Agrees(tokens, r, current, Grammar.Consume(tokens, old(current), kind, message))
    {
      if Check(kind) {
        var t := Advance();
        return Ok(t);
      }
      return Err(Error(message));
    }

    method ParseValue() returns (r: Result<ValueNode, SchemaParsingError>)
      requires Valid()
      modifies this`current
      ensures Valid() && tokens == old(tokens)
      ensures Agrees(tokens, r, current, ParseValueAt(tokens, old(current)))
      decreases |tokens| - current, 0
    {
      ghost var spec := ParseValueAt(tokens, current);
      var token := Peek();
      if Check(String) {
        var str := Advance();
        var value := JsSubstring(str.value, 1, |str.value| - 1);
        assert spec == Success(CreateStringNode(value, token.position), current);
        return Ok(CreateStringNode(value, token.position));
      } else if Check(Number) {
        var t := Advance();
        assert spec == Success(CreateNumberNode(t.value, token.position), current);
        return Ok(CreateNumberNode(t.value, token.position));
      } else if Check(Boolean) {
        var t := Advance();
        assert spec == Success(CreateBooleanNode(t.value == "true", token.position), current);
        return Ok(CreateBooleanNode(t.value == "true", token.position));
      } else if Check(BracketLeft) {
        var _ := Advance();
        assert spec == ArrayAt(tokens, current, token.position);
        r := ParseArray(token.position);
      } else if Check(Identifier) {
        var t := Advance();
        assert spec == Success(CreateIdentifierNode(t.value, token.position), current);
        return Ok(CreateIdentifierNode(t.value, token.position));
      } else {
        assert spec == Failure("Expected value, got " + token.kind.Name(), current);
        return Err(Error("Expected value, got " + token.kind.Name()));
      }
    }

    /** The elements and closing `]` of an array whose `[` was just consumed. */
    method ParseArray(location: SourcePosition) returns (r: Result<ValueNode, SchemaParsingError>)
      requires Valid()
      modifies this`current
      ensures Valid() && tokens == old(tokens)
      ensures Agrees(tokens, r, current, ArrayAt(tokens, old(current), location))
      decreases |tokens| - current, 2
    {
      var elements: seq<ValueNode> := [];
      if !Check(BracketRight) {
        var list := ParseElements();
        if list.Err? {
          return Err(list.error);
        }
        elements := list.value;
      }
      var close := Consume(BracketRight, "Expected \"]\" after array elements");
      if close.Err? {
        return Err(close.error);
      }
      return Ok(CreateArrayNode(elements, location));
    }

    /** The do-while loop of an array: one value, then another after each comma. */
    method ParseElements() returns (r: Result<seq<ValueNode>, SchemaParsingError>)
      requires Valid()
      modifies this`current
      ensures Valid() && tokens == old(tokens)
      ensures Agrees(tokens, r, current, ElementsAt(tokens, old(current), []))
      decreases |tokens| - current, 1
    {
      var elements: seq<ValueNode> := [];
      var more := true;
      while more
        invariant Valid() && tokens == old(tokens) && old(current) <= current
        invariant more ==> ElementsAt(tokens, old(current), []) == ElementsAt(tokens, current, elements)
        invariant !more ==> ElementsAt(tokens, old(current), []) == Success(elements, current)
        decreases |tokens| - current, more
      {
        ghost var c := current;
        var element := ParseValue();
        if element.Err? {
          assert ElementsAt(tokens, c, elements) == Failure(ParseValueAt(tokens, c).reason, ParseValueAt(tokens, c).at);
          return Err(element.error);
        }
        assert ElementsAt(tokens, c, elements) ==
          if Grammar.Check(tokens, current, Comma) then ElementsAt(tokens, current + 1, elements + [element.value])
          else Success(elements + [element.value], current);
        elements := elements + [element.value];
        // `match(COMMA)`, written out: step over a comma when one follows.
        more := Check(Comma);
        if more {
          var _ := Advance();
        }
      }
      return Ok(elements);
    }

    method ParseArgument() returns (r: Result<ArgumentNode, SchemaParsingError>)
      requires Valid()
      modifies this`current
      ensures Valid() && tokens == old(tokens)
      ensures Agrees(tokens, r, current, ParseArgumentAt(tokens, old(current)))
    {
      ghost var start := current;
      var location := Peek().position;
      var name: Option<string> := None;
      if Check(Identifier) && PeekNext().kind == Colon {
        var t := Advance();
        name := Some(t.value);
        // The token after the name is the colon, so this consume cannot fail.
        var colon := Consume(Colon, "Expected \":\" after argument name");
        assert colon.Ok?;
      }
      ghost var at := current;
      assert at == if Named(tokens, start) then start + 2 else start;
      var value := ParseValue();
      if value.Err? {
        ghost var failed := ParseValueAt(tokens, at);
        assert ParseArgumentAt(tokens, start) == Failure(failed.reason, failed.at);
        return Err(value.error);
      }
      assert ParseArgumentAt(tokens, start) == Success(CreateArgumentNode(value.value, name, location), current);
      return Ok(CreateArgumentNode(value.value, name, location));
    }

    /** An attribute whose `@` (isField) or `@@` was just consumed. */
    method ParseAttribute(isField: bool) returns (r: Result<AttributeNode, SchemaParsingError>)
      requires Valid() && 1 <= current
      modifies this`current
      ensures Valid() && tokens == old(tokens)
      ensures Agrees(tokens, r, current, ParseAttributeAt(tokens, old(current), isField))
    {
      ghost var start := current;
      var location := Previous().position;
      var name := Consume(Identifier, "Expected attribute name");
      if name.Err? {
        assert ParseAttributeAt(tokens, start, isField) == Failure("Expected attribute name", start);
        return Err(name.error);
      }
      assert name.value == tokens[start] && current == start + 1;
      AttributeOutcome(tokens, start, isField);
      ghost var a := AttributeArgumentsAt(tokens, start + 1);
      var args := ParseAttributeArguments();
      if args.Err? {
        assert a.Failure? && ParseAttributeAt(tokens, start, isField) == Failure(a.reason, a.at);
        return Err(args.error);
      }
      assert a == Success(args.value, current);
      return Ok(CreateAttributeNode(name.value.value, isField, args.value, location));
    }

    /** The arguments after an attribute's name: a parenthesised list when `(` follows, none otherwise. */
    method ParseAttributeArguments() returns (r: Result<seq<ArgumentNode>, SchemaParsingError>)
      requires Valid()
      modifies this`current
      ensures Valid() && tokens == old(tokens)
      ensures Agrees(tokens, r, current, AttributeArgumentsAt(tokens, old(current)))
    {
      var open := Match(ParenLeft);
      if open {
        r := ParseArgumentList();
        return;
      }
      return Ok([]);
    }

    /** The arguments and closing `)` of an argument list whose `(` was just consumed. */
    method ParseArgumentList() returns (r: Result<seq<ArgumentNode>, SchemaParsingError>)
      requires Valid()
      modifies this`current
      ensures Valid() && tokens == old(tokens)
      ensures Agrees(tokens, r, current, ArgumentListAt(tokens, old(current)))
    {
      var args: seq<ArgumentNode> := [];
      if !Check(ParenRight) {
        var list := ParseArguments();
        if list.Err? {
          return Err(list.error);
        }
        args := list.value;
      }
      var close := Consume(ParenRight, "Expected \")\" after arguments");
      if close.Err? {
        return Err(close.error);
      }
      return Ok(args);
    }

    /** The do-while loop of an argument list: one argument, then another after each comma. */
    method ParseArguments() returns (r: Result<seq<ArgumentNode>, SchemaParsingError>)
      requires Valid()
      modifies this`current
      ensures Valid() && tokens == old(tokens)
      ensures Agrees(tokens, r, current, ArgumentsAt(tokens, old(current), []))
    {
      var args: seq<ArgumentNode> := [];
      var more := true;
      while more
        invariant Valid() && tokens == old(tokens) && old(current) <= current
        invariant more ==> ArgumentsAt(tokens, old(current), []) == ArgumentsAt(tokens, current, args)
        invariant !more ==> ArgumentsAt(tokens, old(current), []) == Success(args, current)
        decreases |tokens| - current, more
      {
        ArgumentsStep(tokens, current, args);
        var argument := ParseArgument();
        if argument.Err? {
          return Err(argument.error);
        }
        args := args + [argument.value];
        // `match(COMMA)`, written out: step over a comma when one follows.
        more := Check(Comma);
        if more {
          var _ := Advance();
        }
      }
      return Ok(args);
    }

    method ParseField() returns (r: Result<FieldNode, SchemaParsingError>)
      requires Valid()
      modifies this`current
      ensures Valid() && tokens == old(tokens)
      ensures Agrees(tokens, r, current, ParseFieldAt(tokens, old(current)))
    {
      ghost var start := current;
      var location := Peek().position;
      var name := Consume(Identifier, "Expected field name");
      if name.Err? {
        assert ParseFieldAt(tokens, start) == Failure("Expected field name", start);
        return Err(name.error);
      }
      var typeToken := Consume(Identifier, "Expected field type");
      if typeToken.Err? {
        assert ParseFieldAt(tokens, start) == Failure("Expected field type", start + 1);
        return Err(typeToken.error);
      }
      ghost var modifiersAt := TypeModifiersAt(tokens, start + 2);
      var modifiers := ParseTypeModifiers();
      if modifiers.Err? {
        assert ParseFieldAt(tokens, start) == Failure(modifiersAt.reason, modifiersAt.at);
        return Err(modifiers.error);
      }
      var (isArray, isRequired) := modifiers.value;
      var fieldType := CreateTypeReferenceNode(typeToken.value.value, isArray, isRequired, typeToken.value.position);
      assert modifiersAt == Success((isArray, isRequired), current);
      ghost var attributesAt := FieldAttributesAt(tokens, current, []);
      var attributes := ParseFieldAttributes();
      if attributes.Err? {
        assert ParseFieldAt(tokens, start) == Failure(attributesAt.reason, attributesAt.at);
        return Err(attributes.error);
      }
      assert attributesAt == Success(attributes.value, current);
      assert ParseFieldAt(tokens, start) ==
        Success(CreateFieldNode(name.value.value, fieldType, isRequired, isArray, attributes.value, location), current);
      return Ok(CreateFieldNode(name.value.value, fieldType, isRequired, isArray, attributes.value, location));
    }

    /** The optional `[]` and `?` after a field's type: (isArray, isRequired). */
    method ParseTypeModifiers() returns (r: Result<(bool, bool), SchemaParsingError>)
      requires Valid()
      modifies this`current
      ensures Valid() && tokens == old(tokens)
      ensures Agrees(tokens, r, current, TypeModifiersAt(tokens, old(current)))
    {
      var isArray := false;
      var open := Match(BracketLeft);
      if open {
        var close := Consume(BracketRight, "Expected \"]\" after \"[\"");
        if close.Err? {
          return Err(close.error);
        }
        isArray := true;
      }
      var isRequired := true;
      var question := Match(Question);
      if question {
        isRequired := false;
      }
      return Ok((isArray, isRequired));
    }

    /** The `@` attributes of a field: one for each `@` that follows. */
    method ParseFieldAttributes() returns (r: Result<seq<AttributeNode>, SchemaParsingError>)
      requires Valid()
      modifies this`current
      ensures Valid() && tokens == old(tokens)
      ensures Agrees(tokens, r, current, FieldAttributesAt(tokens, old(current), []))
    {
      var attributes: seq<AttributeNode> := [];
      // `while (match(AT))`, written out: the loop steps over the `@` it tests for.
      while Check(At)
        invariant Valid() && tokens == old(tokens) && old(current) <= current
        invariant FieldAttributesAt(tokens, old(current), []) == FieldAttributesAt(tokens, current, attributes)
        decreases |tokens| - current
      {
        var _ := Advance();
        var attribute := ParseAttribute(true);
        if attribute.Err? {
          return Err(attribute.error);
        }
        attributes := attributes + [attribute.value];
      }
      return Ok(attributes);
    }

    /** A model whose `model` keyword was just consumed. */
    method ParseModel() returns (r: Result<ModelNode, SchemaParsingError>)
      requires Valid() && 1 <= current
      modifies this`current
      ensures Valid() && tokens == old(tokens)
      ensures Agrees(tokens, r, current, ParseModelAt(tokens, old(current)))
    {
      ghost var start := current;
      var location := Previous().position;
      var name := Consume(Identifier, "Expected model name");
      if name.Err? {
        assert ParseModelAt(tokens, start) == Failure("Expected model name", start);
        return Err(name.error);
      }
      var open := Consume(BraceLeft, "Expected \"{\" after model name");
      if open.Err? {
        assert ParseModelAt(tokens, start) == Failure("Expected \"{\" after model name", start + 1);
        return Err(open.error);
      }
      ghost var bodyAt := ModelBodyAt(tokens, start + 2, [], []);
      var body := ParseModelBody();
      if body.Err? {
        assert ParseModelAt(tokens, start) == Failure(bodyAt.reason, bodyAt.at);
        return Err(body.error);
      }
      assert bodyAt == Success(body.value, current);
      var close := Consume(BraceRight, "Expected \"}\" after model body");
      if close.Err? {
        assert ParseModelAt(tokens, start) == Failure("Expected \"}\" after model body", bodyAt.next);
        return Err(close.error);
      }
      assert ParseModelAt(tokens, start) == Success(CreateModelNode(name.value.value, body.value.0, body.value.1, location), current);
      return Ok(CreateModelNode(name.value.value, body.value.0, body.value.1, location));
    }

    /** The fields and `@@` attributes of a model body, up to its `}` or the end. */
    method ParseModelBody() returns (r: Result<(seq<FieldNode>, seq<AttributeNode>), SchemaParsingError>)
      requires Valid()
      modifies this`current
      ensures Valid() && tokens == old(tokens)
      ensures Agrees(tokens, r, current, ModelBodyAt(tokens, old(current), [], []))
    {
      var fields: seq<FieldNode> := [];
      var attributes: seq<AttributeNode> := [];
      while !Check(BraceRight) && !IsAtEnd()
        invariant Valid() && tokens == old(tokens) && old(current) <= current
        invariant ModelBodyAt(tokens, old(current), [], []) == ModelBodyAt(tokens, current, fields, attributes)
        decreases |tokens| - current
      {
        if Check(Comment) {
          var _ := Advance();
        } else if Check(AtAt) {
          var _ := Advance();
          var attribute := ParseAttribute(false);
          if attribute.Err? {
            return Err(attribute.error);
          }
          attributes := attributes + [attribute.value];
        } else {
          var field := ParseField();
          if field.Err? {
            return Err(field.error);
          }
          fields := fields + [field.value];
        }
      }
      return Ok((fields, attributes));
    }

    /** Error recovery: step past the current token, then on to the next sync point. */
    method Synchronize()
      requires Valid() && (1 <= current || !IsAtEnd())
      modifies this`current
      ensures Valid() && tokens == old(tokens)
      ensures current == Grammar.Synchronize(tokens, old(current))
    {
      var _ := Advance();
      while !IsAtEnd()
        invariant Valid() && tokens == old(tokens) && 1 <= current
        invariant SyncLoop(tokens, current) == Grammar.Synchronize(tokens, old(current))
        decreases |tokens| - current
      {
        if Previous().kind == BraceRight {
          return;
        }
        if Check(Keyword) {
          var value := Peek().value;
          if value == "model" || value == "enum" || value == "type" || value == "view"
            || value == "datasource" || value == "generator" {
            return;
          }
        }
        var _ := Advance();
      }
    }

    /**
     * The schema of `input`: its models, in order; a definition that throws
     * is dropped and parsing resumes at the next sync point.
     */
    method Parse(input: string) returns (schema: SchemaNode)
      modifies this
      ensures Valid() && IsTokenization(input, tokens)
      ensures schema == ParseSchema(tokens)
    {
      tokens := Tokenize(input);
      TokenizationWellFormed(input, tokens);
      current := 0;
      schema := CreateSchemaNode(Peek().position);
      while !IsAtEnd()
        invariant Valid() && IsTokenization(input, tokens)
        invariant SchemaLoop(tokens, 0, []) == SchemaLoop(tokens, current, schema.models)
        invariant schema == CreateSchemaNode(tokens[0].position).(models := schema.models)
        decreases |tokens| - current
      {
        var models := ParseDefinition(schema.models);
        schema := schema.(models := models);
      }
    }

    /**
     * One turn of the top-level loop, with the models found so far: skip a
     * comment, or parse a definition, catching what it throws and recovering.
     */
    method ParseDefinition(models: seq<ModelNode>) returns (found: seq<ModelNode>)
      requires Valid() && !IsAtEnd()
      modifies this`current
      ensures Valid() && tokens == old(tokens) && old(current) < current
      ensures SchemaLoop(tokens, old(current), models) == SchemaLoop(tokens, current, found)
    {
      ghost var i := current;
      found := models;
      if Check(Comment) {
        assert SchemaLoop(tokens, i, models) == SchemaLoop(tokens, i + 1, models);
        var _ := Advance();
        return;
      }
      var keyword := Match(Keyword);
      if !keyword {
        // "Unexpected token", thrown and caught.
        assert SchemaLoop(tokens, i, models) == SchemaLoop(tokens, Grammar.Synchronize(tokens, i), models);
        Synchronize();
        return;
      }
      var value := Previous().value;
      if value != "model" {
        // "Unexpected keyword", thrown and caught.
        assert SchemaLoop(tokens, i, models) == SchemaLoop(tokens, Grammar.Synchronize(tokens, i + 1), models);
        Synchronize();
        return;
      }
      ghost var parsed := ParseModelAt(tokens, i + 1);
      assert parsed.Success? ==> SchemaLoop(tokens, i, models) == SchemaLoop(tokens, parsed.next, models + [parsed.value]);
      assert parsed.Failure? ==> SchemaLoop(tokens, i, models) == SchemaLoop(tokens, Grammar.Synchronize(tokens, parsed.at), models);
      var model := ParseModel();
      if model.Ok? {
        found := models + [model.value];
      } else {
        // The error is caught and discarded.
        Synchronize();
      }
    }
  }
}
