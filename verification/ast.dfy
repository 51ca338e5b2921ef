/**
 * The abstract syntax tree of the schema language: a closed set of node
 * kinds, one datatype per node interface, and the builder functions that
 * assemble a node from its parts and set its tag.
 */
module Ast {
  import opened Wrappers
  import opened Tokens

  /** The tag every tagged node carries. */
  datatype NodeType =
    | SchemaTag | DatasourceTag | GeneratorTag
    | ModelTag | EnumTag | TypeTag | ViewTag
    | FieldTag | AttributeTag
    | ArrayTag | CallTag | FunctionTag
    | IdentifierTag | StringTag | NumberTag | BooleanTag | NullTag

  /**
   * A value: the closed union of the seven value node kinds.  A number keeps
   * the raw digits of its token (the source converts them to a float).
   */
  datatype ValueNode =
    | IdentifierValue(name: string, location: SourcePosition)
    | StringValue(text: string, location: SourcePosition)
    | NumberValue(literal: string, location: SourcePosition)
    | BooleanValue(flag: bool, location: SourcePosition)
    | NullValue(location: SourcePosition)
    | ArrayValue(elements: seq<ValueNode>, location: SourcePosition)
    | CallValue(name: string, arguments: seq<ValueNode>, location: SourcePosition)
  {
    function Tag(): NodeType {
      match this
      case IdentifierValue(_, _) => IdentifierTag
      case StringValue(_, _) => StringTag
      case NumberValue(_, _) => NumberTag
      case BooleanValue(_, _) => BooleanTag
      case NullValue(_) => NullTag
      case ArrayValue(_, _) => ArrayTag
      case CallValue(_, _, _) => CallTag
    }
  }

  /** A `name = value` entry of a datasource or generator block (untagged). */
  datatype PropertyNode = PropertyNode(name: string, value: ValueNode, location: SourcePosition)

  /** An attribute argument; `name` is None for a positional argument (untagged). */
  datatype ArgumentNode = ArgumentNode(name: Option<string>, value: ValueNode, location: SourcePosition)

  /** `@name(...)` when isField holds, `@@name(...)` otherwise. */
  datatype AttributeNode = AttributeNode(name: string, isField: bool, arguments: seq<ArgumentNode>, location: SourcePosition)
  {
    function Tag(): NodeType { AttributeTag }
  }

  /** The type written after a field name, with its array and required flags (untagged). */
  datatype TypeReferenceNode = TypeReferenceNode(name: string, isArray: bool, isRequired: bool, location: SourcePosition)

  /** A field; its flags are repeated in its type reference. */
  datatype FieldNode = FieldNode(
    name: string, fieldType: TypeReferenceNode, isRequired: bool, isArray: bool,
    attributes: seq<AttributeNode>, location: SourcePosition)
  {
    function Tag(): NodeType { FieldTag }
  }

  datatype ModelNode = ModelNode(name: string, fields: seq<FieldNode>, attributes: seq<AttributeNode>, location: SourcePosition)
  {
    function Tag(): NodeType { ModelTag }
  }

  datatype DatasourceNode = DatasourceNode(name: string, properties: seq<PropertyNode>, location: SourcePosition)
  {
    function Tag(): NodeType { DatasourceTag }
  }

  datatype GeneratorNode = GeneratorNode(name: string, properties: seq<PropertyNode>, location: SourcePosition)
  {
    function Tag(): NodeType { GeneratorTag }
  }

  datatype EnumNode = EnumNode(name: string, values: seq<string>, attributes: seq<AttributeNode>, location: SourcePosition)
  {
    function Tag(): NodeType { EnumTag }
  }

  datatype TypeNode = TypeNode(
    name: string, baseType: Option<string>, fields: Option<seq<FieldNode>>,
    attributes: seq<AttributeNode>, location: SourcePosition)
  {
    function Tag(): NodeType { TypeTag }
  }

  datatype ViewNode = ViewNode(
    name: string, fields: seq<FieldNode>, attributes: seq<AttributeNode>,
    isMaterialized: bool, location: SourcePosition)
  {
    function Tag(): NodeType { ViewTag }
  }

  /** The document node: six ordered lists of top-level definitions. */
  datatype SchemaNode = SchemaNode(
    location: SourcePosition,
    datasources: seq<DatasourceNode>, generators: seq<GeneratorNode>,
    models: seq<ModelNode>, enums: seq<EnumNode>, types: seq<TypeNode>, views: seq<ViewNode>)
  {
    function Tag(): NodeType { SchemaTag }
  }

  // ---------------------------------------------------------------------
  // Builders

  function CreateSchemaNode(location: SourcePosition): (n: SchemaNode)
    ensures n.Tag() == SchemaTag && n.location == location
    ensures n.datasources == [] && n.generators == [] && n.models == []
    ensures n.enums == [] && n.types == [] && n.views == []
  {
    SchemaNode(location, [], [], [], [], [], [])
  }

  function CreateDatasourceNode(name: string, properties: seq<PropertyNode>, location: SourcePosition): (n: DatasourceNode)
    ensures n.Tag() == DatasourceTag
    ensures n.name == name && n.properties == properties && n.location == location
  {
    DatasourceNode(name, properties, location)
  }

  function CreateGeneratorNode(name: string, properties: seq<PropertyNode>, location: SourcePosition): (n: GeneratorNode)
    ensures n.Tag() == GeneratorTag
    ensures n.name == name && n.properties == properties && n.location == location
  {
    GeneratorNode(name, properties, location)
  }

  function CreatePropertyNode(name: string, value: ValueNode, location: SourcePosition): (n: PropertyNode)
    ensures n.name == name && n.value == value && n.location == location
  {
    PropertyNode(name, value, location)
  }

  function CreateModelNode(name: string, fields: seq<FieldNode>, attributes: seq<AttributeNode>, location: SourcePosition): (n: ModelNode)
    ensures n.Tag() == ModelTag
    ensures n.name == name && n.fields == fields && n.attributes == attributes && n.location == location
  {
    ModelNode(name, fields, attributes, location)
  }

  function CreateFieldNode(
    name: string, fieldType: TypeReferenceNode, isRequired: bool, isArray: bool,
    attributes: seq<AttributeNode>, location: SourcePosition): (n: FieldNode)
    ensures n.Tag() == FieldTag
    ensures n.name == name && n.fieldType == fieldType && n.location == location
    ensures n.isRequired == isRequired && n.isArray == isArray && n.attributes == attributes
  {
    FieldNode(name, fieldType, isRequired, isArray, attributes, location)
  }

  function CreateTypeReferenceNode(name: string, isArray: bool, isRequired: bool, location: SourcePosition): (n: TypeReferenceNode)
    ensures n.name == name && n.isArray == isArray && n.isRequired == isRequired && n.location == location
  {
    TypeReferenceNode(name, isArray, isRequired, location)
  }

  function CreateAttributeNode(name: string, isField: bool, args: seq<ArgumentNode>, location: SourcePosition): (n: AttributeNode)
    ensures n.Tag() == AttributeTag
    ensures n.name == name && n.isField == isField && n.arguments == args && n.location == location
  {
    AttributeNode(name, isField, args, location)
  }

  function CreateArgumentNode(value: ValueNode, name: Option<string>, location: SourcePosition): (n: ArgumentNode)
    ensures n.value == value && n.name == name && n.location == location
  {
    ArgumentNode(name, value, location)
  }

  function CreateEnumNode(name: string, values: seq<string>, attributes: seq<AttributeNode>, location: SourcePosition): (n: EnumNode)
    ensures n.Tag() == EnumTag
    ensures n.name == name && n.values == values && n.attributes == attributes && n.location == location
  {
    EnumNode(name, values, attributes, location)
  }

  function CreateTypeNode(
    name: string, baseType: Option<string>, fields: Option<seq<FieldNode>>,
    attributes: seq<AttributeNode>, location: SourcePosition): (n: TypeNode)
    ensures n.Tag() == TypeTag
    ensures n.name == name && n.baseType == baseType && n.fields == fields
    ensures n.attributes == attributes && n.location == location
  {
    TypeNode(name, baseType, fields, attributes, location)
  }

  function CreateViewNode(
    name: string, fields: seq<FieldNode>, attributes: seq<AttributeNode>,
    isMaterialized: bool, location: SourcePosition): (n: ViewNode)
    ensures n.Tag() == ViewTag
    ensures n.name == name && n.fields == fields && n.attributes == attributes
    ensures n.isMaterialized == isMaterialized && n.location == location
  {
    ViewNode(name, fields, attributes, isMaterialized, location)
  }

  function CreateIdentifierNode(name: string, location: SourcePosition): (n: ValueNode)
    ensures n.Tag() == IdentifierTag && n.name == name && n.location == location
  {
    IdentifierValue(name, location)
  }

  function CreateStringNode(value: string, location: SourcePosition): (n: ValueNode)
    ensures n.Tag() == StringTag && n.text == value && n.location == location
  {
    StringValue(value, location)
  }

  function CreateNumberNode(literal: string, location: SourcePosition): (n: ValueNode)
    ensures n.Tag() == NumberTag && n.literal == literal && n.location == location
  {
    NumberValue(literal, location)
  }

  function CreateBooleanNode(value: bool, location: SourcePosition): (n: ValueNode)
    ensures n.Tag() == BooleanTag && n.flag == value && n.location == location
  {
    BooleanValue(value, location)
  }

  function CreateNullNode(location: SourcePosition): (n: ValueNode)
    ensures n.Tag() == NullTag && n.location == location
  {
    NullValue(location)
  }

  function CreateArrayNode(elements: seq<ValueNode>, location: SourcePosition): (n: ValueNode)
    ensures n.Tag() == ArrayTag && n.elements == elements && n.location == location
  {
    ArrayValue(elements, location)
  }

  function CreateFunctionCallNode(name: string, args: seq<ValueNode>, location: SourcePosition): (n: ValueNode)
    ensures n.Tag() == CallTag && n.name == name && n.arguments == args && n.location == location
  {
    CallValue(name, args, location)
  }

  /** The value union's tag tells the seven variants apart: the tag determines the variant. */
  lemma ValueTagsDistinct(a: ValueNode, b: ValueNode)
    requires a.Tag() == b.Tag()
    ensures a.IdentifierValue? == b.IdentifierValue? && a.StringValue? == b.StringValue?
    ensures a.NumberValue? == b.NumberValue? && a.BooleanValue? == b.BooleanValue?
    ensures a.NullValue? == b.NullValue? && a.ArrayValue? == b.ArrayValue? && a.CallValue? == b.CallValue?
  {
  }
}
