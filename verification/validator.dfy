/**
 * The name-uniqueness validator of a schema: duplicate model, enum and type
 * names, and names shared across those three kinds of definition.
 *
 * A JavaScript `Set` iterates in insertion order, so the three name sets are
 * modelled as sequences without repeats, in first-occurrence order.
 */
module Validator {
  import opened Wrappers

  /** A model, enum or type definition; the validator reads only its name. */
  datatype Definition = Definition(name: string)

  /** The three lists of definitions the validator looks at. */
  datatype Schema = Schema(models: seq<Definition>, enums: seq<Definition>, types: seq<Definition>)

  datatype ValidationError = ValidationError(message: string, path: Option<string>)

  datatype ValidationResult = ValidationResult(isValid: bool, errors: seq<ValidationError>)

  /** What assertValidSchema throws. */
  datatype SchemaValidationError = SchemaValidationError(message: string)

  // ---------------------------------------------------------------------
  // Specification

  /** The names of defs, in order. */
  function Names(defs: seq<Definition>): seq<string>
  {
    if defs == [] then [] else Names(defs[..|defs| - 1]) + [defs[|defs| - 1].name]
  }

  /** No element of s occurs twice. */
  predicate Unique(s: seq<string>) {
    forall i, j :: 0 <= i < j < |s| ==> s[i] != s[j]
  }

  /**
   * The elements of s once each, in first-occurrence order: what a `Set`
   * holds after adding the elements of s in turn.
   */
  function Distinct(s: seq<string>): (d: seq<string>)
  {
    if s == [] then []
    else
      var d := Distinct(s[..|s| - 1]);
      if s[|s| - 1] in d then d else d + [s[|s| - 1]]
  }

  /** One entry for every element of s that already occurred earlier in s, in order. */
  function Repeats(s: seq<string>): (r: seq<string>)
  {
    if s == [] then []
    else
      var p := s[..|s| - 1];
      Repeats(p) + (if s[|s| - 1] in p then [s[|s| - 1]] else [])
  }

  /** The three kinds of definition whose names must be unique. */
  datatype Kind = ModelKind | EnumKind | TypeKind
  {
    /** The word used in a duplicate's message. */
    function Word(): string {
      match this
      case ModelKind => "model"
      case EnumKind => "enum"
      case TypeKind => "type"
    }

    /** The schema list a duplicate's path starts with. */
    function ListName(): string {
      match this
      case ModelKind => "models"
      case EnumKind => "enums"
      case TypeKind => "types"
    }
  }

  function DefinitionsOf(schema: Schema, kind: Kind): seq<Definition> {
    match kind
    case ModelKind => schema.models
    case EnumKind => schema.enums
    case TypeKind => schema.types
  }

  /** f applied to each element of s. */
  function Map<A, B>(f: A -> B, s: seq<A>): (r: seq<B>)
    ensures |r| == |s|
  {
    if s == [] then [] else Map(f, s[..|s| - 1]) + [f(s[|s| - 1])]
  }

  function DuplicateError(kind: Kind, name: string): ValidationError
  {
    ValidationError("Duplicate " + kind.Word() + " name: " + name, Some(kind.ListName() + "." + name))
  }

  /** DuplicateError for a fixed kind, as a function of the name. */
  function DuplicateErrorOf(kind: Kind): string -> ValidationError
  {
    name => DuplicateError(kind, name)
  }

  /** One error for each repeated occurrence of a name among names. */
  function DuplicateErrors(kind: Kind, names: seq<string>): seq<ValidationError>
  {
    Map(DuplicateErrorOf(kind), Repeats(names))
  }

  function CollisionError(name: string): ValidationError
  {
    ValidationError("Name collision across schema elements: " + name, Some(name))
  }

  /** The de-duplicated model, enum and type names, one list after the other. */
  function AllNames(schema: Schema): (all: seq<string>)
  {
    Distinct(Names(schema.models)) + Distinct(Names(schema.enums)) + Distinct(Names(schema.types))
  }

  function CollisionErrors(names: seq<string>): seq<ValidationError>
  {
    Map(CollisionError, names)
  }

  /**
   * The result of validation: model duplicates, then enum duplicates, then
   * type duplicates, then collisions; valid exactly when there are none.
   */
  function Validation(schema: Schema): (r: ValidationResult)
    ensures r.isValid <==> r.errors == []
  {
    var errors :=
      DuplicateErrors(ModelKind, Names(schema.models))
      + DuplicateErrors(EnumKind, Names(schema.enums))
      + DuplicateErrors(TypeKind, Names(schema.types))
      + CollisionErrors(Repeats(AllNames(schema)));
    ValidationResult(|errors| == 0, errors)
  }

  /** Array.prototype.indexOf: the first index holding x, or -1. */
  function IndexOf(s: seq<string>, x: string): (k: int)
    ensures k == -1 <==> x !in s
    ensures k != -1 ==> 0 <= k < |s| && s[k] == x && x !in s[..k]
  {
    if s == [] then -1
    else if s[0] == x then 0
    else
      var k := IndexOf(s[1..], x);
      if k == -1 then -1
      else
        assert s[..k + 1] == [s[0]] + s[1..][..k];
        k + 1
  }

  /** Lines joined with a separator, as Array.prototype.join. */
  function Join(lines: seq<string>, sep: char): (s: string)
  {
    if lines == [] then ""
    else if |lines| == 1 then lines[0]
    else lines[0] + [sep] + Join(lines[1..], sep)
  }

  /** The first index of c in s, when c occurs in s. */
  function FirstIndex(s: string, c: char): (k: nat)
    requires c in s
    ensures k < |s| && s[k] == c && c !in s[..k]
  {
    if s[0] == c then 0
    else
      var k := FirstIndex(s[1..], c);
      assert s[1..][..k] == s[1..k + 1];
      k + 1
  }

  /** The pieces of s between separators, as String.prototype.split. */
  function Split(s: string, sep: char): (pieces: seq<string>)
    decreases |s|
  {
    if sep !in s then [s]
    else
      var k := FirstIndex(s, sep);
      [s[..k]] + Split(s[k + 1..], sep)
  }

  const FailureHeader: string := "Schema validation failed:"

  /** Each error as a `- message` line. */
  function Lines(errors: seq<ValidationError>): (ls: seq<string>)
  {
    seq(|errors|, k requires 0 <= k < |errors| => "- " + errors[k].message)
  }

  /** The message assertValidSchema throws for the given errors. */
  function FailureMessage(errors: seq<ValidationError>): (m: string)
  {
    FailureHeader + "\n" + Join(Lines(errors), '\n')
  }

  lemma NamesAppend(defs: seq<Definition>, d: Definition)
    ensures Names(defs + [d]) == Names(defs) + [d.name]
  {
    assert (defs + [d])[..|defs|] == defs;
  }

  lemma MapAppend<A, B>(f: A -> B, s: seq<A>, x: A)
    ensures Map(f, s + [x]) == Map(f, s) + [f(x)]
  {
    assert (s + [x])[..|s|] == s;
  }

  lemma RepeatsAppend(s: seq<string>, x: string)
    ensures Repeats(s + [x]) == Repeats(s) + (if x in s then [x] else [])
  {
    assert (s + [x])[..|s|] == s;
  }

  lemma DistinctAppend(s: seq<string>, x: string)
    ensures Distinct(s + [x]) == if x in Distinct(s) then Distinct(s) else Distinct(s) + [x]
  {
    assert (s + [x])[..|s|] == s;
  }

  // ---------------------------------------------------------------------
  // Properties

  /** Every occurrence of x after its first is one repeat. */
  lemma {:induction false} RepeatsCount(s: seq<string>, x: string)
    ensures multiset(Repeats(s))[x] == if x in s then multiset(s)[x] - 1 else 0
  {
    if s != [] {
      var p := s[..|s| - 1];
      RepeatsCount(p, x);
      assert s == p + [s[|s| - 1]];
    }
  }

  /** A sequence has no repeats exactly when no element occurs twice. */
  lemma {:induction false} RepeatsEmpty(s: seq<string>)
    ensures Repeats(s) == [] <==> Unique(s)
  {
    if s != [] {
      var p := s[..|s| - 1];
      RepeatsEmpty(p);
      assert s == p + [s[|s| - 1]];
      if Unique(s) {
        assert Unique(p);
        assert s[|s| - 1] !in p;
      }
    }
  }

  /** The set built from s holds the elements of s and nothing else. */
  lemma {:induction false} DistinctMembers(s: seq<string>, x: string)
    ensures x in Distinct(s) <==> x in s
  {
    if s != [] {
      var p := s[..|s| - 1];
      DistinctMembers(p, x);
      assert s == p + [s[|s| - 1]];
    }
  }

  /** The set built from s holds each element of s once. */
  lemma {:induction false} DistinctCount(s: seq<string>, x: string)
    ensures multiset(Distinct(s))[x] == if x in s then 1 else 0
  {
    if s != [] {
      var p := s[..|s| - 1];
      DistinctCount(p, x);
      assert s == p + [s[|s| - 1]];
    }
  }

  lemma {:induction false} MapCount<A, B>(f: A -> B, s: seq<A>, x: A)
    requires forall a, b :: f(a) == f(b) ==> a == b
    ensures multiset(Map(f, s))[f(x)] == multiset(s)[x]
  {
    if s != [] {
      var p := s[..|s| - 1];
      MapCount(f, p, x);
      assert s == p + [s[|s| - 1]];
    }
  }

  lemma {:induction false} MapMisses<A, B>(f: A -> B, s: seq<A>, v: B)
    requires forall a :: f(a) != v
    ensures multiset(Map(f, s))[v] == 0
  {
    if s != [] {
      MapMisses(f, s[..|s| - 1], v);
    }
  }

  /** The kind's word starts at index 10 of a duplicate's message; a collision's has an `s` there. */
  lemma MessageLetter(kind: Kind, name: string)
    ensures DuplicateError(kind, name).message[10] == kind.Word()[0]
    ensures CollisionError(name).message[10] == 's'
  {
  }

  /** Duplicate errors of one kind are one per repeated name. */
  lemma DuplicatesOfKind(kind: Kind, names: seq<string>, other: Kind, x: string)
    ensures multiset(DuplicateErrors(kind, names))[DuplicateError(other, x)] ==
      if kind != other then 0 else if x in names then multiset(names)[x] - 1 else 0
  {
    var f := DuplicateErrorOf(kind);
    if kind == other {
      forall a, b | f(a) == f(b)
        ensures a == b
      {
        var prefix := kind.ListName() + ".";
        assert (prefix + a)[|prefix|..] == a;
        assert (prefix + b)[|prefix|..] == b;
      }
      MapCount(f, Repeats(names), x);
      RepeatsCount(names, x);
    } else {
      forall a
        ensures f(a) != DuplicateError(other, x)
      {
        MessageLetter(kind, a);
        MessageLetter(other, x);
      }
      MapMisses(f, Repeats(names), DuplicateError(other, x));
    }
  }

  /**
   * A name that occurs k >= 1 times in one list draws exactly k - 1 errors
   * "Duplicate <kind> name: <name>" with path "<list>.<name>", and none when
   * it does not occur there.
   */
  lemma DuplicateRule(schema: Schema, kind: Kind, x: string)
    ensures multiset(Validation(schema).errors)[DuplicateError(kind, x)] ==
      var names := Names(DefinitionsOf(schema, kind));
      if x in names then multiset(names)[x] - 1 else 0
  {
    var e := DuplicateError(kind, x);
    DuplicatesOfKind(ModelKind, Names(schema.models), kind, x);
    DuplicatesOfKind(EnumKind, Names(schema.enums), kind, x);
    DuplicatesOfKind(TypeKind, Names(schema.types), kind, x);
    forall a
      ensures CollisionError(a) != e
    {
      MessageLetter(kind, x);
      MessageLetter(kind, a);
    }
    MapMisses(CollisionError, Repeats(AllNames(schema)), e);
  }

  /** How many of the three lists name x. */
  function Categories(schema: Schema, x: string): nat {
    (if x in Names(schema.models) then 1 else 0)
    + (if x in Names(schema.enums) then 1 else 0)
    + (if x in Names(schema.types) then 1 else 0)
  }

  /**
   * A name used by c >= 1 of the three kinds of definition draws c - 1
   * collision errors, however often it repeats within a list: a name that is
   * a model, an enum and a type draws two.
   */
  lemma CollisionRule(schema: Schema, x: string)
    ensures multiset(Validation(schema).errors)[CollisionError(x)] ==
      if Categories(schema, x) == 0 then 0 else Categories(schema, x) - 1
  {
    var all := AllNames(schema);
    DistinctCount(Names(schema.models), x);
    DistinctCount(Names(schema.enums), x);
    DistinctCount(Names(schema.types), x);
    RepeatsCount(all, x);
    forall a, b | CollisionError(a) == CollisionError(b)
      ensures a == b
    {
    }
    MapCount(CollisionError, Repeats(all), x);
    forall kind: Kind, a
      ensures DuplicateErrorOf(kind)(a) != CollisionError(x)
    {
      MessageLetter(kind, a);
    }
    MapMisses(DuplicateErrorOf(ModelKind), Repeats(Names(schema.models)), CollisionError(x));
    MapMisses(DuplicateErrorOf(EnumKind), Repeats(Names(schema.enums)), CollisionError(x));
    MapMisses(DuplicateErrorOf(TypeKind), Repeats(Names(schema.types)), CollisionError(x));
  }

  /** No repeats exactly when no element occurs more than once. */
  lemma RepeatsBound(s: seq<string>)
    ensures Repeats(s) == [] <==> forall x :: multiset(s)[x] <= 1
  {
    forall x
      ensures multiset(Repeats(s))[x] == if x in s then multiset(s)[x] - 1 else 0
    {
      RepeatsCount(s, x);
    }
    if Repeats(s) != [] {
      var x := Repeats(s)[0];
      assert multiset(Repeats(s))[x] > 0;
    }
  }

  /** Per name: unique within each list and used by one kind at most, or unique overall. */
  lemma NameCounts(schema: Schema, x: string)
    ensures var m, e, t := Names(schema.models), Names(schema.enums), Names(schema.types);
      (multiset(m)[x] <= 1 && multiset(e)[x] <= 1 && multiset(t)[x] <= 1 && Categories(schema, x) <= 1)
      <==> multiset(m + e + t)[x] <= 1
  {
    var m, e, t := Names(schema.models), Names(schema.enums), Names(schema.types);
    assert multiset(m + e + t)[x] == multiset(m)[x] + multiset(e)[x] + multiset(t)[x];
    assert x in m <==> multiset(m)[x] > 0;
    assert x in e <==> multiset(e)[x] > 0;
    assert x in t <==> multiset(t)[x] > 0;
  }

  /**
   * A schema is valid exactly when no name occurs twice among the models,
   * enums and types taken together.
   */
  lemma ValidIffUnique(schema: Schema)
    ensures Validation(schema).isValid <==> Unique(Names(schema.models) + Names(schema.enums) + Names(schema.types))
  {
    var m, e, t := Names(schema.models), Names(schema.enums), Names(schema.types);
    var all := AllNames(schema);
    RepeatsEmpty(m + e + t);
    RepeatsBound(m);
    RepeatsBound(e);
    RepeatsBound(t);
    RepeatsBound(all);
    RepeatsBound(m + e + t);
    forall x
      ensures multiset(all)[x] == Categories(schema, x)
    {
      DistinctCount(m, x);
      DistinctCount(e, x);
      DistinctCount(t, x);
    }
    var valid := Repeats(m) == [] && Repeats(e) == [] && Repeats(t) == [] && Repeats(all) == [];
    assert Validation(schema).isValid <==> valid;
    if valid {
      forall x
        ensures multiset(m + e + t)[x] <= 1
      {
        NameCounts(schema, x);
      }
    }
    if Repeats(m + e + t) == [] {
      forall x
        ensures multiset(m)[x] <= 1 && multiset(e)[x] <= 1 && multiset(t)[x] <= 1 && multiset(all)[x] <= 1
      {
        NameCounts(schema, x);
      }
    }
  }

  /** The separator ends the first piece when the piece holds no separator. */
  lemma SplitAfter(h: string, sep: char, rest: string)
    requires sep !in h
    ensures Split(h + [sep] + rest, sep) == [h] + Split(rest, sep)
  {
    var s := h + [sep] + rest;
    assert s[|h|] == sep;
    var k := FirstIndex(s, sep);
    assert forall i :: 0 <= i < k ==> s[i] != sep;
    assert forall i :: 0 <= i < |h| ==> s[i] != sep;
    assert k == |h|;
    assert s[..k] == h;
    assert s[k + 1..] == rest;
  }

  /** Splitting joined lines gives the lines back when none holds the separator. */
  lemma {:induction false} JoinSplit(lines: seq<string>, sep: char)
    requires lines != []
    requires forall k :: 0 <= k < |lines| ==> sep !in lines[k]
    ensures Split(Join(lines, sep), sep) == lines
    decreases |lines|
  {
    if |lines| > 1 {
      SplitAfter(lines[0], sep, Join(lines[1..], sep));
      JoinSplit(lines[1..], sep);
    }
  }

  /**
   * The failure message is the header line followed by one `- message` line
   * per error, in order: split at its newlines it gives exactly those lines.
   */
  lemma FailureMessageLines(errors: seq<ValidationError>)
    requires errors != []
    requires forall k :: 0 <= k < |errors| ==> '\n' !in errors[k].message
    ensures Split(FailureMessage(errors), '\n') == [FailureHeader] + Lines(errors)
  {
    var lines := Lines(errors);
    forall k | 0 <= k < |lines|
      ensures '\n' !in lines[k]
    {
      assert lines[k] == "- " + errors[k].message;
    }
    JoinSplit(lines, '\n');
    SplitAfter(FailureHeader, '\n', Join(lines, '\n'));
  }

  lemma ExampleModels(u: string, p: string)
    requires u != p
    ensures Distinct([u, p, u]) == [u, p]
    ensures DuplicateErrors(ModelKind, [u, p, u]) == [DuplicateError(ModelKind, u)]
  {
    var m := [u, p, u];
    assert m[..2] == [u, p] && m[..2][..1] == [u] && m[..2][..1][..0] == [];
    assert Distinct(m[..2][..1]) == [u] && Repeats(m[..2][..1]) == [];
    assert Distinct(m[..2]) == [u, p];
    assert Repeats(m[..2]) == [];
    assert Repeats(m) == [u];
    assert Map(DuplicateErrorOf(ModelKind), [u]) == [DuplicateError(ModelKind, u)];
  }

  lemma ExampleEnums(r: string, u: string)
    requires u != r
    ensures Distinct([r, u]) == [r, u]
    ensures DuplicateErrors(EnumKind, [r, u]) == []
  {
    var e := [r, u];
    assert e[..1] == [r] && e[..1][..0] == [];
    assert Distinct(e[..1]) == [r] && Repeats(e[..1]) == [];
    assert Repeats(e) == [];
  }

  lemma ExampleCollisions(u: string, p: string, r: string)
    requires u != p && u != r && p != r
    ensures CollisionErrors(Repeats([u, p, r, u])) == [CollisionError(u)]
  {
    var all := [u, p, r, u];
    assert all[..3] == [u, p, r] && all[..3][..2] == [u, p] && all[..3][..2][..1] == [u];
    assert all[..3][..2][..1][..0] == [];
    assert Repeats(all[..3][..2][..1]) == [];
    assert Repeats(all[..3][..2]) == [];
    assert Repeats(all[..3]) == [];
    assert Repeats(all) == [u];
    assert Map(CollisionError, [u]) == [CollisionError(u)];
  }

  lemma ExampleNames(u: string, p: string, r: string)
    ensures Names([Definition(u), Definition(p), Definition(u)]) == [u, p, u]
    ensures Names([Definition(r), Definition(u)]) == [r, u]
  {
    var d1, d2, d3 := [Definition(u)], [Definition(u), Definition(p)], [Definition(u), Definition(p), Definition(u)];
    assert d3[..2] == d2 && d2[..1] == d1 && d1[..0] == [];
    assert Names(d1) == [u];
    assert Names(d2) == [u, p];
    var e1, e2 := [Definition(r)], [Definition(r), Definition(u)];
    assert e2[..1] == e1 && e1[..0] == [];
    assert Names(e1) == [r];
  }

  /**
   * Models u, p, u and enums r, u for distinct names u, p, r: one duplicate
   * model, then one collision.
   */
  lemma ExampleValidation(u: string, p: string, r: string)
    requires u != p && u != r && p != r
    ensures var schema := Schema([Definition(u), Definition(p), Definition(u)], [Definition(r), Definition(u)], []);
      Validation(schema) == ValidationResult(false, [DuplicateError(ModelKind, u), CollisionError(u)])
  {
    var schema := Schema([Definition(u), Definition(p), Definition(u)], [Definition(r), Definition(u)], []);
    ExampleNames(u, p, r);
    ExampleModels(u, p);
    ExampleEnums(r, u);
    ExampleCollisions(u, p, r);
    assert AllNames(schema) == [u, p, r, u] by {
      assert Distinct(Names(schema.types)) == [];
      assert [u, p] + [r, u] + [] == [u, p, r, u];
    }
    assert DuplicateErrors(TypeKind, []) == [];
    assert Validation(schema).errors == [DuplicateError(ModelKind, u)] + [] + [] + [CollisionError(u)];
  }

  // ---------------------------------------------------------------------
  // Implementation

  /** What one more definition adds to the set and to the duplicate errors. */
  lemma CollectStep(defs: seq<Definition>, k: nat, kind: Kind)
    requires k < |defs|
    ensures var before, name := Names(defs[..k]), defs[k].name;
      && (name in Distinct(before) <==> name in before)
      && Distinct(Names(defs[..k + 1])) == (if name in Distinct(before) then Distinct(before) else Distinct(before) + [name])
      && DuplicateErrors(kind, Names(defs[..k + 1])) ==
           DuplicateErrors(kind, before) + (if name in before then [DuplicateError(kind, name)] else [])
  {
    var before, name := Names(defs[..k]), defs[k].name;
    assert defs[..k + 1] == defs[..k] + [defs[k]];
    NamesAppend(defs[..k], defs[k]);
    RepeatsAppend(before, name);
    DistinctAppend(before, name);
    DistinctMembers(before, name);
    if name in before {
      MapAppend(DuplicateErrorOf(kind), Repeats(before), name);
    } else {
      assert Repeats(before + [name]) == Repeats(before);
    }
  }

  /**
   * One of the three uniqueness loops: add each name to a set, and return
   * the errors it pushes for the names the set already holds.
   */
  method CollectNames(defs: seq<Definition>, kind: Kind)
    returns (names: seq<string>, out: seq<ValidationError>)
    ensures names == Distinct(Names(defs))
    ensures out == DuplicateErrors(kind, Names(defs))
  {
    names := [];
    out := [];
    for k := 0 to |defs|
      invariant names == Distinct(Names(defs[..k]))
      invariant out == DuplicateErrors(kind, Names(defs[..k]))
    {
      var name := defs[k].name;
      CollectStep(defs, k, kind);
      if name in names {
        out := out + [DuplicateError(kind, name)];
      }
      // `Set.add` leaves a name already present where it is.
      if name !in names {
        names := names + [name];
      }
    }
    assert defs[..|defs|] == defs;
  }

  /** The filter keeping each name whose first index is not its own. */
  method CollidingNames(allNames: seq<string>) returns (duplicateNames: seq<string>)
    ensures duplicateNames == Repeats(allNames)
  {
    duplicateNames := [];
    for index := 0 to |allNames|
      invariant duplicateNames == Repeats(allNames[..index])
    {
      assert allNames[..index + 1] == allNames[..index] + [allNames[index]];
      RepeatsAppend(allNames[..index], allNames[index]);
      var first := IndexOf(allNames, allNames[index]);
      assert first != index <==> allNames[index] in allNames[..index];
      if first != index {
        duplicateNames := duplicateNames + [allNames[index]];
      }
    }
    assert allNames[..|allNames|] == allNames;
  }

  /** The last loop: one collision error per name the filter kept. */
  method ReportCollisions(duplicateNames: seq<string>) returns (out: seq<ValidationError>)
    ensures out == CollisionErrors(duplicateNames)
  {
    out := [];
    for k := 0 to |duplicateNames|
      invariant out == CollisionErrors(duplicateNames[..k])
    {
      assert duplicateNames[..k + 1] == duplicateNames[..k] + [duplicateNames[k]];
      MapAppend(CollisionError, duplicateNames[..k], duplicateNames[k]);
      out := out + [CollisionError(duplicateNames[k])];
    }
    assert duplicateNames[..|duplicateNames|] == duplicateNames;
  }

  method ValidateSchema(schema: Schema) returns (result: ValidationResult)
    ensures result == Validation(schema)
    ensures result.isValid <==> result.errors == []
  {
    var errors: seq<ValidationError> := [];
    var modelNames, modelErrors := CollectNames(schema.models, ModelKind);
    errors := errors + modelErrors;
    assert errors == modelErrors;
    var enumNames, enumErrors := CollectNames(schema.enums, EnumKind);
    errors := errors + enumErrors;
    var typeNames, typeErrors := CollectNames(schema.types, TypeKind);
    errors := errors + typeErrors;

    // Names at an index other than their first occurrence collide.
    var allNames := modelNames + enumNames + typeNames;
    var duplicateNames := CollidingNames(allNames);
    var collisionErrors := ReportCollisions(duplicateNames);
    assert collisionErrors == CollisionErrors(Repeats(AllNames(schema)));
    errors := errors + collisionErrors;
    assert errors == modelErrors + enumErrors + typeErrors + collisionErrors;
    result := ValidationResult(|errors| == 0, errors);
  }

  /** Throws when validation reports errors, listing each on a `- ` line. */
  method AssertValidSchema(schema: Schema) returns (r: Result<(), SchemaValidationError>)
    ensures r.Err? <==> !Validation(schema).isValid
    ensures r.Err? ==> r.error == SchemaValidationError(FailureMessage(Validation(schema).errors))
  {
    var result := ValidateSchema(schema);
    if !result.isValid {
      var messages := Join(Lines(result.errors), '\n');
      return Err(SchemaValidationError(FailureHeader + "\n" + messages));
    }
    return Ok(());
  }
}
