/** Go types printed as text (pkg/reflectcfg/reflectcfg.go) and parsed back into JSON
    Schema nodes (pkg/reflectcfg/schema.go). */
module TypeSchema {
  import opened Common
  import opened Text

  /** What reflection reports of a config type. A named type has an import path, empty for
      predeclared types, and may have type arguments. A struct, function or channel literal
      and an anonymous interface are known by how they read as a type argument. */
  datatype GoType =
    | Named(pkg: string, base: string, args: seq<GoType>)
    | NamedInterface(pkg: string, base: string, args: seq<GoType>)
    | Any
    | AnonymousInterface(text: string)
    | Unnamed(text: string)
    | Array(size: string, elem: GoType)
    | Pointer(elem: GoType)
    | Slice(elem: GoType)
    | Map(key: GoType, elem: GoType)

  datatype Schema =
    | StringSchema
    | DurationSchema
    | IntegerSchema
    | NumberSchema
    | BooleanSchema
    | EnumSchema(choices: seq<string>)
    | ArraySchema(items: Schema)
    | MapSchema(entries: Schema)
    | ObjectSchema(properties: map<string, Schema>, required: seq<string>)

  datatype FieldDoc =
    FieldDoc(key: string, goType: string, enum: string, required: bool, fields: seq<FieldDoc>)

  // ----- the printer -----

  predicate IsIntType(t: string) {
    t in {"int", "int8", "int16", "int32", "int64",
          "uint", "uint8", "uint16", "uint32", "uint64", "byte", "rune", "uintptr"}
  }

  predicate IsFloatType(t: string) {
    t in {"float32", "float64"}
  }

  predicate IsBuiltin(name: string) {
    name in {"bool", "string", "complex64", "complex128", "error"} || IsIntType(name) || IsFloatType(name)
  }

  predicate IsVersion(part: string) {
    |part| >= 2 && part[0] == 'v' && '0' <= part[1] <= '9'
  }

  /** What precedes the first hyphen, unless that is where it starts. */
  function Stem(name: string): (stem: string)
    ensures forall c :: c in stem ==> c in name
  {
    var cut := Cut(name, '-');
    if cut.Some? && cut.value.0 != "" then cut.value.0 else name
  }

  /** The last element of a path, or the one before it when the last is a version. */
  function AliasElement(parts: seq<string>): (name: string)
    requires parts != []
    ensures name in parts
  {
    var last := parts[|parts| - 1];
    if |parts| >= 2 && IsVersion(last) then parts[|parts| - 2] else last
  }

  /** pkgAlias */
  function PkgAlias(pkg: string): (alias: string)
    ensures forall c :: c in alias ==> c in pkg
  {
    Stem(AliasElement(Split(pkg, '/')))
  }

  /** A type as a type argument of another, with full import paths. */
  function ArgText(t: GoType): string
    decreases t
  {
    match t
    case Pointer(elem) => "*" + ArgText(elem)
    case Slice(elem) => "[]" + ArgText(elem)
    case Map(key, elem) => "map[" + ArgText(key) + "]" + ArgText(elem)
    case Array(size, elem) => "[" + size + "]" + ArgText(elem)
    case Any => "interface {}"
    case AnonymousInterface(text) => text
    case Unnamed(text) => text
    case NamedInterface(pkg, base, args) => (if pkg != "" then pkg + "." else "") + base + ArgList(args)
    case Named(pkg, base, args) => (if pkg != "" then pkg + "." else "") + base + ArgList(args)
  }

  /** The bracketed arguments of a generic type, nothing for a type without any. */
  function ArgList(args: seq<GoType>): string
    decreases args, 1
  {
    if args == [] then "" else "[" + ArgsText(args) + "]"
  }

  function ArgsText(args: seq<GoType>): string
    requires args != []
    decreases args, 0
  {
    ArgText(args[0]) + if |args| == 1 then "" else "," + ArgsText(args[1..])
  }

  /** formatType */
  function FormatType(t: GoType): string {
    match t
    case Pointer(elem) => "*" + FormatType(elem)
    case Slice(elem) => "[]" + FormatType(elem)
    case Map(key, elem) => "map[" + FormatType(key) + "]" + FormatType(elem)
    case Any => "any"
    case AnonymousInterface(_) => "interface{}"
    case NamedInterface(pkg, base, args) =>
      var name := base + ArgList(args);
      if pkg != "" then PkgAlias(pkg) + "." + name else name
    case Named(pkg, base, args) =>
      var name := base + ArgList(args);
      if pkg != "" && !IsBuiltin(name) then PkgAlias(pkg) + "." + name else name
    case _ => ""
  }

  // ----- the parser -----

  predicate HasElem(t: string) {
    "map[" <= t || "[]" <= t
  }

  /** fieldSchema of a field of which only the type is known. */
  function TypeSchema(goType: string): Schema
    decreases |goType|, 1
  {
    var t := TrimPrefix(goType, "*");
    if t == "time.Duration" then DurationSchema
    else if "map[" <= t then MapSchema(ElemSchema(t))
    else if "[]" <= t then ArraySchema(ElemSchema(t))
    else if t == "bool" then BooleanSchema
    else if IsIntType(t) then IntegerSchema
    else if IsFloatType(t) then NumberSchema
    else StringSchema
  }

  /** elemSchema */
  function ElemSchema(goType: string): Schema
    decreases |goType|, if HasElem(goType) then 0 else 2
  {
    if "map[" <= goType then
      var cut := Cut(goType, ']');
      TypeSchema(if cut.Some? then cut.value.1 else "")
    else if "[]" <= goType then TypeSchema(TrimPrefix(goType, "[]"))
    else TypeSchema(goType)
  }

  // ----- the predeclared types of the language -----

  /** A numeric type named by its kind and its size in bits, if that is in the name. */
  ghost predicate IsSized(name: string, kind: string, size: string) {
    name == kind + size
  }

  ghost predicate IsGoInteger(name: string) {
    || name == "byte" || name == "rune" || name == "uintptr"
    || exists kind, size :: kind in {"int", "uint"} && size in {"", "8", "16", "32", "64"} && IsSized(name, kind, size)
  }

  ghost predicate IsGoFloat(name: string) {
    exists size :: size in {"32", "64"} && IsSized(name, "float", size)
  }

  ghost predicate IsGoComplex(name: string) {
    exists size :: size in {"64", "128"} && IsSized(name, "complex", size)
  }

  lemma SizedInts()
    ensures "int" + "" == "int" && "int" + "8" == "int8" && "int" + "16" == "int16"
    ensures "int" + "32" == "int32" && "int" + "64" == "int64"
    ensures "uint" + "" == "uint" && "uint" + "8" == "uint8" && "uint" + "16" == "uint16"
    ensures "uint" + "32" == "uint32" && "uint" + "64" == "uint64"
  {
  }

  lemma SizedFloats()
    ensures "float" + "32" == "float32" && "float" + "64" == "float64"
    ensures "complex" + "64" == "complex64" && "complex" + "128" == "complex128"
  {
  }

  /** The classifiers of the printer and the parser know exactly the integer and floating
      point types of the language, and those are described as such. */
  lemma PredeclaredIff(name: string)
    ensures IsIntType(name) <==> IsGoInteger(name)
    ensures IsFloatType(name) <==> IsGoFloat(name)
    ensures PredeclaredSchema(name) == IntegerSchema <==> IsGoInteger(name)
    ensures PredeclaredSchema(name) == NumberSchema <==> IsGoFloat(name)
    ensures PredeclaredSchema(name) == BooleanSchema <==> name == "bool"
  {
    SizedFloats();
    if IsFloatType(name) {
      var size :| size in ["32", "64"] && name == "float" + size;
      assert IsSized(name, "float", size);
    }
    SizedInts();
    if IsIntType(name) {
      if size :| size in ["", "8", "16", "32", "64"] && (name == "int" + size || name == "uint" + size) {
        assert IsSized(name, "int", size) || IsSized(name, "uint", size);
      }
    }
  }

  // ----- what a type should read back as -----

  /** The schema of a predeclared type. */
  function PredeclaredSchema(name: string): Schema {
    if IsIntType(name) then IntegerSchema
    else if IsFloatType(name) then NumberSchema
    else if name == "bool" then BooleanSchema
    else StringSchema
  }

  /** What the schema of a type should be, told by the type alone: predeclared types by
      their name, durations by name and package, every other leaf a string. */
  function SchemaOf(t: GoType): Schema {
    match t
    case Pointer(elem) => SchemaOf(elem)
    case Slice(elem) => ArraySchema(SchemaOf(elem))
    case Map(_, elem) => MapSchema(SchemaOf(elem))
    case Named(pkg, base, args) =>
      if args != [] then StringSchema
      else if pkg == "" then PredeclaredSchema(base)
      else if pkg == "time" && base == "Duration" then DurationSchema
      else StringSchema
    case _ => StringSchema
  }

  /** No character that the printed form of a type gives a meaning to. */
  predicate IsClean(s: string) {
    forall c :: c in s ==> c !in "[]*,"
  }

  /** Import paths are clean, names are identifiers and not the keyword `map`, sizes are
      numbers, and the literals of unnamed types have no brackets. */
  predicate WellFormed(t: GoType) {
    match t
    case Named(pkg, base, args) => IsClean(pkg) && IsName(base) && forall a :: a in args ==> WellFormed(a)
    case NamedInterface(pkg, base, args) => IsClean(pkg) && IsName(base) && forall a :: a in args ==> WellFormed(a)
    case Any => true
    case AnonymousInterface(text) => IsLiteral(text)
    case Unnamed(text) => IsLiteral(text)
    case Array(size, elem) => size != "" && IsClean(size) && WellFormed(elem)
    case Pointer(elem) => WellFormed(elem)
    case Slice(elem) => WellFormed(elem)
    case Map(key, elem) => WellFormed(key) && WellFormed(elem)
  }

  predicate IsName(base: string) {
    base != "" && base != "map" && IsClean(base) && '.' !in base
  }

  predicate IsLiteral(text: string) {
    '[' !in text && ']' !in text && !("*" <= text)
  }

  // ----- types that print like others -----

  predicate IsLeaf(t: GoType) {
    !t.Pointer? && !t.Slice? && !t.Map?
  }

  /** A leaf that prints like a type it is not: a named type called like a predeclared one,
      or a `Duration` of another package whose alias is `time`. */
  predicate Collides(t: GoType) {
    match t
    case Named(pkg, base, args) =>
      && args == [] && pkg != ""
      && (PredeclaredSchema(base) != StringSchema
          || (pkg != "time" && PkgAlias(pkg) == "time" && base == "Duration"))
    case NamedInterface(pkg, base, args) =>
      && args == []
      && (if pkg == "" then PredeclaredSchema(base) != StringSchema
          else PkgAlias(pkg) == "time" && base == "Duration")
    case _ => false
  }

  /** How the parser reads a text that is no pointer and no collection. */
  function ScalarSchema(text: string): Schema {
    if text == "time.Duration" then DurationSchema else PredeclaredSchema(text)
  }

  lemma PlainSchema(text: string)
    requires !("*" <= text) && !HasElem(text)
    ensures TypeSchema(text) == TypeSchema("*" + text) == ScalarSchema(text)
  {
    assert TrimPrefix("*" + text, "*") == text;
  }

  lemma TimeAlias()
    ensures PkgAlias("time") == "time"
  {
    assert "time"[0] == 't' && "time"[1] == 'i' && "time"[2] == 'm' && "time"[3] == 'e';
    assert '/' !in "time" && '-' !in "time";
    SplitNone("time", '/');
  }

  /** A qualified name is read as a duration exactly if it is spelled like one. */
  lemma QualifiedSchema(alias: string, name: string)
    ensures ScalarSchema(alias + "." + name) ==
      if alias == "time" && name == "Duration" then DurationSchema else StringSchema
  {
    hide IsIntType, IsFloatType;
    var text := alias + "." + name;
    assert text[|alias|] == '.';
    DotIsNoBuiltin(text);
    if text == "time.Duration" {
      assert "time.Duration"[|alias|] == '.';
      assert |alias| == 4;
      assert alias == text[..4] && name == text[5..];
      assert "time.Duration"[..4] == "time" && "time.Duration"[5..] == "Duration";
    }
  }

  lemma DotIsNoBuiltin(text: string)
    requires '.' in text
    ensures !IsIntType(text) && !IsFloatType(text) && text != "bool"
  {
  }

  lemma GenericSchema(text: string)
    requires '[' in text || ']' in text || ',' in text
    ensures ScalarSchema(text) == StringSchema
  {
  }

  /** A leaf is described as it should be exactly when it does not print like another. */
  lemma LeafIff(t: GoType)
    requires WellFormed(t) && IsLeaf(t)
    ensures ScalarSchema(FormatType(t)) == SchemaOf(t) <==> !Collides(t)
  {
    if t.Named? || t.NamedInterface? {
      TimeAlias();
      QualifiedSchema(PkgAlias(t.pkg), t.base + ArgList(t.args));
      NameSchema(t.base, t.args);
      hide PkgAlias, ArgList, ScalarSchema, IsBuiltin, PredeclaredSchema;
    }
  }

  /** A named type of a package is printed without it exactly if it is called like a
      predeclared type, and not generic. */
  lemma QualifiedIff(pkg: string, base: string, args: seq<GoType>)
    requires pkg != "" && IsName(base)
    ensures
      var predeclared := IsGoInteger(base) || IsGoFloat(base) || IsGoComplex(base) || base in {"bool", "string", "error"};
      FormatType(Named(pkg, base, args)) ==
        if args == [] && predeclared then base else PkgAlias(pkg) + "." + (base + ArgList(args))
  {
    NameSchema(base, args);
    PredeclaredIff(base);
    ComplexIff(base);
    hide PkgAlias, ArgList, ScalarSchema, PredeclaredSchema, IsName;
  }

  lemma ComplexIff(name: string)
    ensures name in {"complex64", "complex128"} <==> IsGoComplex(name)
  {
    SizedFloats();
    if name in {"complex64", "complex128"} {
      var size :| size in ["64", "128"] && name == "complex" + size;
      assert IsSized(name, "complex", size);
    }
  }

  lemma NameSchema(base: string, args: seq<GoType>)
    requires IsName(base)
    ensures ScalarSchema(base + ArgList(args)) == if args == [] then PredeclaredSchema(base) else StringSchema
    ensures args == [] ==> base + ArgList(args) == base
    ensures args != [] ==> !IsBuiltin(base + ArgList(args)) && base + ArgList(args) != "Duration"
    ensures PredeclaredSchema(base) != StringSchema ==> IsBuiltin(base) && base != "Duration"
    ensures !IsBuiltin("Duration")
  {
    hide ScalarSchema, ArgsText;
    var name := base + ArgList(args);
    if args != [] {
      assert name[|base|] == '[';
      GenericSchema(name);
      BracketIsNoBuiltin(name);
    } else {
      assert name == base;
      UnqualifiedSchema(base);
    }
  }

  lemma UnqualifiedSchema(base: string)
    requires '.' !in base
    ensures ScalarSchema(base) == PredeclaredSchema(base)
  {
    assert '.' in "time.Duration" by { assert "time.Duration"[4] == '.'; }
  }

  lemma BracketIsNoBuiltin(name: string)
    requires '[' in name
    ensures !IsBuiltin(name) && name != "Duration"
  {
  }

  /** What has no name is printed as nothing, except interfaces: `any` tells the empty one
      from the others. */
  lemma NamelessTypes(text: string, size: string, elem: GoType)
    ensures FormatType(Unnamed(text)) == FormatType(Array(size, elem)) == ""
    ensures FormatType(Any) == "any" && FormatType(AnonymousInterface(text)) == "interface{}"
  {
  }

  // ----- texts and their first closing bracket -----

  /** A type as `formatType` prints it, or as a type argument. */
  ghost function TextOf(t: GoType, arg: bool): string {
    if arg then ArgText(t) else FormatType(t)
  }

  /** The text of a type has a closing bracket. */
  predicate Brackets(t: GoType, arg: bool) {
    match t
    case Pointer(elem) => Brackets(elem, arg)
    case Slice(_) => true
    case Map(_, _) => true
    case Array(_, _) => arg
    case Named(_, _, args) => args != []
    case NamedInterface(_, _, args) => args != []
    case _ => false
  }

  /** What follows a text that was cut short: it cannot belong to a type. */
  ghost predicate IsTail(tail: string) {
    tail != "" && (tail[0] == ']' || tail[0] == ',')
  }

  /** The schema of a type whose text is followed by such a tail: the collections are read
      as they are, and what they lead to is a string. */
  function Torn(t: GoType, arg: bool): Schema
    decreases t
  {
    match t
    case Pointer(elem) => if elem.Pointer? then StringSchema else Torn(elem, arg)
    case Slice(elem) => ArraySchema(Torn(elem, arg))
    case Map(key, elem) => MapSchema(if Brackets(key, arg) then AfterBracket(key, arg) else Torn(elem, arg))
    case _ => StringSchema
  }

  /** The schema of what follows the first closing bracket of a type. */
  function AfterBracket(t: GoType, arg: bool): Schema
    decreases t
  {
    match t
    case Pointer(elem) => AfterBracket(elem, arg)
    case Slice(elem) => Torn(elem, arg)
    case Map(key, elem) => if Brackets(key, arg) then AfterBracket(key, arg) else Torn(elem, arg)
    case Array(_, elem) => Torn(elem, arg)
    case Named(_, _, args) => AfterBracketOfArgs(args)
    case NamedInterface(_, _, args) => AfterBracketOfArgs(args)
    case _ => StringSchema
  }

  function AfterBracketOfArgs(args: seq<GoType>): Schema
    decreases args
  {
    if args == [] then StringSchema
    else if Brackets(args[0], true) then AfterBracket(args[0], true)
    else AfterBracketOfArgs(args[1..])
  }

  /** Text at which no pointer and no collection starts, whatever tail follows. */
  ghost predicate StartsNone(x: string) {
    && !("*" <= x) && !("map[" <= x)
    && (x != "" && x[0] == '[' ==> |x| > 1 && x[1] != ']')
  }

  lemma Prefixes(x: string)
    ensures "*" <= x <==> x != "" && x[0] == '*'
    ensures "[]" <= x <==> |x| >= 2 && x[0] == '[' && x[1] == ']'
    ensures "map[" <= x <==> |x| >= 4 && x[0] == 'm' && x[1] == 'a' && x[2] == 'p' && x[3] == '['
  {
    assert "*"[0] == '*' && "[]"[0] == '[' && "[]"[1] == ']';
    assert "map["[0] == 'm' && "map["[1] == 'a' && "map["[2] == 'p' && "map["[3] == '[';
    assert |x| >= 1 && x[0] == '*' ==> x[..1] == "*";
    assert |x| >= 2 && x[0] == '[' && x[1] == ']' ==> x[..2] == "[]";
    assert |x| >= 4 && x[0] == 'm' && x[1] == 'a' && x[2] == 'p' && x[3] == '[' ==> x[..4] == "map[";
  }

  lemma StartsNoneWithTail(x: string, tail: string)
    requires StartsNone(x) && (tail == "" || IsTail(tail))
    ensures !("*" <= x + tail) && !HasElem(x + tail)
  {
    var text := x + tail;
    Prefixes(x);
    Prefixes(text);
    assert forall i :: 0 <= i < |x| ==> text[i] == x[i];
    assert tail != "" ==> text[|x|] == tail[0];
  }

  lemma CleanStart(s: string, rest: string)
    requires IsClean(s) && s != ""
    ensures (s + rest)[0] == s[0] && s[0] != '*' && s[0] != '['
  {
    assert s[0] in s;
  }

  lemma BaseStartsNone(base: string, rest: string)
    requires IsName(base) && (rest == "" || rest[0] == '[')
    ensures StartsNone(base + rest)
  {
    var x := base + rest;
    Prefixes(x);
    CleanStart(base, rest);
    assert forall i :: 0 <= i < |base| ==> x[i] == base[i] && base[i] in base;
    assert rest != "" ==> x[|base|] == '[';
    assert |base| == 3 ==> base == [base[0], base[1], base[2]];
    assert "map" == ['m', 'a', 'p'];
  }

  lemma QualifiedStartsNone(prefix: string, rest: string)
    requires IsClean(prefix) && prefix != "" && prefix[|prefix| - 1] == '.'
    ensures StartsNone(prefix + rest)
  {
    var x := prefix + rest;
    Prefixes(x);
    CleanStart(prefix, rest);
    assert forall i :: 0 <= i < |prefix| ==> x[i] == prefix[i] && prefix[i] in prefix;
    assert x[|prefix| - 1] == '.';
  }

  lemma NameStartsNone(prefix: string, base: string, rest: string)
    requires IsClean(prefix) && (prefix == "" || prefix[|prefix| - 1] == '.')
    requires IsName(base) && (rest == "" || rest[0] == '[')
    ensures StartsNone(prefix + base + rest)
  {
    hide StartsNone, IsClean, IsName;
    if prefix == "" {
      BaseStartsNone(base, rest);
      assert "" + base == base;
    } else {
      QualifiedStartsNone(prefix, base + rest);
      Grouped(prefix, base, rest);
    }
  }

  /** What a named type is printed with in front of its name. */
  function Qualifier(t: GoType, arg: bool): (q: string)
    requires t.Named? || t.NamedInterface?
    ensures forall c :: c in q ==> c in t.pkg || c == '.'
    ensures q == "" || q[|q| - 1] == '.'
  {
    if t.pkg == "" || (t.Named? && !arg && IsBuiltin(t.base + ArgList(t.args))) then ""
    else (if arg then t.pkg else PkgAlias(t.pkg)) + "."
  }

  lemma NamedText(t: GoType, arg: bool)
    requires t.Named? || t.NamedInterface?
    ensures TextOf(t, arg) == Qualifier(t, arg) + t.base + ArgList(t.args)
  {
    hide PkgAlias, ArgList;
    var name := t.base + ArgList(t.args);
    assert Qualifier(t, arg) + t.base + ArgList(t.args) == Qualifier(t, arg) + name;
    assert "" + name == name;
  }

  lemma UnnamedStartsNone(t: GoType, arg: bool)
    requires WellFormed(t) && IsLeaf(t) && !t.Named? && !t.NamedInterface?
    ensures StartsNone(TextOf(t, arg))
  {
    Prefixes(TextOf(t, arg));
    match t
    case Any => assert "any"[0] == 'a' && "interface {}"[0] == 'i';
    case AnonymousInterface(_) => assert "interface{}"[0] == 'i';
    case Unnamed(_) =>
    case Array(size, _) =>
      assert size[0] in size;
      assert arg ==> TextOf(t, arg)[0] == '[' && TextOf(t, arg)[1] == size[0];
  }

  /** No leaf looks like a pointer or a collection. */
  lemma LeafStartsNone(t: GoType, arg: bool)
    requires WellFormed(t) && IsLeaf(t)
    ensures StartsNone(TextOf(t, arg))
  {
    hide TextOf, StartsNone, ArgList;
    if t.Named? || t.NamedInterface? {
      NamedText(t, arg);
      ArgListStart(t.args);
      NameStartsNone(Qualifier(t, arg), t.base, ArgList(t.args));
    } else {
      UnnamedStartsNone(t, arg);
    }
  }

  lemma ArgListStart(args: seq<GoType>)
    ensures ArgList(args) == "" || ArgList(args)[0] == '['
  {
  }

  // --- the texts of collections ---

  lemma SliceText(text: string)
    ensures TypeSchema("[]" + text) == TypeSchema("*[]" + text) == ArraySchema(TypeSchema(text))
  {
    var s := "[]" + text;
    assert s[0] == '[' && s[1] == ']';
    assert TrimPrefix("*[]" + text, "*") == s;
    assert TrimPrefix(s, "[]") == text;
    assert "[]" <= s && !("map[" <= s) && !("*" <= s);
  }

  /** A map's value type is read after the first closing bracket. */
  lemma MapText(key: string, text: string)
    requires ']' !in key
    ensures TypeSchema("map[" + key + "]" + text) == MapSchema(TypeSchema(text))
  {
    var s := "map[" + key + "]" + text;
    assert s[0] == 'm' && s[1] == 'a' && s[2] == 'p' && s[3] == '[';
    assert "map[" <= s && !("*" <= s);
    assert s != "time.Duration" by { assert "time.Duration"[0] == 't'; }
    CutFirst("map[" + key, ']', text);
    assert ("map[" + key) + [']'] + text == s;
  }

  lemma PointerText(text: string)
    requires !("*" <= text)
    ensures TypeSchema("*" + text) == TypeSchema(text)
  {
    assert TrimPrefix("*" + text, "*") == text;
  }

  /** Behind two asterisks everything is a string. */
  lemma DoublePointerSchema(text: string)
    ensures TypeSchema("**" + text) == StringSchema
  {
    var t := TrimPrefix("**" + text, "*");
    assert t == "*" + text && t[0] == '*';
    assert "time.Duration"[0] == 't' && "map["[0] == 'm' && "[]"[0] == '[' && "bool"[0] == 'b';
    assert !IsIntType(t) && !IsFloatType(t);
  }

  lemma NotAPointer(t: GoType, arg: bool, tail: string)
    requires WellFormed(t) && !t.Pointer? && (tail == "" || IsTail(tail))
    ensures !("*" <= TextOf(t, arg) + tail)
  {
    if IsLeaf(t) {
      LeafStartsNone(t, arg);
      StartsNoneWithTail(TextOf(t, arg), tail);
    } else {
      assert (TextOf(t, arg) + tail)[0] == if t.Slice? then '[' else 'm';
      assert "*"[0] == '*';
    }
  }

  lemma TornLeaf(t: GoType, arg: bool, tail: string)
    requires WellFormed(t) && IsLeaf(t) && IsTail(tail)
    ensures TypeSchema(TextOf(t, arg) + tail) == StringSchema
  {
    hide TypeSchema, TextOf;
    LeafStartsNone(t, arg);
    StartsNoneWithTail(TextOf(t, arg), tail);
    PlainSchema(TextOf(t, arg) + tail);
    assert (TextOf(t, arg) + tail)[|TextOf(t, arg)|] == tail[0];
    GenericSchema(TextOf(t, arg) + tail);
  }

  lemma CleanHasNoBracket(s: string)
    requires IsClean(s)
    ensures ']' !in s
  {
  }

  lemma {:induction false} NoBracket(t: GoType, arg: bool)
    requires WellFormed(t) && !Brackets(t, arg)
    ensures ']' !in TextOf(t, arg)
  {
    hide PkgAlias, IsBuiltin;
    if t.Pointer? {
      NoBracket(t.elem, arg);
      assert TextOf(t, arg) == "*" + TextOf(t.elem, arg);
      hide TextOf;
    } else if t.Named? || t.NamedInterface? {
      NamedText(t, arg);
      CleanHasNoBracket(t.pkg);
      CleanHasNoBracket(t.base);
      assert ArgList(t.args) == "" && ']' !in Qualifier(t, arg);
      hide TextOf, Qualifier;
    }
  }

  /** The texts of pointers and collections in front of a tail. */
  lemma CollectionText(t: GoType, arg: bool, tail: string)
    ensures t.Pointer? ==> TextOf(t, arg) + tail == "*" + (TextOf(t.elem, arg) + tail)
    ensures t.Slice? ==> TextOf(t, arg) + tail == "[]" + (TextOf(t.elem, arg) + tail)
    ensures t.Map? ==> TextOf(t, arg) + tail == "map[" + TextOf(t.key, arg) + "]" + (TextOf(t.elem, arg) + tail)
  {
    hide PkgAlias, ArgList, IsBuiltin;
    match t {
      case Pointer(elem) =>
        var rest := TextOf(elem, arg);
        assert TextOf(t, arg) == "*" + rest;
        Grouped("*", rest, tail);
      case Slice(elem) =>
        var rest := TextOf(elem, arg);
        assert TextOf(t, arg) == "[]" + rest;
        Grouped("[]", rest, tail);
      case Map(key, elem) =>
        var front, rest := "map[" + TextOf(key, arg) + "]", TextOf(elem, arg);
        assert TextOf(t, arg) == front + rest;
        Grouped(front, rest, tail);
      case _ =>
    }
  }

  lemma Grouped(a: string, b: string, c: string)
    ensures (a + b) + c == a + (b + c)
  {
  }

  lemma TornPointer(t: GoType, arg: bool, tail: string)
    requires WellFormed(t) && IsTail(tail) && t.Pointer?
    ensures TypeSchema(TextOf(t, arg) + tail) ==
      if t.elem.Pointer? then StringSchema else TypeSchema(TextOf(t.elem, arg) + tail)
  {
    hide TypeSchema, TextOf;
    CollectionText(t, arg, tail);
    if t.elem.Pointer? {
      CollectionText(t.elem, arg, tail);
      var rest := TextOf(t.elem.elem, arg) + tail;
      assert "*" + ("*" + rest) == "**" + rest;
      DoublePointerSchema(rest);
    } else {
      NotAPointer(t.elem, arg, tail);
      PointerText(TextOf(t.elem, arg) + tail);
    }
  }

  /** A type followed by a tail. */
  lemma {:induction false} TornText(t: GoType, arg: bool, tail: string)
    requires WellFormed(t) && IsTail(tail)
    ensures TypeSchema(TextOf(t, arg) + tail) == Torn(t, arg)
    decreases t, 0
  {
    hide TypeSchema, TextOf, ArgList, PkgAlias, IsBuiltin;
    CollectionText(t, arg, tail);
    match t {
      case Pointer(elem) =>
        TornPointer(t, arg, tail);
        if !elem.Pointer? {
          TornText(elem, arg, tail);
        }
      case Slice(elem) =>
        SliceText(TextOf(elem, arg) + tail);
        TornText(elem, arg, tail);
      case Map(key, elem) =>
        var value := TextOf(elem, arg) + tail;
        if Brackets(key, arg) {
          var before, after := FirstBracket(key, arg, "]" + value);
          MapTextTorn(before, after, value);
        } else {
          NoBracket(key, arg);
          MapText(TextOf(key, arg), value);
          TornText(elem, arg, tail);
        }
      case _ =>
        TornLeaf(t, arg, tail);
    }
  }

  /** A map whose key has a closing bracket before its end. */
  lemma MapTextTorn(before: string, after: string, text: string)
    requires ']' !in before
    ensures TypeSchema("map[" + (before + "]" + after) + "]" + text) == MapSchema(TypeSchema(after + ("]" + text)))
  {
    hide TypeSchema;
    assert "map[" + (before + "]" + after) + "]" + text == "map[" + before + "]" + (after + ("]" + text));
    MapText(before, after + ("]" + text));
  }

  /** The text of a type around its first closing bracket, and how the rest is read when a
      tail follows. */
  lemma {:induction false} FirstBracket(t: GoType, arg: bool, tail: string) returns (before: string, after: string)
    requires WellFormed(t) && Brackets(t, arg) && IsTail(tail)
    ensures TextOf(t, arg) == before + "]" + after && ']' !in before
    ensures TypeSchema(after + tail) == AfterBracket(t, arg)
    decreases t, 1
  {
    hide TypeSchema, TextOf, PkgAlias, IsBuiltin, ArgList;
    CollectionText(t, arg, "");
    match t {
      case Pointer(elem) =>
        before, after := FirstBracket(elem, arg, tail);
        before := "*" + before;
      case Slice(elem) =>
        TornText(elem, arg, tail);
        before, after := "[", TextOf(elem, arg);
      case Array(size, elem) =>
        ArrayText(size, elem);
        TornText(elem, arg, tail);
        before, after := "[" + size, TextOf(elem, arg);
      case Map(key, elem) =>
        before, after := FirstBracketOfMap(t, arg, tail);
      case Named(pkg, base, args) =>
        before, after := FirstBracketOfName(t, arg, tail);
      case NamedInterface(pkg, base, args) =>
        before, after := FirstBracketOfName(t, arg, tail);
    }
    assert TextOf(t, arg) + "" == TextOf(t, arg);
  }

  lemma ArrayText(size: string, elem: GoType)
    requires IsClean(size)
    ensures TextOf(Array(size, elem), true) == "[" + size + "]" + TextOf(elem, true) && ']' !in size
  {
  }

  lemma FirstBracketOfMap(t: GoType, arg: bool, tail: string) returns (before: string, after: string)
    requires WellFormed(t) && t.Map? && IsTail(tail)
    ensures TextOf(t, arg) == before + "]" + after && ']' !in before
    ensures TypeSchema(after + tail) == AfterBracket(t, arg)
    decreases t, 0
  {
    hide TypeSchema, TextOf;
    CollectionText(t, arg, "");
    assert TextOf(t, arg) + "" == TextOf(t, arg) && TextOf(t.elem, arg) + "" == TextOf(t.elem, arg);
    if Brackets(t.key, arg) {
      var value := "]" + TextOf(t.elem, arg);
      before, after := FirstBracket(t.key, arg, value + tail);
      assert (after + value) + tail == after + (value + tail);
      before, after := "map[" + before, after + value;
    } else {
      NoBracket(t.key, arg);
      TornText(t.elem, arg, tail);
      before, after := "map[" + TextOf(t.key, arg), TextOf(t.elem, arg);
    }
  }

  lemma FirstBracketOfName(t: GoType, arg: bool, tail: string) returns (before: string, after: string)
    requires (t.Named? || t.NamedInterface?) && t.args != []
    requires WellFormed(t) && IsTail(tail)
    ensures TextOf(t, arg) == before + "]" + after && ']' !in before
    ensures TypeSchema(after + tail) == AfterBracketOfArgs(t.args)
    decreases t, 0
  {
    hide TypeSchema, TextOf, ArgList, Qualifier, PkgAlias;
    NamedText(t, arg);
    CleanHasNoBracket(t.pkg);
    CleanHasNoBracket(t.base);
    assert ']' !in Qualifier(t, arg);
    before, after := FirstBracketOfArgs(t.args, tail);
    BracketedArgs(t.args);
    AroundArgs(Qualifier(t, arg) + t.base, ArgsText(t.args), before, after);
    before := Qualifier(t, arg) + t.base + "[" + before;
  }

  lemma BracketedArgs(args: seq<GoType>)
    requires args != []
    ensures ArgList(args) == "[" + (ArgsText(args) + "]")
    ensures ArgsText(args) == ArgText(args[0]) + if |args| == 1 then "" else "," + ArgsText(args[1..])
  {
  }

  lemma AroundArgs(name: string, text: string, before: string, after: string)
    requires text + "]" == before + "]" + after
    ensures name + ("[" + (text + "]")) == (name + "[" + before) + "]" + after
  {
  }

  lemma {:induction false} FirstBracketOfArgs(args: seq<GoType>, tail: string) returns (before: string, after: string)
    requires args != [] && (forall a :: a in args ==> WellFormed(a)) && IsTail(tail)
    ensures ArgsText(args) + "]" == before + "]" + after && ']' !in before
    ensures TypeSchema(after + tail) == AfterBracketOfArgs(args)
    decreases args, 2
  {
    hide TypeSchema, ArgText, ArgsText, WellFormed, Brackets, AfterBracket;
    var head := args[0];
    var more := (if |args| == 1 then "" else "," + ArgsText(args[1..])) + "]";
    BracketedArgs(args);
    assert ArgsText(args) + "]" == ArgText(head) + more;
    assert TextOf(head, true) == ArgText(head);
    if Brackets(head, true) {
      before, after := FirstBracket(head, true, more + tail);
      Grouped(after, more, tail);
      Grouped(before + "]", after, more);
      after := after + more;
    } else {
      NoBracket(head, true);
      if |args| == 1 {
        before, after := ArgText(head), "";
        LastArg(tail);
      } else {
        before, after := FirstBracketOfArgs(args[1..], tail);
        AroundNext(ArgText(head), ArgsText(args[1..]), before, after);
        before := ArgText(head) + "," + before;
      }
    }
  }

  lemma LastArg(tail: string)
    requires IsTail(tail)
    ensures TypeSchema("" + tail) == StringSchema
  {
    hide TypeSchema;
    StartsNoneWithTail("", tail);
    PlainSchema(tail);
    assert "" + tail == tail;
    GenericSchema(tail);
  }

  lemma AroundNext(head: string, text: string, before: string, after: string)
    requires text + "]" == before + "]" + after
    ensures head + ("," + text + "]") == (head + "," + before) + "]" + after
  {
    assert "," + text + "]" == "," + (text + "]");
  }

  // ----- types read back -----

  /** What the parser makes of the printed form of a type. */
  function ReadBack(t: GoType): Schema {
    match t
    case Pointer(elem) => if elem.Pointer? then StringSchema else ReadBack(elem)
    case Slice(elem) => ArraySchema(ReadBack(elem))
    case Map(key, elem) => MapSchema(if Brackets(key, false) then AfterBracket(key, false) else ReadBack(elem))
    case _ => ScalarSchema(FormatType(t))
  }

  lemma MapIsPrinted(key: GoType, elem: GoType)
    ensures FormatType(Map(key, elem)) == "map[" + FormatType(key) + "]" + FormatType(elem)
    ensures TextOf(key, false) == FormatType(key) && IsTail("]" + FormatType(elem))
  {
    hide PkgAlias, ArgList, IsBuiltin;
  }

  lemma PrintedMap(key: GoType, elem: GoType)
    requires WellFormed(key)
    ensures TypeSchema(FormatType(Map(key, elem))) ==
      MapSchema(if Brackets(key, false) then AfterBracket(key, false) else TypeSchema(FormatType(elem)))
  {
    hide TypeSchema, FormatType, WellFormed, Brackets, AfterBracket, TextOf, IsTail;
    MapIsPrinted(key, elem);
    var text, value := FormatType(key), FormatType(elem);
    if Brackets(key, false) {
      var before, after := FirstBracket(key, false, "]" + value);
      MapTextTorn(before, after, value);
    } else {
      NoBracket(key, false);
      MapText(text, value);
    }
  }

  lemma PrintedPointer(elem: GoType)
    requires WellFormed(elem)
    ensures TypeSchema(FormatType(Pointer(elem))) == if elem.Pointer? then StringSchema else TypeSchema(FormatType(elem))
  {
    var text := FormatType(elem);
    assert FormatType(Pointer(elem)) == "*" + text && TextOf(elem, false) + "" == text;
    if elem.Pointer? {
      TwoAsterisks(elem.elem);
      hide TypeSchema, FormatType;
      DoublePointerSchema(FormatType(elem.elem));
    } else {
      hide TypeSchema, FormatType, TextOf;
      NotAPointer(elem, false, "");
      PointerText(text);
    }
  }

  lemma PrintedLeaf(t: GoType)
    requires WellFormed(t) && IsLeaf(t)
    ensures TypeSchema(FormatType(t)) == ScalarSchema(FormatType(t))
  {
    assert TextOf(t, false) == FormatType(t) && FormatType(t) + "" == FormatType(t);
    hide TypeSchema, FormatType, ScalarSchema, TextOf, StartsNone;
    LeafStartsNone(t, false);
    StartsNoneWithTail(FormatType(t), "");
    PlainSchema(FormatType(t));
  }

  lemma PrintedSlice(elem: GoType)
    ensures TypeSchema(FormatType(Slice(elem))) == ArraySchema(TypeSchema(FormatType(elem)))
  {
    var text := FormatType(elem);
    assert FormatType(Slice(elem)) == "[]" + text;
    hide TypeSchema, FormatType;
    SliceText(text);
  }

  lemma {:induction false} PrintedThenParsed(t: GoType)
    requires WellFormed(t)
    ensures TypeSchema(FormatType(t)) == ReadBack(t)
  {
    hide TypeSchema, FormatType, ScalarSchema;
    match t {
      case Pointer(elem) =>
        PrintedPointer(elem);
        if !elem.Pointer? {
          PrintedThenParsed(elem);
        }
      case Slice(elem) =>
        PrintedSlice(elem);
        PrintedThenParsed(elem);
      case Map(key, elem) =>
        PrintedMap(key, elem);
        if !Brackets(key, false) {
          PrintedThenParsed(elem);
        }
      case _ =>
        PrintedLeaf(t);
    }
  }

  /** A duration of another package is read as one of package time. */
  lemma CollidingDuration()
    ensures
      var t := Named("acme/time", "Duration", []);
      WellFormed(t) && Collides(t) && TypeSchema(FormatType(t)) == DurationSchema && SchemaOf(t) == StringSchema
  {
    TimeOfAcme();
    CleanNames();
    NameSchema("Duration", []);
    QualifiedSchema("time", "Duration");
    hide PkgAlias, TypeSchema, ScalarSchema, IsBuiltin, ArgList, IsClean, IsName, PredeclaredSchema;
    assert FormatType(Named("acme/time", "Duration", [])) == "time" + "." + "Duration";
    PrintedThenParsed(Named("acme/time", "Duration", []));
  }

  /** A named type called `bool` is read as a boolean, whatever it is. */
  lemma CollidingBool()
    ensures
      var t := Named("acme/x", "bool", []);
      WellFormed(t) && Collides(t) && TypeSchema(FormatType(t)) == BooleanSchema && SchemaOf(t) == StringSchema
  {
    CleanNames();
    NameSchema("bool", []);
    assert PredeclaredSchema("bool") == BooleanSchema && IsBuiltin("bool");
    hide PkgAlias, TypeSchema, ScalarSchema, IsBuiltin, ArgList, IsClean, IsName, PredeclaredSchema;
    assert FormatType(Named("acme/x", "bool", [])) == "bool";
    PrintedThenParsed(Named("acme/x", "bool", []));
  }

  lemma CleanNames()
    ensures IsClean("acme/time") && IsClean("acme/x") && IsName("Duration") && IsName("bool")
  {
  }

  lemma TimeOfAcme()
    ensures PkgAlias("acme/time") == "time"
  {
    assert '/' !in "time" && '-' !in "time" && "time"[0] != 'v';
    assert "acme" + "/" + "time" == "acme/time" && Stem("time") == "time";
    hide Stem;
    AliasOf("acme", "time", "");
  }

  /** The types that are read back: no leaf prints like another type; where a pointer points
      to a pointer, a string is behind them, since only one asterisk is taken off; and where
      a map key prints a closing bracket, the values happen to be what follows that bracket. */
  predicate Legible(t: GoType) {
    match t
    case Pointer(elem) => if elem.Pointer? then SchemaOf(elem) == StringSchema else Legible(elem)
    case Slice(elem) => Legible(elem)
    case Map(key, elem) =>
      if Brackets(key, false) then SchemaOf(elem) == AfterBracket(key, false) else Legible(elem)
    case _ => !Collides(t)
  }

  /** Parsing the printed form of any type gives the schema of the type exactly when the
      type is legible. */
  lemma {:induction false} ReadsBackIff(t: GoType)
    requires WellFormed(t)
    ensures TypeSchema(FormatType(t)) == SchemaOf(t) <==> Legible(t)
  {
    hide TypeSchema, FormatType, ScalarSchema, Collides;
    PrintedThenParsed(t);
    match t {
      case Pointer(elem) =>
        if !elem.Pointer? {
          PrintedThenParsed(elem);
          ReadsBackIff(elem);
        }
      case Slice(elem) =>
        PrintedThenParsed(elem);
        ReadsBackIff(elem);
      case Map(key, elem) =>
        if !Brackets(key, false) {
          PrintedThenParsed(elem);
          ReadsBackIff(elem);
        }
      case _ =>
        LeafIff(t);
    }
  }

  /** Scalars, durations, single pointers, slices, and maps whose keys print no bracket. */
  predicate IsOrdinary(t: GoType) {
    match t
    case Pointer(elem) => !elem.Pointer? && IsOrdinary(elem)
    case Slice(elem) => IsOrdinary(elem)
    case Map(key, elem) => !Brackets(key, false) && IsOrdinary(elem)
    case _ => !Collides(t)
  }

  lemma {:induction false} OrdinaryIsLegible(t: GoType)
    requires IsOrdinary(t)
    ensures Legible(t)
  {
    match t
    case Pointer(elem) => OrdinaryIsLegible(elem);
    case Slice(elem) => OrdinaryIsLegible(elem);
    case Map(_, elem) => OrdinaryIsLegible(elem);
    case _ =>
  }

  lemma ReadsBack(t: GoType)
    requires WellFormed(t) && IsOrdinary(t)
    ensures TypeSchema(FormatType(t)) == SchemaOf(t)
  {
    OrdinaryIsLegible(t);
    ReadsBackIff(t);
  }

  /** Whatever is not described as a string is misread behind two pointers, `**int` for one. */
  lemma DoublePointersMisread(t: GoType)
    requires SchemaOf(t) != StringSchema
    ensures TypeSchema(FormatType(Pointer(Pointer(t)))) == StringSchema != SchemaOf(Pointer(Pointer(t)))
    ensures FormatType(Pointer(Pointer(Named("", "int", [])))) == "**int" && SchemaOf(Named("", "int", [])) == IntegerSchema
  {
    DoublePointerToInt();
    hide TypeSchema, FormatType;
    TwoAsterisks(t);
    DoublePointerSchema(FormatType(t));
  }

  lemma TwoAsterisks(t: GoType)
    ensures FormatType(Pointer(Pointer(t))) == "**" + FormatType(t)
  {
    hide PkgAlias, ArgList, IsBuiltin;
    assert FormatType(Pointer(t)) == "*" + FormatType(t);
    assert FormatType(Pointer(Pointer(t))) == "*" + FormatType(Pointer(t));
  }

  lemma DoublePointerToInt()
    ensures FormatType(Pointer(Pointer(Named("", "int", [])))) == "**int" && SchemaOf(Named("", "int", [])) == IntegerSchema
  {
    TwoAsterisks(Named("", "int", []));
    hide PkgAlias;
    assert FormatType(Named("", "int", [])) == "int" + ArgList([]) == "int";
  }

  /** The values of a map keyed by a generic type are read as strings unless an argument of
      the key is a collection; `map[Opt[int]]int` is one that is misread. */
  lemma GenericKey(pkg: string, base: string, args: seq<GoType>, elem: GoType)
    requires WellFormed(Named(pkg, base, args)) && WellFormed(elem) && args != []
    requires forall a :: a in args ==> !Brackets(a, true)
    ensures TypeSchema(FormatType(Map(Named(pkg, base, args), elem))) == MapSchema(StringSchema)
    ensures TypeSchema(FormatType(Map(Named(pkg, base, args), elem))) == SchemaOf(Map(Named(pkg, base, args), elem))
       <==> SchemaOf(elem) == StringSchema
  {
    hide TypeSchema, FormatType;
    PrintedThenParsed(Map(Named(pkg, base, args), elem));
    NothingAfter(args);
  }

  lemma {:induction false} NothingAfter(args: seq<GoType>)
    requires forall a :: a in args ==> !Brackets(a, true)
    ensures AfterBracketOfArgs(args) == StringSchema
  {
    if args != [] {
      NothingAfter(args[1..]);
    }
  }

  // --- the alias of a package ---

  /** The alias is the stem of the last element of the import path, or of the one before it
      when the last is a version; the stem ends at the first hyphen. */
  lemma AliasOf(dir: string, name: string, version: string)
    requires '/' !in name && '/' !in version
    ensures PkgAlias(name) == Stem(name)
    ensures !(|name| >= 2 && name[0] == 'v' && '0' <= name[1] <= '9') ==> PkgAlias(dir + "/" + name) == Stem(name)
    ensures |version| >= 2 && version[0] == 'v' && '0' <= version[1] <= '9' ==>
      PkgAlias(dir + "/" + name + "/" + version) == Stem(name)
  {
    assert forall part :: IsVersion(part) <==> |part| >= 2 && part[0] == 'v' && '0' <= part[1] <= '9';
    hide Split, Stem, IsVersion, Join;
    SplitNone(name, '/');
    SplitLast(dir, '/', name);
    SplitLast(dir + "/" + name, '/', version);
    LastElement(Split(dir, '/'), name, version);
  }

  lemma LastElement(parts: seq<string>, name: string, version: string)
    ensures AliasElement([name]) == name
    ensures !IsVersion(name) ==> AliasElement(parts + [name]) == name
    ensures IsVersion(version) ==> AliasElement(parts + [name] + [version]) == name
  {
    hide IsVersion;
  }

  lemma StemOf(before: string, after: string)
    requires '-' !in before
    ensures Stem(before) == before
    ensures Stem(before + "-" + after) == if before != "" then before else "-" + after
  {
    CutFirst(before, '-', after);
    assert "" + "-" + after == "-" + after;
  }

  // ----- documented fields -----

  /** fieldSchema */
  function FieldSchema(f: FieldDoc): Schema
    decreases f, 2
  {
    if f.fields != [] then
      var obj := ObjectOf(f.fields);
      if "[]" <= f.goType then ArraySchema(obj)
      else if "map[" <= f.goType then MapSchema(obj)
      else obj
    else if f.enum != "" then EnumSchema(Split(f.enum, ','))
    else TypeSchema(f.goType)
  }

  /** The object of a list of fields: the last field of a key describes it, and the keys
      of required fields that are not pointers are required. */
  function ObjectOf(fields: seq<FieldDoc>): Schema
    decreases fields, 1
  {
    ObjectSchema(PropertiesOf(fields), RequiredKeys(fields))
  }

  function PropertiesOf(fields: seq<FieldDoc>): map<string, Schema>
    decreases fields, 0
  {
    map key | key in Keys(fields) :: FieldSchema(fields[LastOf(fields, key)])
  }

  function Keys(fields: seq<FieldDoc>): set<string> {
    set f | f in fields :: f.key
  }

  /** The last field of a key. */
  function LastOf(fields: seq<FieldDoc>, key: string): (i: nat)
    requires key in Keys(fields)
    ensures i < |fields| && fields[i].key == key
    ensures forall j :: i < j < |fields| ==> fields[j].key != key
  {
    var k := |fields| - 1;
    if fields[k].key == key then k else LastOf(fields[..k], key)
  }

  predicate Demanded(f: FieldDoc) {
    f.required && !("*" <= f.goType)
  }

  function RequiredKeys(fields: seq<FieldDoc>): (keys: seq<string>)
    ensures forall k :: k in keys <==> exists f :: f in fields && Demanded(f) && f.key == k
  {
    if fields == [] then []
    else
      var last := fields[|fields| - 1];
      var before := RequiredKeys(fields[..|fields| - 1]);
      assert fields == fields[..|fields| - 1] + [last];
      if Demanded(last) then before + [last.key] else before
  }

  lemma KeysOfMore(fields: seq<FieldDoc>, f: FieldDoc)
    ensures Keys(fields + [f]) == Keys(fields) + {f.key}
  {
    var more := fields + [f];
    assert more[|fields|] == f;
    assert forall k :: 0 <= k < |fields| ==> more[k] == fields[k];
  }

  lemma LastOfMore(fields: seq<FieldDoc>, f: FieldDoc, key: string)
    requires key in Keys(fields + [f])
    ensures key != f.key ==> key in Keys(fields)
    ensures LastOf(fields + [f], key) == if key == f.key then |fields| else LastOf(fields, key)
  {
    KeysOfMore(fields, f);
    assert (fields + [f])[..|fields|] == fields && (fields + [f])[|fields|] == f;
  }

  /** One more field overwrites what its key meant so far. */
  lemma AddField(fields: seq<FieldDoc>, f: FieldDoc)
    ensures ObjectOf(fields + [f]) == ObjectSchema(
              ObjectOf(fields).properties[f.key := FieldSchema(f)],
              if Demanded(f) then ObjectOf(fields).required + [f.key] else ObjectOf(fields).required)
  {
    assert (fields + [f])[..|fields|] == fields;
    hide FieldSchema, Demanded, PropertiesOf;
    AddProperty(fields, f);
  }

  lemma PropertyOf(fields: seq<FieldDoc>, key: string)
    ensures key in PropertiesOf(fields) <==> key in Keys(fields)
    ensures key in Keys(fields) ==> PropertiesOf(fields)[key] == FieldSchema(fields[LastOf(fields, key)])
  {
    hide FieldSchema, LastOf, Keys;
  }

  lemma AddProperty(fields: seq<FieldDoc>, f: FieldDoc)
    ensures PropertiesOf(fields + [f]) == PropertiesOf(fields)[f.key := FieldSchema(f)]
  {
    var more := fields + [f];
    hide FieldSchema, LastOf, Keys, PropertiesOf;
    KeysOfMore(fields, f);
    var a, b := PropertiesOf(more), PropertiesOf(fields)[f.key := FieldSchema(f)];
    forall key ensures key in a <==> key in b {
      PropertyOf(more, key);
      PropertyOf(fields, key);
    }
    forall key | key in a ensures a[key] == b[key] {
      PropertyOf(more, key);
      PropertyOf(fields, key);
      LastOfMore(fields, f, key);
    }
    assert a == b;
  }

  /** A field with documented sub-fields is described as their object, or as a list or a
      map of such objects, according to its type. */
  lemma DocumentedField(f: FieldDoc, t: GoType)
    requires WellFormed(t) && f.goType == FormatType(t) && f.fields != []
    ensures FieldSchema(f) == match t
                              case Slice(_) => ArraySchema(ObjectOf(f.fields))
                              case Map(_, _) => MapSchema(ObjectOf(f.fields))
                              case _ => ObjectOf(f.fields)
  {
    if IsLeaf(t) {
      LeafStartsNone(t, false);
      StartsNoneWithTail(f.goType, "");
      assert f.goType + "" == f.goType;
    } else {
      assert f.goType[0] == if t.Pointer? then '*' else if t.Slice? then '[' else 'm';
      assert t.Slice? ==> f.goType[..2] == "[]";
      assert t.Map? ==> f.goType[..4] == "map[";
      assert "map["[0] == 'm' && "[]"[0] == '[';
    }
  }

  /** A field of which only the type is documented is described by the schema of the type
      exactly for the types that are read back. */
  lemma PlainFieldIff(f: FieldDoc, t: GoType)
    requires WellFormed(t) && f.goType == FormatType(t) && f.fields == [] && f.enum == ""
    ensures FieldSchema(f) == SchemaOf(t) <==> Legible(t)
  {
    hide TypeSchema, FormatType, SchemaOf, Legible, WellFormed;
    ReadsBackIff(t);
  }

  /** A field with an enumeration and no sub-fields, and no other, is described by its
      choices: the enumeration taken apart at its commas. */
  lemma EnumeratedField(f: FieldDoc)
    ensures FieldSchema(f).EnumSchema? <==> f.fields == [] && f.enum != ""
    ensures FieldSchema(f).EnumSchema? ==>
      var choices := FieldSchema(f).choices;
      choices != [] && Join(choices, ',') == f.enum && forall c :: c in choices ==> ',' !in c
  {
    hide Split, Join;
    NoEnumOfType(f.goType);
  }

  lemma NoEnumOfType(goType: string)
    ensures !TypeSchema(goType).EnumSchema?
  {
  }

  /** objectSchema */
  method BuildObject(fields: seq<FieldDoc>) returns (s: Schema)
    ensures s == ObjectOf(fields)
  {
    var props: map<string, Schema> := map[];
    var required: seq<string> := [];
    for i := 0 to |fields|
      invariant ObjectSchema(props, required) == ObjectOf(fields[..i])
    {
      AddField(fields[..i], fields[i]);
      assert fields[..i + 1] == fields[..i] + [fields[i]];
      props := props[fields[i].key := FieldSchema(fields[i])];
      if fields[i].required && !("*" <= fields[i].goType) {
        required := required + [fields[i].key];
      }
    }
    assert fields[..|fields|] == fields;
    s := ObjectSchema(props, required);
  }
}
