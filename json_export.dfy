/** The export of the edited style tokens: CSS custom properties named after
    the semantic names, a Tailwind theme extension, and the document that bundles
    them. Writing the file is not part of this model. */
module JsonExport {
  import opened Wrappers
  import opened Text
  import opened Values

  /** `Object.entries(v)`: an object's entries, an array's and a string's indexed
      elements, and nothing for the other values. */
  function EntriesOf(v: Value): Dict<Value>
  {
    match v
    case Obj(fields) => fields
    case Arr(items) => seq(|items|, i requires 0 <= i < |items| => (NatToString(i), items[i]))
    case Str(s) => seq(|s|, i requires 0 <= i < |s| => (NatToString(i), Str([s[i]])))
    case _ => []
  }

  /** `semanticNames["category.property"] || "category-property"`. */
  function VariableName(category: string, property: string, names: Dict<string>): string
  {
    var named := Lookup(names, category + "." + property);
    if named.Some? && named.value != "" then named.value else category + "-" + property
  }

  /** `--${name.toLowerCase().replace(/\s+/g, '-')}`. */
  function VariableKey(name: string): string
  {
    "--" + CollapseSpaces(Lower(name))
  }

  /** A variable key starts with `--` and holds neither whitespace nor capitals. */
  lemma VariableKeyShape(name: string)
    ensures StartsWith(VariableKey(name), "--")
    ensures HasNoSpace(VariableKey(name)) && IsLowerCase(VariableKey(name))
  {
    var body := CollapseSpaces(Lower(name));
    CollapseSpacesHasNoSpace(Lower(name));
    LowerIsLowerCase(name);
    CollapseSpacesLowerCase(Lower(name));
    assert VariableKey(name)[..2] == "--";
    assert forall i :: 2 <= i < |VariableKey(name)| ==> VariableKey(name)[i] == body[i - 2];
  }

  /** A name that is already lower case and free of whitespace is used as it is;
      in particular the normalisation is idempotent. */
  lemma VariableKeyOfNormalName(name: string)
    requires HasNoSpace(name) && IsLowerCase(name)
    ensures VariableKey(name) == "--" + name
  {
    LowerIsLowerCase(name);
    CollapseSpacesIdentity(name);
  }

  lemma VariableKeyIdempotent(name: string)
    ensures VariableKey(VariableKey(name)[2..]) == VariableKey(name)
  {
    VariableKeyShape(name);
    var body := CollapseSpaces(Lower(name));
    assert VariableKey(name)[2..] == body;
    assert HasNoSpace(body) && IsLowerCase(body) by {
      assert forall i :: 0 <= i < |body| ==> body[i] == VariableKey(name)[i + 2];
    }
    VariableKeyOfNormalName(body);
  }

  /** The variables one category contributes, in property order. */
  function CategoryVariables(category: string, properties: Value, names: Dict<string>): Dict<Value>
  {
    var entries := EntriesOf(properties);
    seq(|entries|, i requires 0 <= i < |entries| =>
      (VariableKey(VariableName(category, entries[i].0, names)), entries[i].1))
  }

  /** Every (category, property) pair of the styles, in order, as a key and its
      unchanged value. */
  function VariableEntries(styles: Dict<Value>, names: Dict<string>): Dict<Value>
  {
    if styles == [] then []
    else
      var last := styles[|styles| - 1];
      VariableEntries(styles[..|styles| - 1], names) + CategoryVariables(last.0, last.1, names)
  }

  /** Writes the variables of one category. */
  method AddCategory(variables: Dict<Value>, category: string, properties: Value, names: Dict<string>)
    returns (variables': Dict<Value>)
    ensures variables' == StoreAll(variables, CategoryVariables(category, properties, names))
  {
    var entries := EntriesOf(properties);
    ghost var added := CategoryVariables(category, properties, names);
    variables' := variables;
    for n := 0 to |entries|
      invariant variables' == StoreAll(variables, added[..n])
    {
      var (property, value) := entries[n];
      var name := VariableName(category, property, names);
      assert added[..n + 1][..n] == added[..n];
      variables' := Store(variables', VariableKey(name), value);
    }
    assert added[..|entries|] == added;
  }

  /** `generateCSSVariables`: every pair writes its value under its key, so on a
      collision the later pair wins. */
  method GenerateCssVariables(styles: Dict<Value>, names: Dict<string>) returns (variables: Dict<Value>)
    ensures variables == StoreAll([], VariableEntries(styles, names))
  {
    variables := [];
    for n := 0 to |styles|
      invariant variables == StoreAll([], VariableEntries(styles[..n], names))
    {
      var (category, properties) := styles[n];
      assert styles[..n + 1][..n] == styles[..n];
      StoreAllAppend([], VariableEntries(styles[..n], names), CategoryVariables(category, properties, names));
      variables := AddCategory(variables, category, properties, names);
    }
    assert styles[..|styles|] == styles;
  }

  /** A variable holds the value of the last pair with its key; no other keys
      appear; and there are at most as many variables as pairs. */
  lemma CssVariablesContent(styles: Dict<Value>, names: Dict<string>, key: string)
    ensures Lookup(StoreAll([], VariableEntries(styles, names)), key) == LastFor(VariableEntries(styles, names), key)
    ensures |StoreAll([], VariableEntries(styles, names))| <= |VariableEntries(styles, names)|
  {
    LookupStoreAll([], VariableEntries(styles, names), key);
    StoreAllSize([], VariableEntries(styles, names));
  }

  /** Where the Tailwind theme extension takes each of its entries from. */
  const ExtendSources: seq<(string, seq<string>)> := [
    ("colors", ["colors"]),
    ("fontFamily", ["typography", "fontFamily"]),
    ("fontSize", ["typography", "fontSize"]),
    ("spacing", ["spacing", "padding"]),
    ("borderRadius", ["borderRadius"]),
    ("boxShadow", ["shadows"])]

  function ExtendEntries(styles: Dict<Value>): Dict<Value>
  {
    seq(|ExtendSources|, i requires 0 <= i < |ExtendSources| =>
      (ExtendSources[i].0, OrEmpty(GetPath(Obj(styles), ExtendSources[i].1))))
  }

  /** `generateTailwindConfig`: `{ theme: { extend: ... } }`. */
  function TailwindConfig(styles: Dict<Value>): Value
  {
    Obj([("theme", Obj([("extend", Obj(ExtendEntries(styles)))]))])
  }

  /** Each entry of the theme extension is the styles' value at its source path,
      or `{}` when that value is missing or falsy; none is ever missing. */
  lemma TailwindConfigEntries(styles: Dict<Value>, i: nat)
    requires i < |ExtendSources|
    ensures Truthy(GetPath(TailwindConfig(styles), ["theme", "extend", ExtendSources[i].0]))
    ensures Truthy(GetPath(Obj(styles), ExtendSources[i].1)) ==>
      GetPath(TailwindConfig(styles), ["theme", "extend", ExtendSources[i].0]) == GetPath(Obj(styles), ExtendSources[i].1)
    ensures !Truthy(GetPath(Obj(styles), ExtendSources[i].1)) ==>
      GetPath(TailwindConfig(styles), ["theme", "extend", ExtendSources[i].0]) == Obj([])
  {
    var extend := ExtendEntries(styles);
    ExtendNamesDistinct();
    LookupDistinct(extend, i);
    ConfigPath(styles, ExtendSources[i].0);
  }

  /** The path `theme.extend.<name>` leads to the entry `name` of the extension. */
  lemma ConfigPath(styles: Dict<Value>, name: string)
    ensures GetPath(TailwindConfig(styles), ["theme", "extend", name]) == Prop(Obj(ExtendEntries(styles)), name)
  {
    var extend := Obj(ExtendEntries(styles));
    var cfg := TailwindConfig(styles);
    assert ["theme", "extend", name][1..] == ["extend", name];
    assert ["extend", name][1..] == [name];
    assert [name][1..] == [];
    var theme := Obj([("extend", extend)]);
    assert Prop(cfg, "theme") == theme;
    assert Prop(theme, "extend") == extend;
    assert GetPath(cfg, ["theme", "extend", name]) == GetPath(theme, ["extend", name]);
    assert GetPath(theme, ["extend", name]) == GetPath(extend, [name]);
    assert GetPath(extend, [name]) == GetPath(Prop(extend, name), []);
  }

  lemma ExtendNamesDistinct()
    ensures forall i, j :: 0 <= i < j < |ExtendSources| ==> ExtendSources[i].0 != ExtendSources[j].0
  {
  }

  datatype Metadata = Metadata(generatedAt: string, version: string, generator: string)

  /** The exported document. */
  datatype ExportDocument = ExportDocument(
    metadata: Metadata,
    extractedStyles: Dict<Value>,
    editedStyles: Dict<Value>,
    semanticNames: Dict<string>,
    cssVariables: Dict<Value>,
    tailwindConfig: Value)

  /** The document `exportStylesAsJSON` serialises, given the time it was made.
      The variables and the theme come from the edited styles only. */
  method ExportData(extractedStyles: Dict<Value>, editedStyles: Dict<Value>, semanticNames: Dict<string>,
                    generatedAt: string) returns (doc: ExportDocument)
    ensures doc.metadata == Metadata(generatedAt, "1.0.0", "Style Extractor")
    ensures doc.extractedStyles == extractedStyles && doc.editedStyles == editedStyles
    ensures doc.semanticNames == semanticNames
    ensures doc.cssVariables == StoreAll([], VariableEntries(editedStyles, semanticNames))
    ensures doc.tailwindConfig == TailwindConfig(editedStyles)
  {
    var cssVariables := GenerateCssVariables(editedStyles, semanticNames);
    doc := ExportDocument(Metadata(generatedAt, "1.0.0", "Style Extractor"), extractedStyles, editedStyles,
                          semanticNames, cssVariables, TailwindConfig(editedStyles));
  }
}
