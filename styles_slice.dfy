/** The extracted style tokens, the user's edited copy of them, their semantic
    names and the extraction tolerance. */
module StylesSlice {
  import opened Wrappers
  import opened Text
  import opened Values

  /** The box-shadow tokens every extraction reports. */
  const ShadowTokens: Value := Obj([
    ("boxShadow", Str("0 4px 6px -1px rgba(0, 0, 0, 0.1)")),
    ("dropShadow", Str("drop-shadow(0 4px 3px rgba(0, 0, 0, 0.07))"))])

  /** The border-radius tokens every extraction reports. */
  const RadiusTokens: Value := Obj([("small", Str("4px")), ("medium", Str("8px")), ("large", Str("12px"))])

  /** The object the `extractStyles` thunk resolves with, given what the colour,
      text and spacing analysers returned. */
  function ExtractedTokens(colors: Value, typography: Value, spacing: Value): Dict<Value>
  {
    [("colors", colors), ("typography", typography), ("spacing", spacing),
     ("shadows", ShadowTokens), ("borderRadius", RadiusTokens)]
  }

  /** The shadow and radius tokens do not depend on the image: any two extractions
      report the same ones, while the analysed parts are passed through. */
  lemma ExtractedTokensFixed(colors: Value, typography: Value, spacing: Value)
    ensures Lookup(ExtractedTokens(colors, typography, spacing), "shadows") == Some(ShadowTokens)
    ensures Lookup(ExtractedTokens(colors, typography, spacing), "borderRadius") == Some(RadiusTokens)
    ensures Lookup(ExtractedTokens(colors, typography, spacing), "colors") == Some(colors)
    ensures Lookup(ExtractedTokens(colors, typography, spacing), "typography") == Some(typography)
    ensures Lookup(ExtractedTokens(colors, typography, spacing), "spacing") == Some(spacing)
  {
    var d := ExtractedTokens(colors, typography, spacing);
    assert d[0].0 == "colors";
    assert d[1..][0].0 == "typography";
    assert d[2..][0].0 == "spacing";
    assert d[3..][0].0 == "shadows";
    assert d[4..][0].0 == "borderRadius";
  }

  /** The key a semantic name is stored under: `${category}.${property}`. */
  function SemanticKey(category: string, property: string): string
  {
    category + "." + property
  }

  /** For category names without a dot the key identifies the pair, so names given
      to different properties never overwrite each other. */
  lemma SemanticKeyInjective(c1: string, p1: string, c2: string, p2: string)
    requires '.' !in c1 && '.' !in c2
    requires SemanticKey(c1, p1) == SemanticKey(c2, p2)
    ensures c1 == c2 && p1 == p2
  {
    var k := SemanticKey(c1, p1);
    assert k[|c1|] == '.';
    assert k[|c2|] == '.';
    forall j | 0 <= j < |c1| ensures k[j] != '.' {
      assert k[j] == c1[j];
    }
    forall j | 0 <= j < |c2| ensures k[j] != '.' {
      assert k[j] == c2[j];
    }
    IndexOfFirst(k, '.', |c1|);
    IndexOfFirst(k, '.', |c2|);
    assert c1 == k[..|c1|];
    assert c2 == k[..|c2|];
    assert p1 == k[|c1| + 1..];
    assert p2 == k[|c2| + 1..];
  }

  /** `if (!edited[category]) edited[category] = {}; edited[category][property] = value`.
      A category holding a truthy value that is not a plain object cannot take the
      write: `None`. */
  function WithStyle(edited: Dict<Value>, category: string, property: string, value: Value): Option<Dict<Value>>
  {
    var entry := Prop(Obj(edited), category);
    if !Truthy(entry) then Some(Store(edited, category, Obj([(property, value)])))
    else if entry.Obj? then Some(Store(edited, category, Obj(Store(entry.fields, property, value))))
    else None
  }

  /** After the write the category holds the value under the whole property name,
      dots included; the category's other properties and every other category are
      unchanged. */
  lemma WithStyleEffect(edited: Dict<Value>, category: string, property: string, value: Value,
                        category': string, property': string)
    requires WithStyle(edited, category, property, value).Some?
    ensures Prop(Prop(Obj(WithStyle(edited, category, property, value).value), category), property) == value
    ensures category' != category ==>
      Prop(Obj(WithStyle(edited, category, property, value).value), category') == Prop(Obj(edited), category')
    ensures Prop(Obj(edited), category).Obj? && property' != property ==>
      Prop(Prop(Obj(WithStyle(edited, category, property, value).value), category), property') ==
      Prop(Prop(Obj(edited), category), property')
  {
    var entry := Prop(Obj(edited), category);
    var inner := if !Truthy(entry) then Obj([(property, value)]) else Obj(Store(entry.fields, property, value));
    LookupStore(edited, category, inner, category);
    LookupStore(edited, category, inner, category');
    if Truthy(entry) {
      LookupStore(entry.fields, property, value, property);
      LookupStore(entry.fields, property, value, property');
    }
  }

  class StylesState {
    var extractedStyles: Dict<Value>
    var editedStyles: Dict<Value>
    var tolerance: real
    var isExtracting: bool
    var semanticNames: Dict<string>

    constructor ()
      ensures extractedStyles == [] && editedStyles == [] && tolerance == 10.0
      ensures !isExtracting && semanticNames == []
    {
      extractedStyles := [];
      editedStyles := [];
      tolerance := 10.0;
      isExtracting := false;
      semanticNames := [];
    }

    /** `updateStyle`: writes one property of one category of the edited styles.
        Reports `false`, changing nothing, when the category holds a non-object
        truthy value. */
    method UpdateStyle(category: string, property: string, value: Value) returns (ok: bool)
      modifies this
      ensures ok <==> WithStyle(old(editedStyles), category, property, value).Some?
      ensures ok ==> editedStyles == WithStyle(old(editedStyles), category, property, value).value
      ensures !ok ==> editedStyles == old(editedStyles)
      ensures extractedStyles == old(extractedStyles) && semanticNames == old(semanticNames)
      ensures tolerance == old(tolerance) && isExtracting == old(isExtracting)
    {
      var updated := WithStyle(editedStyles, category, property, value);
      ok := updated.Some?;
      if ok {
        editedStyles := updated.value;
      }
    }

    /** `updateSemanticName`: the name is stored under `category.property`. */
    method UpdateSemanticName(category: string, property: string, name: string)
      modifies this
      ensures semanticNames == Store(old(semanticNames), SemanticKey(category, property), name)
      ensures extractedStyles == old(extractedStyles) && editedStyles == old(editedStyles)
      ensures tolerance == old(tolerance) && isExtracting == old(isExtracting)
    {
      semanticNames := Store(semanticNames, SemanticKey(category, property), name);
    }

    /** `setTolerance`. */
    method SetTolerance(value: real)
      modifies this
      ensures tolerance == value
      ensures extractedStyles == old(extractedStyles) && editedStyles == old(editedStyles)
      ensures semanticNames == old(semanticNames) && isExtracting == old(isExtracting)
    {
      tolerance := value;
    }

    /** `resetStyles`: all styles and names go; the tolerance and the flag stay. */
    method ResetStyles()
      modifies this
      ensures extractedStyles == [] && editedStyles == [] && semanticNames == []
      ensures tolerance == old(tolerance) && isExtracting == old(isExtracting)
    {
      extractedStyles := [];
      editedStyles := [];
      semanticNames := [];
    }

    /** `extractStyles.pending`. */
    method ExtractStylesPending()
      modifies this
      ensures isExtracting
      ensures extractedStyles == old(extractedStyles) && editedStyles == old(editedStyles)
      ensures semanticNames == old(semanticNames) && tolerance == old(tolerance)
    {
      isExtracting := true;
    }

    /** `extractStyles.fulfilled`: the payload becomes the extracted styles, and a
        JSON copy of it the edited ones. The copy holds no `undefined`, and equals
        the payload when the payload holds none. */
    method ExtractStylesFulfilled(payload: Dict<Value>)
      modifies this
      ensures !isExtracting && extractedStyles == payload
      ensures Obj(editedStyles) == JsonClone(Obj(payload))
      ensures NoUndef(Obj(editedStyles))
      ensures NoUndef(Obj(payload)) ==> editedStyles == payload
      ensures semanticNames == old(semanticNames) && tolerance == old(tolerance)
    {
      JsonCloneHasNoUndef(Obj(payload));
      if NoUndef(Obj(payload)) {
        JsonCloneIdentity(Obj(payload));
      }
      isExtracting := false;
      extractedStyles := payload;
      editedStyles := JsonClone(Obj(payload)).fields;
    }

    /** `extractStyles.rejected`: only the flag is cleared. */
    method ExtractStylesRejected()
      modifies this
      ensures !isExtracting
      ensures extractedStyles == old(extractedStyles) && editedStyles == old(editedStyles)
      ensures semanticNames == old(semanticNames) && tolerance == old(tolerance)
    {
      isExtracting := false;
    }
  }
}
