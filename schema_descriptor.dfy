/** The schema descriptor: the text that tells the model which JSON object to
    produce, one line per property of the target record's JSON schema. */
module SchemaDescriptor {
  import opened Wrappers
  import opened Text

  /** One entry of the schema's `properties` mapping: the property name with
      the `type` and `description` keys of its metadata, each possibly absent. */
  datatype Property = Property(name: string, fieldType: Option<string>, description: Option<string>)

  /** What the descriptor reads of a record's JSON schema: the optional
      `title`, the `properties` in declared order (an absent mapping is the
      empty sequence) and the names listed under `required`. */
  datatype JsonSchema = JsonSchema(title: Option<string>, properties: seq<Property>, required: set<string>)

  const TypeLine := "Type: JSON object"
  const FieldsHeader := "Fields:"
  /** Rendered for a property whose metadata has no `type` key. */
  const DefaultType := "object"

  /** The schema's title, or the record class's own name when it has none. */
  function Title(className: string, schema: JsonSchema): string {
    schema.title.GetOr(className)
  }

  /** `required` exactly for the names in the required set, `optional` for all others. */
  function RequiredMarker(name: string, required: set<string>): (marker: string)
    ensures marker == "required" || marker == "optional"
    ensures marker == "required" <==> name in required
  {
    if name in required then "required" else "optional"
  }

  /** `- name (type, required|optional): description` */
  function FieldLine(p: Property, required: set<string>): string {
    "- " + p.name + " (" + p.fieldType.GetOr(DefaultType) + ", "
      + RequiredMarker(p.name, required) + "): " + p.description.GetOr("")
  }

  /** The field lines, built one property at a time as the loop over
      `properties.items()` appends them. */
  function FieldLines(properties: seq<Property>, required: set<string>): (lines: seq<string>)
    ensures |lines| == |properties|
    ensures forall i | 0 <= i < |properties| :: lines[i] == FieldLine(properties[i], required)
    decreases |properties|
  {
    if properties == [] then []
    else [FieldLine(properties[0], required)] + FieldLines(properties[1..], required)
  }

  /** The lines of the description before they are joined. */
  function DescriptionLines(className: string, schema: JsonSchema): (lines: seq<string>)
    ensures |lines| == 3 + |schema.properties|
    ensures lines[0] == "Schema name: " + Title(className, schema)
    ensures lines[1] == TypeLine && lines[2] == FieldsHeader
    ensures forall i | 0 <= i < |schema.properties| ::
      lines[3 + i] == FieldLine(schema.properties[i], schema.required)
  {
    ["Schema name: " + Title(className, schema), TypeLine, FieldsHeader]
      + FieldLines(schema.properties, schema.required)
  }

  /** `schemaDescription`: the lines joined with newlines. */
  function SchemaDescription(className: string, schema: JsonSchema): string {
    Join(DescriptionLines(className, schema), '\n')
  }

  /** No piece of metadata the descriptor prints holds a line break. */
  predicate SingleLineMetadata(className: string, schema: JsonSchema) {
    && '\n' !in Title(className, schema)
    && forall p | p in schema.properties ::
         && '\n' !in p.name
         && '\n' !in p.fieldType.GetOr(DefaultType)
         && '\n' !in p.description.GetOr("")
  }

  /** Read back line by line, the description is exactly: the title line
      (falling back to the class name), the type line, the "Fields:" header,
      then one line per property in declared order, each marked `required`
      exactly when its name is in the required set and showing `object` for a
      missing type and nothing for a missing description. */
  lemma DescriptionLayout(className: string, schema: JsonSchema)
    requires SingleLineMetadata(className, schema)
    ensures var lines := Split(SchemaDescription(className, schema), '\n');
      && |lines| == 3 + |schema.properties|
      && lines[0] == "Schema name: " + (if schema.title.Some? then schema.title.value else className)
      && lines[1] == "Type: JSON object"
      && lines[2] == "Fields:"
      && forall i | 0 <= i < |schema.properties| ::
           var p := schema.properties[i];
           lines[3 + i] == "- " + p.name
             + " (" + (if p.fieldType.Some? then p.fieldType.value else "object")
             + ", " + (if p.name in schema.required then "required" else "optional")
             + "): " + (if p.description.Some? then p.description.value else "")
  {
    var lines := DescriptionLines(className, schema);
    forall i | 0 <= i < |lines| ensures '\n' !in lines[i] {
      if i >= 3 {
        assert schema.properties[i - 3] in schema.properties;
        FieldLineSingle(schema.properties[i - 3], schema.required);
      }
    }
    SplitJoin(lines, '\n');
  }

  lemma FieldLineSingle(p: Property, required: set<string>)
    requires '\n' !in p.name && '\n' !in p.fieldType.GetOr(DefaultType) && '\n' !in p.description.GetOr("")
    ensures '\n' !in FieldLine(p, required)
  {
  }

  /** The last character of the description: the colon of "Fields:" when there
      are no properties, otherwise the end of the last field line, which is the
      space after its colon when that property has no description. */
  lemma DescriptionLastChar(className: string, schema: JsonSchema)
    ensures var d := SchemaDescription(className, schema);
      var props := schema.properties;
      var lastDesc := if props == [] then "" else props[|props| - 1].description.GetOr("");
      |d| > 0
      && d[|d| - 1] == (if props == [] then ':' else if lastDesc == [] then ' ' else lastDesc[|lastDesc| - 1])
  {
    var lines := DescriptionLines(className, schema);
    JoinEndsWithLast(lines, '\n');
  }

  /** The description always has visible text: it starts with "Schema name: ". */
  lemma DescriptionHasVisible(className: string, schema: JsonSchema)
    ensures HasVisible(SchemaDescription(className, schema))
  {
    var lines := DescriptionLines(className, schema);
    var d := SchemaDescription(className, schema);
    assert d == lines[0] + ['\n'] + Join(lines[1..], '\n');
    assert d[0] == 'S';
  }
}
