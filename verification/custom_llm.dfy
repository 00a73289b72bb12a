/** The pure helpers of `src/lib/customLLM.ts`: the user-defined data fields,
    the scraping-job configuration built from them, its validation, and the
    two prompt fragments listing the named fields. A JavaScript string is
    truthy exactly when it is non-empty. */
module CustomLlm {
  import opened Seqs
  import opened Text

  /** One user-defined column of the extraction schema. */
  datatype DataField = DataField(id: string, name: string, description: string, example: string)

  /** `CustomSchemaConfig`. */
  datatype SchemaConfig = SchemaConfig(dataFields: seq<DataField>, baseUrl: string,
                                       selectedCategories: seq<string>)

  /** `field.name` is truthy. */
  predicate HasName(f: DataField) {
    f.name != ""
  }

  /** `field.name && field.description` is truthy. */
  predicate IsComplete(f: DataField) {
    f.name != "" && f.description != ""
  }

  /** `createScrapingJobConfig`: only complete fields are kept. */
  function CreateScrapingJobConfig(baseUrl: string, selectedCategories: seq<string>,
                                   dataFields: seq<DataField>): (c: SchemaConfig)
    ensures c.baseUrl == baseUrl && c.selectedCategories == selectedCategories
    ensures forall f :: f in c.dataFields <==> f in dataFields && IsComplete(f)
    ensures IsSubsequence(c.dataFields, dataFields)
    ensures |c.dataFields| == |dataFields| <==>
              forall i :: 0 <= i < |dataFields| ==> IsComplete(dataFields[i])
  {
    SchemaConfig(Filter(dataFields, IsComplete), baseUrl, selectedCategories)
  }

  /** The kept fields of a concatenation are the kept fields of each part, so
      together with the one-field case this fixes the list exactly, order and
      repetitions included. */
  lemma {:induction false} JobConfigFields(baseUrl: string, selectedCategories: seq<string>,
                        xs: seq<DataField>, ys: seq<DataField>, f: DataField)
    ensures CreateScrapingJobConfig(baseUrl, selectedCategories, xs + ys).dataFields
         == CreateScrapingJobConfig(baseUrl, selectedCategories, xs).dataFields
          + CreateScrapingJobConfig(baseUrl, selectedCategories, ys).dataFields
    ensures CreateScrapingJobConfig(baseUrl, selectedCategories, [f]).dataFields
         == if IsComplete(f) then [f] else []
  {
    FilterAppend(xs, ys, IsComplete);
    assert [f][1..] == [];
  }

  /** `getFieldNames`: the names of the named fields, in order. */
  function GetFieldNames(dataFields: seq<DataField>): (names: seq<string>)
    ensures |names| <= |dataFields|
    ensures forall i :: 0 <= i < |names| ==> names[i] != ""
    ensures forall n :: n in names <==> n != "" && exists f :: f in dataFields && f.name == n
  {
    FieldNamesFacts(dataFields);
    Map(NameOf, Filter(dataFields, HasName))
  }

  function NameOf(f: DataField): string {
    f.name
  }

  lemma {:induction false} FieldNamesFacts(dataFields: seq<DataField>)
    ensures var names := Map(NameOf, Filter(dataFields, HasName));
            && (forall i :: 0 <= i < |names| ==> names[i] != "")
            && forall n :: n in names <==> n != "" && exists f :: f in dataFields && f.name == n
  {
    var named := Filter(dataFields, HasName);
    var names := Map(NameOf, named);
    forall n | n in names ensures exists f :: f in dataFields && f.name == n {
      var i :| 0 <= i < |names| && names[i] == n;
      assert named[i] in dataFields;
    }
    forall f | f in dataFields && f.name != "" ensures f.name in names {
      assert f in named;
      var i :| 0 <= i < |named| && named[i] == f;
      assert names[i] == f.name;
    }
  }

  /** Names of a concatenation are the names of each part; an unnamed field
      contributes nothing and a named one exactly its name. */
  lemma {:induction false} FieldNamesCompose(xs: seq<DataField>, ys: seq<DataField>, f: DataField)
    ensures GetFieldNames(xs + ys) == GetFieldNames(xs) + GetFieldNames(ys)
    ensures GetFieldNames([f]) == if HasName(f) then [f.name] else []
  {
    FilterAppend(xs, ys, HasName);
    MapAppend(NameOf, Filter(xs, HasName), Filter(ys, HasName));
    assert [f][1..] == [];
  }

  // ---------------------------------------------------------------------------
  // validateScrapingConfig

  const ErrBaseUrl := "Base URL is required"
  const ErrNoCategory := "At least one URL category must be selected"
  const ErrNoFields := "At least one data field must be defined"
  const ErrNoCompleteField := "At least one data field must have both name and description"

  /** Every error, in the order the checks run. */
  const AllErrors := [ErrBaseUrl, ErrNoCategory, ErrNoFields, ErrNoCompleteField]

  datatype Validation = Validation(isValid: bool, errors: seq<string>)

  /** Some field has both a name and a description. */
  predicate AnyComplete(dataFields: seq<DataField>) {
    exists i :: 0 <= i < |dataFields| && IsComplete(dataFields[i])
  }

  /** `validateScrapingConfig`: one independent check per error. */
  function ValidateScrapingConfig(config: SchemaConfig): (v: Validation)
    ensures v.isValid <==> |v.errors| == 0
    ensures ErrBaseUrl in v.errors <==> config.baseUrl == ""
    ensures ErrNoCategory in v.errors <==> |config.selectedCategories| == 0
    ensures ErrNoFields in v.errors <==> |config.dataFields| == 0
    ensures ErrNoCompleteField in v.errors <==> !AnyComplete(config.dataFields)
    ensures IsSubsequence(v.errors, AllErrors)
  {
    var e1 := if config.baseUrl == "" then [ErrBaseUrl] else [];
    var e2 := if |config.selectedCategories| == 0 then [ErrNoCategory] else [];
    var e3 := if |config.dataFields| == 0 then [ErrNoFields] else [];
    var validFields := Filter(config.dataFields, IsComplete);
    CompleteFieldsFound(config.dataFields);
    var e4 := if |validFields| == 0 then [ErrNoCompleteField] else [];
    ErrorsInOrder(e1, e2, e3, e4);
    Validation(|e1 + e2 + e3 + e4| == 0, e1 + e2 + e3 + e4)
  }

  /** The filter for complete fields is empty exactly when no field is complete. */
  lemma {:induction false} CompleteFieldsFound(dataFields: seq<DataField>)
    ensures |Filter(dataFields, IsComplete)| == 0 <==> !AnyComplete(dataFields)
  {
    var validFields := Filter(dataFields, IsComplete);
    if |validFields| > 0 {
      assert validFields[0] in dataFields;
    }
    if AnyComplete(dataFields) {
      var i :| 0 <= i < |dataFields| && IsComplete(dataFields[i]);
      assert dataFields[i] in validFields;
    }
  }

  /** Any selection of the four checks, each at most once, lists the errors in
      check order, and lists an error exactly when its check was selected. */
  lemma {:induction false} ErrorsInOrder(e1: seq<string>, e2: seq<string>, e3: seq<string>, e4: seq<string>)
    requires e1 == [] || e1 == [ErrBaseUrl]
    requires e2 == [] || e2 == [ErrNoCategory]
    requires e3 == [] || e3 == [ErrNoFields]
    requires e4 == [] || e4 == [ErrNoCompleteField]
    ensures IsSubsequence(e1 + e2 + e3 + e4, AllErrors)
    ensures ErrBaseUrl in e1 + e2 + e3 + e4 <==> e1 != []
    ensures ErrNoCategory in e1 + e2 + e3 + e4 <==> e2 != []
    ensures ErrNoFields in e1 + e2 + e3 + e4 <==> e3 != []
    ensures ErrNoCompleteField in e1 + e2 + e3 + e4 <==> e4 != []
  {
    assert |ErrBaseUrl| == 20 && |ErrNoCategory| == 42 && |ErrNoFields| == 39 && |ErrNoCompleteField| == 59;
    PicksInOrder(ErrBaseUrl, ErrNoCategory, ErrNoFields, ErrNoCompleteField, e1, e2, e3, e4);
    PicksPresent(ErrBaseUrl, ErrNoCategory, ErrNoFields, ErrNoCompleteField, e1, e2, e3, e4);
  }

  /** Validating a configuration produced by `createScrapingJobConfig`: the
      two field errors always appear together, and the configuration is valid
      exactly when the base URL, the selection and some complete field are
      present. */
  lemma {:induction false} ValidatedJobConfig(baseUrl: string, selectedCategories: seq<string>, dataFields: seq<DataField>)
    ensures var v := ValidateScrapingConfig(CreateScrapingJobConfig(baseUrl, selectedCategories, dataFields));
            (ErrNoFields in v.errors <==> ErrNoCompleteField in v.errors)
            && (v.isValid <==> baseUrl != "" && |selectedCategories| > 0 && AnyComplete(dataFields))
  {
    var c := CreateScrapingJobConfig(baseUrl, selectedCategories, dataFields);
    if |c.dataFields| > 0 {
      assert IsComplete(c.dataFields[0]);
    }
    if AnyComplete(dataFields) {
      var i :| 0 <= i < |dataFields| && IsComplete(dataFields[i]);
      assert dataFields[i] in c.dataFields;
    }
    if AnyComplete(c.dataFields) {
      var i :| 0 <= i < |c.dataFields| && IsComplete(c.dataFields[i]);
      assert c.dataFields[i] in dataFields;
    }
  }

  // ---------------------------------------------------------------------------
  // Prompt fragments

  /** One rendered line per named field, in order. */
  function NamedLines(dataFields: seq<DataField>, render: DataField -> string): (lines: seq<string>)
    ensures |lines| == |GetFieldNames(dataFields)|
  {
    Map(render, Filter(dataFields, HasName))
  }

  /** Appending a field appends its line when it has a name, and nothing otherwise. */
  lemma {:induction false} NamedLinesSnoc(dataFields: seq<DataField>, render: DataField -> string, f: DataField)
    ensures NamedLines(dataFields + [f], render)
         == NamedLines(dataFields, render) + (if HasName(f) then [render(f)] else [])
  {
    FilterAppend(dataFields, [f], HasName);
    assert [f][1..] == [];
    MapAppend(render, Filter(dataFields, HasName), Filter([f], HasName));
  }

  /** Every named field has its line among the rendered lines. */
  lemma {:induction false} NamedLineFor(dataFields: seq<DataField>, render: DataField -> string, f: DataField)
    requires f in dataFields && HasName(f)
    ensures render(f) in NamedLines(dataFields, render)
  {
    var named := Filter(dataFields, HasName);
    var i :| 0 <= i < |named| && named[i] == f;
    assert NamedLines(dataFields, render)[i] == render(f);
  }

  const FormatHeader := "Respond only in valid JSON. The JSON object you return should match the following schema:\n{\n"
  const FormatFooter := "\n}\n\nWhere each field should be:\n- A string value if the information is found\n- null if the information cannot be found or doesn't exist\n- Use the exact field names specified above"

  /** `  "name": "string | null"`. */
  function SchemaLine(f: DataField): string {
    "  \"" + f.name + "\": \"string | null\""
  }

  /** The schema text before the footer: the header, then the schema lines of
      the named fields joined by `",\n"`. */
  function FormatBody(dataFields: seq<DataField>): string {
    FormatHeader + Join(",\n", NamedLines(dataFields, SchemaLine))
  }

  /** `createFormatInstructions`: the schema lines of the named fields between a
      fixed header and footer. */
  function CreateFormatInstructions(dataFields: seq<DataField>): (r: string)
    ensures FormatHeader <= r
    ensures |r| >= |FormatHeader| + |FormatFooter| && r[|r| - |FormatFooter|..] == FormatFooter
    ensures forall f :: f in dataFields && HasName(f) ==> Contains(r, SchemaLine(f))
  {
    var lines := NamedLines(dataFields, SchemaLine);
    var body := Join(",\n", lines);
    var r := FormatHeader + body + FormatFooter;
    PartsOfThree(FormatHeader, body, FormatFooter);
    forall f | f in dataFields && HasName(f) ensures Contains(r, SchemaLine(f)) {
      SchemaLineJoined(dataFields, f);
      ContainsWithin(FormatHeader, body, FormatFooter, SchemaLine(f));
    }
    r
  }

  /** The joined schema lines hold the line of every named field. */
  lemma {:induction false} SchemaLineJoined(dataFields: seq<DataField>, f: DataField)
    requires f in dataFields && HasName(f)
    ensures Contains(Join(",\n", NamedLines(dataFields, SchemaLine)), SchemaLine(f))
  {
    var lines := NamedLines(dataFields, SchemaLine);
    NamedLineFor(dataFields, SchemaLine, f);
    var i :| 0 <= i < |lines| && lines[i] == SchemaLine(f);
    JoinContainsPart(",\n", lines, i);
  }

  /** The instructions are the body followed by the footer. */
  lemma {:induction false} FormatShape(dataFields: seq<DataField>)
    ensures CreateFormatInstructions(dataFields) == FormatBody(dataFields) + FormatFooter
  {
  }

  /** An unnamed field leaves the format instructions unchanged. */
  lemma {:induction false} FormatInstructionsIgnoreUnnamed(dataFields: seq<DataField>, f: DataField)
    requires !HasName(f)
    ensures CreateFormatInstructions(dataFields + [f]) == CreateFormatInstructions(dataFields)
  {
    FormatShape(dataFields);
    FormatShape(dataFields + [f]);
    NamedLinesSnoc(dataFields, SchemaLine, f);
    assert NamedLines(dataFields, SchemaLine) + [] == NamedLines(dataFields, SchemaLine);
    assert FormatBody(dataFields + [f]) == FormatBody(dataFields);
  }

  /** A named field adds its schema line, after `",\n"` unless it is the
      first, just before the footer. */
  lemma {:induction false} FormatInstructionsSnoc(dataFields: seq<DataField>, f: DataField)
    requires HasName(f)
    ensures CreateFormatInstructions(dataFields + [f])
            == FormatBody(dataFields) + (if |GetFieldNames(dataFields)| == 0 then "" else ",\n")
               + SchemaLine(f) + FormatFooter
  {
    FormatBodySnoc(dataFields, f);
    FormatShape(dataFields + [f]);
  }

  /** A named field adds its schema line to the body, after `",\n"` unless it is the first. */
  lemma {:induction false} FormatBodySnoc(dataFields: seq<DataField>, f: DataField)
    requires HasName(f)
    ensures FormatBody(dataFields + [f])
            == FormatBody(dataFields) + (if |GetFieldNames(dataFields)| == 0 then "" else ",\n") + SchemaLine(f)
  {
    var sep := if |GetFieldNames(dataFields)| == 0 then "" else ",\n";
    var lines := NamedLines(dataFields, SchemaLine);
    var line := SchemaLine(f);
    var joined := Join(",\n", lines);
    assert Join(",\n", NamedLines(dataFields + [f], SchemaLine)) == joined + sep + line by {
      NamedLinesSnoc(dataFields, SchemaLine, f);
      JoinAppendPart(",\n", lines, line);
    }
    AppendRegroup(FormatHeader, joined + sep, line);
    AppendRegroup(FormatHeader, joined, sep);
  }

  /** `- name: description (example: "example")`. */
  function InstructionLine(f: DataField): string {
    "- " + f.name + ": " + f.description + " (example: \"" + f.example + "\")"
  }

  /** The field-instruction list of `createCustomPrompt`: one line per named
      field, joined by newlines. */
  function FieldInstructions(dataFields: seq<DataField>): (r: string)
    ensures forall f :: f in dataFields && HasName(f) ==> Contains(r, InstructionLine(f))
    ensures |GetFieldNames(dataFields)| == 0 ==> r == ""
  {
    var lines := NamedLines(dataFields, InstructionLine);
    var r := Join("\n", lines);
    assert forall f :: f in dataFields && HasName(f) ==> Contains(r, InstructionLine(f)) by {
      forall f | f in dataFields && HasName(f) ensures Contains(r, InstructionLine(f)) {
        NamedLineFor(dataFields, InstructionLine, f);
        var i :| 0 <= i < |lines| && lines[i] == InstructionLine(f);
        JoinContainsPart("\n", lines, i);
      }
    }
    r
  }

  /** Adding a named field appends its instruction line after a newline (or
      alone when it is the first); an unnamed field changes nothing. */
  lemma {:induction false} FieldInstructionsSnoc(dataFields: seq<DataField>, f: DataField)
    ensures !HasName(f) ==> FieldInstructions(dataFields + [f]) == FieldInstructions(dataFields)
    ensures HasName(f) ==>
              FieldInstructions(dataFields + [f])
              == FieldInstructions(dataFields) + (if |GetFieldNames(dataFields)| == 0 then "" else "\n")
                 + InstructionLine(f)
  {
    NamedLinesSnoc(dataFields, InstructionLine, f);
    var lines := NamedLines(dataFields, InstructionLine);
    assert FieldInstructions(dataFields) == Join("\n", lines);
    assert FieldInstructions(dataFields + [f]) == Join("\n", NamedLines(dataFields + [f], InstructionLine));
    if !HasName(f) {
      assert lines + [] == lines;
    } else {
      if |lines| == 0 {
        assert lines + [InstructionLine(f)] == [InstructionLine(f)];
      } else {
        JoinSnoc("\n", lines, InstructionLine(f));
      }
    }
  }
}
