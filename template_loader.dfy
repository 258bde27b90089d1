/** Loading a research template from `template.yaml` and the guard chain
    that validates it. The file system, the path join, the YAML parser and
    JSON.stringify are parameters. */
module TemplateLoader {
  import opened Wrappers

  /** A value as the YAML loader hands it over; `Undefined` stands for a
      missing property. */
  datatype Yaml =
    | Undefined
    | Null
    | Bool(b: bool)
    | Num(n: int)
    | Str(s: string)
    | List(items: seq<Yaml>)
    | Obj(props: map<string, Yaml>)
  {
    predicate Nullish() {
      Undefined? || Null?
    }

    /** JavaScript truthiness. */
    predicate Truthy() {
      match this
      case Undefined => false
      case Null => false
      case Bool(b) => b
      case Num(n) => n != 0
      case Str(s) => s != []
      case List(_) => true
      case Obj(_) => true
    }
  }

  /** `v.key` on a value that is neither null nor undefined: an object's own
      property, the length of a string or an array, and undefined for
      anything else. */
  function Get(v: Yaml, key: string): (r: Yaml)
    ensures v.Obj? ==> r == (if key in v.props then v.props[key] else Undefined)
    ensures !v.Obj? && key != "length" ==> r == Undefined
  {
    match v
    case Obj(props) => if key in props then props[key] else Undefined
    case Str(s) => if key == "length" then Num(|s|) else Undefined
    case List(items) => if key == "length" then Num(|items|) else Undefined
    case _ => Undefined
  }

  /** The TypeError message of reading `key` from null or undefined. */
  function ReadError(base: Yaml, key: string): string
    requires base.Nullish()
  {
    "Cannot read properties of " + (if base.Null? then "null" else "undefined") + " (reading '" + key + "')"
  }

  const NameRequired: string := "Template name is required"
  const VersionRequired: string := "Template version is required"
  const QueriesRequired: string := "Search queries are required"
  const FieldsRequired: string := "Schema fields are required"
  const SystemPromptRequired: string := "Extraction system_prompt is required"
  const UserPromptRequired: string := "Extraction user_prompt_template is required"
  const InvalidField: string := "Invalid field definition: "
  const NotIterable: string := "template.schema.fields is not iterable"

  /** What `for...of` walks over: the items of an array, the characters of
      a string; anything else is not iterable. */
  function Elements(v: Yaml): (r: Option<seq<Yaml>>)
    ensures v.List? ==> r == Some(v.items)
    ensures v.Str? ==> r.Some? && |r.value| == |v.s| && forall i :: 0 <= i < |v.s| ==> r.value[i] == Str([v.s[i]])
    ensures !v.List? && !v.Str? ==> r.None?
  {
    match v
    case List(items) => Some(items)
    case Str(s) => Some(seq(|s|, i requires 0 <= i < |s| => Str([s[i]])))
    case _ => None
  }

  /** A field definition with a name and a type. */
  predicate FieldDefined(f: Yaml) {
    Get(f, "name").Truthy() && Get(f, "type").Truthy()
  }

  /** What the loop throws for a field without a name or type: reading
      `name` from a null entry fails first, otherwise the field is shown in
      the message. */
  function FieldError(f: Yaml, render: Yaml -> string): string {
    if f.Nullish() then ReadError(f, "name") else InvalidField + render(f)
  }

  /** The field loop of validateTemplate from index `from` on. */
  function FirstBadField(items: seq<Yaml>, from: nat, render: Yaml -> string): (r: Option<string>)
    decreases |items| - from
  {
    if from >= |items| then None
    else if !FieldDefined(items[from]) then Some(FieldError(items[from], render))
    else FirstBadField(items, from + 1, render)
  }

  /** The loop finishes exactly when every field from `from` on is
      defined. */
  lemma {:induction false} FirstBadFieldNone(items: seq<Yaml>, from: nat, render: Yaml -> string)
    ensures FirstBadField(items, from, render).None? <==> forall i :: from <= i < |items| ==> FieldDefined(items[i])
    decreases |items| - from
  {
    if from < |items| && FieldDefined(items[from]) {
      FirstBadFieldNone(items, from + 1, render);
      assert FirstBadField(items, from, render) == FirstBadField(items, from + 1, render);
    }
  }

  /** What the loop reports is the error of the first field lacking a name
      or a type. */
  lemma {:induction false} FirstBadFieldSome(items: seq<Yaml>, from: nat, render: Yaml -> string)
    ensures var r := FirstBadField(items, from, render);
      r.Some? ==>
        exists j :: from <= j < |items| && !FieldDefined(items[j])
          && (forall i :: from <= i < j ==> FieldDefined(items[i]))
          && r.value == FieldError(items[j], render)
    decreases |items| - from
  {
    var r := FirstBadField(items, from, render);
    if from < |items| {
      if !FieldDefined(items[from]) {
        assert r.value == FieldError(items[from], render);
      } else {
        FirstBadFieldSome(items, from + 1, render);
        assert r == FirstBadField(items, from + 1, render);
        if r.Some? {
          var j :| from + 1 <= j < |items| && !FieldDefined(items[j])
            && (forall i :: from + 1 <= i < j ==> FieldDefined(items[i]))
            && r.value == FieldError(items[j], render);
          forall i | from <= i < j ensures FieldDefined(items[i]) {
            if i > from {
              assert from + 1 <= i < j;
            }
          }
        }
      }
    }
  }

  /** validateTemplate: the message of the first failing check, or None when
      the template passes. Every property read after the first is on a
      value already known to be truthy, so only the first can throw a
      TypeError. */
  function Validate(t: Yaml, render: Yaml -> string): Option<string> {
    if t.Nullish() then Some(ReadError(t, "name"))
    else if !Get(t, "name").Truthy() then Some(NameRequired)
    else if !Get(t, "version").Truthy() then Some(VersionRequired)
    else
      var search := Get(t, "search");
      if !search.Truthy() || !Get(search, "queries").Truthy() then Some(QueriesRequired)
      else
        var schema := Get(t, "schema");
        if !schema.Truthy() || !Get(schema, "fields").Truthy() || Get(Get(schema, "fields"), "length") == Num(0) then
          Some(FieldsRequired)
        else
          var extraction := Get(t, "extraction");
          if !extraction.Truthy() || !Get(extraction, "system_prompt").Truthy() then Some(SystemPromptRequired)
          else if !Get(extraction, "user_prompt_template").Truthy() then Some(UserPromptRequired)
          else match Elements(Get(schema, "fields"))
            case None => Some(NotIterable)
            case Some(items) => FirstBadField(items, 0, render)
  }

  /** The template shape validateTemplate accepts, stated declaratively. */
  predicate Accepted(t: Yaml) {
    var fields := Get(Get(t, "schema"), "fields");
    && Get(t, "name").Truthy()
    && Get(t, "version").Truthy()
    && Get(Get(t, "search"), "queries").Truthy()
    && fields.List? && |fields.items| > 0
    && Get(Get(t, "extraction"), "system_prompt").Truthy()
    && Get(Get(t, "extraction"), "user_prompt_template").Truthy()
    && forall i :: 0 <= i < |fields.items| ==> FieldDefined(fields.items[i])
  }

  /** Reading a property other than `length` from a non-object is
      undefined, so a truthy nested property implies a truthy parent. */
  lemma NestedTruthy(v: Yaml, key: string)
    requires key != "length" && Get(v, key).Truthy()
    ensures v.Obj? && v.Truthy()
  {
  }

  /** A non-empty string in place of the field list fails on its first
      character. */
  lemma StringFieldsRejected(s: string, render: Yaml -> string)
    requires s != []
    ensures FirstBadField(Elements(Str(s)).value, 0, render) == Some(InvalidField + render(Str([s[0]])))
  {
    assert Elements(Str(s)).value[0] == Str([s[0]]);
  }

  /** validateTemplate accepts exactly the templates of that shape. */
  lemma ValidateAccepts(t: Yaml, render: Yaml -> string)
    ensures Validate(t, render).None? <==> Accepted(t)
  {
    var fields := Get(Get(t, "schema"), "fields");
    if fields.List? {
      FirstBadFieldNone(fields.items, 0, render);
    }
    if Accepted(t) {
      NestedTruthy(t, "name");
      NestedTruthy(Get(t, "search"), "queries");
      NestedTruthy(Get(t, "schema"), "fields");
      NestedTruthy(Get(t, "extraction"), "system_prompt");
      assert Get(fields, "length") == Num(|fields.items|);
    }
    if Validate(t, render).None? && fields.Str? {
      StringFieldsRejected(fields.s, render);
    }
  }

  /** The checks run in order and the first failing one decides the message;
      an empty string counts as missing. */
  lemma ValidateOrder(t: Yaml, render: Yaml -> string)
    ensures t.Nullish() ==> Validate(t, render) == Some(ReadError(t, "name"))
    ensures !t.Nullish() && !Get(t, "name").Truthy() ==> Validate(t, render) == Some(NameRequired)
    ensures Get(t, "name").Truthy() && !Get(t, "version").Truthy() ==> Validate(t, render) == Some(VersionRequired)
    ensures Get(t, "name").Truthy() && Get(t, "version").Truthy() && !Get(Get(t, "search"), "queries").Truthy()
      ==> Validate(t, render) == Some(QueriesRequired)
    ensures t.Obj? && Get(t, "version") == Str([]) ==> Validate(t, render).Some?
  {
    if Get(t, "name").Truthy() {
      NestedTruthy(t, "name");
    }
  }

  /** With the guards passed, the first field lacking a name or a type is
      the one reported. */
  lemma ValidateReportsFirstBadField(t: Yaml, render: Yaml -> string, j: nat)
    requires Get(t, "name").Truthy() && Get(t, "version").Truthy()
    requires Get(Get(t, "search"), "queries").Truthy()
    requires Get(Get(t, "extraction"), "system_prompt").Truthy()
    requires Get(Get(t, "extraction"), "user_prompt_template").Truthy()
    requires Get(Get(t, "schema"), "fields").List?
    requires j < |Get(Get(t, "schema"), "fields").items|
    requires !FieldDefined(Get(Get(t, "schema"), "fields").items[j])
    requires forall i :: 0 <= i < j ==> FieldDefined(Get(Get(t, "schema"), "fields").items[i])
    ensures Validate(t, render) == Some(FieldError(Get(Get(t, "schema"), "fields").items[j], render))
  {
    var items := Get(Get(t, "schema"), "fields").items;
    NestedTruthy(t, "name");
    NestedTruthy(Get(t, "search"), "queries");
    NestedTruthy(Get(t, "extraction"), "system_prompt");
    assert Get(Get(t, "schema"), "fields").Truthy();
    NestedTruthy(Get(t, "schema"), "fields");
    FirstBadFieldAt(items, 0, j, render);
  }

  /** The loop stops at the first field that is not defined. */
  lemma {:induction false} FirstBadFieldAt(items: seq<Yaml>, from: nat, j: nat, render: Yaml -> string)
    requires from <= j < |items| && !FieldDefined(items[j])
    requires forall i :: from <= i < j ==> FieldDefined(items[i])
    ensures FirstBadField(items, from, render) == Some(FieldError(items[j], render))
    decreases j - from
  {
    if from < j {
      FirstBadFieldAt(items, from + 1, j, render);
    }
  }

  const TemplateFileName: string := "template.yaml"
  const NotFound: string := "Template file not found: "
  const LoadFailed: string := "Failed to load template: "

  /** The body of the try block: read, parse, validate. */
  function ReadAndValidate(file: string, read: string -> Result<string, string>,
                           parse: string -> Result<Yaml, string>, render: Yaml -> string): Result<Yaml, string>
  {
    match read(file)
    case Err(e) => Err(e)
    case Ok(content) =>
      match parse(content)
      case Err(e) => Err(e)
      case Ok(template) =>
        match Validate(template, render)
        case Some(e) => Err(e)
        case None => Ok(template)
  }

  /** loadTemplate: the existence check is made before the try block, so its
      error is the only one not wrapped. */
  function LoadTemplate(templatePath: string, join: (string, string) -> string, fileExists: string -> bool,
                        read: string -> Result<string, string>, parse: string -> Result<Yaml, string>,
                        render: Yaml -> string): (r: Result<Yaml, string>)
    ensures !fileExists(join(templatePath, TemplateFileName)) ==> r == Err(NotFound + join(templatePath, TemplateFileName))
    ensures r.Err? ==> (LoadFailed <= r.error <==> fileExists(join(templatePath, TemplateFileName)))
  {
    var file := join(templatePath, TemplateFileName);
    if !fileExists(file) then
      assert (NotFound + file)[0] != LoadFailed[0];
      Err(NotFound + file)
    else
      match ReadAndValidate(file, read, parse, render)
      case Ok(template) => Ok(template)
      case Err(message) => Err(LoadFailed + message)
  }

  /** A template is returned exactly when the file exists, reads, parses and
      passes validation, and it is the parsed value itself. */
  lemma LoadTemplateSucceeds(templatePath: string, join: (string, string) -> string, fileExists: string -> bool,
                             read: string -> Result<string, string>, parse: string -> Result<Yaml, string>,
                             render: Yaml -> string)
    ensures var file := join(templatePath, TemplateFileName);
      var r := LoadTemplate(templatePath, join, fileExists, read, parse, render);
      && (r.Ok? <==> fileExists(file) && read(file).Ok? && parse(read(file).value).Ok? && Accepted(parse(read(file).value).value))
      && (r.Ok? ==> r.value == parse(read(file).value).value)
  {
    var file := join(templatePath, TemplateFileName);
    if fileExists(file) && read(file).Ok? && parse(read(file).value).Ok? {
      ValidateAccepts(parse(read(file).value).value, render);
    }
  }
}
