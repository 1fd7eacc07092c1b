/** The validator (`parseMeta`, `parseData`): from the decoded cache file to
    the sequence of access-control records, failing on the first problem. */
module Validation {
  import opened Json
  import opened EntityTypes

  /** One grant of a role on a dataset to an entity (`Meta`). */
  datatype Meta = Meta(project: string, dataset: string, role: string, entity: string, entityType: EntityType)

  /** The fields of a record, in the order the validator checks them. */
  datatype Field = Project | Dataset | Role | Entity | EntityTypeCode

  /** The property name a field is stored under in the cache file. */
  function FieldName(f: Field): string {
    match f
    case Project => "Project"
    case Dataset => "Dataset"
    case Role => "Role"
    case Entity => "Entity"
    case EntityTypeCode => "EntityType"
  }

  /** The position of a field in the check order. */
  function CheckOrder(f: Field): nat {
    match f
    case Project => 0
    case Dataset => 1
    case Role => 2
    case Entity => 3
    case EntityTypeCode => 4
  }

  /** What is wrong with the document as a whole. */
  datatype DataProblem = DataNotObject | DataIsNull | MetasNotFound | MetasNotArray

  /** What is wrong with one element of `Metas`. */
  datatype MetaProblem =
    | NotObject
    | IsNull
    | NotFound(field: Field)
    | WrongType(field: Field)
    | OutOfRange

  /** The error the validator throws; a record error carries the record's index. */
  datatype ParseError =
    | DataError(dataProblem: DataProblem)
    | MetaError(index: nat, problem: MetaProblem)

  datatype Result<T> = Ok(value: T) | Err(error: ParseError)

  /** A JSON number that is one of the eight entity-type codes. */
  predicate IsCode(x: real) {
    x == x.Floor as real && 1 <= x.Floor <= 8
  }

  /** Field `f` is present and of the type the schema asks for: a string, or
      for the entity type a number that is one of the codes. */
  predicate FieldValid(props: map<string, Value>, f: Field) {
    FieldName(f) in props &&
    var v := props[FieldName(f)];
    if f == EntityTypeCode then v.JNumber? && IsCode(v.n) else v.JString?
  }

  /** Every field of a record is valid. */
  predicate RecordValid(props: map<string, Value>) {
    && FieldValid(props, Project)
    && FieldValid(props, Dataset)
    && FieldValid(props, Role)
    && FieldValid(props, Entity)
    && FieldValid(props, EntityTypeCode)
  }

  /** `f` is the first field, in check order, that is not valid. */
  predicate FirstInvalid(props: map<string, Value>, f: Field) {
    !FieldValid(props, f) && forall g: Field :: CheckOrder(g) < CheckOrder(f) ==> FieldValid(props, g)
  }

  /** The field a record problem names; the range problem is about the entity type. */
  function ProblemField(p: MetaProblem): Field
    requires p.NotFound? || p.WrongType? || p.OutOfRange?
  {
    if p.OutOfRange? then EntityTypeCode else p.field
  }

  /** The entity-type checks exactly as the source writes them: presence,
      `typeof` number, and a range test that lets any number from 1 to 8
      through, fractions included. */
  function ParseEntityTypeAsWritten(props: map<string, Value>, i: nat): (r: Result<real>)
    ensures r.Ok? <==> "EntityType" in props && props["EntityType"].JNumber?
                       && 1.0 <= props["EntityType"].n <= 8.0
    ensures r.Ok? ==> r.value == props["EntityType"].n
  {
    if "EntityType" !in props then Err(MetaError(i, NotFound(EntityTypeCode)))
    else if !props["EntityType"].JNumber? then Err(MetaError(i, WrongType(EntityTypeCode)))
    else if props["EntityType"].n < 1.0 || props["EntityType"].n > 8.0 then Err(MetaError(i, OutOfRange))
    else Ok(props["EntityType"].n)
  }

  /** The as-written range test accepts 2.5, which is no entity-type code:
      `entityTypeToString` has no case for it and throws. */
  lemma AsWrittenAcceptsFraction()
    ensures ParseEntityTypeAsWritten(map["EntityType" := JNumber(2.5)], 0) == Ok(2.5)
    ensures !IsCode(2.5)
  {
    assert (2.5).Floor == 2;
  }

  /** The entity-type checks with the range test the type asks for: the
      number must be one of the integer codes 1 to 8. */
  function ParseEntityType(props: map<string, Value>, i: nat): (r: Result<EntityType>)
    ensures r.Ok? <==> FieldValid(props, EntityTypeCode)
    ensures r.Ok? ==> r.value as real == props["EntityType"].n
    ensures r.Err? ==> r.error == if ParseEntityTypeAsWritten(props, i).Err?
                                  then ParseEntityTypeAsWritten(props, i).error
                                  else MetaError(i, OutOfRange)
  {
    if "EntityType" !in props then Err(MetaError(i, NotFound(EntityTypeCode)))
    else if !props["EntityType"].JNumber? then Err(MetaError(i, WrongType(EntityTypeCode)))
    else if !IsCode(props["EntityType"].n) then Err(MetaError(i, OutOfRange))
    else Ok(props["EntityType"].n.Floor)
  }

  /** The corrected check differs from the as-written one only on the
      fractional numbers between 1 and 8, which it rejects. */
  lemma CorrectedRejectsOnlyFractions(props: map<string, Value>, i: nat)
    ensures ParseEntityType(props, i).Ok? ==> ParseEntityTypeAsWritten(props, i).Ok?
    ensures ParseEntityTypeAsWritten(props, i).Ok? && !ParseEntityType(props, i).Ok? ==>
              props["EntityType"].n != props["EntityType"].n.Floor as real
    ensures !ParseEntityTypeAsWritten(props, i).Ok? ==>
              ParseEntityType(props, i) == Err(ParseEntityTypeAsWritten(props, i).error)
  {
  }

  /** One element of `Metas` (`parseMeta(meta, i)`). */
  function ParseMeta(meta: Value, i: nat): (r: Result<Meta>)
    ensures r.Ok? <==> meta.JObject? && RecordValid(meta.fields)
    ensures r.Ok? ==> && r.value.project == meta.fields["Project"].s
                      && r.value.dataset == meta.fields["Dataset"].s
                      && r.value.role == meta.fields["Role"].s
                      && r.value.entity == meta.fields["Entity"].s
                      && r.value.entityType as real == meta.fields["EntityType"].n
    ensures r.Err? ==> r.error.MetaError? && r.error.index == i
    ensures !IsTypeofObject(meta) ==> r == Err(MetaError(i, NotObject))
    ensures meta.JNull? ==> r == Err(MetaError(i, IsNull))
    ensures meta.JArray? ==> r == Err(MetaError(i, NotFound(Project)))
    ensures r.Err? && IsTypeofObject(meta) && !meta.JNull? ==>
              var p := r.error.problem;
              && (p.NotFound? || p.WrongType? || p.OutOfRange?)
              && FirstInvalid(Properties(meta), ProblemField(p))
              && (p.NotFound? <==> FieldName(ProblemField(p)) !in Properties(meta))
              && (p.OutOfRange? <==> ProblemField(p) == EntityTypeCode && "EntityType" in Properties(meta)
                                     && Properties(meta)["EntityType"].JNumber?)
  {
    if !IsTypeofObject(meta) then Err(MetaError(i, NotObject))
    else if meta.JNull? then Err(MetaError(i, IsNull))
    else
      var props := Properties(meta);
      if "Project" !in props then Err(MetaError(i, NotFound(Project)))
      else if !props["Project"].JString? then Err(MetaError(i, WrongType(Project)))
      else if "Dataset" !in props then Err(MetaError(i, NotFound(Dataset)))
      else if !props["Dataset"].JString? then Err(MetaError(i, WrongType(Dataset)))
      else if "Role" !in props then Err(MetaError(i, NotFound(Role)))
      else if !props["Role"].JString? then Err(MetaError(i, WrongType(Role)))
      else if "Entity" !in props then Err(MetaError(i, NotFound(Entity)))
      else if !props["Entity"].JString? then Err(MetaError(i, WrongType(Entity)))
      else
        match ParseEntityType(props, i)
        case Err(e) => Err(e)
        case Ok(t) =>
          Ok(Meta(props["Project"].s, props["Dataset"].s, props["Role"].s, props["Entity"].s, t))
  }

  /** `items[k..].map(parseMeta)` with the indices of `items`: the first
      element that fails decides the error. */
  function ParseMetas(items: seq<Value>, k: nat): (r: Result<seq<Meta>>)
    requires k <= |items|
    decreases |items| - k
    ensures r.Ok? <==> forall j :: k <= j < |items| ==> ParseMeta(items[j], j).Ok?
    ensures r.Ok? ==> |r.value| == |items| - k
    ensures r.Ok? ==> forall j :: k <= j < |items| ==> r.value[j - k] == ParseMeta(items[j], j).value
    ensures r.Err? ==> && r.error.MetaError?
                       && k <= r.error.index < |items|
                       && ParseMeta(items[r.error.index], r.error.index) == Err(r.error)
                       && forall j :: k <= j < r.error.index ==> ParseMeta(items[j], j).Ok?
  {
    if k == |items| then Ok([])
    else
      match ParseMeta(items[k], k)
      case Err(e) => Err(e)
      case Ok(m) =>
        match ParseMetas(items, k + 1)
        case Err(e) => Err(e)
        case Ok(ms) => Ok([m] + ms)
  }

  /** The whole document (`parseData`). */
  function ParseData(data: Value): (r: Result<seq<Meta>>)
    ensures r.Ok? <==> && data.JObject? && "Metas" in data.fields && data.fields["Metas"].JArray?
                       && var items := data.fields["Metas"].items;
                          forall j :: 0 <= j < |items| ==> ParseMeta(items[j], j).Ok?
    ensures r.Ok? ==> var items := data.fields["Metas"].items;
                      && |r.value| == |items|
                      && forall j :: 0 <= j < |items| ==> r.value[j] == ParseMeta(items[j], j).value
    ensures !IsTypeofObject(data) ==> r == Err(DataError(DataNotObject))
    ensures data.JNull? ==> r == Err(DataError(DataIsNull))
    ensures data.JArray? ==> r == Err(DataError(MetasNotFound))
    ensures data.JObject? && "Metas" !in data.fields ==> r == Err(DataError(MetasNotFound))
    ensures data.JObject? && "Metas" in data.fields && !data.fields["Metas"].JArray? ==>
              r == Err(DataError(MetasNotArray))
    ensures r.Err? && data.JObject? && "Metas" in data.fields && data.fields["Metas"].JArray? ==>
              r.error.MetaError?
    ensures r.Err? && r.error.MetaError? ==>
              var items := data.fields["Metas"].items;
              && r.error.index < |items|
              && ParseMeta(items[r.error.index], r.error.index) == Err(r.error)
              && forall j :: 0 <= j < r.error.index ==> ParseMeta(items[j], j).Ok?
  {
    if !IsTypeofObject(data) then Err(DataError(DataNotObject))
    else if data.JNull? then Err(DataError(DataIsNull))
    else
      var props := Properties(data);
      if "Metas" !in props then Err(DataError(MetasNotFound))
      else if !props["Metas"].JArray? then Err(DataError(MetasNotArray))
      else ParseMetas(props["Metas"].items, 0)
  }

  /** A document without `Metas` is an error, never an empty record list. */
  lemma EmptyDocumentFails()
    ensures ParseData(JObject(map[])) == Err(DataError(MetasNotFound))
  {
  }
}
