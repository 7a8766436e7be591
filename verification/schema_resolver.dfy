/** Resolution of a logical field against a discovered schema
    (seo_app/schema_resolver.py). */
module SchemaResolver {
  import opened Outcomes
  import opened Lists
  import opened Frames
  import opened SchemaRegistry

  /** A schema: each sheet name with the set of its column names. */
  type Schema = map<string, set<string>>

  /** `resolve_field`: the first alias of `field` that the sheet's column set
      contains. The sheet is looked up inside the loop, so an unknown field
      (no aliases, no iteration) raises `KeyError("Field not found: …")` even
      when the sheet is missing, while a known field on a missing sheet
      raises `KeyError(sheet)`. */
  function ResolveField(schema: Schema, sheet: string, field: string): (r: Result<string, Failure>)
    ensures r.Success? <==> sheet in schema && exists a :: a in Aliases(field) && a in schema[sheet]
    ensures r.Success? ==>
      && r.value in Aliases(field) && r.value in schema[sheet]
      && exists i :: 0 <= i < |Aliases(field)| && Aliases(field)[i] == r.value
                     && forall j :: 0 <= j < i ==> Aliases(field)[j] !in schema[sheet]
    ensures field in ColumnAliases && sheet !in schema ==> r == Failure(KeyError(sheet))
    ensures field !in ColumnAliases ==> r == Failure(KeyError("Field not found: " + field))
    ensures r.Failure? && sheet in schema ==> r.error == KeyError("Field not found: " + field)
  {
    var aliases := Aliases(field);
    if aliases == [] then Failure(KeyError("Field not found: " + field))
    else if sheet !in schema then Failure(KeyError(sheet))
    else match FirstPresent(aliases, schema[sheet])
      case Some(c) => Success(c)
      case None => Failure(KeyError("Field not found: " + field))
  }

  /** Against a schema entry that is exactly the sheet's column set,
      `resolve_field` and `resolve_column` pick the same column and fail
      together (their messages differ). */
  lemma AgreesWithResolveColumn(schema: Schema, sheet: string, columns: seq<string>, field: string)
    requires sheet in schema && schema[sheet] == ToSet(columns)
    ensures ResolveField(schema, sheet, field).Success? <==> ResolveColumn(columns, field).Success?
    ensures ResolveField(schema, sheet, field).Success? ==>
      ResolveField(schema, sheet, field).value == ResolveColumn(columns, field).value
  {
  }
}
